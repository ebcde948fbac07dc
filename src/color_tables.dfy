/** Colour tables (palettes) as both codecs use them: a Java `Color[]`
    that may be null, and the lookup `palette[i]` with its exceptions. */
module ColorTables {
  import opened Results
  import opened Raster

  /** A palette lookup `palette[i]`. */
  function Lookup(palette: Option<seq<RGB>>, i: int): (r: Result<RGB>)
    ensures r.Ok? <==> palette.Some? && 0 <= i < |palette.value|
    ensures r.Ok? ==> r.value == palette.value[i]
    ensures palette.None? ==> r == Fail(NullPalette)
  {
    if palette.None? then Fail(NullPalette)
    else if 0 <= i < |palette.value| then Ok(palette.value[i])
    else Fail(IndexOutOfBounds)
  }

  /** The array `pal` holds the palette `palette`: null for none. */
  ghost predicate Holds(pal: array?<RGB>, palette: Option<seq<RGB>>)
    reads pal
  {
    (pal == null <==> palette.None?) && (pal != null ==> pal[..] == palette.value)
  }

  /** `palette[i]`: null and out-of-range indices throw. */
  method LookupColor(pal: array?<RGB>, ghost palette: Option<seq<RGB>>, i: int) returns (c: Result<RGB>)
    requires Holds(pal, palette)
    ensures c == Lookup(palette, i)
  {
    if pal == null {
      c := Fail(NullPalette);
    } else if 0 <= i < pal.Length {
      c := Ok(pal[i]);
    } else {
      c := Fail(IndexOutOfBounds);
    }
  }
}
