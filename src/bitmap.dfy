/** The in-memory picture the codecs fill (Bitmap): a width x height grid
    of colours, a display name and an ordered list of diagnostic headers. */
module Raster {
  import opened Bytes
  import opened Results

  datatype RGB = RGB(r: byte, g: byte, b: byte)

  const WHITE: RGB := RGB(0xFF, 0xFF, 0xFF)

  /** The value of a diagnostic header; how the source formats it into a
      string is not modelled. */
  datatype HeaderValue =
    | Text(s: string)
    | Number(n: int)
    | Extent(width: int, height: int)   // shown as "<w>px * <h>px"
    | Octets(signed: seq<int>)          // a string built from Java bytes

  type Header = (string, HeaderValue)

  /** A picture as a value, top row first: `rows[y][x]`. */
  datatype Image = Image(width: nat, height: nat, rows: seq<seq<RGB>>) {
    predicate WellFormed()
    {
      |rows| == height && forall y :: 0 <= y < height ==> |rows[y]| == width
    }
  }

  /** The outcome of a successful load: the headers and the picture. */
  datatype Decoded = Decoded(headers: seq<Header>, image: Image)

  /** Two well-formed pictures with the same size and the same colour at
      every position are the same picture. */
  lemma {:induction false} ImageExtensionality(a: Image, b: Image)
    requires a.WellFormed() && b.WellFormed()
    requires a.width == b.width && a.height == b.height
    requires forall x, y :: 0 <= x < a.width && 0 <= y < a.height ==> a.rows[y][x] == b.rows[y][x]
    ensures a == b
  {
    forall y | 0 <= y < a.height
      ensures a.rows[y] == b.rows[y]
    {
      assert forall x :: 0 <= x < a.width ==> a.rows[y][x] == b.rows[y][x];
    }
  }

  /** What setSize makes of a picture: the overlapping top-left region is
      kept, every other position is white. */
  function Resized(img: Image, w: nat, h: nat): (r: Image)
    requires img.WellFormed()
    ensures r.WellFormed() && r.width == w && r.height == h
  {
    Image(w, h, seq(h, y requires 0 <= y < h =>
      seq(w, x requires 0 <= x < w =>
        if x < img.width && y < img.height then img.rows[y][x] else WHITE)))
  }

  /** Resizing to the current size changes nothing. */
  lemma ResizeToSameSize(img: Image)
    requires img.WellFormed()
    ensures Resized(img, img.width, img.height) == img
  {
    ImageExtensionality(Resized(img, img.width, img.height), img);
  }

  /** Shrinking truncates: what remains is the top-left part, unchanged. */
  lemma ShrinkTruncates(img: Image, w: nat, h: nat)
    requires img.WellFormed() && w <= img.width && h <= img.height
    ensures forall x, y :: 0 <= x < w && 0 <= y < h ==> Resized(img, w, h).rows[y][x] == img.rows[y][x]
  {
  }

  /** Enlarging and then resizing back gives the original picture. */
  lemma GrowThenShrink(img: Image, w: nat, h: nat)
    requires img.WellFormed() && img.width <= w && img.height <= h
    ensures Resized(Resized(img, w, h), img.width, img.height) == img
  {
    ImageExtensionality(Resized(Resized(img, w, h), img.width, img.height), img);
  }

  /** The first `h` lines of a grid indexed [x, y], top line first. */
  ghost function GridRows(p: array2<RGB>, h: nat): (rows: seq<seq<RGB>>)
    requires h <= p.Length1
    reads p
    ensures |rows| == h
    ensures forall y :: 0 <= y < h ==> |rows[y]| == p.Length0
    ensures forall x, y :: 0 <= x < p.Length0 && 0 <= y < h ==> rows[y][x] == p[x, y]
  {
    if h == 0 then []
    else GridRows(p, h - 1) + [seq(p.Length0, x requires 0 <= x < p.Length0 reads p => p[x, h - 1])]
  }

  class Bitmap {
    var name: string
    var headers: seq<Header>
    /** `size.width` and `size.height` */
    var width: int32
    var height: int32
    /** `pixels[x][y]` */
    var pixels: array2<RGB>

    ghost predicate Valid()
      reads this
    {
      0 <= width == pixels.Length0 && 0 <= height == pixels.Length1
    }

    /** The grid as a picture value. */
    ghost function Picture(): (img: Image)
      requires Valid()
      reads this, pixels
      ensures img.WellFormed() && img.width == width && img.height == height
      ensures forall x, y :: 0 <= x < width && 0 <= y < height ==> img.rows[y][x] == pixels[x, y]
    {
      Image(width, height, GridRows(pixels, height))
    }

    /** `new Bitmap()`: an empty 0 x 0 bitmap called "Unnamed". */
    constructor ()
      ensures Valid() && fresh(pixels)
      ensures name == "Unnamed" && headers == [] && width == 0 && height == 0
    {
      name := "Unnamed";
      headers := [];
      width, height := 0, 0;
      pixels := new RGB[0, 0];
      new;
      var _ := SetSize(0, 0);
    }

    /** `new Bitmap(name)`, which the codecs call: an empty 0 x 0 bitmap
        with the given name. */
    constructor Named(name: string)
      ensures Valid() && fresh(pixels)
      ensures this.name == name && headers == [] && width == 0 && height == 0
    {
      this.name := name;
      headers := [];
      width, height := 0, 0;
      pixels := new RGB[0, 0];
      new;
      var _ := SetSize(0, 0);
    }

    /** Appends a diagnostic header, keeping insertion order. */
    method AddHeader(key: string, value: HeaderValue)
      modifies this
      ensures headers == old(headers) + [(key, value)]
      ensures name == old(name) && width == old(width) && height == old(height) && pixels == old(pixels)
    {
      headers := headers + [(key, value)];
    }

    /** Replaces the grid by a new one of the given size, keeping the
        top-left overlap and filling the rest with white. A negative size
        fails at the allocation, before anything changes. */
    method SetSize(w: int32, h: int32) returns (ok: bool)
      requires Valid()
      modifies this
      ensures Valid()
      ensures ok <==> 0 <= w && 0 <= h
      ensures !ok ==> unchanged(this)
      ensures ok ==> width == w && height == h && fresh(pixels)
      ensures ok ==> forall x, y :: 0 <= x < w && 0 <= y < h ==>
        pixels[x, y] == if x < old(width) && y < old(height) then old(pixels[x, y]) else WHITE
      ensures ok ==> Picture() == Resized(old(Picture()), w, h)
      ensures ok && w == old(width) && h == old(height) ==>
        forall x, y :: 0 <= x < w && 0 <= y < h ==> pixels[x, y] == old(pixels[x, y])
      ensures name == old(name) && headers == old(headers)
    {
      if w < 0 || h < 0 {
        // new Color[width][height] throws NegativeArraySizeException
        return false;
      }
      ghost var before := Picture();
      var oldW, oldH, oldPixels := width, height, pixels;
      var newPixels := new RGB[w, h];
      for x := 0 to w
        modifies newPixels
        invariant forall i, j :: 0 <= i < x && 0 <= j < h ==>
          newPixels[i, j] == if i < oldW && j < oldH then oldPixels[i, j] else WHITE
      {
        for y := 0 to h
          modifies newPixels
          invariant forall i, j :: 0 <= i < x && 0 <= j < h ==>
            newPixels[i, j] == if i < oldW && j < oldH then oldPixels[i, j] else WHITE
          invariant forall j :: 0 <= j < y ==>
            newPixels[x, j] == if x < oldW && j < oldH then oldPixels[x, j] else WHITE
        {
          if x < oldW && y < oldH {
            newPixels[x, y] := oldPixels[x, y];
          } else {
            newPixels[x, y] := WHITE;
          }
        }
      }
      pixels := newPixels;
      width, height := w, h;
      ok := true;
      ImageExtensionality(Picture(), Resized(before, w, h));
    }

    function GetSize(): (size: (int32, int32))
      reads this
      ensures size.0 == width && size.1 == height
    {
      (width, height)
    }

    /** `pixels[x][y] = color`: a coordinate outside the grid throws
        ArrayIndexOutOfBoundsException and changes nothing. */
    method SetPixel(x: int, y: int, color: RGB) returns (r: Result<()>)
      requires Valid()
      modifies pixels
      ensures r.Ok? <==> 0 <= x < width && 0 <= y < height
      ensures r.Fail? ==> r.error == IndexOutOfBounds
      ensures r.Ok? ==> pixels[x, y] == color
      ensures forall i, j :: 0 <= i < width && 0 <= j < height && (i != x || j != y) ==>
        pixels[i, j] == old(pixels[i, j])
    {
      if 0 <= x < width && 0 <= y < height {
        pixels[x, y] := color;
        r := Ok(());
      } else {
        r := Fail(IndexOutOfBounds);
      }
    }

    /** `pixels[x][y]`, or ArrayIndexOutOfBoundsException outside the grid. */
    function GetPixel(x: int, y: int): (c: Result<RGB>)
      requires Valid()
      reads this, pixels
      ensures c.Ok? <==> 0 <= x < width && 0 <= y < height
      ensures c.Fail? ==> c.error == IndexOutOfBounds
      ensures c.Ok? ==> c.value == pixels[x, y] == Picture().rows[y][x]
    {
      if 0 <= x < width && 0 <= y < height then Ok(pixels[x, y]) else Fail(IndexOutOfBounds)
    }
  }
}
