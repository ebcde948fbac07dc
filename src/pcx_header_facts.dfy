/** What `PCX.load` checks in the header, how it chooses the palette, and
    how it expands the scanline octets into colours. */
module PcxHeaderFacts {
  import opened Bytes
  import opened Results
  import opened InputLE
  import opened Raster
  import opened ColorTables
  import opened PcxFormat

  /** The picture width the window's corners give. */
  function WindowWidth(data: seq<byte>): (w: int)
    ensures -0x1_0000 < w <= 0x1_0000
  {
    ShortAt(data, 8) - ShortAt(data, 4) + 1
  }

  /** The picture height the window's corners give. */
  function WindowHeight(data: seq<byte>): (h: int)
    ensures -0x1_0000 < h <= 0x1_0000
  {
    ShortAt(data, 10) - ShortAt(data, 6) + 1
  }

  /** The plane layouts the loader accepts: one plane, or three at 8 bits per pixel. */
  predicate PlanesSupported(planes: byte, bpp: byte)
  {
    planes == 1 || (planes == 3 && bpp == 8)
  }

  /** The header checks in the order the loader makes them: the identifier,
      the encoding, the size, the plane layout; each rejects with its own
      error, whatever follows it. */
  lemma HeaderRejects(data: seq<byte>)
    ensures ByteAt(data, 0) != 0x0A ==> ParsePcxHeader(data) == Fail(InvalidHeader)
    ensures ByteAt(data, 0) == 0x0A && ByteAt(data, 2) != 1 ==> ParsePcxHeader(data) == Fail(UnsupportedEncoding)
    ensures ByteAt(data, 0) == 0x0A && ByteAt(data, 2) == 1 && (WindowWidth(data) < 0 || WindowHeight(data) < 0)
      ==> ParsePcxHeader(data) == Fail(NegativeArraySize)
    ensures && ByteAt(data, 0) == 0x0A && ByteAt(data, 2) == 1 && 0 <= WindowWidth(data) && 0 <= WindowHeight(data)
            && !PlanesSupported(ByteAt(data, ArrayReadEnd(data, 16, 48) + 1), ByteAt(data, 3))
      ==> ParsePcxHeader(data) == Fail(UnsupportedPlanes)
  {
    SignedOctetIs(ByteAt(data, 0), 0x0A);
    SignedOctetIs(ByteAt(data, 2), 1);
  }

  /** For a Java byte, comparing with a constant below 0x80 is comparing the octet. */
  lemma SignedOctetIs(u: byte, c: byte)
    requires c < 0x80
    ensures S8(u) == c <==> u == c
  {
  }

  /** A header of at least 64 octets passes exactly when every check
      passes, and then the loader knows the version, the depth, the size
      from the window, the EGA palette, the plane count at 65, the bytes
      per line at 66 (0xFF octets where a short file ends) and that the
      scanlines start at 128. */
  lemma HeaderAccepts(data: seq<byte>)
    requires 64 <= |data|
    ensures ParsePcxHeader(data).Ok? <==>
      && data[0] == 0x0A && data[2] == 1 && 0 <= WindowWidth(data) && 0 <= WindowHeight(data)
      && PlanesSupported(ByteAt(data, 65), data[3])
    ensures ParsePcxHeader(data).Ok? ==>
      ParsePcxHeader(data).value
        == PcxHeader(data[1], data[3], WindowWidth(data), WindowHeight(data), EgaOctets(data), ByteAt(data, 65),
                     ShortAt(data, 66), 128)
  {
    HeaderRejects(data);
  }

  /** `load` fails as the header does, and divides by zero for 0 bits per
      pixel once the header passes. */
  lemma LoadRejects(data: seq<byte>)
    ensures ParsePcxHeader(data).Fail? ==> DecodePcx(data) == Fail(ParsePcxHeader(data).error)
    ensures ParsePcxHeader(data).Ok? && ParsePcxHeader(data).value.bpp == 0 ==> DecodePcx(data) == Fail(DivisionByZero)
  {
  }

  /** Where the skip before the palette leaves the loader: 769 octets
      before the end by its count, when more than that remain. */
  function PaletteMarker(data: seq<byte>, hd: PcxHeader, end: int): int
  {
    end + (|data| - ReadCount(hd, end) - 769)
  }

  /** The palette choice. 24-bit colour has none. Otherwise, with `left`
      octets remaining by the loader's count: fewer than 769 gives the EGA
      palette; from 769 on, as long as the skip fits a Java `int`, the
      octet that the skip leaves exactly 769 from the end decides: 0x0C
      gives the VGA palette right after it, and anything else the EGA one;
      a skip that wraps to a negative count fails. */
  lemma PaletteChosen(data: seq<byte>, hd: PcxHeader, end: int)
    requires |hd.ega| == 48
    ensures TrueColor(hd) ==> ChoosePalette(data, hd, end) == Ok(PaletteChoice(None, false))
    ensures !TrueColor(hd) && |data| - ReadCount(hd, end) < 769 ==>
      ChoosePalette(data, hd, end) == Ok(PaletteChoice(Some(EgaPalette(hd.ega)), false))
    ensures !TrueColor(hd) && 769 <= |data| - ReadCount(hd, end) < 769 + 0x8000_0000 ==>
      ChoosePalette(data, hd, end) ==
        if ByteAt(data, PaletteMarker(data, hd, end)) == 0x0C
        then Ok(PaletteChoice(Some(VgaPalette(data, PaletteMarker(data, hd, end) + 1)), true))
        else Ok(PaletteChoice(Some(EgaPalette(hd.ega)), false))
    ensures ChoosePalette(data, hd, end).Fail? <==>
      !TrueColor(hd) && 769 < |data| - ReadCount(hd, end) && I32(|data| - ReadCount(hd, end) - 769) < 0
  {
    var left := |data| - ReadCount(hd, end);
    if !TrueColor(hd) && 769 <= left < 769 + 0x8000_0000 {
      var pos := if left > 769 then end + I32(left - 769) else end;
      assert pos == PaletteMarker(data, hd, end);
      SignedOctetIs(ByteAt(data, pos), 0x0C);
    }
  }

  /** The EGA component `(c >> 6) & 0xFF` of a stored octet read as a Java
      byte: 0 for 0x00-0x3F, 1 for 0x40-0x7F, 254 for 0x80-0xBF and 255
      for 0xC0-0xFF. */
  lemma EgaLevels(u: byte)
    ensures EgaLevel(S8(u)) == if u < 0x40 then 0 else if u < 0x80 then 1 else if u < 0xC0 then 254 else 255
  {
    var c := S8(u);
    var c3 := c / 2 / 2 / 2;
    assert ShiftRight(c, 6) == ShiftRight(c3, 3);
    assert ShiftRight(c3, 3) == c3 / 2 / 2 / 2;
  }

  /** The EGA palette and the VGA palette the loader can choose. */
  predicate FullPalette(choice: PaletteChoice)
  {
    choice.palette.Some? && |choice.palette.value| == if choice.vga then 256 else 16
  }

  /** Every choice that `ChoosePalette` makes for an indexed picture is full. */
  lemma ChosenPaletteFull(data: seq<byte>, hd: PcxHeader, end: int)
    requires |hd.ega| == 48 && !TrueColor(hd) && ChoosePalette(data, hd, end).Ok?
    ensures FullPalette(ChoosePalette(data, hd, end).value)
  {
  }

  /** At 8 bits in one plane, the octet is the palette index: above 15 it
      needs the VGA palette, and otherwise (or with it) it always finds its
      colour. */
  lemma IndexedPixel(line: seq<byte>, choice: PaletteChoice, bpl: int, x: nat)
    requires FullPalette(choice) && x < |line|
    ensures PcxPixel(line, choice, 8, 1, bpl, x) ==
      if line[x] > 15 && !choice.vga then Fail(MissingVgaPalette) else Ok(choice.palette.value[line[x]])
  {
  }

  /** At 1 bit per pixel, the eight pixels of octet `i` are its bits, most
      significant first: pixel `8i + j` is bit `7 - j`. */
  lemma BitPixels(line: seq<byte>, choice: PaletteChoice, planes: int, bpl: int, i: nat, j: nat)
    requires choice.palette.Some? && i < |line| && j < 8
    ensures PcxPixel(line, choice, 1, planes, bpl, 8 * i + j) == Lookup(choice.palette, Bit(line[i], 7 - j))
  {
    var x := 8 * i + j;
    assert x / 8 == i && x % 8 == j;
  }

  /** At 4 bits per pixel, pixel `2i` is the high nibble of octet `i` and
      pixel `2i + 1` the low one. */
  lemma NibblePixels(line: seq<byte>, choice: PaletteChoice, planes: int, bpl: int, i: nat)
    requires choice.palette.Some? && i < |line|
    ensures PcxPixel(line, choice, 4, planes, bpl, 2 * i) == Lookup(choice.palette, Nibble(line[i], true))
    ensures PcxPixel(line, choice, 4, planes, bpl, 2 * i + 1) == Lookup(choice.palette, Nibble(line[i], false))
  {
    assert (2 * i) / 2 == i && (2 * i + 1) / 2 == i;
  }

  /** At 8 bits in three planes of `bpl` octets, pixel `x` takes its red,
      green and blue from the three planes. */
  lemma PlanePixel(line: seq<byte>, choice: PaletteChoice, bpl: nat, x: nat)
    requires x < bpl && |line| == 3 * bpl
    ensures PcxPixel(line, choice, 8, 3, bpl, x) == Ok(RGB(line[x], line[bpl + x], line[2 * bpl + x]))
  {
  }

  /** Depths other than 1, 4 and 8, and 8 bits in a plane count other
      than 1 and 3, are never expanded. */
  lemma OtherDepthsRejected(line: seq<byte>, choice: PaletteChoice, bpp: int, planes: int, bpl: int, x: nat)
    requires bpp !in {1, 4, 8} || (bpp == 8 && planes != 1 && planes != 3)
    ensures PcxPixel(line, choice, bpp, planes, bpl, x) == Fail(InvalidColorEncoding)
  {
  }
}
