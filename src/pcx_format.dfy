/** What `PCX.load` computes from a file's octets and what `PCX.save`
    writes, as functions. Positions are logical: they keep counting past the
    end of the data, where every read sees 0xFF. Scanline octets are kept
    unsigned; the source only ever masks them with 0xFF or compares them
    with each other, so their sign never shows. */
module PcxFormat {
  import opened Bytes
  import opened Results
  import opened InputLE
  import opened OutputLE
  import opened Raster
  import opened ColorTables

  /** Where `read(byte[n])` started at `p` leaves the cursor: nothing moves
      at the end of the data, otherwise as many octets as remain, at most n. */
  function ArrayReadEnd(data: seq<byte>, p: int, n: nat): (q: int)
    ensures q >= p
    ensures p + n <= |data| ==> q == p + n
  {
    if n == 0 || p >= |data| then p else p + Min(n, |data| - p)
  }

  /** The 48-octet EGA palette at position 16, as the Java bytes that
      `read(egaPalette)` leaves in a fresh array (0 where the data ends). */
  function EgaOctets(data: seq<byte>): (ega: seq<int>)
    ensures |ega| == 48
    ensures forall i :: 0 <= i < 48 ==> ega[i] == if 16 + i < |data| then S8(data[16 + i]) else 0
  {
    seq(48, i requires 0 <= i < 48 => if 16 + i < |data| then S8(data[16 + i]) else 0)
  }

  /** Everything the loader knows once the 128-octet header is behind it. */
  datatype PcxHeader = PcxHeader(
    version: byte,
    bpp: byte,
    width: int32,
    height: int32,
    ega: seq<int>,        // the EGA palette octets as Java bytes
    planes: byte,
    bytesPerLine: int,
    start: int)           // logical position of the first scanline

  /** Manufacturer 0x0A at 0, version at 1, encoding 1 (RLE) at 2, bits per
      pixel at 3, the window xStart, yStart, xEnd, yEnd as 16-bit fields at
      4..11, resolution skipped, the EGA palette at 16, a reserved octet, the
      plane count, bytes per line, and 60 ignored octets. */
  function ParsePcxHeader(data: seq<byte>): (r: Result<PcxHeader>)
    ensures r.Ok? ==> 0 <= r.value.width && 0 <= r.value.height && |r.value.ega| == 48
  {
    if S8(ByteAt(data, 0)) != 0x0A then Fail(InvalidHeader)
    else if S8(ByteAt(data, 2)) != 1 then Fail(UnsupportedEncoding)
    else WindowFields(data)
  }

  /** The header from the window on: a size from the window's corners,
      which fails as an array size when negative, then the plane fields. */
  function WindowFields(data: seq<byte>): (r: Result<PcxHeader>)
    ensures r.Ok? ==> 0 <= r.value.width && 0 <= r.value.height && |r.value.ega| == 48
  {
    var w := ShortAt(data, 8) - ShortAt(data, 4) + 1;
    var h := ShortAt(data, 10) - ShortAt(data, 6) + 1;
    if w < 0 || h < 0 then Fail(NegativeArraySize)
    else PlaneFields(data, w, h)
  }

  /** The header after the window of a `w` x `h` picture: the EGA palette,
      the plane count (1, or 3 at 8 bits per pixel) and the bytes per line. */
  function PlaneFields(data: seq<byte>, w: int32, h: int32): (r: Result<PcxHeader>)
    requires 0 <= w && 0 <= h
    ensures r.Ok? ==> r.value.width == w && r.value.height == h && |r.value.ega| == 48
  {
    var c := ArrayReadEnd(data, 16, 48);
    var bpp := ByteAt(data, 3);
    var planes := ByteAt(data, c + 1);
    if !((planes == 3 && bpp == 8) || planes == 1) then Fail(UnsupportedPlanes)
    else Ok(PcxHeader(ByteAt(data, 1), bpp, w, h, EgaOctets(data), planes, ShortAt(data, c + 2), c + 64))
  }

  /** The headers the loader records while it reads the file header. */
  function PcxHeaders(hd: PcxHeader): (hs: seq<Header>)
    ensures |hs| == 4
  {
    [("PCX Version", Number(hd.version)), ("Bpp", Number(hd.bpp)),
     ("Size", Extent(hd.width, hd.height)), ("Color planes", Number(hd.planes))]
  }

  /** A picture with 8 bits in each of 3 planes is 24-bit colour and has no palette. */
  predicate TrueColor(hd: PcxHeader)
  {
    hd.bpp == 8 && hd.planes == 3
  }

  /** The header recorded once the palette is chosen; a VGA palette is
      recorded under the same text as an EGA one. */
  function PaletteHeaders(hd: PcxHeader): (hs: seq<Header>)
    ensures |hs| == if TrueColor(hd) then 0 else 1
  {
    if TrueColor(hd) then [] else [("Palette", Text("EGA"))]
  }

  // ----- run-length decoding of the scanlines -----

  /** `n` copies of `v`. */
  function Copies(v: byte, n: nat): (r: seq<byte>)
    ensures |r| == n && forall i :: 0 <= i < n ==> r[i] == v
  {
    seq(n, i => v)
  }

  /** One step of the decoder at `p`: an octet with both top bits set holds
      a count in its low six bits (for such an octet, its excess over 0xC0)
      and the value is the next octet; any other octet stands for itself.
      Gives the count, the value and the position after the step. */
  function Run(data: seq<byte>, p: int): (run: (nat, byte, int))
    ensures run.0 < 0x40
  {
    var b := ByteAt(data, p);
    if b >= 0xC0 then (b - 0xC0, ByteAt(data, p + 1), p + 2) else (1, b, p + 1)
  }

  /** A decoded scanline and the position after it. */
  datatype Line = Line(octets: seq<byte>, end: int)

  /** The do-while loop filling one scanline of `n` octets from position
      `p`, with `acc` already filled: runs are appended until the line is
      full; a run that overfills it writes past the row and fails. */
  function DecodeLine(data: seq<byte>, p: int, n: nat, acc: seq<byte>): (r: Result<Line>)
    requires |acc| <= n
    ensures r.Ok? ==> |r.value.octets| == n
    ensures r.Fail? ==> r.error == IndexOutOfBounds
    decreases n - |acc|, if p < |data| then |data| - p else 0
  {
    var (len, v, q) := Run(data, p);
    if |acc| + len > n then Fail(IndexOutOfBounds)
    else
      var acc' := acc + Copies(v, len);
      if |acc'| >= n then Ok(Line(acc', q))
      else
        assert len == 0 ==> ByteAt(data, p) == 0xC0 && p < |data|;
        DecodeLine(data, q, n, acc')
  }

  /** The first `h` scanlines, top first, and the position after them. */
  datatype Scan = Scan(lines: seq<seq<byte>>, end: int)

  function DecodeLines(data: seq<byte>, start: int, n: nat, h: nat): (r: Result<Scan>)
    ensures r.Ok? ==> |r.value.lines| == h && forall l :: 0 <= l < h ==> |r.value.lines[l]| == n
    ensures r.Fail? ==> r.error == IndexOutOfBounds
  {
    if h == 0 then Ok(Scan([], start))
    else
      var s :- DecodeLines(data, start, n, h - 1);
      var line :- DecodeLine(data, s.end, n, []);
      Ok(Scan(s.lines + [line.octets], line.end))
  }

  /** Once a scanline fails, every longer prefix of the scanlines fails. */
  lemma {:induction false} DecodeLinesFailStays(data: seq<byte>, start: int, n: nat, k: nat, h: nat)
    requires k <= h && DecodeLines(data, start, n, k).Fail?
    ensures DecodeLines(data, start, n, h).Fail?
    decreases h - k
  {
    if k < h {
      DecodeLinesFailStays(data, start, n, k, h - 1);
    }
  }

  // ----- the palette -----

  /** `(c >> 6) & 0xFF` on a Java byte of the EGA palette. */
  function EgaLevel(c: int): byte
  {
    ShiftRight(c, 6) % 0x100
  }

  /** The 16 colours of the header's EGA palette, each component mapped by EgaLevel. */
  function EgaPalette(ega: seq<int>): (pal: seq<RGB>)
    requires |ega| == 48
    ensures |pal| == 16
    ensures forall i :: 0 <= i < 16 ==>
      pal[i] == RGB(EgaLevel(ega[3 * i]), EgaLevel(ega[3 * i + 1]), EgaLevel(ega[3 * i + 2]))
  {
    seq(16, i requires 0 <= i < 16 => RGB(EgaLevel(ega[3 * i]), EgaLevel(ega[3 * i + 1]), EgaLevel(ega[3 * i + 2])))
  }

  /** The 256 colours of a VGA palette whose first octet is at `p`. */
  function VgaPalette(data: seq<byte>, p: int): (pal: seq<RGB>)
    ensures |pal| == 256
    ensures forall i :: 0 <= i < 256 ==>
      pal[i] == RGB(ByteAt(data, p + 3 * i), ByteAt(data, p + 3 * i + 1), ByteAt(data, p + 3 * i + 2))
  {
    seq(256, i => RGB(ByteAt(data, p + 3 * i), ByteAt(data, p + 3 * i + 1), ByteAt(data, p + 3 * i + 2)))
  }

  /** The palette the pixels are looked up in (none for 24-bit colour) and
      whether it came from the VGA block at the end of the file. */
  datatype PaletteChoice = PaletteChoice(palette: Option<seq<RGB>>, vga: bool)

  /** The octet count the loader keeps while reading (`readBytes`, a Java
      `int`): the header's 128 plus every octet read for the scanlines. */
  function ReadCount(hd: PcxHeader, end: int): int32
  {
    I32(128 + (end - hd.start))
  }

  /** After the scanlines, read from logical position `end`: unless the
      picture is 24-bit, skip so that at most 769 octets remain by the
      loader's count; if exactly 769 remain and the next octet is 0x0C, the
      256-colour VGA palette follows it, otherwise the EGA palette of the
      header is used. */
  function ChoosePalette(data: seq<byte>, hd: PcxHeader, end: int): (r: Result<PaletteChoice>)
    requires |hd.ega| == 48
    ensures r.Ok? && !TrueColor(hd) ==> r.value.palette.Some?
    ensures r.Fail? ==> r.error == NegativeSkip
  {
    if TrueColor(hd) then Ok(PaletteChoice(None, false))
    else
      var left := |data| - ReadCount(hd, end);
      var skip := I32(left - 769);
      if left > 769 && skip < 0 then Fail(NegativeSkip)
      else
        var pos := if left > 769 then end + skip else end;
        if left >= 769 && S8(ByteAt(data, pos)) == 0x0C then Ok(PaletteChoice(Some(VgaPalette(data, pos + 1)), true))
        else Ok(PaletteChoice(Some(EgaPalette(hd.ega)), false))
  }

  // ----- pixels -----

  /** The colour of pixel `x` of a scanline. 1 bit per pixel: the bits of
      each octet, most significant first; 4 bits: the high nibble first;
      8 bits in one plane: a palette index, above 15 only with a VGA
      palette; 8 bits in three planes: red, green and blue planes of
      `bytesPerLine` octets each. Anything else is rejected. */
  function PcxPixel(line: seq<byte>, choice: PaletteChoice, bpp: int, planes: int, bpl: int, x: nat): (r: Result<RGB>)
  {
    if bpp == 1 && choice.palette.Some? then
      if x / 8 < |line| then Lookup(choice.palette, Bit(line[x / 8], 7 - x % 8)) else Fail(IndexOutOfBounds)
    else if bpp == 4 && choice.palette.Some? then
      if x / 2 < |line| then Lookup(choice.palette, Nibble(line[x / 2], x % 2 == 0)) else Fail(IndexOutOfBounds)
    else if bpp == 8 && planes == 1 then
      if x < |line| then
        if line[x] > 15 && !choice.vga then Fail(MissingVgaPalette) else Lookup(choice.palette, line[x])
      else Fail(IndexOutOfBounds)
    else if bpp == 8 && planes == 3 then
      if x < |line| && 0 <= bpl + x < |line| && 0 <= 2 * bpl + x < |line| then
        Ok(RGB(line[x], line[bpl + x], line[2 * bpl + x]))
      else Fail(IndexOutOfBounds)
    else Fail(InvalidColorEncoding)
  }

  /** The pixels of one row, left to right. */
  function PcxPixels(line: seq<byte>, choice: PaletteChoice, bpp: int, planes: int, bpl: int, w: nat): (ps: seq<Result<RGB>>)
    ensures |ps| == w && forall x :: 0 <= x < w ==> ps[x] == PcxPixel(line, choice, bpp, planes, bpl, x)
  {
    seq(w, x requires 0 <= x < w => PcxPixel(line, choice, bpp, planes, bpl, x))
  }

  /** The first `k` rows of pixels, top first. */
  function PcxRows(lines: seq<seq<byte>>, choice: PaletteChoice, bpp: int, planes: int, bpl: int, w: nat, k: nat)
    : (rs: seq<Result<seq<RGB>>>)
    requires k <= |lines|
    ensures |rs| == k
    ensures forall y :: 0 <= y < k && rs[y].Ok? ==> |rs[y].value| == w
  {
    if k == 0 then []
    else PcxRows(lines, choice, bpp, planes, bpl, w, k - 1) + [Collect(PcxPixels(lines[k - 1], choice, bpp, planes, bpl, w))]
  }

  /** Row `y` of the first `k` rows. */
  lemma {:induction false} PcxRowAt(lines: seq<seq<byte>>, choice: PaletteChoice, bpp: int, planes: int, bpl: int,
                                    w: nat, k: nat, y: nat)
    requires y < k <= |lines|
    ensures PcxRows(lines, choice, bpp, planes, bpl, w, k)[y] == Collect(PcxPixels(lines[y], choice, bpp, planes, bpl, w))
  {
    if y < k - 1 {
      PcxRowAt(lines, choice, bpp, planes, bpl, w, k - 1, y);
    }
  }

  /** `PCX.load`: header, scanline buffer, palette, then every pixel in
      row-major order; the first failure wins. `8 / bpp` is evaluated (and
      divides by zero) before the buffer is allocated, and the buffer
      allocation rejects a negative scanline length even for no rows. */
  function DecodePcx(data: seq<byte>): (r: Result<Decoded>)
    ensures r.Ok? ==> r.value.image.WellFormed()
  {
    var hd :- ParsePcxHeader(data);
    var n := hd.planes * hd.bytesPerLine;
    if hd.bpp == 0 then Fail(DivisionByZero)
    else if n < 0 then Fail(NegativeArraySize)
    else
      var scan :- DecodeLines(data, hd.start, n, hd.height);
      var choice :- ChoosePalette(data, hd, scan.end);
      var rows :- Collect(PcxRows(scan.lines, choice, hd.bpp, hd.planes, hd.bytesPerLine, hd.width, hd.height));
      CollectOkAll(PcxRows(scan.lines, choice, hd.bpp, hd.planes, hd.bytesPerLine, hd.width, hd.height));
      Ok(Decoded(PcxHeaders(hd) + PaletteHeaders(hd), Image(hd.width, hd.height, rows)))
  }

  // ----- what save writes -----

  /** The 128-octet header of a saved file: version 5, RLE, 8 bits in 3
      planes, the window 0,0 .. w-1,h-1, 600 dpi, an all-zero EGA palette,
      `w` bytes per line, palette type 1, the screen size w x h, and 54
      reserved zero octets. */
  function SavedPcxHeader(w: int, h: int): (r: seq<byte>)
    ensures |r| == 128
  {
    SavedSignature() + SavedWindow(w, h) + Zeros(48) + SavedLineInfo(w, h) + Zeros(54)
  }

  /** Manufacturer 0x0A, version 5, run-length encoding, 8 bits per pixel. */
  function SavedSignature(): (r: seq<byte>)
    ensures |r| == 4
  {
    [0x0A, 5, 1, 8]
  }

  /** Window (0, 0)-(w - 1, h - 1) and a resolution of 600 by 600. */
  function SavedWindow(w: int, h: int): (r: seq<byte>)
    ensures |r| == 12
  {
    ShortBytes(0) + ShortBytes(0) + ShortBytes(w - 1) + ShortBytes(h - 1) + ShortBytes(600) + ShortBytes(600)
  }

  /** Reserved 0, three planes, `w` octets per plane line, palette type 1,
      screen size `w` x `h`. */
  function SavedLineInfo(w: int, h: int): (r: seq<byte>)
    ensures |r| == 10
  {
    [0, 3] + ShortBytes(w) + ShortBytes(1) + ShortBytes(w) + ShortBytes(h)
  }

  /** A row as one scanline of three planes: all the reds, then all the
      greens, then all the blues. */
  function PlaneLine(row: seq<RGB>): (line: seq<byte>)
    ensures |line| == 3 * |row|
    ensures forall x :: 0 <= x < |row| ==>
      line[x] == row[x].r && line[|row| + x] == row[x].g && line[2 * |row| + x] == row[x].b
  {
    seq(|row|, x requires 0 <= x < |row| => row[x].r)
    + seq(|row|, x requires 0 <= x < |row| => row[x].g)
    + seq(|row|, x requires 0 <= x < |row| => row[x].b)
  }

  /** The scanline length save works with, `3 * bytesPerLine` as a Java
      `int`. It fails for a negative length at the allocation, for a
      wrapped one at the first green octet, and for an empty line at the
      encoder's first read. */
  function SaveScan(w: int32): (r: Result<nat>)
    ensures r.Ok? <==> 0 < w && 3 * w < 0x8000_0000
    ensures r.Ok? ==> r.value == 3 * w
  {
    var n := I32(3 * w);
    if n < 0 then Fail(NegativeArraySize)
    else if n != 3 * w || w == 0 then Fail(IndexOutOfBounds)
    else Ok(n)
  }

  /** How many octets after the one at `i` continue its run, counting up
      from `k`: a run covers at most 63 octets and stays inside the line. */
  function RunFrom(line: seq<byte>, i: nat, k: nat): (m: nat)
    requires i + k < |line| && k <= 62
    ensures k <= m <= 62 && i + m < |line|
    decreases 62 - k
  {
    if k < 62 && i + k + 1 < |line| && line[i + k] == line[i + k + 1] then RunFrom(line, i, k + 1) else k
  }

  /** A run the encoder finds: `count` copies of `value`. */
  datatype Repeat = Repeat(count: nat, value: byte)

  /** Every run covers 1 to 63 octets. */
  predicate Counted(rs: seq<Repeat>)
  {
    forall j :: 0 <= j < |rs| ==> 0 < rs[j].count < 0x40
  }

  /** The runs `save` finds in a scanline from `i` on, one after the other:
      each as long as `RunFrom` counts, the next starting right after it. */
  function RunsFrom(line: seq<byte>, i: nat): (rs: seq<Repeat>)
    requires i < |line|
    ensures |rs| > 0 && Counted(rs)
    decreases |line| - i
  {
    [Repeat(RunFrom(line, i, 0) + 1, line[i])]
    + if i + RunFrom(line, i, 0) + 1 < |line| then RunsFrom(line, i + RunFrom(line, i, 0) + 1) else []
  }

  /** The octets written for a run: a count octet `count | 0xC0` and the
      value for a run of two or more; a single octet with both top bits
      set is escaped as a run of one (0xC1); any other single octet is
      written as itself. */
  function RunCode(run: Repeat): (code: seq<byte>)
    requires 0 < run.count < 0x40
  {
    if run.count > 1 then [0xC0 + run.count, run.value]
    else if run.value >= 0xC0 then [0xC1, run.value]
    else [run.value]
  }

  /** The codes of some runs, one after the other. */
  function RunCodes(rs: seq<Repeat>): (out: seq<byte>)
    requires Counted(rs)
  {
    if |rs| == 0 then [] else RunCode(rs[0]) + RunCodes(rs[1..])
  }

  /** The encoding of a scanline: the codes of the runs `save` finds in
      it (nothing for an empty scanline, which the encoder rejects). */
  function EncodedLine(line: seq<byte>): (out: seq<byte>)
  {
    if |line| == 0 then [] else RunCodes(RunsFrom(line, 0))
  }

  /** The runs from `i` on are the run at `i` and then the runs after it. */
  lemma RunsFromSplit(line: seq<byte>, i: nat, next: nat)
    requires i < |line| && next == i + RunFrom(line, i, 0) + 1
    ensures RunsFrom(line, i)[0] == Repeat(RunFrom(line, i, 0) + 1, line[i])
    ensures RunsFrom(line, i)[1..] == if next < |line| then RunsFrom(line, next) else []
  {
  }

  /** The codes of some runs are the code of the first and then those of the rest. */
  lemma RunCodesCons(rs: seq<Repeat>, first: seq<byte>, rest: seq<byte>)
    requires |rs| > 0 && Counted(rs) && RunCode(rs[0]) == first && RunCodes(rs[1..]) == rest
    ensures RunCodes(rs) == first + rest
  {
  }

  /** The code of a scanline from run `i` on is the code of that run and
      then the code from the run after it on. */
  lemma RunCodesStep(line: seq<byte>, i: nat, next: nat)
    requires i < |line| && next == i + RunFrom(line, i, 0) + 1
    ensures RunCodes(RunsFrom(line, i))
      == RunCode(Repeat(RunFrom(line, i, 0) + 1, line[i])) + if next < |line| then RunCodes(RunsFrom(line, next)) else []
  {
    RunsFromSplit(line, i, next);
    if next < |line| {
      RunCodesCons(RunsFrom(line, i), RunCode(Repeat(RunFrom(line, i, 0) + 1, line[i])), RunCodes(RunsFrom(line, next)));
    } else {
      RunCodesCons(RunsFrom(line, i), RunCode(Repeat(RunFrom(line, i, 0) + 1, line[i])), []);
    }
  }

  /** The three-plane scanlines of the first `k` rows of a picture. */
  function PlaneLines(img: Image, k: nat): (lines: seq<seq<byte>>)
    requires img.WellFormed() && k <= img.height
    ensures |lines| == k
  {
    if k == 0 then [] else PlaneLines(img, k - 1) + [PlaneLine(img.rows[k - 1])]
  }

  /** Scanline `y` is row `y` laid out as three planes. */
  lemma {:induction false} PlaneLineAt(img: Image, k: nat, y: nat)
    requires img.WellFormed() && y < k <= img.height
    ensures PlaneLines(img, k)[y] == PlaneLine(img.rows[y]) && |PlaneLines(img, k)[y]| == 3 * img.width
  {
    if y < k - 1 {
      PlaneLineAt(img, k - 1, y);
    }
  }

  /** The code of each of some scanlines. */
  function LineCodes(lines: seq<seq<byte>>): (codes: seq<seq<byte>>)
    ensures |codes| == |lines|
  {
    seq(|lines|, y requires 0 <= y < |lines| => EncodedLine(lines[y]))
  }

  /** The code of scanline `l` is its encoding. */
  lemma LineCodeOf(lines: seq<seq<byte>>, l: nat, line: seq<byte>)
    requires l < |lines| && lines[l] == line
    ensures LineCodes(lines)[l] == EncodedLine(line)
  {
  }

  /** The first `k` of some codes, one after the other. */
  function Concat(codes: seq<seq<byte>>, k: nat): (out: seq<byte>)
    requires k <= |codes|
  {
    if k == 0 then [] else Concat(codes, k - 1) + codes[k - 1]
  }

  /** Appending code `l` to the codes before it gives the first `l + 1`. */
  lemma ConcatStep(codes: seq<seq<byte>>, l: nat, before: seq<byte>, done: seq<byte>, code: seq<byte>)
    requires l < |codes| && done == Concat(codes, l) && code == codes[l]
    ensures before + done + code == before + Concat(codes, l + 1)
  {
    AppendAssoc(before, done, code);
  }

  /** `PCX.save`: the header, then every row run-length encoded; with no
      rows nothing can fail, otherwise the scanline length must work. */
  function EncodePcx(img: Image): (r: Result<seq<byte>>)
    requires img.WellFormed() && img.width < 0x8000_0000 && img.height < 0x8000_0000
    ensures r.Ok? <==> img.height == 0 || (0 < img.width && 3 * img.width < 0x8000_0000)
    ensures r.Ok? ==> 128 <= |r.value| && r.value[..128] == SavedPcxHeader(img.width, img.height)
  {
    var hdr := SavedPcxHeader(img.width, img.height);
    if img.height == 0 then Ok(hdr)
    else
      var n :- SaveScan(img.width);
      Ok(hdr + Concat(LineCodes(PlaneLines(img, img.height)), img.height))
  }
}
