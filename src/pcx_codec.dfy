/** `PCX.load` and `PCX.save` as methods over the little-endian streams and
    the bitmap, each proved to compute what the functions of `PcxFormat`
    describe. */
module PcxCodec {
  import opened Bytes
  import opened Results
  import opened InputLE
  import opened OutputLE
  import opened Raster
  import opened ColorTables
  import opened PcxFormat

  /** The 128-octet header, recording the headers and sizing the bitmap as
      the source does. */
  method ReadHeader(reader: DataInputStreamLE, bmp: Bitmap) returns (r: Result<PcxHeader>)
    requires reader.pos == 0 && bmp.Valid()
    modifies reader, bmp
    ensures bmp.Valid()
    ensures r == ParsePcxHeader(reader.data)
    ensures r.Ok? ==>
      && reader.pos == r.value.start
      && bmp.headers == old(bmp.headers) + PcxHeaders(r.value)
      && bmp.width == r.value.width && bmp.height == r.value.height && fresh(bmp.pixels)
    ensures bmp.name == old(bmp.name)
  {
    ghost var before := bmp.headers;
    var id := reader.ReadByte();
    if id != 0x0A {
      return Fail(InvalidHeader);
    }
    var versionByte := reader.ReadByte();
    var version := versionByte % 0x100;
    bmp.AddHeader("PCX Version", Number(version));
    var encoding := reader.ReadByte();
    if encoding != 1 {
      return Fail(UnsupportedEncoding);
    }
    var bppByte := reader.ReadByte();
    var bpp := bppByte % 0x100;
    bmp.AddHeader("Bpp", Number(bpp));
    r := ReadSized(reader, bmp, version, bpp);
    if r.Ok? {
      AppendTwoThenPair(before, ("PCX Version", Number(version)), ("Bpp", Number(bpp)),
                        ("Size", Extent(r.value.width, r.value.height)), ("Color planes", Number(r.value.planes)));
    }
  }

  /** The header from the window on, sizing the bitmap and recording the
      size and the plane count. */
  method ReadSized(reader: DataInputStreamLE, bmp: Bitmap, version: byte, bpp: byte) returns (r: Result<PcxHeader>)
    requires reader.pos == 4 && bmp.Valid()
    requires version == ByteAt(reader.data, 1) && bpp == ByteAt(reader.data, 3)
    modifies reader, bmp
    ensures bmp.Valid()
    ensures r == WindowFields(reader.data)
    ensures r.Ok? ==>
      && reader.pos == r.value.start
      && bmp.headers == old(bmp.headers) + [("Size", Extent(r.value.width, r.value.height)), ("Color planes", Number(r.value.planes))]
      && bmp.width == r.value.width && bmp.height == r.value.height && fresh(bmp.pixels)
    ensures bmp.name == old(bmp.name)
  {
    var sized, w, h := SizeBitmap(reader, bmp);
    if !sized {
      return Fail(NegativeArraySize);
    }
    assert WindowFields(reader.data) == PlaneFields(reader.data, w, h);
    r := ReadPlaneFields(reader, bmp, version, bpp, w, h);
    if r.Ok? {
      AppendTwo(old(bmp.headers), ("Size", Extent(w, h)), ("Color planes", Number(r.value.planes)));
    }
  }

  /** The window as a size, the bitmap resized to it and the size recorded;
      a negative size fails at the allocation. */
  method SizeBitmap(reader: DataInputStreamLE, bmp: Bitmap) returns (ok: bool, w: int32, h: int32)
    requires reader.pos == 4 && bmp.Valid()
    modifies reader, bmp
    ensures reader.pos == 12 && bmp.Valid() && bmp.name == old(bmp.name)
    ensures w == ShortAt(reader.data, 8) - ShortAt(reader.data, 4) + 1
    ensures h == ShortAt(reader.data, 10) - ShortAt(reader.data, 6) + 1
    ensures ok <==> 0 <= w && 0 <= h
    ensures ok ==> && bmp.headers == old(bmp.headers) + [("Size", Extent(w, h))]
                   && bmp.width == w && bmp.height == h && fresh(bmp.pixels)
  {
    var width, height := ReadWindow(reader);
    w, h := width, height;
    ok := bmp.SetSize(w, h);
    if ok {
      bmp.AddHeader("Size", Extent(w, h));
    }
  }

  /** The header after the window, recording the plane count. */
  method ReadPlaneFields(reader: DataInputStreamLE, bmp: Bitmap, version: byte, bpp: byte, w: int32, h: int32)
    returns (r: Result<PcxHeader>)
    requires reader.pos == 12 && 0 <= w && 0 <= h
    requires version == ByteAt(reader.data, 1) && bpp == ByteAt(reader.data, 3)
    modifies reader, bmp
    ensures r == PlaneFields(reader.data, w, h)
    ensures r.Ok? ==> reader.pos == r.value.start && bmp.headers == old(bmp.headers) + [("Color planes", Number(r.value.planes))]
    ensures unchanged(bmp`name, bmp`width, bmp`height, bmp`pixels)
  {
    var _ := reader.SkipBytes(4);
    var ega := ReadEga(reader);
    var _ := reader.SkipBytes(1);
    var planesByte := reader.ReadByte();
    var planes := planesByte % 0x100;
    if !((planes == 3 && bpp == 8) || planes == 1) {
      return Fail(UnsupportedPlanes);
    }
    bmp.AddHeader("Color planes", Number(planes));
    var bytesPerLine := reader.ReadShort();
    var _ := reader.SkipBytes(60);
    r := Ok(PcxHeader(version, bpp, w, h, ega, planes, bytesPerLine, reader.pos));
  }

  /** The window xStart, yStart, xEnd, yEnd at position 4, as a size. */
  method ReadWindow(reader: DataInputStreamLE) returns (w: int, h: int)
    requires reader.pos == 4
    modifies reader
    ensures reader.pos == 12
    ensures w == ShortAt(reader.data, 8) - ShortAt(reader.data, 4) + 1
    ensures h == ShortAt(reader.data, 10) - ShortAt(reader.data, 6) + 1
  {
    var xStart := reader.ReadShort();
    var yStart := reader.ReadShort();
    var xEnd := reader.ReadShort();
    var yEnd := reader.ReadShort();
    w, h := xEnd - xStart + 1, yEnd - yStart + 1;
  }

  /** `read(egaPalette)` into a fresh 48-octet array at position 16. */
  method ReadEga(reader: DataInputStreamLE) returns (ega: seq<int>)
    requires reader.pos == 16
    modifies reader
    ensures reader.pos == ArrayReadEnd(reader.data, 16, 48)
    ensures ega == EgaOctets(reader.data)
  {
    var egaPalette := new int[48](_ => 0);
    var _ := reader.ReadArray(egaPalette);
    ega := egaPalette[..];
  }

  /** One scanline of `buffer`, line `l`, by the do-while loop of runs; the
      octet count `readBytes` goes up by every octet read. Other lines are
      left alone. */
  method ReadLine(reader: DataInputStreamLE, buffer: array2<byte>, l: nat, ghost start: int, readBytes: int32)
    returns (r: Result<()>, readBytes': int32, ghost line: seq<byte>)
    requires l < buffer.Length0
    requires readBytes == I32(128 + (reader.pos - start))
    modifies reader, buffer
    ensures var spec := DecodeLine(reader.data, old(reader.pos), buffer.Length1, []);
      && r.Ok? == spec.Ok?
      && (r.Fail? ==> r.error == spec.error)
      && (r.Ok? ==> && line == spec.value.octets && reader.pos == spec.value.end
                    && readBytes' == I32(128 + (reader.pos - start))
                    && forall k :: 0 <= k < buffer.Length1 ==> buffer[l, k] == line[k])
    ensures forall j, k :: 0 <= j < buffer.Length0 && 0 <= k < buffer.Length1 && j != l ==>
      buffer[j, k] == old(buffer[j, k])
  {
    var n := buffer.Length1;
    ghost var p0 := reader.pos;
    ghost var acc: seq<byte> := [];
    line := [];
    readBytes' := readBytes;
    var i := 0;
    while true
      invariant 0 <= i <= n && |acc| == i
      invariant forall k :: 0 <= k < i ==> buffer[l, k] == acc[k]
      invariant forall j, k :: 0 <= j < buffer.Length0 && 0 <= k < n && j != l ==> buffer[j, k] == old(buffer[j, k])
      invariant readBytes' == I32(128 + (reader.pos - start))
      invariant DecodeLine(reader.data, p0, n, []) == DecodeLine(reader.data, reader.pos, n, acc)
      decreases n - i, if reader.pos < |reader.data| then |reader.data| - reader.pos else 0
    {
      var runLength, runByte;
      runLength, runByte, readBytes' := ReadRun(reader, start, readBytes');
      for k := 0 to runLength
        modifies buffer
        invariant i == |acc| + k <= n
        invariant forall j :: 0 <= j < i ==> buffer[l, j] == if j < |acc| then acc[j] else runByte
        invariant forall j, k :: 0 <= j < buffer.Length0 && 0 <= k < n && j != l ==> buffer[j, k] == old(buffer[j, k])
      {
        if i >= n {
          r := Fail(IndexOutOfBounds);
          return;
        }
        buffer[l, i] := runByte;
        i := i + 1;
      }
      acc := acc + Copies(runByte, runLength);
      if i >= n {
        break;
      }
    }
    line := acc;
    r := Ok(());
  }

  /** The run at the reader's position: a count octet `0xC0 | n` and the
      octet repeated, or a single octet below `0xC0`; `readBytes` counts
      both reads. */
  method ReadRun(reader: DataInputStreamLE, ghost start: int, readBytes: int32)
    returns (runLength: nat, runByte: byte, readBytes': int32)
    requires readBytes == I32(128 + (reader.pos - start))
    modifies reader
    ensures (runLength, runByte, reader.pos) == Run(reader.data, old(reader.pos))
    ensures readBytes' == I32(128 + (reader.pos - start))
  {
    ghost var p := reader.pos;
    var b := reader.ReadByte();
    CountOn(readBytes, p, start);
    readBytes' := I32(readBytes + 1);
    // the octet as unsigned: `b & 0xC0` and `b & 0x3F` see the same bits;
    // with both top bits set, the low six bits are the excess over 0xC0
    UnsignedOfSigned(ByteAt(reader.data, p));
    runByte := b % 0x100;
    runLength := 1;
    if runByte >= 0xC0 {
      runLength := runByte - 0xC0;
      var v := reader.ReadByte();
      CountOn(readBytes', p + 1, start);
      readBytes' := I32(readBytes' + 1);
      UnsignedOfSigned(ByteAt(reader.data, p + 1));
      runByte := v % 0x100;
    }
  }

  /** One more octet read moves the wrapped count on by one. */
  lemma CountOn(readBytes: int32, q: int, start: int)
    requires readBytes == I32(128 + (q - start))
    ensures I32(readBytes + 1) == I32(128 + (q + 1 - start))
  {
    I32Add(128 + (q - start), 1);
  }

  /** Every scanline, top first, into the rows of `buffer`. */
  method ReadLines(reader: DataInputStreamLE, buffer: array2<byte>) returns (r: Result<()>, readBytes: int32,
                                                                            ghost lines: seq<seq<byte>>)
    modifies reader, buffer
    ensures var spec := DecodeLines(reader.data, old(reader.pos), buffer.Length1, buffer.Length0);
      && r.Ok? == spec.Ok?
      && (r.Fail? ==> r.error == spec.error)
      && (r.Ok? ==> && lines == spec.value.lines && reader.pos == spec.value.end
                    && readBytes == I32(128 + (reader.pos - old(reader.pos)))
                    && forall j, k :: 0 <= j < buffer.Length0 && 0 <= k < buffer.Length1 ==> buffer[j, k] == lines[j][k])
  {
    ghost var start := reader.pos;
    var h, n := buffer.Length0, buffer.Length1;
    readBytes := 128;
    lines := [];
    r := Ok(());
    for l := 0 to h
      invariant r.Ok?
      invariant DecodeLines(reader.data, start, n, l) == Ok(Scan(lines, reader.pos))
      invariant readBytes == I32(128 + (reader.pos - start))
      invariant forall j, k :: 0 <= j < l && 0 <= k < n ==> buffer[j, k] == lines[j][k]
    {
      ghost var line;
      ghost var p := reader.pos;
      r, readBytes, line := ReadLine(reader, buffer, l, start, readBytes);
      if r.Fail? {
        assert DecodeLine(reader.data, p, n, []).Fail?;
        DecodeLinesFailStays(reader.data, start, n, l + 1, h);
        return;
      }
      lines := lines + [line];
    }
  }

  /** The 16 EGA colours of the header. */
  method EgaColors(ega: seq<int>) returns (palette: array<RGB>)
    requires |ega| == 48
    ensures fresh(palette) && palette[..] == EgaPalette(ega)
  {
    palette := new RGB[16](_ => WHITE);
    var i := 0;
    while i < 48
      invariant 0 <= i <= 48 && i % 3 == 0
      invariant forall j :: 0 <= j < i / 3 ==> palette[j] == EgaPalette(ega)[j]
    {
      palette[i / 3] := RGB(EgaLevel(ega[i]), EgaLevel(ega[i + 1]), EgaLevel(ega[i + 2]));
      i := i + 3;
    }
  }

  /** The 256 VGA colours at the cursor, three octets each. */
  method VgaColors(reader: DataInputStreamLE) returns (palette: array<RGB>)
    modifies reader
    ensures fresh(palette) && palette[..] == VgaPalette(reader.data, old(reader.pos))
    ensures reader.pos == old(reader.pos) + 768
  {
    ghost var p := reader.pos;
    palette := new RGB[256](_ => WHITE);
    var i := 0;
    while i < 768
      invariant 0 <= i <= 768 && i % 3 == 0 && reader.pos == p + i
      invariant forall j :: 0 <= j < i / 3 ==> palette[j] == VgaPalette(reader.data, p)[j]
    {
      var red := reader.ReadByte();
      var green := reader.ReadByte();
      var blue := reader.ReadByte();
      palette[i / 3] := RGB(red % 0x100, green % 0x100, blue % 0x100);
      i := i + 3;
    }
  }

  /** The palette after the scanlines, `null` for 24-bit colour, and
      whether it is the VGA one; records the palette header. */
  method ReadPalette(reader: DataInputStreamLE, bmp: Bitmap, hd: PcxHeader, readBytes: int32)
    returns (r: Result<(array?<RGB>, bool)>)
    requires |hd.ega| == 48 && readBytes == ReadCount(hd, reader.pos)
    modifies reader, bmp
    ensures var spec := ChoosePalette(reader.data, hd, old(reader.pos));
      && r.Ok? == spec.Ok?
      && (r.Fail? ==> r.error == spec.error)
      && (r.Ok? ==> && Holds(r.value.0, spec.value.palette) && r.value.1 == spec.value.vga
                    && bmp.headers == old(bmp.headers) + PaletteHeaders(hd))
    ensures r.Ok? && r.value.0 != null ==> fresh(r.value.0)
    ensures unchanged(bmp`name, bmp`width, bmp`height, bmp`pixels)
  {
    if hd.bpp == 8 && hd.planes == 3 {
      return Ok((null, false));
    }
    // `f.length() - readBytes`, a Java `long`
    var paletteOffset: int := |reader.data| - readBytes;
    if paletteOffset > 769 {
      var skip := I32(paletteOffset - 769);
      if skip < 0 {
        return Fail(NegativeSkip);
      }
      var _ := reader.SkipBytes(skip);
      paletteOffset := 769;
    }
    var vga := false;
    if paletteOffset == 769 {
      var marker := reader.ReadByte();
      vga := marker == 0x0C;
    }
    var palette;
    if !vga {
      palette := EgaColors(hd.ega);
    } else {
      palette := VgaColors(reader);
    }
    bmp.AddHeader("Palette", Text("EGA"));
    r := Ok((palette, vga));
  }

  /** Line `y` of `buffer` holds `line`. */
  ghost predicate HoldsLine(buffer: array2<byte>, y: nat, line: seq<byte>)
    reads buffer
  {
    y < buffer.Length0 && |line| == buffer.Length1 && forall k :: 0 <= k < |line| ==> buffer[y, k] == line[k]
  }

  /** What the pixel loop of a row keeps before pixel `x` at 1 and 4 bits
      per pixel: `tmpX` is the next octet to take apart, `tmpByte` the one
      being taken apart as a Java byte, and `tmpByteOffset` the position of
      the last bit or nibble used (0 when the next pixel needs a new octet). */
  ghost predicate Unpacking(line: seq<byte>, bpp: int, x: nat, tmpByte: int, tmpByteOffset: int, tmpX: int)
  {
    && (bpp == 1 ==>
          && tmpX == (x + 7) / 8
          && if x % 8 == 0 then tmpByteOffset == 0
             else tmpByteOffset == 8 - x % 8 && x / 8 < |line| && tmpByte == S8(line[x / 8]))
    && (bpp == 4 ==>
          && tmpX == (x + 1) / 2
          && if x % 2 == 0 then tmpByteOffset == 0
             else tmpByteOffset == 1 && x / 2 < |line| && tmpByte == S8(line[x / 2]))
  }

  /** The 1 bpp step: bit `7 - x % 8` of octet `x / 8` as a palette index. */
  method BitStep(buffer: array2<byte>, y: nat, ghost line: seq<byte>, pal: array?<RGB>, ghost choice: PaletteChoice,
                 planes: int, bpl: int, x: nat, tmpByte: int, tmpByteOffset: int, tmpX: int)
    returns (c: Result<RGB>, tmpByte': int, tmpByteOffset': int, tmpX': int)
    requires HoldsLine(buffer, y, line) && Holds(pal, choice.palette) && pal != null
    requires Unpacking(line, 1, x, tmpByte, tmpByteOffset, tmpX)
    ensures c == PcxPixel(line, choice, 1, planes, bpl, x)
    ensures c.Ok? ==> Unpacking(line, 1, x + 1, tmpByte', tmpByteOffset', tmpX')
  {
    BitPosition(x);
    tmpByte', tmpByteOffset', tmpX' := tmpByte, tmpByteOffset, tmpX;
    if tmpByteOffset == 0 {
      if tmpX >= buffer.Length1 {
        return Fail(IndexOutOfBounds), tmpByte', tmpByteOffset', tmpX';
      }
      tmpByte' := S8(buffer[y, tmpX]);
      tmpX' := tmpX + 1;
      tmpByteOffset' := 7;
    } else {
      tmpByteOffset' := tmpByteOffset - 1;
    }
    SignedBit(line[x / 8], tmpByteOffset');
    c := LookupColor(pal, choice.palette, ShiftRight(tmpByte', tmpByteOffset') % 2);
  }

  /** The 4 bpp step: the high nibble of octet `x / 2` for even `x`, the low
      one for odd `x`, as a palette index. */
  method NibbleStep(buffer: array2<byte>, y: nat, ghost line: seq<byte>, pal: array?<RGB>, ghost choice: PaletteChoice,
                    planes: int, bpl: int, x: nat, tmpByte: int, tmpByteOffset: int, tmpX: int)
    returns (c: Result<RGB>, tmpByte': int, tmpByteOffset': int, tmpX': int)
    requires HoldsLine(buffer, y, line) && Holds(pal, choice.palette) && pal != null
    requires Unpacking(line, 4, x, tmpByte, tmpByteOffset, tmpX)
    ensures c == PcxPixel(line, choice, 4, planes, bpl, x)
    ensures c.Ok? ==> Unpacking(line, 4, x + 1, tmpByte', tmpByteOffset', tmpX')
  {
    tmpByte', tmpByteOffset', tmpX' := tmpByte, tmpByteOffset, tmpX;
    if tmpByteOffset == 0 {
      if tmpX >= buffer.Length1 {
        return Fail(IndexOutOfBounds), tmpByte', tmpByteOffset', tmpX';
      }
      tmpByte' := S8(buffer[y, tmpX]);
      tmpX' := tmpX + 1;
      tmpByteOffset' := 1;
    } else {
      tmpByteOffset' := tmpByteOffset - 1;
    }
    SignedNibble(line[x / 2], tmpByteOffset');
    c := LookupColor(pal, choice.palette, ShiftRight(tmpByte', tmpByteOffset' * 4) % 16);
  }

  /** One step of the pixel loop: the colour of pixel `x` of line `y`. */
  method PixelStep(buffer: array2<byte>, y: nat, ghost line: seq<byte>, pal: array?<RGB>, ghost choice: PaletteChoice,
                   vga: bool, bpp: int, planes: int, bpl: int, x: nat, tmpByte: int, tmpByteOffset: int, tmpX: int)
    returns (c: Result<RGB>, tmpByte': int, tmpByteOffset': int, tmpX': int)
    requires HoldsLine(buffer, y, line) && Holds(pal, choice.palette) && vga == choice.vga
    requires pal != null ==> Unpacking(line, bpp, x, tmpByte, tmpByteOffset, tmpX)
    ensures c == PcxPixel(line, choice, bpp, planes, bpl, x)
    ensures c.Ok? && pal != null ==> Unpacking(line, bpp, x + 1, tmpByte', tmpByteOffset', tmpX')
  {
    tmpByte', tmpByteOffset', tmpX' := tmpByte, tmpByteOffset, tmpX;
    var n := buffer.Length1;
    if bpp == 1 && pal != null {
      c, tmpByte', tmpByteOffset', tmpX' := BitStep(buffer, y, line, pal, choice, planes, bpl, x, tmpByte, tmpByteOffset, tmpX);
    } else if bpp == 4 && pal != null {
      c, tmpByte', tmpByteOffset', tmpX' := NibbleStep(buffer, y, line, pal, choice, planes, bpl, x, tmpByte, tmpByteOffset, tmpX);
    } else if bpp == 8 && planes == 1 {
      if x >= n {
        c := Fail(IndexOutOfBounds);
      } else {
        var colorIndex := buffer[y, x];
        if colorIndex > 15 && !vga {
          c := Fail(MissingVgaPalette);
        } else {
          c := LookupColor(pal, choice.palette, colorIndex);
        }
      }
    } else if bpp == 8 && planes == 3 {
      if x >= n || bpl + x < 0 || bpl + x >= n || bpl * 2 + x < 0 || bpl * 2 + x >= n {
        c := Fail(IndexOutOfBounds);
      } else {
        c := Ok(RGB(buffer[y, x], buffer[y, bpl + x], buffer[y, bpl * 2 + x]));
      }
    } else {
      c := Fail(InvalidColorEncoding);
    }
  }

  /** The pixel loop of line `y`, up to the first pixel that fails: the
      picture's line `y` becomes the row of pixels, no other line changes. */
  method PaintRow(bmp: Bitmap, buffer: array2<byte>, y: nat, ghost line: seq<byte>, pal: array?<RGB>,
                  ghost choice: PaletteChoice, vga: bool, bpp: int, planes: int, bpl: int) returns (r: Result<()>)
    requires bmp.Valid() && y < bmp.height
    requires HoldsLine(buffer, y, line) && Holds(pal, choice.palette) && vga == choice.vga
    modifies bmp.pixels
    ensures var px := Collect(PcxPixels(line, choice, bpp, planes, bpl, bmp.width));
      && r.Ok? == px.Ok?
      && (r.Fail? ==> r.error == px.error)
      && (r.Ok? ==> bmp.Picture() == old(bmp.Picture()).(rows := old(bmp.Picture()).rows[y := px.value]))
  {
    ghost var before := bmp.Picture();
    var w: nat := bmp.width;
    ghost var ps := PcxPixels(line, choice, bpp, planes, bpl, w);
    var tmpByte, tmpByteOffset, tmpX := 0, 0, 0;
    var x := 0;
    while x < w
      invariant 0 <= x <= w
      invariant pal != null ==> Unpacking(line, bpp, x, tmpByte, tmpByteOffset, tmpX)
      invariant forall j :: 0 <= j < x ==> ps[j].Ok? && bmp.pixels[j, y] == ps[j].value
      invariant forall i, j :: 0 <= i < w && 0 <= j < bmp.height && j != y ==>
        bmp.pixels[i, j] == old(bmp.pixels[i, j])
    {
      var c;
      c, tmpByte, tmpByteOffset, tmpX := PixelStep(buffer, y, line, pal, choice, vga, bpp, planes, bpl, x,
                                                   tmpByte, tmpByteOffset, tmpX);
      if c.Fail? {
        CollectFirstFailure(ps, x);
        return Fail(c.error);
      }
      var _ := bmp.SetPixel(x, y, c.value);
      x := x + 1;
    }
    CollectAllOk(ps);
    r := Ok(());
    ImageExtensionality(bmp.Picture(), before.(rows := before.rows[y := Collect(ps).value]));
  }

  /** The row loop, top line first, up to the first row that fails. */
  method PaintRows(bmp: Bitmap, buffer: array2<byte>, ghost lines: seq<seq<byte>>, pal: array?<RGB>,
                   ghost choice: PaletteChoice, vga: bool, bpp: int, planes: int, bpl: int) returns (r: Result<()>)
    requires bmp.Valid() && buffer.Length0 == bmp.height == |lines|
    requires forall j :: 0 <= j < |lines| ==> |lines[j]| == buffer.Length1
    requires forall j, k :: 0 <= j < |lines| && 0 <= k < buffer.Length1 ==> buffer[j, k] == lines[j][k]
    requires Holds(pal, choice.palette) && vga == choice.vga
    modifies bmp.pixels
    ensures var spec := Collect(PcxRows(lines, choice, bpp, planes, bpl, bmp.width, bmp.height));
      && r.Ok? == spec.Ok?
      && (r.Fail? ==> r.error == spec.error)
      && (r.Ok? ==> bmp.Picture() == Image(bmp.width, bmp.height, spec.value))
  {
    var w: nat, h: nat := bmp.width, bmp.height;
    ghost var rs := PcxRows(lines, choice, bpp, planes, bpl, w, h);
    for y := 0 to h
      invariant forall j :: 0 <= j < y ==> rs[j].Ok? && bmp.Picture().rows[j] == rs[j].value
    {
      PcxRowAt(lines, choice, bpp, planes, bpl, w, h, y);
      r := PaintRow(bmp, buffer, y, lines[y], pal, choice, vga, bpp, planes, bpl);
      if r.Fail? {
        CollectFirstFailure(rs, y);
        return;
      }
    }
    CollectAllOk(rs);
    r := Ok(());
    assert bmp.Picture().rows == Collect(rs).value;
  }

  /** `PCX.load` on a file called `name` holding `data`: the bitmap it
      returns, or the exception it throws. */
  method Load(name: string, data: seq<byte>) returns (r: Result<Bitmap>)
    ensures var spec := DecodePcx(data);
      && r.Ok? == spec.Ok?
      && (r.Fail? ==> r.error == spec.error)
      && (r.Ok? ==> r.value.Valid() && r.value.name == name && r.value.headers == spec.value.headers
                    && r.value.Picture() == spec.value.image)
  {
    var reader := new DataInputStreamLE(data);
    var bmp := new Bitmap.Named(name);
    var hd := ReadHeader(reader, bmp);
    if hd.Fail? {
      return Fail(hd.error);
    }
    var planes, bpp, bytesPerLine := hd.value.planes, hd.value.bpp, hd.value.bytesPerLine;
    var scanLineLength := planes * bytesPerLine;
    // `padding = scanLineLength * (8 / bpp) - width` is never used; its
    // division is what fails for a depth of 0
    if bpp == 0 {
      return Fail(DivisionByZero);
    }
    if scanLineLength < 0 {
      return Fail(NegativeArraySize);
    }
    var buffer := new byte[bmp.height, scanLineLength];
    var scanned, readBytes;
    ghost var lines;
    scanned, readBytes, lines := ReadLines(reader, buffer);
    if scanned.Fail? {
      return Fail(scanned.error);
    }
    var palette := ReadPalette(reader, bmp, hd.value, readBytes);
    if palette.Fail? {
      return Fail(palette.error);
    }
    ghost var choice := ChoosePalette(data, hd.value, DecodeLines(data, hd.value.start, scanLineLength, bmp.height).value.end).value;
    var painted := PaintRows(bmp, buffer, lines, palette.value.0, choice, palette.value.1, bpp, planes, bytesPerLine);
    if painted.Fail? {
      return Fail(painted.error);
    }
    r := Ok(bmp);
  }

  /** `PCX.save`: a missing bitmap writes nothing; otherwise the header
      and every row, run-length encoded, as `EncodePcx` gives them. A
      scanline length that does not work fails on the first row, after the
      header. */
  method Save(bmp: Bitmap?, writer: DataOutputStreamLE) returns (r: Result<()>)
    requires bmp != null ==> bmp.Valid()
    modifies writer
    ensures bmp == null ==> r.Ok? && writer.bytes == old(writer.bytes)
    ensures bmp != null ==>
      var spec := EncodePcx(bmp.Picture());
      && r.Ok? == spec.Ok?
      && (r.Fail? ==> r.error == spec.error && writer.bytes == old(writer.bytes) + SavedPcxHeader(bmp.width, bmp.height))
      && (r.Ok? ==> writer.bytes == old(writer.bytes) + spec.value)
  {
    if bmp == null {
      return Ok(());
    }
    var (w, h) := bmp.GetSize();
    SaveHeader(writer, w, h);
    r := SaveLines(bmp, writer);
    if r.Ok? && h > 0 {
      AppendAssoc(old(writer.bytes), SavedPcxHeader(w, h), Concat(LineCodes(PlaneLines(bmp.Picture(), h)), h));
    }
  }

  /** The row loop of `save`: every row as a three-plane scanline,
      run-length encoded. Whether the scanline length works does not depend
      on the row, so a failure comes on the first row, before it writes
      anything. */
  method SaveLines(bmp: Bitmap, writer: DataOutputStreamLE) returns (r: Result<()>)
    requires bmp.Valid()
    modifies writer
    ensures bmp.height == 0 ==> r.Ok? && writer.bytes == old(writer.bytes)
    ensures bmp.height > 0 ==>
      var scan := SaveScan(bmp.width);
      && r.Ok? == scan.Ok?
      && (r.Fail? ==> r.error == scan.error && writer.bytes == old(writer.bytes))
      && (r.Ok? ==> writer.bytes == old(writer.bytes) + Concat(LineCodes(PlaneLines(bmp.Picture(), bmp.height)), bmp.height))
  {
    var (w, h) := bmp.GetSize();
    ghost var img := bmp.Picture();
    ghost var lines := PlaneLines(img, h);
    ghost var codes := LineCodes(lines);
    r := Ok(());
    for l := 0 to h
      invariant r.Ok? && bmp.Picture() == img
      invariant l > 0 ==> SaveScan(w).Ok?
      invariant writer.bytes == old(writer.bytes) + Concat(codes, l)
    {
      ghost var done: seq<byte> := Concat(codes, l);
      LineCodeOf(lines, l, lines[l]);
      r := SaveLine(bmp, writer, l, lines, codes[l]);
      if r.Fail? {
        assert done == [];
        return;
      }
      ConcatStep(codes, l, old(writer.bytes), done, codes[l]);
    }
  }

  /** One pass of the row loop: row `l` filled into a scanline and encoded;
      a failure writes nothing. */
  method SaveLine(bmp: Bitmap, writer: DataOutputStreamLE, l: int, ghost lines: seq<seq<byte>>, ghost code: seq<byte>)
    returns (r: Result<()>)
    requires bmp.Valid() && 0 <= l < bmp.height
    requires lines == PlaneLines(bmp.Picture(), bmp.height) && code == EncodedLine(lines[l])
    modifies writer
    ensures var scan := SaveScan(bmp.width);
      && r.Ok? == scan.Ok?
      && (r.Fail? ==> r.error == scan.error && writer.bytes == old(writer.bytes))
      && (r.Ok? ==> writer.bytes == old(writer.bytes) + code)
  {
    var line := FillLine(bmp, l, lines);
    if line.Fail? {
      return Fail(line.error);
    }
    r := EncodeLine(writer, line.value);
  }

  /** The 128-octet header `save` writes for a `w` x `h` picture. */
  method SaveHeader(writer: DataOutputStreamLE, w: int32, h: int32)
    requires 0 <= w && 0 <= h
    modifies writer
    ensures writer.bytes == old(writer.bytes) + SavedPcxHeader(w, h)
  {
    writer.WriteByte(0x0A);
    writer.WriteByte(5);
    writer.WriteByte(1);
    writer.WriteByte(8);
    AppendFour(old(writer.bytes), 0x0A, 5, 1, 8);
    SaveWindow(writer, w, h);
    writer.WriteAll(Zeros(48));
    SaveLineInfo(writer, w, h);
    writer.WriteAll(Zeros(54));
    AppendAll(old(writer.bytes), SavedSignature(), SavedWindow(w, h), Zeros(48), SavedLineInfo(w, h));
    AppendAssoc(old(writer.bytes), SavedSignature() + SavedWindow(w, h) + Zeros(48) + SavedLineInfo(w, h), Zeros(54));
  }

  /** The window and resolution fields of the saved header. */
  method SaveWindow(writer: DataOutputStreamLE, w: int32, h: int32)
    requires 0 <= w && 0 <= h
    modifies writer
    ensures writer.bytes == old(writer.bytes) + SavedWindow(w, h)
  {
    writer.WriteShort(0);
    writer.WriteShort(0);
    writer.WriteShort(w - 1);
    writer.WriteShort(h - 1);
    AppendAll(old(writer.bytes), ShortBytes(0), ShortBytes(0), ShortBytes(w - 1), ShortBytes(h - 1));
    writer.WriteShort(600);
    writer.WriteShort(600);
    AppendAssoc(old(writer.bytes), ShortBytes(0) + ShortBytes(0) + ShortBytes(w - 1) + ShortBytes(h - 1), ShortBytes(600));
    AppendAssoc(old(writer.bytes), ShortBytes(0) + ShortBytes(0) + ShortBytes(w - 1) + ShortBytes(h - 1) + ShortBytes(600), ShortBytes(600));
  }

  /** The plane and line fields of the saved header. */
  method SaveLineInfo(writer: DataOutputStreamLE, w: int32, h: int32)
    modifies writer
    ensures writer.bytes == old(writer.bytes) + SavedLineInfo(w, h)
  {
    var bytesPerLine := w * 1;
    writer.WriteByte(0);
    writer.WriteByte(3);
    assert writer.bytes == old(writer.bytes) + [0, 3];
    ghost var mid := writer.bytes;
    writer.WriteShort(bytesPerLine);
    writer.WriteShort(1);
    writer.WriteShort(w);
    writer.WriteShort(h);
    AppendAll(mid, ShortBytes(w), ShortBytes(1), ShortBytes(w), ShortBytes(h));
    AppendAssoc(old(writer.bytes), [0, 3], ShortBytes(w) + ShortBytes(1) + ShortBytes(w) + ShortBytes(h));
  }

  /** Line `l` of the picture as a three-plane scanline in a fresh
      `byte[3 * bytesPerLine]`, with the source's Java `int` arithmetic: a
      negative length fails at the allocation, a wrapped one at the first
      green octet. */
  method FillLine(bmp: Bitmap, l: int, ghost lines: seq<seq<byte>>) returns (r: Result<array<byte>>)
    requires bmp.Valid() && 0 <= l < bmp.height && lines == PlaneLines(bmp.Picture(), bmp.height)
    ensures r.Ok? <==> 3 * bmp.width < 0x8000_0000
    ensures r.Fail? ==> r.error == if I32(3 * bmp.width) < 0 then NegativeArraySize else IndexOutOfBounds
    ensures r.Ok? ==> fresh(r.value) && r.value.Length == 3 * bmp.width && r.value[..] == lines[l]
  {
    var w: nat := bmp.GetSize().0;
    var bytesPerLine := w * 1;
    var scanLineLength := I32(3 * bytesPerLine);
    if scanLineLength < 0 {
      return Fail(NegativeArraySize);
    }
    var buffer := new byte[scanLineLength];
    // Java checks the three indices of every pixel; whether they are in
    // range does not depend on the pixel, so the first one decides
    if w > 0 {
      var inRange := PlanesInRange(w, 0, scanLineLength);
      if !inRange {
        return Fail(IndexOutOfBounds);
      }
    }
    WrappedScanLine(w);
    FillPlanes(bmp, l, buffer);
    PlaneLineAt(bmp.Picture(), bmp.height, l);
    r := Ok(buffer);
  }

  /** The loop over the pixels of line `l`, red, green and blue octet into
      their planes. */
  method FillPlanes(bmp: Bitmap, l: int, buffer: array<byte>)
    requires bmp.Valid() && 0 <= l < bmp.height && buffer.Length == 3 * bmp.width
    modifies buffer
    ensures buffer[..] == PlaneLine(bmp.Picture().rows[l])
  {
    var w: nat := bmp.width;
    ghost var row := bmp.Picture().rows[l];
    for x := 0 to w
      invariant forall j :: 0 <= j < x ==> buffer[j] == row[j].r
      invariant forall j :: 0 <= j < x ==> buffer[w + j] == row[j].g
      invariant forall j :: 0 <= j < x ==> buffer[2 * w + j] == row[j].b
    {
      var c := bmp.GetPixel(x, l);
      StoreColor(buffer, w, x, c.value);
    }
    forall k | 0 <= k < 3 * w
      ensures buffer[k] == PlaneLine(row)[k]
    {
      if w <= k < 2 * w {
        assert k == w + (k - w);
      } else if 2 * w <= k {
        assert k == 2 * w + (k - 2 * w);
      }
    }
  }

  /** The three plane octets of pixel `x`; the rest of the scanline is
      left as it was. */
  method StoreColor(buffer: array<byte>, w: nat, x: nat, color: RGB)
    requires buffer.Length == 3 * w && x < w
    modifies buffer
    ensures buffer[x] == color.r && buffer[w + x] == color.g && buffer[2 * w + x] == color.b
    ensures forall k :: 0 <= k < buffer.Length && k != x && k != w + x && k != 2 * w + x ==> buffer[k] == old(buffer[k])
  {
    buffer[x] := color.r;
    buffer[w + x] := color.g;
    buffer[2 * w + x] := color.b;
  }

  /** Where `3 * w` wraps to a non-negative Java `int`, it wraps below `w`
      and above 0, so the first green octet is already out of range. */
  lemma WrappedScanLine(w: int)
    requires 0 <= w < 0x8000_0000
    ensures 3 * w < 0x8000_0000 ==> I32(3 * w) == 3 * w
    ensures 3 * w >= 0x8000_0000 && I32(3 * w) >= 0 ==> 0 < I32(3 * w) <= w
  {
    var m := 3 * w;
    if m >= 0x8000_0000 {
      if m < 0x1_0000_0000 {
        assert m % 0x1_0000_0000 == m;
      } else {
        assert m % 0x1_0000_0000 == m - 0x1_0000_0000;
      }
    }
  }

  /** Whether the red, green and blue positions of pixel `x`, computed
      with Java `int` arithmetic as `x`, `bytesPerLine + x` and
      `bytesPerLine * 2 + x`, are inside a scanline of length `scan`; they
      are exactly when `3 * w` does not wrap. */
  method PlanesInRange(w: int, x: int, scan: int32) returns (ok: bool)
    requires 0 <= x < w < 0x8000_0000 && scan == I32(3 * w) >= 0
    ensures ok <==> scan == 3 * w
  {
    var green, blue := I32(w + x), I32(I32(w * 2) + x);
    ok := x < scan && 0 <= green < scan && 0 <= blue < scan;
    WrappedScanLine(w);
    if scan == 3 * w {
      assert green == w + x && blue == 2 * w + x;
    }
  }

  /** The run-length loop over one scanline: the octets `EncodedLine` gives;
      an empty scanline fails at the first read, before anything is written. */
  method EncodeLine(writer: DataOutputStreamLE, buffer: array<byte>) returns (r: Result<()>)
    modifies writer
    ensures r.Ok? <==> buffer.Length > 0
    ensures r.Fail? ==> r.error == IndexOutOfBounds && writer.bytes == old(writer.bytes)
    ensures r.Ok? ==> buffer.Length > 0 && writer.bytes == old(writer.bytes) + EncodedLine(buffer[..])
  {
    var n := buffer.Length;
    ghost var line := buffer[..];
    if n == 0 {
      // the first pass finds no run and reads buffer[0]
      return Fail(IndexOutOfBounds);
    }
    var i := 0;
    while true
      invariant 0 <= i < n && buffer[..] == line
      invariant old(writer.bytes) + EncodedLine(line) == writer.bytes + RunCodes(RunsFrom(line, i))
      decreases n - i
    {
      ghost var before := writer.bytes;
      var next := EncodeRun(writer, buffer, i);
      RunCodesStep(line, i, next);
      AppendAssoc(before, RunCode(Repeat(RunFrom(line, i, 0) + 1, line[i])),
                  if next < n then RunCodes(RunsFrom(line, next)) else []);
      i := next;
      if i >= n {
        break;
      }
    }
    r := Ok(());
  }

  /** One pass of the do-while loop at `i`: the run's length, counted up to
      62 more equal octets, and the octets written for it; `next` is where
      the next pass starts. */
  method EncodeRun(writer: DataOutputStreamLE, buffer: array<byte>, i: nat) returns (next: nat)
    requires i < buffer.Length
    modifies writer
    ensures next == i + RunFrom(buffer[..], i, 0) + 1
    ensures writer.bytes == old(writer.bytes) + RunCode(Repeat(RunFrom(buffer[..], i, 0) + 1, buffer[i]))
  {
    ghost var line := buffer[..];
    var n := buffer.Length;
    var runLength := 0;
    while runLength < 62 && i + runLength + 1 < n && buffer[i + runLength] == buffer[i + runLength + 1]
      invariant 0 <= runLength <= 62 && i + runLength < n
      invariant RunFrom(line, i, runLength) == RunFrom(line, i, 0)
    {
      runLength := runLength + 1;
    }
    var v := buffer[i];
    LowByteOfOctet(v);
    if runLength > 0 {
      // `(runLength + 1) | 0xC0`: the count fits in the low six bits
      LowByteOfOctet(runLength + 1 + 0xC0);
      writer.WriteByte(runLength + 1 + 0xC0);
      writer.WriteByte(v);
      next := i + runLength + 1;
    } else {
      if v >= 0xC0 {
        LowByteOfOctet(0xC1);
        writer.WriteByte(0xC1);
      }
      writer.WriteByte(v);
      next := i + 1;
    }
  }
}
