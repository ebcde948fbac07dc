/** `BMP.load` and `BMP.save` as methods over the little-endian streams and
    the bitmap, each proved to compute what the functions of `BmpFormat`
    describe. */
module BmpCodec {
  import opened Bytes
  import opened Results
  import opened InputLE
  import opened OutputLE
  import opened Raster
  import opened ColorTables
  import opened BmpFormat

  /** A 32-bit header field: `reader.readInt()` as the source has it
      (`FirstByteHigh`), or, for `FirstByteLow`, the little-endian value its
      documentation promises, composed from two 16-bit reads. */
  method ReadField(reader: DataInputStreamLE, order: ByteOrder) returns (r: int32)
    modifies reader
    ensures reader.pos == old(reader.pos) + 4
    ensures r == IntAt(order, reader.data, old(reader.pos))
  {
    if order == FirstByteHigh {
      r := reader.ReadInt();
    } else {
      IntFromShorts(reader.data, reader.pos);
      var low := reader.ReadUnsignedShort();
      var high := reader.ReadUnsignedShort();
      var lo: int, hi: int := low, high;
      r := I32(lo + 0x1_0000 * hi);
    }
  }

  /** The file header and the DIB header's length field. */
  method ReadFileHeader(reader: DataInputStreamLE, order: ByteOrder) returns (fh: FileHeader)
    requires reader.pos == 0
    modifies reader
    ensures reader.pos == 18
    ensures fh == ParseFileHeader(order, reader.data)
  {
    var s0 := reader.ReadByte();
    var s1 := reader.ReadByte();
    var fileLength := ReadField(reader, order);
    var _ := reader.SkipBytes(4);
    var offset := ReadField(reader, order);
    var dib := ReadField(reader, order);
    fh := FileHeader([s0, s1], fileLength, offset, dib);
  }

  /** The size fields the DIB header length selects; `p` is where they end. */
  method ReadDibSize(reader: DataInputStreamLE, order: ByteOrder, dib: int32) returns (w: int32, h: int32, p: int)
    requires reader.pos == 18
    modifies reader
    ensures reader.pos == p
    ensures (w, h, p) == DibSize(order, reader.data, KindOf(dib))
  {
    w, h, p := 0, 0, 18;
    if dib == 12 || dib == 64 {
      w := reader.ReadShort();
      h := reader.ReadShort();
      p := 22;
    } else if dib == 40 || dib >= 108 {
      w := ReadField(reader, order);
      h := ReadField(reader, order);
      p := 26;
    }
  }

  /** Compression, raw size and palette length of an info header, from the
      compression field at the cursor. */
  method ReadInfoFields(reader: DataInputStreamLE, order: ByteOrder, dib: int32, w: int32, h: int32, bpp: int)
    returns (r: Result<(int32, int32)>)
    modifies reader
    ensures r == InfoFields(order, reader.data, KindOf(dib), old(reader.pos), w, h, bpp)
    ensures r.Ok? ==> reader.pos == old(reader.pos) + (if dib == 40 || dib >= 108 then 24 else 0)
  {
    r := Ok((0, 0));
    if dib == 40 || dib >= 108 {
      var compression := ReadField(reader, order);
      if compression != 0 {
        r := Fail(UnsupportedCompression);
      } else {
        var raw := ReadField(reader, order);
        if raw == 0 {
          raw := DefaultRawLength(w, h, bpp);
        }
        var _ := reader.SkipBytes(8);
        var paletteLength := ReadField(reader, order);
        var _ := reader.SkipBytes(4);
        r := Ok((raw, paletteLength));
      }
    }
  }

  /** The info fields after the depth and the skip to the end of the DIB
      header. */
  method ReadDibRest(reader: DataInputStreamLE, order: ByteOrder, fh: FileHeader, w: int32, h: int32, p: int,
                     bpp: int) returns (r: Result<BmpHeader>)
    requires reader.pos == p + 4
    modifies reader
    ensures r == DibRest(order, reader.data, fh, w, h, p, bpp)
    ensures r.Ok? ==> reader.pos == r.value.end
  {
    var kind := KindOf(fh.dib);
    var fields := ReadInfoFields(reader, order, fh.dib, w, h, bpp);
    var dib: int := fh.dib;
    var rest := I32(dib - DibRead(kind));
    if fields.Fail? {
      r := Fail(fields.error);
    } else if rest < 0 {
      r := Fail(NegativeSkip);
    } else {
      var _ := reader.SkipBytes(rest);
      var offset: int := I32(fh.pixelOffset - 14);
      r := Ok(BmpHeader(fh.signature, fh.fileLength, fh.dib, kind, w, h, bpp, fields.value.0,
                        fields.value.1, I32(offset - dib), (if kind == Info then p + 28 else p + 4) + rest));
    }
  }

  /** Planes and depth after the size fields, recording the depth as the
      source does, then the rest of the DIB header. */
  method ReadDibTail(reader: DataInputStreamLE, order: ByteOrder, fh: FileHeader, w: int32, h: int32, p: int,
                     bmp: Bitmap) returns (r: Result<BmpHeader>)
    requires reader.pos == p
    modifies reader, bmp
    ensures r == DibTail(order, reader.data, fh, w, h, p)
    ensures r.Ok? ==>
      && reader.pos == r.value.end
      && bmp.headers == old(bmp.headers) + [("Bpp", Number(r.value.bpp))]
    ensures unchanged(bmp`name, bmp`width, bmp`height, bmp`pixels)
  {
    var planes := reader.ReadShort();
    if planes != 1 {
      r := Fail(UnsupportedPlanes);
    } else {
      var bpp := reader.ReadShort();
      bmp.AddHeader("Bpp", Number(bpp));
      r := ReadDibRest(reader, order, fh, w, h, p, bpp);
    }
  }

  /** The file header and the DIB header, recording the headers and sizing
      the bitmap as the source does. */
  method ReadHeader(reader: DataInputStreamLE, order: ByteOrder, bmp: Bitmap) returns (r: Result<BmpHeader>)
    requires reader.pos == 0 && bmp.Valid()
    modifies reader, bmp
    ensures bmp.Valid()
    ensures r == ParseBmpHeader(order, reader.data)
    ensures r.Ok? ==>
      && reader.pos == r.value.end
      && bmp.headers == old(bmp.headers) + BmpHeaders(r.value)
      && bmp.width == r.value.width && bmp.height == r.value.height && fresh(bmp.pixels)
    ensures bmp.name == old(bmp.name)
  {
    ghost var before := bmp.headers;
    var fh := ReadFileHeader(reader, order);
    bmp.AddHeader("BMP Signature", Octets(fh.signature));
    bmp.AddHeader("BMP Header Length", Number(fh.dib));
    var w, h, p := ReadDibSize(reader, order, fh.dib);
    bmp.AddHeader("Size", Extent(w, h));
    var sized := bmp.SetSize(w, h);
    if !sized {
      r := Fail(NegativeArraySize);
    } else {
      r := ReadDibTail(reader, order, fh, w, h, p, bmp);
      if r.Ok? {
        AppendFour(before, ("BMP Signature", Octets(fh.signature)), ("BMP Header Length", Number(fh.dib)),
                   ("Size", Extent(w, h)), ("Bpp", Number(r.value.bpp)));
      }
    }
  }

  /** One colour-table entry, blue first, and how many octets it took:
      three for core headers, four (with an ignored reserved octet) otherwise. */
  method ReadColor(reader: DataInputStreamLE, dib: int32) returns (c: RGB, n: int)
    modifies reader
    ensures n == EntrySize(KindOf(dib)) && reader.pos == old(reader.pos) + n
    ensures c == PaletteEntry(reader.data, old(reader.pos), n, 0)
  {
    var b := reader.ReadByte();
    var g := reader.ReadByte();
    var r := reader.ReadByte();
    c := RGB(r % 0x100, g % 0x100, b % 0x100);
    if dib == 12 || dib == 64 {
      n := 3;
    } else {
      var _ := reader.ReadByte();
      n := 4;
    }
  }

  /** `n` colour-table entries, and the octet count the source keeps in an `int`. */
  method ReadColors(reader: DataInputStreamLE, n: nat, dib: int32) returns (palette: array<RGB>, readBytes: int32)
    modifies reader
    ensures fresh(palette) && palette.Length == n
    ensures reader.pos == old(reader.pos) + EntrySize(KindOf(dib)) * n
    ensures readBytes == I32(EntrySize(KindOf(dib)) * n)
    ensures palette[..] == seq(n, i => PaletteEntry(reader.data, old(reader.pos), EntrySize(KindOf(dib)), i))
  {
    ghost var start := reader.pos;
    ghost var size := EntrySize(KindOf(dib));
    palette := new RGB[n];
    readBytes := 0;
    for i := 0 to n
      invariant reader.pos == start + size * i
      invariant readBytes == I32(size * i)
      invariant forall j :: 0 <= j < i ==> palette[j] == PaletteEntry(reader.data, start, size, j)
    {
      var c, k := ReadColor(reader, dib);
      palette[i] := c;
      I32Add(size * i, k);
      readBytes := I32(readBytes + k);
    }
  }

  /** The colour table, if the source reads one, and the skip to the pixel
      data; `null` where the source leaves `palette` null. */
  method ReadPalette(reader: DataInputStreamLE, hd: BmpHeader) returns (r: Result<array?<RGB>>)
    requires reader.pos == hd.end && hd.end >= 0
    modifies reader
    ensures var spec := ReadBmpPalette(reader.data, hd);
      && r.Ok? == spec.Ok?
      && (r.Fail? ==> r.error == spec.error)
      && (r.Ok? ==> reader.pos == spec.value.pixelStart && Holds(r.value, spec.value.palette))
    ensures r.Ok? && r.value != null ==> fresh(r.value)
  {
    var offset: int32 := hd.offset;
    r := Ok(null);
    if hd.bpp <= 8 && offset == 0 {
      r := Fail(MissingColorTable);
    } else {
      if offset > 0 && hd.bpp > 8 {
        var _ := reader.SkipBytes(offset);
        offset := 0;
      }
      if offset > 0 {
        var n: int := hd.paletteLength;
        if n == 0 {
          n := PowTwoTruncated(hd.bpp);
        }
        if n < 0 {
          r := Fail(NegativeArraySize);
        } else {
          var palette, readBytes := ReadColors(reader, n, hd.dib);
          var left: int := offset - readBytes;
          offset := I32(left);
          r := Ok(palette);
        }
      }
      if r.Ok? && offset < 0 {
        r := Fail(NegativeSkip);
      } else if r.Ok? && offset != 0 {
        var _ := reader.SkipBytes(offset);
      }
    }
  }

  /** What the pixel loop of a row starting at `start` keeps before pixel
      `x`: the cursor and `readBytes` count the octets read so far, and for
      1 and 4 bpp `tmpByte` holds the octet still being taken apart, with
      `tmpByteOffset` the position of the last bit or nibble used (0 when
      the next pixel needs a fresh octet). */
  ghost predicate PixelState(data: seq<byte>, bpp: int, start: int, x: nat, pos: int, tmpByte: int,
                             tmpByteOffset: int, readBytes: int)
  {
    && pos == start + RowBytesRead(bpp, x)
    && readBytes == I32(RowBytesRead(bpp, x))
    && (bpp == 1 ==>
          if x % 8 == 0 then tmpByteOffset == 0
          else tmpByteOffset == 8 - x % 8 && tmpByte == S8(ByteAt(data, start + x / 8)))
    && (bpp == 4 ==>
          if x % 2 == 0 then tmpByteOffset == 0
          else tmpByteOffset == 1 && tmpByte == S8(ByteAt(data, start + x / 2)))
  }

  /** The 1 bpp step: bit `7 - x % 8` of the row's octet `x / 8`, most
      significant bit first, as a palette index. */
  method ReadBitPixel(reader: DataInputStreamLE, pal: array?<RGB>, ghost palette: Option<seq<RGB>>,
                      ghost start: int, x: nat, tmpByte: int, tmpByteOffset: int, readBytes: int32)
    returns (c: Result<RGB>, tmpByte': int, tmpByteOffset': int, readBytes': int32)
    requires Holds(pal, palette)
    requires PixelState(reader.data, 1, start, x, reader.pos, tmpByte, tmpByteOffset, readBytes)
    modifies reader
    ensures c == BmpPixel(reader.data, palette, 1, start, x)
    ensures PixelState(reader.data, 1, start, x + 1, reader.pos, tmpByte', tmpByteOffset', readBytes')
  {
    BitPosition(x);
    tmpByte', readBytes' := tmpByte, readBytes;
    if tmpByteOffset == 0 {
      tmpByte' := reader.ReadByte();
      tmpByteOffset' := 7;
      I32Add(RowBytesRead(1, x), 1);
      readBytes' := I32(readBytes + 1);
    } else {
      tmpByteOffset' := tmpByteOffset - 1;
    }
    SignedBit(ByteAt(reader.data, start + x / 8), tmpByteOffset');
    c := LookupColor(pal, palette, ShiftRight(tmpByte', tmpByteOffset') % 2);
  }

  /** The 4 bpp step: the high nibble of octet `x / 2` for even `x`, the
      low one for odd `x`, as a palette index. */
  method ReadNibblePixel(reader: DataInputStreamLE, pal: array?<RGB>, ghost palette: Option<seq<RGB>>,
                         ghost start: int, x: nat, tmpByte: int, tmpByteOffset: int, readBytes: int32)
    returns (c: Result<RGB>, tmpByte': int, tmpByteOffset': int, readBytes': int32)
    requires Holds(pal, palette)
    requires PixelState(reader.data, 4, start, x, reader.pos, tmpByte, tmpByteOffset, readBytes)
    modifies reader
    ensures c == BmpPixel(reader.data, palette, 4, start, x)
    ensures PixelState(reader.data, 4, start, x + 1, reader.pos, tmpByte', tmpByteOffset', readBytes')
  {
    tmpByte', readBytes' := tmpByte, readBytes;
    if tmpByteOffset == 0 {
      tmpByte' := reader.ReadByte();
      tmpByteOffset' := 1;
      I32Add(RowBytesRead(4, x), 1);
      readBytes' := I32(readBytes + 1);
    } else {
      tmpByteOffset' := tmpByteOffset - 1;
    }
    SignedNibble(ByteAt(reader.data, start + x / 2), tmpByteOffset');
    c := LookupColor(pal, palette, ShiftRight(tmpByte', tmpByteOffset' * 4) % 16);
  }

  /** The 8 bpp step: octet `x` of the row as a palette index. */
  method ReadIndexPixel(reader: DataInputStreamLE, pal: array?<RGB>, ghost palette: Option<seq<RGB>>,
                        ghost start: int, x: nat, readBytes: int32)
    returns (c: Result<RGB>, readBytes': int32)
    requires Holds(pal, palette)
    requires reader.pos == start + RowBytesRead(8, x) && readBytes == I32(RowBytesRead(8, x))
    modifies reader
    ensures c == BmpPixel(reader.data, palette, 8, start, x)
    ensures reader.pos == start + RowBytesRead(8, x + 1) && readBytes' == I32(RowBytesRead(8, x + 1))
  {
    var i := reader.ReadByte();
    UnsignedOfSigned(ByteAt(reader.data, start + x));
    c := LookupColor(pal, palette, i % 0x100);
    I32Add(RowBytesRead(8, x), 1);
    readBytes' := I32(readBytes + 1);
  }

  /** The 24 bpp step: octets `3x`, `3x + 1` and `3x + 2` of the row as
      blue, green and red. */
  method ReadTruePixel(reader: DataInputStreamLE, ghost start: int, x: nat, readBytes: int32)
    returns (c: Result<RGB>, readBytes': int32)
    requires reader.pos == start + RowBytesRead(24, x) && readBytes == I32(RowBytesRead(24, x))
    modifies reader
    ensures c == BmpPixel(reader.data, None, 24, start, x)
    ensures reader.pos == start + RowBytesRead(24, x + 1) && readBytes' == I32(RowBytesRead(24, x + 1))
  {
    var b := reader.ReadByte();
    var g := reader.ReadByte();
    var r := reader.ReadByte();
    UnsignedOfSigned(ByteAt(reader.data, start + 3 * x));
    UnsignedOfSigned(ByteAt(reader.data, start + 3 * x + 1));
    UnsignedOfSigned(ByteAt(reader.data, start + 3 * x + 2));
    c := Ok(RGB(r % 0x100, g % 0x100, b % 0x100));
    I32Add(RowBytesRead(24, x), 3);
    readBytes' := I32(readBytes + 3);
  }

  /** One step of the pixel loop: the colour of pixel `x`, reading a new
      octet when the depth needs one. */
  method ReadPixel(reader: DataInputStreamLE, pal: array?<RGB>, ghost palette: Option<seq<RGB>>, bpp: int,
                   ghost start: int, x: nat, tmpByte: int, tmpByteOffset: int, readBytes: int32)
    returns (c: Result<RGB>, tmpByte': int, tmpByteOffset': int, readBytes': int32)
    requires Holds(pal, palette)
    requires PixelState(reader.data, bpp, start, x, reader.pos, tmpByte, tmpByteOffset, readBytes)
    modifies reader
    ensures c == BmpPixel(reader.data, palette, bpp, start, x)
    ensures PixelState(reader.data, bpp, start, x + 1, reader.pos, tmpByte', tmpByteOffset', readBytes')
  {
    tmpByte', tmpByteOffset', readBytes' := tmpByte, tmpByteOffset, readBytes;
    if bpp == 1 {
      c, tmpByte', tmpByteOffset', readBytes' := ReadBitPixel(reader, pal, palette, start, x, tmpByte, tmpByteOffset, readBytes);
    } else if bpp == 4 {
      c, tmpByte', tmpByteOffset', readBytes' := ReadNibblePixel(reader, pal, palette, start, x, tmpByte, tmpByteOffset, readBytes);
    } else if bpp == 8 {
      c, readBytes' := ReadIndexPixel(reader, pal, palette, start, x, readBytes);
    } else if bpp == 24 {
      c, readBytes' := ReadTruePixel(reader, start, x, readBytes);
    } else {
      c := Fail(UnsupportedBpp);
    }
  }

  /** The pixel loop of one stored row, into line `y` of the bitmap, up to
      the first pixel that fails. Other lines are left alone. */
  method ReadRowPixels(reader: DataInputStreamLE, bmp: Bitmap, pal: array?<RGB>, ghost palette: Option<seq<RGB>>,
                       bpp: int, y: int) returns (r: Result<()>, readBytes: int32)
    requires bmp.Valid() && 0 <= y < bmp.height && Holds(pal, palette)
    modifies reader, bmp.pixels
    ensures var px := RowPixels(reader.data, palette, bpp, bmp.width, old(reader.pos));
      && r.Ok? == px.Ok?
      && (r.Fail? ==> r.error == px.error)
      && (r.Ok? ==> reader.pos == old(reader.pos) + RowBytesRead(bpp, bmp.width)
                    && readBytes == I32(RowBytesRead(bpp, bmp.width))
                    && forall x :: 0 <= x < bmp.width ==> bmp.pixels[x, y] == px.value[x])
    ensures forall i, j :: 0 <= i < bmp.width && 0 <= j < bmp.height && j != y ==>
      bmp.pixels[i, j] == old(bmp.pixels[i, j])
  {
    ghost var start := reader.pos;
    var w: nat := bmp.width;
    ghost var ps := PixelResults(reader.data, palette, bpp, w, start);
    readBytes := 0;
    var tmpByte, tmpByteOffset := 0, 0;
    var x := 0;
    r := Ok(());
    while x < w
      invariant 0 <= x <= w
      invariant PixelState(reader.data, bpp, start, x, reader.pos, tmpByte, tmpByteOffset, readBytes)
      invariant forall j :: 0 <= j < x ==> ps[j].Ok? && bmp.pixels[j, y] == ps[j].value
      invariant forall i, j :: 0 <= i < w && 0 <= j < bmp.height && j != y ==>
        bmp.pixels[i, j] == old(bmp.pixels[i, j])
    {
      var c;
      c, tmpByte, tmpByteOffset, readBytes := ReadPixel(reader, pal, palette, bpp, start, x, tmpByte, tmpByteOffset, readBytes);
      if c.Fail? {
        CollectFirstFailure(ps, x);
        return Fail(c.error), readBytes;
      }
      var _ := bmp.SetPixel(x, y, c.value);
      x := x + 1;
    }
    CollectAllOk(ps);
  }

  /** Stored row `k = height - 1 - y` of the rows `rs` that start at
      `start`, `stride` octets apart, into line `y` of the bitmap, then the
      skip by `rowLength - readBytes` to the row's end: the picture's line
      `y` becomes the row, and no other line changes. */
  method ReadRow(reader: DataInputStreamLE, bmp: Bitmap, pal: array?<RGB>, ghost palette: Option<seq<RGB>>,
                 bpp: int, y: int, rowLength: int32, ghost rs: seq<Result<seq<RGB>>>, ghost start: int,
                 ghost stride: int, ghost done: nat) returns (r: Result<()>)
    requires bmp.Valid() && 0 <= y < bmp.height && Holds(pal, palette)
    requires rowLength == RowLength(bpp, bmp.width) && stride == RowStride(bpp, bmp.width)
    requires rs == StoredRows(reader.data, palette, bpp, bmp.width, bmp.height, start, stride)
    requires done == bmp.height - 1 - y && reader.pos == start + done * stride
    modifies reader, bmp.pixels
    ensures var row := rs[done];
      && r.Ok? == row.Ok?
      && (r.Fail? ==> r.error == row.error)
      && (r.Ok? ==> reader.pos == old(reader.pos) + stride
                    && bmp.Picture() == old(bmp.Picture()).(rows := old(bmp.Picture()).rows[y := row.value]))
  {
    ghost var before := bmp.Picture();
    StoredRow(reader.data, palette, bpp, bmp.width, bmp.height, start, stride, done);
    var readBytes;
    r, readBytes := ReadRowPixels(reader, bmp, pal, palette, bpp, y);
    if r.Ok? {
      var pad := I32(rowLength - readBytes);
      if pad < 0 {
        r := Fail(NegativeSkip);
      } else {
        var _ := reader.SkipBytes(pad);
        ghost var px := RowPixels(reader.data, palette, bpp, bmp.width, old(reader.pos));
        ImageExtensionality(bmp.Picture(), before.(rows := before.rows[y := px.value]));
      }
    }
  }

  /** The row loop, from the bottom line `height - 1` up to line 0, each
      stored row `rowLength` octets apart once its skip is done. */
  method ReadRows(reader: DataInputStreamLE, bmp: Bitmap, pal: array?<RGB>, ghost palette: Option<seq<RGB>>, bpp: int)
    returns (r: Result<()>)
    requires bmp.Valid() && Holds(pal, palette)
    modifies reader, bmp.pixels
    ensures var spec := BmpRows(reader.data, palette, bpp, bmp.width, bmp.height, old(reader.pos),
                                RowStride(bpp, bmp.width));
      && r.Ok? == spec.Ok?
      && (r.Fail? ==> r.error == spec.error)
      && (r.Ok? ==> bmp.Picture() == Flip(bmp.width, bmp.height, spec.value))
  {
    ghost var start := reader.pos;
    var w: nat, h: nat := bmp.width, bmp.height;
    ghost var stride := RowStride(bpp, w);
    ghost var rs := StoredRows(reader.data, palette, bpp, w, h, start, stride);
    assert BmpRows(reader.data, palette, bpp, w, h, start, stride) == Collect(rs);
    var rowLength := RowLength(bpp, w);
    ghost var before := bmp.Picture();
    var y := h - 1;
    ghost var done := 0;
    while y >= 0
      invariant -1 <= y < h && done == h - 1 - y
      invariant reader.pos == start + done * stride
      invariant forall k :: 0 <= k < done ==> rs[k].Ok?
      invariant bmp.Picture() == Painted(before, rs, done)
    {
      var row := ReadRow(reader, bmp, pal, palette, bpp, y, rowLength, rs, start, stride, done);
      if row.Fail? {
        CollectFirstFailure(rs, done);
        return row;
      }
      NextRow(start, stride, done);
      y, done := y - 1, done + 1;
    }
    FlipOfRows(before, rs);
    assert bmp.Picture() == Flip(w, h, Collect(rs).value);
    r := Ok(());
  }

  /** `BMP.load` on a file called `name` holding `data`, with 32-bit fields
      read in `order` (`FirstByteHigh` is the reader as written): the
      bitmap it returns, or the exception it throws. */
  method Load(order: ByteOrder, name: string, data: seq<byte>) returns (r: Result<Bitmap>)
    ensures var spec := DecodeBmp(order, data);
      && r.Ok? == spec.Ok?
      && (r.Fail? ==> r.error == spec.error)
      && (r.Ok? ==> r.value.Valid() && r.value.name == name && r.value.headers == spec.value.headers
                    && r.value.Picture() == spec.value.image)
  {
    var reader := new DataInputStreamLE(data);
    var bmp := new Bitmap.Named(name);
    var hd := ReadHeader(reader, order, bmp);
    if hd.Fail? {
      return Fail(hd.error);
    }
    var palette := ReadPalette(reader, hd.value);
    if palette.Fail? {
      return Fail(palette.error);
    }
    ghost var ps := ReadBmpPalette(data, hd.value).value;
    var rows := ReadRows(reader, bmp, palette.value, ps.palette, hd.value.bpp);
    if rows.Fail? {
      return Fail(rows.error);
    }
    r := Ok(bmp);
  }

  /** The file header `save` writes for a `w` x `h` picture. */
  method SaveFileHeader(writer: DataOutputStreamLE, w: int32, h: int32)
    modifies writer
    ensures writer.bytes == old(writer.bytes) + SavedFileHeader(w, h)
  {
    var rawLength := I32(3 * (I32(w as int * h) as int));
    var length := I32(14 + 40 + rawLength as int);
    var offset := 54;
    ghost var start := writer.bytes;
    writer.WriteAll([0x42, 0x4D]);
    ghost var acc: seq<byte> := [0x42, 0x4D];
    writer.WriteInt(length);
    AppendAssoc(start, acc, IntBytes(length));
    acc := acc + IntBytes(length);
    writer.WriteAll(Zeros(4));
    AppendAssoc(start, acc, Zeros(4));
    acc := acc + Zeros(4);
    writer.WriteInt(offset);
    AppendAssoc(start, acc, IntBytes(offset));
    acc := acc + IntBytes(offset);
  }

  /** The BITMAPINFOHEADER `save` writes. */
  method SaveInfoHeader(writer: DataOutputStreamLE, w: int32, h: int32)
    modifies writer
    ensures writer.bytes == old(writer.bytes) + SavedInfoHeader(w, h)
  {
    var rawLength := I32(3 * (I32(w as int * h) as int));
    ghost var start := writer.bytes;
    writer.WriteInt(40);
    ghost var acc: seq<byte> := IntBytes(40);
    writer.WriteInt(w);
    AppendAssoc(start, acc, IntBytes(w));
    acc := acc + IntBytes(w);
    writer.WriteInt(h);
    AppendAssoc(start, acc, IntBytes(h));
    acc := acc + IntBytes(h);
    writer.WriteShort(1);
    AppendAssoc(start, acc, ShortBytes(1));
    acc := acc + ShortBytes(1);
    writer.WriteShort(24);
    AppendAssoc(start, acc, ShortBytes(24));
    acc := acc + ShortBytes(24);
    writer.WriteInt(0);
    AppendAssoc(start, acc, IntBytes(0));
    acc := acc + IntBytes(0);
    writer.WriteInt(rawLength);
    AppendAssoc(start, acc, IntBytes(rawLength));
    acc := acc + IntBytes(rawLength);
    writer.WriteInt(600);
    AppendAssoc(start, acc, IntBytes(600));
    acc := acc + IntBytes(600);
    writer.WriteInt(600);
    AppendAssoc(start, acc, IntBytes(600));
    acc := acc + IntBytes(600);
    writer.WriteInt(0);
    AppendAssoc(start, acc, IntBytes(0));
    acc := acc + IntBytes(0);
    writer.WriteInt(0);
    AppendAssoc(start, acc, IntBytes(0));
    acc := acc + IntBytes(0);
  }

  /** Line `y` of the picture as B,G,R octets, then the zero padding up
      to `rowLength`; the allocation of a negative padding fails. */
  method SaveRow(bmp: Bitmap, writer: DataOutputStreamLE, y: int, rowLength: int32) returns (r: Result<()>)
    requires bmp.Valid() && 0 <= y < bmp.height && rowLength == RowLength(24, bmp.width)
    modifies writer
    ensures var pad := SavedPad(bmp.width);
      && r.Ok? == pad.Ok?
      && (r.Fail? ==> r.error == pad.error)
      && (r.Ok? ==> writer.bytes == old(writer.bytes) + PixelBytes(bmp.Picture().rows[y]) + Zeros(pad.value))
  {
    var writtenBytes := SavePixels(bmp, writer, y);
    r := Ok(());
    if writtenBytes < rowLength {
      var n := I32(rowLength - writtenBytes);
      if n < 0 {
        r := Fail(NegativeArraySize);
      } else {
        writer.WriteAll(Zeros(n));
      }
    } else {
      assert Zeros(0) == [];
    }
  }

  /** The pixel loop of one row: B, G, R octets of every pixel of line
      `y`, counting the octets written in a Java `int`. */
  method SavePixels(bmp: Bitmap, writer: DataOutputStreamLE, y: int) returns (writtenBytes: int32)
    requires bmp.Valid() && 0 <= y < bmp.height
    modifies writer
    ensures writtenBytes == I32(3 * bmp.width)
    ensures writer.bytes == old(writer.bytes) + PixelBytes(bmp.Picture().rows[y])
  {
    ghost var line := bmp.Picture().rows[y];
    writtenBytes := 0;
    var x := 0;
    while x < bmp.width
      invariant 0 <= x <= bmp.width && bmp.Picture().rows[y] == line
      invariant writer.bytes == old(writer.bytes) + PixelBytes(line[..x])
      invariant writtenBytes == I32(3 * x)
    {
      var c := bmp.GetPixel(x, y);
      writer.WriteAll([c.value.b, c.value.g, c.value.r]);
      assert line[..x + 1][..x] == line[..x];
      I32Add(3 * x, 3);
      writtenBytes := I32(writtenBytes + 3);
      x := x + 1;
    }
    assert line[..x] == line;
  }

  /** The rows `save` writes, from the bottom line up; the first padding
      failure ends the save. */
  method SaveRows(bmp: Bitmap, writer: DataOutputStreamLE, rowLength: int32) returns (r: Result<()>)
    requires bmp.Valid() && rowLength == RowLength(24, bmp.width)
    modifies writer
    ensures var pad := SavedPad(bmp.width);
      && r.Ok? == (bmp.height == 0 || pad.Ok?)
      && (r.Fail? ==> r.error == pad.error)
      && (r.Ok? ==> writer.bytes == old(writer.bytes) + SavedRows(bmp.Picture(), if pad.Ok? then pad.value else 0, bmp.height))
  {
    ghost var img := bmp.Picture();
    ghost var pad := SavedPad(bmp.width);
    ghost var n := if pad.Ok? then pad.value else 0;
    var y := bmp.height - 1;
    ghost var done := 0;
    r := Ok(());
    while y >= 0 && r.Ok?
      invariant -1 <= y < bmp.height && done == bmp.height - 1 - y
      invariant bmp.Picture() == img
      invariant r.Ok? ==> writer.bytes == old(writer.bytes) + SavedRows(img, n, done)
      invariant r.Ok? && done > 0 ==> pad.Ok?
      invariant r.Fail? ==> bmp.height > 0 && pad.Fail? && r.error == pad.error
      decreases y + 1 + (if r.Ok? then 1 else 0)
    {
      ghost var before := writer.bytes;
      r := SaveRow(bmp, writer, y, rowLength);
      if r.Ok? {
        SavedRowsNext(img, n, done, y);
        AppendAssoc(old(writer.bytes), SavedRows(img, n, done), PixelBytes(img.rows[y]));
        AppendAssoc(old(writer.bytes), SavedRows(img, n, done) + PixelBytes(img.rows[y]), Zeros(n));
        y, done := y - 1, done + 1;
      }
    }
  }

  /** `BMP.save` of `bmp` to the stream `writer`: nothing for a null
      bitmap, otherwise the octets `EncodeBmp` gives, or the exception the
      padding allocation throws. */
  method Save(bmp: Bitmap?, writer: DataOutputStreamLE) returns (r: Result<()>)
    requires bmp != null ==> bmp.Valid()
    modifies writer
    ensures bmp == null ==> r.Ok? && writer.bytes == old(writer.bytes)
    ensures bmp != null ==>
      var spec := EncodeBmp(bmp.Picture());
      && r.Ok? == spec.Ok?
      && (r.Fail? ==> r.error == spec.error)
      && (r.Ok? ==> writer.bytes == old(writer.bytes) + spec.value)
  {
    if bmp == null {
      return Ok(());
    }
    var (w, h) := bmp.GetSize();
    SaveFileHeader(writer, w, h);
    SaveInfoHeader(writer, w, h);
    AppendAssoc(old(writer.bytes), SavedFileHeader(w, h), SavedInfoHeader(w, h));
    ghost var header := writer.bytes;
    var rowLength := RowLength(24, w);
    r := SaveRows(bmp, writer, rowLength);
    if r.Ok? {
      ghost var pad := SavedPad(w);
      AppendAssoc(old(writer.bytes), SavedHeader(w, h), SavedRows(bmp.Picture(), if pad.Ok? then pad.value else 0, h));
    }
  }

  /** The next row starts one stride further on. */
  lemma NextRow(start: int, stride: int, k: int)
    ensures start + (k + 1) * stride == start + k * stride + stride
  {
  }
}
