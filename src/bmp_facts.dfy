/** Properties of the BMP model: row geometry, the checks the loader makes
    on a header, and what loading a saved file gives back. */
module BmpFacts {
  import opened Bytes
  import opened Results
  import opened InputLE
  import opened OutputLE
  import opened StreamFacts
  import opened Raster
  import opened ColorTables
  import opened BmpFormat

  // ---------------------------------------------------------------------
  // Row geometry.

  /** A row occupies `((bpp * width + 31) / 32) * 4` octets: a multiple of
      four, at least `bpp * width` bits, and fewer than four octets more
      than that, while the product fits a Java `int`. */
  lemma RowLengthBounds(bpp: int, width: int)
    requires 0 <= bpp && 0 <= width && bpp * width + 31 < 0x8000_0000
    ensures RowLength(bpp, width) % 4 == 0
    ensures 8 * RowLength(bpp, width) >= bpp * width
    ensures 8 * RowLength(bpp, width) < bpp * width + 32
  {
    var bits := bpp * width;
    var q := WordsOf(bits);
    assert RowLength(bpp, width) == 4 * q by {
      assert I32(bits) == bits;
      assert I32(bits + 31) == bits + 31;
    }
  }

  /** The 32-bit words `bits` bits occupy, rounded up. */
  function WordsOf(bits: nat): (q: nat)
    ensures 32 * q >= bits && 32 * q < bits + 32
    ensures q == (bits + 31) / 32
  {
    (bits + 31) / 32
  }

  /** For every depth the loader unpacks, the pixel reads of a row stay
      within the row length, so the skip to the row's end is not negative
      and each row consumes exactly `RowLength` octets. */
  lemma RowConsumesRowLength(bpp: int, width: nat)
    requires bpp == 1 || bpp == 4 || bpp == 8 || bpp == 24
    requires bpp * width + 31 < 0x8000_0000
    ensures 0 <= RowPad(bpp, width) < 4
    ensures RowStride(bpp, width) == RowLength(bpp, width)
  {
    RowLengthBounds(bpp, width);
    var n := RowLength(bpp, width);
    var used := RowBytesRead(bpp, width);
    assert used <= n < used + 4 by {
      if bpp == 1 {
        assert bpp * width == width;
        assert width <= 8 * used <= width + 7;
      } else if bpp == 4 {
        assert bpp * width == 4 * width;
        assert width <= 2 * used <= width + 1;
      } else if bpp == 8 {
        assert bpp * width == 8 * width;
      } else {
        assert bpp * width == 24 * width;
      }
    }
    assert I32(used) == used;
    assert I32(n - used) == n - used;
  }

  /** The padding `save` appends to a row is the skip `load` makes after
      reading it: `RowLength(24, width) - 3 * width`. */
  lemma SavedPadIsRowPad(width: nat)
    requires 24 * width + 31 < 0x8000_0000
    ensures SavedPad(width) == Ok(RowPad(24, width) as nat)
    ensures RowStride(24, width) == 3 * width + RowPad(24, width) == RowLength(24, width)
  {
    RowConsumesRowLength(24, width);
    assert I32(3 * width) == 3 * width;
  }

  // ---------------------------------------------------------------------
  // The header checks.

  /** The DIB header's length decides how the size is stored: 16-bit
      fields for 12 and 64, 32-bit fields for 40 and from 108 on, and no
      size at all (0 x 0) for any other length. */
  lemma DibLengthSelectsSize(order: ByteOrder, data: seq<byte>)
    ensures var dib := IntAt(order, data, 14);
      var r := ParseBmpHeader(order, data);
      && ((dib == 12 || dib == 64) && r.Ok? ==> r.value.width == ShortAt(data, 18) && r.value.height == ShortAt(data, 20))
      && ((dib == 40 || dib >= 108) && r.Ok? ==>
            r.value.width == IntAt(order, data, 18) && r.value.height == IntAt(order, data, 22))
      && (KindOf(dib) == Other && r.Ok? ==> r.value.width == 0 && r.value.height == 0)
  {
  }

  /** An unknown DIB length is not an error: with one plane and a length
      of at least eight the header is accepted, with a 0 x 0 size. */
  lemma UnknownDibLengthAccepted(order: ByteOrder, data: seq<byte>)
    requires KindOf(IntAt(order, data, 14)) == Other && IntAt(order, data, 14) >= 8
    requires ShortAt(data, 18) == 1
    ensures ParseBmpHeader(order, data).Ok?
    ensures ParseBmpHeader(order, data).value.width == 0 && ParseBmpHeader(order, data).value.height == 0
  {
  }

  /** A plane count other than 1 is rejected, once the size is not negative. */
  lemma PlanesChecked(order: ByteOrder, data: seq<byte>)
    ensures var fh := ParseFileHeader(order, data);
      var (w, h, p) := DibSize(order, data, KindOf(fh.dib));
      w >= 0 && h >= 0 && ShortAt(data, p) != 1 ==> ParseBmpHeader(order, data) == Fail(UnsupportedPlanes)
  {
  }

  /** An info header with a compression other than 0 (BI_RGB) is rejected. */
  lemma CompressionChecked(order: ByteOrder, data: seq<byte>)
    requires KindOf(IntAt(order, data, 14)) == Info
    requires IntAt(order, data, 18) >= 0 && IntAt(order, data, 22) >= 0 && ShortAt(data, 26) == 1
    ensures ParseBmpHeader(order, data).Fail? <==> IntAt(order, data, 30) != 0
    ensures IntAt(order, data, 30) != 0 ==> ParseBmpHeader(order, data).error == UnsupportedCompression
  {
    var dib := IntAt(order, data, 14);
    assert I32(dib - 40) == dib - 40;
  }

  /** Two files that agree from octet 2 on hold the same fields there. */
  lemma FieldAgrees(order: ByteOrder, data: seq<byte>, other: seq<byte>, p: int)
    requires |data| == |other| && 2 <= |data| && data[2..] == other[2..] && 2 <= p
    ensures IntAt(order, data, p) == IntAt(order, other, p)
    ensures ShortAt(data, p) == ShortAt(other, p)
  {
    forall q | p <= q < p + 4
      ensures ByteAt(data, q) == ByteAt(other, q)
    {
      if q < |data| {
        assert data[q] == data[2..][q - 2];
      }
    }
    assert BytesAt(data, p, 4) == BytesAt(other, p, 4);
  }

  lemma InfoFieldsAgree(order: ByteOrder, data: seq<byte>, other: seq<byte>, kind: DibKind, q: int,
                        w: int, h: int, bpp: int)
    requires |data| == |other| && 2 <= |data| && data[2..] == other[2..] && 2 <= q
    ensures InfoFields(order, data, kind, q, w, h, bpp) == InfoFields(order, other, kind, q, w, h, bpp)
  {
    FieldAgrees(order, data, other, q);
    FieldAgrees(order, data, other, q + 4);
    FieldAgrees(order, data, other, q + 16);
  }

  /** The stages after the file header look at no octet before 2, so two
      files that agree from octet 2 on pass them alike, given file headers
      that differ only in the signature. */
  lemma DibRestAgrees(order: ByteOrder, data: seq<byte>, other: seq<byte>, fh: FileHeader, fo: FileHeader,
                      w: int32, h: int32, p: int, bpp: int)
    requires |data| == |other| && 2 <= |data| && data[2..] == other[2..] && 2 <= p
    requires fo == fh.(signature := fo.signature)
    ensures var a, b := DibRest(order, data, fh, w, h, p, bpp), DibRest(order, other, fo, w, h, p, bpp);
      a.Ok? == b.Ok? && (a.Fail? ==> a.error == b.error) && (a.Ok? ==> b.value == a.value.(signature := fo.signature))
  {
    InfoFieldsAgree(order, data, other, KindOf(fh.dib), p + 4, w, h, bpp);
  }

  lemma DibTailAgrees(order: ByteOrder, data: seq<byte>, other: seq<byte>, fh: FileHeader, fo: FileHeader,
                      w: int32, h: int32, p: int)
    requires |data| == |other| && 2 <= |data| && data[2..] == other[2..] && 2 <= p
    requires fo == fh.(signature := fo.signature)
    ensures var a, b := DibTail(order, data, fh, w, h, p), DibTail(order, other, fo, w, h, p);
      a.Ok? == b.Ok? && (a.Fail? ==> a.error == b.error) && (a.Ok? ==> b.value == a.value.(signature := fo.signature))
  {
    FieldAgrees(order, data, other, p);
    FieldAgrees(order, data, other, p + 2);
    DibRestAgrees(order, data, other, fh, fo, w, h, p, ShortAt(data, p + 2));
  }

  /** The signature is not checked: two files that differ only in their
      first two octets are accepted or rejected alike, and when accepted
      their headers differ only in the signature. */
  lemma SignatureNotChecked(order: ByteOrder, data: seq<byte>, other: seq<byte>)
    requires |data| == |other| && 2 <= |data| && data[2..] == other[2..]
    ensures var a, b := ParseBmpHeader(order, data), ParseBmpHeader(order, other);
      && a.Ok? == b.Ok?
      && (a.Fail? ==> a.error == b.error)
      && (a.Ok? ==> b.value == a.value.(signature := b.value.signature))
  {
    FieldAgrees(order, data, other, 2);
    FieldAgrees(order, data, other, 10);
    FieldAgrees(order, data, other, 14);
    FieldAgrees(order, data, other, 18);
    FieldAgrees(order, data, other, 20);
    FieldAgrees(order, data, other, 22);
    var fh, fo := ParseFileHeader(order, data), ParseFileHeader(order, other);
    assert fo == fh.(signature := fo.signature);
    var (w, h, p) := DibSize(order, data, KindOf(fh.dib));
    assert DibSize(order, other, KindOf(fo.dib)) == (w, h, p);
    if w >= 0 && h >= 0 {
      DibTailAgrees(order, data, other, fh, fo, w, h, p);
    }
  }

  /** The loader consumes exactly `dibHeaderLength` octets of DIB header,
      counting from the length field at offset 14. */
  lemma DibHeaderConsumed(order: ByteOrder, data: seq<byte>)
    ensures var r := ParseBmpHeader(order, data);
      r.Ok? && r.value.dib >= 0 ==> r.value.end == 14 + r.value.dib
  {
    var dib := IntAt(order, data, 14);
    if dib >= 0 {
      assert I32(dib - DibRead(KindOf(dib))) == dib - DibRead(KindOf(dib));
    }
  }

  /** A stated raw size of 0 stands for `width * height * bpp`, in Java
      `int` arithmetic. */
  lemma DefaultRawSize(order: ByteOrder, data: seq<byte>)
    requires KindOf(IntAt(order, data, 14)) == Info && IntAt(order, data, 34) == 0
    ensures var r := ParseBmpHeader(order, data);
      r.Ok? ==> r.value.rawLength == I32(r.value.width * r.value.height * r.value.bpp)
  {
    var r := ParseBmpHeader(order, data);
    if r.Ok? {
      var hd := r.value;
      ProductIsMultiplication(hd.width, hd.height);
      ProductIsMultiplication(hd.width * hd.height, hd.bpp);
    }
  }

  // ---------------------------------------------------------------------
  // The colour table.

  /** A depth of at most 8 with the pixel data right behind the DIB header
      (offset `14 + dibHeaderLength`) has no colour table and is rejected. */
  lemma NoColorTableRejected(order: ByteOrder, data: seq<byte>)
    requires ParseBmpHeader(order, data).Ok?
    requires ParseBmpHeader(order, data).value.bpp <= 8
    requires ParseFileHeader(order, data).pixelOffset == 14 + ParseFileHeader(order, data).dib
    ensures DecodeBmp(order, data) == Fail(Results.MissingColorTable)
  {
    var fh := ParseFileHeader(order, data);
    var hd := ParseBmpHeader(order, data).value;
    assert hd.offset == I32(I32(fh.pixelOffset - 14) - fh.dib);
  }

  /** A depth of at most 8 always comes with a colour table: `2^bpp`
      entries when the header states 0, the stated count otherwise, each
      read blue first from 3- or 4-octet entries. A null palette can
      therefore never be looked up. */
  lemma ColorTableRead(data: seq<byte>, hd: BmpHeader)
    requires hd.end >= 0 && 0 <= hd.bpp <= 8
    ensures var r := ReadBmpPalette(data, hd);
      r.Ok? ==>
        var n := if hd.paletteLength == 0 then Pow2(hd.bpp) else hd.paletteLength as int;
        && r.value.palette.Some?
        && |r.value.palette.value| == n
        && forall i :: 0 <= i < n ==>
             r.value.palette.value[i] == PaletteEntry(data, hd.end, EntrySize(KindOf(hd.dib)), i)
  {
  }

  /** The colour table and the skip after it end `offset` octets behind
      the DIB header, whenever the table's size fits a Java `int`. */
  lemma PaletteEndsAtOffset(data: seq<byte>, hd: BmpHeader)
    requires hd.end >= 0
    ensures var r := ReadBmpPalette(data, hd);
      r.Ok? && (r.value.palette.None? || EntrySize(KindOf(hd.dib)) * |r.value.palette.value| < 0x8000_0000) ==>
        r.value.pixelStart == hd.end + hd.offset
  {
  }

  /** Pixel data starts at the offset the file header states, whenever
      that offset lies behind the DIB header and the colour table's size
      fits a Java `int`. */
  lemma PixelDataAtStatedOffset(order: ByteOrder, data: seq<byte>)
    ensures var fh := ParseFileHeader(order, data);
      var h := ParseBmpHeader(order, data);
      h.Ok? && 0 <= fh.dib && 14 + fh.dib <= fh.pixelOffset ==>
        var r := ReadBmpPalette(data, h.value);
        r.Ok? && (r.value.palette.None? || EntrySize(KindOf(fh.dib)) * |r.value.palette.value| < 0x8000_0000) ==>
          r.value.pixelStart == fh.pixelOffset
  {
    var fh := ParseFileHeader(order, data);
    var h := ParseBmpHeader(order, data);
    if h.Ok? && 0 <= fh.dib && 14 + fh.dib <= fh.pixelOffset {
      DibHeaderConsumed(order, data);
      assert h.value.dib == fh.dib;
      assert h.value.offset == fh.pixelOffset - 14 - fh.dib;
      PaletteEndsAtOffset(data, h.value);
    }
  }

  // ---------------------------------------------------------------------
  // Pixel rows.

  /** A depth other than 1, 4, 8 and 24 fails on the first pixel of the
      first row. */
  lemma UnsupportedDepthFails(data: seq<byte>, palette: Option<seq<RGB>>, bpp: int, width: nat, height: nat,
                              start: int, stride: int)
    requires bpp != 1 && bpp != 4 && bpp != 8 && bpp != 24
    requires width > 0 && height > 0
    ensures BmpRows(data, palette, bpp, width, height, start, stride) == Fail(UnsupportedBpp)
  {
    var ps := PixelResults(data, palette, bpp, width, start);
    CollectFirstFailure(ps, 0);
    var rs := StoredRows(data, palette, bpp, width, height, start, stride);
    StoredRow(data, palette, bpp, width, height, start, stride, 0);
    CollectFirstFailure(rs, 0);
  }

  // ---------------------------------------------------------------------
  // The layout of a saved file.

  /** A picture `save` can write and `load` can read back: its rows fit a
      Java `int` row length and its height a Java `int`. */
  predicate Saveable(img: Image)
  {
    img.WellFormed() && 24 * img.width + 31 < 0x8000_0000 && img.height < 0x8000_0000
  }

  /** Octet `3 * x + c` of a row's saved pixels is component `c` of pixel
      `x`, blue first. */
  lemma {:induction false} PixelBytesAt(row: seq<RGB>, x: nat)
    requires x < |row|
    ensures PixelBytes(row)[3 * x] == row[x].b
    ensures PixelBytes(row)[3 * x + 1] == row[x].g
    ensures PixelBytes(row)[3 * x + 2] == row[x].r
  {
    var prefix := row[..|row| - 1];
    if x < |row| - 1 {
      PixelBytesAt(prefix, x);
      assert prefix[x] == row[x];
    }
  }

  /** Saved row `j` (bottom line first) starts `j` row lengths into the
      row data: its pixels, then `pad` zeros. */
  lemma {:induction false} SavedRowsAt(img: Image, pad: nat, k: nat, j: nat, i: nat)
    requires img.WellFormed() && k <= img.height && j < k && i < 3 * img.width + pad
    ensures j * (3 * img.width + pad) + i < |SavedRows(img, pad, k)|
    ensures SavedRows(img, pad, k)[j * (3 * img.width + pad) + i]
         == if i < 3 * img.width then PixelBytes(img.rows[img.height - 1 - j])[i] else 0
    decreases k
  {
    var s := 3 * img.width + pad;
    var prev := SavedRows(img, pad, k - 1);
    SavedRowsLength(img, pad, k - 1);
    if j < k - 1 {
      SavedRowsAt(img, pad, k - 1, j, i);
    } else {
      assert j * s == |prev|;
    }
  }

  /** `k` saved rows take `k` padded row lengths. */
  lemma {:induction false} SavedRowsLength(img: Image, pad: nat, k: nat)
    requires img.WellFormed() && k <= img.height
    ensures |SavedRows(img, pad, k)| == k * (3 * img.width + pad)
  {
    if k > 0 {
      SavedRowsLength(img, pad, k - 1);
    }
  }

  /** A saved file is the 54-octet header followed by one padded row per
      line: `54 + RowLength(24, width) * height` octets. */
  lemma SavedLength(img: Image)
    requires Saveable(img)
    ensures EncodeBmp(img).Ok?
    ensures |EncodeBmp(img).value| == 54 + RowLength(24, img.width) * img.height
  {
    SavedPadIsRowPad(img.width);
    var n := RowPad(24, img.width) as nat;
    SavedRowsLength(img, n, img.height);
    Commuted(img.height, 3 * img.width + n, RowLength(24, img.width));
  }

  /** `k * a == b * k` once `a == b`, without expanding either product. */
  lemma Commuted(k: int, a: int, b: int)
    requires a == b
    ensures k * a == b * k
  {
  }

  /** The same, without commuting. */
  lemma Scaled(k: int, a: int, b: int)
    requires a == b
    ensures k * a == k * b
  {
  }

  // ---------------------------------------------------------------------
  // Loading a saved file, with 32-bit fields composed low octet first.

  /** A 32-bit field holding the octets writeInt(v) wrote reads back as `v`. */
  lemma IntField(data: seq<byte>, p: int, v: int32)
    requires forall i :: 0 <= i < 4 ==> ByteAt(data, p + i) == IntBytes(v)[i]
    ensures IntAt(FirstByteLow, data, p) == v
  {
    assert BytesAt(data, p, 4) == IntBytes(v);
    assert BytesAt(IntBytes(v), 0, 4) == IntBytes(v);
    IntRoundTripFirstLow(v);
  }

  /** The file header fields of a saved file. */
  lemma SavedFileHeaderFields(w: int32, h: int32, data: seq<byte>)
    requires 14 <= |data| && data[..14] == SavedFileHeader(w, h)
    ensures ByteAt(data, 0) == 0x42 && ByteAt(data, 1) == 0x4D
    ensures IntAt(FirstByteLow, data, 10) == 54
  {
    assert data[0] == data[..14][0] && data[1] == data[..14][1];
    forall i | 0 <= i < 4
      ensures ByteAt(data, 10 + i) == IntBytes(54)[i]
    {
      assert data[10 + i] == data[..14][10 + i];
    }
    IntField(data, 10, 54);
  }

  /** The BITMAPINFOHEADER fields of a saved file the loader reads. */
  lemma SavedInfoHeaderFields(w: int32, h: int32, data: seq<byte>)
    requires 54 <= |data| && data[14..54] == SavedInfoHeader(w, h)
    ensures IntAt(FirstByteLow, data, 14) == 40
    ensures IntAt(FirstByteLow, data, 18) == w && IntAt(FirstByteLow, data, 22) == h
    ensures ShortAt(data, 26) == 1 && ShortAt(data, 28) == 24
    ensures IntAt(FirstByteLow, data, 30) == 0 && IntAt(FirstByteLow, data, 46) == 0
  {
    var info := data[14..54];
    forall i | 0 <= i < 4
      ensures ByteAt(data, 14 + i) == IntBytes(40)[i]
      ensures ByteAt(data, 18 + i) == IntBytes(w)[i]
      ensures ByteAt(data, 22 + i) == IntBytes(h)[i]
      ensures ByteAt(data, 30 + i) == IntBytes(0)[i]
      ensures ByteAt(data, 46 + i) == IntBytes(0)[i]
    {
      assert data[14 + i] == info[i] && data[18 + i] == info[4 + i] && data[22 + i] == info[8 + i];
      assert data[30 + i] == info[16 + i] && data[46 + i] == info[32 + i];
    }
    IntField(data, 14, 40);
    IntField(data, 18, w);
    IntField(data, 22, h);
    IntField(data, 30, 0);
    IntField(data, 46, 0);
    assert data[26] == info[12] && data[27] == info[13] && data[28] == info[14] && data[29] == info[15];
    ShortField(data, 26, 1);
    ShortField(data, 28, 24);
  }

  /** The octets `save` writes for a picture it can write. */
  function Saved(img: Image): (data: seq<byte>)
    requires Saveable(img)
  {
    var e := EncodeBmp(img);
    if e.Ok? then e.value else []
  }

  /** A saved file opens with the file header and the info header. */
  lemma SavedPrefix(img: Image)
    requires Saveable(img)
    ensures 54 <= |Saved(img)|
    ensures Saved(img)[..14] == SavedFileHeader(img.width, img.height)
    ensures Saved(img)[14..54] == SavedInfoHeader(img.width, img.height)
  {
    SavedLength(img);
    var w: int32, h: int32 := img.width, img.height;
    var data := Saved(img);
    var rows := SavedRows(img, RowPad(24, img.width) as nat, img.height);
    SavedPadIsRowPad(img.width);
    assert data == SavedFileHeader(w, h) + SavedInfoHeader(w, h) + rows;
  }

  /** The loader's view of a saved header: a 40-octet info header for a
      24-bit picture of the saved size, no palette gap, pixels at 54. */
  lemma ParseSavedHeader(img: Image)
    requires Saveable(img)
    ensures var r := ParseBmpHeader(FirstByteLow, Saved(img));
      && r.Ok?
      && r.value.signature == [0x42, 0x4D] && r.value.dib == 40
      && r.value.width == img.width && r.value.height == img.height && r.value.bpp == 24
      && r.value.offset == 0 && r.value.end == 54
  {
    SavedPrefix(img);
    SavedFileHeaderFields(img.width, img.height, Saved(img));
    SavedInfoHeaderFields(img.width, img.height, Saved(img));
  }

  /** A 24-bit pixel is the triple stored at its place, blue first. */
  lemma PixelOfTriple(data: seq<byte>, start: int, x: nat, c: RGB)
    requires 0 <= start + 3 * x && start + 3 * x + 2 < |data|
    requires data[start + 3 * x] == c.b && data[start + 3 * x + 1] == c.g && data[start + 3 * x + 2] == c.r
    ensures BmpPixel(data, None, 24, start, x) == Ok(c)
  {
  }

  /** Octet `i` of what follows a header sits `|hdr|` octets further on. */
  lemma BehindHeader(hdr: seq<byte>, body: seq<byte>, i: int)
    requires 0 <= i < |body|
    ensures |hdr| + i < |hdr + body| && (hdr + body)[|hdr| + i] == body[i]
  {
  }

  /** Pixel `x` of stored row `k`, read as a 24-bit triple from a
      54-octet header followed by the saved rows, is pixel `x` of line
      `height - 1 - k`; `off` is where that row starts among the rows. */
  lemma SavedPixel(img: Image, n: nat, hdr: seq<byte>, k: nat, x: nat, off: int)
    requires img.WellFormed() && k < img.height && x < img.width && |hdr| == 54
    requires off == k * (3 * img.width + n)
    ensures BmpPixel(hdr + SavedRows(img, n, img.height), None, 24, 54 + off, x)
         == Ok(img.rows[img.height - 1 - k][x])
  {
    var stored := SavedRows(img, n, img.height);
    var row := img.rows[img.height - 1 - k];
    SavedRowsAt(img, n, img.height, k, 3 * x);
    SavedRowsAt(img, n, img.height, k, 3 * x + 1);
    SavedRowsAt(img, n, img.height, k, 3 * x + 2);
    PixelBytesAt(row, x);
    BehindHeader(hdr, stored, off + 3 * x);
    BehindHeader(hdr, stored, off + 3 * x + 1);
    BehindHeader(hdr, stored, off + 3 * x + 2);
    PixelOfTriple(hdr + stored, 54 + off, x, row[x]);
  }

  /** The pixels of stored row `k` of such octets are line `height - 1 - k`. */
  lemma SavedRowPixels(img: Image, n: nat, hdr: seq<byte>, k: nat)
    requires img.WellFormed() && k < img.height && |hdr| == 54
    ensures RowPixels(hdr + SavedRows(img, n, img.height), None, 24, img.width, 54 + k * (3 * img.width + n))
         == Ok(img.rows[img.height - 1 - k])
  {
    var data := hdr + SavedRows(img, n, img.height);
    var off := k * (3 * img.width + n);
    var start := 54 + off;
    var px := PixelResults(data, None, 24, img.width, start);
    forall x | 0 <= x < img.width
      ensures px[x] == Ok(img.rows[img.height - 1 - k][x])
    {
      SavedPixel(img, n, hdr, k, x, off);
    }
    CollectAllOk(px);
    assert Collect(px).value == img.rows[img.height - 1 - k];
  }

  /** The picture's lines in the order a file stores them, bottom line first. */
  function StoredOrder(img: Image): (rows: seq<seq<RGB>>)
    requires img.WellFormed()
    ensures |rows| == img.height
    ensures forall k :: 0 <= k < img.height ==> rows[k] == img.rows[img.height - 1 - k]
  {
    seq(img.height, k requires 0 <= k < img.height => img.rows[img.height - 1 - k])
  }

  /** Stored row `k` behind a 54-octet header is read back as line
      `height - 1 - k`: its triples are read blue first, and the skip after
      it is the padding `save` wrote. */
  lemma SavedRowRead(img: Image, n: nat, hdr: seq<byte>, k: nat, stride: int)
    requires img.WellFormed() && k < img.height && |hdr| == 54
    requires n == RowPad(24, img.width) && stride == 3 * img.width + n
    ensures BmpRow(hdr + SavedRows(img, n, img.height), None, 24, img.width, 54 + k * stride)
         == Ok(img.rows[img.height - 1 - k])
  {
    SavedRowPixels(img, n, hdr, k);
    Scaled(k, stride, 3 * img.width + n);
  }

  /** The rows `save` writes behind a 54-octet header are read back as the
      picture's lines, bottom line first: each row's triples are read blue
      first, and the skip after each is the padding `save` wrote. */
  lemma SavedRowsRead(img: Image, n: nat, hdr: seq<byte>)
    requires Saveable(img) && |hdr| == 54 && n == RowPad(24, img.width)
    ensures BmpRows(hdr + SavedRows(img, n, img.height), None, 24, img.width, img.height, 54,
                    RowStride(24, img.width)) == Ok(StoredOrder(img))
  {
    var w, h := img.width, img.height;
    SavedPadIsRowPad(w);
    var data := hdr + SavedRows(img, n, h);
    var stride := RowStride(24, w);
    var expected := StoredOrder(img);
    forall k | 0 <= k < h
      ensures BmpRow(data, None, 24, w, 54 + k * stride) == Ok(expected[k])
    {
      SavedRowRead(img, n, hdr, k, stride);
    }
    RowsAllRead(data, None, 24, w, h, 54, stride, expected);
  }

  /** The rows of a saved file are read back as the picture's lines,
      bottom line first. */
  lemma SavedRowsDecode(img: Image)
    requires Saveable(img)
    ensures BmpRows(Saved(img), None, 24, img.width, img.height, 54, RowStride(24, img.width))
         == Ok(StoredOrder(img))
  {
    SavedLength(img);
    SavedPadIsRowPad(img.width);
    var n := RowPad(24, img.width) as nat;
    assert Saved(img) == SavedHeader(img.width, img.height) + SavedRows(img, n, img.height);
    SavedRowsRead(img, n, SavedHeader(img.width, img.height));
  }

  /** Flipping the stored rows of a picture back gives the picture. */
  lemma FlipBack(img: Image)
    requires img.WellFormed()
    ensures Flip(img.width, img.height, StoredOrder(img)) == img
  {
    assert Flip(img.width, img.height, StoredOrder(img)).rows == img.rows;
  }

  /** The headers `load` records for a saved `width` x `height` picture. */
  function SavedHeaders(width: nat, height: nat): (hs: seq<Header>)
    ensures |hs| == 4 && hs[1] == ("BMP Header Length", Number(40))
  {
    [("BMP Signature", Octets([0x42, 0x4D])),
     ("BMP Header Length", Number(40)),
     ("Size", Extent(width, height)),
     ("Bpp", Number(24))]
  }

  /** `save` is the reverse of `load` once 32-bit fields are read low
      octet first: loading a saved picture gives back its size and every
      pixel, with the headers of a 24-bit BITMAPINFOHEADER file. */
  lemma SaveThenLoad(img: Image)
    requires Saveable(img)
    ensures EncodeBmp(img).Ok?
    ensures DecodeBmp(FirstByteLow, Saved(img)) == Ok(Decoded(SavedHeaders(img.width, img.height), img))
  {
    SavedLength(img);
    ParseSavedHeader(img);
    SavedRowsDecode(img);
    var data := Saved(img);
    var hd := ParseBmpHeader(FirstByteLow, data).value;
    assert ReadBmpPalette(data, hd) == Ok(PaletteStage(None, 54));
    FlipBack(img);
    assert BmpHeaders(hd) == SavedHeaders(img.width, img.height);
  }

  /** A saved info header starts with its own length, 40. */
  lemma SavedInfoStart(w: int32, h: int32)
    ensures SavedInfoHeader(w, h)[..4] == IntBytes(40)
  {
  }

  /** Read as written, most significant octet first, the DIB header length
      40 that `save` writes is 0x2800_0000. */
  lemma SavedDibLengthAsWritten(data: seq<byte>)
    requires 18 <= |data| && data[14..18] == IntBytes(40)
    ensures IntAt(FirstByteHigh, data, 14) == 0x2800_0000
  {
    assert IntBytes(40) == [40, 0, 0, 0];
    assert BytesAt(data, 14, 4) == data[14..18];
    FourOctets(BytesAt(data, 14, 4));
  }

  /** A successful load records the DIB header length it read at 14. */
  lemma RecordedDibLength(order: ByteOrder, data: seq<byte>)
    ensures var r := DecodeBmp(order, data);
      r.Ok? ==> r.value.headers[1] == ("BMP Header Length", Number(IntAt(order, data, 14)))
  {
    var r := ParseBmpHeader(order, data);
    if r.Ok? {
      assert r.value.dib == ParseFileHeader(order, data).dib;
    }
  }

  /** With `readInt` as written, loading a saved picture does not give it
      back: the DIB header length is read as 0x2800_0000, which the loader
      records (and treats as a V4/V5 header to skip) instead of 40. */
  lemma SaveThenLoadAsWritten(img: Image)
    requires Saveable(img)
    ensures var r := DecodeBmp(FirstByteHigh, Saved(img));
      r.Ok? ==> r.value.headers[1] == ("BMP Header Length", Number(0x2800_0000))
    ensures DecodeBmp(FirstByteHigh, Saved(img)) != Ok(Decoded(SavedHeaders(img.width, img.height), img))
  {
    SavedPrefix(img);
    var data := Saved(img);
    assert data[14..18] == data[14..54][..4];
    SavedInfoStart(img.width, img.height);
    SavedDibLengthAsWritten(data);
    RecordedDibLength(FirstByteHigh, data);
  }
}
