/** What `BMP.load` computes from a file's octets and what `BMP.save`
    writes, as functions. Positions are logical: they keep counting past the
    end of the data, where every read sees 0xFF. */
module BmpFormat {
  import opened Bytes
  import opened Results
  import opened InputLE
  import opened OutputLE
  import opened Raster
  import opened ColorTables

  /** The DIB header families the loader tells apart by their length. */
  datatype DibKind =
    | Core    // BITMAPCOREHEADER (12) and the OS/2 64-byte variant: 16-bit size
    | Info    // BITMAPINFOHEADER (40) and V4/V5 (>= 108): 32-bit size and more fields
    | Other   // any other length: nothing is read, the size stays 0 x 0

  function KindOf(dib: int): DibKind
  {
    if dib == 12 || dib == 64 then Core
    else if dib == 40 || dib >= 108 then Info
    else Other
  }

  /** How many octets of the DIB header the loader has read, counting the
      length field itself, before it skips to the header's end. */
  function DibRead(kind: DibKind): nat
  {
    match kind
    case Core => 12
    case Info => 40
    case Other => 8
  }

  /** Java `(int) Math.pow(2, bpp)` is only taken for bpp <= 8. */
  function DefaultPaletteLength(bpp: int): nat
    requires bpp <= 8
  {
    PowTwoTruncated(bpp)
  }

  /** Everything the loader knows once the DIB header is behind it. */
  datatype BmpHeader = BmpHeader(
    signature: seq<int>,   // the two signature octets as Java bytes
    fileLength: int32,
    dib: int32,
    kind: DibKind,
    width: int32,
    height: int32,
    bpp: int,
    rawLength: int32,
    paletteLength: int32,
    offset: int32,         // octets between the DIB header and the pixel data
    end: int)              // logical position right after the DIB header

  /** The 14-octet file header and the DIB header's length field. */
  datatype FileHeader = FileHeader(signature: seq<int>, fileLength: int32, pixelOffset: int32, dib: int32)

  /** Signature at 0, file length at 2, four reserved octets, pixel-data
      offset at 10, DIB header length at 14. */
  function ParseFileHeader(order: ByteOrder, data: seq<byte>): FileHeader
  {
    FileHeader([S8(ByteAt(data, 0)), S8(ByteAt(data, 1))],
               IntAt(order, data, 2), IntAt(order, data, 10), IntAt(order, data, 14))
  }

  /** Width, height and the position after them: 16-bit fields for core
      headers, 32-bit fields for info headers, nothing otherwise. */
  function DibSize(order: ByteOrder, data: seq<byte>, kind: DibKind): (int32, int32, int)
  {
    match kind
    case Core => (ShortAt(data, 18), ShortAt(data, 20), 22)
    case Info => (IntAt(order, data, 18), IntAt(order, data, 22), 26)
    case Other => (0, 0, 18)
  }

  /** `width * height * bpp` as a Java `int`, what a raw size of 0 stands for. */
  function DefaultRawLength(w: int, h: int, bpp: int): int32
  {
    I32(Product(Product(w, h), bpp))
  }

  /** The rest of an info header, from the compression field at `q`: the
      raw data size (0 standing for `w * h * bpp`) and the palette length.
      Other headers have neither. */
  function InfoFields(order: ByteOrder, data: seq<byte>, kind: DibKind, q: int, w: int, h: int, bpp: int)
    : Result<(int32, int32)>
  {
    if kind != Info then Ok((0, 0))
    else if IntAt(order, data, q) != 0 then Fail(UnsupportedCompression)
    else
      var stated := IntAt(order, data, q + 4);
      Ok((if stated == 0 then DefaultRawLength(w, h, bpp) else stated, IntAt(order, data, q + 16)))
  }

  /** What follows the depth `bpp` of a DIB header whose plane count is at
      `p`: the info fields, the skip to the end of the DIB header, and the
      header record. */
  function DibRest(order: ByteOrder, data: seq<byte>, fh: FileHeader, w: int32, h: int32, p: int, bpp: int)
    : (r: Result<BmpHeader>)
    ensures r.Ok? ==> r.value.width == w && r.value.height == h && r.value.end >= p + 4
    ensures r.Ok? ==> r.value.signature == fh.signature && r.value.dib == fh.dib && r.value.bpp == bpp
  {
    var kind := KindOf(fh.dib);
    var fields :- InfoFields(order, data, kind, p + 4, w, h, bpp);
    var rest := I32(fh.dib - DibRead(kind));
    if rest < 0 then Fail(NegativeSkip)
    else Ok(BmpHeader(fh.signature, fh.fileLength, fh.dib, kind, w, h, bpp, fields.0, fields.1,
                      I32(I32(fh.pixelOffset - 14) - fh.dib),
                      (if kind == Info then p + 28 else p + 4) + rest))
  }

  /** What follows the size fields at `p`: the plane count, which must be
      1, and the depth, then the rest. */
  function DibTail(order: ByteOrder, data: seq<byte>, fh: FileHeader, w: int32, h: int32, p: int)
    : (r: Result<BmpHeader>)
    ensures r.Ok? ==> r.value.width == w && r.value.height == h && r.value.end >= p + 4
    ensures r.Ok? ==> r.value.signature == fh.signature && r.value.dib == fh.dib
    ensures r.Ok? ==> -0x8000 <= r.value.bpp < 0x8000
  {
    if ShortAt(data, p) != 1 then Fail(UnsupportedPlanes)
    else DibRest(order, data, fh, w, h, p, ShortAt(data, p + 2))
  }

  /** The file header and the DIB header, with the checks the loader makes
      while reading them. */
  function ParseBmpHeader(order: ByteOrder, data: seq<byte>): (r: Result<BmpHeader>)
    ensures r.Ok? ==> 0 <= r.value.width && 0 <= r.value.height && r.value.end >= 18
    ensures r.Ok? ==> -0x8000 <= r.value.bpp < 0x8000
  {
    var fh := ParseFileHeader(order, data);
    var (w, h, p) := DibSize(order, data, KindOf(fh.dib));
    if w < 0 || h < 0 then Fail(NegativeArraySize)
    else DibTail(order, data, fh, w, h, p)
  }

  /** Octets per palette entry: B,G,R for core headers, B,G,R,reserved otherwise. */
  function EntrySize(kind: DibKind): nat
  {
    if kind == Core then 3 else 4
  }

  /** Palette entry `i` of a table starting at `start`, stored blue first. */
  function PaletteEntry(data: seq<byte>, start: int, size: nat, i: int): RGB
  {
    RGB(ByteAt(data, start + size * i + 2), ByteAt(data, start + size * i + 1), ByteAt(data, start + size * i))
  }

  /** The colour table, if one was read, and where the pixel data starts. */
  datatype PaletteStage = PaletteStage(palette: Option<seq<RGB>>, pixelStart: int)

  function ReadBmpPalette(data: seq<byte>, hd: BmpHeader): (r: Result<PaletteStage>)
    requires hd.end >= 0
    ensures r.Ok? ==> r.value.pixelStart >= hd.end
  {
    if hd.bpp <= 8 && hd.offset == 0 then Fail(MissingColorTable)
    else if hd.offset > 0 && hd.bpp > 8 then Ok(PaletteStage(None, hd.end + hd.offset))
    else if hd.offset > 0 then
      var n := if hd.paletteLength == 0 then DefaultPaletteLength(hd.bpp) else hd.paletteLength;
      if n < 0 then Fail(NegativeArraySize)
      else
        var size := EntrySize(KindOf(hd.dib));
        var colors := seq(n, i => PaletteEntry(data, hd.end, size, i));
        var left := I32(hd.offset - I32(size * n));
        if left < 0 then Fail(NegativeSkip)
        else Ok(PaletteStage(Some(colors), hd.end + size * n + left))
    else if hd.offset < 0 then Fail(NegativeSkip)
    else Ok(PaletteStage(None, hd.end))
  }

  /** `((bpp * width + 31) / 32) * 4` in Java `int` arithmetic. */
  function RowLength(bpp: int, width: int): int32
  {
    I32(JDiv(I32(I32(bpp * width) + 31), 32) * 4)
  }

  /** The octets the pixel loop of one row reads. */
  function RowBytesRead(bpp: int, width: nat): nat
  {
    if bpp == 1 then (width + 7) / 8
    else if bpp == 4 then (width + 1) / 2
    else if bpp == 8 then width
    else if bpp == 24 then 3 * width
    else 0
  }

  /** The skip to the end of a row: `rowLength - readBytes` as a Java `int`. */
  function RowPad(bpp: int, width: nat): int32
  {
    I32(RowLength(bpp, width) - I32(RowBytesRead(bpp, width)))
  }

  /** How far one row moves the cursor, when its skip is not negative. */
  function RowStride(bpp: int, width: nat): int
  {
    RowBytesRead(bpp, width) + RowPad(bpp, width)
  }

  /** Pixel `x` of a row whose data starts at `start`. */
  function BmpPixel(data: seq<byte>, palette: Option<seq<RGB>>, bpp: int, start: int, x: nat): Result<RGB>
  {
    if bpp == 1 then Lookup(palette, Bit(ByteAt(data, start + x / 8), 7 - x % 8))
    else if bpp == 4 then Lookup(palette, Nibble(ByteAt(data, start + x / 2), x % 2 == 0))
    else if bpp == 8 then Lookup(palette, ByteAt(data, start + x))
    else if bpp == 24 then
      Ok(RGB(ByteAt(data, start + 3 * x + 2), ByteAt(data, start + 3 * x + 1), ByteAt(data, start + 3 * x)))
    else Fail(UnsupportedBpp)
  }

  /** The outcome of each pixel of one stored row, left to right. */
  function PixelResults(data: seq<byte>, palette: Option<seq<RGB>>, bpp: int, width: nat, start: int)
    : (ps: seq<Result<RGB>>)
    ensures |ps| == width
    ensures forall x :: 0 <= x < width ==> ps[x] == BmpPixel(data, palette, bpp, start, x)
  {
    seq(width, x requires 0 <= x < width => BmpPixel(data, palette, bpp, start, x))
  }

  /** The pixels of one stored row, left to right, up to the first that fails. */
  function RowPixels(data: seq<byte>, palette: Option<seq<RGB>>, bpp: int, width: nat, start: int)
    : (r: Result<seq<RGB>>)
    ensures r.Ok? ==> |r.value| == width
  {
    Collect(PixelResults(data, palette, bpp, width, start))
  }

  /** The pixels of one stored row, then the skip to its end. */
  function BmpRow(data: seq<byte>, palette: Option<seq<RGB>>, bpp: int, width: nat, start: int): (r: Result<seq<RGB>>)
    ensures r.Ok? ==> |r.value| == width
  {
    var pixels := RowPixels(data, palette, bpp, width, start);
    if pixels.Fail? then pixels
    else if RowPad(bpp, width) < 0 then Fail(NegativeSkip)
    else pixels
  }

  /** The outcomes of the first `n` stored rows, bottom row first, row `k`
      starting `k` strides after `start`. */
  function StoredRows(data: seq<byte>, palette: Option<seq<RGB>>, bpp: int, width: nat, n: nat, start: int,
                      stride: int): (rs: seq<Result<seq<RGB>>>)
    ensures |rs| == n
    ensures forall k :: 0 <= k < n && rs[k].Ok? ==> |rs[k].value| == width
  {
    if n == 0 then []
    else StoredRows(data, palette, bpp, width, n - 1, start, stride)
         + [BmpRow(data, palette, bpp, width, start + (n - 1) * stride)]
  }

  /** Stored row `k` is the row read `k` strides after `start`. */
  lemma {:induction false} StoredRow(data: seq<byte>, palette: Option<seq<RGB>>, bpp: int, width: nat, n: nat,
                                     start: int, stride: int, k: nat)
    requires k < n
    ensures StoredRows(data, palette, bpp, width, n, start, stride)[k]
         == BmpRow(data, palette, bpp, width, start + k * stride)
  {
    if k < n - 1 {
      StoredRow(data, palette, bpp, width, n - 1, start, stride, k);
    }
  }

  /** The stored rows in file order (bottom row first). */
  function BmpRows(data: seq<byte>, palette: Option<seq<RGB>>, bpp: int, width: nat, height: nat, start: int,
                   stride: int)
    : (r: Result<seq<seq<RGB>>>)
    ensures r.Ok? ==> |r.value| == height && forall k :: 0 <= k < height ==> |r.value[k]| == width
  {
    var rs := StoredRows(data, palette, bpp, width, height, start, stride);
    var r := Collect(rs);
    if r.Ok? then CollectOkAll(rs); r else r
  }

  /** When every row reads as expected, the rows are read. */
  lemma RowsAllRead(data: seq<byte>, palette: Option<seq<RGB>>, bpp: int, width: nat, height: nat, start: int,
                    stride: int, expected: seq<seq<RGB>>)
    requires |expected| == height
    requires forall k :: 0 <= k < height ==> BmpRow(data, palette, bpp, width, start + k * stride) == Ok(expected[k])
    ensures BmpRows(data, palette, bpp, width, height, start, stride) == Ok(expected)
  {
    var rs := StoredRows(data, palette, bpp, width, height, start, stride);
    forall k | 0 <= k < height
      ensures rs[k] == Ok(expected[k])
    {
      StoredRow(data, palette, bpp, width, height, start, stride, k);
    }
    CollectAllOk(rs);
    assert Collect(rs).value == expected;
  }

  /** The headers `load` records, in order. */
  function BmpHeaders(hd: BmpHeader): seq<Header>
  {
    [("BMP Signature", Octets(hd.signature)),
     ("BMP Header Length", Number(hd.dib)),
     ("Size", Extent(hd.width, hd.height)),
     ("Bpp", Number(hd.bpp))]
  }

  /** Turns stored rows (bottom first) into a picture (top first). */
  function Flip(width: nat, height: nat, stored: seq<seq<RGB>>): (img: Image)
    requires |stored| == height && forall k :: 0 <= k < height ==> |stored[k]| == width
    ensures img.WellFormed() && img.width == width && img.height == height
    ensures forall y :: 0 <= y < height ==> img.rows[y] == stored[height - 1 - y]
  {
    Image(width, height, seq(height, y requires 0 <= y < height => stored[height - 1 - y]))
  }

  /** `img` after the row loop has stored its first `n` rows: stored row
      `k`, when it was read, in line `height - 1 - k`. */
  ghost function Painted(img: Image, rs: seq<Result<seq<RGB>>>, n: nat): (p: Image)
    requires |img.rows| == img.height && n <= img.height && n <= |rs|
    ensures p.width == img.width && p.height == img.height && |p.rows| == |img.rows|
    decreases n
  {
    if n == 0 then img
    else
      var q := Painted(img, rs, n - 1);
      if rs[n - 1].Ok? then q.(rows := q.rows[img.height - n := rs[n - 1].value]) else q
  }

  /** Line `i` after `n` rows: the stored row that belongs there if it has
      been read, the original line otherwise. */
  lemma {:induction false} PaintedRows(img: Image, rs: seq<Result<seq<RGB>>>, n: nat)
    requires |img.rows| == img.height && n <= img.height && n <= |rs|
    ensures forall i :: 0 <= i < img.height ==>
      Painted(img, rs, n).rows[i]
        == if img.height - n <= i && rs[img.height - 1 - i].Ok? then rs[img.height - 1 - i].value else img.rows[i]
    decreases n
  {
    if n > 0 {
      PaintedRows(img, rs, n - 1);
    }
  }

  /** Once every row has been read, the bitmap is what `Flip` makes of
      the collected rows. */
  lemma FlipOfRows(img: Image, rs: seq<Result<seq<RGB>>>)
    requires img.WellFormed() && |rs| == img.height
    requires forall k :: 0 <= k < img.height ==> rs[k].Ok? && |rs[k].value| == img.width
    ensures Collect(rs).Ok?
    ensures forall k :: 0 <= k < |rs| ==> Collect(rs).value[k] == rs[k].value
    ensures Painted(img, rs, img.height) == Flip(img.width, img.height, Collect(rs).value)
  {
    CollectAllOk(rs);
    PaintedRows(img, rs, img.height);
    var painted := Painted(img, rs, img.height);
    var flipped := Flip(img.width, img.height, Collect(rs).value);
    assert painted.rows == flipped.rows;
  }

  /** `BMP.load` on a file holding `data`, with 32-bit fields composed in
      `order`. */
  function DecodeBmp(order: ByteOrder, data: seq<byte>): (r: Result<Decoded>)
    ensures r.Ok? ==> r.value.image.WellFormed() && |r.value.headers| == 4
  {
    var hd :- ParseBmpHeader(order, data);
    var ps :- ReadBmpPalette(data, hd);
    var stored :- BmpRows(data, ps.palette, hd.bpp, hd.width, hd.height, ps.pixelStart,
                                RowStride(hd.bpp, hd.width));
    Ok(Decoded(BmpHeaders(hd), Flip(hd.width, hd.height, stored)))
  }

  // ---------------------------------------------------------------------
  // What `save` writes.

  /** `3 * (width * height)` in Java `int` arithmetic. */
  function SavedRawLength(width: int, height: int): int32
  {
    I32(3 * I32(width * height))
  }

  /** The 14-octet file header of a saved picture: signature, file size,
      two reserved words, pixel offset 54. */
  function SavedFileHeader(width: int32, height: int32): (r: seq<byte>)
    ensures |r| == 14
  {
    [0x42, 0x4D] + IntBytes(I32(54 + SavedRawLength(width, height))) + Zeros(4) + IntBytes(54)
  }

  /** The 40-octet BITMAPINFOHEADER of a saved picture: one plane, 24 bits
      per pixel, no compression, 600 pixels per metre both ways. */
  function SavedInfoHeader(width: int32, height: int32): (r: seq<byte>)
    ensures |r| == 40
  {
    IntBytes(40) + IntBytes(width) + IntBytes(height) + ShortBytes(1) + ShortBytes(24)
    + IntBytes(0) + IntBytes(SavedRawLength(width, height)) + IntBytes(600) + IntBytes(600)
    + IntBytes(0) + IntBytes(0)
  }

  /** The 54-octet header of a saved picture. */
  function SavedHeader(width: int32, height: int32): (r: seq<byte>)
    ensures |r| == 54
  {
    SavedFileHeader(width, height) + SavedInfoHeader(width, height)
  }

  /** The octets of one row's pixels, each as B,G,R. */
  function PixelBytes(row: seq<RGB>): (r: seq<byte>)
    ensures |r| == 3 * |row|
  {
    if |row| == 0 then []
    else PixelBytes(row[..|row| - 1]) + [row[|row| - 1].b, row[|row| - 1].g, row[|row| - 1].r]
  }

  /** The zero octets `save` appends to each row: `rowLength - writtenBytes`
      when the row is short of `rowLength`, an allocation that fails when
      that Java `int` difference is negative. */
  function SavedPad(width: int): Result<nat>
  {
    var written := I32(3 * width);
    var rowLength := RowLength(24, width);
    if written < rowLength then
      var n := I32(rowLength - written);
      if n < 0 then Fail(NegativeArraySize) else Ok(n)
    else Ok(0)
  }

  /** The first `k` rows `save` writes, bottom row first, each padded by `pad` zeros. */
  function SavedRows(img: Image, pad: nat, k: nat): (r: seq<byte>)
    requires img.WellFormed() && k <= img.height
  {
    if k == 0 then []
    else SavedRows(img, pad, k - 1) + PixelBytes(img.rows[img.height - k]) + Zeros(pad)
  }

  /** One more saved row: line `y`, where `k` rows above the bottom are written. */
  lemma SavedRowsNext(img: Image, pad: nat, k: nat, y: int)
    requires img.WellFormed() && k < img.height && y == img.height - 1 - k
    ensures SavedRows(img, pad, k + 1) == SavedRows(img, pad, k) + PixelBytes(img.rows[y]) + Zeros(pad)
  {
  }

  /** Everything `BMP.save` writes for a picture. */
  function EncodeBmp(img: Image): Result<seq<byte>>
    requires img.WellFormed() && img.width < 0x8000_0000 && img.height < 0x8000_0000
  {
    var pad := SavedPad(img.width);
    if img.height > 0 && pad.Fail? then Fail(pad.error)
    else
      var n := if pad.Ok? then pad.value else 0;
      Ok(SavedHeader(img.width, img.height) + SavedRows(img, n, img.height))
  }
}
