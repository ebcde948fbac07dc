/** Loading what `PCX.save` writes gives the picture back. */
module PcxRoundTrip {
  import opened Bytes
  import opened Results
  import opened InputLE
  import opened OutputLE
  import opened StreamFacts
  import opened Raster
  import opened PcxFormat
  import opened PcxFacts

  /** The pictures `save` can write so that `load` reads them back: the
      window corners `w - 1` and `h - 1` and the bytes per line `w` fit
      the header's signed 16-bit fields, and a picture with rows has
      columns, since the encoder reads the first octet of every scanline. */
  predicate PcxSaveable(img: Image)
  {
    img.WellFormed() && img.width < 0x8000 && img.height <= 0x8000 && (img.height == 0 || 0 < img.width)
  }

  /** The EGA palette octets of a saved header: all zero. */
  function BlankEga(): (ega: seq<int>)
    ensures |ega| == 48 && forall i :: 0 <= i < 48 ==> ega[i] == 0
  {
    seq(48, i => 0)
  }

  /** The parts of the saved header, where they sit. */
  lemma SavedHeaderParts(w: int, h: int)
    ensures SavedPcxHeader(w, h)[..4] == SavedSignature()
    ensures SavedPcxHeader(w, h)[4..16] == SavedWindow(w, h)
    ensures SavedPcxHeader(w, h)[16..64] == Zeros(48)
    ensures SavedPcxHeader(w, h)[64..74] == SavedLineInfo(w, h)
  {
    var hdr := SavedPcxHeader(w, h);
    var a, b, c, d := SavedSignature(), SavedWindow(w, h), Zeros(48), SavedLineInfo(w, h);
    assert hdr == a + b + c + d + Zeros(54);
    assert hdr[..4] == a;
    assert hdr[4..16] == b;
    assert hdr[16..64] == c;
    assert hdr[64..74] == d;
  }

  /** The octets of a saved header are the file's first 128. */
  predicate SavedPrefix(w: int, h: int, data: seq<byte>)
  {
    128 <= |data| && data[..128] == SavedPcxHeader(w, h)
  }

  /** The window of a saved header reads back as (0, 0)-(w - 1, h - 1). */
  lemma SavedWindowFields(w: int, h: int, data: seq<byte>)
    requires 0 <= w <= 0x8000 && 0 <= h <= 0x8000 && SavedPrefix(w, h, data)
    ensures ShortAt(data, 4) == 0 && ShortAt(data, 6) == 0
    ensures ShortAt(data, 8) == w - 1 && ShortAt(data, 10) == h - 1
  {
    SavedHeaderParts(w, h);
    var win := SavedWindow(w, h);
    assert data[4..16] == win by {
      assert data[4..16] == data[..128][4..16];
    }
    assert data[4] == win[0] && data[5] == win[1] && data[6] == win[2] && data[7] == win[3];
    assert data[8] == win[4] && data[9] == win[5] && data[10] == win[6] && data[11] == win[7];
    ShortField(data, 4, 0);
    ShortField(data, 6, 0);
    ShortField(data, 8, w - 1);
    ShortField(data, 10, h - 1);
  }

  /** The signature and the plane fields of a saved header: manufacturer
      0x0A, version 5, RLE, 8 bits per pixel, 3 planes of `w` octets. */
  lemma SavedSignatureFields(w: int, h: int, data: seq<byte>)
    requires 0 <= w < 0x8000 && SavedPrefix(w, h, data)
    ensures ByteAt(data, 0) == 0x0A && ByteAt(data, 1) == 5 && ByteAt(data, 2) == 1 && ByteAt(data, 3) == 8
    ensures ByteAt(data, 65) == 3 && ShortAt(data, 66) == w
  {
    SavedHeaderParts(w, h);
    var info := SavedLineInfo(w, h);
    assert data[..4] == SavedSignature() by {
      assert data[..4] == data[..128][..4];
    }
    assert data[0] == data[..4][0] && data[1] == data[..4][1] && data[2] == data[..4][2] && data[3] == data[..4][3];
    assert data[64..74] == info by {
      assert data[64..74] == data[..128][64..74];
    }
    assert data[65] == info[1] && data[66] == info[2] && data[67] == info[3];
    ShortField(data, 66, w);
  }

  /** The EGA palette of a saved header is blank. */
  lemma SavedEgaBlank(w: int, h: int, data: seq<byte>)
    requires SavedPrefix(w, h, data)
    ensures EgaOctets(data) == BlankEga()
  {
    SavedHeaderParts(w, h);
    assert data[16..64] == Zeros(48) by {
      assert data[16..64] == data[..128][16..64];
    }
    forall i | 0 <= i < 48
      ensures EgaOctets(data)[i] == 0
    {
      assert data[16 + i] == data[16..64][i];
    }
  }

  /** The header fields the loader reads from a saved file: version 5,
      8 bits in 3 planes, the size of the picture, `w` bytes per line, a
      blank EGA palette, and the scanlines right after the 128 octets. */
  lemma SavedHeaderParses(w: int, h: int, data: seq<byte>)
    requires 0 <= w < 0x8000 && 0 <= h <= 0x8000 && SavedPrefix(w, h, data)
    ensures ParsePcxHeader(data) == Ok(PcxHeader(5, 8, w, h, BlankEga(), 3, w, 128))
  {
    SavedWindowFields(w, h, data);
    SavedSignatureFields(w, h, data);
    SavedEgaBlank(w, h, data);
    assert ArrayReadEnd(data, 16, 48) == 64;
  }

  /** What follows the header sits right after it. */
  lemma AtEnd(pre: seq<byte>, s: seq<byte>)
    ensures At(pre + s, |pre|, s)
  {
    AtBetween(pre, s, []);
    assert pre + s + [] == pre + s;
  }

  /** The loader's row loop over a saved file gives back every row as a
      three-plane scanline and stops at the end of the file. */
  lemma SavedScan(img: Image, data: seq<byte>)
    requires img.WellFormed() && 0 < img.width
    requires data == SavedPcxHeader(img.width, img.height) + Concat(LineCodes(PlaneLines(img, img.height)), img.height)
    ensures DecodeLines(data, 128, 3 * img.width, img.height) == Ok(Scan(PlaneLines(img, img.height), |data|))
  {
    var lines := PlaneLines(img, img.height);
    var codes := LineCodes(lines);
    forall y | 0 <= y < img.height
      ensures |lines[y]| == 3 * img.width
    {
      PlaneLineAt(img, img.height, y);
    }
    LinesCoded(lines, 3 * img.width);
    AtEnd(SavedPcxHeader(img.width, img.height), Concat(codes, img.height));
    CodedScanDecodes(data, 128, lines, codes, 3 * img.width, |data|);
  }

  /** A row laid out as three planes expands back into the row. */
  lemma PlaneRowDecodes(row: seq<RGB>, w: nat)
    requires |row| == w
    ensures Collect(PcxPixels(PlaneLine(row), PaletteChoice(None, false), 8, 3, w, w)) == Ok(row)
  {
    var ps := PcxPixels(PlaneLine(row), PaletteChoice(None, false), 8, 3, w, w);
    forall x | 0 <= x < w
      ensures ps[x] == Ok(row[x])
    {
    }
    CollectAllOk(ps);
    assert Collect(ps).value == row;
  }

  /** The rows of a picture laid out as three-plane scanlines expand back
      into the picture's rows. */
  lemma PlaneRowsDecode(img: Image)
    requires img.WellFormed()
    ensures Collect(PcxRows(PlaneLines(img, img.height), PaletteChoice(None, false), 8, 3, img.width, img.width, img.height))
         == Ok(img.rows)
  {
    var lines := PlaneLines(img, img.height);
    var rs := PcxRows(lines, PaletteChoice(None, false), 8, 3, img.width, img.width, img.height);
    forall y | 0 <= y < img.height
      ensures rs[y] == Ok(img.rows[y])
    {
      PcxRowAt(lines, PaletteChoice(None, false), 8, 3, img.width, img.width, img.height, y);
      PlaneLineAt(img, img.height, y);
      PlaneRowDecodes(img.rows[y], img.width);
    }
    CollectAllOk(rs);
    assert Collect(rs).value == img.rows;
  }

  /** The headers `load` records for a saved `w` x `h` picture. */
  function SavedPcxHeaders(w: int, h: int): (hs: seq<Header>)
    ensures |hs| == 4 && hs[2] == ("Size", Extent(w, h))
  {
    [("PCX Version", Number(5)), ("Bpp", Number(8)), ("Size", Extent(w, h)), ("Color planes", Number(3))]
  }

  /** A load whose stages all succeed: the header, the scanlines, the
      palette and the pixels. */
  lemma LoadStages(data: seq<byte>, hd: PcxHeader, scan: Scan, choice: PaletteChoice, rows: seq<seq<RGB>>)
    requires ParsePcxHeader(data) == Ok(hd) && hd.bpp != 0 && 0 <= hd.planes * hd.bytesPerLine
    requires DecodeLines(data, hd.start, hd.planes * hd.bytesPerLine, hd.height) == Ok(scan)
    requires ChoosePalette(data, hd, scan.end) == Ok(choice)
    requires Collect(PcxRows(scan.lines, choice, hd.bpp, hd.planes, hd.bytesPerLine, hd.width, hd.height)) == Ok(rows)
    ensures DecodePcx(data) == Ok(Decoded(PcxHeaders(hd) + PaletteHeaders(hd), Image(hd.width, hd.height, rows)))
  {
  }

  /** `save` is the reverse of `load`: loading a saved picture gives back
      its size and every pixel, with the headers of a 24-bit file. */
  lemma SaveThenLoad(img: Image)
    requires PcxSaveable(img)
    ensures EncodePcx(img).Ok?
    ensures DecodePcx(EncodePcx(img).value) == Ok(Decoded(SavedPcxHeaders(img.width, img.height), img))
  {
    var data := EncodePcx(img).value;
    var hd := PcxHeader(5, 8, img.width, img.height, BlankEga(), 3, img.width, 128);
    SavedHeaderParses(img.width, img.height, data);
    var lines := PlaneLines(img, img.height);
    var choice := PaletteChoice(None, false);
    var end := if img.height == 0 then 128 else |data|;
    if img.height > 0 {
      SavedScan(img, data);
    }
    assert DecodeLines(data, 128, 3 * img.width, img.height) == Ok(Scan(lines, end));
    assert ChoosePalette(data, hd, end) == Ok(choice);
    PlaneRowsDecode(img);
    LoadStages(data, hd, Scan(lines, end), choice, img.rows);
    assert PcxHeaders(hd) + PaletteHeaders(hd) == SavedPcxHeaders(img.width, img.height);
  }
}
