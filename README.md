# java-bitmapview in Dafny

A model of the image core of java-bitmapview, a small Swing bitmap viewer, with proofs about it. The model covers:

- `Bitmap`, a grid of colours indexed `[x][y]` that can be resized;
- the reader, `DataInputStreamLE`, and the writer, `DataOutputStreamLE`, which the codecs use;
- the two codecs:
  - `BMP` loads 1, 4, 8 and 24 bits per pixel, with core and info DIB headers, and saves 24-bit BITMAPINFOHEADER files;
  - `PCX` loads run-length-encoded files at 1, 4 and 8 bits per pixel and in three 8-bit planes, with an EGA or VGA palette, and saves 24-bit three-plane files.

The Dafny follows the Java's shape:

- **Stateful classes.** `Bitmap`, the reader and the writer are classes whose methods update their fields:
  - the bitmap has a pixel `array2`, a name and a list of headers;
  - the reader has its data and a cursor;
  - the writer has the octets sent so far.
- **Imperative codecs.** `BMP.load`, `BMP.save`, `PCX.load` and `PCX.save` are imperative methods (`BmpCodec`, `PcxCodec`). Their loops follow the source, and their results come from the classes above.
- **Specification functions.** Each codec method is proved equal to a pure function of its input:
  - `DecodeBmp` and `EncodeBmp` in `BmpFormat`;
  - `DecodePcx` and `EncodePcx` in `PcxFormat`.
- **Lemmas.** The properties are lemmas about those functions:
  - save-then-load round trips;
  - the header checks;
  - how the palette is chosen;
  - what each depth unpacks to;
  - the RLE round trip;
  - row padding.

Java semantics are written out wherever they matter:

- **Integer arithmetic.** `int` wraps at 32 bits (`I32`). `byte` is sign-extended (`S8`). `>>` shifts arithmetically, and `&` masks.
- **End of stream.** Reading past the end returns -1, so a masked octet there is 0xFF.
- **Exceptions.** Every exception is a `Result.Fail` carrying its own error:
  - `ArrayIndexOutOfBoundsException`;
  - `NegativeArraySizeException`;
  - `ArithmeticException` for the division `8 / bpp`;
  - the codecs' own messages;
  - `UnsupportedOperationException`.
- **First failure.** A loop that stops at its first exception is `Collect` over the per-step results.

Two places where the model follows the code and not the documentation:

- **Byte order (see Findings).** `readInt` and `readLong` combine their octets most significant first, although the class comment promises little-endian. The writer is little-endian. The BMP specification is therefore parameterised by a `ByteOrder`:
  - `BmpCodec.Load` with `FirstByteHigh` is the loader as written;
  - the round trip is proved for `FirstByteLow`;
  - as written, the round trip is shown to fail.
- **VGA palette header.** `PCX.load` records the header `("Palette", "EGA")` after reading a VGA palette as well as after the EGA one. `PaletteHeaders` models this as written.

## Model

| member | source | states |
|---|---|---|
| Raster.Resized | src/com/bitmapview/Bitmap.java:38-59 | the picture setSize leaves: well-formed, of the requested width and height |
| Raster.ResizeToSameSize | src/com/bitmapview/Bitmap.java:38-59 | resizing to the current size leaves the picture unchanged |
| Raster.ShrinkTruncates | src/com/bitmapview/Bitmap.java:41-51 | shrinking keeps exactly the top-left part, every pixel unchanged |
| Raster.GrowThenShrink | src/com/bitmapview/Bitmap.java:41-51 | growing and then resizing back gives the original picture |
| Raster.ImageExtensionality | src/com/bitmapview/Bitmap.java:14-17 | two well-formed pictures of the same size with the same colour everywhere are equal |
| Raster.GridRows | src/com/bitmapview/Bitmap.java:17 | the rows of an `[x][y]` grid: `h` rows of the grid's width, `rows[y][x] == grid[x, y]` |
| Raster.Bitmap.Picture | src/com/bitmapview/Bitmap.java:14-17 | the bitmap as a well-formed picture of its size, pixel `(x, y)` being `pixels[x][y]` |
| Raster.Bitmap.constructor | src/com/bitmapview/Bitmap.java:24-27 | a fresh 0 x 0 bitmap called "Unnamed" with no headers |
| Raster.Bitmap.Named | src/com/bitmapview/format/BMP.java:34 | the constructor the codecs call: a fresh 0 x 0 bitmap with the given name and no headers |
| Raster.Bitmap.AddHeader | src/com/bitmapview/format/BMP.java:54 | appends one header in order; name, size and pixels unchanged |
| Raster.Bitmap.SetSize | src/com/bitmapview/Bitmap.java:38-59 | succeeds exactly for a non-negative size and leaves everything unchanged otherwise; the new grid is `Resized` of the old picture: top-left overlap kept, the rest white |
| Raster.Bitmap.GetSize | src/com/bitmapview/Bitmap.java:65-67 | the current width and height |
| Raster.Bitmap.SetPixel | src/com/bitmapview/Bitmap.java:75-78 | succeeds exactly inside the grid (else IndexOutOfBounds) and then changes that one pixel only |
| Raster.Bitmap.GetPixel | src/com/bitmapview/Bitmap.java:86-89 | succeeds exactly inside the grid and gives `pixels[x][y]`, the picture's `rows[y][x]` |
| Results.Collect | src/com/bitmapview/format/PCX.java:211-270 | stopping at the first exception: on success one value per step |
| Results.CollectAllOk | src/com/bitmapview/format/PCX.java:211-270 | when every step succeeds, the collection succeeds with their values |
| Results.CollectFirstFailure | src/com/bitmapview/format/BMP.java:228-294 | the first failing step's error is the collection's error |
| Results.CollectOkAll | src/com/bitmapview/format/BMP.java:228-294 | a successful collection means every step succeeded with the collected value |
| ColorTables.Lookup | src/com/bitmapview/format/BMP.java:254 | `palette[i]`: a colour exactly for a present palette and an index in range; a null palette fails with NullPalette |
| ColorTables.LookupColor | src/com/bitmapview/format/BMP.java:275-276 | the array lookup agrees with `Lookup` on the palette the array holds |
| Bytes.I32 | src/com/bitmapview/format/BMP.java:130 | Java `int` arithmetic: the result is the exact value whenever that fits 32 bits |
| Bytes.S8 | src/com/bitmapview/format/PCX.java:58 | `(byte) u`: a signed 8-bit value with the same low bits as the octet |
| Bytes.UnsignedOfSigned | src/com/bitmapview/format/BMP.java:275 | `b & 0xFF` of a Java byte gives back the octet it was read from |
| Bytes.JDiv | src/com/bitmapview/format/PCX.java:116 | Java `/` on `int` truncates toward zero, for negative dividends too |
| Bytes.Bit | src/com/bitmapview/format/BMP.java:253 | `(u >> k) & 1` is 0 or 1 |
| Bytes.Nibble | src/com/bitmapview/format/BMP.java:270 | `(u >> 4) & 0x0F` and `u & 0x0F` are below 16 |
| Bytes.Zeros | src/com/bitmapview/format/BMP.java:368 | `new byte[n]`: `n` octets, all zero |
| InputLE.RawAt | src/com/bitmapview/util/DataInputStreamLE.java:77-80 | what `in.read()` gives: an octet, or -1 exactly outside the data |
| InputLE.ByteAt | src/com/bitmapview/util/DataInputStreamLE.java:100-101 | a read masked with 0xFF: the octet inside the data, 0xFF past its end |
| InputLE.BytesAt | src/com/bitmapview/util/DataInputStreamLE.java:127-130 | `n` successive masked reads from `p` |
| InputLE.ShortAt | src/com/bitmapview/util/DataInputStreamLE.java:87-107 | readShort's value, a signed 16-bit number |
| InputLE.U64FirstHigh | src/com/bitmapview/util/DataInputStreamLE.java:159-166 | eight octets composed most significant first, below 2^64 |
| InputLE.FourOctets | src/com/bitmapview/util/DataInputStreamLE.java:134-137 | both compositions of four octets written out, first-high and first-low |
| InputLE.IntFromShorts | src/com/bitmapview/util/DataInputStreamLE.java:6-8 | a little-endian 32-bit value is its low 16-bit half plus 2^16 times its high half |
| InputLE.DataInputStreamLE.constructor | src/com/bitmapview/util/DataInputStreamLE.java:21-23 | a reader over the data at position 0 |
| InputLE.DataInputStreamLE.Read | src/com/bitmapview/util/DataInputStreamLE.java:79 | one `in.read()`: `RawAt` at the cursor, which moves on by one |
| InputLE.DataInputStreamLE.ReadArray | src/com/bitmapview/format/PCX.java:83 | `read(b)`: 0 for an empty array, -1 at the end, else the number of octets copied (at most `b.Length`), copied as Java bytes, the rest of `b` untouched |
| InputLE.DataInputStreamLE.ReadFully | src/com/bitmapview/util/DataInputStreamLE.java:27-31 | always UnsupportedOperation |
| InputLE.DataInputStreamLE.ReadFullyRange | src/com/bitmapview/util/DataInputStreamLE.java:33-37 | always UnsupportedOperation |
| InputLE.DataInputStreamLE.SkipBytes | src/com/bitmapview/util/DataInputStreamLE.java:45-48 | moves the position on by `n` and reports all `n` octets as skipped, as the file stream underneath does, past the end of the file too |
| InputLE.DataInputStreamLE.ReadBoolean | src/com/bitmapview/util/DataInputStreamLE.java:56-59 | true exactly when the octet read is not 0 (end of stream counts as true) |
| InputLE.DataInputStreamLE.ReadByte | src/com/bitmapview/util/DataInputStreamLE.java:67-70 | the octet as a sign-extended Java byte, -1 at the end |
| InputLE.DataInputStreamLE.ReadUnsignedByte | src/com/bitmapview/util/DataInputStreamLE.java:77-80 | what `in.read()` returns, unchanged |
| InputLE.DataInputStreamLE.ReadShort | src/com/bitmapview/util/DataInputStreamLE.java:87-90 | two octets, low first, as a signed 16-bit value; cursor plus 2 |
| InputLE.DataInputStreamLE.ReadUnsignedShort | src/com/bitmapview/util/DataInputStreamLE.java:97-107 | two octets, low first, unsigned |
| InputLE.DataInputStreamLE.ReadChar | src/com/bitmapview/util/DataInputStreamLE.java:114-117 | the unsigned 16-bit value as a code unit |
| InputLE.DataInputStreamLE.ReadInt | src/com/bitmapview/util/DataInputStreamLE.java:124-138 | four octets combined as written, the first one most significant, as a Java `int` |
| InputLE.DataInputStreamLE.ReadLong | src/com/bitmapview/util/DataInputStreamLE.java:145-167 | eight octets combined as written, the first one most significant, as a Java `long` |
| InputLE.DataInputStreamLE.ReadLine | src/com/bitmapview/util/DataInputStreamLE.java:189-193 | always UnsupportedOperation |
| InputLE.DataInputStreamLE.ReadUTF | src/com/bitmapview/util/DataInputStreamLE.java:195-199 | always UnsupportedOperation |
| OutputLE.LowByte | src/com/bitmapview/io/DataOutputStreamLE.java:57 | `0xFF & v`: the octet congruent to `v` modulo 256, negative `v` included |
| OutputLE.ShortBytes | src/com/bitmapview/io/DataOutputStreamLE.java:55-59 | the two octets writeShort emits |
| OutputLE.IntBytes | src/com/bitmapview/io/DataOutputStreamLE.java:76-82 | the four octets writeInt emits |
| OutputLE.CharsBytes | src/com/bitmapview/io/DataOutputStreamLE.java:136-140 | writeChars' octets: two per code unit, low octet at `2i`, high at `2i + 1` |
| OutputLE.CharsLowBytes | src/com/bitmapview/io/DataOutputStreamLE.java:126-129 | writeBytes' octets: one per code unit, its low octet |
| OutputLE.LongBytes | src/com/bitmapview/io/DataOutputStreamLE.java:89-99 | the eight octets writeLong is meant to emit |
| OutputLE.DataOutputStreamLE.constructor | src/com/bitmapview/io/DataOutputStreamLE.java:20-22 | a writer that has sent nothing |
| OutputLE.DataOutputStreamLE.WriteOctet | src/com/bitmapview/io/DataOutputStreamLE.java:57 | `out.write(v)` appends the low octet of `v` |
| OutputLE.DataOutputStreamLE.Write | src/com/bitmapview/io/DataOutputStreamLE.java:33-38 | succeeds exactly for in-range bounds and appends `b[off..off+len)`; otherwise nothing is written |
| OutputLE.DataOutputStreamLE.WriteAll | src/com/bitmapview/format/BMP.java:325 | `write(b)` appends all of `b` |
| OutputLE.DataOutputStreamLE.WriteBoolean | src/com/bitmapview/io/DataOutputStreamLE.java:40-43 | appends 1 for true and 0 for false |
| OutputLE.DataOutputStreamLE.WriteByte | src/com/bitmapview/io/DataOutputStreamLE.java:45-48 | appends the low octet of `v` |
| OutputLE.DataOutputStreamLE.WriteShort | src/com/bitmapview/io/DataOutputStreamLE.java:55-59 | appends `ShortBytes(v)` |
| OutputLE.DataOutputStreamLE.WriteChar | src/com/bitmapview/io/DataOutputStreamLE.java:66-69 | appends the same octets as writeShort |
| OutputLE.DataOutputStreamLE.WriteInt | src/com/bitmapview/io/DataOutputStreamLE.java:76-82 | appends `IntBytes(v)` |
| OutputLE.DataOutputStreamLE.WriteLong | src/com/bitmapview/io/DataOutputStreamLE.java:89-99 | as written, fails with IndexOutOfBounds for every value and writes nothing |
| OutputLE.DataOutputStreamLE.WriteLongCorrected | src/com/bitmapview/io/DataOutputStreamLE.java:89-99 | with the loop counting down, appends `LongBytes(v)` |
| OutputLE.DataOutputStreamLE.WriteBytes | src/com/bitmapview/io/DataOutputStreamLE.java:126-129 | appends the low octet of each code unit |
| OutputLE.DataOutputStreamLE.WriteChars | src/com/bitmapview/io/DataOutputStreamLE.java:136-140 | appends `CharsBytes(s)`, two octets per code unit in order |
| OutputLE.DataOutputStreamLE.WriteUTF | src/com/bitmapview/io/DataOutputStreamLE.java:142-146 | always UnsupportedOperation |
| StreamFacts.ShortRoundTrip | src/com/bitmapview/util/DataInputStreamLE.java:97-107 | readUnsignedShort over writeShort(v)'s octets gives `v mod 2^16` |
| StreamFacts.SignedShortRoundTrip | src/com/bitmapview/util/DataInputStreamLE.java:87-90 | readShort over writeShort(v)'s octets gives back every 16-bit `v` |
| StreamFacts.ShortField | src/com/bitmapview/util/DataInputStreamLE.java:87-90 | a 16-bit field holding writeShort(v)'s octets reads back as `v` |
| StreamFacts.IntBytesCompose | src/com/bitmapview/io/DataOutputStreamLE.java:76-82 | writeInt(v)'s octets, recombined low first, are `v` modulo 2^32 |
| StreamFacts.IntRoundTripFirstLow | src/com/bitmapview/util/DataInputStreamLE.java:6-8 | a little-endian readInt gives back what writeInt wrote, for every `int` |
| StreamFacts.IntBytesOfComposed | src/com/bitmapview/io/DataOutputStreamLE.java:76-82 | a number composed from four octets low first, up to 2^32, has exactly those octets as writeInt's octets |
| StreamFacts.IntReadAsWrittenReversesBytes | src/com/bitmapview/util/DataInputStreamLE.java:134-137 | readInt as written, over writeInt(v)'s octets, is `v` with its four octets reversed |
| StreamFacts.IntReadAsWrittenOfOne | src/com/bitmapview/util/DataInputStreamLE.java:134-137 | writeInt(1) read back as written is 2^24 |
| StreamFacts.LowOctetsValue | src/com/bitmapview/io/DataOutputStreamLE.java:89-99 | `v` is its low `n` octets, composed low first, plus 256^n times what is left |
| StreamFacts.LongRoundTripFirstLow | src/com/bitmapview/io/DataOutputStreamLE.java:89-99 | the corrected writeLong's octets, composed low first, are `v mod 2^64`, and as a `long` they are `v` |
| BmpFormat.DibTail | src/com/bitmapview/format/BMP.java:115-141 | after the size fields: on success size, signature and DIB length are kept, the depth is a 16-bit value, and the header ends at least 4 octets on |
| BmpFormat.ParseFileHeader | src/com/bitmapview/format/BMP.java:50-90 | the fields the loader reads up to the DIB length: the two signature octets as Java bytes, the file length at 2, the pixel-data offset at 10, the DIB header length at 14, each 32-bit field in the chosen order |
| BmpFormat.DefaultRawLength | src/com/bitmapview/format/BMP.java:129-131 | `width * height * bpp` in Java `int` arithmetic, the size a stated raw size of 0 stands for (see `BmpFacts.DefaultRawSize`) |
| BmpFormat.PaletteEntry | src/com/bitmapview/format/BMP.java:182-196 | colour-table entry `i` of entries `size` octets apart from `start`, stored blue, green, red; a fourth octet of an info-header entry is skipped |
| BmpFormat.RowLength | src/com/bitmapview/format/BMP.java:223 | `((bpp * width + 31) / 32) * 4` in Java `int` arithmetic, the stored row length (bounds in `BmpFacts.RowLengthBounds`) |
| BmpFormat.BmpPixel | src/com/bitmapview/format/BMP.java:239-290 | pixel `x` of a row at `start`: bit `7 - x % 8` of octet `x / 8` at 1 bpp, the high nibble of octet `x / 2` for even `x` at 4 bpp, octet `x` at 8 bpp, each looked up in the palette; blue, green, red at `3x` at 24 bpp; any other depth fails with UnsupportedBpp |
| BmpFormat.DibRest | src/com/bitmapview/format/BMP.java:122-141 | the info fields and the skip to the DIB header's end keep size, signature, length and depth |
| BmpFormat.ParseBmpHeader | src/com/bitmapview/format/BMP.java:50-141 | an accepted header has a non-negative size, a 16-bit depth and ends past offset 18 |
| BmpFormat.ReadBmpPalette | src/com/bitmapview/format/BMP.java:163-217 | the colour table and the skip never move before the DIB header's end |
| BmpFormat.PixelResults | src/com/bitmapview/format/BMP.java:235-291 | one outcome per pixel of a row, pixel `x` being `BmpPixel` at `x` |
| BmpFormat.RowPixels | src/com/bitmapview/format/BMP.java:235-291 | a successful row has `width` pixels |
| BmpFormat.BmpRow | src/com/bitmapview/format/BMP.java:229-293 | a successful row, skip included, has `width` pixels |
| BmpFormat.StoredRows | src/com/bitmapview/format/BMP.java:228-294 | `n` outcomes, every successful one `width` wide |
| BmpFormat.StoredRow | src/com/bitmapview/format/BMP.java:228-294 | stored row `k` is the row read `k` strides after the start |
| BmpFormat.BmpRows | src/com/bitmapview/format/BMP.java:228-294 | on success `height` rows of `width` pixels |
| BmpFormat.RowsAllRead | src/com/bitmapview/format/BMP.java:228-294 | when every row reads as expected, the row loop gives exactly those rows |
| BmpFormat.Flip | src/com/bitmapview/format/BMP.java:228 | stored rows, bottom first, as a picture: line `y` is stored row `height - 1 - y` |
| BmpFormat.Painted | src/com/bitmapview/format/BMP.java:228-294 | the bitmap after `n` rows of the loop keeps its size |
| BmpFormat.PaintedRows | src/com/bitmapview/format/BMP.java:228-294 | after `n` rows, line `i` is its stored row if that was read and not yet overwritten, the old line otherwise |
| BmpFormat.FlipOfRows | src/com/bitmapview/format/BMP.java:228-294 | once every row is read, the loop has painted `Flip` of the collected rows |
| BmpFormat.DecodeBmp | src/com/bitmapview/format/BMP.java:22-300 | a successful load gives a well-formed picture and four headers |
| BmpFormat.SavedFileHeader | src/com/bitmapview/format/BMP.java:319-328 | the 14-octet file header |
| BmpFormat.SavedInfoHeader | src/com/bitmapview/format/BMP.java:331-344 | the 40-octet BITMAPINFOHEADER |
| BmpFormat.SavedHeader | src/com/bitmapview/format/BMP.java:318-344 | the 54-octet header |
| BmpFormat.PixelBytes | src/com/bitmapview/format/BMP.java:356-364 | three octets per pixel |
| BmpFormat.SavedRowsNext | src/com/bitmapview/format/BMP.java:350-369 | each further saved row is line `height - 1 - k`'s triples then `pad` zeros |
| BmpFormat.EncodeBmp | src/com/bitmapview/format/BMP.java:308-373 | everything `save` writes for a picture: the 54-octet header and the rows, bottom line first, each padded; fails as the padding allocation does (length in `BmpFacts.SavedLength`, equality with the writer in `BmpCodec.Save`) |
| BmpCodec.ReadField | src/com/bitmapview/util/DataInputStreamLE.java:124-138 | a 32-bit field in the chosen order, cursor plus 4 |
| BmpCodec.ReadFileHeader | src/com/bitmapview/format/BMP.java:50-90 | reading the file header and the DIB length agrees with `ParseFileHeader` and ends at 18 |
| BmpCodec.ReadDibSize | src/com/bitmapview/format/BMP.java:101-110 | the size fields chosen by the DIB length, as `DibSize` |
| BmpCodec.ReadInfoFields | src/com/bitmapview/format/BMP.java:122-138 | compression, raw size and palette length, as `InfoFields`, advancing 24 octets for info headers |
| BmpCodec.ReadDibRest | src/com/bitmapview/format/BMP.java:122-141 | the rest of the DIB header as `DibRest`, ending where it says |
| BmpCodec.ReadDibTail | src/com/bitmapview/format/BMP.java:115-141 | planes and depth as `DibTail`, recording the depth, nothing else of the bitmap changed |
| BmpCodec.ReadHeader | src/com/bitmapview/format/BMP.java:50-141 | the header read agrees with `ParseBmpHeader`; on success the bitmap is sized to it and carries its headers |
| BmpCodec.ReadColor | src/com/bitmapview/format/BMP.java:182-196 | one colour-table entry, blue first, of 3 or 4 octets by header kind |
| BmpCodec.ReadColors | src/com/bitmapview/format/BMP.java:180-197 | a fresh table of `n` entries, entry `i` read at `i` entry sizes on, and the octet count as a Java `int` |
| BmpCodec.ReadPalette | src/com/bitmapview/format/BMP.java:163-217 | the table (or null) and the skip as `ReadBmpPalette` |
| BmpCodec.ReadBitPixel | src/com/bitmapview/format/BMP.java:239-255 | 1 bpp: pixel `x` as `BmpPixel`, keeping the unpacking state for `x + 1` |
| BmpCodec.ReadNibblePixel | src/com/bitmapview/format/BMP.java:257-272 | 4 bpp: pixel `x` as `BmpPixel`, keeping the unpacking state for `x + 1` |
| BmpCodec.ReadIndexPixel | src/com/bitmapview/format/BMP.java:274-279 | 8 bpp: pixel `x` as `BmpPixel`, one octet read |
| BmpCodec.ReadTruePixel | src/com/bitmapview/format/BMP.java:281-287 | 24 bpp: pixel `x` as `BmpPixel`, three octets read |
| BmpCodec.ReadPixel | src/com/bitmapview/format/BMP.java:239-290 | one pass of the pixel loop for any depth, as `BmpPixel` |
| BmpCodec.ReadRowPixels | src/com/bitmapview/format/BMP.java:235-291 | the pixel loop paints line `y` with `RowPixels` and leaves every other line alone |
| BmpCodec.ReadRow | src/com/bitmapview/format/BMP.java:229-293 | a row followed by its skip: line `y` becomes stored row `k`, no other line changes |
| BmpCodec.ReadRows | src/com/bitmapview/format/BMP.java:228-294 | the row loop, bottom line first: agrees with `BmpRows`, and on success the bitmap is the flipped rows |
| BmpCodec.Load | src/com/bitmapview/format/BMP.java:22-300 | `BMP.load` agrees with `DecodeBmp`: the same success, the same error, and on success a bitmap with the file's name, headers and picture |
| BmpCodec.SaveFileHeader | src/com/bitmapview/format/BMP.java:319-328 | appends `SavedFileHeader` |
| BmpCodec.SaveInfoHeader | src/com/bitmapview/format/BMP.java:331-344 | appends `SavedInfoHeader` |
| BmpCodec.SavePixels | src/com/bitmapview/format/BMP.java:356-364 | appends the B, G, R triples of line `y`, counting 3 per pixel in a Java `int` |
| BmpCodec.SaveRow | src/com/bitmapview/format/BMP.java:350-369 | one row and its padding, failing as the padding allocation does |
| BmpCodec.SaveRows | src/com/bitmapview/format/BMP.java:350-369 | all rows, bottom line first, as `SavedRows`, or the padding failure |
| BmpCodec.Save | src/com/bitmapview/format/BMP.java:308-373 | nothing for a null bitmap, otherwise exactly `EncodeBmp`'s octets or its error |
| BmpFacts.RowLengthBounds | src/com/bitmapview/format/BMP.java:223 | a row length is a multiple of 4 and holds `bpp * width` bits with less than 32 to spare |
| BmpFacts.WordsOf | src/com/bitmapview/format/BMP.java:223 | `(bits + 31) / 32` is the least number of 32-bit words holding `bits` bits |
| BmpFacts.RowConsumesRowLength | src/com/bitmapview/format/BMP.java:228-294 | for 1, 4, 8 and 24 bpp the skip after a row is 0 to 3 and every row consumes exactly `RowLength` octets |
| BmpFacts.SavedPadIsRowPad | src/com/bitmapview/format/BMP.java:347-368 | the zeros save appends are the skip load makes after a 24-bit row |
| BmpFacts.DibLengthSelectsSize | src/com/bitmapview/format/BMP.java:101-113 | length 12 or 64: 16-bit size fields; 40 or at least 108: 32-bit ones; any other: the size is 0 x 0 |
| BmpFacts.UnknownDibLengthAccepted | src/com/bitmapview/format/BMP.java:101-141 | an unknown DIB length of at least 8 with one plane is accepted, at 0 x 0 |
| BmpFacts.PlanesChecked | src/com/bitmapview/format/BMP.java:116-117 | a plane count other than 1 is rejected |
| BmpFacts.CompressionChecked | src/com/bitmapview/format/BMP.java:125-126 | an info header fails exactly when its compression is not 0, with UnsupportedCompression |
| BmpFacts.SignatureNotChecked | src/com/bitmapview/format/BMP.java:50-54 | files differing only in the signature are accepted or rejected alike, the headers differing only in the signature |
| BmpFacts.DibHeaderConsumed | src/com/bitmapview/format/BMP.java:97-140 | the header parse ends exactly `dibHeaderLength` octets after offset 14 |
| BmpFacts.DefaultRawSize | src/com/bitmapview/format/BMP.java:128-131 | a raw size of 0 stands for `width * height * bpp` in Java `int` arithmetic |
| BmpFacts.NoColorTableRejected | src/com/bitmapview/format/BMP.java:147-148 | depth at most 8 with pixels right after the DIB header fails with MissingColorTable |
| BmpFacts.ColorTableRead | src/com/bitmapview/format/BMP.java:172-197 | depth at most 8 has a table of `2^bpp` or the stated count, entry `i` blue first |
| BmpFacts.PaletteEndsAtOffset | src/com/bitmapview/format/BMP.java:165-216 | the colour table and the skip after it end `offset` octets behind the DIB header whenever the table's size fits a Java `int` |
| BmpFacts.PixelDataAtStatedOffset | src/com/bitmapview/format/BMP.java:58-216 | when the stated pixel offset lies behind the DIB header and the colour table's size fits a Java `int`, the pixel data starts at the pixel-data offset of the file header |
| BmpFacts.UnsupportedDepthFails | src/com/bitmapview/format/BMP.java:288-290 | a depth other than 1, 4, 8, 24 fails with UnsupportedBpp |
| BmpFacts.SavedLength | src/com/bitmapview/format/BMP.java:308-369 | a saved file is `54 + RowLength(24, width) * height` octets |
| BmpFacts.IntField | src/com/bitmapview/util/DataInputStreamLE.java:124-138 | with low-first reads, a 32-bit field holding writeInt(v)'s octets reads back as `v` |
| BmpFacts.SavedFileHeaderFields | src/com/bitmapview/format/BMP.java:325-328 | a saved file header starts with `BM` and gives the pixel offset 54 |
| BmpFacts.SavedInfoHeaderFields | src/com/bitmapview/format/BMP.java:331-344 | a saved info header reads back as length 40, the picture's width and height, 1 plane, 24 bpp, no compression and no palette count |
| BmpFacts.PixelOfTriple | src/com/bitmapview/format/BMP.java:281-287 | a 24-bit pixel is the blue, green, red triple stored at its place |
| BmpFacts.SavedPixel | src/com/bitmapview/format/BMP.java:356-364 | pixel `x` of saved row `k` reads back as pixel `x` of line `height - 1 - k` |
| BmpFacts.SavedRowPixels | src/com/bitmapview/format/BMP.java:350-364 | the pixels of saved row `k` read back as line `height - 1 - k` |
| BmpFacts.StoredOrder | src/com/bitmapview/format/BMP.java:350 | the picture's lines bottom first, as a file stores them |
| BmpFacts.SavedRowRead | src/com/bitmapview/format/BMP.java:350-369 | a saved row and its padding read back, skip included, as line `height - 1 - k` |
| BmpFacts.SavedRowsRead | src/com/bitmapview/format/BMP.java:228-294 | the loader's row loop over the saved rows gives the lines in stored order |
| BmpFacts.ParseSavedHeader | src/com/bitmapview/format/BMP.java:318-344 | read low first, a saved header is a 40-octet info header, 24 bpp, the picture's size, pixels at 54 |
| BmpFacts.SavedRowsDecode | src/com/bitmapview/format/BMP.java:350-369 | the saved rows read back as the picture's lines, bottom first |
| BmpFacts.FlipBack | src/com/bitmapview/format/BMP.java:228 | flipping the stored order back gives the picture |
| BmpFacts.SaveThenLoad | src/com/bitmapview/format/BMP.java:308-373 | with little-endian 32-bit reads, loading a saved picture gives back its size and every pixel |
| BmpFacts.SavedDibLengthAsWritten | src/com/bitmapview/util/DataInputStreamLE.java:134-137 | the saved DIB length 40, read as written, is 0x2800_0000 |
| BmpFacts.RecordedDibLength | src/com/bitmapview/format/BMP.java:99 | a successful load records the DIB length it read |
| BmpFacts.SaveThenLoadAsWritten | src/com/bitmapview/format/BMP.java:90-99 | with readInt as written, loading a saved picture does not give it back |
| PcxFormat.ArrayReadEnd | src/com/bitmapview/format/PCX.java:83 | `read(byte[n])` never moves back, and moves exactly `n` when `n` octets remain |
| PcxFormat.EgaOctets | src/com/bitmapview/format/PCX.java:82-83 | the 48 EGA octets as Java bytes, 0 where the file ends |
| PcxFormat.ParsePcxHeader | src/com/bitmapview/format/PCX.java:58-96 | an accepted header has a non-negative size and 48 EGA octets |
| PcxFormat.WindowFields | src/com/bitmapview/format/PCX.java:69-96 | the same, from the window on |
| PcxFormat.PlaneFields | src/com/bitmapview/format/PCX.java:82-96 | keeps the size and reads 48 EGA octets |
| PcxFormat.PcxHeaders | src/com/bitmapview/format/PCX.java:62-91 | four headers recorded while reading the header |
| PcxFormat.PaletteHeaders | src/com/bitmapview/format/PCX.java:168-205 | one palette header unless the picture is 24-bit |
| PcxFormat.Copies | src/com/bitmapview/format/PCX.java:140-141 | `n` copies of `v` |
| PcxFormat.Run | src/com/bitmapview/format/PCX.java:125-138 | a run's count is below 64 |
| PcxFormat.DecodeLine | src/com/bitmapview/format/PCX.java:122-143 | a decoded scanline has exactly `n` octets; an overflowing run fails with IndexOutOfBounds |
| PcxFormat.DecodeLines | src/com/bitmapview/format/PCX.java:121-144 | `h` scanlines of `n` octets, or IndexOutOfBounds |
| PcxFormat.DecodeLinesFailStays | src/com/bitmapview/format/PCX.java:121-144 | once a scanline fails every later count fails |
| PcxFormat.EgaPalette | src/com/bitmapview/format/PCX.java:182-190 | 16 colours, component `i` mapped by `(c >> 6) & 0xFF` |
| PcxFormat.EgaLevel | src/com/bitmapview/format/PCX.java:185-187 | `(c >> 6) & 0xFF` of an EGA palette octet read as a Java byte (its four values in `PcxHeaderFacts.EgaLevels`) |
| PcxFormat.ReadCount | src/com/bitmapview/format/PCX.java:111-137 | the loader's `readBytes`: 128 for the header plus every octet read for the scanlines, as a Java `int` |
| PcxFormat.VgaPalette | src/com/bitmapview/format/PCX.java:196-202 | 256 colours, colour `i` from the three octets at `p + 3i` |
| PcxFormat.ChoosePalette | src/com/bitmapview/format/PCX.java:168-205 | a palette is chosen unless the picture is 24-bit; the only failure is a negative skip |
| PcxFormat.PcxPixels | src/com/bitmapview/format/PCX.java:217-269 | one outcome per pixel of a row, pixel `x` being `PcxPixel` at `x` |
| PcxFormat.PcxRows | src/com/bitmapview/format/PCX.java:211-270 | `k` rows, every successful one `w` wide |
| PcxFormat.PcxRowAt | src/com/bitmapview/format/PCX.java:211-270 | row `y` is `Collect` of line `y`'s pixels |
| PcxFormat.PcxPixel | src/com/bitmapview/format/PCX.java:217-268 | pixel `x` of a decoded scanline: bit `7 - x % 8` of octet `x / 8` at 1 bpp, the nibbles high first at 4 bpp, an index needing the VGA palette above 15 at 8 bpp in one plane, red, green and blue from the three planes at 8 bpp in three planes; IndexOutOfBounds past the scanline, InvalidColorEncoding for other layouts |
| PcxFormat.DecodePcx | src/com/bitmapview/format/PCX.java:18-276 | a successful load has a well-formed picture |
| PcxFormat.SavedPcxHeader | src/com/bitmapview/format/PCX.java:298-323 | the 128-octet saved header |
| PcxFormat.SavedSignature | src/com/bitmapview/format/PCX.java:298-301 | the four signature octets |
| PcxFormat.SavedWindow | src/com/bitmapview/format/PCX.java:303-309 | the 12 window and resolution octets |
| PcxFormat.SavedLineInfo | src/com/bitmapview/format/PCX.java:312-321 | the 10 plane and line octets |
| PcxFormat.PlaneLine | src/com/bitmapview/format/PCX.java:333-338 | a row as three planes: red at `x`, green at `w + x`, blue at `2w + x` |
| PcxFormat.SaveScan | src/com/bitmapview/format/PCX.java:326-342 | the scanline works exactly for `0 < w` and `3w` within a Java `int` |
| PcxFormat.RunFrom | src/com/bitmapview/format/PCX.java:346-348 | a counted run stays below 63 more and inside the line |
| PcxFormat.RunCode | src/com/bitmapview/format/PCX.java:351-365 | the code of a run of 1 to 63 octets: `0xC0 + count` and the octet for two or more, `0xC1` and the octet for a single octet with both top bits set, the octet itself otherwise (decoded back by `PcxFacts.RunCodeDecodes`) |
| PcxFormat.RunCodes | src/com/bitmapview/format/PCX.java:341-367 | the codes of some runs one after the other (decoded back by `PcxFacts.RunCodesDecode`) |
| PcxFormat.EncodedLine | src/com/bitmapview/format/PCX.java:341-367 | the code of a scanline, the codes of the runs `save` finds in it (decoded back by `PcxFacts.LineRoundTrip`) |
| PcxFormat.RunsFrom | src/com/bitmapview/format/PCX.java:341-367 | a line has at least one run, each of 1 to 63 octets |
| PcxFormat.RunsFromSplit | src/com/bitmapview/format/PCX.java:341-367 | the runs from `i` are the one at `i` and then those after it |
| PcxFormat.RunCodesStep | src/com/bitmapview/format/PCX.java:350-365 | a line's code is its first run's code and then the rest |
| PcxFormat.RunCodesCons | src/com/bitmapview/format/PCX.java:350-365 | the codes of some runs are the first run's code and then the rest's |
| PcxFormat.PlaneLines | src/com/bitmapview/format/PCX.java:327-338 | one scanline per row |
| PcxFormat.PlaneLineAt | src/com/bitmapview/format/PCX.java:327-338 | scanline `y` is row `y` as three planes, `3w` octets |
| PcxFormat.LineCodes | src/com/bitmapview/format/PCX.java:327-367 | one code per scanline |
| PcxFormat.LineCodeOf | src/com/bitmapview/format/PCX.java:341-367 | the code of scanline `l` is its encoding |
| PcxFormat.ConcatStep | src/com/bitmapview/format/PCX.java:341-367 | appending row `l`'s code to those before it gives the first `l + 1` codes |
| PcxFormat.EncodePcx | src/com/bitmapview/format/PCX.java:284-372 | save succeeds exactly with no rows or with `0 < w` and `3w` within a Java `int`, and then starts with the saved header |
| PcxCodec.ReadHeader | src/com/bitmapview/format/PCX.java:58-96 | the header read agrees with `ParsePcxHeader`; the bitmap is sized and carries the headers |
| PcxCodec.ReadSized | src/com/bitmapview/format/PCX.java:69-96 | agrees with `WindowFields` |
| PcxCodec.SizeBitmap | src/com/bitmapview/format/PCX.java:69-78 | the window as a size; the bitmap is resized exactly for a non-negative size |
| PcxCodec.ReadWindow | src/com/bitmapview/format/PCX.java:69-75 | width `xEnd - xStart + 1` and height `yEnd - yStart + 1` from the 16-bit fields |
| PcxCodec.ReadPlaneFields | src/com/bitmapview/format/PCX.java:80-96 | agrees with `PlaneFields` and records the plane count |
| PcxCodec.ReadEga | src/com/bitmapview/format/PCX.java:82-83 | the EGA octets, `EgaOctets` |
| PcxCodec.ReadRun | src/com/bitmapview/format/PCX.java:125-138 | one run as `Run`, the wrapped `readBytes` counting every octet read |
| PcxCodec.ReadLine | src/com/bitmapview/format/PCX.java:122-143 | one scanline as `DecodeLine`; other lines untouched |
| PcxCodec.ReadLines | src/com/bitmapview/format/PCX.java:121-144 | every scanline as `DecodeLines` |
| PcxCodec.EgaColors | src/com/bitmapview/format/PCX.java:183-189 | a fresh 16-colour array equal to `EgaPalette` |
| PcxCodec.VgaColors | src/com/bitmapview/format/PCX.java:196-202 | a fresh 256-colour array equal to `VgaPalette`, 768 octets read |
| PcxCodec.ReadPalette | src/com/bitmapview/format/PCX.java:164-205 | the palette as `ChoosePalette`, recording its header |
| PcxCodec.BitStep | src/com/bitmapview/format/PCX.java:223-232 | 1 bpp: pixel `x` as `PcxPixel`, keeping the unpacking state |
| PcxCodec.NibbleStep | src/com/bitmapview/format/PCX.java:238-247 | 4 bpp: pixel `x` as `PcxPixel`, keeping the unpacking state |
| PcxCodec.PixelStep | src/com/bitmapview/format/PCX.java:217-268 | one pass of the pixel loop, as `PcxPixel` |
| PcxCodec.PaintRow | src/com/bitmapview/format/PCX.java:217-269 | line `y` becomes the row's pixels, no other line changes |
| PcxCodec.PaintRows | src/com/bitmapview/format/PCX.java:211-270 | every row painted, as `PcxRows` |
| PcxCodec.Load | src/com/bitmapview/format/PCX.java:18-276 | `PCX.load` agrees with `DecodePcx`: same success, same error, and on success a bitmap with the file's name, headers and picture |
| PcxCodec.SaveHeader | src/com/bitmapview/format/PCX.java:298-323 | appends `SavedPcxHeader` |
| PcxCodec.SaveWindow | src/com/bitmapview/format/PCX.java:303-309 | appends `SavedWindow` |
| PcxCodec.SaveLineInfo | src/com/bitmapview/format/PCX.java:312-321 | appends `SavedLineInfo` |
| PcxCodec.StoreColor | src/com/bitmapview/format/PCX.java:334-337 | sets the three plane octets of pixel `x`, nothing else |
| PcxCodec.FillPlanes | src/com/bitmapview/format/PCX.java:333-338 | the scanline holds `PlaneLine` of row `l` |
| PcxCodec.PlanesInRange | src/com/bitmapview/format/PCX.java:334-337 | the three plane positions fit the scanline exactly when its length is `3w` |
| PcxCodec.WrappedScanLine | src/com/bitmapview/format/PCX.java:326 | `3 * w` that wraps to a non-negative `int` lands in `1 .. w` |
| PcxCodec.FillLine | src/com/bitmapview/format/PCX.java:326-338 | works exactly when `3w` fits a Java `int`; otherwise NegativeArraySize or IndexOutOfBounds |
| PcxCodec.EncodeRun | src/com/bitmapview/format/PCX.java:343-365 | one run: counted by `RunFrom`, appended as `RunCode` |
| PcxCodec.EncodeLine | src/com/bitmapview/format/PCX.java:341-367 | works exactly for a non-empty scanline and appends `EncodedLine`; an empty one writes nothing |
| PcxCodec.SaveLine | src/com/bitmapview/format/PCX.java:327-367 | row `l` encoded; a failure writes nothing |
| PcxCodec.SaveLines | src/com/bitmapview/format/PCX.java:327-368 | every row's code in order, or the scanline failure before the first row is written |
| PcxCodec.Save | src/com/bitmapview/format/PCX.java:284-372 | nothing for a null bitmap, otherwise exactly `EncodePcx`'s octets or its error |
| PcxFacts.RunIsMaximal | src/com/bitmapview/format/PCX.java:346-348 | the counted run is all equal octets and ends at 63 octets, at the line's end or at a different octet |
| PcxFacts.RunFromEqual | src/com/bitmapview/format/PCX.java:346-348 | the counting loop keeps to equal octets and stops only at 63 octets, the line's end or a different octet |
| PcxFacts.RunCodeDecodes | src/com/bitmapview/format/PCX.java:125-138 | the loader's step over a run's code gives back its count and octet and moves past the code |
| PcxFacts.CountedRun | src/com/bitmapview/format/PCX.java:132-137 | a count octet `0xC0 + n` and the octet after it are a run of `n` |
| PcxFacts.ExpandLength | src/com/bitmapview/format/PCX.java:140-141 | runs of at least one octet expand to at least as many octets as runs |
| PcxFacts.DecodeStep | src/com/bitmapview/format/PCX.java:122-143 | one pass of the do-while: the run is appended, and the line is done when full |
| PcxFacts.RunCodesDecode | src/com/bitmapview/format/PCX.java:122-143 | the decoder over run codes that fill the line appends their octets and stops after the codes |
| PcxFacts.RunsFromExpand | src/com/bitmapview/format/PCX.java:341-367 | the runs save finds from `i` expand to the rest of the line |
| PcxFacts.LineAtDecodes | src/com/bitmapview/format/PCX.java:122-143 | wherever a line's code sits, the decoder reads the line back and stops after the code |
| PcxFacts.LineRoundTrip | src/com/bitmapview/format/PCX.java:341-367 | RLE round trip: decoding the encoding of a non-empty line gives it back and consumes exactly the code |
| PcxFacts.LinesCoded | src/com/bitmapview/format/PCX.java:327-367 | equal-length lines are coded by `LineCodes` |
| PcxFacts.CodedLineDecodes | src/com/bitmapview/format/PCX.java:121-144 | wherever line `y`'s code sits, the decoder reads line `y` back |
| PcxFacts.CodedLinesAt | src/com/bitmapview/format/PCX.java:121-144 | codes placed one after the other are decoded one after the other |
| PcxFacts.ScanDecodes | src/com/bitmapview/format/PCX.java:121-144 | the row loop gives back the first `k` lines and stops after their codes |
| PcxFacts.CodedScanDecodes | src/com/bitmapview/format/PCX.java:121-144 | the row loop over concatenated codes gives back every line |
| PcxFacts.LinesStep | src/com/bitmapview/format/PCX.java:121-144 | one pass of the row loop decodes the next line where the previous ones end |
| PcxHeaderFacts.WindowWidth | src/com/bitmapview/format/PCX.java:69-75 | the width from the window lies in `(-2^16, 2^16]` |
| PcxHeaderFacts.WindowHeight | src/com/bitmapview/format/PCX.java:69-75 | the height from the window lies in `(-2^16, 2^16]` |
| PcxHeaderFacts.SignedOctetIs | src/com/bitmapview/format/PCX.java:58-59 | comparing a Java byte with a constant below 0x80 compares the octet |
| PcxHeaderFacts.HeaderRejects | src/com/bitmapview/format/PCX.java:58-91 | the checks in order: identifier, then encoding, then negative size, then plane layout, each with its own error |
| PcxHeaderFacts.HeaderAccepts | src/com/bitmapview/format/PCX.java:58-96 | a 64-octet header is accepted exactly when every check passes, and then its fields are the header octets |
| PcxHeaderFacts.LoadRejects | src/com/bitmapview/format/PCX.java:115-116 | load fails as the header does, and with DivisionByZero for 0 bits per pixel |
| PcxHeaderFacts.PaletteChosen | src/com/bitmapview/format/PCX.java:168-205 | 24-bit: none; fewer than 769 left: EGA; otherwise the marker 0x0C at 769 from the end selects VGA, anything else EGA; fails exactly when the skip wraps negative |
| PcxHeaderFacts.EgaLevels | src/com/bitmapview/format/PCX.java:185-187 | an EGA component is 0, 1, 254 or 255 by the octet's top two bits |
| PcxHeaderFacts.ChosenPaletteFull | src/com/bitmapview/format/PCX.java:183-196 | the chosen palette has 16 colours, or 256 for VGA |
| PcxHeaderFacts.IndexedPixel | src/com/bitmapview/format/PCX.java:250-255 | 8 bpp, one plane: an index above 15 without VGA fails with MissingVgaPalette, otherwise its colour |
| PcxHeaderFacts.BitPixels | src/com/bitmapview/format/PCX.java:223-232 | 1 bpp: pixel `8i + j` is bit `7 - j` of octet `i` |
| PcxHeaderFacts.NibblePixels | src/com/bitmapview/format/PCX.java:238-247 | 4 bpp: pixel `2i` is the high nibble of octet `i`, `2i + 1` the low one |
| PcxHeaderFacts.PlanePixel | src/com/bitmapview/format/PCX.java:262-266 | three planes: pixel `x` takes red, green and blue from the three planes |
| PcxHeaderFacts.OtherDepthsRejected | src/com/bitmapview/format/PCX.java:267-268 | any other depth or plane layout fails with InvalidColorEncoding |
| PcxRoundTrip.BlankEga | src/com/bitmapview/format/PCX.java:311 | the saved EGA palette is 48 zeros |
| PcxRoundTrip.SavedHeaderParts | src/com/bitmapview/format/PCX.java:298-323 | the saved header's parts and where they sit |
| PcxRoundTrip.SavedWindowFields | src/com/bitmapview/format/PCX.java:303-306 | the saved window reads back as `(0, 0)-(w - 1, h - 1)` |
| PcxRoundTrip.SavedSignatureFields | src/com/bitmapview/format/PCX.java:298-316 | manufacturer 0x0A, version 5, RLE, 8 bpp, 3 planes of `w` octets read back |
| PcxRoundTrip.SavedEgaBlank | src/com/bitmapview/format/PCX.java:311 | the saved EGA palette reads back blank |
| PcxRoundTrip.SavedHeaderParses | src/com/bitmapview/format/PCX.java:58-96 | a saved header parses to version 5, 8 bits in 3 planes, the picture's size, `w` bytes per line, scanlines at 128 |
| PcxRoundTrip.SavedScan | src/com/bitmapview/format/PCX.java:121-144 | the loader's row loop over a saved file gives back every three-plane scanline and stops at the end of the file |
| PcxRoundTrip.PlaneRowDecodes | src/com/bitmapview/format/PCX.java:262-266 | a row laid out in three planes expands back into the row |
| PcxRoundTrip.PlaneRowsDecode | src/com/bitmapview/format/PCX.java:211-270 | every such row expands back into the picture's rows |
| PcxRoundTrip.SavedPcxHeaders | src/com/bitmapview/format/PCX.java:62-91 | four headers, the size among them |
| PcxRoundTrip.LoadStages | src/com/bitmapview/format/PCX.java:18-276 | a load whose stages all succeed gives the picture of its rows with its headers |
| PcxRoundTrip.SaveThenLoad | src/com/bitmapview/format/PCX.java:284-372 | loading a saved picture gives back its size and every pixel, with the headers of a 24-bit file |

## Left out

- Files and streams become values.
  - The reader reads a sequence of octets, and `f.length()` is the sequence's length.
  - The writer records the octets it has been sent.
  - Opening and closing files, I/O errors, and `load(null)` / `save(bmp, null)` are not modelled.
  - `save(null, f)` is modelled.
- Header values are kept as numbers, sizes and octets. They are not the formatted strings `String.valueOf` and the concatenations produce.
- `new Bitmap(name)` and `addHeader` are called by both codecs but do not exist in `Bitmap.java`. `Raster.Bitmap.Named` and `Raster.Bitmap.AddHeader` model them from how the codecs use them.
- The codecs import `com.bitmapview.io.DataInputStreamLE`, while the class lives in `com.bitmapview.util`. The model treats them as the same class.
- Repainting and the Swing parts of `Bitmap` are left out, as is `Window.java`:
  - `repaint`;
  - `getPreferredSize` and `getMinimumSize`;
  - `paintComponent`;
  - the window and its dialogs.
- `readFloat`, `readDouble`, `writeFloat` and `writeDouble` are left out, because they are floating-point bit conversions.
- InputLE.DataInputStreamLE.SkipBytes requires a non-negative count.
  - `FileInputStream.skip` skips backwards on a seekable file for a negative count, and throws when that would pass the start of the file. The model does not follow the backward skip.
  - Where the codecs would skip a negative count, the model fails with `NegativeSkip`, and the rest of that load is not modelled.
  - Its return value is what `FileInputStream.skip` reports for a regular file, all `n` octets. The general `InputStream.skip` contract, which may report fewer, is not modelled. No caller uses the value.
- ColorTables.Lookup has a `NullPalette` failure for a null palette. In the model no BMP file reaches it, because a negative offset already fails with `NegativeSkip` (see `BmpFacts.ColorTableRead` for the other cases). In Java such a file skips backwards and, unless that passes the start of the file, throws NullPointerException at its first pixel.
- PcxRoundTrip.SaveThenLoad requires `w - 1`, `h - 1` and `w` to fit the header's signed 16-bit fields, and every row to have columns (`PcxSaveable`). Larger pictures wrap in the header, and the model does not follow them.
- BmpFacts.SaveThenLoad requires the picture's row length and size to fit a Java `int` (`Saveable`).
- The loader's `padding` variable (`PCX.java:116`) is modelled only for its division `8 / bpp`, which fails for 0 bits per pixel. Its value is never used.
- Partial output before a failure is not modelled. When `write(b, off, len)` has out-of-range bounds, the model writes nothing.
- InputLE.DataInputStreamLE.ReadLong has the same byte order as `readInt`, but it has no corrected counterpart, because no codec calls it.

## Findings

| source | as written | input that shows it | evidently intended | confidence | as-written member | corrected member |
|---|---|---|---|---|---|---|
| src/com/bitmapview/util/DataInputStreamLE.java:134-137 | readInt shifts the first octet read into the top byte, which is big-endian. The class comment promises little-endian, and writeInt writes little-endian. | writeInt(1) reads back as 0x100_0000. The DIB header length 40 of a BMP that `save` wrote reads back as 0x2800_0000, so the loaded headers differ from the ones saved. | The first octet read is the least significant one. | high; not executed | StreamFacts.IntReadAsWrittenOfOne, BmpFacts.SaveThenLoadAsWritten | StreamFacts.IntRoundTripFirstLow, BmpFacts.SaveThenLoad |
| src/com/bitmapview/io/DataOutputStreamLE.java:94 | writeLong's loop starts at index 7 and counts up, so its second pass indexes element 8 of an eight-element array. | writeLong(0), like any other value, throws ArrayIndexOutOfBoundsException before anything is written. | The loop counts down from 7 to 0, writing the eight octets of `v` least significant first. | high; not executed | OutputLE.DataOutputStreamLE.WriteLong | OutputLE.DataOutputStreamLE.WriteLongCorrected, StreamFacts.LongRoundTripFirstLow |
