/** What reading back the output stream's octets with the input stream
    gives: 16-bit values survive, 32-bit values come back byte-reversed. */
module StreamFacts {
  import opened Bytes
  import opened InputLE
  import opened OutputLE

  /** An integer is its low octet plus 256 times the rest. */
  lemma SplitLow(v: int)
    ensures v == LowByte(v) + 0x100 * (v / 0x100)
  {
  }

  /** readUnsignedShort over what writeShort(v) emitted is `v & 0xFFFF`. */
  lemma ShortRoundTrip(v: int32)
    ensures U16LE(ByteAt(ShortBytes(v), 0), ByteAt(ShortBytes(v), 1)) == v % 0x1_0000
  {
    var q := v / 0x100;
    SplitLow(v);
    SplitLow(q);
    assert v == LowByte(v) + 0x100 * LowByte(q) + 0x1_0000 * (q / 0x100);
  }

  /** readShort over what writeShort(v) emitted is v, for every 16-bit v. */
  lemma SignedShortRoundTrip(v: int)
    requires -0x8000 <= v < 0x8000
    ensures ShortAt(ShortBytes(v), 0) == v
  {
    ShortRoundTrip(v);
  }

  /** A 16-bit field holding the octets writeShort(v) wrote reads back as `v`. */
  lemma ShortField(data: seq<byte>, p: int, v: int)
    requires -0x8000 <= v < 0x8000
    requires ByteAt(data, p) == ShortBytes(v)[0] && ByteAt(data, p + 1) == ShortBytes(v)[1]
    ensures ShortAt(data, p) == v
  {
    SignedShortRoundTrip(v);
  }

  /** The four octets of writeInt(v), recombined low octet first. */
  lemma IntBytesCompose(v: int32)
    ensures var b: seq<int> := IntBytes(v);
      b[0] + b[1] * 0x100 + b[2] * 0x1_0000 + b[3] * 0x100_0000 == v % 0x1_0000_0000
  {
    var q1 := v / 0x100;
    var q2 := q1 / 0x100;
    var q3 := q2 / 0x100;
    SplitLow(v);
    SplitLow(q1);
    SplitLow(q2);
    SplitLow(q3);
    assert q2 == v / 0x1_0000;
    assert q3 == v / 0x100_0000;
    var b: seq<int> := IntBytes(v);
    assert b[0] == LowByte(v) && b[1] == LowByte(q1) && b[2] == LowByte(q2) && b[3] == LowByte(q3);
    var low := b[0] + b[1] * 0x100 + b[2] * 0x1_0000 + b[3] * 0x100_0000;
    assert v == low + 0x1_0000_0000 * (q3 / 0x100);
    assert 0 <= low < 0x1_0000_0000;
  }

  /** Corrected reading: a little-endian readInt gives back what writeInt wrote. */
  lemma IntRoundTripFirstLow(v: int32)
    ensures IntAt(FirstByteLow, IntBytes(v), 0) == v
  {
    var b := IntBytes(v);
    assert BytesAt(b, 0, 4) == b;
    FourOctets(b);
    IntBytesCompose(v);
    assert LittleEndian(b) == v % 0x1_0000_0000;
    I32OfResidue(v);
  }

  /** Any integer congruent to the composition of four octets (low first)
      has exactly those octets as its writeInt octets. */
  lemma IntBytesOfComposed(c0: byte, c1: byte, c2: byte, c3: byte, r: int)
    requires (r - (c0 + 0x100 * c1 + 0x1_0000 * c2 + 0x100_0000 * c3)) % 0x1_0000_0000 == 0
    ensures IntBytes(r) == [c0, c1, c2, c3]
  {
    var u := c0 + 0x100 * c1 + 0x1_0000 * c2 + 0x100_0000 * c3;
    var k := (r - u) / 0x1_0000_0000;
    assert r == u + 0x1_0000_0000 * k;
    var w := c1 + 0x100 * c2 + 0x1_0000 * c3 + 0x100_0000 * k;
    assert r == c0 + 0x100 * w;
    assert r / 0x100 == w;
    assert w / 0x100 == c2 + 0x100 * c3 + 0x1_0000 * k;
    assert r / 0x1_0000 == c2 + 0x100 * c3 + 0x1_0000 * k;
    assert r / 0x100_0000 == c3 + 0x100 * k;
    assert LowByte(r) == c0;
    assert LowByte(r / 0x100) == c1;
    assert LowByte(r / 0x1_0000) == c2;
    assert LowByte(r / 0x100_0000) == c3;
  }

  /** Reading as written: readInt over what writeInt(v) wrote is v with its
      four octets in reverse order. */
  lemma IntReadAsWrittenReversesBytes(v: int32)
    ensures var b := IntBytes(v);
      IntBytes(IntAt(FirstByteHigh, b, 0)) == [b[3], b[2], b[1], b[0]]
  {
    var b := IntBytes(v);
    assert BytesAt(b, 0, 4) == b;
    FourOctets(b);
    var c: seq<int> := b;
    I32Congruent(c[0] * 0x100_0000 + c[1] * 0x1_0000 + c[2] * 0x100 + c[3]);
    IntBytesOfComposed(b[3], b[2], b[1], b[0], IntAt(FirstByteHigh, b, 0));
  }

  /** The discrepancy on one value: writeInt(1) read back as written is 2^24. */
  lemma IntReadAsWrittenOfOne()
    ensures IntAt(FirstByteHigh, IntBytes(1), 0) == 0x100_0000
  {
    var b := IntBytes(1);
    assert b == [1, 0, 0, 0];
    assert BytesAt(b, 0, 4) == b;
    FourOctets(b);
  }

  /** What is left of `v` once its low `n` octets are shifted out. */
  function HighPart(v: int, n: nat): int
    decreases n
  {
    if n == 0 then v else HighPart(v / 0x100, n - 1)
  }

  /** `v` is its low `n` octets, composed least significant first, plus
      256^n times what is left. */
  lemma {:induction false} LowOctetsValue(v: int, n: nat)
    ensures v == LittleEndian(LowOctets(v, n)) + OctetPower(n) * HighPart(v, n)
    decreases n
  {
    if n > 0 {
      LowOctetsValue(v / 0x100, n - 1);
      assert LowOctets(v, n)[1..] == LowOctets(v / 0x100, n - 1);
      var p := OctetPower(n - 1);
      var h := HighPart(v / 0x100, n - 1);
      assert 0x100 * (p * h) == (0x100 * p) * h;
    }
  }

  /** Corrected writeLong: the eight octets it writes, composed least
      significant first as the class promises a read does, give back `v`. */
  lemma LongRoundTripFirstLow(v: int64)
    ensures LittleEndian(LongBytes(v)) == v % 0x1_0000_0000_0000_0000
    ensures S64(LittleEndian(LongBytes(v))) == v
  {
    LowOctetsValue(v, 8);
    LittleEndianBelow(LongBytes(v));
    assert OctetPower(8) == 0x1_0000_0000_0000_0000;
    var u := LittleEndian(LongBytes(v));
    var h := HighPart(v, 8);
    assert v == u + 0x1_0000_0000_0000_0000 * h && 0 <= u < 0x1_0000_0000_0000_0000;
    assert h == 0 || h == -1;
  }
}
