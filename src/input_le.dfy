/** The little-endian data input stream the codecs read with
    (DataInputStreamLE). The underlying file stream becomes a sequence of
    octets and a cursor. */
module InputLE {
  import opened Bytes
  import opened Results

  /** What the underlying `in.read()` returns with the cursor at `p`: the
      octet there, or -1 at or past the end of the stream. */
  function RawAt(data: seq<byte>, p: int): (r: int)
    ensures -1 <= r < 0x100
    ensures r == -1 <==> !(0 <= p < |data|)
  {
    if 0 <= p < |data| then data[p] else -1
  }

  /** `((byte) in.read()) & 0xFF`: the low eight bits of what `read()`
      returns, so 0xFF past the end of the stream. */
  function ByteAt(data: seq<byte>, p: int): (r: byte)
    ensures 0 <= p < |data| ==> r == data[p]
    ensures !(0 <= p < |data|) ==> r == 0xFF
  {
    if 0 <= p < |data| then data[p] else 0xFF
  }

  /** `(b2 & 0xFF) << 8 | (b1 & 0xFF)`: the first octet is the low one. */
  function U16LE(b1: byte, b2: byte): u16
  {
    b1 + 0x100 * b2
  }

  /** How a 32- or 64-bit read composes its octets. */
  datatype ByteOrder =
    | FirstByteHigh   // what readInt/readLong do: the first octet read is the most significant
    | FirstByteLow    // little-endian, as the class documentation promises

  /** The value of octets taken most significant first. */
  function BigEndian(bs: seq<byte>): nat
  {
    if bs == [] then 0 else BigEndian(bs[..|bs| - 1]) * 0x100 + bs[|bs| - 1]
  }

  /** The value of octets taken least significant first. */
  function LittleEndian(bs: seq<byte>): nat
  {
    if bs == [] then 0 else bs[0] + 0x100 * LittleEndian(bs[1..])
  }

  /** Both compositions of four octets, written out. */
  lemma FourOctets(bs: seq<byte>)
    requires |bs| == 4
    ensures var c: seq<int> := bs;
      BigEndian(bs) == c[0] * 0x100_0000 + c[1] * 0x1_0000 + c[2] * 0x100 + c[3]
    ensures var c: seq<int> := bs;
      LittleEndian(bs) == c[0] + c[1] * 0x100 + c[2] * 0x1_0000 + c[3] * 0x100_0000
  {
    assert bs[..3][..2] == bs[..2] && bs[..2][..1] == bs[..1] && bs[..1][..0] == [];
    assert BigEndian(bs[..1]) == bs[0];
    assert BigEndian(bs[..2]) == BigEndian(bs[..1]) * 0x100 + bs[1];
    assert BigEndian(bs[..3]) == BigEndian(bs[..2]) * 0x100 + bs[2];
    assert bs[1..][1..] == bs[2..] && bs[2..][1..] == bs[3..] && bs[3..][1..] == [];
    assert LittleEndian(bs[3..]) == bs[3];
    assert LittleEndian(bs[2..]) == bs[2] + 0x100 * LittleEndian(bs[3..]);
    assert LittleEndian(bs[1..]) == bs[1] + 0x100 * LittleEndian(bs[2..]);
  }

  /** The positive value of eight octets, the first one most significant. */
  function U64FirstHigh(b: seq<byte>): (r: int)
    requires |b| == 8
    ensures 0 <= r < 0x1_0000_0000_0000_0000
  {
    var c: seq<int> := b;
    c[0] * 0x100_0000_0000_0000 + c[1] * 0x1_0000_0000_0000 + c[2] * 0x100_0000_0000
    + c[3] * 0x1_0000_0000 + c[4] * 0x100_0000 + c[5] * 0x1_0000 + c[6] * 0x100 + c[7]
  }

  /** The `n` octets that `n` successive reads see with the cursor at `p`. */
  function BytesAt(data: seq<byte>, p: int, n: nat): (r: seq<byte>)
    ensures |r| == n && forall i :: 0 <= i < n ==> r[i] == ByteAt(data, p + i)
  {
    seq<byte>(n, i => ByteAt(data, p + i))
  }

  /** The value a 16-bit signed read (readShort) returns with the cursor at `p`. */
  function ShortAt(data: seq<byte>, p: int): (r: int)
    ensures -0x8000 <= r < 0x8000
  {
    S16(U16LE(ByteAt(data, p), ByteAt(data, p + 1)))
  }

  /** The value a 32-bit read returns with the cursor at `p`, for either
      order: the composed octets as a Java `int`. */
  function IntAt(order: ByteOrder, data: seq<byte>, p: int): int32
  {
    var bs := BytesAt(data, p, 4);
    I32(if order == FirstByteHigh then BigEndian(bs) else LittleEndian(bs))
  }

  /** A little-endian 32-bit value is its low 16-bit half plus 2^16 times
      its high half. */
  lemma IntFromShorts(data: seq<byte>, p: int)
    ensures IntAt(FirstByteLow, data, p)
         == I32(U16LE(ByteAt(data, p), ByteAt(data, p + 1)) + 0x1_0000 * U16LE(ByteAt(data, p + 2), ByteAt(data, p + 3)))
  {
    FourOctets(BytesAt(data, p, 4));
  }

  /** Eight reads from `p` on, each masked to its low octet, see `BytesAt(data, p, 8)`. */
  lemma EightOctets(data: seq<byte>, p: int, bs: seq<byte>)
    requires |bs| == 8 && forall i :: 0 <= i < 8 ==> bs[i] == RawAt(data, p + i) % 0x100
    ensures bs == BytesAt(data, p, 8)
  {
  }

  class DataInputStreamLE {
    /** Everything the underlying stream holds. */
    const data: seq<byte>
    /** How many octets the reads and skips so far have asked for. Once
        this reaches the end of the stream, every read sees -1 and every
        skip skips nothing, so counting on past the end is the same as
        stopping there. */
    var pos: nat

    constructor (data: seq<byte>)
      ensures this.data == data && pos == 0
    {
      this.data := data;
      pos := 0;
    }

    /** The underlying `in.read()`: one octet, or -1 at the end. */
    method Read() returns (r: int)
      modifies this
      ensures pos == old(pos) + 1
      ensures r == RawAt(data, old(pos))
    {
      r := if pos < |data| then data[pos] else -1;
      pos := pos + 1;
    }

    /** The underlying `in.read(b)` (what `read(byte[])` forwards to): copies
        up to `b.Length` octets as Java bytes, returning how many, or -1 when
        the stream is exhausted; positions it does not reach keep their values. */
    method ReadArray(b: array<int>) returns (n: int)
      modifies this, b
      ensures n == if b.Length == 0 then 0 else if old(pos) >= |data| then -1 else Min(b.Length, |data| - old(pos))
      ensures pos == old(pos) + (if n > 0 then n else 0)
      ensures forall i :: 0 <= i < b.Length ==>
        b[i] == (if old(pos) + i < |data| && i < n then S8(data[old(pos) + i]) else old(b[i]))
    {
      if b.Length == 0 {
        return 0;
      }
      if pos >= |data| {
        return -1;
      }
      n := Min(b.Length, |data| - pos);
      var i := 0;
      while i < n
        invariant 0 <= i <= n && pos == old(pos) + i
        invariant forall j :: 0 <= j < b.Length ==>
          b[j] == (if j < i then S8(data[old(pos) + j]) else old(b[j]))
      {
        b[i] := S8(data[pos]);
        pos := pos + 1;
        i := i + 1;
      }
    }

    method ReadFully(b: array<int>) returns (r: Result<()>)
      ensures r == Fail(Unsupported)
    {
      r := Fail(Unsupported);
    }

    method ReadFullyRange(b: array<int>, off: int32, len: int32) returns (r: Result<()>)
      ensures r == Fail(Unsupported)
    {
      r := Fail(Unsupported);
    }

    /** Skips `n` octets. The file stream underneath moves its position by
        `n` and reports all `n` as skipped, even where that passes the end
        of the file; every read after that sees -1. */
    method SkipBytes(n: int32) returns (r: int32)
      requires n >= 0
      modifies this
      ensures pos == old(pos) + n
      ensures r == n
    {
      r := n;
      pos := pos + n;
    }

    method ReadBoolean() returns (r: bool)
      modifies this
      ensures pos == old(pos) + 1
      ensures r <==> RawAt(data, old(pos)) != 0
    {
      var u := ReadUnsignedByte();
      r := u != 0;
    }

    /** `(byte) readUnsignedByte()`: -1 at the end of the stream. */
    method ReadByte() returns (r: int)
      modifies this
      ensures pos == old(pos) + 1
      ensures r == S8(ByteAt(data, old(pos)))
      ensures old(pos) >= |data| ==> r == -1
    {
      var u := ReadUnsignedByte();
      r := S8(u % 0x100);
    }

    /** What the underlying read returns, unchanged: -1 at the end of the stream. */
    method ReadUnsignedByte() returns (r: int)
      modifies this
      ensures pos == old(pos) + 1
      ensures r == RawAt(data, old(pos))
    {
      r := Read();
    }

    method ReadShort() returns (r: int)
      modifies this
      ensures pos == old(pos) + 2
      ensures r == ShortAt(data, old(pos))
    {
      var u := ReadUnsignedShort();
      r := S16(u);
    }

    method ReadUnsignedShort() returns (r: u16)
      modifies this
      ensures pos == old(pos) + 2
      ensures r == U16LE(ByteAt(data, old(pos)), ByteAt(data, old(pos) + 1))
    {
      var b1 := Read();
      var b2 := Read();
      r := U16LE(b1 % 0x100, b2 % 0x100);
    }

    /** The unsigned 16-bit value as a UTF-16 code unit. */
    method ReadChar() returns (r: u16)
      modifies this
      ensures pos == old(pos) + 2
      ensures r == U16LE(ByteAt(data, old(pos)), ByteAt(data, old(pos) + 1))
    {
      r := ReadUnsignedShort();
    }

    /** Four octets, the first one most significant (as written). */
    method ReadInt() returns (r: int32)
      modifies this
      ensures pos == old(pos) + 4
      ensures r == IntAt(FirstByteHigh, data, old(pos))
    {
      ghost var p := pos;
      var b1 := Read();
      var b2 := Read();
      var b3 := Read();
      var b4 := Read();
      var c1, c2, c3, c4 := b1 % 0x100, b2 % 0x100, b3 % 0x100, b4 % 0x100;
      assert BytesAt(data, p, 4) == [c1, c2, c3, c4];
      FourOctets([c1, c2, c3, c4]);
      r := I32(c1 * 0x100_0000 + c2 * 0x1_0000 + c3 * 0x100 + c4);
    }

    /** Eight octets, the first one most significant (as written). */
    method ReadLong() returns (r: int64)
      modifies this
      ensures pos == old(pos) + 8
      ensures r == S64(U64FirstHigh(BytesAt(data, old(pos), 8)))
    {
      ghost var p := pos;
      var b1 := Read();
      var b2 := Read();
      var b3 := Read();
      var b4 := Read();
      var b5 := Read();
      var b6 := Read();
      var b7 := Read();
      var b8 := Read();
      var bs: seq<byte> := [b1 % 0x100, b2 % 0x100, b3 % 0x100, b4 % 0x100, b5 % 0x100, b6 % 0x100, b7 % 0x100, b8 % 0x100];
      EightOctets(data, p, bs);
      r := S64(U64FirstHigh(bs));
    }

    method ReadLine() returns (r: Result<string>)
      ensures r == Fail(Unsupported)
    {
      r := Fail(Unsupported);
    }

    method ReadUTF() returns (r: Result<string>)
      ensures r == Fail(Unsupported)
    {
      r := Fail(Unsupported);
    }
  }
}
