/** The little-endian data output stream the codecs write with
    (DataOutputStreamLE). The underlying file stream becomes the sequence of
    octets it has received. */
module OutputLE {
  import opened Bytes
  import opened Results
  import InputLE

  /** `0xFF & v`. Dafny's `%` is Euclidean, so this is the low octet of the
      two's-complement form for negative `v` too. */
  function LowByte(v: int): (r: byte)
    ensures (v - r) % 0x100 == 0
  {
    v % 0x100
  }

  /** An octet value is its own low octet. */
  lemma LowByteOfOctet(v: int)
    requires 0 <= v < 0x100
    ensures LowByte(v) == v
  {
  }

  /** The octets writeShort(v) emits: `v & 0xFF`, then `(v >> 8) & 0xFF`
      (an arithmetic shift is a floor division, which Dafny's `/` is for a
      positive divisor). */
  function ShortBytes(v: int): (r: seq<byte>)
    ensures |r| == 2
  {
    [LowByte(v), LowByte(v / 0x100)]
  }

  /** The octets writeInt(v) emits, least significant first. */
  function IntBytes(v: int): (r: seq<byte>)
    ensures |r| == 4
  {
    [LowByte(v), LowByte(v / 0x100), LowByte(v / 0x1_0000), LowByte(v / 0x100_0000)]
  }

  /** The octets writeChars(s) emits: each UTF-16 code unit of `s` in order,
      low octet first. */
  function CharsBytes(s: seq<u16>): (r: seq<byte>)
    ensures |r| == 2 * |s|
    ensures forall i :: 0 <= i < |s| ==> r[2 * i] == s[i] % 0x100 && r[2 * i + 1] == s[i] / 0x100
  {
    if s == [] then []
    else CharsBytes(s[..|s| - 1]) + ShortBytes(s[|s| - 1])
  }

  /** The octets writeBytes(s) emits: the low octet of each UTF-16 code
      unit of `s`, in order; the high octets are dropped. */
  function CharsLowBytes(s: seq<u16>): (r: seq<byte>)
    ensures |r| == |s| && forall i :: 0 <= i < |s| ==> r[i] == s[i] % 0x100
  {
    seq(|s|, i requires 0 <= i < |s| => LowByte(s[i]))
  }

  /** 256 to the `n`th. */
  function OctetPower(n: nat): (r: nat)
    ensures r >= 1
  {
    if n == 0 then 1 else 0x100 * OctetPower(n - 1)
  }

  /** The low `n` octets of `v`, least significant first. */
  function LowOctets(v: int, n: nat): (r: seq<byte>)
    ensures |r| == n
    decreases n
  {
    if n == 0 then [] else [LowByte(v)] + LowOctets(v / 0x100, n - 1)
  }

  /** The octets writeLong(v) is meant to emit: the eight octets of `v`,
      least significant first, as writeInt does for four. */
  function LongBytes(v: int): (r: seq<byte>)
    ensures |r| == 8
  {
    LowOctets(v, 8)
  }

  /** `s` back to front. */
  function Reversed(s: seq<byte>): (r: seq<byte>)
    ensures |r| == |s| && forall k :: 0 <= k < |s| ==> r[k] == s[|s| - 1 - k]
  {
    seq(|s|, k requires 0 <= k < |s| => s[|s| - 1 - k])
  }

  /** Octets composed least significant first stay below 256 to the power
      of their count. */
  lemma {:induction false} LittleEndianBelow(bs: seq<byte>)
    ensures InputLE.LittleEndian(bs) < OctetPower(|bs|)
  {
    if bs != [] {
      LittleEndianBelow(bs[1..]);
    }
  }

  /** `Long.reverseBytes(v)`: the `long` whose octets are those of `v` in
      reverse order. */
  function ReverseBytes(v: int): int64
  {
    var rs := Reversed(LongBytes(v));
    LittleEndianBelow(rs);
    assert OctetPower(8) == 0x1_0000_0000_0000_0000;
    S64(InputLE.LittleEndian(rs))
  }

  /** The value `vLE` holds in writeLong once its first `j` octets have been
      shifted out: the octets `rs[j..]` composed least significant first,
      less 256^(|rs| - j) when the value started out negative. */
  function Shifted(rs: seq<byte>, j: nat, negative: bool): int
    requires j <= |rs|
  {
    InputLE.LittleEndian(rs[j..]) - if negative then OctetPower(|rs| - j) else 0
  }

  /** `vLE & 0xFF` is the next octet, and `vLE >>= 8` moves on to the one
      after it. */
  lemma OctetStep(rs: seq<byte>, j: nat, negative: bool)
    requires j < |rs|
    ensures LowByte(Shifted(rs, j, negative)) == rs[j]
    ensures Shifted(rs, j, negative) / 0x100 == Shifted(rs, j + 1, negative)
  {
    assert rs[j..][1..] == rs[j + 1..];
    var l: int := InputLE.LittleEndian(rs[j + 1..]);
    var p: int := OctetPower(|rs| - j - 1);
    assert OctetPower(|rs| - j) == 0x100 * p;
    var b := Shifted(rs, j + 1, negative);
    assert b == l - if negative then p else 0;
    assert Shifted(rs, j, negative) == rs[j] + 0x100 * b;
    OctetAndRest(rs[j], b);
  }

  /** An octet below a multiple of 256 is split off again by `& 0xFF` and `>> 8`. */
  lemma OctetAndRest(d: byte, b: int)
    ensures LowByte(d + 0x100 * b) == d && (d + 0x100 * b) / 0x100 == b
  {
  }

  class DataOutputStreamLE {
    /** Everything the underlying stream has received, in order. */
    var bytes: seq<byte>

    constructor ()
      ensures bytes == []
    {
      bytes := [];
    }

    /** The underlying `out.write(int)`: the low eight bits of `v`. */
    method WriteOctet(v: int)
      modifies this
      ensures bytes == old(bytes) + [LowByte(v)]
    {
      bytes := bytes + [LowByte(v)];
    }

    /** `write(b, off, len)`: the octets `b[off..off+len)`, unchanged and
        nothing else; out-of-range bounds throw before anything is written.
        A Java byte array is given by the octets it holds. */
    method Write(b: seq<byte>, off: int, len: int) returns (ok: bool)
      modifies this
      ensures ok <==> 0 <= off && 0 <= len && off + len <= |b|
      ensures ok ==> bytes == old(bytes) + b[off..off + len]
      ensures !ok ==> bytes == old(bytes)
    {
      ok := 0 <= off && 0 <= len && off + len <= |b|;
      if ok {
        bytes := bytes + b[off..off + len];
      }
    }

    /** `write(b)`, which the filter stream forwards as `write(b, 0, b.length)`. */
    method WriteAll(b: seq<byte>)
      modifies this
      ensures bytes == old(bytes) + b
    {
      var ok := Write(b, 0, |b|);
      assert b[0..|b|] == b;
    }

    /** writeBoolean, which `java.io.DataOutputStream` carries out: one
        octet, 1 for true and 0 for false. */
    method WriteBoolean(v: bool)
      modifies this
      ensures bytes == old(bytes) + [if v then 1 else 0]
    {
      WriteOctet(if v then 1 else 0);
    }

    /** The low eight bits of `v`. */
    method WriteByte(v: int32)
      modifies this
      ensures bytes == old(bytes) + [LowByte(v)]
    {
      WriteOctet(v);
    }

    method WriteShort(v: int32)
      modifies this
      ensures bytes == old(bytes) + ShortBytes(v)
    {
      WriteOctet(v);
      WriteOctet(v / 0x100);
    }

    /** The same octets as writeShort. */
    method WriteChar(v: int32)
      modifies this
      ensures bytes == old(bytes) + ShortBytes(v)
    {
      WriteShort(v);
    }

    method WriteInt(v: int32)
      modifies this
      ensures bytes == old(bytes) + IntBytes(v)
    {
      WriteOctet(v);
      WriteOctet(v / 0x100);
      WriteOctet(v / 0x1_0000);
      WriteOctet(v / 0x100_0000);
    }

    /** writeLong as written: its loop over the eight-element array starts
        at index 7 and counts up, so its second pass indexes element 8 and
        throws before anything reaches the stream. */
    method WriteLong(v: int64) returns (r: Result<()>)
      ensures r == Fail(IndexOutOfBounds)
    {
      var buf := new byte[8];
      var vLE: int := ReverseBytes(v);
      var i := 7;
      while i >= 0
        invariant 7 <= i <= 8
        decreases 8 - i
      {
        if i >= buf.Length {
          return Fail(IndexOutOfBounds);
        }
        buf[i] := LowByte(vLE);
        vLE := vLE / 0x100;
        i := i + 1;
      }
      assert false;
    }

    /** writeLong as evidently intended, its loop counting down from index 7:
        the array takes the octets of `Long.reverseBytes(v)` from its last
        element back, which leaves the octets of `v` least significant
        first, and `write(bytes, 0, 8)` sends them on. */
    method WriteLongCorrected(v: int64)
      modifies this
      ensures bytes == old(bytes) + LongBytes(v)
    {
      var buf := new byte[8];
      ghost var rs := Reversed(LongBytes(v));
      ghost var negative := InputLE.LittleEndian(rs) >= 0x8000_0000_0000_0000;
      var vLE: int := ReverseBytes(v);
      assert rs[0..] == rs && OctetPower(8) == 0x1_0000_0000_0000_0000;
      var i := 7;
      while i >= 0
        invariant -1 <= i <= 7
        invariant vLE == Shifted(rs, 7 - i, negative)
        invariant forall k :: i < k < 8 ==> buf[k] == LongBytes(v)[k]
        invariant bytes == old(bytes)
        decreases i
      {
        OctetStep(rs, 7 - i, negative);
        buf[i] := LowByte(vLE);
        vLE := vLE / 0x100;
        i := i - 1;
      }
      assert buf[..] == LongBytes(v);
      assert buf[..][0..buf.Length] == buf[..];
      var ok := Write(buf[..], 0, buf.Length);
    }

    /** writeBytes, which `java.io.DataOutputStream` carries out: one octet
        per code unit. */
    method WriteBytes(s: seq<u16>)
      modifies this
      ensures bytes == old(bytes) + CharsLowBytes(s)
    {
      bytes := bytes + CharsLowBytes(s);
    }

    method WriteUTF(s: seq<u16>) returns (r: Result<()>)
      ensures r == Fail(Unsupported)
    {
      r := Fail(Unsupported);
    }

    method WriteChars(s: seq<u16>)
      modifies this
      ensures bytes == old(bytes) + CharsBytes(s)
    {
      var i := 0;
      while i < |s|
        invariant 0 <= i <= |s|
        invariant bytes == old(bytes) + CharsBytes(s[..i])
      {
        WriteChar(s[i]);
        assert s[..i + 1][..i] == s[..i];
        i := i + 1;
      }
      assert s[..|s|] == s;
    }
  }
}
