/** Fixed-width unsigned integers and their little- and big-endian byte forms. */
module Bytes {

  type u8 = x: int | 0 <= x < 0x100
  type u16 = x: int | 0 <= x < 0x1_0000
  type u32 = x: int | 0 <= x < 0x1_0000_0000
  type u64 = x: int | 0 <= x < 0x1_0000_0000_0000_0000

  const U32_MAX: nat := 0xffff_ffff

  /** 256 to the power `n`: one more than the largest number `n` bytes can hold. */
  function ByteRange(n: nat): (p: nat)
    ensures p > 0
  {
    if n == 0 then 1 else 0x100 * ByteRange(n - 1)
  }

  function LeValue(bytes: seq<u8>): (v: nat)
    ensures v < ByteRange(|bytes|)
  {
    if bytes == [] then 0 else bytes[0] + 0x100 * LeValue(bytes[1..])
  }

  function LeBytes(v: nat, n: nat): (bytes: seq<u8>)
    requires v < ByteRange(n)
    ensures |bytes| == n && LeValue(bytes) == v
  {
    if n == 0 then [] else [v % 0x100] + LeBytes(v / 0x100, n - 1)
  }

  function BeValue(bytes: seq<u8>): (v: nat)
    ensures v < ByteRange(|bytes|)
  {
    if bytes == [] then 0 else 0x100 * BeValue(bytes[..|bytes| - 1]) + bytes[|bytes| - 1]
  }

  function BeBytes(v: nat, n: nat): (bytes: seq<u8>)
    requires v < ByteRange(n)
    ensures |bytes| == n && BeValue(bytes) == v
  {
    if n == 0 then [] else BeBytes(v / 0x100, n - 1) + [v % 0x100]
  }

  lemma SameDigits(high: nat, low: u8, high': nat, low': u8)
    requires 0x100 * high + low == 0x100 * high' + low'
    ensures high == high' && low == low'
  {
  }

  /** Two byte strings of one length with one little-endian value are equal. */
  lemma {:induction false} LeValueInjective(a: seq<u8>, b: seq<u8>)
    requires |a| == |b| && LeValue(a) == LeValue(b)
    ensures a == b
  {
    if a != [] {
      SameDigits(LeValue(a[1..]), a[0], LeValue(b[1..]), b[0]);
      LeValueInjective(a[1..], b[1..]);
      assert a == [a[0]] + a[1..] && b == [b[0]] + b[1..];
    }
  }

  lemma {:induction false} BeValueInjective(a: seq<u8>, b: seq<u8>)
    requires |a| == |b| && BeValue(a) == BeValue(b)
    ensures a == b
  {
    if a != [] {
      SameDigits(BeValue(a[..|a| - 1]), a[|a| - 1], BeValue(b[..|b| - 1]), b[|b| - 1]);
      BeValueInjective(a[..|a| - 1], b[..|b| - 1]);
      assert a == a[..|a| - 1] + [a[|a| - 1]] && b == b[..|b| - 1] + [b[|b| - 1]];
    }
  }

  /** What the first four bytes spell with the most significant first. */
  function BigEndian32(bytes: seq<u8>): u32
    requires |bytes| >= 4
  {
    0x100_0000 * bytes[0] as int + 0x1_0000 * bytes[1] as int + 0x100 * bytes[2] as int + bytes[3] as int
  }

  /** What the first four bytes spell with the least significant first. */
  function LittleEndian32(bytes: seq<u8>): u32
    requires |bytes| >= 4
  {
    bytes[0] as int + 0x100 * bytes[1] as int + 0x1_0000 * bytes[2] as int + 0x100_0000 * bytes[3] as int
  }

  function LittleEndian16(bytes: seq<u8>): u16
    requires |bytes| >= 2
  {
    bytes[0] as int + 0x100 * bytes[1] as int
  }

  lemma BeValueOfFour(bytes: seq<u8>)
    requires |bytes| == 4
    ensures BeValue(bytes) == BigEndian32(bytes)
  {
    var three, two, one := bytes[..3], bytes[..2], bytes[..1];
    assert three[..2] == two && two[..1] == one && one[..0] == [];
    assert BeValue(one) == bytes[0];
    assert BeValue(two) == 0x100 * BeValue(one) + bytes[1];
    assert BeValue(three) == 0x100 * BeValue(two) + bytes[2];
  }

  lemma LeValueOfTwo(bytes: seq<u8>)
    requires |bytes| == 2
    ensures LeValue(bytes) == LittleEndian16(bytes)
  {
    assert LeValue(bytes[1..]) == bytes[1] + 0x100 * LeValue(bytes[1..][1..]);
  }

  lemma LeValueOfFour(bytes: seq<u8>)
    requires |bytes| == 4
    ensures LeValue(bytes) == LittleEndian32(bytes)
  {
    var three, two := bytes[1..], bytes[2..];
    assert three[1..] == two;
    LeValueOfTwo(two);
    assert LeValue(three) == bytes[1] + 0x100 * LeValue(two);
  }

  /** `v` moved up by `n` bytes. */
  function ShiftBytes(v: nat, n: nat): nat {
    if n == 0 then v else 0x100 * ShiftBytes(v, n - 1)
  }

  lemma ShiftWords(v: nat)
    ensures ShiftBytes(v, 1) == 0x100 * v
    ensures ShiftBytes(v, 2) == 0x1_0000 * v
    ensures ShiftBytes(v, 4) == 0x1_0000_0000 * v
  {
    assert ShiftBytes(v, 1) == 0x100 * v;
    assert ShiftBytes(v, 2) == 0x1_0000 * v;
    assert ShiftBytes(v, 3) == 0x100_0000 * v;
  }

  /** Appended bytes count from just above the ones before them. */
  lemma {:induction false} LeValueSplit(low: seq<u8>, high: seq<u8>)
    ensures LeValue(low + high) == LeValue(low) + ShiftBytes(LeValue(high), |low|)
  {
    if low == [] {
      assert low + high == high;
    } else {
      assert (low + high)[1..] == low[1..] + high;
      LeValueSplit(low[1..], high);
    }
  }

  lemma WordRanges()
    ensures ByteRange(1) == 0x100 && ByteRange(2) == 0x1_0000
    ensures ByteRange(4) == 0x1_0000_0000 && ByteRange(8) == 0x1_0000_0000_0000_0000
  {
    assert ByteRange(3) == 0x100_0000;
    assert ByteRange(5) == 0x100_0000_0000;
    assert ByteRange(6) == 0x1_0000_0000_0000;
    assert ByteRange(7) == 0x100_0000_0000_0000;
  }
}
