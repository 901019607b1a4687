/** Integers and strings as little-endian bytes. */
module Bytes {
  import opened Common

  type Int16 = i: int | -0x8000 <= i < 0x8000
  type Int64 = i: int | -0x8000_0000_0000_0000 <= i < 0x8000_0000_0000_0000

  /** 256 to the power k. */
  function Pow(k: nat): nat
    ensures Pow(k) > 0
  {
    if k == 0 then 1 else 0x100 * Pow(k - 1)
  }

  /** The k low bytes of i in two's complement, lowest first: masks and shifts as remainders and quotients. */
  function Little(i: int, k: nat): (bs: seq<Byte>)
    ensures |bs| == k
    decreases k
  {
    if k == 0 then [] else [i % 0x100] + Little(i / 0x100, k - 1)
  }

  function Unsigned(bs: seq<Byte>): nat {
    if bs == [] then 0 else bs[0] + 0x100 * Unsigned(bs[1..])
  }

  function Signed(bs: seq<Byte>): int {
    var u := Unsigned(bs);
    if 2 * u < Pow(|bs|) then u else u - Pow(|bs|)
  }

  /** C++ conversion to short: the low 16 bits in two's complement. */
  function ToInt16(i: int): (s: Int16) {
    var u := i % 0x1_0000;
    if u < 0x8000 then u else u - 0x1_0000
  }

  lemma PowValues()
    ensures Pow(0) == 1 && Pow(1) == 0x100 && Pow(2) == 0x1_0000 && Pow(4) == 0x1_0000_0000
    ensures Pow(8) == 0x1_0000_0000_0000_0000
  {
    assert Pow(3) == 0x100_0000 && Pow(4) == 0x1_0000_0000;
    assert Pow(5) == 0x100_0000_0000 && Pow(6) == 0x1_0000_0000_0000 && Pow(7) == 0x100_0000_0000_0000;
  }

  lemma {:induction false} UnsignedBound(bs: seq<Byte>)
    ensures Unsigned(bs) < Pow(|bs|)
  {
    if bs != [] {
      UnsignedBound(bs[1..]);
    }
  }

  /** The bytes determine the integer up to a multiple of 256 to the k. */
  lemma {:induction false} LittleUnsigned(i: int, k: nat) returns (q: int)
    ensures i == Unsigned(Little(i, k)) + Pow(k) * q
    decreases k
  {
    if k == 0 {
      q := i;
    } else {
      q := LittleUnsigned(i / 0x100, k - 1);
      assert Little(i, k)[1..] == Little(i / 0x100, k - 1);
      assert Pow(k) * q == 0x100 * (Pow(k - 1) * q);
    }
  }

  lemma MultipleOfZero(p: int, q: int)
    requires p > 0 && -p < p * q < p
    ensures q == 0
  {
    assert q >= 1 ==> p * q >= p;
    assert q <= -1 ==> p * q <= -p;
  }

  /** Writing k bytes and reading them back gives every signed k-byte integer again. */
  lemma SignedRoundTrip(i: int, k: nat)
    requires 0 - Pow(k) <= 2 * i < Pow(k)
    ensures Signed(Little(i, k)) == i
  {
    var q := LittleUnsigned(i, k);
    var u := Unsigned(Little(i, k));
    UnsignedBound(Little(i, k));
    if 2 * u < Pow(k) {
      MultipleOfZero(Pow(k), q);
    } else {
      assert Pow(k) * (q + 1) == Pow(k) * q + Pow(k);
      MultipleOfZero(Pow(k), q + 1);
    }
  }

  lemma UnsignedRoundTrip(n: nat, k: nat)
    requires n < Pow(k)
    ensures Unsigned(Little(n, k)) == n
  {
    var q := LittleUnsigned(n, k);
    UnsignedBound(Little(n, k));
    MultipleOfZero(Pow(k), q);
  }

  /** A length survives the detour through signed and unsigned shorts, also above 32767. */
  lemma LengthRoundTrip(n: nat)
    ensures n < 0x1_0000 ==> ToUInt16(ToInt16(n)) == n
    ensures Little(ToInt16(ToUInt16(ToInt16(n))), 2) == Little(n, 2)
  {
    var s := ToInt16(ToUInt16(ToInt16(n)));
    var q := n / 0x1_0000 + if n % 0x1_0000 < 0x8000 then 0 else 1;
    assert n == s + 0x1_0000 * q;
    SameLowBytes(n, s, q);
  }

  lemma SameLowBytes(a: int, b: int, q: int)
    requires a == b + 0x1_0000 * q
    ensures Little(a, 2) == Little(b, 2)
  {
    assert a / 0x100 == b / 0x100 + 0x100 * q;
    assert Little(a, 2) == [a % 0x100] + Little(a / 0x100, 1);
    assert Little(b, 2) == [b % 0x100] + Little(b / 0x100, 1);
  }

  /** Reading two bytes as a short and converting to unsigned short is reading them unsigned. */
  lemma ShortAsUnsigned(bs: seq<Byte>)
    requires |bs| == 2
    ensures -0x8000 <= Signed(bs) < 0x8000 && ToUInt16(Signed(bs)) == Unsigned(bs)
  {
    PowValues();
    UnsignedBound(bs);
  }

  // ---------- reading from the front of the unread bytes

  /** A value and the bytes left, or an exception and the bytes left when it was thrown. */
  datatype Got<+T> = Got(value: T, rest: seq<Byte>) | Short(rest: seq<Byte>) {
    predicate IsFailure() { Short? }
    function PropagateFailure<U>(): Got<U> requires Short? { Short(rest) }
    function Extract(): (T, seq<Byte>) requires Got? { (value, rest) }
  }

  function TakeChar(bs: seq<Byte>): Got<Byte> {
    if |bs| < 1 then Short(bs) else Got(bs[0], bs[1..])
  }

  function TakeShort(bs: seq<Byte>): Got<Int16> {
    if |bs| < 2 then Short(bs) else ShortAsUnsigned(bs[..2]); Got(Signed(bs[..2]), bs[2..])
  }

  function TakeInt(bs: seq<Byte>): Got<Int32> {
    if |bs| < 4 then Short(bs) else SignedRange(bs[..4]); Got(Signed(bs[..4]), bs[4..])
  }

  function TakeLong(bs: seq<Byte>): Got<Int64> {
    if |bs| < 8 then Short(bs) else SignedRange(bs[..8]); Got(Signed(bs[..8]), bs[8..])
  }

  function TakeText(bs: seq<Byte>): Got<Text> {
    if |bs| < 2 then Short(bs)
    else
      var n, rest := Unsigned(bs[..2]), bs[2..];
      if n > |rest| then Short(rest) else Got(rest[..n], rest[n..])
  }

  lemma SignedRange(bs: seq<Byte>)
    ensures 0 - Pow(|bs|) <= 2 * Signed(bs) < Pow(|bs|)
    ensures Pow(4) == 0x1_0000_0000 && Pow(8) == 0x1_0000_0000_0000_0000
  {
    UnsignedBound(bs);
    PowValues();
  }

  function EncodeInt(i: Int32): seq<Byte> {
    Little(i, 4)
  }

  function EncodeText(t: Text): seq<Byte> {
    Little(|t|, 2) + t
  }

  lemma TakeIntBack(i: Int32, rest: seq<Byte>)
    ensures TakeInt(EncodeInt(i) + rest) == Got(i, rest)
  {
    PowValues();
    SignedRoundTrip(i, 4);
    assert (EncodeInt(i) + rest)[..4] == EncodeInt(i) && (EncodeInt(i) + rest)[4..] == rest;
  }

  lemma TakeLongBack(l: Int64, rest: seq<Byte>)
    ensures TakeLong(Little(l, 8) + rest) == Got(l, rest)
  {
    PowValues();
    SignedRoundTrip(l, 8);
    assert (Little(l, 8) + rest)[..8] == Little(l, 8) && (Little(l, 8) + rest)[8..] == rest;
  }

  lemma TakeShortBack(s: Int16, rest: seq<Byte>)
    ensures TakeShort(Little(s, 2) + rest) == Got(s, rest)
  {
    PowValues();
    SignedRoundTrip(s, 2);
    assert (Little(s, 2) + rest)[..2] == Little(s, 2) && (Little(s, 2) + rest)[2..] == rest;
  }

  lemma LengthBytes(n: UInt16)
    ensures Unsigned(Little(n, 2)) == n
  {
    PowValues();
    UnsignedRoundTrip(n, 2);
  }

  lemma Split(a: seq<Byte>, b: seq<Byte>)
    ensures (a + b)[..|a|] == a && (a + b)[|a|..] == b
  {
  }

  lemma TakeTextBack(t: Text, rest: seq<Byte>)
    requires |t| < 0x1_0000
    ensures TakeText(EncodeText(t) + rest) == Got(t, rest)
  {
    LengthBytes(|t|);
    Split(Little(|t|, 2), t + rest);
    Split(t, rest);
    assert EncodeText(t) + rest == Little(|t|, 2) + (t + rest);
  }

  /** A string cut behind its length: the length is consumed, the bytes there are stay unread. */
  lemma TextCut(n: UInt16, t: seq<Byte>)
    requires |t| < n
    ensures TakeText(Little(n, 2) + t) == Short(t)
  {
    LengthBytes(n);
    Split(Little(n, 2), t);
  }

  /** An integer that is cut consumes nothing. */
  lemma NumbersCut(bs: seq<Byte>)
    ensures |bs| < 2 ==> TakeShort(bs) == Short(bs) && TakeText(bs) == Short(bs)
    ensures |bs| < 4 ==> TakeInt(bs) == Short(bs)
    ensures |bs| < 8 ==> TakeLong(bs) == Short(bs)
  {
  }
}
