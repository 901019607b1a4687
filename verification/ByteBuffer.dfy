/** A fixed-size byte buffer with a write cursor (the number of bytes used) and a read cursor. */
module ByteBuffer {
  import opened Common
  import opened Bytes

  /** Bytes written so far, and how many of them were read. */
  datatype Buf = Buf(content: seq<Byte>, read: nat)

  type Cursor = b: Buf | b.read <= |b.content| witness Buf([], 0)

  class ByteBuffer {
    const buf: array<Byte>
    var used: nat
    var read: nat

    ghost predicate Valid()
      reads this
    {
      read <= used <= buf.Length
    }

    ghost function Content(): (content: seq<Byte>)
      requires Valid()
      reads this, buf
      ensures |content| == used
    {
      buf[..used]
    }

    ghost function Unread(): (unread: seq<Byte>)
      requires Valid()
      reads this, buf
      ensures |unread| == used - read
    {
      buf[read..used]
    }

    ghost function State(): (b: Buf)
      requires Valid()
      reads this, buf
      ensures b.read <= |b.content|
    {
      Buf(Content(), read)
    }

    constructor (size: nat)
      ensures Valid() && fresh(buf) && buf.Length == size && State() == Buf([], 0)
    {
      buf := new Byte[size](i => 0);
      used, read := 0, 0;
    }

    method Reset()
      modifies this
      ensures Valid() && State() == Buf([], 0)
    {
      used, read := 0, 0;
    }

    method SetReadPos(rp: nat)
      requires Valid() && rp <= used
      modifies this`read
      ensures Valid() && read == rp && Content() == old(Content())
    {
      read := rp;
    }

    method SetWritePos(wp: nat)
      requires Valid() && read <= wp <= buf.Length
      modifies this`used
      ensures Valid() && used == wp
      ensures wp <= old(used) ==> Content() == old(Content())[..wp]
      ensures old(used) <= wp ==> Content()[..old(used)] == old(Content())
    {
      used := wp;
    }

    /** memcpy to the append position. */
    method Copy(bs: seq<Byte>)
      requires Valid() && used + |bs| <= buf.Length
      modifies this`used, buf
      ensures Valid() && read == old(read) && Content() == old(Content()) + bs
    {
      for i := 0 to |bs|
        invariant used == old(used) && buf[..used] == old(buf[..used]) && buf[used..used + i] == bs[..i]
      {
        buf[used + i] := bs[i];
      }
      used := used + |bs|;
      assert buf[..used] == old(buf[..used]) + bs;
    }

    /** `other` is left as it is; without strict room nothing is copied. */
    method AppendContent(other: ByteBuffer) returns (ok: bool)
      requires Valid() && other.Valid() && other != this && other.buf != buf
      modifies this`used, buf
      ensures Valid() && read == old(read)
      ensures ok == (other.used < buf.Length - old(used))
      ensures Content() == if ok then old(Content()) + other.Content() else old(Content())
    {
      ok := other.used < buf.Length - used;
      if ok {
        Copy(other.buf[..other.used]);
      }
    }

    /** The unread bytes move to the front, copied forward one by one over a range they may overlap. */
    method Compact()
      requires Valid()
      modifies this, buf
      ensures Valid() && State() == Buf(old(Unread()), 0)
    {
      var usedLen := used - read;
      for i := 0 to usedLen
        invariant used == old(used) && read == old(read) && usedLen == used - read
        invariant forall j :: 0 <= j < i ==> buf[j] == old(buf[read + j])
        invariant forall j :: i <= j < buf.Length ==> buf[j] == old(buf[j])
      {
        buf[i] := buf[read + i];
      }
      read, used := 0, usedLen;
    }

    // ---------- writing: without strict room nothing happens

    ghost predicate Appended(before: seq<Byte>, bs: seq<Byte>)
      requires Valid()
      reads this, buf
    {
      Content() == if |bs| + |before| < buf.Length then before + bs else before
    }

    method WriteChar(c: Byte)
      requires Valid()
      modifies this`used, buf
      ensures Valid() && read == old(read) && Appended(old(Content()), [c])
      ensures old(used) + 1 < buf.Length ==> buf[..] == old(buf[..])[old(used) := c]
    {
      if 1 + used < buf.Length {
        buf[used] := c;
        used := used + 1;
      }
    }

    method WriteShort(s: Int16)
      requires Valid()
      modifies this`used, buf
      ensures Valid() && read == old(read) && Appended(old(Content()), Little(s, 2))
      ensures old(used) + 2 < buf.Length ==>
                buf[..] == old(buf[..])[old(used) := s % 0x100][old(used) + 1 := (s / 0x100) % 0x100]
    {
      if 2 + used < buf.Length {
        buf[used] := s % 0x100;
        buf[used + 1] := (s / 0x100) % 0x100;
        LittleTwo(s);
        used := used + 2;
        assert buf[..used] == old(buf[..used]) + [s % 0x100, (s / 0x100) % 0x100];
      }
    }

    method WriteInt(i: Int32)
      requires Valid()
      modifies this`used, buf
      ensures Valid() && read == old(read) && Appended(old(Content()), Little(i, 4))
    {
      if 4 + used < buf.Length {
        buf[used] := i % 0x100;
        buf[used + 1] := (i / 0x100) % 0x100;
        buf[used + 2] := (i / 0x1_0000) % 0x100;
        buf[used + 3] := (i / 0x100_0000) % 0x100;
        LittleFour(i);
        used := used + 4;
        assert buf[..used] == old(buf[..used]) + Little(i, 4);
      }
    }

    method WriteLong(l: Int64)
      requires Valid()
      modifies this`used, buf
      ensures Valid() && read == old(read) && Appended(old(Content()), Little(l, 8))
    {
      if 8 + used < buf.Length {
        buf[used] := l % 0x100;
        buf[used + 1] := (l / 0x100) % 0x100;
        buf[used + 2] := (l / 0x1_0000) % 0x100;
        buf[used + 3] := (l / 0x100_0000) % 0x100;
        buf[used + 4] := (l / 0x1_0000_0000) % 0x100;
        buf[used + 5] := (l / 0x100_0000_0000) % 0x100;
        buf[used + 6] := (l / 0x1_0000_0000_0000) % 0x100;
        buf[used + 7] := (l / 0x100_0000_0000_0000) % 0x100;
        LittleEight(l);
        used := used + 8;
        assert buf[..used] == old(buf[..used]) + Little(l, 8);
      }
    }

    method WriteString(str: Text)
      requires Valid()
      modifies this`used, buf
      ensures Valid() && read == old(read) && Appended(old(Content()), EncodeText(str))
    {
      if |str| + 2 + used < buf.Length {
        var strLen := ToUInt16(ToInt16(|str|));
        LengthRoundTrip(|str|);
        WriteShort(ToInt16(strLen));
        Copy(str);
      }
    }

    // ---------- reading: None where the source throws

    ghost predicate Took<T>(before: seq<Byte>, got: Got<T>, result: Option<T>)
      requires Valid()
      reads this, buf
    {
      && Unread() == got.rest
      && result == match got case Got(v, rest) => Some(v) case Short(rest) => None
    }

    method ReadChar() returns (c: Option<Byte>)
      requires Valid()
      modifies this`read
      ensures Valid() && Content() == old(Content()) && Took(old(Unread()), TakeChar(old(Unread())), c)
    {
      if read + 1 > used {
        return None;
      }
      c := Some(buf[read]);
      read := read + 1;
    }

    method ReadShort() returns (s: Option<Int16>)
      requires Valid()
      modifies this`read
      ensures Valid() && Content() == old(Content()) && Took(old(Unread()), TakeShort(old(Unread())), s)
    {
      if read + 2 > used {
        return None;
      }
      ghost var bs := Unread();
      var u := buf[read] as int + 0x100 * (buf[read + 1] as int);
      TwoBytes(bs[..2]);
      s := Some(ToInt16(u));
      read := read + 2;
      assert Unread() == bs[2..];
    }

    method ReadInt() returns (i: Option<Int32>)
      requires Valid()
      modifies this`read
      ensures Valid() && Content() == old(Content()) && Took(old(Unread()), TakeInt(old(Unread())), i)
    {
      if read + 4 > used {
        return None;
      }
      ghost var bs := Unread();
      var u := buf[read] as int + 0x100 * (buf[read + 1] as int)
               + 0x1_0000 * (buf[read + 2] as int) + 0x100_0000 * (buf[read + 3] as int);
      FourBytes(bs[..4]);
      i := Some(ToInt32(u));
      read := read + 4;
      assert Unread() == bs[4..];
    }

    method ReadLong() returns (l: Option<Int64>)
      requires Valid()
      modifies this`read
      ensures Valid() && Content() == old(Content()) && Took(old(Unread()), TakeLong(old(Unread())), l)
    {
      if read + 8 > used {
        return None;
      }
      ghost var bs := Unread();
      var low := buf[read] as int + 0x100 * (buf[read + 1] as int)
                 + 0x1_0000 * (buf[read + 2] as int) + 0x100_0000 * (buf[read + 3] as int);
      var high := buf[read + 4] as int + 0x100 * (buf[read + 5] as int)
                  + 0x1_0000 * (buf[read + 6] as int) + 0x100_0000 * (buf[read + 7] as int);
      EightBytes(bs[..8]);
      l := Some(low + 0x1_0000_0000 * ToInt32(high));
      read := read + 8;
      assert Unread() == bs[8..];
    }

    method ReadString() returns (str: Option<Text>)
      requires Valid()
      modifies this`read
      ensures Valid() && Content() == old(Content()) && Took(old(Unread()), TakeText(old(Unread())), str)
    {
      ghost var bs := Unread();
      var s := ReadShort();
      if s == None {
        return None;
      }
      var strSize := ToUInt16(s.value);
      ShortAsUnsigned(bs[..2]);
      assert buf[read..used] == bs[2..];
      if strSize + read > used {
        return None;
      }
      str := Some(buf[read..read + strSize]);
      assert str.value == bs[2..][..strSize];
      read := read + strSize;
      assert Unread() == bs[2..][strSize..];
    }
  }

  lemma LittleTwo(s: int)
    ensures Little(s, 2) == [s % 0x100, (s / 0x100) % 0x100]
  {
    assert Little(s / 0x100, 1) == [(s / 0x100) % 0x100];
  }

  lemma LittleFour(i: int)
    ensures Little(i, 4) == [i % 0x100, (i / 0x100) % 0x100, (i / 0x1_0000) % 0x100, (i / 0x100_0000) % 0x100]
  {
    assert i / 0x100 / 0x100 == i / 0x1_0000;
    LittleTwo(i);
    LittleTwo(i / 0x1_0000);
    assert i / 0x1_0000 / 0x100 == i / 0x100_0000;
    assert Little(i, 4) == [i % 0x100] + ([(i / 0x100) % 0x100] + Little(i / 0x1_0000, 2));
  }

  lemma LittleEight(l: int)
    ensures Little(l, 8) == [l % 0x100, (l / 0x100) % 0x100, (l / 0x1_0000) % 0x100, (l / 0x100_0000) % 0x100,
                             (l / 0x1_0000_0000) % 0x100, (l / 0x100_0000_0000) % 0x100,
                             (l / 0x1_0000_0000_0000) % 0x100, (l / 0x100_0000_0000_0000) % 0x100]
  {
    var high := l / 0x1_0000_0000;
    LittleFour(l);
    LittleFour(high);
    Quotients(l);
    assert Little(l, 8) == [l % 0x100] + ([(l / 0x100) % 0x100] + ([(l / 0x1_0000) % 0x100] +
                           ([(l / 0x100_0000) % 0x100] + Little(high, 4))));
  }

  lemma Quotients(l: int)
    ensures l / 0x100 / 0x100 == l / 0x1_0000 && l / 0x1_0000 / 0x100 == l / 0x100_0000
    ensures l / 0x100_0000 / 0x100 == l / 0x1_0000_0000
    ensures var high := l / 0x1_0000_0000;
            && high / 0x100 == l / 0x100_0000_0000 && high / 0x1_0000 == l / 0x1_0000_0000_0000
            && high / 0x100_0000 == l / 0x100_0000_0000_0000
  {
  }

  lemma TwoBytes(bs: seq<Byte>)
    requires |bs| == 2
    ensures Signed(bs) == ToInt16(bs[0] as int + 0x100 * (bs[1] as int))
  {
    PowValues();
    assert Unsigned(bs[1..]) == bs[1];
  }

  lemma FourBytes(bs: seq<Byte>)
    requires |bs| == 4
    ensures Signed(bs) == ToInt32(bs[0] as int + 0x100 * (bs[1] as int)
                                  + 0x1_0000 * (bs[2] as int) + 0x100_0000 * (bs[3] as int))
  {
    PowValues();
    assert bs[1..][1..] == bs[2..] && bs[2..][1..] == bs[3..];
    assert Unsigned(bs[3..]) == bs[3];
    assert Unsigned(bs[2..]) == bs[2] as int + 0x100 * (bs[3] as int);
    assert Unsigned(bs[1..]) == bs[1] as int + 0x100 * Unsigned(bs[2..]);
  }

  /** The sign of eight bytes is the sign of their upper half. */
  lemma EightBytes(bs: seq<Byte>)
    requires |bs| == 8
    ensures var low := bs[0] as int + 0x100 * (bs[1] as int) + 0x1_0000 * (bs[2] as int) + 0x100_0000 * (bs[3] as int);
            var high := bs[4] as int + 0x100 * (bs[5] as int) + 0x1_0000 * (bs[6] as int) + 0x100_0000 * (bs[7] as int);
            high < 0x1_0000_0000 && Signed(bs) == low + 0x1_0000_0000 * ToInt32(high)
  {
    PowValues();
    FourBytes(bs[4..]);
    UnsignedBound(bs[4..]);
    assert bs[1..][1..] == bs[2..] && bs[2..][1..] == bs[3..] && bs[3..][1..] == bs[4..];
    assert Unsigned(bs[3..]) == bs[3] as int + 0x100 * Unsigned(bs[4..]);
    assert Unsigned(bs[2..]) == bs[2] as int + 0x100 * Unsigned(bs[3..]);
    assert Unsigned(bs[1..]) == bs[1] as int + 0x100 * Unsigned(bs[2..]);
  }
}
