/** Receiving: at most one packet is parsed from the unread bytes of a buffer per call. */
module PacketHandler {
  import opened Common
  import opened Bytes
  import opened Codec
  import opened Slots
  import B = ByteBuffer

  /** What a call of handlePacket does: returns null, returns a packet, or throws. */
  datatype Outcome = Nothing | Delivered(packet: Packet) | Thrown

  function Unread(b: B.Buf): seq<Byte>
    requires b.read <= |b.content|
  {
    b.content[b.read..]
  }

  /** The class registered for the opcode reads the unread bytes, beyond the stated length if it wants to. */
  function Parse(side: Side, opcode: Byte, b: B.Buf): (r: (B.Buf, Outcome))
    requires b.read <= |b.content| && Known(opcode)
    ensures r.0.read <= |r.0.content| == |b.content|
  {
    DecodeRest(side, opcode, Unread(b));
    match Decode(side, opcode, Unread(b))
    case Got(p, rest) => (B.Buf(b.content, |b.content| - |rest|), Delivered(p))
    case Short(rest) => (B.Buf(b.content, |b.content| - |rest|), Thrown)
  }

  /** handlePacket on the written bytes and the read cursor of a buffer of capacity `cap`. */
  function Handle(side: Side, cap: nat, b: B.Buf): (r: (B.Buf, Outcome))
    requires b.read <= |b.content|
    ensures r.0.read <= |r.0.content| <= |b.content|
  {
    var unread := Unread(b);
    if unread == [] then (b, Nothing)
    else if |unread| < 3 then (B.Buf(b.content, b.read + 1), Thrown)
    else
      var size, behind := Unsigned(unread[1..3]), B.Buf(b.content, b.read + 3);
      if size > cap && b.read == 0 then (behind, Thrown)
      else if size > |unread| - 3 then (B.Buf(unread, 0), Nothing)
      else if !Known(unread[0]) then (behind, Thrown)
      else Parse(side, unread[0], behind)
  }

  /** rest is what remains after some bytes of bs. */
  predicate EndOf(rest: seq<Byte>, bs: seq<Byte>) {
    |rest| <= |bs| && rest == bs[|bs| - |rest|..]
  }

  lemma Takes(bs: seq<Byte>, rest: seq<Byte>)
    requires EndOf(rest, bs)
    ensures EndOf(TakeText(rest).rest, bs) && EndOf(TakeInt(rest).rest, bs)
  {
  }

  lemma TakeSlotRest(bs: seq<Byte>, all: seq<Byte>)
    requires EndOf(bs, all)
    ensures EndOf(TakeSlot(bs).rest, all)
  {
    Takes(all, bs);
    Takes(all, TakeInt(bs).rest);
  }

  lemma {:induction false} TakeSlotsRest(n: int, bs: seq<Byte>, all: seq<Byte>)
    requires EndOf(bs, all)
    ensures EndOf(TakeSlots(n, bs).rest, all)
    decreases n
  {
    if n > 0 {
      TakeSlotRest(bs, all);
      if TakeSlot(bs).Got? {
        TakeSlotsRest(n - 1, TakeSlot(bs).rest, all);
      }
    }
  }

  /** Decoding only moves the read cursor forward. */
  lemma DecodeRest(side: Side, opcode: Byte, bs: seq<Byte>)
    requires Known(opcode)
    ensures EndOf(Decode(side, opcode, bs).rest, bs)
  {
    var r1 := TakeText(bs).rest;
    var r2 := TakeText(r1).rest;
    Takes(bs, bs);
    Takes(bs, r1);
    Takes(bs, r2);
    if side == AtNode && opcode == 1 {
      Takes(bs, TakeText(r2).rest);
    }
    if side == AtFrontEnd && opcode == 0 && TakeInt(r1).Got? {
      TakeSlotsRest(TakeInt(r1).value, TakeInt(r1).rest, bs);
    }
  }

  /** The content length of the first frame among the unread bytes. */
  function SizeAt(unread: seq<Byte>): nat
    requires |unread| >= 3
  {
    unread[1] as nat + 0x100 * unread[2] as nat
  }

  lemma SizeRead(unread: seq<Byte>)
    requires |unread| >= 3
    ensures Unsigned(unread[1..3]) == SizeAt(unread)
  {
    assert unread[1..3][1..] == [unread[2]];
    assert Unsigned([unread[2]]) == unread[2];
  }

  /** All announced bytes are there, or the announced length is one that a whole buffer could hold. */
  predicate Acceptable(cap: nat, b: B.Cursor)
    requires |Unread(b)| >= 3
  {
    SizeAt(Unread(b)) <= cap || b.read > 0
  }

  /**
   Exactly when a call does what, for any bytes: it waits for an empty buffer and for an acceptable frame that is
   incomplete, it delivers what the registered class reads from a complete one, and it throws otherwise.
   */
  lemma HandleOutcomes(side: Side, cap: nat, b: B.Cursor)
    ensures var u, outcome := Unread(b), Handle(side, cap, b).1;
            && (outcome.Nothing? <==> u == [] || (|u| >= 3 && Acceptable(cap, b) && SizeAt(u) > |u| - 3))
            && (outcome.Delivered? <==> |u| >= 3 && Acceptable(cap, b) && SizeAt(u) <= |u| - 3
                                        && u[0] <= 2 && Decode(side, u[0], u[3..]).Got?)
            && (outcome.Delivered? ==> outcome.packet == Decode(side, u[0], u[3..]).value)
  {
    if |Unread(b)| >= 3 {
      SizeRead(Unread(b));
      assert Unread(B.Buf(b.content, b.read + 3)) == Unread(b)[3..];
    }
  }

  lemma ParseConsumes(side: Side, opcode: Byte, b: B.Cursor)
    requires Known(opcode)
    ensures var (next, outcome) := Parse(side, opcode, b);
            && Unread(next) == Decode(side, opcode, Unread(b)).rest && EndOf(Unread(next), Unread(b))
            && (outcome.Delivered? <==> Decode(side, opcode, Unread(b)).Got?)
  {
    DecodeRest(side, opcode, Unread(b));
  }

  lemma EndBehind(rest: seq<Byte>, u: seq<Byte>, k: nat)
    requires k <= |u| && EndOf(rest, u[k..])
    ensures EndOf(rest, u)
  {
  }

  lemma HandleCases(side: Side, cap: nat, b: B.Cursor, behind: B.Cursor)
    requires |Unread(b)| >= 3 && behind == B.Buf(b.content, b.read + 3)
    ensures || Handle(side, cap, b) == (behind, Thrown)
            || Handle(side, cap, b) == (B.Buf(Unread(b), 0), Nothing)
            || (Known(Unread(b)[0]) && Handle(side, cap, b) == Parse(side, Unread(b)[0], behind))
    ensures Unread(behind) == Unread(b)[3..]
  {
  }

  lemma EndItself(u: seq<Byte>, k: nat)
    requires k <= |u|
    ensures EndOf(u, u) && EndOf(u[k..], u) && u[0..] == u
  {
  }

  /**
   A call only ever consumes from the front: waiting nothing, delivering the header and what was decoded, throwing the
   opcode of a cut header, the header of a frame it refuses, or the header and what was decoded before the bytes ended.
   */
  lemma HandleConsumes(side: Side, cap: nat, b: B.Cursor)
    ensures var u, (next, outcome) := Unread(b), Handle(side, cap, b);
            && EndOf(Unread(next), u)
            && (outcome.Nothing? ==> Unread(next) == u && (u != [] ==> next.read == 0))
            && (outcome.Delivered? ==> |u| >= 3 && Known(u[0]) && Unread(next) == Decode(side, u[0], u[3..]).rest)
            && (outcome.Thrown? ==>
                  Unread(next) == if |u| < 3 then u[1..]
                                  else if !Acceptable(cap, b) || u[0] > 2 then u[3..]
                                  else Decode(side, u[0], u[3..]).rest)
  {
    var u := Unread(b);
    if |u| >= 3 {
      var behind: B.Cursor := B.Buf(b.content, b.read + 3);
      HandleCases(side, cap, b, behind);
      HandleOutcomes(side, cap, b);
      SizeRead(u);
      EndItself(u, 3);
      if Known(u[0]) && Handle(side, cap, b) == Parse(side, u[0], behind) {
        ParseConsumes(side, u[0], behind);
        EndBehind(Unread(Parse(side, u[0], behind).0), u, 3);
      }
    } else if u != [] {
      EndItself(u, 1);
    } else {
      EndItself(u, 0);
    }
  }

  // ---------- the readImpl methods: None where one of the reads throws

  method ReadStart(buffer: B.ByteBuffer) returns (p: Option<Packet>)
    requires buffer.Valid()
    modifies buffer`read
    ensures buffer.Valid() && buffer.Content() == old(buffer.Content())
    ensures buffer.Took(old(buffer.Unread()), Decode(AtNode, 1, old(buffer.Unread())), p)
  {
    var user := buffer.ReadString();
    if user == None { return None; }
    var address := buffer.ReadString();
    if address == None { return None; }
    var session := buffer.ReadString();
    if session == None { return None; }
    var port := buffer.ReadInt();
    if port == None { return None; }
    p := Some(RequestStart(user.value, address.value, session.value, port.value));
  }

  method ReadClose(buffer: B.ByteBuffer) returns (p: Option<Packet>)
    requires buffer.Valid()
    modifies buffer`read
    ensures buffer.Valid() && buffer.Content() == old(buffer.Content())
    ensures buffer.Took(old(buffer.Unread()), Decode(AtNode, 2, old(buffer.Unread())), p)
  {
    var user := buffer.ReadString();
    if user == None { return None; }
    var session := buffer.ReadString();
    if session == None { return None; }
    p := Some(RequestClose(user.value, session.value));
  }

  method ReadResult(buffer: B.ByteBuffer, opcode: Byte) returns (p: Option<Packet>)
    requires buffer.Valid() && 1 <= opcode <= 2
    modifies buffer`read
    ensures buffer.Valid() && buffer.Content() == old(buffer.Content())
    ensures buffer.Took(old(buffer.Unread()), Decode(AtFrontEnd, opcode, old(buffer.Unread())), p)
  {
    var user := buffer.ReadString();
    if user == None { return None; }
    var session := buffer.ReadString();
    if session == None { return None; }
    var status := buffer.ReadInt();
    if status == None { return None; }
    p := Some(if opcode == 1 then StartResult(user.value, session.value, status.value)
              else CloseResult(user.value, session.value, status.value));
  }

  method ReadSlot(buffer: B.ByteBuffer) returns (slot: Option<(Int32, Int32)>)
    requires buffer.Valid()
    modifies buffer`read
    ensures buffer.Valid() && buffer.Content() == old(buffer.Content())
    ensures buffer.Took(old(buffer.Unread()), TakeSlot(old(buffer.Unread())), slot)
  {
    var port := buffer.ReadInt();
    if port == None { return None; }
    var flag := buffer.ReadInt();
    if flag == None { return None; }
    slot := Some((port.value, flag.value));
  }

  method ReadSlots(buffer: B.ByteBuffer, n: Int32) returns (l: Option<Listing>)
    requires buffer.Valid()
    modifies buffer`read
    ensures buffer.Valid() && buffer.Content() == old(buffer.Content())
    ensures buffer.Took(old(buffer.Unread()), TakeSlots(n, old(buffer.Unread())), l)
  {
    ghost var all := buffer.Unread();
    var slots: Listing := [];
    var i := 0;
    PrependNone(TakeSlots(n, all));
    while i < n
      invariant buffer.Valid() && buffer.Content() == old(buffer.Content())
      invariant i <= n || i == 0 > n
      invariant TakeSlots(n, all) == Prepend(slots, TakeSlots(n - i, buffer.Unread()))
    {
      ghost var rest := buffer.Unread();
      var slot := ReadSlot(buffer);
      if slot == None { return None; }
      TakeOneSlot(n - i, rest, slot.value, buffer.Unread());
      PrependOne(slots, slot.value, TakeSlots(n - i - 1, buffer.Unread()));
      slots := slots + [slot.value];
      i := i + 1;
    }
    assert slots + [] == slots;
    l := Some(slots);
  }

  function Prepend(front: Listing, got: Got<Listing>): Got<Listing> {
    match got
    case Got(l, rest) => Got(front + l, rest)
    case Short(rest) => Short(rest)
  }

  lemma PrependNone(got: Got<Listing>)
    ensures Prepend([], got) == got
  {
    if got.Got? {
      assert [] + got.value == got.value;
    }
  }

  lemma TakeOneSlot(n: int, bs: seq<Byte>, x: (Int32, Int32), rest: seq<Byte>)
    requires n > 0 && TakeSlot(bs) == Got(x, rest)
    ensures TakeSlots(n, bs) == Prepend([x], TakeSlots(n - 1, rest))
  {
  }

  lemma PrependOne(front: Listing, x: (Int32, Int32), got: Got<Listing>)
    ensures Prepend(front, Prepend([x], got)) == Prepend(front + [x], got)
  {
    if got.Got? {
      assert front + ([x] + got.value) == (front + [x]) + got.value;
    }
  }

  method ReadNodeInfo(buffer: B.ByteBuffer) returns (p: Option<Packet>)
    requires buffer.Valid()
    modifies buffer`read
    ensures buffer.Valid() && buffer.Content() == old(buffer.Content())
    ensures buffer.Took(old(buffer.Unread()), Decode(AtFrontEnd, 0, old(buffer.Unread())), p)
  {
    var address := buffer.ReadString();
    if address == None { return None; }
    var n := buffer.ReadInt();
    if n == None { return None; }
    var slots := ReadSlots(buffer, n.value);
    if slots == None { return None; }
    p := Some(NodeInfo(address.value, slots.value));
  }

  /** readImpl of the class a receiver registered for the opcode. */
  method ReadImpl(side: Side, opcode: Byte, buffer: B.ByteBuffer) returns (p: Option<Packet>)
    requires buffer.Valid() && Known(opcode)
    modifies buffer`read
    ensures buffer.Valid() && buffer.Content() == old(buffer.Content())
    ensures buffer.Took(old(buffer.Unread()), Decode(side, opcode, old(buffer.Unread())), p)
  {
    if side == AtNode {
      if opcode == 0 {
        p := Some(RequestNodeInfo);
      } else if opcode == 1 {
        p := ReadStart(buffer);
      } else {
        p := ReadClose(buffer);
      }
    } else if opcode == 0 {
      p := ReadNodeInfo(buffer);
    } else {
      p := ReadResult(buffer, opcode);
    }
  }

  /** Opcode and content length; None if the length is cut off, in which case only the opcode was consumed. */
  method ReadHeader(buffer: B.ByteBuffer) returns (opcode: Byte, size: Option<UInt16>)
    requires buffer.Valid() && buffer.read < buffer.used
    modifies buffer`read
    ensures buffer.Valid() && buffer.Content() == old(buffer.Content())
    ensures opcode == old(buffer.Unread())[0]
    ensures size == if |old(buffer.Unread())| < 3 then None else Some(Unsigned(old(buffer.Unread())[1..3]))
    ensures buffer.read == old(buffer.read) + if size == None then 1 else 3
  {
    ghost var unread := buffer.Unread();
    var c := buffer.ReadChar();
    opcode := c.value;
    assert buffer.Unread() == unread[1..];
    var short := buffer.ReadShort();
    if short == None {
      size := None;
    } else {
      assert unread[1..][..2] == unread[1..3];
      ShortAsUnsigned(unread[1..3]);
      size := Some(ToUInt16(short.value));
    }
  }

  method CreatePacket(side: Side, opcode: Byte, buffer: B.ByteBuffer) returns (outcome: Outcome)
    requires buffer.Valid() && Known(opcode)
    modifies buffer`read
    ensures buffer.Valid()
    ensures (buffer.State(), outcome) == Parse(side, opcode, old(buffer.State()))
  {
    ghost var unread := buffer.Unread();
    assert unread == Unread(buffer.State());
    DecodeRest(side, opcode, unread);
    var p := ReadImpl(side, opcode, buffer);
    outcome := if p == None then Thrown else Delivered(p.value);
  }

  method HandlePacket(side: Side, buffer: B.ByteBuffer) returns (outcome: Outcome)
    requires buffer.Valid()
    modifies buffer, buffer.buf
    ensures buffer.Valid()
    ensures (buffer.State(), outcome) == Handle(side, buffer.buf.Length, old(buffer.State()))
  {
    ghost var unread := buffer.Unread();
    assert unread == Unread(buffer.State());
    if buffer.read >= buffer.used {
      return Nothing;
    }
    var packetBeginsAt := buffer.read;
    var opcode, size := ReadHeader(buffer);
    if size == None {
      return Thrown;
    }
    var packetSize := size.value;
    if packetSize > buffer.buf.Length && packetBeginsAt == 0 {
      return Thrown;
    }
    if packetSize > buffer.used - buffer.read {
      buffer.SetReadPos(packetBeginsAt);
      assert buffer.Unread() == unread;
      buffer.Compact();
      return Nothing;
    }
    if !Known(opcode) {
      return Thrown;
    }
    outcome := CreatePacket(side, opcode, buffer);
  }
}
