/** The bytes of each packet class: what writeImpl writes, what readImpl reads back, and the frame around it. */
module Codec {
  import opened Common
  import opened Bytes
  import opened Slots

  /** Which packet classes a receiver has registered. */
  datatype Side = AtNode | AtFrontEnd

  function SideOf(p: Packet): Side {
    if p.RequestNodeInfo? || p.RequestStart? || p.RequestClose? then AtNode else AtFrontEnd
  }

  function Opcode(p: Packet): Byte {
    match p
    case RequestNodeInfo => 0
    case RequestStart(u, a, s, port) => 1
    case RequestClose(u, s) => 2
    case NodeInfo(a, l) => 0
    case StartResult(u, s, status) => 1
    case CloseResult(u, s, status) => 2
  }

  // ---------- the fields a packet class writes, in order

  /** Port and flag of every slot. */
  function SlotFields(l: Listing): seq<seq<Byte>> {
    if l == [] then [] else [EncodeInt(l[0].0), EncodeInt(l[0].1)] + SlotFields(l[1..])
  }

  function Fields(p: Packet): seq<seq<Byte>> {
    match p
    case RequestNodeInfo => []
    case RequestStart(u, a, s, port) => [EncodeText(u), EncodeText(a), EncodeText(s), EncodeInt(port)]
    case RequestClose(u, s) => [EncodeText(u), EncodeText(s)]
    case NodeInfo(a, l) => [EncodeText(a), Little(|l|, 4)] + SlotFields(l)
    case StartResult(u, s, status) => [EncodeText(u), EncodeText(s), EncodeInt(status)]
    case CloseResult(u, s, status) => [EncodeText(u), EncodeText(s), EncodeInt(status)]
  }

  function Concat(fields: seq<seq<Byte>>): seq<Byte> {
    if fields == [] then [] else fields[0] + Concat(fields[1..])
  }

  /** The content of a packet, if there is room for all of it. */
  function Encode(p: Packet): seq<Byte> {
    Concat(Fields(p))
  }

  /** Opcode, content length, content. */
  function Frame(p: Packet): seq<Byte> {
    [Opcode(p)] + Little(|Encode(p)|, 2) + Encode(p)
  }

  /** A buffer of this capacity keeps one byte free. */
  predicate Fits(p: Packet, cap: nat) {
    3 + |Encode(p)| < cap
  }

  // ---------- what writeImpl really leaves behind: a field without room is silently dropped

  function Put(body: seq<Byte>, field: seq<Byte>, start: nat, cap: nat): seq<Byte> {
    if |field| + (start + |body|) < cap then body + field else body
  }

  function PutAll(body: seq<Byte>, fields: seq<seq<Byte>>, start: nat, cap: nat): seq<Byte>
    decreases |fields|
  {
    if fields == [] then body else PutAll(Put(body, fields[0], start, cap), fields[1..], start, cap)
  }

  /** Content written by writeImpl into a buffer of capacity `cap` of which `start` bytes are used. */
  function Body(p: Packet, start: nat, cap: nat): seq<Byte> {
    PutAll([], Fields(p), start, cap)
  }

  /** What writePacket appends. */
  function Written(p: Packet, before: nat, cap: nat): seq<Byte> {
    var body := Body(p, before + 3, cap);
    [Opcode(p)] + Little(|body|, 2) + body
  }

  /** With room for all of them, all fields are written. */
  lemma {:induction false} PutAllFits(body: seq<Byte>, fields: seq<seq<Byte>>, start: nat, cap: nat)
    requires start + |body| + |Concat(fields)| < cap
    ensures PutAll(body, fields, start, cap) == body + Concat(fields)
    decreases |fields|
  {
    if fields != [] {
      PutAllFits(body + fields[0], fields[1..], start, cap);
      assert (body + fields[0]) + Concat(fields[1..]) == body + (fields[0] + Concat(fields[1..]));
    }
  }

  lemma {:induction false} PutAllBound(body: seq<Byte>, fields: seq<seq<Byte>>, start: nat, cap: nat)
    requires start + |body| < cap
    ensures start + |PutAll(body, fields, start, cap)| < cap
    decreases |fields|
  {
    if fields != [] {
      PutAllBound(Put(body, fields[0], start, cap), fields[1..], start, cap);
    }
  }

  lemma {:induction false} PutAllAppend(body: seq<Byte>, f: seq<seq<Byte>>, g: seq<seq<Byte>>, start: nat, cap: nat)
    ensures PutAll(body, f + g, start, cap) == PutAll(PutAll(body, f, start, cap), g, start, cap)
    decreases |f|
  {
    if f == [] {
      assert f + g == g;
    } else {
      assert (f + g)[0] == f[0] && (f + g)[1..] == f[1..] + g;
      PutAllAppend(Put(body, f[0], start, cap), f[1..], g, start, cap);
    }
  }

  /** writePacket writes the packet's frame exactly when there is strict room for it; otherwise it drops fields. */
  lemma WrittenIsFrame(p: Packet, before: nat, cap: nat)
    requires before + 3 < cap
    ensures Written(p, before, cap) == Frame(p) <==> before + 3 + |Encode(p)| < cap
    ensures before + 3 + |Encode(p)| < cap || |Written(p, before, cap)| < |Frame(p)|
  {
    if before + 3 + |Encode(p)| < cap {
      PutAllFits([], Fields(p), before + 3, cap);
      assert [] + Encode(p) == Encode(p);
    } else {
      PutAllBound([], Fields(p), before + 3, cap);
    }
  }

  // ---------- reading

  function TakeSlot(bs: seq<Byte>): Got<(Int32, Int32)> {
    var (port, rest) :- TakeInt(bs);
    var (flag, rest) :- TakeInt(rest);
    Got((port, flag), rest)
  }

  function TakeSlots(n: int, bs: seq<Byte>): Got<Listing>
    decreases n
  {
    if n <= 0 then Got([], bs)
    else
      var (first, rest) :- TakeSlot(bs);
      var (more, rest) :- TakeSlots(n - 1, rest);
      Got([first] + more, rest)
  }

  predicate Known(opcode: Byte) {
    opcode <= 2
  }

  /** What readImpl of the class registered for an opcode reads. */
  function Decode(side: Side, opcode: Byte, bs: seq<Byte>): Got<Packet>
    requires Known(opcode)
  {
    match (side, opcode)
    case (AtNode, 0) => Got(RequestNodeInfo, bs)
    case (AtNode, 1) =>
      var (u, rest) :- TakeText(bs);
      var (a, rest) :- TakeText(rest);
      var (s, rest) :- TakeText(rest);
      var (port, rest) :- TakeInt(rest);
      Got(RequestStart(u, a, s, port), rest)
    case (AtNode, _) =>
      var (u, rest) :- TakeText(bs);
      var (s, rest) :- TakeText(rest);
      Got(RequestClose(u, s), rest)
    case (AtFrontEnd, 0) =>
      var (a, rest) :- TakeText(bs);
      var (n, rest) :- TakeInt(rest);
      var (l, rest) :- TakeSlots(n, rest);
      Got(NodeInfo(a, l), rest)
    case (AtFrontEnd, 1) =>
      var (u, rest) :- TakeText(bs);
      var (s, rest) :- TakeText(rest);
      var (status, rest) :- TakeInt(rest);
      Got(StartResult(u, s, status), rest)
    case (AtFrontEnd, _) =>
      var (u, rest) :- TakeText(bs);
      var (s, rest) :- TakeText(rest);
      var (status, rest) :- TakeInt(rest);
      Got(CloseResult(u, s, status), rest)
  }

  lemma Associate(a: seq<Byte>, b: seq<Byte>, c: seq<Byte>, d: seq<Byte>)
    ensures (a + (b + c)) + d == a + (b + (c + d))
  {
  }

  lemma ConcatTwo(a: seq<Byte>, b: seq<Byte>, more: seq<seq<Byte>>)
    ensures Concat([a, b] + more) == a + (b + Concat(more))
  {
    assert ([a, b] + more)[1..] == [b] + more && ([b] + more)[1..] == more;
  }

  lemma ConcatThree(a: seq<Byte>, b: seq<Byte>, c: seq<Byte>)
    ensures Concat([a, b, c]) == a + (b + c)
  {
    ConcatTwo(a, b, [c]);
    assert [a, b] + [c] == [a, b, c] && Concat([c]) == c;
  }

  lemma ConcatFour(a: seq<Byte>, b: seq<Byte>, c: seq<Byte>, d: seq<Byte>)
    ensures Concat([a, b, c, d]) == a + (b + (c + d))
  {
    ConcatTwo(a, b, [c, d]);
    ConcatTwo(c, d, []);
    assert [a, b] + [c, d] == [a, b, c, d] && [c, d] + [] == [c, d] && d + [] == d;
  }

  lemma TakeSlotsStep(x: (Int32, Int32), l: Listing, tail: seq<Byte>, rest: seq<Byte>)
    requires TakeSlots(|l|, tail) == Got(l, rest)
    ensures TakeSlots(|l| + 1, EncodeInt(x.0) + (EncodeInt(x.1) + tail)) == Got([x] + l, rest)
  {
    TakeIntBack(x.0, EncodeInt(x.1) + tail);
    TakeIntBack(x.1, tail);
  }

  lemma SlotsStep(l: Listing)
    requires l != []
    ensures Concat(SlotFields(l)) == EncodeInt(l[0].0) + (EncodeInt(l[0].1) + Concat(SlotFields(l[1..])))
  {
    ConcatTwo(EncodeInt(l[0].0), EncodeInt(l[0].1), SlotFields(l[1..]));
  }

  lemma {:induction false} TakeSlotsBack(l: Listing, rest: seq<Byte>)
    ensures TakeSlots(|l|, Concat(SlotFields(l)) + rest) == Got(l, rest)
  {
    if l == [] {
      assert Concat(SlotFields(l)) + rest == rest;
    } else {
      var body := Concat(SlotFields(l[1..]));
      TakeSlotsBack(l[1..], rest);
      TakeSlotsStep(l[0], l[1..], body + rest, rest);
      SlotsStep(l);
      Associate(EncodeInt(l[0].0), EncodeInt(l[0].1), body, rest);
      assert [l[0]] + l[1..] == l;
    }
  }

  lemma {:induction false} SlotsLength(l: Listing)
    ensures |Concat(SlotFields(l))| == 8 * |l|
  {
    if l != [] {
      ConcatTwo(EncodeInt(l[0].0), EncodeInt(l[0].1), SlotFields(l[1..]));
      SlotsLength(l[1..]);
    }
  }

  lemma StartBytes(u: Text, a: Text, s: Text, port: Int32, rest: seq<Byte>)
    ensures Encode(RequestStart(u, a, s, port)) + rest
         == EncodeText(u) + (EncodeText(a) + (EncodeText(s) + (EncodeInt(port) + rest)))
  {
    ConcatFour(EncodeText(u), EncodeText(a), EncodeText(s), EncodeInt(port));
    Associate(EncodeText(u), EncodeText(a), EncodeText(s) + EncodeInt(port), rest);
    assert (EncodeText(s) + EncodeInt(port)) + rest == EncodeText(s) + (EncodeInt(port) + rest);
  }

  lemma StartBack(p: Packet, rest: seq<Byte>)
    requires p.RequestStart? && |Encode(p)| < 0x1_0000
    ensures Decode(AtNode, 1, Encode(p) + rest) == Got(p, rest)
  {
    var r3 := EncodeInt(p.port) + rest;
    var r2 := EncodeText(p.session) + r3;
    StartBytes(p.user, p.userAddress, p.session, p.port, rest);
    StartBytes(p.user, p.userAddress, p.session, p.port, []);
    TakeTextBack(p.user, EncodeText(p.userAddress) + r2);
    TakeTextBack(p.userAddress, r2);
    TakeTextBack(p.session, r3);
    TakeIntBack(p.port, rest);
  }

  lemma CloseBack(p: Packet, rest: seq<Byte>)
    requires p.RequestClose? && |Encode(p)| < 0x1_0000
    ensures Decode(AtNode, 2, Encode(p) + rest) == Got(p, rest)
  {
    ConcatTwo(EncodeText(p.user), EncodeText(p.session), []);
    assert [EncodeText(p.user), EncodeText(p.session)] + [] == Fields(p);
    var r1 := EncodeText(p.session) + rest;
    assert Encode(p) + rest == EncodeText(p.user) + r1;
    TakeTextBack(p.user, r1);
    TakeTextBack(p.session, rest);
  }

  lemma NodeInfoBytes(a: Text, l: Listing, rest: seq<Byte>)
    requires |l| < 0x8000_0000
    ensures Encode(NodeInfo(a, l)) + rest == EncodeText(a) + (EncodeInt(|l|) + (Concat(SlotFields(l)) + rest))
  {
    ConcatTwo(EncodeText(a), Little(|l|, 4), SlotFields(l));
    Associate(EncodeText(a), EncodeInt(|l|), Concat(SlotFields(l)), rest);
  }

  lemma NodeInfoBack(p: Packet, rest: seq<Byte>)
    requires p.NodeInfo? && |Encode(p)| < 0x1_0000
    ensures Decode(AtFrontEnd, 0, Encode(p) + rest) == Got(p, rest)
  {
    var a, l := p.publicAddress, p.slots;
    SlotsLength(l);
    ConcatTwo(EncodeText(a), Little(|l|, 4), SlotFields(l));
    NodeInfoBytes(a, l, rest);
    var r2 := Concat(SlotFields(l)) + rest;
    TakeTextBack(a, EncodeInt(|l|) + r2);
    TakeIntBack(|l|, r2);
    TakeSlotsBack(l, rest);
  }

  lemma ResultBack(p: Packet, rest: seq<Byte>)
    requires (p.StartResult? || p.CloseResult?) && |Encode(p)| < 0x1_0000
    ensures Decode(AtFrontEnd, Opcode(p), Encode(p) + rest) == Got(p, rest)
  {
    ConcatThree(EncodeText(p.user), EncodeText(p.session), EncodeInt(p.status));
    var r2 := EncodeInt(p.status) + rest;
    var r1 := EncodeText(p.session) + r2;
    assert Encode(p) + rest == EncodeText(p.user) + r1;
    TakeTextBack(p.user, r1);
    TakeTextBack(p.session, r2);
    TakeIntBack(p.status, rest);
  }

  /** Decoding the content of a packet, whatever follows it, gives the packet and what follows. */
  lemma DecodeBack(p: Packet, rest: seq<Byte>)
    requires |Encode(p)| < 0x1_0000
    ensures Decode(SideOf(p), Opcode(p), Encode(p) + rest) == Got(p, rest)
  {
    match p
    case RequestNodeInfo => assert Encode(p) + rest == rest;
    case RequestStart(_, _, _, _) => StartBack(p, rest);
    case RequestClose(_, _) => CloseBack(p, rest);
    case NodeInfo(_, _) => NodeInfoBack(p, rest);
    case StartResult(_, _, _) => ResultBack(p, rest);
    case CloseResult(_, _, _) => ResultBack(p, rest);
  }

  lemma {:induction false} TakeSlotsLength(n: int, bs: seq<Byte>)
    ensures TakeSlots(n, bs).Got? ==> |bs| == |Concat(SlotFields(TakeSlots(n, bs).value))| + |TakeSlots(n, bs).rest|
    decreases n
  {
    if n > 0 && TakeSlot(bs).Got? {
      TakeSlotsLength(n - 1, TakeSlot(bs).rest);
    }
    if TakeSlots(n, bs).Got? {
      SlotsLength(TakeSlots(n, bs).value);
    }
  }

  lemma StartLength(bs: seq<Byte>)
    requires Decode(AtNode, 1, bs).Got?
    ensures |bs| == |Encode(Decode(AtNode, 1, bs).value)| + |Decode(AtNode, 1, bs).rest|
  {
    var p := Decode(AtNode, 1, bs).value;
    ConcatFour(EncodeText(p.user), EncodeText(p.userAddress), EncodeText(p.session), EncodeInt(p.port));
  }

  lemma CloseLength(bs: seq<Byte>)
    requires Decode(AtNode, 2, bs).Got?
    ensures |bs| == |Encode(Decode(AtNode, 2, bs).value)| + |Decode(AtNode, 2, bs).rest|
  {
    var p := Decode(AtNode, 2, bs).value;
    ConcatTwo(EncodeText(p.user), EncodeText(p.session), []);
    assert [EncodeText(p.user), EncodeText(p.session)] + [] == Fields(p);
  }

  lemma NodeInfoLength(bs: seq<Byte>)
    requires Decode(AtFrontEnd, 0, bs).Got?
    ensures |bs| == |Encode(Decode(AtFrontEnd, 0, bs).value)| + |Decode(AtFrontEnd, 0, bs).rest|
  {
    var p := Decode(AtFrontEnd, 0, bs).value;
    ConcatTwo(EncodeText(p.publicAddress), Little(|p.slots|, 4), SlotFields(p.slots));
    var rest := TakeText(bs).rest;
    TakeSlotsLength(TakeInt(rest).value, TakeInt(rest).rest);
  }

  lemma ResultLength(opcode: Byte, bs: seq<Byte>)
    requires 1 <= opcode <= 2 && Decode(AtFrontEnd, opcode, bs).Got?
    ensures |bs| == |Encode(Decode(AtFrontEnd, opcode, bs).value)| + |Decode(AtFrontEnd, opcode, bs).rest|
  {
    var p := Decode(AtFrontEnd, opcode, bs).value;
    ConcatThree(EncodeText(p.user), EncodeText(p.session), EncodeInt(p.status));
  }

  /** A packet is only ever read from as many bytes as its encoding has. */
  lemma DecodeLength(side: Side, opcode: Byte, bs: seq<Byte>)
    requires Known(opcode) && Decode(side, opcode, bs).Got?
    ensures |bs| == |Encode(Decode(side, opcode, bs).value)| + |Decode(side, opcode, bs).rest|
  {
    if side == AtNode {
      if opcode == 1 { StartLength(bs); } else if opcode == 2 { CloseLength(bs); }
    } else {
      if opcode == 0 { NodeInfoLength(bs); } else { ResultLength(opcode, bs); }
    }
  }
}
