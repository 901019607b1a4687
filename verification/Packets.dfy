/** Sending: every class writes its fields, then writePacket fills in the header it left open. */
module Packets {
  import opened Common
  import opened Bytes
  import opened Slots
  import opened Codec
  import B = ByteBuffer

  /** A node has at most 65536 ports, so their number is an int. */
  predicate Countable(p: Packet) {
    p.NodeInfo? ==> |p.slots| < 0x8000_0000
  }

  lemma PutContent(start: seq<Byte>, body: seq<Byte>, field: seq<Byte>, cap: nat)
    ensures start + Put(body, field, |start|, cap)
         == if |field| + |start + body| < cap then (start + body) + field else start + body
  {
    assert (start + body) + field == start + (body + field);
  }

  method PutText(buffer: B.ByteBuffer, t: Text, ghost start: seq<Byte>, ghost body: seq<Byte>)
    requires buffer.Valid() && buffer.Content() == start + body
    modifies buffer`used, buffer.buf
    ensures buffer.Valid() && buffer.read == old(buffer.read)
    ensures buffer.Content() == start + Put(body, EncodeText(t), |start|, buffer.buf.Length)
  {
    buffer.WriteString(t);
    PutContent(start, body, EncodeText(t), buffer.buf.Length);
  }

  method PutInt(buffer: B.ByteBuffer, i: Int32, ghost start: seq<Byte>, ghost body: seq<Byte>)
    requires buffer.Valid() && buffer.Content() == start + body
    modifies buffer`used, buffer.buf
    ensures buffer.Valid() && buffer.read == old(buffer.read)
    ensures buffer.Content() == start + Put(body, EncodeInt(i), |start|, buffer.buf.Length)
  {
    buffer.WriteInt(i);
    PutContent(start, body, EncodeInt(i), buffer.buf.Length);
  }

  lemma PutAllTwo(body: seq<Byte>, a: seq<Byte>, b: seq<Byte>, start: nat, cap: nat)
    ensures PutAll(body, [a, b], start, cap) == Put(Put(body, a, start, cap), b, start, cap)
  {
    assert [a, b][1..] == [b] && [b][1..] == [];
    assert PutAll(Put(body, a, start, cap), [b], start, cap) == Put(Put(body, a, start, cap), b, start, cap);
  }

  lemma PutAllThree(body: seq<Byte>, a: seq<Byte>, b: seq<Byte>, c: seq<Byte>, start: nat, cap: nat)
    ensures PutAll(body, [a, b, c], start, cap) == Put(Put(Put(body, a, start, cap), b, start, cap), c, start, cap)
  {
    assert [a, b, c][1..] == [b, c];
    PutAllTwo(Put(body, a, start, cap), b, c, start, cap);
  }

  lemma PutAllFour(body: seq<Byte>, a: seq<Byte>, b: seq<Byte>, c: seq<Byte>, d: seq<Byte>, start: nat, cap: nat)
    ensures PutAll(body, [a, b, c, d], start, cap)
         == Put(Put(Put(Put(body, a, start, cap), b, start, cap), c, start, cap), d, start, cap)
  {
    assert [a, b, c, d][1..] == [b, c, d];
    PutAllThree(Put(body, a, start, cap), b, c, d, start, cap);
  }

  lemma {:induction false} SlotFieldsAppend(l: Listing, x: (Int32, Int32))
    ensures SlotFields(l + [x]) == SlotFields(l) + [EncodeInt(x.0), EncodeInt(x.1)]
  {
    if l == [] {
      assert SlotFields([]) == [] && [x][1..] == [];
    } else {
      SlotFieldsAppend(l[1..], x);
      assert (l + [x])[1..] == l[1..] + [x] && (l + [x])[0] == l[0];
    }
  }

  method WriteStart(buffer: B.ByteBuffer, p: Packet)
    requires buffer.Valid() && p.RequestStart?
    modifies buffer`used, buffer.buf
    ensures buffer.Valid() && buffer.read == old(buffer.read)
    ensures buffer.Content() == old(buffer.Content()) + Body(p, old(buffer.used), buffer.buf.Length)
  {
    ghost var start, cap := buffer.Content(), buffer.buf.Length;
    ghost var u, a, s := EncodeText(p.user), EncodeText(p.userAddress), EncodeText(p.session);
    ghost var b1 := Put([], u, |start|, cap);
    ghost var b2 := Put(b1, a, |start|, cap);
    ghost var b3 := Put(b2, s, |start|, cap);
    assert start + [] == start;
    PutText(buffer, p.user, start, []);
    PutText(buffer, p.userAddress, start, b1);
    PutText(buffer, p.session, start, b2);
    PutInt(buffer, p.port, start, b3);
    PutAllFour([], u, a, s, EncodeInt(p.port), |start|, cap);
  }

  method WriteClose(buffer: B.ByteBuffer, p: Packet)
    requires buffer.Valid() && p.RequestClose?
    modifies buffer`used, buffer.buf
    ensures buffer.Valid() && buffer.read == old(buffer.read)
    ensures buffer.Content() == old(buffer.Content()) + Body(p, old(buffer.used), buffer.buf.Length)
  {
    ghost var start, cap := buffer.Content(), buffer.buf.Length;
    ghost var u, s := EncodeText(p.user), EncodeText(p.session);
    assert start + [] == start;
    PutText(buffer, p.user, start, []);
    PutText(buffer, p.session, start, Put([], u, |start|, cap));
    PutAllTwo([], u, s, |start|, cap);
  }

  method WriteResult(buffer: B.ByteBuffer, p: Packet)
    requires buffer.Valid() && (p.StartResult? || p.CloseResult?)
    modifies buffer`used, buffer.buf
    ensures buffer.Valid() && buffer.read == old(buffer.read)
    ensures buffer.Content() == old(buffer.Content()) + Body(p, old(buffer.used), buffer.buf.Length)
  {
    ghost var start, cap := buffer.Content(), buffer.buf.Length;
    ghost var u, s := EncodeText(p.user), EncodeText(p.session);
    ghost var b1 := Put([], u, |start|, cap);
    assert start + [] == start;
    PutText(buffer, p.user, start, []);
    PutText(buffer, p.session, start, b1);
    PutInt(buffer, p.status, start, Put(b1, s, |start|, cap));
    PutAllThree([], u, s, EncodeInt(p.status), |start|, cap);
  }

  lemma PutSlot(head: seq<seq<Byte>>, l: Listing, x: (Int32, Int32), body: seq<Byte>, start: nat, cap: nat)
    requires body == PutAll([], head + SlotFields(l), start, cap)
    ensures Put(Put(body, EncodeInt(x.0), start, cap), EncodeInt(x.1), start, cap)
         == PutAll([], head + SlotFields(l + [x]), start, cap)
  {
    var last := [EncodeInt(x.0), EncodeInt(x.1)];
    SlotFieldsAppend(l, x);
    assert head + (SlotFields(l) + last) == (head + SlotFields(l)) + last;
    PutAllAppend([], head + SlotFields(l), last, start, cap);
    PutAllTwo(body, last[0], last[1], start, cap);
  }

  /** Port and flag of one slot, behind the fields `head` and the slots `l`. */
  method WriteSlot(buffer: B.ByteBuffer, x: (Int32, Int32),
                   ghost start: seq<Byte>, ghost head: seq<seq<Byte>>, ghost l: Listing)
    requires buffer.Valid()
    requires buffer.Content() == start + PutAll([], head + SlotFields(l), |start|, buffer.buf.Length)
    modifies buffer`used, buffer.buf
    ensures buffer.Valid() && buffer.read == old(buffer.read)
    ensures buffer.Content() == start + PutAll([], head + SlotFields(l + [x]), |start|, buffer.buf.Length)
  {
    ghost var body := PutAll([], head + SlotFields(l), |start|, buffer.buf.Length);
    PutInt(buffer, x.0, start, body);
    PutInt(buffer, x.1, start, Put(body, EncodeInt(x.0), |start|, buffer.buf.Length));
    PutSlot(head, l, x, body, |start|, buffer.buf.Length);
  }

  /** Public address and number of slots, before the slots themselves. */
  method WriteSlotsHeader(buffer: B.ByteBuffer, address: Text, n: Int32, ghost start: seq<Byte>)
    requires buffer.Valid() && buffer.Content() == start
    modifies buffer`used, buffer.buf
    ensures buffer.Valid() && buffer.read == old(buffer.read)
    ensures buffer.Content()
         == start + PutAll([], [EncodeText(address), EncodeInt(n)] + SlotFields([]), |start|, buffer.buf.Length)
  {
    assert start + [] == start;
    PutText(buffer, address, start, []);
    PutInt(buffer, n, start, Put([], EncodeText(address), |start|, buffer.buf.Length));
    PutAllTwo([], EncodeText(address), EncodeInt(n), |start|, buffer.buf.Length);
    assert [EncodeText(address), EncodeInt(n)] + [] == [EncodeText(address), EncodeInt(n)];
  }

  lemma TakeNext<T>(l: seq<T>, i: nat)
    requires i < |l|
    ensures l[..i + 1] == l[..i] + [l[i]]
  {
  }

  lemma NodeInfoBody(a: Text, l: Listing, start: nat, cap: nat)
    requires |l| < 0x8000_0000
    ensures Body(NodeInfo(a, l), start, cap) == PutAll([], [EncodeText(a), EncodeInt(|l|)] + SlotFields(l), start, cap)
  {
  }

  method WriteSlots(buffer: B.ByteBuffer, l: Listing, ghost start: seq<Byte>, ghost head: seq<seq<Byte>>)
    requires buffer.Valid()
    requires buffer.Content() == start + PutAll([], head + SlotFields([]), |start|, buffer.buf.Length)
    modifies buffer`used, buffer.buf
    ensures buffer.Valid() && buffer.read == old(buffer.read)
    ensures buffer.Content() == start + PutAll([], head + SlotFields(l), |start|, buffer.buf.Length)
  {
    ghost var done: Listing := [];
    for i := 0 to |l|
      invariant buffer.Valid() && buffer.read == old(buffer.read) && done == l[..i]
      invariant buffer.Content() == start + PutAll([], head + SlotFields(done), |start|, buffer.buf.Length)
    {
      WriteSlot(buffer, l[i], start, head, done);
      TakeNext(l, i);
      done := done + [l[i]];
    }
    assert done == l;
  }

  /** A node's port table, already listed in the order the iterator visits it. */
  method WriteNodeInfo(buffer: B.ByteBuffer, p: Packet)
    requires buffer.Valid() && p.NodeInfo? && |p.slots| < 0x8000_0000
    modifies buffer`used, buffer.buf
    ensures buffer.Valid() && buffer.read == old(buffer.read)
    ensures buffer.Content() == old(buffer.Content()) + Body(p, old(buffer.used), buffer.buf.Length)
  {
    ghost var start := buffer.Content();
    WriteSlotsHeader(buffer, p.publicAddress, |p.slots|, start);
    WriteSlots(buffer, p.slots, start, [EncodeText(p.publicAddress), EncodeInt(|p.slots|)]);
    NodeInfoBody(p.publicAddress, p.slots, |start|, buffer.buf.Length);
  }

  method WriteImpl(buffer: B.ByteBuffer, p: Packet)
    requires buffer.Valid() && Countable(p)
    modifies buffer`used, buffer.buf
    ensures buffer.Valid() && buffer.read == old(buffer.read)
    ensures buffer.Content() == old(buffer.Content()) + Body(p, old(buffer.used), buffer.buf.Length)
  {
    match p
    case RequestNodeInfo => assert buffer.Content() + [] == buffer.Content();
    case RequestStart(_, _, _, _) => WriteStart(buffer, p);
    case RequestClose(_, _) => WriteClose(buffer, p);
    case NodeInfo(_, _) => WriteNodeInfo(buffer, p);
    case StartResult(_, _, _) => WriteResult(buffer, p);
    case CloseResult(_, _, _) => WriteResult(buffer, p);
  }

  /** The cursor goes back to `before`, writes opcode and size over the gap, and returns. */
  method WriteHeader(buffer: B.ByteBuffer, before: nat, opcode: Byte, size: Int16)
    requires buffer.Valid() && buffer.read <= before && before + 3 <= buffer.used && before + 3 < buffer.buf.Length
    modifies buffer`used, buffer.buf
    ensures buffer.Valid() && buffer.read == old(buffer.read)
    ensures buffer.Content()
         == old(buffer.Content()[..before]) + ([opcode] + Little(size, 2)) + old(buffer.Content()[before + 3..])
  {
    var after := buffer.used;
    ghost var memory := buffer.buf[..];
    assert buffer.Content() == memory[..after];
    buffer.SetWritePos(before);
    buffer.WriteChar(opcode);
    buffer.WriteShort(size);
    HeaderInPlace(memory, before, after, opcode, size);
    buffer.SetWritePos(after);
    assert buffer.Content() == buffer.buf[..][..after];
  }

  lemma HeaderInPlace(memory: seq<Byte>, before: nat, after: nat, opcode: Byte, size: Int16)
    requires before + 3 <= after <= |memory|
    ensures memory[before := opcode][before + 1 := size % 0x100][before + 2 := (size / 0x100) % 0x100][..after]
         == memory[..after][..before] + ([opcode] + Little(size, 2)) + memory[..after][before + 3..]
  {
    B.LittleTwo(size);
  }

  /** The content, behind a gap of three bytes for the header. */
  method WriteContent(buffer: B.ByteBuffer, p: Packet)
    requires buffer.Valid() && buffer.used + 3 < buffer.buf.Length && Countable(p)
    modifies buffer`used, buffer.buf
    ensures buffer.Valid() && buffer.read == old(buffer.read) && old(buffer.used) + 3 <= buffer.used
    ensures buffer.Content()[..old(buffer.used)] == old(buffer.Content())
    ensures buffer.Content()[old(buffer.used) + 3..] == Body(p, old(buffer.used) + 3, buffer.buf.Length)
  {
    var contentStart := buffer.used + 3;
    buffer.SetWritePos(contentStart);
    WriteImpl(buffer, p);
  }

  /** Opcode and content length, computed from the cursors, go in front of the content. */
  method FinishPacket(buffer: B.ByteBuffer, before: nat, opcode: Byte, ghost content: seq<Byte>, ghost body: seq<Byte>)
    requires buffer.Valid() && buffer.read <= before && before + 3 <= buffer.used && before + 3 < buffer.buf.Length
    requires buffer.Content()[..before] == content && buffer.Content()[before + 3..] == body
    modifies buffer`used, buffer.buf
    ensures buffer.Valid() && buffer.read == old(buffer.read)
    ensures buffer.Content() == content + ([opcode] + Little(|body|, 2) + body)
  {
    var after := buffer.used;
    var contentStart := before + 3;
    var packetSize := ToInt16(ToInt16(after) - contentStart);
    SizeBytes(after, contentStart);
    WriteHeader(buffer, before, opcode, packetSize);
    JoinHeader(content, [opcode] + Little(|body|, 2), body);
  }

  /** The cursor skips the header, the content is written, and the cursor returns to write the header. */
  method WritePacket(buffer: B.ByteBuffer, p: Packet)
    requires buffer.Valid() && buffer.used + 3 < buffer.buf.Length && Countable(p)
    modifies buffer`used, buffer.buf
    ensures buffer.Valid() && buffer.read == old(buffer.read)
    ensures buffer.Content() == old(buffer.Content()) + Written(p, old(buffer.used), buffer.buf.Length)
  {
    var before := buffer.used;
    ghost var content := buffer.Content();
    WriteContent(buffer, p);
    FinishPacket(buffer, before, Opcode(p), content, Body(p, before + 3, buffer.buf.Length));
  }

  lemma JoinHeader(content: seq<Byte>, header: seq<Byte>, body: seq<Byte>)
    ensures content + header + body == content + (header + body)
  {
  }

  /** The size computed from truncated shorts has the low 16 bits of the content length. */
  lemma SizeBytes(after: nat, contentStart: nat)
    requires contentStart <= after
    ensures Little(ToInt16(ToInt16(after) - contentStart), 2) == Little(after - contentStart, 2)
    ensures after - contentStart < 0x1_0000 ==> ToUInt16(ToInt16(ToInt16(after) - contentStart)) == after - contentStart
  {
    var s := ToInt16(ToInt16(after) - contentStart);
    var q := (s - (after - contentStart)) / 0x1_0000;
    assert s == after - contentStart + 0x1_0000 * q;
    SameLowBytes(s, after - contentStart, q);
  }
}
