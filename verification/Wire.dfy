/** The selector thread's two ends of a connection: packets to chunks of bytes, received bytes to packets. */
module Wire {
  import opened Common
  import opened Bytes
  import opened Codec
  import opened Framing
  import opened Packets
  import opened PacketHandler
  import A = Arrivals
  import B = ByteBuffer
  import S = Streams

  /** Packets waiting to be sent, and what the poll set watches the socket for. */
  class Connection {
    var sendPackets: seq<Packet>
    var inPollSet: bool
    var pollWrite: bool

    constructor ()
      ensures sendPackets == [] && !inPollSet && !pollWrite
    {
      sendPackets, inPollSet, pollWrite := [], false, false;
    }

    /** A waiting packet is announced: the selector thread will be told when the socket can be written. */
    ghost predicate Announced()
      reads this
    {
      inPollSet && sendPackets != [] ==> pollWrite
    }

    method SendPacket(p: Packet)
      modifies this
      ensures sendPackets == old(sendPackets) + [p] && inPollSet == old(inPollSet)
      ensures Announced() && (!inPollSet ==> pollWrite == old(pollWrite))
    {
      sendPackets := sendPackets + [p];
      if inPollSet {
        pollWrite := true;
      }
    }

    /** The oldest packet; when there is none the write flag is taken back. */
    method PollSendablePacket() returns (p: Option<Packet>)
      modifies this
      ensures old(sendPackets) == [] ==> p == None && sendPackets == [] && pollWrite == (old(pollWrite) && !inPollSet)
      ensures old(sendPackets) != [] ==>
                p == Some(old(sendPackets)[0]) && sendPackets == old(sendPackets)[1..] && pollWrite == old(pollWrite)
      ensures inPollSet == old(inPollSet) && (old(Announced()) ==> Announced())
    {
      if sendPackets == [] {
        if inPollSet {
          pollWrite := false;
        }
        return None;
      }
      p := Some(sendPackets[0]);
      sendPackets := sendPackets[1..];
    }

    method EndConnection()
      modifies this`sendPackets
      ensures sendPackets == []
    {
      while sendPackets != []
        decreases |sendPackets|
      {
        sendPackets := sendPackets[1..];
      }
    }
  }

  // ---------- sending

  /** What a buffer of capacity `cap`, reset before every packet, holds for each packet in turn. */
  function WrittenAll(ps: seq<Packet>, cap: nat): seq<Byte> {
    if ps == [] then [] else Written(ps[0], 0, cap) + WrittenAll(ps[1..], cap)
  }

  lemma {:induction false} WrittenAppend(ps: seq<Packet>, p: Packet, cap: nat)
    ensures WrittenAll(ps + [p], cap) == WrittenAll(ps, cap) + Written(p, 0, cap)
  {
    if ps == [] {
      assert WrittenAll([p][1..], cap) == [];
    } else {
      assert (ps + [p])[0] == ps[0] && (ps + [p])[1..] == ps[1..] + [p];
      WrittenAppend(ps[1..], p, cap);
    }
  }

  lemma WrittenBound(p: Packet, cap: nat)
    requires 3 < cap
    ensures 3 <= |Written(p, 0, cap)| < cap
  {
    PutAllBound([], Fields(p), 3, cap);
  }

  /** A chunk is the bytes of the packets of one group, whose first packet had no strict room in the chunk before. */
  ghost predicate Chunk(sent: seq<seq<Byte>>, groups: seq<seq<Packet>>, cap: nat, helperCap: nat, i: nat)
    requires i < |sent| == |groups|
  {
    && groups[i] != [] && sent[i] == WrittenAll(groups[i], helperCap) && |sent[i]| < cap
    && (i > 0 ==> |sent[i - 1]| + |Written(groups[i][0], 0, helperCap)| >= cap)
  }

  ghost predicate Batched(sent: seq<seq<Byte>>, groups: seq<seq<Packet>>, cap: nat, helperCap: nat) {
    |sent| == |groups| &&
    forall i {:trigger Chunk(sent, groups, cap, helperCap, i)} ::
      0 <= i < |sent| ==> Chunk(sent, groups, cap, helperCap, i)
  }

  lemma {:induction false} FlattenAppend<T>(chunks: seq<seq<T>>, c: seq<T>)
    ensures S.Flatten(chunks + [c]) == S.Flatten(chunks) + c
  {
    if chunks == [] {
      assert S.Flatten([c]) == c + S.Flatten([c][1..]) == c;
    } else {
      assert (chunks + [c])[0] == chunks[0] && (chunks + [c])[1..] == chunks[1..] + [c];
      FlattenAppend(chunks[1..], c);
    }
  }

  lemma CloseGroup(sent: seq<seq<Byte>>, groups: seq<seq<Packet>>, open: seq<Packet>, cap: nat, helperCap: nat)
    requires Batched(sent, groups, cap, helperCap) && open != [] && |WrittenAll(open, helperCap)| < cap
    requires sent != [] ==> |sent[|sent| - 1]| + |Written(open[0], 0, helperCap)| >= cap
    ensures Batched(sent + [WrittenAll(open, helperCap)], groups + [open], cap, helperCap)
  {
    var sentNow, groupsNow := sent + [WrittenAll(open, helperCap)], groups + [open];
    forall i: nat | i < |sentNow| ensures Chunk(sentNow, groupsNow, cap, helperCap, i) {
      if i < |sent| {
        assert Chunk(sent, groups, cap, helperCap, i);
      }
    }
  }

  /** Between two packets: closed groups were sent, the bytes of the open group are in the write buffer. */
  ghost predicate Sending(done: seq<Packet>, sent: seq<seq<Byte>>, groups: seq<seq<Packet>>, open: seq<Packet>,
                          content: seq<Byte>, cap: nat, helperCap: nat)
  {
    && done == S.Flatten(groups) + open
    && Batched(sent, groups, cap, helperCap)
    && content == WrittenAll(open, helperCap) && |content| < cap
    && (sent != [] ==> open != [] && |sent[|sent| - 1]| + |Written(open[0], 0, helperCap)| >= cap)
  }

  lemma PacketFitted(done: seq<Packet>, sent: seq<seq<Byte>>, groups: seq<seq<Packet>>, open: seq<Packet>,
                     content: seq<Byte>, cap: nat, helperCap: nat, p: Packet)
    requires Sending(done, sent, groups, open, content, cap, helperCap)
    requires |content| + |Written(p, 0, helperCap)| < cap
    ensures Sending(done + [p], sent, groups, open + [p], content + Written(p, 0, helperCap), cap, helperCap)
  {
    WrittenAppend(open, p, helperCap);
    S.Assoc(S.Flatten(groups), open, [p]);
  }

  lemma GroupSent(done: seq<Packet>, sent: seq<seq<Byte>>, groups: seq<seq<Packet>>, open: seq<Packet>,
                  content: seq<Byte>, cap: nat, helperCap: nat)
    requires Sending(done, sent, groups, open, content, cap, helperCap) && content != []
    ensures Batched(sent + [content], groups + [open], cap, helperCap) && S.Flatten(groups + [open]) == done
  {
    CloseGroup(sent, groups, open, cap, helperCap);
    FlattenAppend(groups, open);
  }

  lemma GroupOpened(done: seq<Packet>, sent: seq<seq<Byte>>, groups: seq<seq<Packet>>, cap: nat, helperCap: nat,
                    p: Packet)
    requires Batched(sent, groups, cap, helperCap) && S.Flatten(groups) == done && sent != []
    requires 3 < helperCap <= cap && |sent[|sent| - 1]| + |Written(p, 0, helperCap)| >= cap
    ensures Sending(done + [p], sent, groups, [p], Written(p, 0, helperCap), cap, helperCap)
  {
    WrittenBound(p, helperCap);
    WrittenAppend([], p, helperCap);
    assert [] + [p] == [p] && [] + Written(p, 0, helperCap) == Written(p, 0, helperCap);
  }

  /** One packet: written to the helper, appended to the write buffer; if it has no room, the buffer is sent first. */
  method SendOne(p: Packet, writeBuffer: B.ByteBuffer, helper: B.ByteBuffer, sent: seq<seq<Byte>>,
                 ghost done: seq<Packet>, ghost groups: seq<seq<Packet>>, ghost open: seq<Packet>)
    returns (sentNow: seq<seq<Byte>>, ghost groupsNow: seq<seq<Packet>>, ghost openNow: seq<Packet>)
    requires writeBuffer.Valid() && helper.Valid() && writeBuffer != helper && writeBuffer.buf != helper.buf
    requires 3 < helper.buf.Length <= writeBuffer.buf.Length && Countable(p) && writeBuffer.read == 0
    requires Sending(done, sent, groups, open, writeBuffer.Content(), writeBuffer.buf.Length, helper.buf.Length)
    modifies writeBuffer, writeBuffer.buf, helper, helper.buf
    ensures writeBuffer.Valid() && helper.Valid() && writeBuffer.read == 0
    ensures Sending(done + [p], sentNow, groupsNow, openNow,
                    writeBuffer.Content(), writeBuffer.buf.Length, helper.buf.Length)
  {
    ghost var content, cap, helperCap := writeBuffer.Content(), writeBuffer.buf.Length, helper.buf.Length;
    helper.Reset();
    WritePacket(helper, p);
    assert helper.Content() == Written(p, 0, helperCap);
    WrittenBound(p, helperCap);
    var fitted := writeBuffer.AppendContent(helper);
    if fitted {
      PacketFitted(done, sent, groups, open, content, cap, helperCap, p);
      sentNow, groupsNow, openNow := sent, groups, open + [p];
    } else {
      GroupSent(done, sent, groups, open, content, cap, helperCap);
      sentNow, groupsNow, openNow := sent + [writeBuffer.buf[..writeBuffer.used]], groups + [open], [p];
      GroupOpened(done, sentNow, groupsNow, cap, helperCap, p);
      writeBuffer.Reset();
      fitted := writeBuffer.AppendContent(helper);
    }
  }

  lemma InQueue(queue: seq<Packet>, done: seq<Packet>, todo: seq<Packet>)
    requires queue == done + todo && todo != []
    ensures todo[0] in queue && queue == (done + [todo[0]]) + todo[1..]
  {
    assert queue[|done|] == todo[0];
  }

  method WriteToConnection(con: Connection, writeBuffer: B.ByteBuffer, helper: B.ByteBuffer)
    returns (sent: seq<seq<Byte>>, ghost groups: seq<seq<Packet>>)
    requires writeBuffer.Valid() && helper.Valid() && writeBuffer != helper && writeBuffer.buf != helper.buf
    requires 3 < helper.buf.Length <= writeBuffer.buf.Length && (forall p :: p in con.sendPackets ==> Countable(p))
    modifies con, writeBuffer, writeBuffer.buf, helper, helper.buf
    ensures con.sendPackets == [] && S.Flatten(groups) == old(con.sendPackets)
    ensures Batched(sent, groups, writeBuffer.buf.Length, helper.buf.Length)
  {
    ghost var cap, helperCap := writeBuffer.buf.Length, helper.buf.Length;
    ghost var queue, todo := con.sendPackets, con.sendPackets;
    sent, groups := [], [];
    ghost var open, done: seq<Packet> := [], [];
    writeBuffer.Reset();
    var next := con.PollSendablePacket();
    while next != None
      invariant writeBuffer.Valid() && helper.Valid() && writeBuffer.read == 0
      invariant queue == done + todo
      invariant if todo == [] then next == None && con.sendPackets == []
                else next == Some(todo[0]) && con.sendPackets == todo[1..]
      invariant Sending(done, sent, groups, open, writeBuffer.Content(), cap, helperCap)
      decreases |todo|
    {
      InQueue(queue, done, todo);
      sent, groups, open := SendOne(next.value, writeBuffer, helper, sent, done, groups, open);
      done, todo := done + [todo[0]], todo[1..];
      next := con.PollSendablePacket();
    }
    if writeBuffer.used > 0 {
      GroupSent(done, sent, groups, open, writeBuffer.Content(), cap, helperCap);
      sent, groups := sent + [writeBuffer.buf[..writeBuffer.used]], groups + [open];
    }
  }

  // ---------- receiving

  /** Packets delivered before, joined to what the remaining receives bring. */
  function After(delivered: seq<Packet>, thrown: bool, more: S.Fed): S.Fed {
    S.Fed(more.buffer, more.left, delivered + more.delivered, thrown || more.thrown)
  }

  lemma AfterAfter(d: seq<Packet>, t: bool, e: seq<Packet>, u: bool, more: S.Fed)
    ensures After(d, t, After(e, u, more)) == After(d + e, t || u, more)
  {
    S.Assoc(d, e, more.delivered);
  }

  lemma FeedOne(h: S.Handler, cap: nat, b: B.Cursor, left: seq<Byte>, sizes: seq<nat>, n: nat)
    requires sizes != [] && n > 0 && n == A.Received(sizes[0], A.Room(|b.content|, cap), |left|)
    ensures var (next, outcome) := h(B.Buf(b.content + left[..n], b.read));
            S.Feed(h, cap, b, left, sizes)
            == After(if outcome.Delivered? then [outcome.packet] else [], outcome.Thrown?,
                     S.Feed(h, cap, next, left[n..], sizes[1..]))
  {
  }

  method ReceiveOnce(side: Side, readBuffer: B.ByteBuffer, bytes: seq<Byte>) returns (outcome: Outcome)
    requires readBuffer.Valid() && readBuffer.used + |bytes| <= readBuffer.buf.Length
    modifies readBuffer, readBuffer.buf
    ensures readBuffer.Valid()
    ensures (readBuffer.State(), outcome)
         == Handle(side, readBuffer.buf.Length, B.Buf(old(readBuffer.Content()) + bytes, old(readBuffer.read)))
  {
    readBuffer.Copy(bytes);
    outcome := HandlePacket(side, readBuffer);
  }

  /** What the loop will have brought at the end, if it begins with an empty buffer. */
  function AllFed(side: Side, cap: nat, incoming: seq<Byte>, sizes: seq<nat>): S.Fed {
    S.Feed(Handler(side, cap), cap, B.Buf([], 0), incoming, sizes)
  }

  /** After `count` receives: what was brought so far, and the buffer and the bytes the loop goes on with. */
  ghost predicate Reads(side: Side, cap: nat, b: B.Cursor, incoming: seq<Byte>, sizes: seq<nat>,
                        left: seq<Byte>, count: nat, delivered: seq<Packet>, thrown: bool)
  {
    && count <= |sizes| && |left| <= |incoming| && left == incoming[|incoming| - |left|..]
    && AllFed(side, cap, incoming, sizes)
       == After(delivered, thrown, S.Feed(Handler(side, cap), cap, b, left, sizes[count..]))
  }

  lemma ReadsNothing(side: Side, cap: nat, incoming: seq<Byte>, sizes: seq<nat>)
    ensures Reads(side, cap, B.Buf([], 0), incoming, sizes, incoming, 0, [], false)
  {
    assert sizes[0..] == sizes && [] + AllFed(side, cap, incoming, sizes).delivered
                                  == AllFed(side, cap, incoming, sizes).delivered;
  }

  lemma ReadsMore(side: Side, cap: nat, b: B.Cursor, incoming: seq<Byte>, sizes: seq<nat>, left: seq<Byte>,
                  count: nat, delivered: seq<Packet>, thrown: bool, n: nat, next: B.Buf, outcome: Outcome)
    requires Reads(side, cap, b, incoming, sizes, left, count, delivered, thrown) && count < |sizes| && n > 0
    requires n == A.Received(sizes[count], A.Room(|b.content|, cap), |left|)
    requires (next, outcome) == Handle(side, cap, B.Buf(b.content + left[..n], b.read))
    ensures Reads(side, cap, next, incoming, sizes, left[n..], count + 1,
                  delivered + if outcome.Delivered? then [outcome.packet] else [], thrown || outcome.Thrown?)
  {
    var h := Handler(side, cap);
    assert h(B.Buf(b.content + left[..n], b.read)) == (next, outcome);
    assert sizes[count..][1..] == sizes[count + 1..];
    FeedOne(h, cap, b, left, sizes[count..], n);
    AfterAfter(delivered, thrown, if outcome.Delivered? then [outcome.packet] else [], outcome.Thrown?,
               S.Feed(h, cap, next, left[n..], sizes[count + 1..]));
  }

  lemma ReadsAll(side: Side, cap: nat, b: B.Cursor, incoming: seq<Byte>, sizes: seq<nat>, left: seq<Byte>,
                 count: nat, delivered: seq<Packet>, thrown: bool)
    requires Reads(side, cap, b, incoming, sizes, left, count, delivered, thrown)
    requires count == |sizes| || A.Received(sizes[count], A.Room(|b.content|, cap), |left|) == 0
    ensures AllFed(side, cap, incoming, sizes) == S.Fed(b, left, delivered, thrown)
  {
    assert delivered + [] == delivered;
  }

  /**
   `incoming` is what the peer has sent, `sizes` how much of it each receive offers until a timeout ends the loop.
   Otherwise the loop ends at receive number `count` only because it offers nothing, nothing is left or the buffer is
   full.
   */
  method ReadFromConnection(side: Side, readBuffer: B.ByteBuffer, incoming: seq<Byte>, sizes: seq<nat>)
    returns (delivered: seq<Packet>, thrown: bool, left: seq<Byte>, count: nat)
    requires readBuffer.Valid()
    modifies readBuffer, readBuffer.buf
    ensures readBuffer.Valid()
    ensures S.Fed(readBuffer.State(), left, delivered, thrown)
         == AllFed(side, readBuffer.buf.Length, incoming, sizes)
    ensures count <= |sizes| && |left| <= |incoming| && left == incoming[|incoming| - |left|..]
    ensures count == |sizes| || sizes[count] == 0 || left == [] || readBuffer.used == readBuffer.buf.Length
  {
    ghost var cap := readBuffer.buf.Length;
    readBuffer.Reset();
    delivered, thrown, left, count := [], false, incoming, 0;
    ReadsNothing(side, cap, incoming, sizes);
    while count < |sizes|
      invariant readBuffer.Valid()
      invariant Reads(side, cap, readBuffer.State(), incoming, sizes, left, count, delivered, thrown)
    {
      var received := A.Received(sizes[count], readBuffer.buf.Length - readBuffer.used, |left|);
      if received == 0 {
        break;
      }
      ghost var b := readBuffer.State();
      var outcome := ReceiveOnce(side, readBuffer, left[..received]);
      ReadsMore(side, cap, b, incoming, sizes, left, count, delivered, thrown, received, readBuffer.State(), outcome);
      delivered := delivered + if outcome.Delivered? then [outcome.packet] else [];
      thrown := thrown || outcome.Thrown?;
      left, count := left[received..], count + 1;
    }
    ReadsAll(side, cap, readBuffer.State(), incoming, sizes, left, count, delivered, thrown);
  }

  // ---------- from queue to queue

  predicate AllFit(ps: seq<Packet>, cap: nat) {
    forall i :: 0 <= i < |ps| ==> Fits(ps[i], cap)
  }

  lemma {:induction false} WrittenAllFits(ps: seq<Packet>, cap: nat)
    requires 3 < cap
    ensures |WrittenAll(ps, cap)| <= |FrameAll(ps)|
    ensures WrittenAll(ps, cap) == FrameAll(ps) <==> AllFit(ps, cap)
    ensures |WrittenAll(ps, cap)| == |FrameAll(ps)| ==> AllFit(ps, cap)
  {
    if ps != [] {
      WrittenIsFrame(ps[0], 0, cap);
      WrittenAllFits(ps[1..], cap);
    }
  }

  lemma {:induction false} WrittenConcat(a: seq<Packet>, b: seq<Packet>, cap: nat)
    ensures WrittenAll(a + b, cap) == WrittenAll(a, cap) + WrittenAll(b, cap)
  {
    if a == [] {
      assert a + b == b;
    } else {
      assert (a + b)[0] == a[0] && (a + b)[1..] == a[1..] + b;
      WrittenConcat(a[1..], b, cap);
    }
  }

  lemma {:induction false} ChunksConcat(sent: seq<seq<Byte>>, groups: seq<seq<Packet>>, cap: nat)
    requires |sent| == |groups| && forall i :: 0 <= i < |sent| ==> sent[i] == WrittenAll(groups[i], cap)
    ensures S.Flatten(sent) == WrittenAll(S.Flatten(groups), cap)
  {
    if sent != [] {
      ChunksConcat(sent[1..], groups[1..], cap);
      WrittenConcat(groups[0], S.Flatten(groups[1..]), cap);
    }
  }

  lemma BatchedBytes(sent: seq<seq<Byte>>, groups: seq<seq<Packet>>, cap: nat, helperCap: nat)
    requires Batched(sent, groups, cap, helperCap)
    ensures S.Flatten(sent) == WrittenAll(S.Flatten(groups), helperCap)
  {
    forall i | 0 <= i < |sent| ensures sent[i] == WrittenAll(groups[i], helperCap) {
      assert Chunk(sent, groups, cap, helperCap, i);
    }
    ChunksConcat(sent, groups, helperCap);
  }

  lemma {:induction false} InFlatten<T>(groups: seq<seq<T>>, i: nat, x: T)
    requires i < |groups| && x in groups[i]
    ensures x in S.Flatten(groups)
  {
    if i > 0 {
      InFlatten(groups[1..], i - 1, x);
    }
  }

  lemma FitIsReceivable(side: Side, rcap: nat, cap: nat, ps: seq<Packet>)
    requires cap <= 0x1_0000 && cap <= rcap && AllFit(ps, cap) && forall p :: p in ps ==> SideOf(p) == side
    ensures AllReceivable(side, rcap, ps)
  {
  }

  /** The chunks sent for a queue are the frames of its packets exactly when the helper buffer had strict room for each;
      and then repeated handlePacket on all these bytes gives the queue back, in order and complete. */
  lemma QueueRoundTrip(side: Side, rcap: nat, cap: nat, helperCap: nat, queue: seq<Packet>,
                       sent: seq<seq<Byte>>, groups: seq<seq<Packet>>)
    requires 3 < helperCap <= 0x1_0000 && helperCap <= rcap
    requires Batched(sent, groups, cap, helperCap) && S.Flatten(groups) == queue
    ensures S.Flatten(sent) == FrameAll(queue) <==> AllFit(queue, helperCap)
    ensures AllFit(queue, helperCap) && (forall p :: p in queue ==> SideOf(p) == side) ==>
              S.Repeat(Handler(side, rcap), B.Buf(S.Flatten(sent), 0), |queue|)
              == (B.Buf(S.Flatten(sent), |S.Flatten(sent)|), S.AllDelivered(queue))
  {
    BatchedBytes(sent, groups, cap, helperCap);
    WrittenAllFits(queue, helperCap);
    if AllFit(queue, helperCap) && forall p :: p in queue ==> SideOf(p) == side {
      FitIsReceivable(side, rcap, helperCap, queue);
      PacketsBack(side, rcap, queue);
    }
  }

  /** No packet is split across chunks: each chunk by itself gives the packets of its group. */
  lemma ChunkRoundTrip(side: Side, rcap: nat, cap: nat, helperCap: nat, queue: seq<Packet>,
                       sent: seq<seq<Byte>>, groups: seq<seq<Packet>>, i: nat)
    requires 3 < helperCap <= 0x1_0000 && helperCap <= rcap && i < |sent|
    requires Batched(sent, groups, cap, helperCap) && S.Flatten(groups) == queue
    requires AllFit(queue, helperCap) && forall p :: p in queue ==> SideOf(p) == side
    ensures S.Repeat(Handler(side, rcap), B.Buf(sent[i], 0), |groups[i]|)
         == (B.Buf(sent[i], |sent[i]|), S.AllDelivered(groups[i]))
  {
    assert Chunk(sent, groups, cap, helperCap, i);
    forall p | p in groups[i] ensures SideOf(p) == side && Fits(p, helperCap) {
      InFlatten(groups, i, p);
    }
    WrittenAllFits(groups[i], helperCap);
    FitIsReceivable(side, rcap, helperCap, groups[i]);
    PacketsBack(side, rcap, groups[i]);
  }

  /**
   However the network cuts those bytes: a call throws if and only if a receive cuts a header, and otherwise the
   first packets of the queue are delivered, one with each receive behind which the next frame is whole.
   */
  lemma QueueArrives(side: Side, rcap: nat, cap: nat, helperCap: nat, queue: seq<Packet>,
                     sent: seq<seq<Byte>>, groups: seq<seq<Packet>>, sizes: seq<nat>)
    requires 3 < helperCap <= 0x1_0000 && helperCap <= rcap
    requires Batched(sent, groups, cap, helperCap) && S.Flatten(groups) == queue
    requires AllFit(queue, helperCap) && forall p :: p in queue ==> SideOf(p) == side
    ensures var r := S.Feed(Handler(side, rcap), rcap, B.Buf([], 0), S.Flatten(sent), sizes);
            && (r.thrown <==> HeaderCut(rcap, queue, sizes))
            && (!r.thrown ==> r.delivered == queue[..Arrived(rcap, queue, sizes)])
  {
    BatchedBytes(sent, groups, cap, helperCap);
    WrittenAllFits(queue, helperCap);
    FitIsReceivable(side, rcap, helperCap, queue);
    ArrivalsExact(side, rcap, queue, sizes);
  }
}
