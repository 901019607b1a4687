/** What handlePacket makes of the bytes of one packet. */
module Framing {
  import opened Common
  import opened Bytes
  import opened Codec
  import opened PacketHandler
  import A = Arrivals
  import B = ByteBuffer
  import S = Streams

  /** The packet is meant for this receiver, and its length is representable and acceptable there. */
  predicate Receivable(side: Side, cap: nat, p: Packet) {
    SideOf(p) == side && |Encode(p)| < 0x1_0000 && |Encode(p)| <= cap
  }

  lemma HeaderParts(opcode: Byte, length: seq<Byte>, body: seq<Byte>, rest: seq<Byte>)
    requires |length| == 2
    ensures var bs := ([opcode] + length + body) + rest;
            |bs| >= 3 && bs[0] == opcode && bs[1..3] == length && bs[3..] == body + rest
  {
  }

  lemma FrameParts(p: Packet, rest: seq<Byte>)
    requires |Encode(p)| < 0x1_0000
    ensures var bs := Frame(p) + rest;
            |bs| >= 3 && bs[0] == Opcode(p) && Unsigned(bs[1..3]) == |Encode(p)| && bs[3..] == Encode(p) + rest
  {
    LengthBytes(|Encode(p)|);
    HeaderParts(Opcode(p), Little(|Encode(p)|, 2), Encode(p), rest);
  }

  lemma HandleWhole(side: Side, cap: nat, b: B.Buf, opcode: Byte, size: nat, p: Packet, rest: seq<Byte>)
    requires b.read <= |b.content| && Known(opcode) && |Unread(b)| >= 3
    requires Unread(b)[0] == opcode && Unsigned(Unread(b)[1..3]) == size <= cap && size <= |Unread(b)| - 3
    requires Decode(side, opcode, Unread(b)[3..]) == Got(p, rest)
    ensures Handle(side, cap, b) == (B.Buf(b.content, |b.content| - |rest|), Delivered(p))
  {
    assert Unread(B.Buf(b.content, b.read + 3)) == Unread(b)[3..];
  }

  /** A complete frame is delivered and only its bytes are consumed. */
  lemma HandleFrame(side: Side, cap: nat, b: B.Buf, p: Packet, rest: seq<Byte>)
    requires b.read <= |b.content| && Unread(b) == Frame(p) + rest && Receivable(side, cap, p)
    ensures Handle(side, cap, b) == (B.Buf(b.content, |b.content| - |rest|), Delivered(p))
  {
    FrameParts(p, rest);
    DecodeBack(p, rest);
    HandleWhole(side, cap, b, Opcode(p), |Encode(p)|, p, rest);
  }

  lemma PrefixHeader(p: Packet, bs: seq<Byte>)
    requires |Encode(p)| < 0x1_0000 && bs <= Frame(p) && 3 <= |bs|
    ensures bs[0] == Opcode(p) && Unsigned(bs[1..3]) == |Encode(p)|
  {
    FrameParts(p, []);
    assert bs[1..3] == (Frame(p) + [])[1..3];
  }

  /** A header without all of its content stays in the buffer, moved to the front. */
  lemma HandlePart(side: Side, cap: nat, b: B.Buf, p: Packet)
    requires b.read <= |b.content| && Receivable(side, cap, p) && Unread(b) < Frame(p) && 3 <= |Unread(b)|
    ensures Handle(side, cap, b) == (B.Buf(Unread(b), 0), Nothing)
  {
    PrefixHeader(p, Unread(b));
  }

  /** The bytes written for a packet give it back exactly when the sending buffer had strict room for its frame. */
  lemma OnePacketRoundTrip(p: Packet, cap: nat, rcap: nat)
    requires 3 < cap <= 0x1_0000 && cap <= rcap
    ensures Handle(SideOf(p), rcap, B.Buf(Written(p, 0, cap), 0)).1 == Delivered(p) <==> Fits(p, cap)
  {
    var bs := Written(p, 0, cap);
    WrittenIsFrame(p, 0, cap);
    assert bs[0..] == bs;
    if Fits(p, cap) {
      assert bs == Frame(p) + [];
      HandleFrame(SideOf(p), rcap, B.Buf(bs, 0), p, []);
    } else if Handle(SideOf(p), rcap, B.Buf(bs, 0)).1 == Delivered(p) {
      assert Unread(B.Buf(bs, 3)) == bs[3..];
      DecodeLength(SideOf(p), bs[0], bs[3..]);
      assert false;
    }
  }

  /** handlePacket as a value. */
  function Handler(side: Side, cap: nat): S.Handler {
    b => Handle(side, cap, b)
  }

  /** h is handlePacket, and f the frame of a packet it can receive. */
  ghost predicate Fitting(h: S.Handler, f: seq<Byte>, side: Side, cap: nat, p: Packet) {
    h == Handler(side, cap) && f == Frame(p) && Receivable(side, cap, p)
  }

  lemma HandlerDelivers(h: S.Handler, f: seq<Byte>, side: Side, cap: nat, p: Packet, b: B.Cursor, rest: seq<Byte>)
    requires Fitting(h, f, side, cap, p)
    ensures S.DeliversAt(h, f, p, b, rest)
  {
    if Unread(b) == f + rest {
      HandleFrame(side, cap, b, p, rest);
    }
  }

  lemma HandlerWaits(h: S.Handler, f: seq<Byte>, side: Side, cap: nat, p: Packet, b: B.Cursor)
    requires Fitting(h, f, side, cap, p)
    ensures S.WaitsAt(h, f, b)
  {
    if Unread(b) < f && 3 <= |Unread(b)| {
      HandlePart(side, cap, b, p);
    }
  }

  lemma FrameLength(p: Packet)
    ensures |Frame(p)| == 3 + |Encode(p)|
  {
  }

  lemma DeliversAll(h: S.Handler, f: seq<Byte>, side: Side, cap: nat, p: Packet)
    requires Fitting(h, f, side, cap, p)
    ensures S.DeliversWhole(h, f, p)
  {
    forall b: B.Cursor, rest: seq<Byte> ensures S.DeliversAt(h, f, p, b, rest) {
      HandlerDelivers(h, f, side, cap, p, b, rest);
    }
  }

  lemma WaitsAll(h: S.Handler, f: seq<Byte>, side: Side, cap: nat, p: Packet)
    requires Fitting(h, f, side, cap, p)
    ensures S.WaitsForRest(h, f)
  {
    forall b: B.Cursor ensures S.WaitsAt(h, f, b) {
      HandlerWaits(h, f, side, cap, p, b);
    }
  }

  /** handlePacket is a parser of frames in the sense of module Streams. */
  lemma HandlerParses(side: Side, cap: nat, p: Packet)
    requires Receivable(side, cap, p)
    ensures S.Parses(Handler(side, cap), Frame(p), p)
  {
    FrameLength(p);
    DeliversAll(Handler(side, cap), Frame(p), side, cap, p);
    WaitsAll(Handler(side, cap), Frame(p), side, cap, p);
  }

  // ---------- rows of packets

  predicate AllReceivable(side: Side, cap: nat, ps: seq<Packet>) {
    forall i :: 0 <= i < |ps| ==> Receivable(side, cap, ps[i])
  }

  function Frames(ps: seq<Packet>): (frames: seq<seq<Byte>>)
    ensures |frames| == |ps| && forall i :: 0 <= i < |ps| ==> frames[i] == Frame(ps[i])
  {
    if ps == [] then [] else [Frame(ps[0])] + Frames(ps[1..])
  }

  /** All that a sender with room for its packets puts on the wire. */
  function FrameAll(ps: seq<Packet>): seq<Byte> {
    S.Flatten(Frames(ps))
  }

  lemma EmptyUnread(side: Side, cap: nat)
    ensures S.HeaderFirst(Handler(side, cap))
  {
  }

  lemma AllParsed(side: Side, cap: nat, ps: seq<Packet>)
    requires AllReceivable(side, cap, ps)
    ensures S.AllParse(Handler(side, cap), Frames(ps), ps)
  {
    EmptyUnread(side, cap);
    forall i | 0 <= i < |ps| ensures S.Parses(Handler(side, cap), Frames(ps)[i], ps[i]) {
      HandlerParses(side, cap, ps[i]);
    }
  }

  /** Repeated handlePacket on the bytes of some packets gives exactly these packets, in order, and uses every byte. */
  lemma PacketsBack(side: Side, cap: nat, ps: seq<Packet>)
    requires AllReceivable(side, cap, ps)
    ensures S.Repeat(Handler(side, cap), B.Buf(FrameAll(ps), 0), |ps|)
         == (B.Buf(FrameAll(ps), |FrameAll(ps)|), S.AllDelivered(ps))
  {
    AllParsed(side, cap, ps);
    AllBack(Handler(side, cap), Frames(ps), ps);
  }

  lemma AllBack(h: S.Handler, frames: seq<seq<Byte>>, ps: seq<Packet>)
    requires S.AllParse(h, frames, ps)
    ensures S.Repeat(h, B.Buf(S.Flatten(frames), 0), |ps|)
         == (B.Buf(S.Flatten(frames), |S.Flatten(frames)|), S.AllDelivered(ps))
  {
    var all := S.Flatten(frames);
    assert all[0..] == all + [];
    S.FramesBack(h, B.Buf(all, 0), frames, ps, []);
  }

  /** The bytes of one packet in any pieces: no call throws exactly when the first piece holds the whole header, and
      then nothing is delivered until the last piece, which delivers the packet. */
  lemma PacketInPieces(side: Side, cap: nat, p: Packet, sizes: seq<nat>, k: nat)
    requires Receivable(side, cap, p) && |Frame(p)| <= cap
    requires sizes != [] && A.Sum(sizes) == |Frame(p)| && k <= |sizes|
    requires forall i :: 0 <= i < |sizes| ==> sizes[i] > 0
    ensures var r := S.Feed(Handler(side, cap), cap, B.Buf([], 0), Frame(p), sizes[..k]);
            && (k > 0 ==> (r.thrown <==> sizes[0] < 3))
            && (sizes[0] >= 3 ==> !r.thrown && r.delivered == if k == |sizes| then [p] else [])
  {
    AllParsed(side, cap, [p]);
    if sizes[0] >= 3 {
      assert Frames([p]) == [Frame(p)];
      S.Fragmentation(Handler(side, cap), cap, Frame(p), p, sizes, k);
    } else if k > 0 {
      EmptyUnread(side, cap);
      FrameParts(p, []);
      assert sizes[..k][0] == sizes[0];
      S.HeaderCut(Handler(side, cap), cap, Frame(p), sizes[..k]);
    }
  }

  // ---------- rows of packets in pieces

  /** An empty buffer, and the frames of some packets on their way. */
  function Start(ps: seq<Packet>): A.Reader {
    A.Reader(S.Lengths(Frames(ps)), 0, 0)
  }

  /** What the receives of a buffer of capacity `cap` bring, while the packets arrive. */
  function Brought(cap: nat, ps: seq<Packet>, sizes: seq<nat>): seq<nat> {
    A.Pieces(Start(ps), cap, |FrameAll(ps)|, sizes)
  }

  predicate HeaderCut(cap: nat, ps: seq<Packet>, sizes: seq<nat>) {
    A.CutsHeader(Start(ps), Brought(cap, ps, sizes))
  }

  /** How many of the packets the receives deliver if no header is cut. */
  function Arrived(cap: nat, ps: seq<Packet>, sizes: seq<nat>): (n: nat)
    ensures n <= |ps|
  {
    A.Done(Start(ps), Brought(cap, ps, sizes))
  }

  /**
   The bytes of packets in any pieces at all: a call throws if and only if a receive cuts a header in two, and
   otherwise the first packets sent are delivered, one with each receive behind which the next frame is whole.
   */
  lemma ArrivalsExact(side: Side, cap: nat, ps: seq<Packet>, sizes: seq<nat>)
    requires AllReceivable(side, cap, ps)
    ensures var r := S.Feed(Handler(side, cap), cap, B.Buf([], 0), FrameAll(ps), sizes);
            && (r.thrown <==> HeaderCut(cap, ps, sizes))
            && (!r.thrown ==> S.Delivers(r, Frames(ps), ps, Arrived(cap, ps, sizes)))
  {
    AllParsed(side, cap, ps);
    assert [] + FrameAll(ps) == FrameAll(ps);
    S.FeedExact(Handler(side, cap), cap, B.Buf([], 0), FrameAll(ps), sizes, Frames(ps), ps);
  }

  /** Of packets in any pieces all are delivered if and only if no header is cut and each frame is whole in time. */
  lemma AllArrive(side: Side, cap: nat, ps: seq<Packet>, sizes: seq<nat>)
    requires AllReceivable(side, cap, ps)
    ensures var r := S.Feed(Handler(side, cap), cap, B.Buf([], 0), FrameAll(ps), sizes);
            !r.thrown && r.delivered == ps <==>
              !HeaderCut(cap, ps, sizes) && A.InTime(Start(ps).lens, 0, Brought(cap, ps, sizes))
  {
    ArrivalsExact(side, cap, ps, sizes);
    A.AllDone(Start(ps), Brought(cap, ps, sizes));
    assert ps[..|ps|] == ps;
  }

  lemma LengthOfFirst(ps: seq<Packet>, k: nat)
    requires k <= |ps|
    ensures |FrameAll(ps[..k])| == A.Sum(S.Lengths(Frames(ps))[..k])
  {
    assert Frames(ps[..k]) == Frames(ps)[..k];
    S.FlattenLength(Frames(ps), k);
  }

  /** Where the first i receives end when the buffer has room for everything. */
  function Position(ps: seq<Packet>, sizes: seq<nat>, i: nat): nat
    requires i <= |sizes|
  {
    A.Min(A.Sum(sizes[..i]), |FrameAll(ps)|)
  }

  /** The first i receives end one or two bytes behind the end of the first k packets. */
  predicate EndsInHeader(ps: seq<Packet>, sizes: seq<nat>, k: nat, i: nat)
    requires k <= |ps| && i <= |sizes|
  {
    0 < Position(ps, sizes, i) - |FrameAll(ps[..k])| < 3
  }

  /** If no receive ends one or two bytes behind the end of a packet, no call throws. */
  lemma SafePieces(side: Side, cap: nat, ps: seq<Packet>, sizes: seq<nat>)
    requires AllReceivable(side, cap, ps) && |FrameAll(ps)| <= cap
    requires forall k: nat, i: nat :: k <= |ps| && i <= |sizes| ==> !EndsInHeader(ps, sizes, k, i)
    ensures !S.Feed(Handler(side, cap), cap, B.Buf([], 0), FrameAll(ps), sizes).thrown
  {
    var start, pieces := Start(ps), Brought(cap, ps, sizes);
    A.PiecesPositive(start, cap, |FrameAll(ps)|, sizes);
    forall k: nat, i: nat | k <= |start.lens| && i <= |pieces| ensures !A.EndsInHeader(start.lens, 0, pieces, k, i) {
      A.PiecesReach(start, cap, |FrameAll(ps)|, sizes, i);
      LengthOfFirst(ps, k);
      assert !EndsInHeader(ps, sizes, k, i);
    }
    A.AwayIsUncut(start, pieces);
    ArrivalsExact(side, cap, ps, sizes);
  }

  /** Packets received together: the first is delivered, the others stay in a buffer that is about to be reset. */
  lemma CoalescedAreLost(side: Side, cap: nat, ps: seq<Packet>, size: nat)
    requires ps != [] && AllReceivable(side, cap, ps)
    requires |FrameAll(ps)| <= size && |FrameAll(ps)| <= cap
    ensures var r := S.Feed(Handler(side, cap), cap, B.Buf([], 0), FrameAll(ps), [size]);
            !r.thrown && r.delivered == [ps[0]] && r.left == [] && Unread(r.buffer) == S.Flatten(Frames(ps)[1..])
  {
    AllParsed(side, cap, ps);
    S.CoalescedFrames(Handler(side, cap), cap, Frames(ps), ps, size);
  }
}
