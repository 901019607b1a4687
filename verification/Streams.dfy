/** Frames arriving in pieces at any parser that delivers a whole frame and waits for the rest of a partial one. */
module Streams {
  import opened Common
  import opened PacketHandler
  import A = Arrivals
  import B = ByteBuffer

  /** One call: the buffer before, the buffer after and what the call did. */
  type Handler = B.Cursor -> (B.Cursor, Outcome)

  ghost predicate DeliversAt(h: Handler, f: seq<Byte>, p: Packet, b: B.Cursor, rest: seq<Byte>) {
    Unread(b) == f + rest ==>
      |rest| <= |b.content| && h(b) == (B.Buf(b.content, |b.content| - |rest|), Delivered(p))
  }

  ghost predicate WaitsAt(h: Handler, f: seq<Byte>, b: B.Cursor) {
    Unread(b) < f && 3 <= |Unread(b)| ==> h(b) == (B.Buf(Unread(b), 0), Nothing)
  }

  /** Handed a whole frame, h delivers its packet and stops behind it. */
  ghost predicate DeliversWhole(h: Handler, f: seq<Byte>, p: Packet) {
    forall b: B.Cursor, rest: seq<Byte> :: DeliversAt(h, f, p, b, rest)
  }

  /** Handed part of a frame, h waits for the rest. */
  ghost predicate WaitsForRest(h: Handler, f: seq<Byte>) {
    forall b: B.Cursor :: WaitsAt(h, f, b)
  }

  ghost predicate Parses(h: Handler, f: seq<Byte>, p: Packet) {
    |f| >= 3 && DeliversWhole(h, f, p) && WaitsForRest(h, f)
  }

  ghost predicate HeaderFirst(h: Handler) {
    forall b: B.Cursor {:trigger h(b)} ::
      |Unread(b)| < 3 ==> if Unread(b) == [] then h(b) == (b, Nothing) else h(b).1 == Thrown
  }

  ghost predicate AllParse(h: Handler, frames: seq<seq<Byte>>, ps: seq<Packet>) {
    && HeaderFirst(h)
    && |frames| == |ps|
    && forall i {:trigger Parses(h, frames[i], ps[i])} :: 0 <= i < |ps| ==> Parses(h, frames[i], ps[i])
  }

  /** h delivers the first packet of a row of frames. */
  lemma FirstWhole(h: Handler, frames: seq<seq<Byte>>, ps: seq<Packet>, b: B.Cursor, rest: seq<Byte>)
    requires AllParse(h, frames, ps) && ps != [] && Unread(b) == frames[0] + rest
    ensures |rest| <= |b.content| && h(b) == (B.Buf(b.content, |b.content| - |rest|), Delivered(ps[0]))
    ensures Unread(B.Buf(b.content, |b.content| - |rest|)) == rest
  {
    assert Parses(h, frames[0], ps[0]) && DeliversAt(h, frames[0], ps[0], b, rest);
    UnreadEnd(b, frames[0], rest);
  }

  /** h waits for the rest of the first of a row of frames. */
  lemma FirstPart(h: Handler, frames: seq<seq<Byte>>, ps: seq<Packet>, b: B.Cursor)
    requires AllParse(h, frames, ps) && ps != [] && Unread(b) < frames[0] && 3 <= |Unread(b)|
    ensures h(b) == (B.Buf(Unread(b), 0), Nothing)
  {
    assert Parses(h, frames[0], ps[0]) && WaitsAt(h, frames[0], b);
  }

  lemma RestParse(h: Handler, frames: seq<seq<Byte>>, ps: seq<Packet>)
    requires AllParse(h, frames, ps) && ps != []
    ensures AllParse(h, frames[1..], ps[1..])
  {
    forall i | 0 <= i < |ps[1..]| ensures Parses(h, frames[1..][i], ps[1..][i]) {
      assert Parses(h, frames[i + 1], ps[i + 1]);
    }
  }

  function Flatten<T>(chunks: seq<seq<T>>): seq<T> {
    if chunks == [] then [] else chunks[0] + Flatten(chunks[1..])
  }

  lemma Assoc<T>(a: seq<T>, b: seq<T>, c: seq<T>)
    ensures (a + b) + c == a + (b + c)
  {
  }

  lemma UnreadEnd(b: B.Cursor, front: seq<Byte>, rest: seq<Byte>)
    requires Unread(b) == front + rest
    ensures |rest| <= |b.content| && Unread(B.Buf(b.content, |b.content| - |rest|)) == rest
  {
  }

  // ---------- calls in a row on bytes that are all there

  function Repeat(h: Handler, b: B.Cursor, n: nat): (r: (B.Cursor, seq<Outcome>))
    decreases n
  {
    if n == 0 then (b, [])
    else
      var (next, first) := h(b);
      var (last, more) := Repeat(h, next, n - 1);
      (last, [first] + more)
  }

  function AllDelivered(ps: seq<Packet>): seq<Outcome> {
    if ps == [] then [] else [Delivered(ps[0])] + AllDelivered(ps[1..])
  }

  /** Repeated calls on frames in a row deliver exactly those packets, in order, and leave what follows unread. */
  lemma {:induction false} FramesBack(h: Handler, b: B.Cursor, frames: seq<seq<Byte>>, ps: seq<Packet>, rest: seq<Byte>)
    requires AllParse(h, frames, ps) && Unread(b) == Flatten(frames) + rest
    ensures |rest| <= |b.content|
    ensures Repeat(h, b, |ps|) == (B.Buf(b.content, |b.content| - |rest|), AllDelivered(ps))
    decreases |ps|
  {
    if ps != [] {
      var behind := Flatten(frames[1..]) + rest;
      Assoc(frames[0], Flatten(frames[1..]), rest);
      FirstWhole(h, frames, ps, b, behind);
      RestParse(h, frames, ps);
      FramesBack(h, B.Buf(b.content, |b.content| - |behind|), frames[1..], ps[1..], rest);
    }
  }

  // ---------- pieces: append what was received, call the parser once

  /** Buffer and unreceived bytes at the end, packets delivered on the way, and whether a call threw. */
  datatype Fed = Fed(buffer: B.Cursor, left: seq<Byte>, delivered: seq<Packet>, thrown: bool)

  /** One receive per size; a receive of nothing ends the loop. */
  function Feed(h: Handler, cap: nat, b: B.Cursor, left: seq<Byte>, sizes: seq<nat>): (r: Fed)
    decreases |sizes|
  {
    if sizes == [] then Fed(b, left, [], false)
    else
      var n := A.Received(sizes[0], A.Room(|b.content|, cap), |left|);
      if n == 0 then Fed(b, left, [], false)
      else
        var (next, outcome) := h(B.Buf(b.content + left[..n], b.read));
        var more := Feed(h, cap, next, left[n..], sizes[1..]);
        Fed(more.buffer, more.left, (if outcome.Delivered? then [outcome.packet] else []) + more.delivered,
            outcome.Thrown? || more.thrown)
  }

  /** What a call does when the bytes received so far are the beginning of some frames. */
  function NextOutcome(frames: seq<seq<Byte>>, ps: seq<Packet>, received: nat): Outcome
    requires |frames| == |ps|
  {
    if received == 0 then Nothing
    else if received < 3 then Thrown
    else if ps == [] || received < |frames[0]| then Nothing
    else Delivered(ps[0])
  }

  lemma SplitFirst(unread: seq<Byte>, left: seq<Byte>, first: seq<Byte>, more: seq<Byte>)
    requires unread + left == first + more
    ensures |unread| < |first| ==> unread < first
    ensures |unread| >= |first| ==> unread == first + unread[|first|..] && unread[|first|..] + left == more
  {
    assert unread == (unread + left)[..|unread|];
    if |unread| < |first| {
      assert unread == (first + more)[..|unread|] == first[..|unread|];
    } else {
      assert first == (first + more)[..|first|] == unread[..|first|];
      assert more == (unread + left)[|first|..];
    }
  }

  /** The exact effect of one call while frames are arriving: it throws precisely when a header is cut in two. */
  lemma HandleArriving(h: Handler, b: B.Cursor, left: seq<Byte>, frames: seq<seq<Byte>>, ps: seq<Packet>)
    requires AllParse(h, frames, ps) && Unread(b) + left == Flatten(frames)
    ensures var (next, outcome) := h(b);
            && outcome == NextOutcome(frames, ps, |Unread(b)|)
            && (!outcome.Thrown? ==> Unread(next) + left == Flatten(if outcome.Delivered? then frames[1..] else frames))
            && (|Unread(b)| >= 3 ==> |next.content| == if outcome.Delivered? then |b.content| else |Unread(b)|)
  {
    if |Unread(b)| >= 3 {
      var unread, first := Unread(b), frames[0];
      SplitFirst(unread, left, first, Flatten(frames[1..]));
      if |unread| < |first| {
        FirstPart(h, frames, ps, b);
        assert unread[0..] == unread;
      } else {
        FirstWhole(h, frames, ps, b, unread[|first|..]);
      }
    }
  }

  lemma ReceiveMore(b: B.Cursor, left: seq<Byte>, n: nat)
    requires n <= |left|
    ensures Unread(B.Buf(b.content + left[..n], b.read)) == Unread(b) + left[..n]
    ensures (Unread(b) + left[..n]) + left[n..] == Unread(b) + left
  {
  }

  lemma OneMore<T>(ps: seq<T>, k: nat)
    requires ps != [] && k <= |ps[1..]|
    ensures [ps[0]] + ps[1..][..k] == ps[..k + 1] && ps[1..][k..] == ps[k + 1..]
  {
  }

  function Lengths(frames: seq<seq<Byte>>): (lens: seq<nat>)
    ensures |lens| == |frames| && forall i :: 0 <= i < |lens| ==> lens[i] == |frames[i]|
  {
    if frames == [] then [] else [|frames[0]|] + Lengths(frames[1..])
  }

  lemma {:induction false} FlattenLength(frames: seq<seq<Byte>>, k: nat)
    requires k <= |frames|
    ensures |Flatten(frames[..k])| == A.Sum(Lengths(frames)[..k])
  {
    if k > 0 {
      assert frames[..k][1..] == frames[1..][..k - 1];
      assert Lengths(frames)[1..] == Lengths(frames[1..]);
      A.SumFirst(Lengths(frames), k);
      FlattenLength(frames[1..], k - 1);
    }
  }

  /** The first k packets are delivered, and the bytes of the other frames are still unread. */
  ghost predicate Delivers(r: Fed, frames: seq<seq<Byte>>, ps: seq<Packet>, k: nat)
    requires k <= |ps| == |frames|
  {
    !r.thrown && r.delivered == ps[..k] && Unread(r.buffer) + r.left == Flatten(frames[k..])
  }

  /** What the arithmetic says of a row of receives: a call throws if and only if a header is cut. */
  ghost predicate Exact(r: Fed, frames: seq<seq<Byte>>, ps: seq<Packet>, reader: A.Reader, pieces: seq<nat>)
    requires |ps| == |frames| == |reader.lens|
  {
    && (r.thrown <==> A.CutsHeader(reader, pieces))
    && (!r.thrown ==> Delivers(r, frames, ps, A.Done(reader, pieces)))
  }

  function ReaderOf(frames: seq<seq<Byte>>, b: B.Cursor): A.Reader {
    A.Reader(Lengths(frames), |b.content|, |Unread(b)|)
  }

  /** No receive brings anything. */
  lemma ExactStop(r: Fed, frames: seq<seq<Byte>>, ps: seq<Packet>, reader: A.Reader)
    requires |ps| == |frames| == |reader.lens|
    requires !r.thrown && r.delivered == [] && Unread(r.buffer) + r.left == Flatten(frames)
    ensures Exact(r, frames, ps, reader, [])
  {
    assert frames[0..] == frames && ps[..0] == [];
  }

  /** The first receive leaves part of a header. */
  lemma ExactCut(r: Fed, frames: seq<seq<Byte>>, ps: seq<Packet>, reader: A.Reader, n: nat, pieces: seq<nat>)
    requires |ps| == |frames| == |reader.lens| && reader.unread + n < 3 && r.thrown
    ensures Exact(r, frames, ps, reader, [n] + pieces)
  {
    A.OnePiece(reader, n, pieces);
  }

  /** The first receive leaves the first frame incomplete. */
  lemma ExactWait(r: Fed, frames: seq<seq<Byte>>, ps: seq<Packet>, reader: A.Reader, n: nat, pieces: seq<nat>)
    requires |ps| == |frames| == |reader.lens| && 3 <= reader.unread + n && !A.Whole(reader, n)
    requires Exact(r, frames, ps, A.Next(reader, n), pieces)
    ensures Exact(r, frames, ps, reader, [n] + pieces)
  {
    A.OnePiece(reader, n, pieces);
  }

  /** The first receive makes the first frame whole. */
  lemma ExactStep(r: Fed, frames: seq<seq<Byte>>, ps: seq<Packet>, reader: A.Reader, n: nat, pieces: seq<nat>)
    requires |ps| == |frames| == |reader.lens| && 3 <= reader.unread + n && A.Whole(reader, n)
    requires Exact(r, frames[1..], ps[1..], A.Next(reader, n), pieces)
    ensures Exact(r.(delivered := [ps[0]] + r.delivered), frames, ps, reader, [n] + pieces)
  {
    A.OnePiece(reader, n, pieces);
    OneMore(ps, A.Done(A.Next(reader, n), pieces));
    OneMore(frames, A.Done(A.Next(reader, n), pieces));
  }

  /** One receive, unfolded. */
  lemma FeedFirst(h: Handler, cap: nat, b: B.Cursor, left: seq<Byte>, sizes: seq<nat>, n: nat)
    requires sizes != [] && n > 0 && n == A.Received(sizes[0], A.Room(|b.content|, cap), |left|)
    ensures var (next, outcome) := h(B.Buf(b.content + left[..n], b.read));
            var more := Feed(h, cap, next, left[n..], sizes[1..]);
            Feed(h, cap, b, left, sizes)
            == Fed(more.buffer, more.left, (if outcome.Delivered? then [outcome.packet] else []) + more.delivered,
                   outcome.Thrown? || more.thrown)
  {
  }

  lemma SomeFrame(frames: seq<seq<Byte>>, unread: seq<Byte>, left: seq<Byte>)
    requires unread + left == Flatten(frames) && left != []
    ensures frames != []
  {
    assert |Flatten(frames)| > 0;
  }

  /** The call behind the first receive, in bytes and in numbers. */
  lemma NextCall(h: Handler, b: B.Cursor, left: seq<Byte>, n: nat, frames: seq<seq<Byte>>, ps: seq<Packet>)
    requires AllParse(h, frames, ps) && Unread(b) + left == Flatten(frames) && 0 < n <= |left|
    ensures var (next, outcome) := h(B.Buf(b.content + left[..n], b.read));
            var reader := ReaderOf(frames, b);
            && (outcome.Thrown? <==> reader.unread + n < 3)
            && (outcome.Delivered? <==> reader.unread + n >= 3 && A.Whole(reader, n))
            && (outcome.Nothing? ==>
                  Unread(next) + left[n..] == Flatten(frames) && ReaderOf(frames, next) == A.Next(reader, n))
            && (outcome.Delivered? ==>
                  && frames != [] && outcome.packet == ps[0] && Unread(next) + left[n..] == Flatten(frames[1..])
                  && ReaderOf(frames[1..], next) == A.Next(reader, n))
  {
    SomeFrame(frames, Unread(b), left);
    ReceiveMore(b, left, n);
    HandleArriving(h, B.Buf(b.content + left[..n], b.read), left[n..], frames, ps);
    var next := h(B.Buf(b.content + left[..n], b.read)).0;
    assert Lengths(frames)[1..] == Lengths(frames[1..]);
    LeftOver(Unread(next), left[n..], frames);
  }

  lemma LeftOver(unread: seq<Byte>, left: seq<Byte>, frames: seq<seq<Byte>>)
    requires frames != []
    ensures Flatten(frames) == frames[0] + Flatten(frames[1..])
    ensures unread + left == Flatten(frames) ==> |unread| + |left| == |frames[0]| + |Flatten(frames[1..])|
    ensures unread + left == Flatten(frames[1..]) ==> |unread| + |left| == |Flatten(frames[1..])|
  {
  }

  /** What the arithmetic says of a whole row of receives. */
  ghost predicate FedExactly(h: Handler, cap: nat, b: B.Cursor, left: seq<Byte>, sizes: seq<nat>,
                             frames: seq<seq<Byte>>, ps: seq<Packet>)
    requires |ps| == |frames|
  {
    var reader := ReaderOf(frames, b);
    Exact(Feed(h, cap, b, left, sizes), frames, ps, reader, A.Pieces(reader, cap, |left|, sizes))
  }

  lemma FeedThrows(h: Handler, cap: nat, b: B.Cursor, left: seq<Byte>, sizes: seq<nat>,
                   frames: seq<seq<Byte>>, ps: seq<Packet>, n: nat)
    requires |ps| == |frames| && sizes != []
    requires n > 0 && n == A.Received(sizes[0], A.Room(|b.content|, cap), |left|) && |Unread(b)| + n < 3
    requires h(B.Buf(b.content + left[..n], b.read)).1 == Thrown
    ensures FedExactly(h, cap, b, left, sizes, frames, ps)
  {
    var reader := ReaderOf(frames, b);
    FeedFirst(h, cap, b, left, sizes, n);
    A.PiecesFirst(reader, cap, |left|, sizes, n);
    ExactCut(Feed(h, cap, b, left, sizes), frames, ps, reader, n,
             A.Pieces(A.Next(reader, n), cap, |left| - n, sizes[1..]));
  }

  lemma FeedWaits(h: Handler, cap: nat, b: B.Cursor, left: seq<Byte>, sizes: seq<nat>,
                  frames: seq<seq<Byte>>, ps: seq<Packet>, n: nat, next: B.Cursor)
    requires |ps| == |frames| && sizes != []
    requires n > 0 && n == A.Received(sizes[0], A.Room(|b.content|, cap), |left|) && |Unread(b)| + n >= 3
    requires h(B.Buf(b.content + left[..n], b.read)) == (next, Nothing)
    requires !A.Whole(ReaderOf(frames, b), n) && ReaderOf(frames, next) == A.Next(ReaderOf(frames, b), n)
    requires FedExactly(h, cap, next, left[n..], sizes[1..], frames, ps)
    ensures FedExactly(h, cap, b, left, sizes, frames, ps)
  {
    var reader, more := ReaderOf(frames, b), Feed(h, cap, next, left[n..], sizes[1..]);
    FeedFirst(h, cap, b, left, sizes, n);
    A.PiecesFirst(reader, cap, |left|, sizes, n);
    assert [] + more.delivered == more.delivered;
    ExactWait(more, frames, ps, reader, n, A.Pieces(A.Next(reader, n), cap, |left| - n, sizes[1..]));
  }

  lemma FeedDelivers(h: Handler, cap: nat, b: B.Cursor, left: seq<Byte>, sizes: seq<nat>,
                     frames: seq<seq<Byte>>, ps: seq<Packet>, n: nat, next: B.Cursor)
    requires |ps| == |frames| && frames != [] && sizes != []
    requires n > 0 && n == A.Received(sizes[0], A.Room(|b.content|, cap), |left|) && |Unread(b)| + n >= 3
    requires h(B.Buf(b.content + left[..n], b.read)) == (next, Delivered(ps[0]))
    requires A.Whole(ReaderOf(frames, b), n) && ReaderOf(frames[1..], next) == A.Next(ReaderOf(frames, b), n)
    requires FedExactly(h, cap, next, left[n..], sizes[1..], frames[1..], ps[1..])
    ensures FedExactly(h, cap, b, left, sizes, frames, ps)
  {
    var reader, more := ReaderOf(frames, b), Feed(h, cap, next, left[n..], sizes[1..]);
    FeedFirst(h, cap, b, left, sizes, n);
    A.PiecesFirst(reader, cap, |left|, sizes, n);
    ExactStep(more, frames, ps, reader, n, A.Pieces(A.Next(reader, n), cap, |left| - n, sizes[1..]));
  }

  lemma FeedStops(h: Handler, cap: nat, b: B.Cursor, left: seq<Byte>, sizes: seq<nat>,
                  frames: seq<seq<Byte>>, ps: seq<Packet>)
    requires |ps| == |frames| && Unread(b) + left == Flatten(frames)
    requires sizes == [] || A.Received(sizes[0], A.Room(|b.content|, cap), |left|) == 0
    ensures FedExactly(h, cap, b, left, sizes, frames, ps)
  {
    ExactStop(Fed(b, left, [], false), frames, ps, ReaderOf(frames, b));
  }

  /**
   However the bytes of some frames arrive: a call throws if and only if a receive cuts a header, and otherwise
   exactly the packets are delivered whose frames are whole in their turn, in the order in which they were sent.
   */
  lemma {:induction false} FeedExact(h: Handler, cap: nat, b: B.Cursor, left: seq<Byte>, sizes: seq<nat>,
                                     frames: seq<seq<Byte>>, ps: seq<Packet>)
    requires AllParse(h, frames, ps) && Unread(b) + left == Flatten(frames)
    ensures FedExactly(h, cap, b, left, sizes, frames, ps)
    decreases |sizes|
  {
    if sizes == [] || A.Received(sizes[0], A.Room(|b.content|, cap), |left|) == 0 {
      FeedStops(h, cap, b, left, sizes, frames, ps);
    } else {
      var n := A.Received(sizes[0], A.Room(|b.content|, cap), |left|);
      NextCall(h, b, left, n, frames, ps);
      var (next, outcome) := h(B.Buf(b.content + left[..n], b.read));
      match outcome
      case Thrown => FeedThrows(h, cap, b, left, sizes, frames, ps, n);
      case Nothing =>
        FeedExact(h, cap, next, left[n..], sizes[1..], frames, ps);
        FeedWaits(h, cap, b, left, sizes, frames, ps, n, next);
      case Delivered(p) =>
        RestParse(h, frames, ps);
        FeedExact(h, cap, next, left[n..], sizes[1..], frames[1..], ps[1..]);
        FeedDelivers(h, cap, b, left, sizes, frames, ps, n, next);
    }
  }

  lemma CutAgain(f: seq<Byte>, done: nat, n: nat)
    requires done + n <= |f|
    ensures f[..done] + f[done..][..n] == f[..done + n] && f[done..][n..] == f[done + n..]
    ensures f[..done + n][0..] == f[..done + n]
  {
  }

  /** One piece of a frame is received and waits for the rest. */
  lemma WaitPiece(h: Handler, cap: nat, f: seq<Byte>, sizes: seq<nat>, done: nat, k: nat)
    requires 0 < k <= |sizes| && sizes[0] > 0 && done + sizes[0] <= |f| <= cap
    requires h(B.Buf(f[..done + sizes[0]], 0)) == (B.Buf(f[..done + sizes[0]], 0), Nothing)
    ensures var r := Feed(h, cap, B.Buf(f[..done], 0), f[done..], sizes[..k]);
            var next := done + sizes[0];
            var more := Feed(h, cap, B.Buf(f[..next], 0), f[next..], sizes[1..][..k - 1]);
            r.thrown == more.thrown && r.delivered == more.delivered
  {
    CutAgain(f, done, sizes[0]);
    assert sizes[..k][1..] == sizes[1..][..k - 1];
    FeedFirst(h, cap, B.Buf(f[..done], 0), f[done..], sizes[..k], sizes[0]);
  }

  /** The last piece of a frame is received. */
  lemma LastPiece(h: Handler, cap: nat, f: seq<Byte>, p: Packet, n: nat, done: nat)
    requires n > 0 && done + n == |f| <= cap && h(B.Buf(f, 0)).1 == Delivered(p)
    ensures var r := Feed(h, cap, B.Buf(f[..done], 0), f[done..], [n]); !r.thrown && r.delivered == [p]
  {
    CutAgain(f, done, n);
    assert f[..|f|] == f && [n][1..] == [];
    FeedFirst(h, cap, B.Buf(f[..done], 0), f[done..], [n], n);
  }

  /** A frame cut into any pieces after its header: nothing until the last piece, then the packet. */
  lemma {:induction false} PiecesFrom(h: Handler, cap: nat, f: seq<Byte>, p: Packet, sizes: seq<nat>, done: nat, k: nat)
    requires AllParse(h, [f], [p]) && |f| <= cap
    requires done < |f| && done + A.Sum(sizes) == |f| && k <= |sizes|
    requires forall i :: 0 <= i < |sizes| ==> sizes[i] > 0
    requires done >= 3 || (done == 0 && sizes[0] >= 3)
    ensures var r := Feed(h, cap, B.Buf(f[..done], 0), f[done..], sizes[..k]);
            !r.thrown && r.delivered == if k == |sizes| then [p] else []
    decreases |sizes|
  {
    if k > 0 {
      var next := done + sizes[0];
      assert f[..next][0..] == f[..next];
      if next < |f| {
        FirstPart(h, [f], [p], B.Buf(f[..next], 0));
        WaitPiece(h, cap, f, sizes, done, k);
        PiecesFrom(h, cap, f, p, sizes[1..], next, k - 1);
      } else {
        SumZero(sizes[1..]);
        assert f[0..] == f + [] && sizes[..k] == [sizes[0]];
        FirstWhole(h, [f], [p], B.Buf(f, 0), []);
        LastPiece(h, cap, f, p, sizes[0], done);
      }
    }
  }

  lemma SumZero(sizes: seq<nat>)
    requires A.Sum(sizes) == 0 && forall i :: 0 <= i < |sizes| ==> sizes[i] > 0
    ensures sizes == []
  {
  }

  lemma Fragmentation(h: Handler, cap: nat, f: seq<Byte>, p: Packet, sizes: seq<nat>, k: nat)
    requires AllParse(h, [f], [p]) && |f| <= cap
    requires sizes != [] && sizes[0] >= 3 && A.Sum(sizes) == |f| && k <= |sizes|
    requires forall i :: 0 <= i < |sizes| ==> sizes[i] > 0
    ensures var r := Feed(h, cap, B.Buf([], 0), f, sizes[..k]);
            !r.thrown && r.delivered == if k == |sizes| then [p] else []
  {
    assert f[..0] == [] && f[0..] == f;
    PiecesFrom(h, cap, f, p, sizes, 0, k);
  }

  /** A first receive that cuts the header in two makes the parser throw. */
  lemma HeaderCut(h: Handler, cap: nat, f: seq<Byte>, sizes: seq<nat>)
    requires HeaderFirst(h) && 3 <= |f| <= cap && sizes != [] && 0 < sizes[0] < 3
    ensures Feed(h, cap, B.Buf([], 0), f, sizes).thrown
  {
    var b1: B.Cursor := B.Buf([] + f[..sizes[0]], 0);
    ReceiveMore(B.Buf([], 0), f, sizes[0]);
    assert |Unread(b1)| == sizes[0] && h(b1).1 == Thrown;
  }

  /** Frames received all at once: one packet is delivered, the bytes of the others remain unused. */
  lemma CoalescedFrames(h: Handler, cap: nat, frames: seq<seq<Byte>>, ps: seq<Packet>, size: nat)
    requires AllParse(h, frames, ps) && ps != []
    requires |Flatten(frames)| <= size && |Flatten(frames)| <= cap
    ensures var r := Feed(h, cap, B.Buf([], 0), Flatten(frames), [size]);
            !r.thrown && r.delivered == [ps[0]] && r.left == [] && Unread(r.buffer) == Flatten(frames[1..])
  {
    var all := Flatten(frames);
    AtLeastHeader(h, frames, ps);
    var b1: B.Cursor := B.Buf([] + all[..|all|], 0);
    ReceiveMore(B.Buf([], 0), all, |all|);
    assert [] + all[..|all|] == all && all[|all|..] == [] && Unread(b1) == all;
    FirstWhole(h, frames, ps, b1, Flatten(frames[1..]));
    var next := h(b1).0;
    assert Feed(h, cap, next, [], []) == Fed(next, [], [], false);
  }

  lemma AtLeastHeader(h: Handler, frames: seq<seq<Byte>>, ps: seq<Packet>)
    requires AllParse(h, frames, ps) && ps != []
    ensures |frames[0]| >= 3 && |Flatten(frames)| >= 3
  {
    assert Parses(h, frames[0], ps[0]);
  }
}
