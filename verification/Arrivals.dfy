/**
 The arithmetic of receiving: from the lengths of the frames on their way and the sizes of the receives alone it
 follows which receive cuts a header in two and which frames are delivered.
 */
module Arrivals {
  function Sum(sizes: seq<nat>): nat {
    if sizes == [] then 0 else sizes[0] + Sum(sizes[1..])
  }

  function Min(a: nat, b: nat): nat {
    if a <= b then a else b
  }

  /** A receive brings the bytes it offers, unless there is less room in the buffer or there are fewer bytes. */
  function Received(size: nat, room: nat, left: nat): (n: nat)
    ensures n <= size && n <= room && n <= left && (n == size || n == room || n == left)
  {
    if size <= room && size <= left then size else if room <= left then room else left
  }

  function Room(content: nat, cap: nat): nat {
    if content <= cap then cap - content else 0
  }

  /** Lengths of the frames not yet delivered, bytes held by the buffer, and how many of them are unread. */
  datatype Reader = Reader(lens: seq<nat>, content: nat, unread: nat)

  /** With n bytes more the next frame is whole. */
  predicate Whole(r: Reader, n: nat) {
    r.lens != [] && r.unread + n >= r.lens[0]
  }

  /** A whole frame is stepped over; of an incomplete one the unread bytes are moved to the front of the buffer. */
  function Next(r: Reader, n: nat): Reader {
    if Whole(r, n) then Reader(r.lens[1..], r.content + n, r.unread + n - r.lens[0])
    else Reader(r.lens, r.unread + n, r.unread + n)
  }

  /** The bytes each receive brings, as long as no header is cut; a receive of nothing is the last. */
  function Pieces(r: Reader, cap: nat, left: nat, sizes: seq<nat>): seq<nat>
    decreases |sizes|
  {
    if sizes == [] then []
    else
      var n := Received(sizes[0], Room(r.content, cap), left);
      if n == 0 then [] else [n] + Pieces(Next(r, n), cap, left - n, sizes[1..])
  }

  /** Some piece leaves one or two bytes unread behind the last frame delivered. */
  predicate CutsHeader(r: Reader, pieces: seq<nat>)
    decreases |pieces|
  {
    pieces != [] && (r.unread + pieces[0] < 3 || CutsHeader(Next(r, pieces[0]), pieces[1..]))
  }

  /** How many frames the pieces deliver: one with each piece behind which the next frame is whole. */
  function Done(r: Reader, pieces: seq<nat>): (n: nat)
    ensures n <= |r.lens| && n <= |pieces|
    decreases |pieces|
  {
    if pieces == [] then 0 else (if Whole(r, pieces[0]) then 1 else 0) + Done(Next(r, pieces[0]), pieces[1..])
  }

  /** What one more piece in front means. */
  lemma OnePiece(r: Reader, n: nat, pieces: seq<nat>)
    ensures CutsHeader(r, [n] + pieces) <==> r.unread + n < 3 || CutsHeader(Next(r, n), pieces)
    ensures Done(r, [n] + pieces) == (if Whole(r, n) then 1 else 0) + Done(Next(r, n), pieces)
  {
    assert ([n] + pieces)[1..] == pieces;
  }

  lemma PiecesFirst(r: Reader, cap: nat, left: nat, sizes: seq<nat>, n: nat)
    requires sizes != [] && n > 0 && n == Received(sizes[0], Room(r.content, cap), left)
    ensures Pieces(r, cap, left, sizes) == [n] + Pieces(Next(r, n), cap, left - n, sizes[1..])
  {
  }

  lemma {:induction false} PiecesPositive(r: Reader, cap: nat, left: nat, sizes: seq<nat>)
    ensures var pieces := Pieces(r, cap, left, sizes);
            |pieces| <= |sizes| && forall i :: 0 <= i < |pieces| ==> pieces[i] > 0
    decreases |sizes|
  {
    if sizes != [] {
      var n := Received(sizes[0], Room(r.content, cap), left);
      if n > 0 {
        PiecesPositive(Next(r, n), cap, left - n, sizes[1..]);
      }
    }
  }

  /** The first receive brings as many bytes as it offers, as fit and as there are, in a small buffer too. */
  lemma FirstPiece(r: Reader, cap: nat, left: nat, sizes: seq<nat>)
    requires sizes != [] && r.content <= cap
    ensures var pieces := Pieces(r, cap, left, sizes);
            && (pieces == [] <==> sizes[0] == 0 || r.content == cap || left == 0)
            && (pieces != [] ==> pieces[0] == Min(sizes[0], Min(cap - r.content, left)))
  {
  }

  // ---------- pieces that end away from headers

  lemma SumFirst(s: seq<nat>, k: nat)
    requires 0 < k <= |s|
    ensures Sum(s[..k]) == s[0] + Sum(s[1..][..k - 1])
  {
    assert s[..k][1..] == s[1..][..k - 1];
  }

  /** One receive reaches as far as it can, and so do those after it. */
  lemma ReachesOn(size: nat, left: nat, n: nat, later: nat, reached: nat)
    requires n == Min(size, left) && reached == Min(later, left - n)
    ensures n + reached == Min(size + later, left)
  {
  }

  /** In a buffer with room for everything the receives bring what they offer, as long as there is something. */
  lemma {:induction false} PiecesReach(r: Reader, cap: nat, left: nat, sizes: seq<nat>, k: nat)
    requires r.unread <= r.content && r.content + left <= cap
    requires k <= |Pieces(r, cap, left, sizes)| && k <= |sizes|
    ensures Sum(Pieces(r, cap, left, sizes)[..k]) == Min(Sum(sizes[..k]), left)
    decreases |sizes|
  {
    if k > 0 {
      var n := Received(sizes[0], Room(r.content, cap), left);
      var pieces := Pieces(r, cap, left, sizes);
      SumFirst(pieces, k);
      SumFirst(sizes, k);
      assert pieces[0] == n && pieces[1..] == Pieces(Next(r, n), cap, left - n, sizes[1..]);
      PiecesReach(Next(r, n), cap, left - n, sizes[1..], k - 1);
      ReachesOn(sizes[0], left, n, Sum(sizes[1..][..k - 1]), Sum(pieces[1..][..k - 1]));
    }
  }

  /** The first i pieces end one or two bytes behind the end of the first k frames. */
  predicate EndsInHeader(lens: seq<nat>, unread: nat, pieces: seq<nat>, k: nat, i: nat)
    requires k <= |lens| && i <= |pieces|
  {
    0 < unread + Sum(pieces[..i]) - Sum(lens[..k]) < 3
  }

  /** No piece ends one or two bytes behind the end of a frame. */
  ghost predicate Away(lens: seq<nat>, unread: nat, pieces: seq<nat>) {
    forall k: nat, i: nat :: k <= |lens| && i <= |pieces| ==> !EndsInHeader(lens, unread, pieces, k, i)
  }

  lemma RestAway(lens: seq<nat>, unread: nat, pieces: seq<nat>)
    requires Away(lens, unread, pieces) && pieces != []
    ensures Away(lens, unread + pieces[0], pieces[1..])
  {
    var now, rest := unread + pieces[0], pieces[1..];
    forall k: nat, i: nat | k <= |lens| && i <= |rest| ensures !EndsInHeader(lens, now, rest, k, i) {
      SumFirst(pieces, i + 1);
      assert !EndsInHeader(lens, unread, pieces, k, i + 1);
    }
  }

  lemma NextAway(lens: seq<nat>, unread: nat, pieces: seq<nat>)
    requires Away(lens, unread, pieces) && lens != [] && unread >= lens[0]
    ensures Away(lens[1..], unread - lens[0], pieces)
  {
    var later, now := lens[1..], unread - lens[0];
    forall k: nat, i: nat | k <= |later| && i <= |pieces| ensures !EndsInHeader(later, now, pieces, k, i) {
      SumFirst(lens, k + 1);
      assert !EndsInHeader(lens, unread, pieces, k + 1, i);
    }
  }

  lemma {:induction false} AwayIsUncut(r: Reader, pieces: seq<nat>)
    requires Away(r.lens, r.unread, pieces) && forall i :: 0 <= i < |pieces| ==> pieces[i] > 0
    ensures !CutsHeader(r, pieces)
    decreases |pieces|
  {
    if pieces != [] {
      SumFirst(pieces, 1);
      assert !EndsInHeader(r.lens, r.unread, pieces, 0, 1);
      RestAway(r.lens, r.unread, pieces);
      if Whole(r, pieces[0]) {
        NextAway(r.lens, r.unread + pieces[0], pieces[1..]);
      }
      AwayIsUncut(Next(r, pieces[0]), pieces[1..]);
    }
  }

  // ---------- when every frame is delivered

  /** Frame i is whole when as many pieces are still to come as there are frames behind it. */
  ghost predicate WholeInTime(lens: seq<nat>, unread: nat, pieces: seq<nat>, i: nat)
    requires i < |lens| <= |pieces|
  {
    unread + Sum(pieces[..|pieces| - |lens| + 1 + i]) >= Sum(lens[..i + 1])
  }

  ghost predicate InTime(lens: seq<nat>, unread: nat, pieces: seq<nat>) {
    |lens| <= |pieces| && forall i: nat :: i < |lens| ==> WholeInTime(lens, unread, pieces, i)
  }

  /** The next frame stays incomplete. */
  lemma WaitWhole(lens: seq<nat>, unread: nat, pieces: seq<nat>, i: nat)
    requires i < |lens| < |pieces|
    ensures WholeInTime(lens, unread, pieces, i) <==> WholeInTime(lens, unread + pieces[0], pieces[1..], i)
  {
    SumFirst(pieces, |pieces| - |lens| + 1 + i);
  }

  lemma WaitInTime(lens: seq<nat>, unread: nat, pieces: seq<nat>)
    requires pieces != [] && lens != [] && unread + pieces[0] < lens[0]
    ensures InTime(lens, unread, pieces) <==> InTime(lens, unread + pieces[0], pieces[1..])
  {
    if |lens| == |pieces| {
      SumFirst(pieces, 1);
      SumFirst(lens, 1);
      assert !WholeInTime(lens, unread, pieces, 0);
    } else if |lens| < |pieces| {
      var now, rest := unread + pieces[0], pieces[1..];
      if InTime(lens, unread, pieces) {
        forall i: nat | i < |lens| ensures WholeInTime(lens, now, rest, i) {
          WaitWhole(lens, unread, pieces, i);
        }
      }
      if InTime(lens, now, rest) {
        forall i: nat | i < |lens| ensures WholeInTime(lens, unread, pieces, i) {
          WaitWhole(lens, unread, pieces, i);
        }
      }
    }
  }

  /** The next frame is stepped over. */
  lemma StepWhole(lens: seq<nat>, unread: nat, pieces: seq<nat>, i: nat)
    requires 0 < i < |lens| <= |pieces| && unread + pieces[0] >= lens[0]
    ensures WholeInTime(lens, unread, pieces, i)
       <==> WholeInTime(lens[1..], unread + pieces[0] - lens[0], pieces[1..], i - 1)
  {
    SumFirst(pieces, |pieces| - |lens| + 1 + i);
    SumFirst(lens, i + 1);
  }

  lemma StepInTime(lens: seq<nat>, unread: nat, pieces: seq<nat>)
    requires pieces != [] && lens != [] && unread + pieces[0] >= lens[0]
    ensures InTime(lens, unread, pieces) <==> InTime(lens[1..], unread + pieces[0] - lens[0], pieces[1..])
  {
    var m, n, rest := |pieces|, |lens|, unread + pieces[0] - lens[0];
    if n <= m {
      SumFirst(pieces, m - n + 1);
      SumFirst(lens, 1);
      assert WholeInTime(lens, unread, pieces, 0);
      if InTime(lens, unread, pieces) {
        forall i: nat | i < n - 1 ensures WholeInTime(lens[1..], rest, pieces[1..], i) {
          StepWhole(lens, unread, pieces, i + 1);
        }
      }
      if InTime(lens[1..], rest, pieces[1..]) {
        forall i: nat | i < n ensures WholeInTime(lens, unread, pieces, i) {
          if i > 0 {
            StepWhole(lens, unread, pieces, i);
          }
        }
      }
    }
  }

  /** All frames are delivered if and only if each is whole in time. */
  lemma {:induction false} AllDone(r: Reader, pieces: seq<nat>)
    ensures Done(r, pieces) == |r.lens| <==> InTime(r.lens, r.unread, pieces)
    decreases |pieces|
  {
    if pieces != [] && r.lens != [] {
      if Whole(r, pieces[0]) {
        StepInTime(r.lens, r.unread, pieces);
      } else {
        WaitInTime(r.lens, r.unread, pieces);
      }
      AllDone(Next(r, pieces[0]), pieces[1..]);
    }
  }
}
