/**
 Choosing a node and reserving a slot there are two steps, and other creations may come in between. How long
 the search can go on, and how evenly it spreads sessions over the nodes.
 */
module LoadBalance {
  import opened Common
  import opened Slots
  import Nodes

  type Views = map<Text, Slots>

  ghost function Pick(views: Views): Text
    requires views != map[]
    ensures Pick(views) in views
  {
    var a :| a in views; a
  }

  /** Available slots of all nodes together. */
  ghost function Total(views: Views): nat
    decreases |views|
  {
    if views == map[] then 0 else Available(views[Pick(views)]) + Total(views - {Pick(views)})
  }

  lemma {:induction false} TotalWithout(views: Views, a: Text)
    requires a in views
    ensures Total(views) == Available(views[a]) + Total(views - {a})
    decreases |views|
  {
    var b := Pick(views);
    if b != a {
      TotalWithout(views - {b}, a);
      TotalWithout(views - {a}, b);
      assert views - {b} - {a} == views - {a} - {b};
    }
  }

  /** A reservation takes one slot from the total. */
  lemma TotalReserved(views: Views, a: Text, port: UInt32)
    requires Nodes.Sound(views) && a in views && CanReserve(views[a], port)
    ensures Total(views[a := Reserve(views[a], port)]) == Total(views) - 1
    ensures Nodes.Sound(views[a := Reserve(views[a], port)])
  {
    var after := views[a := Reserve(views[a], port)];
    ReserveKeepsInv(views[a], port);
    TotalWithout(views, a);
    TotalWithout(after, a);
    assert after - {a} == views - {a};
  }

  // ---------- concurrent creations

  datatype Phase = Looking | Found(at: Text) | Gone

  /**
   `rounds`: how often the loop body was entered; `entry` and `since`: the total of available slots, and the slots
   added by refreshes so far, when the creation began.
   */
  datatype Caller = Caller(phase: Phase, rounds: nat, entry: nat, since: nat)

  /** `added`: by how much refreshes have raised the number of available slots, all together. */
  datatype Search = Search(views: Views, callers: map<nat, Caller>, added: nat)

  datatype Move =
    | Enter(id: nat)
    | FindNode(id: nat, at: Text)
    | FindNone(id: nat)
    | TakeSlot(id: nat, port: UInt32)
    | MissSlot(id: nat)
    | RefreshNode(at: Text, publicAddress: Text, listing: Listing)

  ghost predicate CanMove(s: Search, m: Move) {
    match m
    case Enter(c) => c !in s.callers
    case FindNode(c, a) => c in s.callers && s.callers[c].phase.Looking? && a in s.views && Available(s.views[a]) > 0
    case FindNone(c) =>
      c in s.callers && s.callers[c].phase.Looking? && forall a :: a in s.views ==> Available(s.views[a]) == 0
    case TakeSlot(c, p) =>
      c in s.callers && s.callers[c].phase.Found? && s.callers[c].phase.at in s.views
      && CanReserve(s.views[s.callers[c].phase.at], p)
    case MissSlot(c) =>
      c in s.callers && s.callers[c].phase.Found? && s.callers[c].phase.at in s.views
      && (var v := s.views[s.callers[c].phase.at]; Available(v) == 0 || FreePorts(v.tracker) == {})
    case RefreshNode(a, pa, l) => Distinct(l) && |l| < 0x1_0000_0000
  }

  /** A node that reports for the first time starts from an empty view. */
  ghost function ViewOf(views: Views, a: Text): Slots {
    if a in views then views[a] else NO_SLOTS
  }

  ghost function Raise(before: nat, after: nat): nat {
    if after > before then after - before else 0
  }

  ghost function Moved(s: Search, m: Move): Search
    requires CanMove(s, m)
  {
    match m
    case Enter(c) => s.(callers := s.callers[c := Caller(Looking, 0, Total(s.views), s.added)])
    case FindNode(c, a) =>
      s.(callers := s.callers[c := s.callers[c].(phase := Found(a), rounds := s.callers[c].rounds + 1)])
    case FindNone(c) =>
      s.(callers := s.callers[c := s.callers[c].(phase := Gone, rounds := s.callers[c].rounds + 1)])
    case TakeSlot(c, p) =>
      var a := s.callers[c].phase.at;
      s.(views := s.views[a := Reserve(s.views[a], p)], callers := s.callers[c := s.callers[c].(phase := Gone)])
    case MissSlot(c) => s.(callers := s.callers[c := s.callers[c].(phase := Looking)])
    case RefreshNode(a, pa, l) =>
      var v := Refresh(ViewOf(s.views, a), pa, l);
      s.(views := s.views[a := v], added := s.added + Raise(Available(ViewOf(s.views, a)), Available(v)))
  }

  /**
   Each round that came to nothing is paid for by a slot that some other creation or a refresh took meanwhile;
   `budget`: the slots at entry and those added since.
   */
  ghost predicate Paid(views: Views, total: nat, c: Caller, budget: int) {
    match c.phase
    case Looking => c.rounds + total <= budget
    case Found(a) =>
      a in views && 1 <= c.rounds && c.rounds - 1 + (if Available(views[a]) == 0 then 1 else 0) + total <= budget
    case Gone => c.rounds <= 1 + budget
  }

  ghost function Budget(c: Caller, added: nat): int {
    c.entry + added - c.since
  }

  ghost predicate CallersPaid(views: Views, callers: map<nat, Caller>, added: nat) {
    forall c {:trigger callers[c]} :: c in callers ==>
      callers[c].since <= added && Paid(views, Total(views), callers[c], Budget(callers[c], added))
  }

  ghost predicate AllPaid(s: Search) {
    Nodes.Sound(s.views) && CallersPaid(s.views, s.callers, s.added)
  }

  /** A refresh keeps the invariant and changes the total by the change at its node. */
  lemma TotalRefreshed(views: Views, a: Text, publicAddress: Text, l: Listing)
    requires Nodes.Sound(views) && Distinct(l) && |l| < 0x1_0000_0000
    ensures var v := Refresh(ViewOf(views, a), publicAddress, l);
            && Nodes.Sound(views[a := v])
            && Total(views[a := v]) == Total(views) - Available(ViewOf(views, a)) + Available(v)
  {
    var v := Refresh(ViewOf(views, a), publicAddress, l);
    RefreshKeepsInv(ViewOf(views, a), publicAddress, l);
    TotalWithout(views[a := v], a);
    if a in views {
      TotalWithout(views, a);
      assert views[a := v] - {a} == views - {a};
    } else {
      assert views[a := v] - {a} == views;
    }
  }

  /** What a refresh takes from the total it may cost a creation that found the node, and no more. */
  lemma PaidAfterRefresh(views: Views, a: Text, v: Slots, c: Caller, budget: int)
    requires Paid(views, Total(views), c, budget)
    requires Total(views[a := v]) == Total(views) - Available(ViewOf(views, a)) + Available(v)
    ensures Paid(views[a := v], Total(views[a := v]), c, budget + Raise(Available(ViewOf(views, a)), Available(v)))
  {
  }

  lemma RefreshKeepsPaid(s: Search, a: Text, publicAddress: Text, l: Listing)
    requires AllPaid(s) && CanMove(s, RefreshNode(a, publicAddress, l))
    ensures AllPaid(Moved(s, RefreshNode(a, publicAddress, l)))
  {
    var v, t := Refresh(ViewOf(s.views, a), publicAddress, l), Moved(s, RefreshNode(a, publicAddress, l));
    TotalRefreshed(s.views, a, publicAddress, l);
    forall c | c in t.callers
      ensures t.callers[c].since <= t.added
      ensures Paid(t.views, Total(t.views), t.callers[c], Budget(t.callers[c], t.added))
    {
      PaidAfterRefresh(s.views, a, v, s.callers[c], Budget(s.callers[c], s.added));
    }
  }

  lemma TakeKeepsPaid(s: Search, c: nat, p: UInt32)
    requires AllPaid(s) && CanMove(s, TakeSlot(c, p))
    ensures AllPaid(Moved(s, TakeSlot(c, p)))
  {
    var a, t := s.callers[c].phase.at, Moved(s, TakeSlot(c, p));
    TotalReserved(s.views, a, p);
    ReserveKeepsInv(s.views[a], p);
    AvailableExact(s.views[a]);
    forall d | d in t.callers
      ensures t.callers[d].since <= t.added
      ensures Paid(t.views, Total(t.views), t.callers[d], Budget(t.callers[d], t.added))
    {
      assert Paid(s.views, Total(s.views), s.callers[d], Budget(s.callers[d], s.added));
    }
  }

  lemma MoveKeepsPaid(s: Search, m: Move)
    requires AllPaid(s) && CanMove(s, m)
    ensures AllPaid(Moved(s, m))
  {
    match m
    case TakeSlot(c, p) => TakeKeepsPaid(s, c, p);
    case RefreshNode(a, pa, l) => RefreshKeepsPaid(s, a, pa, l);
    case MissSlot(c) => AvailableExact(s.views[s.callers[c].phase.at]);
    case _ =>
  }

  ghost predicate Moves(s: Search, ms: seq<Move>)
    decreases |ms|
  {
    ms == [] || (CanMove(s, ms[0]) && Moves(Moved(s, ms[0]), ms[1..]))
  }

  ghost function AfterMoves(s: Search, ms: seq<Move>): Search
    requires Moves(s, ms)
    decreases |ms|
  {
    if ms == [] then s else AfterMoves(Moved(s, ms[0]), ms[1..])
  }

  lemma {:induction false} MovesKeepPaid(s: Search, ms: seq<Move>)
    requires AllPaid(s) && Moves(s, ms)
    ensures AllPaid(AfterMoves(s, ms))
    decreases |ms|
  {
    if ms != [] {
      MoveKeepsPaid(s, ms[0]);
      MovesKeepPaid(Moved(s, ms[0]), ms[1..]);
    }
  }

  // ---------- what the recorded numbers are, told by the moves

  /** How often creation c looks for a node. */
  ghost function Finds(ms: seq<Move>, c: nat): nat {
    if ms == [] then 0
    else (if (ms[0].FindNode? || ms[0].FindNone?) && ms[0].id == c then 1 else 0) + Finds(ms[1..], c)
  }

  /** The slots available at all nodes together when creation c begins. */
  ghost function SlotsAtEntry(s: Search, ms: seq<Move>, c: nat): nat
    requires Moves(s, ms)
    decreases |ms|
  {
    if ms == [] then 0
    else if ms[0] == Enter(c) then Total(s.views)
    else SlotsAtEntry(Moved(s, ms[0]), ms[1..], c)
  }

  /** By how much the refreshes among these moves raise the number of slots available at their nodes. */
  ghost function Raised(s: Search, ms: seq<Move>): nat
    requires Moves(s, ms)
    decreases |ms|
  {
    if ms == [] then 0
    else
      var t := Moved(s, ms[0]);
      (if ms[0].RefreshNode? then Raise(Available(ViewOf(s.views, ms[0].at)), Available(ViewOf(t.views, ms[0].at)))
       else 0)
      + Raised(t, ms[1..])
  }

  /** The same for the refreshes after creation c has begun. */
  ghost function RaisedSince(s: Search, ms: seq<Move>, c: nat): nat
    requires Moves(s, ms)
    decreases |ms|
  {
    if ms == [] then 0
    else if ms[0] == Enter(c) then Raised(Moved(s, ms[0]), ms[1..])
    else RaisedSince(Moved(s, ms[0]), ms[1..], c)
  }

  /** A creation that has begun: its rounds are the times it looked, and the rest stays as recorded. */
  lemma {:induction false} BegunCaller(s: Search, ms: seq<Move>, c: nat)
    requires Moves(s, ms) && c in s.callers
    ensures var t := AfterMoves(s, ms);
            && c in t.callers && t.callers[c].rounds == s.callers[c].rounds + Finds(ms, c)
            && t.callers[c].entry == s.callers[c].entry && t.callers[c].since == s.callers[c].since
            && t.added == s.added + Raised(s, ms)
    decreases |ms|
  {
    if ms != [] {
      BegunCaller(Moved(s, ms[0]), ms[1..], c);
    }
  }

  lemma {:induction false} NewCaller(s: Search, ms: seq<Move>, c: nat)
    requires Moves(s, ms) && c !in s.callers && Enter(c) in ms
    ensures var t := AfterMoves(s, ms);
            && c in t.callers && t.callers[c].rounds == Finds(ms, c)
            && t.callers[c].entry == SlotsAtEntry(s, ms, c) && t.added - t.callers[c].since == RaisedSince(s, ms, c)
    decreases |ms|
  {
    if ms[0] == Enter(c) {
      BegunCaller(Moved(s, ms[0]), ms[1..], c);
    } else {
      assert Enter(c) in ms[1..];
      NewCaller(Moved(s, ms[0]), ms[1..], c);
    }
  }

  /**
   However creations and refreshes interleave, no creation looks for a node more often than once plus the number of
   slots available when it began plus the slots that refreshes have added since, although its counter of attempts
   never moves.
   */
  lemma RetryBound(views: Views, ms: seq<Move>, c: nat)
    requires Nodes.Sound(views) && Moves(Search(views, map[], 0), ms) && Enter(c) in ms
    ensures var s := Search(views, map[], 0); Finds(ms, c) <= 1 + SlotsAtEntry(s, ms, c) + RaisedSince(s, ms, c)
  {
    var s := Search(views, map[], 0);
    NewCaller(s, ms, c);
    MovesKeepPaid(s, ms);
    var t := AfterMoves(s, ms);
    assert Paid(t.views, Total(t.views), t.callers[c], Budget(t.callers[c], t.added));
  }

  ghost predicate NoRefresh(ms: seq<Move>) {
    forall i :: 0 <= i < |ms| ==> !ms[i].RefreshNode?
  }

  lemma {:induction false} NothingRaised(s: Search, ms: seq<Move>, c: nat)
    requires Moves(s, ms) && NoRefresh(ms)
    ensures Raised(s, ms) == 0 && RaisedSince(s, ms, c) == 0
    decreases |ms|
  {
    if ms != [] {
      assert !ms[0].RefreshNode? && NoRefresh(ms[1..]);
      NothingRaised(Moved(s, ms[0]), ms[1..], c);
    }
  }

  /** Without refreshes: one round plus the slots available at entry. */
  lemma RetryBoundUnrefreshed(views: Views, ms: seq<Move>, c: nat)
    requires Nodes.Sound(views) && Moves(Search(views, map[], 0), ms) && NoRefresh(ms) && Enter(c) in ms
    ensures Finds(ms, c) <= 1 + SlotsAtEntry(Search(views, map[], 0), ms, c)
  {
    RetryBound(views, ms, c);
    NothingRaised(Search(views, map[], 0), ms, c);
  }

  // ---------- fairness

  /** What findBest answers. */
  ghost predicate Best(views: Views, a: Text) {
    a in views && Available(views[a]) > 0 && Nodes.MostAvailable(views, a)
  }

  /** No node has more than d available slots more than another. */
  ghost predicate WithinSpread(views: Views, d: nat) {
    forall a, b :: a in views && b in views ==> Available(views[a]) <= Available(views[b]) + d
  }

  ghost predicate Creations(views: Views, places: seq<(Text, UInt32)>)
    decreases |places|
  {
    places == [] || (
      var (a, p) := places[0];
      Best(views, a) && CanReserve(views[a], p) && Creations(views[a := Reserve(views[a], p)], places[1..]))
  }

  ghost function AfterCreations(views: Views, places: seq<(Text, UInt32)>): Views
    requires Creations(views, places)
    decreases |places|
  {
    if places == [] then views
    else var (a, p) := places[0]; AfterCreations(views[a := Reserve(views[a], p)], places[1..])
  }

  lemma CreationKeepsSpread(views: Views, a: Text, p: UInt32, d: nat)
    requires Nodes.Sound(views) && Best(views, a) && CanReserve(views[a], p) && WithinSpread(views, d) && d >= 1
    ensures WithinSpread(views[a := Reserve(views[a], p)], d)
  {
    ReserveKeepsInv(views[a], p);
  }

  /**
   Over any run of creations with load balancing and no refresh, the spread never exceeds the larger of the
   initial spread and 1, and the slots taken are exactly as many as the sessions created.
   */
  lemma {:induction false} SpreadStaysSmall(views: Views, places: seq<(Text, UInt32)>, d: nat)
    requires Nodes.Sound(views) && Creations(views, places) && WithinSpread(views, d)
    ensures WithinSpread(AfterCreations(views, places), if d >= 1 then d else 1)
    ensures Total(AfterCreations(views, places)) + |places| == Total(views)
    decreases |places|
  {
    if places != [] {
      var (a, p) := places[0];
      var d1 := if d >= 1 then d else 1;
      TotalReserved(views, a, p);
      CreationKeepsSpread(views, a, p, d1);
      SpreadStaysSmall(views[a := Reserve(views[a], p)], places[1..], d1);
    }
  }
}
