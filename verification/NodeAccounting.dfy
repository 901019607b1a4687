/**
 Who holds the ports of a node. Sessions never share a port. A session whose process was never started keeps its
 ports for ever, since only the end of a process gives ports back: every used port is either held by a session with
 a process or stranded, and stranded ports are exactly those the failing paths of a start leave behind.
 */
module NodeAccounting {
  import opened Common
  import opened Ports
  import opened NodeSessions

  type Key = (Text, Text)

  /** The live sessions, keyed by owner and name. */
  ghost function Live(s: NodeState): map<Key, Session> {
    map x | x in LiveKeys(s) :: s.sessions[x.0][x.1]
  }

  /** Those of them that have a process, whose end will clear them. */
  ghost function Running(live: map<Key, Session>): map<Key, Session> {
    map x | x in live && live[x].running :: live[x]
  }

  ghost function LiveKeys(s: NodeState): set<Key> {
    set o, n | o in s.sessions && n in s.sessions[o] :: (o, n)
  }

  ghost function UsedOf(s: NodeState, k: Kind): set<UInt16> {
    Used(Table(s, k))
  }

  ghost predicate Owned(live: map<Key, Session>) {
    forall x :: x in live ==> (live[x].owner, live[x].name) == x
  }

  ghost predicate InUse(live: map<Key, Session>, used: set<UInt16>, k: Kind) {
    forall x :: x in live ==> PortOf(live[x], k) in used
  }

  ghost predicate Apart(live: map<Key, Session>, k: Kind) {
    forall x, y :: x in live && y in live && x != y ==> PortOf(live[x], k) != PortOf(live[y], k)
  }

  ghost predicate KindInv(live: map<Key, Session>, used: set<UInt16>, k: Kind) {
    InUse(live, used, k) && Apart(live, k)
  }

  /**
   Every session's stored owner and name are its keys, every port it holds is marked used, and distinct
   sessions hold different ports in each of the three tables.
   */
  ghost predicate NodeInv(s: NodeState) {
    && Owned(Live(s))
    && forall k :: KindInv(Live(s), UsedOf(s, k), k)
  }

  ghost function Held(live: map<Key, Session>, k: Kind): set<UInt16> {
    set x | x in live :: PortOf(live[x], k)
  }

  /** Used ports that no session with a process holds: nothing will ever free them. */
  ghost function Stranded(s: NodeState, k: Kind): set<UInt16> {
    Unheld(Running(Live(s)), UsedOf(s, k), k)
  }

  ghost function Unheld(live: map<Key, Session>, used: set<UInt16>, k: Kind): set<UInt16> {
    used - Held(live, k)
  }

  // ---------- one node's events

  datatype Event =
    | Started(request: Request, choice: Choice)
    | Closed(owner: Text)
    | Exited(owner: Text, name: Text)

  ghost predicate Enabled(s: NodeState, e: Event) {
    match e
    case Started(r, c) => CanChoose(s, c)
    case Closed(o) => true
    case Exited(o, n) => IsLive(s, o, n) && s.sessions[o][n].running
  }

  ghost function Apply(s: NodeState, e: Event): NodeState
    requires Enabled(s, e)
  {
    match e
    case Started(r, c) => Start(s, r, c)
    case Closed(o) => Finish(s, o)
    case Exited(o, n) => Clear(s, s.sessions[o][n])
  }

  /** The ports of kind k that an event takes and never gives back. */
  ghost function Forgotten(s: NodeState, e: Event, k: Kind): set<UInt16> {
    match e
    case Started(r, c) =>
      if Refused(s, r, c) then
        match k
        case Web => {}
        case Sock => if Free(s.sock) == {} then {} else {c.sock}
        case Rtc => if Free(s.rtc) == {} then {} else {c.rtc}
      else if Duplicate(s, r) || !c.launched then {PortOf(NewSession(r, c), k)}
      else {}
    case _ => {}
  }

  // ---------- what each event does to the live sessions and the used ports

  lemma LiveIs(s: NodeState, live: map<Key, Session>)
    requires forall o, n :: (o, n) in live <==> IsLive(s, o, n)
    requires forall o, n :: (o, n) in live && IsLive(s, o, n) ==> live[(o, n)] == s.sessions[o][n]
    ensures Live(s) == live
  {
    assert forall x :: x in live <==> x in LiveKeys(s) by {
      forall x: Key ensures x in live <==> x in LiveKeys(s) {
        assert x == (x.0, x.1);
      }
    }
  }

  lemma LiveAt(s: NodeState)
    ensures forall o, n :: (o, n) in Live(s) <==> IsLive(s, o, n)
    ensures forall o, n :: (o, n) in Live(s) ==> Live(s)[(o, n)] == s.sessions[o][n]
  {
  }

  lemma StartLive(s: NodeState, r: Request, c: Choice)
    ensures Refused(s, r, c) || Duplicate(s, r) ==> Live(Start(s, r, c)) == Live(s)
    ensures !Refused(s, r, c) && !Duplicate(s, r) ==>
              && (r.owner, r.name) !in Live(s)
              && Live(Start(s, r, c)) == Live(s)[(r.owner, r.name) := NewSession(r, c)]
  {
    LiveAt(s);
    if Refused(s, r, c) || Duplicate(s, r) {
      LiveIs(Start(s, r, c), Live(s));
    } else {
      LiveIs(Start(s, r, c), Live(s)[(r.owner, r.name) := NewSession(r, c)]);
    }
  }

  lemma StartUsed(s: NodeState, r: Request, c: Choice, k: Kind)
    requires CanChoose(s, c)
    ensures Refused(s, r, c) ==>
              && Forgotten(s, Started(r, c), k) !! UsedOf(s, k)
              && UsedOf(Start(s, r, c), k) == UsedOf(s, k) + Forgotten(s, Started(r, c), k)
    ensures !Refused(s, r, c) ==>
              && PortOf(NewSession(r, c), k) !in UsedOf(s, k)
              && UsedOf(Start(s, r, c), k) == UsedOf(s, k) + {PortOf(NewSession(r, c), k)}
  {
    ClaimUsed(s.sock, c.sock);
    ClaimUsed(s.rtc, c.rtc);
  }

  lemma FinishLive(s: NodeState, o: Text)
    ensures Live(Finish(s, o)) == Live(s)
  {
    LiveAt(s);
    LiveIs(Finish(s, o), Live(s));
  }

  lemma ClearLive(s: NodeState, o: Text, n: Text)
    requires Owned(Live(s)) && IsLive(s, o, n)
    ensures (o, n) in Live(s) && Live(s)[(o, n)] == s.sessions[o][n]
    ensures Live(Clear(s, s.sessions[o][n])) == Live(s) - {(o, n)}
  {
    LiveAt(s);
    assert (o, n) in Live(s);
    LiveIs(Clear(s, s.sessions[o][n]), Live(s) - {(o, n)});
  }

  lemma ClearUsed(s: NodeState, x: Session, k: Kind)
    ensures UsedOf(Clear(s, x), k) == UsedOf(s, k) - {PortOf(x, k)}
  {
  }

  // ---------- live sessions come and go

  lemma HeldInUse(live: map<Key, Session>, used: set<UInt16>, k: Kind)
    requires InUse(live, used, k)
    ensures Held(live, k) <= used
  {
  }

  lemma HeldPlus(live: map<Key, Session>, key: Key, x: Session, k: Kind)
    requires key !in live
    ensures Held(live[key := x], k) == Held(live, k) + {PortOf(x, k)}
  {
    var more := live[key := x];
    forall p | p in Held(live, k) ensures p in Held(more, k) {
      var y :| y in live && p == PortOf(live[y], k);
      assert y in more && more[y] == live[y];
    }
    assert PortOf(x, k) in Held(more, k) by { assert key in more; }
  }

  /** Taking or returning one port on both sides leaves the difference as it was. */
  lemma SamePlus(used: set<UInt16>, held: set<UInt16>, p: UInt16)
    requires held <= used && p !in used
    ensures (used + {p}) - (held + {p}) == used - held
    ensures |held + {p}| == |held| + 1
  {
  }

  lemma Opened(live: map<Key, Session>, key: Key, x: Session, used: set<UInt16>, k: Kind)
    requires KindInv(live, used, k)
    requires key !in live && PortOf(x, k) !in used
    ensures KindInv(live[key := x], used + {PortOf(x, k)}, k)
    ensures Unheld(live[key := x], used + {PortOf(x, k)}, k) == Unheld(live, used, k)
    ensures |Held(live[key := x], k)| == |Held(live, k)| + 1
  {
    HeldInUse(live, used, k);
    SamePlus(used, Held(live, k), PortOf(x, k));
    HeldPlus(live, key, x, k);
    OpenedInv(live, key, x, used, k);
  }

  lemma OpenedInv(live: map<Key, Session>, key: Key, x: Session, used: set<UInt16>, k: Kind)
    requires KindInv(live, used, k)
    requires key !in live && PortOf(x, k) !in used
    ensures KindInv(live[key := x], used + {PortOf(x, k)}, k)
  {
  }

  lemma Ended(live: map<Key, Session>, key: Key, used: set<UInt16>, k: Kind)
    requires KindInv(live, used, k) && key in live
    ensures KindInv(live - {key}, used - {PortOf(live[key], k)}, k)
    ensures Unheld(live - {key}, used - {PortOf(live[key], k)}, k) == Unheld(live, used, k)
    ensures |Held(live, k)| == |Held(live - {key}, k)| + 1
    ensures |live| == |live - {key}| + 1
  {
    var less, p := live - {key}, PortOf(live[key], k);
    assert live.Keys == less.Keys + {key};
    assert KindInv(less, used - {p}, k);
    HeldInUse(less, used - {p}, k);
    assert live == less[key := live[key]];
    HeldPlus(less, key, live[key], k);
    assert used == (used - {p}) + {p};
    SamePlus(used - {p}, Held(less, k), p);
  }

  lemma Forgot(live: map<Key, Session>, used: set<UInt16>, forgotten: set<UInt16>, k: Kind)
    requires KindInv(live, used, k) && forgotten !! used
    ensures KindInv(live, used + forgotten, k)
    ensures Unheld(live, used + forgotten, k) == Unheld(live, used, k) + forgotten
  {
    HeldInUse(live, used, k);
  }

  // ---------- sessions with a process

  lemma RunningInv(live: map<Key, Session>, used: set<UInt16>, k: Kind)
    requires KindInv(live, used, k)
    ensures KindInv(Running(live), used, k)
  {
  }

  lemma RunningPlus(live: map<Key, Session>, key: Key, x: Session)
    requires key !in live
    ensures key !in Running(live)
    ensures Running(live[key := x]) == if x.running then Running(live)[key := x] else Running(live)
  {
  }

  lemma RunningMinus(live: map<Key, Session>, key: Key)
    requires key in live && live[key].running
    ensures key in Running(live) && Running(live)[key] == live[key]
    ensures Running(live - {key}) == Running(live) - {key}
  {
  }

  /** A session without a process holds stranded ports only. */
  lemma DeadIsStranded(s: NodeState, o: Text, n: Text, k: Kind)
    requires NodeInv(s) && IsLive(s, o, n) && !s.sessions[o][n].running
    ensures PortOf(s.sessions[o][n], k) in Stranded(s, k)
  {
    LiveAt(s);
    assert KindInv(Live(s), UsedOf(s, k), k);
    assert (o, n) in Live(s) && Live(s)[(o, n)] == s.sessions[o][n];
    NotHeld(Live(s), (o, n), UsedOf(s, k), k);
  }

  lemma NotHeld(live: map<Key, Session>, key: Key, used: set<UInt16>, k: Kind)
    requires KindInv(live, used, k) && key in live && !live[key].running
    ensures PortOf(live[key], k) in Unheld(Running(live), used, k)
  {
    forall x | x in Running(live) ensures PortOf(Running(live)[x], k) != PortOf(live[key], k) {
      assert x in live && x != key;
    }
  }

  /** Port exclusivity is kept by every event of a node. */
  lemma EventKeepsInv(s: NodeState, e: Event)
    requires NodeInv(s) && Enabled(s, e)
    ensures NodeInv(Apply(s, e))
  {
    forall k ensures KindInv(Live(Apply(s, e)), UsedOf(Apply(s, e), k), k) {
      EventKeepsKind(s, e, k);
    }
    match e
    case Started(r, c) => StartLive(s, r, c);
    case Closed(o) => FinishLive(s, o);
    case Exited(o, n) => ClearLive(s, o, n);
  }

  /** The sessions with a process hold one port each. */
  ghost predicate Matched(s: NodeState, k: Kind) {
    |Held(Running(Live(s)), k)| == |Running(Live(s))|
  }

  /** The same for one table; there the ports held are as many as the sessions with a process. */
  lemma EventKeepsKind(s: NodeState, e: Event, k: Kind)
    requires NodeInv(s) && Enabled(s, e)
    ensures KindInv(Live(Apply(s, e)), UsedOf(Apply(s, e), k), k)
    ensures Matched(s, k) ==> Matched(Apply(s, e), k)
  {
    match e
    case Started(r, c) =>
      if Refused(s, r, c) || Duplicate(s, r) {
        FailedStart(s, r, c, k);
      } else if c.launched {
        LaunchedStart(s, r, c, k);
      } else {
        CrashedStart(s, r, c, k);
      }
    case Closed(o) => CloseKeeps(s, o, k);
    case Exited(o, n) => ExitKeeps(s, o, n, k);
  }

  /** Exact accounting: the forgotten ports were free before, and they are all that gets stranded. */
  lemma EventStrands(s: NodeState, e: Event, k: Kind)
    requires NodeInv(s) && Enabled(s, e)
    ensures Forgotten(s, e, k) !! UsedOf(s, k)
    ensures Stranded(Apply(s, e), k) == Stranded(s, k) + Forgotten(s, e, k)
  {
    PlusNone(Stranded(s, k));
    match e
    case Started(r, c) =>
      if Refused(s, r, c) || Duplicate(s, r) {
        FailedStart(s, r, c, k);
      } else if c.launched {
        LaunchedStart(s, r, c, k);
        assert Forgotten(s, e, k) == {};
      } else {
        CrashedStart(s, r, c, k);
      }
    case Closed(o) => CloseKeeps(s, o, k);
    case Exited(o, n) => ExitKeeps(s, o, n, k);
  }

  lemma PlusNone(ports: set<UInt16>)
    ensures ports + {} == ports
  {
  }

  lemma CloseKeeps(s: NodeState, o: Text, k: Kind)
    requires NodeInv(s)
    ensures Live(Finish(s, o)) == Live(s)
    ensures KindInv(Live(s), UsedOf(Finish(s, o), k), k)
    ensures Stranded(Finish(s, o), k) == Stranded(s, k)
  {
    FinishLive(s, o);
    assert UsedOf(Finish(s, o), k) == UsedOf(s, k);
    assert KindInv(Live(s), UsedOf(s, k), k);
  }

  lemma ExitKeeps(s: NodeState, o: Text, n: Text, k: Kind)
    requires NodeInv(s) && IsLive(s, o, n) && s.sessions[o][n].running
    ensures var t := Clear(s, s.sessions[o][n]);
            && KindInv(Live(t), UsedOf(t, k), k)
            && Stranded(t, k) == Stranded(s, k)
            && (Matched(s, k) ==> Matched(t, k))
  {
    assert KindInv(Live(s), UsedOf(s, k), k);
    ClearLive(s, o, n);
    ClearUsed(s, s.sessions[o][n], k);
    Ended(Live(s), (o, n), UsedOf(s, k), k);
    RunningInv(Live(s), UsedOf(s, k), k);
    RunningMinus(Live(s), (o, n));
    Ended(Running(Live(s)), (o, n), UsedOf(s, k), k);
  }

  lemma FailedStart(s: NodeState, r: Request, c: Choice, k: Kind)
    requires NodeInv(s) && CanChoose(s, c)
    requires Refused(s, r, c) || Duplicate(s, r)
    ensures Live(Start(s, r, c)) == Live(s)
    ensures KindInv(Live(s), UsedOf(Start(s, r, c), k), k)
    ensures Forgotten(s, Started(r, c), k) !! UsedOf(s, k)
    ensures Stranded(Start(s, r, c), k) == Stranded(s, k) + Forgotten(s, Started(r, c), k)
  {
    assert KindInv(Live(s), UsedOf(s, k), k);
    StartLive(s, r, c);
    StartUsed(s, r, c, k);
    Forgot(Live(s), UsedOf(s, k), Forgotten(s, Started(r, c), k), k);
    RunningInv(Live(s), UsedOf(s, k), k);
    Forgot(Running(Live(s)), UsedOf(s, k), Forgotten(s, Started(r, c), k), k);
  }

  /** An accepted start opens a session, with or without a process. */
  lemma AcceptedStart(s: NodeState, r: Request, c: Choice, k: Kind)
    requires NodeInv(s) && CanChoose(s, c)
    requires !Refused(s, r, c) && !Duplicate(s, r)
    ensures var key, x := (r.owner, r.name), NewSession(r, c);
            && key !in Live(s) && Live(Start(s, r, c)) == Live(s)[key := x]
            && PortOf(x, k) !in UsedOf(s, k) && UsedOf(Start(s, r, c), k) == UsedOf(s, k) + {PortOf(x, k)}
            && KindInv(Live(Start(s, r, c)), UsedOf(Start(s, r, c), k), k)
            && KindInv(Running(Live(s)), UsedOf(s, k), k)
  {
    assert KindInv(Live(s), UsedOf(s, k), k);
    StartLive(s, r, c);
    StartUsed(s, r, c, k);
    Opened(Live(s), (r.owner, r.name), NewSession(r, c), UsedOf(s, k), k);
    RunningInv(Live(s), UsedOf(s, k), k);
  }

  lemma LaunchedStart(s: NodeState, r: Request, c: Choice, k: Kind)
    requires NodeInv(s) && CanChoose(s, c)
    requires !Refused(s, r, c) && !Duplicate(s, r) && c.launched
    ensures KindInv(Live(Start(s, r, c)), UsedOf(Start(s, r, c), k), k)
    ensures Stranded(Start(s, r, c), k) == Stranded(s, k)
    ensures Matched(s, k) ==> Matched(Start(s, r, c), k)
  {
    var key, x := (r.owner, r.name), NewSession(r, c);
    AcceptedStart(s, r, c, k);
    RunningPlus(Live(s), key, x);
    Opened(Running(Live(s)), key, x, UsedOf(s, k), k);
  }

  lemma OneMoreStranded(live: map<Key, Session>, key: Key, x: Session, used: set<UInt16>, k: Kind)
    requires KindInv(Running(live), used, k) && key !in live && !x.running && PortOf(x, k) !in used
    ensures Running(live[key := x]) == Running(live)
    ensures Unheld(Running(live[key := x]), used + {PortOf(x, k)}, k) == Unheld(Running(live), used, k) + {PortOf(x, k)}
  {
    RunningPlus(live, key, x);
    Forgot(Running(live), used, {PortOf(x, k)}, k);
  }

  lemma CrashForgets(s: NodeState, r: Request, c: Choice, k: Kind)
    requires !Refused(s, r, c) && !Duplicate(s, r) && !c.launched
    ensures Forgotten(s, Started(r, c), k) == {PortOf(NewSession(r, c), k)}
  {
  }

  lemma CrashedStart(s: NodeState, r: Request, c: Choice, k: Kind)
    requires NodeInv(s) && CanChoose(s, c)
    requires !Refused(s, r, c) && !Duplicate(s, r) && !c.launched
    ensures KindInv(Live(Start(s, r, c)), UsedOf(Start(s, r, c), k), k)
    ensures Forgotten(s, Started(r, c), k) !! UsedOf(s, k)
    ensures Stranded(Start(s, r, c), k) == Stranded(s, k) + Forgotten(s, Started(r, c), k)
    ensures Matched(s, k) ==> Matched(Start(s, r, c), k)
  {
    AcceptedStart(s, r, c, k);
    CrashForgets(s, r, c, k);
    OneMoreStranded(Live(s), (r.owner, r.name), NewSession(r, c), UsedOf(s, k), k);
  }

  lemma ForgottenCount(s: NodeState, e: Event, k: Kind)
    ensures |Forgotten(s, e, k)| == if Loses(s, e, k) then 1 else 0
  {
  }

  // ---------- whole lifetimes

  ghost predicate Run(s: NodeState, es: seq<Event>)
    decreases |es|
  {
    es == [] || (Enabled(s, es[0]) && Run(Apply(s, es[0]), es[1..]))
  }

  ghost function After(s: NodeState, es: seq<Event>): NodeState
    requires Run(s, es)
    decreases |es|
  {
    if es == [] then s else After(Apply(s, es[0]), es[1..])
  }

  /**
   A duplicate name and a launch that crashes cost one port of each kind; a refused start costs the socket and the
   RTC port it found.
   */
  ghost predicate Loses(s: NodeState, e: Event, k: Kind) {
    && e.Started?
    && if Refused(s, e.request, e.choice) then k != Web && Free(Table(s, k)) != {}
       else Duplicate(s, e.request) || !e.choice.launched
  }

  /** How many ports of kind k a lifetime loses. */
  ghost function Lost(s: NodeState, es: seq<Event>, k: Kind): nat
    requires Run(s, es)
    decreases |es|
  {
    if es == [] then 0 else (if Loses(s, es[0], k) then 1 else 0) + Lost(Apply(s, es[0]), es[1..], k)
  }

  /** Stranded ports stay used and never come back; they grow by one for each event that loses one. */
  lemma {:induction false} RunAccounting(s: NodeState, es: seq<Event>, k: Kind)
    requires NodeInv(s) && Run(s, es) && Matched(s, k)
    ensures NodeInv(After(s, es)) && Matched(After(s, es), k)
    ensures Stranded(s, k) <= Stranded(After(s, es), k) <= UsedOf(After(s, es), k)
    ensures |Stranded(After(s, es), k)| == |Stranded(s, k)| + Lost(s, es, k)
    decreases |es|
  {
    if es != [] {
      var e := es[0];
      EventKeepsInv(s, e);
      EventKeepsKind(s, e, k);
      EventStrands(s, e, k);
      ForgottenCount(s, e, k);
      RunAccounting(Apply(s, e), es[1..], k);
    }
  }

  lemma FreshInv(web: set<UInt16>, sock: set<UInt16>, rtc: set<UInt16>)
    ensures NodeInv(FreshNode(web, sock, rtc)) && Live(FreshNode(web, sock, rtc)) == map[]
  {
    LiveIs(FreshNode(web, sock, rtc), map[]);
  }

  /**
   Over a node's whole lifetime sessions never share a port, and in each table the used ports are one for each
   session with a process plus exactly the ports lost by starts that were refused, duplicate or crashed.
   */
  lemma LifetimeAccounting(web: set<UInt16>, sock: set<UInt16>, rtc: set<UInt16>, es: seq<Event>, k: Kind)
    requires Run(FreshNode(web, sock, rtc), es)
    ensures var s := FreshNode(web, sock, rtc); var t := After(s, es);
            NodeInv(t) && |UsedOf(t, k)| == |Running(Live(t))| + Lost(s, es, k)
  {
    var s := FreshNode(web, sock, rtc);
    FreshInv(web, sock, rtc);
    assert Stranded(s, k) == {};
    RunAccounting(s, es, k);
    UsedSplit(After(s, es), k);
  }

  lemma UsedSplit(s: NodeState, k: Kind)
    requires NodeInv(s)
    ensures |UsedOf(s, k)| == |Held(Running(Live(s)), k)| + |Stranded(s, k)|
  {
    assert KindInv(Live(s), UsedOf(s, k), k);
    RunningInv(Live(s), UsedOf(s, k), k);
    var held := Held(Running(Live(s)), k);
    HeldInUse(Running(Live(s)), UsedOf(s, k), k);
    assert UsedOf(s, k) == held + Stranded(s, k);
  }

  /** A crashed session is never cleared: whatever happens later, its three ports stay used. */
  lemma CrashedIsForEver(s: NodeState, o: Text, n: Text, es: seq<Event>, k: Kind)
    requires NodeInv(s) && Matched(s, k) && IsLive(s, o, n) && !s.sessions[o][n].running && Run(s, es)
    ensures PortOf(s.sessions[o][n], k) in UsedOf(After(s, es), k)
  {
    DeadIsStranded(s, o, n, k);
    RunAccounting(s, es, k);
  }
}
