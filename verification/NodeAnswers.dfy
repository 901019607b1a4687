/** What a node's answers say of its sessions: over a lifetime codes sent and processes ended account for them. */
module NodeAnswers {
  import opened Common
  import opened NodeSessions
  import opened NodeAccounting

  /** The event is a start that is answered with this code. */
  ghost predicate Answers(s: NodeState, e: Event, code: Int32) {
    e.Started? && StartStatus(s, e.request, e.choice) == code
  }

  /** How many starts of a lifetime are answered with this code. */
  ghost function Answered(s: NodeState, es: seq<Event>, code: Int32): nat
    requires Run(s, es)
    decreases |es|
  {
    if es == [] then 0 else (if Answers(s, es[0], code) then 1 else 0) + Answered(Apply(s, es[0]), es[1..], code)
  }

  /** How many processes end. */
  ghost function Exits(es: seq<Event>): nat {
    if es == [] then 0 else (if es[0].Exited? then 1 else 0) + Exits(es[1..])
  }

  ghost function RunningCount(s: NodeState): nat {
    |Running(Live(s))|
  }

  /** Sessions in the list without a process. */
  ghost function DeadCount(s: NodeState): int {
    |Live(s)| - |Running(Live(s))|
  }

  lemma OneMore(live: map<Key, Session>, key: Key, x: Session)
    requires key !in live
    ensures |live[key := x]| == |live| + 1
  {
    assert live[key := x].Keys == live.Keys + {key};
  }

  lemma OneLess(live: map<Key, Session>, key: Key)
    requires key in live
    ensures |live - {key}| == |live| - 1
  {
    assert (live - {key}).Keys == live.Keys - {key};
  }

  /** An answer 0 adds a session with a process, an answer 3 one without; the end of a process takes one away. */
  lemma EventCounts(s: NodeState, e: Event)
    requires NodeInv(s) && Enabled(s, e)
    ensures var t := Apply(s, e);
            && RunningCount(t) == RunningCount(s) + (if Answers(s, e, 0) then 1 else 0) - (if e.Exited? then 1 else 0)
            && DeadCount(t) == DeadCount(s) + if Answers(s, e, 3) then 1 else 0
  {
    match e
    case Started(r, c) =>
      StartLive(s, r, c);
      if !Refused(s, r, c) && !Duplicate(s, r) {
        var key, x := (r.owner, r.name), NewSession(r, c);
        OneMore(Live(s), key, x);
        RunningPlus(Live(s), key, x);
        OneMore(Running(Live(s)), key, x);
      }
    case Closed(o) => FinishLive(s, o);
    case Exited(o, n) =>
      ClearLive(s, o, n);
      OneLess(Live(s), (o, n));
      RunningMinus(Live(s), (o, n));
      OneLess(Running(Live(s)), (o, n));
  }

  /** A start is answered 0 if and only if one more session has a process, and 3 if and only if one more has none. */
  lemma AnswerCounts(s: NodeState, r: Request, c: Choice)
    requires NodeInv(s) && CanChoose(s, c)
    ensures StartStatus(s, r, c) == 0 <==> RunningCount(Start(s, r, c)) == RunningCount(s) + 1
    ensures StartStatus(s, r, c) == 3 <==> DeadCount(Start(s, r, c)) == DeadCount(s) + 1
  {
    EventCounts(s, Started(r, c));
  }

  lemma {:induction false} RunCounts(s: NodeState, es: seq<Event>)
    requires NodeInv(s) && Run(s, es)
    ensures RunningCount(After(s, es)) + Exits(es) == RunningCount(s) + Answered(s, es, 0)
    ensures DeadCount(After(s, es)) == DeadCount(s) + Answered(s, es, 3)
    decreases |es|
  {
    if es != [] {
      EventCounts(s, es[0]);
      EventKeepsInv(s, es[0]);
      RunCounts(Apply(s, es[0]), es[1..]);
    }
  }

  /**
   Over a node's whole lifetime: the starts answered 0 are the sessions with a process and the processes that have
   ended; the starts answered 3 are the sessions in its list without a process.
   */
  lemma AnswersBalance(web: set<UInt16>, sock: set<UInt16>, rtc: set<UInt16>, es: seq<Event>)
    requires Run(FreshNode(web, sock, rtc), es)
    ensures var s := FreshNode(web, sock, rtc); var t := After(s, es);
            && Answered(s, es, 0) == |Running(Live(t))| + Exits(es)
            && Answered(s, es, 3) == |Live(t)| - |Running(Live(t))|
  {
    FreshInv(web, sock, rtc);
    RunCounts(FreshNode(web, sock, rtc), es);
  }
}
