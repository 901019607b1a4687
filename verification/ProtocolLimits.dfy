/**
 The two ways in which a run stops being clean, each on a concrete run, and what follows: an offer that is
 not vacant ends in a refused start.
 */
module ProtocolLimits {
  import opened Common
  import opened Ports
  import opened NodeSessions
  import opened Slots
  import opened Sessions
  import opened Protocol
  import opened ProtocolPromise
  import opened ProtocolRefusals
  import opened ProtocolSafety

  const AT: Text := [1]
  const ANN: Text := [2]
  const JOB: Text := [3]
  const BOB: Text := [4]
  const CONFIG := Config([], {5001}, {5004}, {5008})
  const LISTED: Listing := [(5001, 0)]
  const MOVED := Config([], {5000}, {5004}, {5008})
  const MOVED_LISTED: Listing := [(5000, 0)]

  lemma Listings()
    ensures Enumerates(LISTED, Unused({5001})) && Enumerates(MOVED_LISTED, Unused({5000}))
    ensures Refresh(NO_SLOTS, [], LISTED) == Slots([], 1, 0, map[5001 := false])
  {
    assert PortAt(LISTED, 0) == 5001 && PortAt(MOVED_LISTED, 0) == 5000;
    assert 5001 in Listed(LISTED) && 5000 in Listed(MOVED_LISTED);
    assert LISTED[..0] == [];
  }

  ghost function FirstSite(attached: bool): Site {
    var node := FreshNode({5001}, {5004}, {5008});
    if attached then Site(node, multiset{}, multiset{}, true, true, Slots([], 1, 0, map[5001 := false]), map[])
    else Site(node, multiset{}, multiset{NodeInfo([], LISTED)}, false, false, NO_SLOTS, map[])
  }

  /** A node starts and its NodeInfo arrives. */
  lemma FirstSteps()
    ensures var s1 := System(map[AT := FirstSite(false)], map[], map[]);
            var s2 := System(map[AT := FirstSite(true)], map[], map[]);
            && Enabled(INITIAL, Restart(AT, CONFIG, LISTED)) && After(INITIAL, Restart(AT, CONFIG, LISTED)) == s1
            && Enabled(s1, InfoArrives(AT, NodeInfo([], LISTED)))
            && After(s1, InfoArrives(AT, NodeInfo([], LISTED))) == s2
  {
    Listings();
    var s1 := System(map[AT := FirstSite(false)], map[], map[]);
    assert SitesAfter(s1, InfoArrives(AT, NodeInfo([], LISTED)))[AT].toFront == multiset{};
  }

  const BOOT: Step := Restart(AT, CONFIG, LISTED)
  const INFO: Step := InfoArrives(AT, NodeInfo([], LISTED))

  lemma Prepend(s: System, e: Step, es: seq<Step>)
    requires Enabled(s, e) && Run(After(s, e), es)
    ensures Run(s, [e] + es) && Final(s, [e] + es) == Final(After(s, e), es)
    ensures Refusals(s, [e] + es) == (if IsRefused(s, e) then 1 else 0) + Refusals(After(s, e), es)
  {
    assert ([e] + es)[1..] == es;
  }

  lemma {:induction false} ConcatRun(s: System, es: seq<Step>, fs: seq<Step>)
    requires Run(s, es) && Run(Final(s, es), fs)
    ensures Run(s, es + fs) && Final(s, es + fs) == Final(Final(s, es), fs)
    decreases |es|
  {
    if es == [] {
      assert es + fs == fs;
    } else {
      ConcatRun(After(s, es[0]), es[1..], fs);
      assert (es + fs)[0] == es[0] && (es + fs)[1..] == es[1..] + fs;
    }
  }

  lemma {:induction false} Concat(s: System, es: seq<Step>, fs: seq<Step>)
    requires Run(s, es) && Run(Final(s, es), fs)
    ensures Run(s, es + fs) && Final(s, es + fs) == Final(Final(s, es), fs)
    ensures Refusals(s, es + fs) == Refusals(s, es) + Refusals(Final(s, es), fs)
    decreases |es|
  {
    ConcatRun(s, es, fs);
    if es == [] {
      assert es + fs == fs;
    } else {
      Concat(After(s, es[0]), es[1..], fs);
      assert (es + fs)[0] == es[0] && (es + fs)[1..] == es[1..] + fs;
    }
  }

  /** The promise includes the last state. */
  lemma {:induction false} PromisedAtEnd(s: System, es: seq<Step>)
    requires Run(s, es)
    ensures AlwaysPromised(s, es) ==> SitesHonest(Final(s, es).sites)
    decreases |es|
  {
    if es == [] {
      if Promised(s) {
        assert OnlySends([]) && Run(s, []);
        assert SitesHonest(Final(s, []).sites);
      }
    } else {
      PromisedAtEnd(After(s, es[0]), es[1..]);
    }
  }

  ghost function Ready(): System {
    System(map[AT := FirstSite(true)], map[], map[])
  }

  lemma FirstRun()
    ensures Run(INITIAL, [BOOT, INFO]) && Refusals(INITIAL, [BOOT, INFO]) == 0
    ensures Final(INITIAL, [BOOT, INFO]) == Ready()
  {
    FirstSteps();
    var s1 := System(map[AT := FirstSite(false)], map[], map[]);
    Prepend(s1, INFO, []);
    Prepend(INITIAL, BOOT, [INFO]);
    assert [BOOT, INFO] == [BOOT] + ([INFO] + []);
  }

  // ---------- a node that starts again

  /** The site once the node has restarted and its NodeInfo has arrived. */
  ghost function Rejoined(x: Site, c: Config, l: Listing): Site {
    Site(FreshNode(c.web, c.sock, c.rtc), multiset{}, multiset{}, true, true,
         Refresh(x.slots, c.publicAddress, l), x.pending)
  }

  ghost function Rejoins(a: Text, c: Config, l: Listing): seq<Step> {
    [Restart(a, c, l), InfoArrives(a, NodeInfo(c.publicAddress, l))]
  }

  lemma RestartStep(s: System, a: Text, c: Config, l: Listing)
    requires Enumerates(l, Unused(c.web))
    ensures Enabled(s, Restart(a, c, l)) && !IsRefused(s, Restart(a, c, l))
    ensures After(s, Restart(a, c, l)) == s.(sites := s.sites[a := Restarted(s, a, c, l)])
  {
  }

  lemma InfoStep(s: System, a: Text, c: Config, l: Listing)
    requires a in s.sites && s.sites[a].toFront == multiset{NodeInfo(c.publicAddress, l)}
    ensures var e, x := InfoArrives(a, NodeInfo(c.publicAddress, l)), s.sites[a];
            && Enabled(s, e) && !IsRefused(s, e)
            && After(s, e) == s.(sites := s.sites[a := x.(toFront := multiset{}, known := true, attached := true,
                                                         slots := Refresh(x.slots, c.publicAddress, l))])
  {
    var m := NodeInfo(c.publicAddress, l);
    assert m in s.sites[a].toFront && multiset{m} - multiset{m} == multiset{};
  }

  lemma RejoinRun(s: System, a: Text, c: Config, l: Listing)
    requires a in s.sites && Enumerates(l, Unused(c.web))
    ensures Run(s, Rejoins(a, c, l)) && Refusals(s, Rejoins(a, c, l)) == 0
    ensures Final(s, Rejoins(a, c, l)) == s.(sites := s.sites[a := Rejoined(s.sites[a], c, l)])
  {
    var restart, info := Restart(a, c, l), InfoArrives(a, NodeInfo(c.publicAddress, l));
    RestartStep(s, a, c, l);
    var s1 := After(s, restart);
    InfoStep(s1, a, c, l);
    Prepend(s1, info, []);
    Prepend(s, restart, [info]);
    assert Rejoins(a, c, l) == [restart] + ([info] + []);
  }

  lemma LoginStep(s: System, u: Text)
    requires u !in s.accounts
    ensures Run(s, [Login(u, [])]) && Refusals(s, [Login(u, [])]) == 0
    ensures Final(s, [Login(u, [])]) == s.(accounts := s.accounts[u := Account([], map[])])
  {
    Prepend(s, Login(u, []), []);
    assert [Login(u, [])] + [] == [Login(u, [])];
  }

  /** A run of well configured nodes from the beginning to the state t, without a refusal. */
  ghost predicate Reaches(es: seq<Step>, t: System) {
    Run(INITIAL, es) && Final(INITIAL, es) == t && Refusals(INITIAL, es) == 0 && GoodRestarts(es)
  }

  lemma Extend(es: seq<Step>, s: System, fs: seq<Step>, t: System)
    requires Reaches(es, s) && Run(s, fs) && Final(s, fs) == t && Refusals(s, fs) == 0 && GoodRestarts(fs)
    ensures Reaches(es + fs, t)
  {
    Concat(INITIAL, es, fs);
  }

  lemma LogsIn(es: seq<Step>, s: System, u: Text)
    requires Reaches(es, s) && u !in s.accounts
    ensures Reaches(es + [Login(u, [])], s.(accounts := s.accounts[u := Account([], map[])]))
  {
    LoginStep(s, u);
    Extend(es, s, [Login(u, [])], s.(accounts := s.accounts[u := Account([], map[])]));
  }

  lemma Rejoining(es: seq<Step>, s: System, a: Text, c: Config, l: Listing)
    requires Reaches(es, s) && a in s.sites && Enumerates(l, Unused(c.web)) && GoodConfig(c)
    ensures Reaches(es + Rejoins(a, c, l), s.(sites := s.sites[a := Rejoined(s.sites[a], c, l)]))
  {
    RejoinRun(s, a, c, l);
    Extend(es, s, Rejoins(a, c, l), s.(sites := s.sites[a := Rejoined(s.sites[a], c, l)]));
  }

  /** A run that reaches a state with an untrue offer can go on to a refusal. */
  lemma ThenRefused(es: seq<Step>, s: System, a: Text, u: Text, n: Text, p: UInt16, c: Choice) returns (fs: seq<Step>)
    requires Reaches(es, s) && a in s.sites && s.sites[a].known && s.sites[a].attached
    requires CanReserve(s.sites[a].slots, p) && !Vacant(s.sites[a], p)
    requires u in s.accounts && !Locked(s, u) && n !in SessionsOf(s.open, u)
    requires CanChoose(s.sites[a].node, c)
    ensures fs == [ReserveSlot(a, u, n, p), SendStart(a, u),
                   NodeStarts(a, RequestStart(u, s.accounts[u].address, n, p), c)]
    ensures Run(INITIAL, es + fs) && GoodRestarts(es + fs) && Refusals(INITIAL, es + fs) == 1
  {
    fs := [ReserveSlot(a, u, n, p), SendStart(a, u), NodeStarts(a, RequestStart(u, s.accounts[u].address, n, p), c)];
    UntrueOfferIsRefused(s, a, u, n, p, c);
    Concat(INITIAL, es, fs);
  }

  /**
   Whatever the state: if an attached node's tracker offers a port that is not vacant there, then three more
   steps end in a start refused for want of a port, although the node was well configured.
   */
  lemma UntrueOfferIsRefused(s: System, a: Text, u: Text, n: Text, p: UInt16, c: Choice)
    requires a in s.sites && s.sites[a].known && s.sites[a].attached
    requires CanReserve(s.sites[a].slots, p) && !Vacant(s.sites[a], p)
    requires u in s.accounts && !Locked(s, u) && n !in SessionsOf(s.open, u)
    requires CanChoose(s.sites[a].node, c)
    ensures var ip := s.accounts[u].address;
            var es := [ReserveSlot(a, u, n, p), SendStart(a, u), NodeStarts(a, RequestStart(u, ip, n, p), c)];
            Run(s, es) && Refusals(s, es) == 1
  {
    var ip := s.accounts[u].address;
    var reserve, send, start := ReserveSlot(a, u, n, p), SendStart(a, u), NodeStarts(a, RequestStart(u, ip, n, p), c);
    var x1 := Reserved(s.sites[a], u, n, p);
    ReserveStep(s, a, u, n, p);
    SendStep(After(s, reserve), a, u, x1);
    StartRefused(After(After(s, reserve), send), a, RequestStart(u, ip, n, p), c);
    ThreeSteps(s, reserve, send, start);
  }

  ghost function Reserved(x: Site, u: Text, n: Text, p: UInt16): Site {
    x.(slots := Reserve(x.slots, p), pending := x.pending[u := Reservation(n, p)])
  }

  lemma ReserveStep(s: System, a: Text, u: Text, n: Text, p: UInt16)
    requires a in s.sites && s.sites[a].known && CanReserve(s.sites[a].slots, p)
    requires u in s.accounts && !Locked(s, u) && n !in SessionsOf(s.open, u)
    ensures var e := ReserveSlot(a, u, n, p);
            && Enabled(s, e) && !IsRefused(s, e)
            && a in After(s, e).sites && After(s, e).sites[a] == Reserved(s.sites[a], u, n, p)
            && After(s, e).accounts == s.accounts
  {
    assert u !in s.sites[a].pending;
  }

  lemma SendStep(s: System, a: Text, u: Text, x: Site)
    requires a in s.sites && s.sites[a] == x && u in x.pending && x.attached && u in s.accounts
    ensures var e, r := SendStart(a, u), x.pending[u];
            && Enabled(s, e) && !IsRefused(s, e)
            && a in After(s, e).sites && After(s, e).sites[a].node == x.node
            && RequestStart(u, s.accounts[u].address, r.session, ToInt32(r.port)) in After(s, e).sites[a].toNode
  {
  }

  lemma StartRefused(s: System, a: Text, r: Packet, c: Choice)
    requires a in s.sites && r.RequestStart? && 0 <= r.port < 0x1_0000 && r in s.sites[a].toNode
    requires CanChoose(s.sites[a].node, c) && !Vacant(s.sites[a], r.port)
    ensures Enabled(s, NodeStarts(a, r, c)) && IsRefused(s, NodeStarts(a, r, c))
  {
  }

  lemma ThreeSteps(s: System, e: Step, f: Step, g: Step)
    requires Enabled(s, e) && Enabled(After(s, e), f) && Enabled(After(After(s, e), f), g)
    requires !IsRefused(s, e) && !IsRefused(After(s, e), f) && IsRefused(After(After(s, e), f), g)
    ensures Run(s, [e, f, g]) && Refusals(s, [e, f, g]) == 1
  {
    Prepend(After(After(s, e), f), g, []);
    Prepend(After(s, e), f, [g]);
    Prepend(s, e, [f, g]);
    assert [e, f, g] == [e] + ([f] + ([g] + []));
  }

  // ---------- the first way: a node comes back without a port that is still on offer

  lemma FirstReached()
    ensures Reaches([BOOT, INFO], Ready())
  {
    FirstRun();
    assert GoodConfig(CONFIG);
  }

  ghost function MovedSteps(): seq<Step> {
    ([BOOT, INFO] + [Login(ANN, [])]) + Rejoins(AT, MOVED, MOVED_LISTED)
  }

  ghost function Moved(): System {
    System(map[AT := Rejoined(FirstSite(true), MOVED, MOVED_LISTED)], map[], map[ANN := Account([], map[])])
  }

  lemma MovedReached()
    ensures Reaches(MovedSteps(), Moved())
  {
    Listings();
    FirstReached();
    LogsIn([BOOT, INFO], Ready(), ANN);
    var s := Ready().(accounts := map[ANN := Account([], map[])]);
    Rejoining([BOOT, INFO] + [Login(ANN, [])], s, AT, MOVED, MOVED_LISTED);
  }

  /** The old web port is still on offer, but the node has it no more. */
  lemma MovedOffer()
    ensures var x := Moved().sites[AT];
            x.known && x.attached && CanReserve(x.slots, 5001) && !Vacant(x, 5001) && !Honest(x)
    ensures CanChoose(Moved().sites[AT].node, Choice(5004, 5008, true))
  {
    var x := Moved().sites[AT];
    assert MOVED_LISTED[..0] == [] && PortAt(MOVED_LISTED, 0) == 5000;
    assert Record(map[5001 := false], []) == map[5001 := false];
    assert x.slots.tracker == map[5001 := false][5000 := false];
    assert 5001 in FreePorts(x.slots.tracker) && !Vacant(x, 5001);
    assert 5004 in Free(x.node.sock) && 5008 in Free(x.node.rtc);
  }

  /** The tracker is dishonest as soon as the node is back, and the next creation there may be refused. */
  lemma MovedPortBreaksPromise() returns (fs: seq<Step>)
    ensures Run(INITIAL, MovedSteps()) && GoodRestarts(MovedSteps())
    ensures !SitesHonest(Final(INITIAL, MovedSteps()).sites) && !AlwaysPromised(INITIAL, MovedSteps())
    ensures var es := MovedSteps() + fs; Run(INITIAL, es) && GoodRestarts(es) && Refusals(INITIAL, es) == 1
  {
    MovedReached();
    MovedOffer();
    PromisedAtEnd(INITIAL, MovedSteps());
    fs := ThenRefused(MovedSteps(), Moved(), AT, ANN, JOB, 5001, Choice(5004, 5008, true));
  }

  // ---------- the second way: a NodeInfo overtakes a creation, with unchanged lists

  const RESERVE: Step := ReserveSlot(AT, ANN, JOB, 5001)
  const SEND: Step := SendStart(AT, ANN)
  const FIRST: Packet := RequestStart(ANN, [], JOB, 5001)
  const CHOSEN: Choice := Choice(5004, 5008, true)
  const START: Step := NodeStarts(AT, FIRST, CHOSEN)

  ghost function TwoUsers(): System {
    Ready().(accounts := map[ANN := Account([], map[])][BOB := Account([], map[])])
  }

  /** ANN's creation has reserved the port; then the node restarts with the same lists and reports itself. */
  ghost function OvertakenSteps(): seq<Step> {
    ((([BOOT, INFO] + [Login(ANN, [])]) + [Login(BOB, [])]) + [RESERVE]) + Rejoins(AT, CONFIG, LISTED)
  }

  ghost function Overtaken(): System {
    TwoUsers().(sites := map[AT := Rejoined(Reserved(FirstSite(true), ANN, JOB, 5001), CONFIG, LISTED)])
  }

  lemma ReserveRun()
    ensures Run(TwoUsers(), [RESERVE]) && Refusals(TwoUsers(), [RESERVE]) == 0
    ensures Final(TwoUsers(), [RESERVE]) == TwoUsers().(sites := map[AT := Reserved(FirstSite(true), ANN, JOB, 5001)])
  {
    var s := TwoUsers();
    assert 5001 in FreePorts(s.sites[AT].slots.tracker);
    ReserveStep(s, AT, ANN, JOB, 5001);
    assert After(s, RESERVE) == s.(sites := map[AT := Reserved(FirstSite(true), ANN, JOB, 5001)]);
    Prepend(s, RESERVE, []);
    assert [RESERVE] + [] == [RESERVE];
  }

  lemma TwoReached() returns (es: seq<Step>)
    ensures es == ([BOOT, INFO] + [Login(ANN, [])]) + [Login(BOB, [])] && Reaches(es, TwoUsers())
  {
    FirstReached();
    LogsIn([BOOT, INFO], Ready(), ANN);
    es := [BOOT, INFO] + [Login(ANN, [])];
    LogsIn(es, Ready().(accounts := map[ANN := Account([], map[])]), BOB);
    es := es + [Login(BOB, [])];
  }

  lemma ReservedReached(es: seq<Step>)
    requires Reaches(es, TwoUsers())
    ensures Reaches(es + [RESERVE], TwoUsers().(sites := map[AT := Reserved(FirstSite(true), ANN, JOB, 5001)]))
  {
    ReserveRun();
    Extend(es, TwoUsers(), [RESERVE], TwoUsers().(sites := map[AT := Reserved(FirstSite(true), ANN, JOB, 5001)]));
  }

  lemma RejoinedReached(es: seq<Step>)
    requires Reaches(es, TwoUsers().(sites := map[AT := Reserved(FirstSite(true), ANN, JOB, 5001)]))
    ensures Reaches(es + Rejoins(AT, CONFIG, LISTED), Overtaken())
  {
    Listings();
    Rejoining(es, TwoUsers().(sites := map[AT := Reserved(FirstSite(true), ANN, JOB, 5001)]), AT, CONFIG, LISTED);
  }

  lemma OvertakenReached() returns (es: seq<Step>)
    ensures es == OvertakenSteps() && Reaches(es, Overtaken())
  {
    var two := TwoReached();
    ReservedReached(two);
    RejoinedReached(two + [RESERVE]);
    es := (two + [RESERVE]) + Rejoins(AT, CONFIG, LISTED);
  }

  /** The reserved port is on offer again. */
  lemma OvertakenSite()
    ensures var x := Overtaken().sites[AT];
            && x.known && x.attached && x.slots == Slots([], 1, 0, map[5001 := false])
            && x.pending == map[ANN := Reservation(JOB, 5001)] && x.toNode == multiset{}
            && x.node == FreshNode({5001}, {5004}, {5008})
  {
    assert LISTED[..0] == [] && PortAt(LISTED, 0) == 5001;
    assert Record(map[5001 := true], []) == map[5001 := true];
    assert map[5001 := true][5001 := false] == map[5001 := false];
  }

  /** ANN's start is sent for a port that is on offer, and delivered. */
  ghost function SentSite(): Site {
    Sent(Overtaken().sites[AT], ANN, [])
  }

  ghost function StartedSite(): Site {
    SentSite().(node := Start(FreshNode({5001}, {5004}, {5008}), StartOf(FIRST), CHOSEN), toNode := multiset{},
                toFront := multiset{StartResult(ANN, JOB, LAUNCH_OK)})
  }

  lemma OvertakenSend()
    ensures Run(Overtaken(), [SEND]) && Refusals(Overtaken(), [SEND]) == 0
    ensures !SitesHonest(Final(Overtaken(), [SEND]).sites)
    ensures var t := Final(Overtaken(), [SEND]);
            && t.sites == map[AT := SentSite()] && t.accounts.Keys == {ANN, BOB} && t.accounts[BOB].address == []
            && SessionsOf(t.open, BOB) == map[]
  {
    OvertakenSite();
    var s := Overtaken();
    assert 5001 in FreePorts(s.sites[AT].slots.tracker);
    assert AtOdds(s.sites[AT], ANN);
    OneSend(s, AT, ANN);
    Prepend(s, SEND, []);
    assert [SEND] + [] == [SEND];
  }

  lemma StartIsChosen()
    ensures var x := SentSite(); SiteEnabled(x, START) && SiteAfter(x, START, []) == StartedSite()
    ensures StartStatus(SentSite().node, StartOf(FIRST), CHOSEN) == LAUNCH_OK
  {
    OvertakenSite();
    var x := SentSite();
    assert x.toNode == multiset{FIRST} && multiset{FIRST} - multiset{FIRST} == multiset{};
    assert 5004 in Free(x.node.sock) && 5008 in Free(x.node.rtc);
    assert !IsLive(x.node, ANN, JOB);
  }

  /** One start delivered in a system with one node, and not refused for want of a port. */
  lemma OneStart(s: System, a: Text, x: Site, r: Packet, c: Choice)
    requires s.sites == map[a := x] && SiteEnabled(x, NodeStarts(a, r, c))
    requires StartStatus(x.node, StartOf(r), c) != LAUNCH_PORT_UNAVAILABLE
    ensures var e := NodeStarts(a, r, c);
            && Run(s, [e]) && Refusals(s, [e]) == 0
            && Final(s, [e]) == s.(sites := map[a := SiteAfter(x, e, [])])
  {
    var e := NodeStarts(a, r, c);
    assert map[a := x][a := SiteAfter(x, e, [])] == map[a := SiteAfter(x, e, [])];
    Prepend(s, e, []);
    assert [e] + [] == [e];
  }

  lemma OvertakenStart(t: System)
    requires t.sites == map[AT := SentSite()]
    ensures Run(t, [START]) && Refusals(t, [START]) == 0
    ensures Final(t, [START]) == t.(sites := map[AT := StartedSite()])
  {
    StartIsChosen();
    OneStart(t, AT, SentSite(), FIRST, CHOSEN);
  }

  lemma StartedOffer()
    ensures var x := StartedSite();
            && x.known && x.attached && x.pending == map[] && CanReserve(x.slots, 5001) && !Vacant(x, 5001)
            && CanChoose(x.node, Choice(0, 0, true))
  {
    OvertakenSite();
    var x := StartedSite();
    assert 5001 in FreePorts(x.slots.tracker);
    assert x.pending == map[];
    var before := FreshNode({5001}, {5004}, {5008});
    assert 5004 in Free(before.sock) && 5008 in Free(before.rtc);
    assert x.node.sock == map[5004 := true] && x.node.rtc == map[5008 := true];
  }

  lemma SentReached(es: seq<Step>) returns (t: System)
    requires Reaches(es, Overtaken())
    ensures Reaches(es + [SEND], t) && !SitesHonest(t.sites)
    ensures t.sites == map[AT := SentSite()] && BOB in t.accounts && SessionsOf(t.open, BOB) == map[]
  {
    OvertakenSend();
    t := Final(Overtaken(), [SEND]);
    Extend(es, Overtaken(), [SEND], t);
  }

  lemma StartedReached(es: seq<Step>, t: System) returns (w: System)
    requires Reaches(es, t) && t.sites == map[AT := SentSite()]
    ensures Reaches(es + [START], w) && w == t.(sites := map[AT := StartedSite()])
  {
    OvertakenStart(t);
    w := t.(sites := map[AT := StartedSite()]);
    Extend(es, t, [START], w);
  }

  lemma StartedRefused(es: seq<Step>, w: System) returns (fs: seq<Step>)
    requires Reaches(es, w) && w.sites == map[AT := StartedSite()]
    requires BOB in w.accounts && SessionsOf(w.open, BOB) == map[]
    ensures Run(INITIAL, es + fs) && GoodRestarts(es + fs) && Refusals(INITIAL, es + fs) == 1
  {
    StartedOffer();
    fs := ThenRefused(es, w, AT, BOB, JOB, 5001, Choice(0, 0, true));
  }

  lemma Regroup(es: seq<Step>, fs: seq<Step>, gs: seq<Step>)
    ensures (es + fs) + gs == es + (fs + gs)
  {
  }

  lemma GoesOnToRefusal(es: seq<Step>, t: System) returns (fs: seq<Step>)
    requires Reaches(es, t) && t.sites == map[AT := SentSite()] && BOB in t.accounts && SessionsOf(t.open, BOB) == map[]
    ensures Run(INITIAL, es + fs) && GoodRestarts(es + fs) && Refusals(INITIAL, es + fs) == 1
  {
    var w := StartedReached(es, t);
    var more := StartedRefused(es + [START], w);
    fs := [START] + more;
    Regroup(es, [START], more);
  }

  /**
   Unchanged lists: the start of the overtaken creation names a port that is on offer, and once it is running the
   next creation that gets the port is refused.
   */
  lemma OvertakingBreaksPromise() returns (es: seq<Step>, fs: seq<Step>)
    ensures es == OvertakenSteps() + [SEND]
    ensures Run(INITIAL, es) && GoodRestarts(es)
    ensures !SitesHonest(Final(INITIAL, es).sites) && !AlwaysPromised(INITIAL, es)
    ensures Run(INITIAL, es + fs) && GoodRestarts(es + fs) && Refusals(INITIAL, es + fs) == 1
  {
    var before := OvertakenReached();
    var t := SentReached(before);
    es := before + [SEND];
    PromisedAtEnd(INITIAL, es);
    fs := GoesOnToRefusal(es, t);
  }
}
