/**
 When a node answers SESSION_LAUNCH_PORT_UNAVAILABLE. Its three port tables stay level until the first such
 answer, so in a well configured system only the web port of the request decides.
 */
module ProtocolRefusals {
  import opened Common
  import opened Ports
  import opened NodeSessions
  import N = NodeAccounting
  import opened Protocol
  import opened ProtocolSafety
  import opened Slots

  /** Weaker than the documented rule that the three lists are equally long and free of port 0. */
  ghost predicate GoodConfig(c: Config) {
    |c.web| <= |c.sock| && |c.web| <= |c.rtc| && 0 !in c.sock && 0 !in c.rtc
  }

  ghost predicate GoodTables(s: NodeState) {
    |s.web| <= |s.sock| && |s.web| <= |s.rtc| && 0 !in s.sock && 0 !in s.rtc
  }

  /** The three tables have equally many used ports. */
  ghost predicate Level(s: NodeState) {
    GoodTables(s) && |Used(s.web)| == |Used(s.sock)| == |Used(s.rtc)|
  }

  ghost predicate SitesLevel(sites: map<Text, Site>) {
    forall a :: a in sites ==> Level(sites[a].node)
  }

  lemma OneSiteLevel(sites: map<Text, Site>, at: Text, y: Site)
    requires SitesLevel(sites) && Level(y.node)
    ensures SitesLevel(sites[at := y])
  {
  }

  lemma FreeWhenLevel(s: NodeState)
    requires Level(s) && Free(s.web) != {}
    ensures Free(s.sock) != {} && Free(s.rtc) != {}
  {
    UsedAndFree(s.web);
    UsedAndFree(s.sock);
    UsedAndFree(s.rtc);
    assert |Free(s.web)| > 0;
  }

  lemma OneUsedMore(t: PortTable, p: UInt16)
    requires p in t && !t[p]
    ensures |Used(t[p := true])| == |Used(t)| + 1 && t[p := true].Keys == t.Keys && |t[p := true]| == |t|
  {
    assert Used(t[p := true]) == Used(t) + {p};
    assert t[p := true].Keys == t.Keys;
  }

  /** A start that is not refused marks its web port and the two ports it chose. */
  lemma StartTables(s: NodeState, r: Request, c: Choice)
    requires CanChoose(s, c) && r.port in s.web && !s.web[r.port] && 0 !in s.sock && 0 !in s.rtc
    requires Free(s.sock) != {} && Free(s.rtc) != {}
    ensures !Refused(s, r, c) && c.sock in Free(s.sock) && c.rtc in Free(s.rtc)
    ensures var t := Start(s, r, c);
            t.web == s.web[r.port := true] && t.sock == s.sock[c.sock := true] && t.rtc == s.rtc[c.rtc := true]
  {
  }

  /** At a level node a request for an unused web port is never refused, and takes one port of each table. */
  lemma StartKeepsLevel(s: NodeState, r: Request, c: Choice)
    requires Level(s) && CanChoose(s, c) && r.port in s.web && !s.web[r.port]
    ensures !Refused(s, r, c) && Level(Start(s, r, c))
  {
    assert r.port in Free(s.web);
    FreeWhenLevel(s);
    StartTables(s, r, c);
    OneUsedMore(s.web, r.port);
    OneUsedMore(s.sock, c.sock);
    OneUsedMore(s.rtc, c.rtc);
  }

  lemma ExitKeepsLevel(s: NodeState, o: Text, n: Text)
    requires Level(s) && N.NodeInv(s) && IsLive(s, o, n)
    ensures Level(Clear(s, s.sessions[o][n]))
  {
    var x := s.sessions[o][n];
    LivePortUsed(s, o, n, Web);
    LivePortUsed(s, o, n, Sock);
    LivePortUsed(s, o, n, Rtc);
    OneUsedLess(s.web, x.web);
    OneUsedLess(s.sock, x.sock);
    OneUsedLess(s.rtc, x.rtc);
  }

  lemma OneUsedLess(t: PortTable, p: UInt16)
    requires p in Used(t)
    ensures |Used(t[p := false])| == |Used(t)| - 1 && t[p := false].Keys == t.Keys && |t[p := false]| == |t|
  {
    assert Used(t[p := false]) == Used(t) - {p};
    assert t[p := false].Keys == t.Keys;
  }

  ghost predicate NamesVacant(x: Site, e: Step) {
    e.NodeStarts? && e.request.RequestStart? ==> Vacant(x, StartOf(e.request).port)
  }

  lemma SiteStepKeepsLevel(x: Site, e: Step, ip: Text)
    requires SiteInv(x) && Level(x.node) && SiteEnabled(x, e) && NamesVacant(x, e)
    ensures Level(SiteAfter(x, e, ip).node)
  {
    match e
    case NodeStarts(a, r, c) => StartKeepsLevel(x.node, StartOf(r), c);
    case ProcessExits(a, o, n) => ExitKeepsLevel(x.node, o, n);
    case _ =>
  }

  lemma RestartLevel(s: System, at: Text, c: Config, l: Listing)
    requires GoodConfig(c)
    ensures Level(Restarted(s, at, c, l).node)
  {
    var node := Restarted(s, at, c, l).node;
    assert node.web.Keys == c.web && node.sock.Keys == c.sock && node.rtc.Keys == c.rtc;
    assert Used(node.web) == {} && Used(node.sock) == {} && Used(node.rtc) == {};
  }

  // ---------- steps of the system

  /** The start delivered by this step, if it delivers one, names a web port the node has and does not use. */
  ghost predicate StartsVacantly(s: System, e: Step)
    requires Enabled(s, e)
  {
    e.NodeStarts? ==> Vacant(s.sites[e.at], StartOf(e.request).port)
  }

  ghost predicate IsRefused(s: System, e: Step)
    requires Enabled(s, e)
  {
    e.NodeStarts? && StartStatus(s.sites[e.at].node, StartOf(e.request), e.choice) == LAUNCH_PORT_UNAVAILABLE
  }

  lemma NamesTheSame(s: System, e: Step, at: Text)
    requires Enabled(s, e) && StartsVacantly(s, e) && at in s.sites && (e.NodeStarts? ==> at == e.at)
    ensures NamesVacant(s.sites[at], e)
  {
  }

  lemma StepKeepsLevel(s: System, e: Step)
    requires SitesInv(s.sites) && SitesLevel(s.sites) && Enabled(s, e) && StartsVacantly(s, e)
    requires e.Restart? ==> GoodConfig(e.config)
    ensures SitesLevel(After(s, e).sites)
  {
    if e.Restart? {
      RestartLevel(s, e.at, e.config, e.listing);
      OneSiteLevel(s.sites, e.at, Restarted(s, e.at, e.config, e.listing));
    } else {
      var at, ip := StepSite(s, e);
      if at.Some? {
        NamesTheSame(s, e, at.value);
        SiteStepKeepsLevel(s.sites[at.value], e, ip);
        OneSiteLevel(s.sites, at.value, SiteAfter(s.sites[at.value], e, ip));
      }
    }
  }

  /** At level nodes the other two searches never fail first: only the web port decides. */
  lemma StepRefused(s: System, e: Step)
    requires SitesLevel(s.sites) && Enabled(s, e)
    ensures IsRefused(s, e) <==> !StartsVacantly(s, e)
  {
    if e.NodeStarts? && StartsVacantly(s, e) {
      StartKeepsLevel(s.sites[e.at].node, StartOf(e.request), e.choice);
    }
  }

  // ---------- runs

  /** Every restart of the run uses a good configuration. */
  ghost predicate GoodRestarts(es: seq<Step>) {
    forall i :: 0 <= i < |es| && es[i].Restart? ==> GoodConfig(es[i].config)
  }

  /** How many starts of the run are answered with SESSION_LAUNCH_PORT_UNAVAILABLE. */
  ghost function Refusals(s: System, es: seq<Step>): nat
    requires Run(s, es)
    decreases |es|
  {
    if es == [] then 0 else (if IsRefused(s, es[0]) then 1 else 0) + Refusals(After(s, es[0]), es[1..])
  }

  ghost predicate AlwaysStartsVacantly(s: System, es: seq<Step>)
    requires Run(s, es)
    decreases |es|
  {
    es == [] || (StartsVacantly(s, es[0]) && AlwaysStartsVacantly(After(s, es[0]), es[1..]))
  }

  lemma {:induction false} RunLevel(s: System, es: seq<Step>)
    requires SitesInv(s.sites) && SitesLevel(s.sites) && Run(s, es) && GoodRestarts(es)
    ensures Refusals(s, es) == 0 <==> AlwaysStartsVacantly(s, es)
    ensures Refusals(s, es) == 0 ==> SitesLevel(Final(s, es).sites)
    decreases |es|
  {
    if es != [] {
      var e := es[0];
      StepRefused(s, e);
      if StartsVacantly(s, e) {
        StepKeepsInv(s, e);
        StepKeepsLevel(s, e);
        assert GoodRestarts(es[1..]);
        RunLevel(After(s, e), es[1..]);
      }
    }
  }

  /**
   In every run of well configured nodes, clean or not: no start is answered for want of a port if and only if
   every delivered start names a web port its node has and does not use. As long as there was no such answer the
   three tables of every node have equally many used ports, also after failures that strand ports.
   */
  lemma RefusalsExact(es: seq<Step>)
    requires Run(INITIAL, es) && GoodRestarts(es)
    ensures Refusals(INITIAL, es) == 0 <==> AlwaysStartsVacantly(INITIAL, es)
    ensures Refusals(INITIAL, es) == 0 ==>
              forall a :: a in Final(INITIAL, es).sites ==>
                var n := Final(INITIAL, es).sites[a].node; |Used(n.web)| == |Used(n.sock)| == |Used(n.rtc)|
  {
    RunLevel(INITIAL, es);
    if Refusals(INITIAL, es) == 0 {
      forall a | a in Final(INITIAL, es).sites
        ensures var n := Final(INITIAL, es).sites[a].node; |Used(n.web)| == |Used(n.sock)| == |Used(n.rtc)|
      {
        assert Level(Final(INITIAL, es).sites[a].node);
      }
    }
  }

  lemma TruthfulStart(s: System, e: Step)
    requires SitesTruthful(s.sites) && Enabled(s, e)
    ensures StartsVacantly(s, e)
  {
    if e.NodeStarts? {
      assert Honest(s.sites[e.at]);
      assert Vacant(s.sites[e.at], e.request.port);
    }
  }

  /** A tracker that can be trusted only lets vacant ports be started. */
  lemma {:induction false} TruthfulStartsVacantly(s: System, es: seq<Step>)
    requires SitesInv(s.sites) && SitesTruthful(s.sites) && Run(s, es) && AlwaysClean(s, es)
    ensures AlwaysStartsVacantly(s, es)
    decreases |es|
  {
    if es != [] {
      var e := es[0];
      TruthfulStart(s, e);
      StepKeepsInv(s, e);
      StepExact(s, e);
      TruthfulStartsVacantly(After(s, e), es[1..]);
    }
  }

  /** So in clean runs of well configured nodes no start is ever refused for want of a port. */
  lemma NeverRefused(es: seq<Step>)
    requires Run(INITIAL, es) && AlwaysClean(INITIAL, es) && GoodRestarts(es)
    ensures Refusals(INITIAL, es) == 0
    ensures forall a :: a in Final(INITIAL, es).sites ==>
              var n := Final(INITIAL, es).sites[a].node; |Used(n.web)| == |Used(n.sock)| == |Used(n.rtc)|
  {
    TruthfulStartsVacantly(INITIAL, es);
    RefusalsExact(es);
  }
}
