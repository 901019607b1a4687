/**
 What every run of the system keeps, and exactly when the front end's port tracker can be trusted.
 */
module ProtocolSafety {
  import opened Common
  import opened Ports
  import opened NodeSessions
  import N = NodeAccounting
  import opened Slots
  import opened Sessions
  import opened Protocol

  // ---------- what holds in every run

  ghost predicate AllUnused(t: PortTable) {
    forall p :: p in t ==> !t[p]
  }

  /** Before its NodeInfo arrives a node has received nothing, and the NodeInfo still tells its port table. */
  ghost predicate Quiet(x: Site) {
    && x.toNode == multiset{} && |x.toFront| <= 1 && AllUnused(x.node.web)
    && forall m :: m in x.toFront && m.NodeInfo? ==> Enumerates(m.slots, x.node.web)
  }

  ghost predicate InfoGone(x: Site) {
    forall m :: m in x.toFront ==> !m.NodeInfo?
  }

  ghost predicate SiteInv(x: Site) {
    && N.NodeInv(x.node) && SlotInv(x.slots)
    && (!x.known ==> x.slots == NO_SLOTS && x.pending == map[] && !x.attached)
    && (if x.attached then InfoGone(x) else Quiet(x))
  }

  // ---------- what the tracker promises

  /** The node has this port, and nothing there uses it. */
  ghost predicate Vacant(x: Site, p: int) {
    p in x.node.web && !x.node.web[p]
  }

  /** Every port the front end would hand out is vacant at the node and in no start request in flight. */
  ghost predicate OffersVacant(x: Site) {
    && (forall p :: p in FreePorts(x.slots.tracker) ==> Vacant(x, p))
    && (forall p, m :: p in FreePorts(x.slots.tracker) && m in x.toNode && m.RequestStart? ==> m.port != p)
  }

  /** Every start request in flight names an existing unused port, and no two name the same one. */
  ghost predicate StartsVacant(x: Site) {
    && (forall m :: m in x.toNode && m.RequestStart? ==> Vacant(x, m.port) && x.toNode[m] == 1)
    && (forall m, m2 :: m in x.toNode && m2 in x.toNode && m.RequestStart? && m2.RequestStart? && m != m2 ==>
         m.port != m2.port)
  }

  /** What the tracker promises about the offers and the starts in flight. */
  ghost predicate Honest(x: Site) {
    OffersVacant(x) && StartsVacant(x)
  }

  /** The same for the reserved starts that are still to be sent on the node's current connection. */
  ghost predicate PendingVacant(x: Site) {
    x.attached ==>
      && (forall p, u :: p in FreePorts(x.slots.tracker) && u in x.pending ==> x.pending[u].port != p)
      && (forall u :: u in x.pending ==> Vacant(x, x.pending[u].port))
      && (forall u, m :: u in x.pending && m in x.toNode && m.RequestStart? ==> m.port != x.pending[u].port)
      && (forall u, u2 :: u in x.pending && u2 in x.pending && u != u2 ==> x.pending[u].port != x.pending[u2].port)
  }

  ghost predicate Truthful(x: Site) {
    Honest(x) && PendingVacant(x)
  }

  // ---------- one site, every step

  /** A delivered start is one event of the node. */
  ghost predicate NodeMoves(e: Step) {
    e.NodeStarts? || e.NodeCloses? || e.ProcessExits?
  }

  ghost function NodeEvent(e: Step): N.Event
    requires NodeMoves(e) && (e.NodeStarts? ==> e.request.RequestStart?) && (e.NodeCloses? ==> e.request.RequestClose?)
  {
    match e
    case NodeStarts(a, r, c) => N.Started(StartOf(r), c)
    case NodeCloses(a, r) => N.Closed(r.user)
    case ProcessExits(a, o, n) => N.Exited(o, n)
  }

  lemma NodeStepIsEvent(x: Site, e: Step, ip: Text)
    requires SiteEnabled(x, e) && NodeMoves(e)
    ensures N.Enabled(x.node, NodeEvent(e)) && SiteAfter(x, e, ip).node == N.Apply(x.node, NodeEvent(e))
  {
  }

  lemma LivePortUsed(s: NodeState, o: Text, n: Text, k: Kind)
    requires N.NodeInv(s) && IsLive(s, o, n)
    ensures PortOf(s.sessions[o][n], k) in Used(Table(s, k))
  {
    N.ClearLive(s, o, n);
    assert N.KindInv(N.Live(s), N.UsedOf(s, k), k);
  }

  lemma SiteStepKeepsInv(x: Site, e: Step, ip: Text)
    requires SiteInv(x) && SiteEnabled(x, e)
    ensures SiteInv(SiteAfter(x, e, ip))
  {
    var y := SiteAfter(x, e, ip);
    if NodeMoves(e) {
      NodeStepIsEvent(x, e, ip);
      N.EventKeepsInv(x.node, NodeEvent(e));
      if e.ProcessExits? {
        LivePortUsed(x.node, e.owner, e.name, Web);
      }
    } else if e.InfoArrives? {
      assert e.info in x.toFront;
      RefreshSynchronises(x.slots, e.info.publicAddress, e.info.slots, x.node.web);
      assert x.attached || |y.toFront| == 0;
    } else if e.ReserveSlot? {
      ReserveKeepsInv(x.slots, e.port);
    }
  }

  /** Fewer starts in flight and no fewer vacant ports: the tracker stays truthful. */
  lemma FewerStarts(x: Site, y: Site)
    requires Truthful(x)
    requires y.slots == x.slots && y.pending == x.pending && y.attached == x.attached
    requires forall m: Packet :: m.RequestStart? ==> y.toNode[m] <= x.toNode[m]
    requires forall p :: Vacant(x, p) ==> Vacant(y, p)
    ensures Truthful(y)
  {
    assert forall m :: m in y.toNode && m.RequestStart? ==> m in x.toNode;
  }

  /** A start is delivered: its own port may stop being vacant. */
  lemma OneStartLess(x: Site, y: Site, r: Packet)
    requires Truthful(x) && r in x.toNode && r.RequestStart?
    requires y.slots == x.slots && y.pending == x.pending && y.attached == x.attached
    requires y.toNode == x.toNode - multiset{r}
    requires forall p :: Vacant(x, p) && p != r.port ==> Vacant(y, p)
    ensures Truthful(y)
  {
    assert x.toNode[r] == 1;
    assert forall m :: m in y.toNode && m.RequestStart? ==> m in x.toNode && m != r;
  }

  /** A free slot is reserved: its port moves from the offers to the pending starts. */
  lemma OneOfferLess(x: Site, y: Site, u: Text, n: Text, p: UInt32)
    requires Truthful(x) && p in FreePorts(x.slots.tracker)
    requires y == x.(slots := y.slots, pending := x.pending[u := Reservation(n, p)])
    requires FreePorts(y.slots.tracker) == FreePorts(x.slots.tracker) - {p}
    ensures Truthful(y)
  {
    assert forall q :: Vacant(x, q) <==> Vacant(y, q);
  }

  /** No step of a site makes its tracker untruthful, save the arrival of a NodeInfo. */
  lemma SiteStepKeepsTruth(x: Site, e: Step, ip: Text)
    requires SiteInv(x) && Truthful(x) && SiteEnabled(x, e) && !e.InfoArrives?
    ensures Truthful(SiteAfter(x, e, ip))
  {
    var y := SiteAfter(x, e, ip);
    match e
    case ReserveSlot(a, u, n, p) =>
      ReserveKeepsInv(x.slots, p);
      OneOfferLess(x, y, u, n, p);
    case SendStart(a, u) => SendKeepsTruth(x, e, ip);
    case NodeStarts(a, r, c) =>
      StartLeavesVacant(x, e, ip);
      OneStartLess(x, y, r);
    case _ =>
      FewStarts(x, e, ip);
      FewerStarts(x, y);
  }

  lemma FewStarts(x: Site, e: Step, ip: Text)
    requires SiteInv(x) && SiteEnabled(x, e)
    requires !e.InfoArrives? && !e.ReserveSlot? && !e.SendStart? && !e.NodeStarts?
    ensures var y := SiteAfter(x, e, ip);
            && y.slots == x.slots && y.pending == x.pending && y.attached == x.attached
            && (forall m: Packet :: m.RequestStart? ==> y.toNode[m] <= x.toNode[m])
            && (forall p :: Vacant(x, p) ==> Vacant(y, p))
  {
    OnlyQueues(x, e, ip);
    if e.ProcessExits? {
      LivePortUsed(x.node, e.owner, e.name, Web);
      ClearLeavesVacant(x, SiteAfter(x, e, ip), x.node.sessions[e.owner][e.name]);
    }
  }

  lemma OnlyQueues(x: Site, e: Step, ip: Text)
    requires SiteEnabled(x, e)
    requires !e.InfoArrives? && !e.ReserveSlot? && !e.SendStart? && !e.NodeStarts?
    ensures var y := SiteAfter(x, e, ip);
            && y.slots == x.slots && y.pending == x.pending && y.attached == x.attached
            && (forall m: Packet :: m.RequestStart? ==> y.toNode[m] <= x.toNode[m])
            && (!e.ProcessExits? ==> y.node.web == x.node.web)
  {
    match e
    case NodeCloses(a, r) =>
    case ResultArrives(a, r) =>
    case CloseArrives(a, r) =>
    case Destroy(u, n) =>
    case _ =>
  }

  lemma ClearLeavesVacant(x: Site, y: Site, session: Session)
    requires y.node.web == x.node.web[session.web := false]
    ensures forall p :: Vacant(x, p) ==> Vacant(y, p)
  {
  }

  lemma StartLeavesVacant(x: Site, e: Step, ip: Text)
    requires SiteEnabled(x, e) && e.NodeStarts? && Vacant(x, e.request.port)
    ensures forall p :: Vacant(x, p) && p != e.request.port ==> Vacant(SiteAfter(x, e, ip), p)
  {
  }

  lemma SendKeepsTruth(x: Site, e: Step, ip: Text)
    requires SiteInv(x) && Truthful(x) && SiteEnabled(x, e) && e.SendStart?
    ensures Truthful(SiteAfter(x, e, ip))
  {
    var y := SiteAfter(x, e, ip);
    var p := x.pending[e.user].port;
    if x.attached {
      var m := RequestStart(e.user, ip, x.pending[e.user].session, ToInt32(p));
      assert Vacant(x, p) && m.port == p;
      assert m !in x.toNode;
      assert forall m2 :: m2 in y.toNode <==> m2 in x.toNode || m2 == m;
    }
  }

  /** Synchronising with a node is safe exactly when no creation holds an unsent reservation there. */
  lemma InfoTruth(x: Site, e: Step, ip: Text)
    requires SiteInv(x) && Truthful(x) && SiteEnabled(x, e) && e.InfoArrives?
    ensures Truthful(SiteAfter(x, e, ip)) <==> x.pending == map[]
  {
    var y := SiteAfter(x, e, ip);
    assert e.info in x.toFront;
    RefreshSynchronises(x.slots, e.info.publicAddress, e.info.slots, x.node.web);
    assert forall p :: p in FreePorts(y.slots.tracker) <==> Vacant(x, p);
    if x.pending != map[] {
      var u :| u in x.pending;
      var p := x.pending[u].port;
      assert Vacant(y, p) ==> p in FreePorts(y.slots.tracker);
    }
  }

  /** The offers and the starts in flight alone survive every NodeInfo; only a start sent later can go wrong. */
  lemma InfoKeepsHonest(x: Site, e: Step, ip: Text)
    requires SiteInv(x) && Honest(x) && SiteEnabled(x, e) && e.InfoArrives?
    ensures Honest(SiteAfter(x, e, ip))
  {
    assert e.info in x.toFront;
    RefreshSynchronises(x.slots, e.info.publicAddress, e.info.slots, x.node.web);
    var y := SiteAfter(x, e, ip);
    assert y.node == x.node && y.toNode == multiset{};
    forall p | p in FreePorts(y.slots.tracker) ensures Vacant(y, p) {
      assert p !in x.node.web ==> p in FreePorts(x.slots.tracker);
    }
  }

  /** A restart is safe exactly when the new web port list covers every port still on offer. */
  lemma RestartTruth(s: System, at: Text, c: Config, l: Listing)
    requires at in s.sites ==> SiteInv(s.sites[at]) && Truthful(s.sites[at])
    requires Enumerates(l, Unused(c.web))
    ensures SiteInv(Restarted(s, at, c, l))
    ensures Truthful(Restarted(s, at, c, l)) <==>
              at in s.sites ==> forall p :: p in FreePorts(s.sites[at].slots.tracker) ==> p in c.web
  {
    var y := Restarted(s, at, c, l);
    RestartInv(s, at, c, l);
    assert forall p :: Vacant(y, p) <==> p in c.web;
    assert PendingVacant(y) && StartsVacant(y);
  }

  lemma RestartInv(s: System, at: Text, c: Config, l: Listing)
    requires at in s.sites ==> SiteInv(s.sites[at])
    requires Enumerates(l, Unused(c.web))
    ensures SiteInv(Restarted(s, at, c, l))
  {
    N.FreshInv(c.web, c.sock, c.rtc);
    var y := Restarted(s, at, c, l);
    assert forall m :: m in y.toFront ==> m == NodeInfo(c.publicAddress, l);
  }

  // ---------- the whole system

  ghost predicate SitesInv(sites: map<Text, Site>) {
    forall a :: a in sites ==> SiteInv(sites[a])
  }

  /** The tracker of every node can be trusted. */
  ghost predicate SitesTruthful(sites: map<Text, Site>) {
    forall a :: a in sites ==> Truthful(sites[a])
  }

  lemma OneSiteInv(sites: map<Text, Site>, at: Text, y: Site)
    requires SitesInv(sites) && SiteInv(y)
    ensures SitesInv(sites[at := y])
  {
  }

  lemma OneSiteTruthful(sites: map<Text, Site>, at: Text, y: Site)
    requires SitesTruthful(sites)
    ensures SitesTruthful(sites[at := y]) <==> Truthful(y)
  {
    assert sites[at := y][at] == y;
  }

  /**
   A NodeInfo does not overtake a creation between its reservation and its start, and a restarted node still
   has every web port that is on offer for it.
   */
  ghost predicate Clean(s: System, e: Step) {
    match e
    case InfoArrives(a, info) => a in s.sites && s.sites[a].pending == map[]
    case Restart(a, c, l) => a in s.sites ==> forall p :: p in FreePorts(s.sites[a].slots.tracker) ==> p in c.web
    case _ => true
  }

  /** Every step but a restart leaves all sites alone, or all but one, which makes its site step. */
  lemma StepSite(s: System, e: Step) returns (at: Option<Text>, ip: Text)
    requires Enabled(s, e) && !e.Restart?
    ensures at.Some? ==> at.value in s.sites && SiteEnabled(s.sites[at.value], e)
    ensures SitesAfter(s, e) == if at.None? then s.sites
                                else s.sites[at.value := SiteAfter(s.sites[at.value], e, ip)]
    ensures e.InfoArrives? || e.NodeStarts? ==> at == Some(e.at)
  {
    at := Touched(s, e);
    ip := if e.SendStart? then s.accounts[e.user].address else [];
  }

  lemma StepKeepsInv(s: System, e: Step)
    requires SitesInv(s.sites) && Enabled(s, e)
    ensures SitesInv(After(s, e).sites)
  {
    if e.Restart? {
      RestartInv(s, e.at, e.config, e.listing);
      OneSiteInv(s.sites, e.at, Restarted(s, e.at, e.config, e.listing));
    } else {
      var at, ip := StepSite(s, e);
      if at.Some? {
        SiteStepKeepsInv(s.sites[at.value], e, ip);
        OneSiteInv(s.sites, at.value, SiteAfter(s.sites[at.value], e, ip));
      }
    }
  }

  /** From a state in which every tracker can be trusted, a step keeps that exactly when it is clean. */
  lemma StepExact(s: System, e: Step)
    requires SitesInv(s.sites) && SitesTruthful(s.sites) && Enabled(s, e)
    ensures SitesTruthful(After(s, e).sites) <==> Clean(s, e)
  {
    if e.Restart? {
      RestartTruth(s, e.at, e.config, e.listing);
      OneSiteTruthful(s.sites, e.at, Restarted(s, e.at, e.config, e.listing));
    } else {
      var at, ip := StepSite(s, e);
      if at.Some? {
        if e.InfoArrives? {
          InfoTruth(s.sites[e.at], e, ip);
        } else {
          SiteStepKeepsTruth(s.sites[at.value], e, ip);
        }
        OneSiteTruthful(s.sites, at.value, SiteAfter(s.sites[at.value], e, ip));
      }
    }
  }

  // ---------- whole runs

  ghost predicate AlwaysTruthful(s: System, es: seq<Step>)
    requires Run(s, es)
    decreases |es|
  {
    SitesTruthful(s.sites) && (es == [] || AlwaysTruthful(After(s, es[0]), es[1..]))
  }

  ghost predicate AlwaysClean(s: System, es: seq<Step>)
    requires Run(s, es)
    decreases |es|
  {
    es == [] || (Clean(s, es[0]) && AlwaysClean(After(s, es[0]), es[1..]))
  }

  lemma {:induction false} RunExactFrom(s: System, es: seq<Step>)
    requires SitesInv(s.sites) && SitesTruthful(s.sites) && Run(s, es)
    ensures AlwaysTruthful(s, es) <==> AlwaysClean(s, es)
    decreases |es|
  {
    if es != [] {
      StepKeepsInv(s, es[0]);
      StepExact(s, es[0]);
      if Clean(s, es[0]) {
        RunExactFrom(After(s, es[0]), es[1..]);
      } else {
        assert !SitesTruthful(After(s, es[0]).sites);
      }
    }
  }

  /** Port exclusivity and slot counters hold in every reachable state, clean or not. */
  lemma {:induction false} RunInv(s: System, es: seq<Step>)
    requires SitesInv(s.sites) && Run(s, es)
    ensures SitesInv(Final(s, es).sites)
    decreases |es|
  {
    if es != [] {
      StepKeepsInv(s, es[0]);
      RunInv(After(s, es[0]), es[1..]);
    }
  }
}
