/**
 Nodes whose web lists do not shrink from one start to the next: there only a NodeInfo that overtakes a creation
 can break the tracker's promise.
 */
module ProtocolLists {
  import opened Common
  import opened Ports
  import opened NodeSessions
  import opened Slots
  import opened Protocol
  import opened ProtocolPromise
  import opened ProtocolSafety

  // ---------- restarts with lists that do not shrink

  /** The tracker of a site knows no port that is missing from the node's own table. */
  ghost predicate Within(x: Site) {
    forall p :: p in x.slots.tracker ==> p in x.node.web
  }

  ghost predicate SitesWithin(sites: map<Text, Site>) {
    forall a :: a in sites ==> Within(sites[a])
  }

  /** A node that starts again has every web port of its previous start. */
  ghost predicate KeepsList(s: System, e: Step) {
    e.Restart? && e.at in s.sites ==> forall p :: p in s.sites[e.at].node.web ==> p in e.config.web
  }

  /** A NodeInfo comes between a reservation at its node and the sending of the start. */
  ghost predicate Overtakes(s: System, e: Step) {
    e.InfoArrives? && e.at in s.sites && s.sites[e.at].pending != map[]
  }

  ghost predicate AlwaysKeepsList(s: System, es: seq<Step>)
    requires Run(s, es)
    decreases |es|
  {
    es == [] || (KeepsList(s, es[0]) && AlwaysKeepsList(After(s, es[0]), es[1..]))
  }

  ghost predicate NeverOvertakes(s: System, es: seq<Step>)
    requires Run(s, es)
    decreases |es|
  {
    es == [] || (!Overtakes(s, es[0]) && NeverOvertakes(After(s, es[0]), es[1..]))
  }

  /** No step of a site takes a port from its table, and only a NodeInfo adds entries to the tracker. */
  lemma SiteStepWithin(x: Site, e: Step, ip: Text)
    requires SiteInv(x) && Within(x) && SiteEnabled(x, e)
    ensures Within(SiteAfter(x, e, ip)) && SiteAfter(x, e, ip).node.web.Keys == x.node.web.Keys
  {
    if e.InfoArrives? {
      assert e.info in x.toFront;
      RefreshSynchronises(x.slots, e.info.publicAddress, e.info.slots, x.node.web);
    } else if e.ProcessExits? {
      LivePortUsed(x.node, e.owner, e.name, Web);
    } else {
      SameTable(x, e, ip);
    }
  }

  lemma SameTable(x: Site, e: Step, ip: Text)
    requires SiteEnabled(x, e) && !e.InfoArrives? && !e.ProcessExits?
    ensures SiteAfter(x, e, ip).node.web.Keys == x.node.web.Keys
    ensures SiteAfter(x, e, ip).slots.tracker.Keys == x.slots.tracker.Keys
  {
    match e
    case NodeStarts(a, r, c) => StartSameTable(x.node, StartOf(r), c);
    case ReserveSlot(a, u, n, p) =>
      assert p in x.slots.tracker;
      assert Reserve(x.slots, p).tracker.Keys == x.slots.tracker.Keys;
    case NodeCloses(a, r) =>
    case SendStart(a, u) =>
    case _ =>
  }

  lemma StartSameTable(s: NodeState, r: Request, c: Choice)
    ensures Start(s, r, c).web.Keys == s.web.Keys
  {
  }

  lemma OneSiteWithin(sites: map<Text, Site>, at: Text, y: Site)
    requires SitesWithin(sites) && Within(y)
    ensures SitesWithin(sites[at := y])
  {
  }

  lemma RestartWithin(s: System, at: Text, c: Config, l: Listing)
    requires at in s.sites ==> Within(s.sites[at]) && forall p :: p in s.sites[at].node.web ==> p in c.web
    ensures Within(Restarted(s, at, c, l))
  {
  }

  lemma StepWithin(s: System, e: Step)
    requires SitesInv(s.sites) && SitesWithin(s.sites) && Enabled(s, e) && KeepsList(s, e)
    ensures SitesWithin(After(s, e).sites)
  {
    if e.Restart? {
      RestartWithin(s, e.at, e.config, e.listing);
      OneSiteWithin(s.sites, e.at, Restarted(s, e.at, e.config, e.listing));
    } else {
      var at, ip := StepSite(s, e);
      if at.Some? {
        SiteStepWithin(s.sites[at.value], e, ip);
        OneSiteWithin(s.sites, at.value, SiteAfter(s.sites[at.value], e, ip));
      }
    }
  }

  lemma CleanWithin(s: System, e: Step)
    requires SitesWithin(s.sites) && Enabled(s, e) && KeepsList(s, e)
    ensures Clean(s, e) <==> !Overtakes(s, e)
  {
    if e.Restart? && e.at in s.sites {
      assert Within(s.sites[e.at]);
    }
  }

  lemma {:induction false} RunWithin(s: System, es: seq<Step>)
    requires SitesInv(s.sites) && SitesWithin(s.sites) && Run(s, es) && AlwaysKeepsList(s, es)
    ensures AlwaysClean(s, es) <==> NeverOvertakes(s, es)
    decreases |es|
  {
    if es != [] {
      StepKeepsInv(s, es[0]);
      StepWithin(s, es[0]);
      CleanWithin(s, es[0]);
      RunWithin(After(s, es[0]), es[1..]);
    }
  }

  /** When no restart drops a web port, the promise is kept exactly when no NodeInfo overtakes a creation. */
  lemma RunExactKeepingLists(es: seq<Step>)
    requires Run(INITIAL, es) && AlwaysKeepsList(INITIAL, es)
    ensures AlwaysPromised(INITIAL, es) <==> NeverOvertakes(INITIAL, es)
  {
    RunExact(es);
    RunWithin(INITIAL, es);
  }

  // ---------- the same lists at every restart

  /** Every address always restarts with its own web list. */
  ghost predicate FixedLists(es: seq<Step>, lists: map<Text, set<UInt16>>) {
    forall i :: 0 <= i < |es| && es[i].Restart? ==> es[i].at in lists && es[i].config.web == lists[es[i].at]
  }

  ghost predicate TablesAre(sites: map<Text, Site>, lists: map<Text, set<UInt16>>) {
    forall a :: a in sites ==> a in lists && sites[a].node.web.Keys == lists[a]
  }

  lemma OneSiteTable(sites: map<Text, Site>, lists: map<Text, set<UInt16>>, at: Text, y: Site)
    requires TablesAre(sites, lists) && at in lists && y.node.web.Keys == lists[at]
    ensures TablesAre(sites[at := y], lists)
  {
  }

  lemma TablesKeepLists(s: System, e: Step, lists: map<Text, set<UInt16>>)
    requires TablesAre(s.sites, lists) && (e.Restart? ==> e.at in lists && e.config.web == lists[e.at])
    ensures KeepsList(s, e)
  {
  }

  lemma StepKeepsTables(s: System, e: Step, lists: map<Text, set<UInt16>>)
    requires SitesInv(s.sites) && SitesWithin(s.sites) && TablesAre(s.sites, lists) && Enabled(s, e)
    requires e.Restart? ==> e.at in lists && e.config.web == lists[e.at]
    ensures TablesAre(After(s, e).sites, lists)
  {
    if e.Restart? {
      OneSiteTable(s.sites, lists, e.at, Restarted(s, e.at, e.config, e.listing));
    } else {
      var at, ip := StepSite(s, e);
      if at.Some? {
        SiteStepWithin(s.sites[at.value], e, ip);
        OneSiteTable(s.sites, lists, at.value, SiteAfter(s.sites[at.value], e, ip));
      }
    }
  }

  lemma {:induction false} FixedListsKeep(s: System, es: seq<Step>, lists: map<Text, set<UInt16>>)
    requires SitesInv(s.sites) && SitesWithin(s.sites) && TablesAre(s.sites, lists)
    requires Run(s, es) && FixedLists(es, lists)
    ensures AlwaysKeepsList(s, es)
    decreases |es|
  {
    if es != [] {
      assert FixedLists(es[1..], lists);
      StepKeepsInv(s, es[0]);
      TablesKeepLists(s, es[0], lists);
      StepKeepsTables(s, es[0], lists);
      StepWithin(s, es[0]);
      FixedListsKeep(After(s, es[0]), es[1..], lists);
    }
  }

  /** With unchanged web lists the promise is kept exactly when no NodeInfo overtakes a creation. */
  lemma RunExactFixedLists(es: seq<Step>, lists: map<Text, set<UInt16>>)
    requires Run(INITIAL, es) && FixedLists(es, lists)
    ensures AlwaysPromised(INITIAL, es) <==> NeverOvertakes(INITIAL, es)
  {
    FixedListsKeep(INITIAL, es, lists);
    RunExactKeepingLists(es);
  }
}
