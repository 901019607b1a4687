/**
 Exactly when the front end's tracker keeps its promise: every port on offer is vacant at its node and in no
 start in flight, and every start in flight names an existing unused port of its own, however the reserved
 starts are then sent.
 */
module ProtocolPromise {
  import opened Common
  import opened Ports
  import opened NodeSessions
  import opened Slots
  import opened Sessions
  import opened Protocol
  import opened ProtocolSafety

  ghost predicate SitesHonest(sites: map<Text, Site>) {
    forall a :: a in sites ==> Honest(sites[a])
  }

  ghost predicate OnlySends(es: seq<Step>) {
    forall i :: 0 <= i < |es| ==> es[i].SendStart?
  }

  /** Whatever reserved starts are sent next, and in whatever order, all trackers are honest. */
  ghost predicate Promised(s: System) {
    forall es :: OnlySends(es) && Run(s, es) ==> SitesHonest(Final(s, es).sites)
  }

  /** Reservations belong to users who have logged in. */
  ghost predicate SitesRegistered(sites: map<Text, Site>, users: set<Text>) {
    forall a, u :: a in sites && u in sites[a].pending ==> u in users
  }

  ghost predicate Registered(s: System) {
    SitesRegistered(s.sites, s.accounts.Keys)
  }

  // ---------- a truthful tracker stays honest

  lemma {:induction false} TruthfulStaysHonest(s: System, es: seq<Step>)
    requires SitesInv(s.sites) && SitesTruthful(s.sites) && OnlySends(es) && Run(s, es)
    ensures SitesHonest(Final(s, es).sites)
    decreases |es|
  {
    if es == [] {
      assert forall a :: a in s.sites ==> Truthful(s.sites[a]) ==> Honest(s.sites[a]);
    } else {
      assert es[0].SendStart? && OnlySends(es[1..]);
      StepKeepsInv(s, es[0]);
      StepExact(s, es[0]);
      TruthfulStaysHonest(After(s, es[0]), es[1..]);
    }
  }

  // ---------- an untruthful one can be exposed by sending

  /** The site after the start of u has been sent. */
  ghost function Sent(x: Site, u: Text, ip: Text): Site
    requires u in x.pending && x.attached
  {
    var r := x.pending[u];
    x.(pending := x.pending - {u}, toNode := x.toNode + multiset{RequestStart(u, ip, r.session, ToInt32(r.port))})
  }

  /** The reservation of u is at odds with the offers, with the node or with a start in flight. */
  ghost predicate AtOdds(x: Site, u: Text)
    requires u in x.pending
  {
    var p := x.pending[u].port;
    || p in FreePorts(x.slots.tracker)
    || !Vacant(x, p)
    || exists m :: m in x.toNode && m.RequestStart? && m.port == p
  }

  lemma SendExposes(x: Site, u: Text, ip: Text)
    requires u in x.pending && x.attached && AtOdds(x, u)
    ensures !Honest(Sent(x, u, ip))
  {
    var r, y := x.pending[u], Sent(x, u, ip);
    var m := RequestStart(u, ip, r.session, ToInt32(r.port));
    assert m in y.toNode;
    if m2 :| m2 in x.toNode && m2.RequestStart? && m2.port == r.port {
      assert m2 in y.toNode && (m2 == m ==> y.toNode[m] >= 2);
    }
  }

  /** Of two reservations of the same port the second is exposed once the first is sent. */
  lemma SecondAtOdds(x: Site, u: Text, u2: Text, ip: Text)
    requires u in x.pending && u2 in x.pending && u != u2 && x.attached
    requires x.pending[u].port == x.pending[u2].port
    ensures u2 in Sent(x, u, ip).pending && AtOdds(Sent(x, u, ip), u2)
  {
    var r, y := x.pending[u], Sent(x, u, ip);
    var m := RequestStart(u, ip, r.session, ToInt32(r.port));
    assert m in y.toNode;
    if Vacant(y, r.port) {
      assert m.port == r.port;
    }
  }

  lemma SendSite(s: System, a: Text, u: Text)
    requires a in s.sites && u in s.sites[a].pending && s.sites[a].attached && u in s.accounts
    ensures var e, x := SendStart(a, u), s.sites[a];
            && Enabled(s, e) && After(s, e).accounts.Keys == s.accounts.Keys
            && a in After(s, e).sites && After(s, e).sites[a] == Sent(x, u, s.accounts[u].address)
  {
  }

  lemma OneSend(s: System, a: Text, u: Text)
    requires a in s.sites && u in s.sites[a].pending && s.sites[a].attached && u in s.accounts
    requires AtOdds(s.sites[a], u)
    ensures OnlySends([SendStart(a, u)]) && Run(s, [SendStart(a, u)])
    ensures !SitesHonest(Final(s, [SendStart(a, u)]).sites)
  {
    SendSite(s, a, u);
    SendExposes(s.sites[a], u, s.accounts[u].address);
    assert [SendStart(a, u)][1..] == [];
    assert Final(s, [SendStart(a, u)]) == After(s, SendStart(a, u));
    assert !Honest(After(s, SendStart(a, u)).sites[a]);
  }

  lemma TwoSends(s: System, a: Text, u: Text, u2: Text)
    requires a in s.sites && s.sites[a].attached && u in s.accounts && u2 in s.accounts
    requires u in s.sites[a].pending && u2 in s.sites[a].pending && u != u2
    requires s.sites[a].pending[u].port == s.sites[a].pending[u2].port
    ensures var es := [SendStart(a, u), SendStart(a, u2)];
            OnlySends(es) && Run(s, es) && !SitesHonest(Final(s, es).sites)
  {
    SendSite(s, a, u);
    SecondAtOdds(s.sites[a], u, u2, s.accounts[u].address);
    OneSend(After(s, SendStart(a, u)), a, u2);
    assert [SendStart(a, u), SendStart(a, u2)][1..] == [SendStart(a, u2)];
  }

  /** An attached site whose reservations cannot all be trusted has one at odds, or two of the same port. */
  lemma PendingFault(x: Site) returns (u: Text, u2: Text)
    requires !PendingVacant(x)
    ensures x.attached && u in x.pending
    ensures AtOdds(x, u) || (u2 in x.pending && u != u2 && x.pending[u].port == x.pending[u2].port)
  {
    if v :| v in x.pending && AtOdds(x, v) {
      u, u2 := v, v;
    } else {
      u, u2 :| u in x.pending && u2 in x.pending && u != u2 && x.pending[u].port == x.pending[u2].port;
    }
  }

  lemma UntruthfulIsExposed(s: System) returns (es: seq<Step>)
    requires Registered(s) && !SitesTruthful(s.sites)
    ensures OnlySends(es) && Run(s, es) && !SitesHonest(Final(s, es).sites)
  {
    var a :| a in s.sites && !Truthful(s.sites[a]);
    if !Honest(s.sites[a]) {
      es := [];
    } else {
      var u, u2 := PendingFault(s.sites[a]);
      if AtOdds(s.sites[a], u) {
        OneSend(s, a, u);
        es := [SendStart(a, u)];
      } else {
        TwoSends(s, a, u, u2);
        es := [SendStart(a, u), SendStart(a, u2)];
      }
    }
  }

  /** What the clauses about reservations mean: they say that the promise also survives the sends. */
  lemma TruthfulMeans(s: System)
    requires SitesInv(s.sites) && Registered(s)
    ensures SitesTruthful(s.sites) <==> Promised(s)
  {
    if SitesTruthful(s.sites) {
      forall es | OnlySends(es) && Run(s, es) ensures SitesHonest(Final(s, es).sites) {
        TruthfulStaysHonest(s, es);
      }
    } else {
      var es := UntruthfulIsExposed(s);
    }
  }

  // ---------- whole runs

  lemma StepKeepsRegistered(s: System, e: Step)
    requires Registered(s) && Enabled(s, e)
    ensures Registered(After(s, e))
  {
    if e.Restart? {
      assert Restarted(s, e.at, e.config, e.listing).pending
          == if e.at in s.sites then s.sites[e.at].pending else map[];
    } else {
      var at, ip := StepSite(s, e);
      UsersStay(s, e);
      if at.Some? {
        PendingUsers(s, e, at.value, ip);
      }
    }
  }

  lemma UsersStay(s: System, e: Step)
    requires Enabled(s, e)
    ensures s.accounts.Keys <= After(s, e).accounts.Keys
  {
  }

  lemma PendingUsers(s: System, e: Step, at: Text, ip: Text)
    requires Enabled(s, e) && at in s.sites && SiteEnabled(s.sites[at], e)
    ensures forall u :: u in SiteAfter(s.sites[at], e, ip).pending ==> u in s.sites[at].pending || u in s.accounts
  {
  }

  /** In every state of the run the promise is kept. */
  ghost predicate AlwaysPromised(s: System, es: seq<Step>)
    requires Run(s, es)
    decreases |es|
  {
    Promised(s) && (es == [] || AlwaysPromised(After(s, es[0]), es[1..]))
  }

  lemma {:induction false} PromisedRun(s: System, es: seq<Step>)
    requires SitesInv(s.sites) && Registered(s) && Run(s, es)
    ensures AlwaysPromised(s, es) <==> AlwaysTruthful(s, es)
    decreases |es|
  {
    TruthfulMeans(s);
    if es != [] {
      StepKeepsInv(s, es[0]);
      StepKeepsRegistered(s, es[0]);
      PromisedRun(After(s, es[0]), es[1..]);
    }
  }

  /** One step, from any state in which the promise is kept: it is kept exactly when the step is clean. */
  lemma StepPromise(s: System, e: Step)
    requires SitesInv(s.sites) && Registered(s) && Promised(s) && Enabled(s, e)
    ensures Promised(After(s, e)) <==> Clean(s, e)
  {
    TruthfulMeans(s);
    StepExact(s, e);
    StepKeepsInv(s, e);
    StepKeepsRegistered(s, e);
    TruthfulMeans(After(s, e));
  }

  /**
   In every run, under any loss and reordering: in every state of the run, and however the starts reserved by then
   are sent, each port on offer is vacant at its node and in no start in flight, and each start in flight names an
   existing unused port of its own, if and only if every step of the run is clean.
   */
  lemma RunExact(es: seq<Step>)
    requires Run(INITIAL, es)
    ensures AlwaysPromised(INITIAL, es) <==> AlwaysClean(INITIAL, es)
  {
    PromisedRun(INITIAL, es);
    RunExactFrom(INITIAL, es);
  }
}
