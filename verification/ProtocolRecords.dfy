/**
 What the front end records of its sessions, told by the steps users and nodes made: which place and port a session
 has, what its status means, and that every packet in flight was asked for.
 */
module ProtocolRecords {
  import opened Common
  import opened NodeSessions
  import opened Slots
  import opened Sessions
  import opened Protocol

  // ---------- one step, one entry

  /** The session is created by this step. */
  ghost predicate CreatedBy(s: System, e: Step, u: Text, n: Text)
    requires Enabled(s, e)
  {
    e.SendStart? && e.user == u && s.sites[e.at].pending[u].session == n
  }

  /** The step ends the record: a close result for a user who has logged in, or a close with no node to ask. */
  ghost predicate EndedBy(s: System, e: Step, u: Text, n: Text)
    requires Enabled(s, e)
  {
    || (e.CloseArrives? && e.result.user == u && e.result.session == n && u in s.accounts)
    || (e.Destroy? && e.user == u && e.session == n && CloseTarget(s, u, n).None?)
  }

  ghost predicate AnsweredBy(s: System, e: Step, u: Text, n: Text)
    requires Enabled(s, e)
  {
    e.ResultArrives? && e.result.user == u && e.result.session == n && u in s.accounts
  }

  /** The entry of a created session: all its values. */
  ghost predicate FreshEntry(s: System, a: Text, u: Text, n: Text, entry: Option<Info>)
    requires a in s.sites && u in s.sites[a].pending && u in s.accounts
  {
    && entry.Some? && var info := entry.value;
    && info.sessionName == n && info.ownerUsername == u && info.ownerIp == s.accounts[u].address
    && info.nodeAddress == a && info.nodePublicAddress == s.sites[a].slots.publicAddress
    && info.nodePort == s.sites[a].pending[u].port && info.status == Creating
  }

  /**
   What a step does to the entry of any session. It is created with these values, its status follows the code of the
   answer, it is marked when its user ends it, it is removed, or it stays as it is.
   */
  lemma StepEntry(s: System, e: Step, u: Text, n: Text)
    requires Enabled(s, e)
    ensures var before, after := Entry(s.open, u, n), Entry(After(s, e).open, u, n);
            if CreatedBy(s, e, u, n) then FreshEntry(s, e.at, u, n, after)
            else if EndedBy(s, e, u, n) then after == None
            else if before.None? then after == None
            else if AnsweredBy(s, e, u, n) then
              after == Some(before.value.(status := if e.result.status == 0 then Running else Crashed))
            else if e.Destroy? && e.user == u && e.session == n then after == Some(before.value.(status := Closing))
            else after == before
  {
    match e
    case SendStart(a, v) =>
      EntryOfWithSession(s.open, v, s.sites[a].pending[v].session, NewInfo(s, a, v), u, n);
    case ResultArrives(a, r) => EntryOfWithStatus(s.open, r.user, r.session, StatusOf(r.status), u, n);
    case CloseArrives(a, r) => EntryOfWithoutSession(s.open, r.user, r.session, u, n);
    case Destroy(v, m) =>
      EntryOfWithoutSession(s.open, v, m, u, n);
      EntryOfWithStatus(s.open, v, m, Closing, u, n);
    case _ =>
  }

  // ---------- the log of a run

  /** Where a creation reserved, for which session, and which port. */
  datatype Place = Place(at: Text, session: Text, port: UInt32)

  /**
   `reserved`: each user's last reservation; `created`: each session's last creation; `sent`: all creations;
   `ended`: all sessions users asked to end.
   */
  datatype Log = Log(reserved: map<Text, Place>, created: map<(Text, Text), Place>, sent: set<(Text, Place)>,
                     ended: set<(Text, Text)>)

  const NOTHING := Log(map[], map[], {}, {})

  /** Only what the steps say is noted, not what they do. */
  ghost function Noted(log: Log, e: Step): Log {
    match e
    case ReserveSlot(a, u, n, p) => log.(reserved := log.reserved[u := Place(a, n, p)])
    case SendStart(a, u) =>
      if u in log.reserved then
        var place := log.reserved[u];
        log.(created := log.created[(u, place.session) := place], sent := log.sent + {(u, place)})
      else log
    case Destroy(u, n) => log.(ended := log.ended + {(u, n)})
    case _ => log
  }

  ghost function NotedAll(log: Log, es: seq<Step>): Log
    decreases |es|
  {
    if es == [] then log else NotedAll(Noted(log, es[0]), es[1..])
  }

  /** An open session is recorded with the user, the node and the port of its last creation. */
  ghost predicate EntryAgrees(info: Info, u: Text, n: Text, log: Log, accounts: map<Text, Account>) {
    && (u, n) in log.created && u in accounts
    && info.sessionName == n && info.ownerUsername == u && info.ownerIp == accounts[u].address
    && info.nodeAddress == log.created[(u, n)].at && info.nodePort == log.created[(u, n)].port
    && log.created[(u, n)].session == n && (u, log.created[(u, n)]) in log.sent
  }

  ghost predicate RecordsAgree(s: System, log: Log) {
    forall u, n :: Entry(s.open, u, n).Some? ==> EntryAgrees(Entry(s.open, u, n).value, u, n, log, s.accounts)
  }

  /** A reservation that waits for its start is the last one its user made. */
  ghost predicate PendingAgrees(sites: map<Text, Site>, log: Log) {
    forall a, u :: a in sites && u in sites[a].pending ==>
      u in log.reserved && log.reserved[u] == Place(a, sites[a].pending[u].session, sites[a].pending[u].port)
  }

  /** Every packet in flight at a node was asked for. */
  ghost predicate ToNodeAgrees(a: Text, m: Packet, log: Log, accounts: map<Text, Account>) {
    match m
    case RequestStart(u, ip, n, p) =>
      (u, Place(a, n, ToUInt32(p))) in log.sent && u in accounts && ip == accounts[u].address
    case RequestClose(u, n) => (u, n) in log.ended
    case _ => true
  }

  /** Every answer in flight answers something that was asked for. */
  ghost predicate ToFrontAgrees(a: Text, m: Packet, log: Log) {
    match m
    case StartResult(u, n, code) => exists p: UInt32 :: (u, Place(a, n, p)) in log.sent
    case CloseResult(u, n, code) => (u, n) in log.ended
    case _ => true
  }

  ghost predicate SiteAgrees(a: Text, x: Site, log: Log, accounts: map<Text, Account>) {
    && (forall m :: m in x.toNode ==> ToNodeAgrees(a, m, log, accounts))
    && (forall m :: m in x.toFront ==> ToFrontAgrees(a, m, log))
  }

  ghost predicate SitesAgree(s: System, log: Log) {
    forall a :: a in s.sites ==> SiteAgrees(a, s.sites[a], log, s.accounts)
  }

  ghost predicate Agrees(s: System, log: Log) {
    RecordsAgree(s, log) && PendingAgrees(s.sites, log) && SitesAgree(s, log)
  }

  // ---------- every step keeps the agreement

  lemma AddressesStay(s: System, e: Step)
    requires Enabled(s, e)
    ensures forall u :: u in s.accounts ==>
              u in After(s, e).accounts && After(s, e).accounts[u].address == s.accounts[u].address
  {
  }

  lemma LogGrows(log: Log, e: Step)
    ensures log.sent <= Noted(log, e).sent && log.ended <= Noted(log, e).ended
    ensures !e.SendStart? ==> Noted(log, e).created == log.created
  {
  }

  lemma StepKeepsRecords(s: System, e: Step, log: Log)
    requires RecordsAgree(s, log) && PendingAgrees(s.sites, log) && Enabled(s, e)
    ensures RecordsAgree(After(s, e), Noted(log, e))
  {
    var t, now := After(s, e), Noted(log, e);
    AddressesStay(s, e);
    LogGrows(log, e);
    forall u, n | Entry(t.open, u, n).Some?
      ensures EntryAgrees(Entry(t.open, u, n).value, u, n, now, t.accounts)
    {
      StepEntry(s, e, u, n);
      if !CreatedBy(s, e, u, n) {
        assert Entry(s.open, u, n).Some?;
        if e.SendStart? {
          assert log.reserved[e.user].session == s.sites[e.at].pending[e.user].session;
        }
      }
    }
  }

  lemma StepKeepsPending(s: System, e: Step, log: Log)
    requires PendingAgrees(s.sites, log) && Enabled(s, e)
    ensures PendingAgrees(After(s, e).sites, Noted(log, e))
  {
    var t := After(s, e);
    forall a, u | a in t.sites && u in t.sites[a].pending
      ensures u in Noted(log, e).reserved
      ensures Noted(log, e).reserved[u] == Place(a, t.sites[a].pending[u].session, t.sites[a].pending[u].port)
    {
      if e.ReserveSlot? && e.user == u {
        assert a == e.at;
      } else {
        assert a in s.sites && u in s.sites[a].pending && t.sites[a].pending[u] == s.sites[a].pending[u];
      }
    }
  }

  lemma PortBack(p: UInt32)
    ensures ToUInt32(ToInt32(p)) == p
  {
  }

  lemma PacketStays(a: Text, m: Packet, log: Log, now: Log, accounts: map<Text, Account>, later: map<Text, Account>)
    requires log.sent <= now.sent && log.ended <= now.ended
    requires forall u :: u in accounts ==> u in later && later[u].address == accounts[u].address
    ensures ToNodeAgrees(a, m, log, accounts) ==> ToNodeAgrees(a, m, now, later)
    ensures ToFrontAgrees(a, m, log) ==> ToFrontAgrees(a, m, now)
  {
    if m.StartResult? && ToFrontAgrees(a, m, log) {
      var p: UInt32 :| (m.user, Place(a, m.session, p)) in log.sent;
      assert (m.user, Place(a, m.session, p)) in now.sent;
    }
  }

  /** At most these two packets are new at the site. */
  ghost predicate OnlyAdds(x: Site, y: Site, toNode: set<Packet>, toFront: set<Packet>) {
    && (forall m :: m in y.toNode ==> m in x.toNode || m in toNode)
    && (forall m :: m in y.toFront ==> m in x.toFront || m in toFront)
  }

  lemma SiteStays(a: Text, x: Site, y: Site, toNode: set<Packet>, toFront: set<Packet>, log: Log, now: Log,
                  accounts: map<Text, Account>, later: map<Text, Account>)
    requires SiteAgrees(a, x, log, accounts) && OnlyAdds(x, y, toNode, toFront)
    requires log.sent <= now.sent && log.ended <= now.ended
    requires forall u :: u in accounts ==> u in later && later[u].address == accounts[u].address
    requires forall m :: m in toNode ==> ToNodeAgrees(a, m, now, later)
    requires forall m :: m in toFront ==> ToFrontAgrees(a, m, now)
    ensures SiteAgrees(a, y, now, later)
  {
    forall m | m in y.toNode ensures ToNodeAgrees(a, m, now, later) {
      PacketStays(a, m, log, now, accounts, later);
    }
    forall m | m in y.toFront ensures ToFrontAgrees(a, m, now) {
      PacketStays(a, m, log, now, accounts, later);
    }
  }

  /** The packet a step pushes towards the node of its site. */
  ghost function NewToNode(x: Site, e: Step, ip: Text): set<Packet>
    requires SiteEnabled(x, e)
  {
    match e
    case SendStart(a, u) => {RequestStart(u, ip, x.pending[u].session, ToInt32(x.pending[u].port))}
    case Destroy(u, n) => {RequestClose(u, n)}
    case _ => {}
  }

  /** The answer a step pushes towards the front end. */
  ghost function NewToFront(x: Site, e: Step): set<Packet>
    requires SiteEnabled(x, e)
  {
    match e
    case NodeStarts(a, r, c) => {StartResult(r.user, r.session, StartStatus(x.node, StartOf(r), c))}
    case NodeCloses(a, r) => {CloseResult(r.user, r.session, 0)}
    case _ => {}
  }

  lemma SiteStepAdds(x: Site, e: Step, ip: Text)
    requires SiteEnabled(x, e)
    ensures OnlyAdds(x, SiteAfter(x, e, ip), NewToNode(x, e, ip), NewToFront(x, e))
  {
  }

  /** What is pushed was asked for, or answers something that was. */
  lemma NewAgree(s: System, e: Step, a: Text, log: Log)
    requires PendingAgrees(s.sites, log) && Enabled(s, e) && !e.Restart? && Touched(s, e) == Some(a) && a in s.sites
    requires SiteEnabled(s.sites[a], e) && SiteAgrees(a, s.sites[a], log, s.accounts)
    ensures var x, now, ip := s.sites[a], Noted(log, e), if e.SendStart? then s.accounts[e.user].address else [];
            && (forall m :: m in NewToNode(x, e, ip) ==> ToNodeAgrees(a, m, now, After(s, e).accounts))
            && (forall m :: m in NewToFront(x, e) ==> ToFrontAgrees(a, m, now))
  {
    AddressesStay(s, e);
    var x := s.sites[a];
    match e
    case SendStart(b, u) => PortBack(x.pending[u].port);
    case NodeStarts(b, r, c) => assert ToNodeAgrees(a, r, log, s.accounts);
    case NodeCloses(b, r) => assert ToNodeAgrees(a, r, log, s.accounts);
    case _ =>
  }

  lemma RestartAgrees(s: System, at: Text, c: Config, l: Listing, log: Log)
    ensures SiteAgrees(at, Restarted(s, at, c, l), log, s.accounts)
  {
    assert forall m :: m in Restarted(s, at, c, l).toFront ==> m == NodeInfo(c.publicAddress, l);
  }

  /** The site a step concerns, and what it does there. */
  lemma TouchedSite(s: System, e: Step, a: Text)
    requires Enabled(s, e) && !e.Restart? && Touched(s, e) == Some(a)
    ensures a in s.sites && SiteEnabled(s.sites[a], e)
    ensures After(s, e).sites
         == s.sites[a := SiteAfter(s.sites[a], e, if e.SendStart? then s.accounts[e.user].address else [])]
  {
  }

  lemma StepKeepsSites(s: System, e: Step, log: Log)
    requires SitesAgree(s, log) && PendingAgrees(s.sites, log) && Enabled(s, e)
    ensures SitesAgree(After(s, e), Noted(log, e))
  {
    var t, now := After(s, e), Noted(log, e);
    AddressesStay(s, e);
    LogGrows(log, e);
    forall a | a in t.sites ensures SiteAgrees(a, t.sites[a], now, t.accounts) {
      if e.Restart? && e.at == a {
        RestartAgrees(s, a, e.config, e.listing, now);
      } else if !e.Restart? && Touched(s, e) == Some(a) {
        TouchedSite(s, e, a);
        var ip := if e.SendStart? then s.accounts[e.user].address else [];
        SiteStepAdds(s.sites[a], e, ip);
        NewAgree(s, e, a, log);
        SiteStays(a, s.sites[a], t.sites[a], NewToNode(s.sites[a], e, ip), NewToFront(s.sites[a], e), log, now,
                  s.accounts, t.accounts);
      } else {
        UntouchedSite(s, e, a);
        SiteStays(a, s.sites[a], t.sites[a], {}, {}, log, now, s.accounts, t.accounts);
      }
    }
  }

  lemma UntouchedSite(s: System, e: Step, a: Text)
    requires Enabled(s, e) && a in After(s, e).sites
    requires if e.Restart? then e.at != a else Touched(s, e) != Some(a)
    ensures a in s.sites && After(s, e).sites[a] == s.sites[a]
  {
  }

  lemma {:induction false} RunAgrees(s: System, es: seq<Step>, log: Log)
    requires Agrees(s, log) && Run(s, es)
    ensures Agrees(Final(s, es), NotedAll(log, es))
    decreases |es|
  {
    if es != [] {
      StepKeepsRecords(s, es[0], log);
      StepKeepsPending(s, es[0], log);
      StepKeepsSites(s, es[0], log);
      RunAgrees(After(s, es[0]), es[1..], Noted(log, es[0]));
    }
  }

  /**
   In every run, with losses, reordering and restarts: each open session is recorded with the node and the port that
   its last creation reserved.
   */
  lemma RecordsAreTrue(es: seq<Step>, u: Text, n: Text)
    requires Run(INITIAL, es) && n in SessionsOf(Final(INITIAL, es).open, u)
    ensures var s, log := Final(INITIAL, es), NotedAll(NOTHING, es);
            var info := SessionsOf(s.open, u)[n];
            && (u, n) in log.created && u in s.accounts
            && info.nodeAddress == log.created[(u, n)].at && info.nodePort == log.created[(u, n)].port
            && info.sessionName == n && info.ownerUsername == u && info.ownerIp == s.accounts[u].address
  {
    RunAgrees(INITIAL, es, NOTHING);
    assert Entry(Final(INITIAL, es).open, u, n).Some?;
  }

  /**
   In every run: a start in flight to a node is one that its user's creation reserved there, port and address included,
   and a close in flight is for a session its user asked to end.
   */
  lemma PacketsWereAskedFor(es: seq<Step>, a: Text, m: Packet)
    requires Run(INITIAL, es) && a in Final(INITIAL, es).sites && m in Final(INITIAL, es).sites[a].toNode
    ensures var s, log := Final(INITIAL, es), NotedAll(NOTHING, es);
            && (m.RequestStart? ==>
                  && (m.user, Place(a, m.session, ToUInt32(m.port))) in log.sent
                  && m.user in s.accounts && m.userAddress == s.accounts[m.user].address)
            && (m.RequestClose? ==> (m.user, m.session) in log.ended)
  {
    RunAgrees(INITIAL, es, NOTHING);
    assert ToNodeAgrees(a, m, NotedAll(NOTHING, es), Final(INITIAL, es).accounts);
  }

  /** In every run: an answer in flight names a session that was started at this node, or that its user asked to end. */
  lemma AnswersWereAskedFor(es: seq<Step>, a: Text, m: Packet)
    requires Run(INITIAL, es) && a in Final(INITIAL, es).sites && m in Final(INITIAL, es).sites[a].toFront
    ensures var log := NotedAll(NOTHING, es);
            && (m.StartResult? ==> exists p: UInt32 :: (m.user, Place(a, m.session, p)) in log.sent)
            && (m.CloseResult? ==> (m.user, m.session) in log.ended)
  {
    RunAgrees(INITIAL, es, NOTHING);
    assert ToFrontAgrees(a, m, NotedAll(NOTHING, es));
  }
}
