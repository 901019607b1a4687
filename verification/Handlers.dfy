/**
 What the receivers of the packets and the user's requests do with the objects, and that each of them makes
 exactly the corresponding step of Protocol.
 */
module Handlers {
  import opened Common
  import opened NodeSessions
  import opened Slots
  import opened Nodes
  import opened Sessions
  import opened Protocol
  import opened Bytes
  import opened Codec
  import B = ByteBuffer
  import X = NodeInfoExchange

  // ---------- at the node

  /** The site once the node has handled a packet and answered with one result. */
  ghost function Answered(x: Site, node: NodeState, packet: Packet, result: Packet): Site {
    x.(node := node, toNode := x.toNode - multiset{packet}, toFront := x.toFront + multiset{result})
  }

  /**
   One start on the session manager is the start step of the protocol. It opens the session the packet names, for the
   address and on the web port the packet names, or none; the one answer names the same session, and its code tells
   what happened.
   */
  method ExecuteStart(manager: SessionManager, packet: Packet, launched: bool, ghost x: Site, ghost a: Text)
    returns (ghost step: Step, ghost code: Int32)
    requires packet.RequestStart? && x.node == manager.State() && packet in x.toNode
    modifies manager
    ensures step.NodeStarts? && step.at == a && step.request == packet && step.choice.launched == launched
    ensures SiteEnabled(x, step) && manager.signals == old(manager.signals)
    ensures manager.results == old(manager.results) + [StartResult(packet.user, packet.session, code)]
    ensures Tells(x.node, manager.State(), packet.user, packet.session, code)
    ensures SiteAfter(x, step, [])
         == Answered(x, manager.State(), packet, StartResult(packet.user, packet.session, code))
    ensures !IsLive(x.node, packet.user, packet.session) && IsLive(manager.State(), packet.user, packet.session) ==>
              var session := manager.State().sessions[packet.user][packet.session];
              && session.ownerAddress == packet.userAddress && session.web == ToUInt16(packet.port)
              && session.running == launched
  {
    ghost var c := manager.StartNewSession(packet.user, packet.userAddress, packet.session, ToUInt16(packet.port),
                                           launched);
    step, code := NodeStarts(a, packet, c), StartStatus(x.node, StartOf(packet), c);
    StatusTells(x.node, StartOf(packet), c);
    if !IsLive(x.node, packet.user, packet.session) && IsLive(manager.State(), packet.user, packet.session) {
      OpenedAsAsked(x.node, StartOf(packet), c);
    }
  }

  /** The session the packet names is told to finish if it is live, no other; the answer names it, and does not wait. */
  method ExecuteClose(manager: SessionManager, packet: Packet, ghost x: Site, ghost a: Text)
    requires packet.RequestClose? && x.node == manager.State() && packet in x.toNode
    modifies manager
    ensures manager.signals == old(manager.signals)
              + if IsLive(x.node, packet.user, packet.session) then [(packet.user, packet.session)] else []
    ensures manager.results == old(manager.results) + [CloseResult(packet.user, packet.session, 0)]
    ensures SiteAfter(x, NodeCloses(a, packet), [])
         == Answered(x, manager.State(), packet, CloseResult(packet.user, packet.session, 0))
  {
    manager.FinishSession(packet.user, packet.session);
    manager.results := manager.results + [CloseResult(packet.user, packet.session, 0)];
  }

  /** The thread that waited for a session's process clears the session. */
  method ProcessEnds(manager: SessionManager, owner: Text, name: Text, ghost x: Site, ghost a: Text)
    requires x.node == manager.State() && SiteEnabled(x, ProcessExits(a, owner, name))
    modifies manager
    ensures SiteAfter(x, ProcessExits(a, owner, name), []) == x.(node := manager.State())
    ensures manager.results == old(manager.results) && manager.signals == old(manager.signals)
  {
    manager.ClearSession(manager.streamSessions[owner][name]);
  }

  // ---------- at the front end

  ghost predicate AccountsMatch(users: map<Text, User>, accounts: map<Text, Account>)
    reads users.Values
  {
    && users.Keys == accounts.Keys
    && forall u :: u in users ==>
         users[u].unixUser == u && Account(users[u].ipAddress, users[u].activeSessions) == accounts[u]
  }

  /** The objects of the front end are in the state s: users by name, and the record of open sessions. */
  ghost predicate UsersMatch(users: map<Text, User>, tracker: SessionTracker, s: System)
    reads tracker, users.Values
  {
    tracker.openSessions == s.open && AccountsMatch(users, s.accounts)
  }

  method ExecuteStartResult(users: map<Text, User>, tracker: SessionTracker, packet: Packet,
                            ghost s: System, ghost a: Text)
    requires UsersMatch(users, tracker, s) && packet.StartResult? && Enabled(s, ResultArrives(a, packet))
    modifies tracker
    ensures UsersMatch(users, tracker, After(s, ResultArrives(a, packet)))
  {
    if packet.user in users {
      tracker.CreateSession(users[packet.user], packet.session, packet.status);
    }
  }

  method ExecuteCloseResult(users: map<Text, User>, tracker: SessionTracker, packet: Packet,
                            ghost s: System, ghost a: Text)
    requires UsersMatch(users, tracker, s) && packet.CloseResult? && Enabled(s, CloseArrives(a, packet))
    modifies tracker, users.Values`activeSessions
    ensures UsersMatch(users, tracker, After(s, CloseArrives(a, packet)))
  {
    if packet.user in users {
      tracker.FinishSession(users[packet.user], packet.session);
    }
  }

  ghost function KnownViews(s: System): map<Text, Slots> {
    map a | a in s.sites && s.sites[a].known :: s.sites[a].slots
  }

  ghost function AttachedSites(s: System): set<Text> {
    set a | a in s.sites && s.sites[a].attached
  }

  ghost predicate Connected(nodes: VisualizationNodeManager, s: System)
    reads nodes, nodes.nodeList.Values
  {
    forall a :: a in nodes.nodeList && a in AttachedSites(s) ==> nodes.nodeList[a].connected
  }

  /** The registry holds exactly the nodes the front end knows, each with its view, and a connection where one is up. */
  ghost predicate NodesMatch(nodes: VisualizationNodeManager, s: System)
    reads nodes, nodes.nodeList.Values
  {
    nodes.Views() == KnownViews(s) && Connected(nodes, s)
  }

  /** The packets pushed to a connection that is up are those that are now on their way to the node. */
  ghost predicate PostedAt(before: seq<Packet>, now: seq<Packet>, x: Site, y: Site) {
    && before <= now
    && y.toNode == if x.attached then x.toNode + multiset(now[|before|..]) else x.toNode
  }

  ghost predicate Posts(before: map<Text, seq<Packet>>, now: map<Text, seq<Packet>>, s: System, t: System) {
    && now.Keys == before.Keys && t.sites.Keys == s.sites.Keys
    && forall a {:trigger now[a]} :: a in now ==> a in s.sites && PostedAt(before[a], now[a], s.sites[a], t.sites[a])
  }

  // ---------- a NodeInfo arrives

  /** What a NodeInfo leaves behind. */
  ghost predicate Reports(s: System, a: Text, p: Packet, t: System)
    requires a in s.sites && p.NodeInfo?
  {
    && t.open == s.open && t.accounts == s.accounts && t.sites.Keys == s.sites.Keys
    && t.sites[a].known && t.sites[a].slots == Refresh(s.sites[a].slots, p.publicAddress, p.slots)
    && forall b :: b in s.sites && b != a ==> t.sites[b] == s.sites[b]
  }

  lemma InfoReports(s: System, a: Text, p: Packet)
    requires p.NodeInfo? && Enabled(s, InfoArrives(a, p))
    ensures a in s.sites && Reports(s, a, p, After(s, InfoArrives(a, p)))
  {
  }

  lemma KnownReports(s: System, a: Text, p: Packet, t: System)
    requires a in s.sites && p.NodeInfo? && Reports(s, a, p, t)
    ensures KnownViews(t) == KnownViews(s)[a := Refresh(s.sites[a].slots, p.publicAddress, p.slots)]
    ensures AttachedSites(t) <= AttachedSites(s) + {a}
  {
  }

  lemma InfoRead(s: System, a: Text, p: Packet, rest: seq<Byte>)
    requires p.NodeInfo? && |Encode(p)| < 0x1_0000
    requires a in s.sites && (s.sites[a].known || s.sites[a].slots == NO_SLOTS)
    ensures Decode(AtFrontEnd, 0, Encode(p) + rest) == Got(p, rest)
    ensures KnownViews(s)[a := X.Reading(if a in KnownViews(s) then KnownViews(s)[a] else NO_SLOTS, Encode(p) + rest)]
         == KnownViews(s)[a := Refresh(s.sites[a].slots, p.publicAddress, p.slots)]
  {
    DecodeBack(p, rest);
    X.ReadingRefreshes(s.sites[a].slots, p.publicAddress, p.slots, rest);
  }

  /** The bytes of a NodeInfo are read into the view of the node they come from. */
  method ReadInfo(nodes: VisualizationNodeManager, buffer: B.ByteBuffer, a: Text, ghost views: map<Text, Slots>,
                  ghost bs: seq<Byte>, ghost attached: set<Text>)
    requires nodes.Addressed() && nodes.Views() == views && buffer.Valid() && buffer.Unread() == bs
    requires forall b :: b in nodes.nodeList && b in attached ==> nodes.nodeList[b].connected
    modifies nodes`nodeList, if a in nodes.nodeList then {nodes.nodeList[a]} else {}, buffer`read
    ensures nodes.Addressed() && buffer.Valid() && buffer.Unread() == Decode(AtFrontEnd, 0, bs).rest
    ensures nodes.Views() == views[a := X.Reading(if a in views then views[a] else NO_SLOTS, bs)]
    ensures forall b :: b in nodes.nodeList && (b in attached || b == a) ==> nodes.nodeList[b].connected
  {
    var ok, node := X.NodeInfoArrives(nodes, a, buffer, views, bs);
    forall b | b in nodes.nodeList && b in attached && b != a ensures nodes.nodeList[b].connected {
      assert nodes.nodeList[b] == old(nodes.nodeList)[b] && nodes.nodeList[b].address == b;
    }
  }

  /** readImpl of a NodeInfo in flight is the arrival step of the protocol. */
  method ExecuteNodeInfo(nodes: VisualizationNodeManager, buffer: B.ByteBuffer, a: Text,
                         ghost s: System, ghost p: Packet, ghost rest: seq<Byte>)
    requires nodes.Addressed() && NodesMatch(nodes, s) && buffer.Valid()
    requires p.NodeInfo? && |Encode(p)| < 0x1_0000 && buffer.Unread() == Encode(p) + rest
    requires Enabled(s, InfoArrives(a, p)) && (s.sites[a].known || s.sites[a].slots == NO_SLOTS)
    modifies nodes`nodeList, if a in nodes.nodeList then {nodes.nodeList[a]} else {}, buffer`read
    ensures nodes.Addressed() && NodesMatch(nodes, After(s, InfoArrives(a, p)))
    ensures buffer.Valid() && buffer.Unread() == rest
  {
    InfoRead(s, a, p, rest);
    ReadInfo(nodes, buffer, a, KnownViews(s), Encode(p) + rest, AttachedSites(s));
    InfoReports(s, a, p);
    KnownReports(s, a, p, After(s, InfoArrives(a, p)));
  }

  // ---------- a user creates a session

  /** A creation that nobody interrupts makes its two steps in a row. */
  ghost predicate Creates(s: System, a: Text, u: Text, n: Text, p: UInt32, t: System) {
    && Enabled(s, ReserveSlot(a, u, n, p))
    && Enabled(After(s, ReserveSlot(a, u, n, p)), SendStart(a, u))
    && t == After(After(s, ReserveSlot(a, u, n, p)), SendStart(a, u))
  }

  ghost function StartFor(s: System, u: Text, n: Text, p: UInt32): Packet
    requires u in s.accounts
  {
    RequestStart(u, s.accounts[u].address, n, ToInt32(p))
  }

  /** One packet more on its way to a node whose connection is up. */
  ghost predicate OnePosted(x: Site, y: Site, packet: Packet) {
    y.attached == x.attached && y.toNode == if x.attached then x.toNode + multiset{packet} else x.toNode
  }

  /** What such a creation leaves behind. */
  ghost predicate Records(s: System, a: Text, u: Text, n: Text, p: UInt32, t: System)
    requires a in s.sites && u in s.accounts
  {
    var ip := s.accounts[u].address;
    && t.open == WithSession(s.open, u, n, Info(n, a, s.sites[a].slots.publicAddress, p, ip, u, Creating))
    && t.accounts == s.accounts[u := Account(ip, s.accounts[u].active[n := a])]
    && t.sites.Keys == s.sites.Keys && t.sites[a].slots == Reserve(s.sites[a].slots, p) && t.sites[a].known
    && OnePosted(s.sites[a], t.sites[a], StartFor(s, u, n, p))
    && forall b :: b in s.sites && b != a ==> t.sites[b] == s.sites[b]
  }

  lemma CreatesOne(s: System, a: Text, u: Text, n: Text, p: UInt32) returns (t: System)
    requires a in s.sites && s.sites[a].known && CanReserve(s.sites[a].slots, p)
    requires u in s.accounts && !Locked(s, u) && n !in SessionsOf(s.open, u)
    ensures Creates(s, a, u, n, p, t) && Records(s, a, u, n, p, t)
  {
    assert u !in s.sites[a].pending;
    t := After(After(s, ReserveSlot(a, u, n, p)), SendStart(a, u));
  }

  lemma RecordsViews(s: System, a: Text, u: Text, n: Text, p: UInt32, t: System)
    requires a in s.sites && s.sites[a].known && u in s.accounts && Records(s, a, u, n, p, t)
    ensures KnownViews(t) == KnownViews(s)[a := Reserve(s.sites[a].slots, p)] && AttachedSites(t) == AttachedSites(s)
  {
  }

  lemma NothingPosted(outbox: seq<Packet>, x: Site)
    ensures PostedAt(outbox, outbox, x, x)
  {
    assert multiset(outbox[|outbox|..]) == multiset{};
  }

  lemma PacketPosted(outbox: seq<Packet>, connected: bool, packet: Packet, x: Site, y: Site)
    requires (x.attached ==> connected) && OnePosted(x, y, packet)
    ensures PostedAt(outbox, if connected then outbox + [packet] else outbox, x, y)
  {
    assert (outbox + [packet])[|outbox|..] == [packet];
  }

  lemma PostsOne(before: map<Text, seq<Packet>>, a: Text, connected: bool, packet: Packet, s: System, t: System)
    requires before.Keys == KnownViews(s).Keys && a in before && (a in AttachedSites(s) ==> connected)
    requires t.sites.Keys == s.sites.Keys && OnePosted(s.sites[a], t.sites[a], packet)
    requires forall b :: b in s.sites && b != a ==> t.sites[b] == s.sites[b]
    ensures Posts(before, Pushed(before, a, connected, packet), s, t)
  {
    var now := Pushed(before, a, connected, packet);
    forall b | b in now ensures b in s.sites && PostedAt(before[b], now[b], s.sites[b], t.sites[b]) {
      assert b in KnownViews(s);
      if b == a {
        assert now[b] == if connected then before[b] + [packet] else before[b];
        PacketPosted(before[b], connected, packet, s.sites[b], t.sites[b]);
      } else {
        assert now[b] == before[b] && t.sites[b] == s.sites[b];
        NothingPosted(before[b], s.sites[b]);
      }
    }
  }

  lemma PostsNone(before: map<Text, seq<Packet>>, s: System, t: System)
    requires before.Keys == KnownViews(s).Keys && t.sites == s.sites
    ensures Posts(before, before, s, t)
  {
    forall b | b in before ensures PostedAt(before[b], before[b], s.sites[b], t.sites[b]) {
      NothingPosted(before[b], s.sites[b]);
    }
  }

  lemma OneAccount(users: map<Text, User>, accounts: map<Text, Account>, u: Text)
    requires u in users && u in accounts && users.Keys == accounts.Keys
    requires users[u].unixUser == u && users[u].ipAddress == accounts[u].address
    requires forall v :: v in users && v != u ==>
               users[v].unixUser == v && Account(users[v].ipAddress, users[v].activeSessions) == accounts[v]
    ensures AccountsMatch(users, accounts[u := Account(accounts[u].address, users[u].activeSessions)])
  {
  }

  /** The creation of one user, told in terms of the state s before. */
  method CreateFor(user: User, tracker: SessionTracker, nodes: VisualizationNodeManager, n: Text, ghost s: System)
    returns (result: CreationResult, at: Text, port: UInt32)
    requires nodes.Valid() && NodesMatch(nodes, s) && tracker.openSessions == s.open
    modifies tracker, user`activeSessions
    modifies nodes.nodeList.Values`usedSlots, nodes.nodeList.Values`slotTracker, nodes.nodeList.Values`outbox
    ensures result == DuplicateName <==> n in SessionsOf(s.open, user.unixUser)
    ensures result != CreationOk ==>
              && tracker.openSessions == s.open && user.activeSessions == old(user.activeSessions)
              && nodes.Views() == KnownViews(s) && nodes.Outboxes() == old(nodes.Outboxes())
    ensures result == CreationOk ==>
              && at in s.sites && s.sites[at].known && CanReserve(s.sites[at].slots, port)
              && tracker.openSessions == WithSession(s.open, user.unixUser, n,
                   Info(n, at, s.sites[at].slots.publicAddress, port, user.ipAddress, user.unixUser, Creating))
              && user.activeSessions == old(user.activeSessions)[n := at]
    ensures result == CreationOk ==>
              && nodes.Views() == KnownViews(s)[at := Reserve(s.sites[at].slots, port)] && at in nodes.nodeList
              && nodes.Outboxes() == Pushed(old(nodes.Outboxes()), at, nodes.nodeList[at].connected,
                   RequestStart(user.unixUser, user.ipAddress, n, ToInt32(port)))
  {
    var node: VisualizationNode?;
    result, node, port := tracker.TryCreateSession(user, n, nodes);
    at := if node == null then [] else node.address;
    assert node != null ==> at in KnownViews(s) && node.publicAddress == nodes.Views()[at].publicAddress;
  }

  /** The nodes after a creation match the state t that records it. */
  lemma CreationMatches(nodes: VisualizationNodeManager, before: map<Text, seq<Packet>>, s: System, a: Text, u: Text,
                        n: Text, p: UInt32, t: System)
    requires a in s.sites && s.sites[a].known && u in s.accounts && Records(s, a, u, n, p, t)
    requires nodes.Views() == KnownViews(s)[a := Reserve(s.sites[a].slots, p)]
    requires Connected(nodes, s) && a in nodes.nodeList
    requires before.Keys == KnownViews(s).Keys
    requires nodes.Outboxes() == Pushed(before, a, nodes.nodeList[a].connected, StartFor(s, u, n, p))
    ensures NodesMatch(nodes, t) && Posts(before, nodes.Outboxes(), s, t)
  {
    RecordsViews(s, a, u, n, p, t);
    PostsOne(before, a, nodes.nodeList[a].connected, StartFor(s, u, n, p), s, t);
  }

  /** Record and nodes after the creation match every state that records it. */
  method CreateOnNodes(user: User, tracker: SessionTracker, nodes: VisualizationNodeManager, n: Text, ghost s: System)
    returns (result: CreationResult, at: Text, port: UInt32)
    requires nodes.Valid() && NodesMatch(nodes, s) && tracker.openSessions == s.open
    requires user.unixUser in s.accounts && s.accounts[user.unixUser] == Account(user.ipAddress, user.activeSessions)
    modifies tracker, user`activeSessions
    modifies nodes.nodeList.Values`usedSlots, nodes.nodeList.Values`slotTracker, nodes.nodeList.Values`outbox
    ensures result == DuplicateName <==> n in SessionsOf(s.open, user.unixUser)
    ensures result != CreationOk ==>
              && tracker.openSessions == s.open && user.activeSessions == old(user.activeSessions)
              && NodesMatch(nodes, s) && nodes.Outboxes() == old(nodes.Outboxes())
    ensures result == CreationOk ==>
              && at in s.sites && s.sites[at].known && CanReserve(s.sites[at].slots, port)
              && user.activeSessions == old(user.activeSessions)[n := at]
              && forall t {:trigger Records(s, at, user.unixUser, n, port, t)} ::
                   Records(s, at, user.unixUser, n, port, t) ==>
                   && tracker.openSessions == t.open && NodesMatch(nodes, t)
                   && Posts(old(nodes.Outboxes()), nodes.Outboxes(), s, t)
  {
    ghost var before := nodes.Outboxes();
    result, at, port := CreateFor(user, tracker, nodes, n, s);
    if result == CreationOk {
      forall t | Records(s, at, user.unixUser, n, port, t)
        ensures tracker.openSessions == t.open && NodesMatch(nodes, t) && Posts(before, nodes.Outboxes(), s, t)
      {
        CreationMatches(nodes, before, s, at, user.unixUser, n, port, t);
      }
    }
  }

  /** Users, record and nodes after the creation match every state that records it. */
  method CreateAndMatch(users: map<Text, User>, tracker: SessionTracker, nodes: VisualizationNodeManager,
                        u: Text, n: Text, ghost s: System)
    returns (result: CreationResult, at: Text, port: UInt32)
    requires nodes.Valid() && UsersMatch(users, tracker, s) && NodesMatch(nodes, s) && u in users
    modifies tracker, users.Values`activeSessions
    modifies nodes.nodeList.Values`usedSlots, nodes.nodeList.Values`slotTracker, nodes.nodeList.Values`outbox
    ensures result == DuplicateName <==> n in SessionsOf(s.open, u)
    ensures result != CreationOk ==>
              UsersMatch(users, tracker, s) && NodesMatch(nodes, s) && nodes.Outboxes() == old(nodes.Outboxes())
    ensures result == CreationOk ==>
              && at in s.sites && s.sites[at].known && CanReserve(s.sites[at].slots, port)
              && forall t {:trigger Records(s, at, u, n, port, t)} :: Records(s, at, u, n, port, t) ==>
                   && UsersMatch(users, tracker, t) && NodesMatch(nodes, t)
                   && Posts(old(nodes.Outboxes()), nodes.Outboxes(), s, t)
  {
    assert forall v :: v in users && v != u ==> users[v] != users[u];
    result, at, port := CreateOnNodes(users[u], tracker, nodes, n, s);
    OneAccount(users, s.accounts, u);
  }

  /** The request of a user for a new session, without interference. */
  method Create(users: map<Text, User>, tracker: SessionTracker, nodes: VisualizationNodeManager,
                u: Text, n: Text, ghost s: System)
    returns (result: CreationResult, at: Text, port: UInt32, ghost t: System)
    requires nodes.Valid() && UsersMatch(users, tracker, s) && NodesMatch(nodes, s) && u in users && !Locked(s, u)
    modifies tracker, users.Values`activeSessions
    modifies nodes.nodeList.Values`usedSlots, nodes.nodeList.Values`slotTracker, nodes.nodeList.Values`outbox
    ensures if result == CreationOk then Creates(s, at, u, n, port, t) else t == s
    ensures UsersMatch(users, tracker, t) && NodesMatch(nodes, t)
    ensures Posts(old(nodes.Outboxes()), nodes.Outboxes(), s, t)
    ensures result == DuplicateName <==> n in SessionsOf(s.open, u)
  {
    t := s;
    PostsNone(nodes.Outboxes(), s, s);
    result, at, port := CreateAndMatch(users, tracker, nodes, u, n, s);
    if result == CreationOk {
      t := CreatesOne(s, at, u, n, port);
    }
  }

  // ---------- a user ends a session

  /** What a destroy request leaves behind. */
  ghost predicate Ends(s: System, u: Text, n: Text, t: System)
    requires u in s.accounts
  {
    match CloseTarget(s, u, n)
    case None =>
      && t.sites == s.sites && t.open == WithoutSession(s.open, u, n)
      && t.accounts == if n in SessionsOf(s.open, u)
                       then s.accounts[u := Account(s.accounts[u].address, s.accounts[u].active - {n})] else s.accounts
    case Some(a) =>
      && t.open == WithStatus(s.open, u, n, Closing) && t.accounts == s.accounts
      && t.sites.Keys == s.sites.Keys && OnePosted(s.sites[a], t.sites[a], RequestClose(u, n))
      && t.sites[a].slots == s.sites[a].slots && t.sites[a].known
      && forall b :: b in s.sites && b != a ==> t.sites[b] == s.sites[b]
  }

  lemma DestroyEnds(s: System, u: Text, n: Text)
    requires u in s.accounts && !Locked(s, u)
    ensures Enabled(s, Step.Destroy(u, n)) && Ends(s, u, n, After(s, Step.Destroy(u, n)))
  {
  }

  lemma SameKnown(s: System, t: System)
    requires t.sites.Keys == s.sites.Keys
    requires forall b :: b in s.sites ==> t.sites[b].known == s.sites[b].known && t.sites[b].slots == s.sites[b].slots
    ensures KnownViews(t) == KnownViews(s)
  {
  }

  lemma SameAttached(s: System, t: System)
    requires t.sites.Keys == s.sites.Keys && forall b :: b in s.sites ==> t.sites[b].attached == s.sites[b].attached
    ensures AttachedSites(t) == AttachedSites(s)
  {
  }

  /** The nodes after a destroy request match the state t in which it has ended the session. */
  lemma EndMatches(nodes: VisualizationNodeManager, before: map<Text, seq<Packet>>, s: System, u: Text, n: Text,
                   t: System)
    requires u in s.accounts && Ends(s, u, n, t)
    requires NodesMatch(nodes, s) && before.Keys == KnownViews(s).Keys
    requires CloseTarget(s, u, n).None? ==> nodes.Outboxes() == before
    requires CloseTarget(s, u, n).Some? ==>
               var a := CloseTarget(s, u, n).value;
               a in nodes.nodeList && a in before
               && nodes.Outboxes() == Pushed(before, a, nodes.nodeList[a].connected, RequestClose(u, n))
    ensures NodesMatch(nodes, t) && Posts(before, nodes.Outboxes(), s, t)
  {
    SameKnown(s, t);
    SameAttached(s, t);
    match CloseTarget(s, u, n)
    case None => PostsNone(before, s, t);
    case Some(a) => PostsOne(before, a, nodes.nodeList[a].connected, RequestClose(u, n), s, t);
  }

  /** The destroy request of one user, told in terms of the state s before. */
  method FinishFor(user: User, tracker: SessionTracker, nodes: VisualizationNodeManager, n: Text, ghost s: System)
    requires nodes.Addressed() && NodesMatch(nodes, s) && tracker.openSessions == s.open
    modifies tracker, user`activeSessions, nodes.nodeList.Values`outbox
    ensures NodesMatch(nodes, s) && nodes.nodeList.Keys == KnownViews(s).Keys
    ensures var target := CloseTarget(s, user.unixUser, n);
            if target.None? then
              && tracker.openSessions == WithoutSession(s.open, user.unixUser, n)
              && user.activeSessions == (if n in SessionsOf(s.open, user.unixUser)
                                         then old(user.activeSessions) - {n} else old(user.activeSessions))
              && nodes.Outboxes() == old(nodes.Outboxes())
            else
              && target.value in nodes.nodeList
              && tracker.openSessions == WithStatus(s.open, user.unixUser, n, Closing)
              && user.activeSessions == old(user.activeSessions)
              && nodes.Outboxes() == Pushed(old(nodes.Outboxes()), target.value, nodes.nodeList[target.value].connected,
                   RequestClose(user.unixUser, n))
  {
    ghost var target := CloseTarget(s, user.unixUser, n);
    assert nodes.nodeList.Keys == KnownViews(s).Keys;
    var node := tracker.TryFinishSession(user, n, nodes);
    if node == null {
      assert target.None?;
    } else {
      assert target == Some(node.address);
    }
  }

  /** Record and nodes after the request match every state in which it has ended the session. */
  method FinishOnNodes(user: User, tracker: SessionTracker, nodes: VisualizationNodeManager, n: Text, ghost s: System)
    requires nodes.Addressed() && NodesMatch(nodes, s) && tracker.openSessions == s.open
    requires user.unixUser in s.accounts && s.accounts[user.unixUser] == Account(user.ipAddress, user.activeSessions)
    modifies tracker, user`activeSessions, nodes.nodeList.Values`outbox
    ensures forall t {:trigger Ends(s, user.unixUser, n, t)} :: Ends(s, user.unixUser, n, t) ==>
              && tracker.openSessions == t.open && NodesMatch(nodes, t)
              && Posts(old(nodes.Outboxes()), nodes.Outboxes(), s, t)
              && t.accounts == s.accounts[user.unixUser := Account(user.ipAddress, user.activeSessions)]
  {
    ghost var before, u := nodes.Outboxes(), user.unixUser;
    FinishFor(user, tracker, nodes, n, s);
    forall t | Ends(s, u, n, t) ensures NodesMatch(nodes, t) && Posts(before, nodes.Outboxes(), s, t) {
      EndMatches(nodes, before, s, u, n, t);
    }
  }

  method FinishAndMatch(users: map<Text, User>, tracker: SessionTracker, nodes: VisualizationNodeManager,
                        u: Text, n: Text, ghost s: System)
    requires nodes.Addressed() && UsersMatch(users, tracker, s) && NodesMatch(nodes, s) && u in users
    modifies tracker, users.Values`activeSessions, nodes.nodeList.Values`outbox
    ensures forall t {:trigger Ends(s, u, n, t)} :: Ends(s, u, n, t) ==>
              && UsersMatch(users, tracker, t) && NodesMatch(nodes, t)
              && Posts(old(nodes.Outboxes()), nodes.Outboxes(), s, t)
  {
    assert forall v :: v in users && v != u ==> users[v] != users[u];
    FinishOnNodes(users[u], tracker, nodes, n, s);
    OneAccount(users, s.accounts, u);
  }

  /** The request of a user to end a session: a close request to its node, or the end of its record. */
  method Destroy(users: map<Text, User>, tracker: SessionTracker, nodes: VisualizationNodeManager,
                 u: Text, n: Text, ghost s: System)
    requires nodes.Addressed() && UsersMatch(users, tracker, s) && NodesMatch(nodes, s) && u in users && !Locked(s, u)
    modifies tracker, users.Values`activeSessions, nodes.nodeList.Values`outbox
    ensures Enabled(s, Step.Destroy(u, n))
    ensures var t := After(s, Step.Destroy(u, n));
            && UsersMatch(users, tracker, t) && NodesMatch(nodes, t)
            && Posts(old(nodes.Outboxes()), nodes.Outboxes(), s, t)
  {
    FinishAndMatch(users, tracker, nodes, u, n, s);
    DestroyEnds(s, u, n);
  }
}
