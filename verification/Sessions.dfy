/** The front end's record of open sessions, and each user's own index of them (SessionTracker, User). */
module Sessions {
  import opened Common
  import opened Slots
  import opened Nodes

  datatype SessionStatus = Uninitialized | Creating | Running | Closing | Crashed

  datatype Info = Info(sessionName: Text, nodeAddress: Text, nodePublicAddress: Text, nodePort: UInt32,
                       ownerIp: Text, ownerUsername: Text, status: SessionStatus)

  datatype CreationResult = CreationOk | DuplicateName | NoAvailableNodes

  /** Open sessions by user name and session name. */
  type Book = map<Text, map<Text, Info>>

  function SessionsOf(open: Book, user: Text): map<Text, Info> {
    if user in open then open[user] else map[]
  }

  function WithSession(open: Book, user: Text, name: Text, info: Info): Book {
    open[user := SessionsOf(open, user)[name := info]]
  }

  function WithStatus(open: Book, user: Text, name: Text, status: SessionStatus): Book {
    if name in SessionsOf(open, user)
    then open[user := open[user][name := open[user][name].(status := status)]] else open
  }

  function WithoutSession(open: Book, user: Text, name: Text): Book {
    if name in SessionsOf(open, user) then open[user := open[user] - {name}] else open
  }

  /** The status a start result gives to its session. */
  function StatusOf(code: Int32): SessionStatus {
    if code == 0 then Running else Crashed
  }

  /** Where each open session of a user runs. */
  function Places(open: Book, user: Text): map<Text, Text> {
    map n | n in SessionsOf(open, user) :: SessionsOf(open, user)[n].nodeAddress
  }

  /** The entry of one session, if it is open. */
  function Entry(open: Book, user: Text, name: Text): Option<Info> {
    if name in SessionsOf(open, user) then Some(SessionsOf(open, user)[name]) else None
  }

  /** A session is entered with every value given, and no other entry changes. */
  lemma EntryOfWithSession(open: Book, user: Text, name: Text, info: Info, u: Text, n: Text)
    ensures Entry(WithSession(open, user, name, info), u, n)
         == if u == user && n == name then Some(info) else Entry(open, u, n)
  {
  }

  /** The book now has this entry, and every other entry as before. */
  ghost predicate OneEntry(before: Book, now: Book, user: Text, name: Text, entry: Option<Info>) {
    && Entry(now, user, name) == entry
    && forall u, n :: u != user || n != name ==> Entry(now, u, n) == Entry(before, u, n)
  }

  lemma OneSessionMore(open: Book, user: Text, name: Text, info: Info)
    ensures OneEntry(open, WithSession(open, user, name, info), user, name, Some(info))
  {
    forall u, n | u != user || n != name ensures Entry(WithSession(open, user, name, info), u, n) == Entry(open, u, n) {
      EntryOfWithSession(open, user, name, info, u, n);
    }
  }

  lemma OneStatusSet(open: Book, user: Text, name: Text, status: SessionStatus)
    ensures var entry := Entry(open, user, name);
            OneEntry(open, WithStatus(open, user, name, status), user, name,
                     if entry.Some? then Some(entry.value.(status := status)) else None)
  {
    forall u, n | u != user || n != name
      ensures Entry(WithStatus(open, user, name, status), u, n) == Entry(open, u, n)
    {
      EntryOfWithStatus(open, user, name, status, u, n);
    }
  }

  lemma EntryOfWithStatus(open: Book, user: Text, name: Text, status: SessionStatus, u: Text, n: Text)
    ensures Entry(WithStatus(open, user, name, status), u, n)
         == if u == user && n == name && Entry(open, u, n).Some?
            then Some(Entry(open, u, n).value.(status := status)) else Entry(open, u, n)
  {
  }

  lemma EntryOfWithoutSession(open: Book, user: Text, name: Text, u: Text, n: Text)
    ensures Entry(WithoutSession(open, user, name), u, n)
         == if u == user && n == name then None else Entry(open, u, n)
  {
  }

  class User {
    var unixUser: Text
    var ipAddress: Text
    var activeSessions: map<Text, Text>

    constructor (unixUser: Text, ipAddress: Text)
      ensures this.unixUser == unixUser && this.ipAddress == ipAddress && activeSessions == map[]
    {
      this.unixUser, this.ipAddress, activeSessions := unixUser, ipAddress, map[];
    }

    method AddSession(sessionName: Text, nodeAddress: Text)
      modifies this`activeSessions
      ensures activeSessions == old(activeSessions)[sessionName := nodeAddress]
    {
      activeSessions := activeSessions[sessionName := nodeAddress];
    }

    method RemoveSession(sessionName: Text)
      modifies this`activeSessions
      ensures activeSessions == old(activeSessions) - {sessionName}
    {
      if sessionName in activeSessions {
        activeSessions := activeSessions - {sessionName};
      } else {
        assert activeSessions == activeSessions - {sessionName};
      }
    }
  }

  class SessionTracker {
    var openSessions: Book

    constructor ()
      ensures openSessions == map[]
    {
      openSessions := map[];
    }

    /** One pass of the search: a node that has a slot when it is found gives one, since nobody interferes. */
    method FindAndReserve(nodes: VisualizationNodeManager)
      returns (node: VisualizationNode?, reserved: bool, port: UInt32)
      requires nodes.Valid()
      modifies nodes.nodeList.Values`usedSlots, nodes.nodeList.Values`slotTracker
      ensures nodes.Valid() && reserved == (node != null) && nodes.Outboxes() == old(nodes.Outboxes())
      ensures node == null <==> NoneLeft(old(nodes.Views()))
      ensures node == null ==> nodes.Views() == old(nodes.Views())
      ensures node != null ==>
                && node.address in nodes.nodeList && node == nodes.nodeList[node.address]
                && TakesOne(old(nodes.Views()), node.address, port, nodes.Views())
                && (nodes.enableLoadBalance ==> MostAvailable(old(nodes.Views()), node.address))
    {
      node := nodes.FindBestNode();
      if node == null {
        return null, false, 0;
      }
      reserved, port := nodes.ReserveAt(node);
    }

    /**
     The search loop of tryCreateSession. Without interference its body runs exactly once: it finds no node
     exactly when no node has a slot left, and otherwise one (node, port) pair goes from free to used.
     */
    method ReserveOnSomeNode(nodes: VisualizationNodeManager)
      returns (node: VisualizationNode?, port: UInt32, rounds: nat)
      requires nodes.Valid()
      modifies nodes.nodeList.Values`usedSlots, nodes.nodeList.Values`slotTracker
      ensures nodes.Valid() && rounds == 1 && nodes.Outboxes() == old(nodes.Outboxes())
      ensures node == null <==> NoneLeft(old(nodes.Views()))
      ensures node == null ==> nodes.Views() == old(nodes.Views())
      ensures node != null ==>
                && node.address in nodes.nodeList && node == nodes.nodeList[node.address]
                && TakesOne(old(nodes.Views()), node.address, port, nodes.Views())
                && (nodes.enableLoadBalance ==> MostAvailable(old(nodes.Views()), node.address))
    {
      var slotReserved := false;
      var maxAttempts, attempt := 20, 0;
      node, port, rounds := null, 0, 0;
      // do ... while: the counter of attempts never moves
      while rounds == 0 || ((node == null || !slotReserved) && attempt < maxAttempts)
        invariant nodes.Valid() && rounds <= 1 && nodes.Outboxes() == old(nodes.Outboxes())
        invariant rounds == 0 ==> node == null && nodes.Views() == old(nodes.Views())
        invariant rounds == 1 ==>
                    && slotReserved && node != null
                    && node.address in nodes.nodeList && node == nodes.nodeList[node.address]
                    && TakesOne(old(nodes.Views()), node.address, port, nodes.Views())
                    && (nodes.enableLoadBalance ==> MostAvailable(old(nodes.Views()), node.address))
                    && !NoneLeft(old(nodes.Views()))
        decreases 1 - rounds
      {
        rounds := rounds + 1;
        node, slotReserved, port := FindAndReserve(nodes);
        if node == null {
          return;
        }
      }
    }

    /**
     A name that is free is refused exactly when no node has a slot left, whichever way nodes are searched; a
     refusal changes nothing. Success takes exactly one (node, port) pair, records that pair for the session
     and for the user, and sends its start to that node.
     */
    method TryCreateSession(user: User, sessionName: Text, nodes: VisualizationNodeManager)
      returns (result: CreationResult, node: VisualizationNode?, port: UInt32)
      requires nodes.Valid()
      modifies this, user`activeSessions
      modifies nodes.nodeList.Values`usedSlots, nodes.nodeList.Values`slotTracker, nodes.nodeList.Values`outbox
      ensures nodes.Valid()
      ensures result == DuplicateName <==> sessionName in SessionsOf(old(openSessions), user.unixUser)
      ensures result == NoAvailableNodes <==>
                sessionName !in SessionsOf(old(openSessions), user.unixUser) && NoneLeft(old(nodes.Views()))
      ensures result == CreationOk <==> node != null
      ensures node == null ==>
                && openSessions == old(openSessions) && user.activeSessions == old(user.activeSessions)
                && nodes.Views() == old(nodes.Views()) && nodes.Outboxes() == old(nodes.Outboxes())
      ensures node != null ==>
                && node.address in nodes.nodeList && node == nodes.nodeList[node.address]
                && TakesOne(old(nodes.Views()), node.address, port, nodes.Views())
                && (nodes.enableLoadBalance ==> MostAvailable(old(nodes.Views()), node.address))
      ensures node != null ==>
                && openSessions == WithSession(old(openSessions), user.unixUser, sessionName,
                     Info(sessionName, node.address, node.publicAddress, port, user.ipAddress, user.unixUser, Creating))
                && user.activeSessions == old(user.activeSessions)[sessionName := node.address]
                && nodes.Outboxes() == Pushed(old(nodes.Outboxes()), node.address, node.connected,
                     RequestStart(user.unixUser, user.ipAddress, sessionName, ToInt32(port)))
      ensures node != null ==>
                OneEntry(old(openSessions), openSessions, user.unixUser, sessionName, Some(Info(
                  sessionName, node.address, node.publicAddress, port, user.ipAddress, user.unixUser, Creating)))
    {
      if user.unixUser in openSessions && sessionName in openSessions[user.unixUser] {
        return DuplicateName, null, 0;
      }
      var rounds;
      node, port, rounds := ReserveOnSomeNode(nodes);
      if node == null {
        return NoAvailableNodes, null, 0;
      }
      RecordSession(user, sessionName, nodes, node, port);
      result := CreationOk;
    }

    /** The rest of tryCreateSession, once a slot is reserved. */
    method RecordSession(user: User, sessionName: Text, nodes: VisualizationNodeManager, node: VisualizationNode,
                         port: UInt32)
      requires nodes.Addressed() && node.address in nodes.nodeList && node == nodes.nodeList[node.address]
      modifies this, user`activeSessions, node`outbox
      ensures nodes.Views() == old(nodes.Views()) && nodes.Addressed()
      ensures openSessions == WithSession(old(openSessions), user.unixUser, sessionName,
                Info(sessionName, node.address, node.publicAddress, port, user.ipAddress, user.unixUser, Creating))
      ensures OneEntry(old(openSessions), openSessions, user.unixUser, sessionName, Some(Info(
                sessionName, node.address, node.publicAddress, port, user.ipAddress, user.unixUser, Creating)))
      ensures user.activeSessions == old(user.activeSessions)[sessionName := node.address]
      ensures nodes.Outboxes() == Pushed(old(nodes.Outboxes()), node.address, node.connected,
                RequestStart(user.unixUser, user.ipAddress, sessionName, ToInt32(port)))
    {
      var info := Info(sessionName, node.address, node.publicAddress, port, user.ipAddress, user.unixUser, Creating);
      ghost var views, outboxes := nodes.Views(), nodes.Outboxes();
      RecordInfo(info);
      SameViews(nodes, views);
      SameOutboxes(nodes, outboxes);
      nodes.SendTo(node, RequestStart(user.unixUser, user.ipAddress, sessionName, ToInt32(port)));
      outboxes := nodes.Outboxes();
      user.AddSession(sessionName, info.nodeAddress);
      SameViews(nodes, views);
      SameOutboxes(nodes, outboxes);
    }

    method RecordInfo(info: Info)
      modifies this
      ensures openSessions == WithSession(old(openSessions), info.ownerUsername, info.sessionName, info)
      ensures OneEntry(old(openSessions), openSessions, info.ownerUsername, info.sessionName, Some(info))
    {
      OneSessionMore(openSessions, info.ownerUsername, info.sessionName, info);
      if info.ownerUsername !in openSessions {
        openSessions := openSessions[info.ownerUsername := map[]];
      }
      openSessions := openSessions[info.ownerUsername := openSessions[info.ownerUsername][info.sessionName := info]];
    }

    method CreateSession(user: User, sessionName: Text, status: Int32)
      modifies this
      ensures openSessions == WithStatus(old(openSessions), user.unixUser, sessionName, StatusOf(status))
      ensures var entry := Entry(old(openSessions), user.unixUser, sessionName);
              OneEntry(old(openSessions), openSessions, user.unixUser, sessionName,
                       if entry.None? then None
                       else if status == 0 then Some(entry.value.(status := Running))
                       else Some(entry.value.(status := Crashed)))
    {
      OneStatusSet(openSessions, user.unixUser, sessionName, StatusOf(status));
      if user.unixUser in openSessions && sessionName in openSessions[user.unixUser] {
        SetStatus(user.unixUser, sessionName, if status == 0 then Running else Crashed);
      }
    }

    /** An open session is marked as closing, and its node told so if it is registered. */
    method CloseAtNode(userName: Text, sessionName: Text, nodes: VisualizationNodeManager)
      returns (contacted: VisualizationNode?)
      requires nodes.Addressed() && sessionName in SessionsOf(openSessions, userName)
      modifies this, nodes.nodeList.Values`outbox
      ensures nodes.Addressed() && nodes.Views() == old(nodes.Views())
      ensures openSessions == WithStatus(old(openSessions), userName, sessionName, Closing)
      ensures var address := old(openSessions)[userName][sessionName].nodeAddress;
              contacted == if address in nodes.nodeList then nodes.nodeList[address] else null
      ensures contacted == null ==> nodes.Outboxes() == old(nodes.Outboxes())
      ensures contacted != null ==>
                && contacted.address in nodes.nodeList
                && nodes.Outboxes() == Pushed(old(nodes.Outboxes()), contacted.address, contacted.connected,
                     RequestClose(userName, sessionName))
    {
      ghost var views, outboxes := nodes.Views(), nodes.Outboxes();
      var address := openSessions[userName][sessionName].nodeAddress;
      SetStatus(userName, sessionName, Closing);
      SameViews(nodes, views);
      SameOutboxes(nodes, outboxes);
      contacted := nodes.GetNode(address);
      if contacted != null {
        nodes.SendTo(contacted, RequestClose(userName, sessionName));
      }
    }

    /** A close request goes to the session's node; if that node is unknown the session is dropped at once. */
    method TryFinishSession(user: User, sessionName: Text, nodes: VisualizationNodeManager)
      returns (contacted: VisualizationNode?)
      requires nodes.Addressed()
      modifies this, user`activeSessions, nodes.nodeList.Values`outbox
      ensures nodes.Addressed() && nodes.Views() == old(nodes.Views())
      ensures var list := SessionsOf(old(openSessions), user.unixUser);
              contacted == if sessionName in list && list[sessionName].nodeAddress in nodes.nodeList
                           then nodes.nodeList[list[sessionName].nodeAddress] else null
      ensures contacted != null ==>
                && openSessions == WithStatus(old(openSessions), user.unixUser, sessionName, Closing)
                && user.activeSessions == old(user.activeSessions)
                && contacted.address in nodes.nodeList
                && nodes.Outboxes() == Pushed(old(nodes.Outboxes()), contacted.address, contacted.connected,
                     RequestClose(user.unixUser, sessionName))
      ensures contacted == null ==>
                && openSessions == WithoutSession(old(openSessions), user.unixUser, sessionName)
                && user.activeSessions ==
                     (if sessionName in SessionsOf(old(openSessions), user.unixUser)
                      then old(user.activeSessions) - {sessionName} else old(user.activeSessions))
                && nodes.Outboxes() == old(nodes.Outboxes())
    {
      contacted := null;
      if user.unixUser in openSessions && sessionName in openSessions[user.unixUser] {
        contacted := CloseAtNode(user.unixUser, sessionName, nodes);
        if contacted == null {
          ghost var views, outboxes := nodes.Views(), nodes.Outboxes();
          DropAfterStatus(old(openSessions), user.unixUser, sessionName, Closing);
          FinishSession(user, sessionName);
          SameViews(nodes, views);
          SameOutboxes(nodes, outboxes);
        }
      }
    }

    /** The status of a session that is open. */
    method SetStatus(userName: Text, sessionName: Text, status: SessionStatus)
      requires sessionName in SessionsOf(openSessions, userName)
      modifies this
      ensures openSessions == WithStatus(old(openSessions), userName, sessionName, status)
    {
      var info := openSessions[userName][sessionName].(status := status);
      openSessions := openSessions[userName := openSessions[userName][sessionName := info]];
    }

    method FinishSession(user: User, sessionName: Text)
      modifies this, user`activeSessions
      ensures openSessions == WithoutSession(old(openSessions), user.unixUser, sessionName)
      ensures user.activeSessions ==
                if sessionName in SessionsOf(old(openSessions), user.unixUser)
                then old(user.activeSessions) - {sessionName} else old(user.activeSessions)
    {
      if user.unixUser in openSessions {
        if sessionName in openSessions[user.unixUser] {
          openSessions := openSessions[user.unixUser := openSessions[user.unixUser] - {sessionName}];
          user.RemoveSession(sessionName);
        }
      }
    }
  }

  /** Dropping a session forgets its last status. */
  lemma DropAfterStatus(open: Book, user: Text, name: Text, status: SessionStatus)
    ensures WithoutSession(WithStatus(open, user, name, status), user, name) == WithoutSession(open, user, name)
    ensures name in SessionsOf(WithStatus(open, user, name, status), user) <==> name in SessionsOf(open, user)
  {
    if name in SessionsOf(open, user) {
      var info := open[user][name].(status := status);
      assert open[user][name := info] - {name} == open[user] - {name};
    }
  }
}
