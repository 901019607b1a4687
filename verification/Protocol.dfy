/**
 The front end and its nodes as one system. Packets in flight may be lost and reordered; a node may be
 restarted at any time, which drops both channels. A creation reserves its slot in one step and sends the
 start request in a later one.
 */
module Protocol {
  import opened Common
  import opened Ports
  import opened NodeSessions
  import N = NodeAccounting
  import opened Slots
  import opened Sessions

  datatype Reservation = Reservation(session: Text, port: UInt32)

  /**
   One node and all the front end knows of it. `attached`: the front end's view points at the node's current
   connection. `pending`: per user, the slot reserved for a start that is not sent yet.
   */
  datatype Site = Site(node: NodeState, toNode: multiset<Packet>, toFront: multiset<Packet>,
                       known: bool, attached: bool, slots: Slots, pending: map<Text, Reservation>)

  datatype Account = Account(address: Text, active: map<Text, Text>)

  datatype System = System(sites: map<Text, Site>, open: Book, accounts: map<Text, Account>)

  datatype Config = Config(publicAddress: Text, web: set<UInt16>, sock: set<UInt16>, rtc: set<UInt16>)

  datatype Step =
    | Login(user: Text, ip: Text)
    | Restart(at: Text, config: Config, listing: Listing)
    | InfoArrives(at: Text, info: Packet)
    | ReserveSlot(at: Text, user: Text, session: Text, port: UInt32)
    | SendStart(at: Text, user: Text)
    | NodeStarts(at: Text, request: Packet, choice: Choice)
    | NodeCloses(at: Text, request: Packet)
    | ProcessExits(at: Text, owner: Text, name: Text)
    | ResultArrives(at: Text, result: Packet)
    | CloseArrives(at: Text, result: Packet)
    | Destroy(user: Text, session: Text)
    | LoseToNode(at: Text, packet: Packet)
    | LoseToFront(at: Text, packet: Packet)

  const INITIAL := System(map[], map[], map[])

  /** A creation holds its user's lock from the duplicate check until its start is sent. */
  ghost predicate Locked(s: System, user: Text) {
    exists a :: a in s.sites && user in s.sites[a].pending
  }

  function StartOf(request: Packet): Request
    requires request.RequestStart?
  {
    Request(request.user, request.userAddress, request.session, ToUInt16(request.port))
  }

  // ---------- what a step does to the one site it concerns

  ghost predicate SiteEnabled(x: Site, e: Step) {
    match e
    case InfoArrives(a, info) => info.NodeInfo? && info in x.toFront
    case ReserveSlot(a, u, n, p) => x.known && u !in x.pending && CanReserve(x.slots, p)
    case SendStart(a, u) => u in x.pending
    case NodeStarts(a, r, c) => r.RequestStart? && r in x.toNode && CanChoose(x.node, c)
    case NodeCloses(a, r) => r.RequestClose? && r in x.toNode
    case ProcessExits(a, o, n) => IsLive(x.node, o, n) && x.node.sessions[o][n].running
    case ResultArrives(a, r) => r.StartResult? && r in x.toFront
    case CloseArrives(a, r) => r.CloseResult? && r in x.toFront
    case LoseToNode(a, p) => p in x.toNode
    case LoseToFront(a, p) => p in x.toFront
    case _ => true
  }

  ghost function SiteAfter(x: Site, e: Step, ip: Text): Site
    requires SiteEnabled(x, e)
  {
    match e
    case InfoArrives(a, info) =>
      x.(toFront := x.toFront - multiset{info}, known := true, attached := true,
         slots := Refresh(x.slots, info.publicAddress, info.slots))
    case ReserveSlot(a, u, n, p) =>
      x.(slots := Reserve(x.slots, p), pending := x.pending[u := Reservation(n, p)])
    case SendStart(a, u) =>
      var r := x.pending[u];
      x.(pending := x.pending - {u},
         toNode := if x.attached then x.toNode + multiset{RequestStart(u, ip, r.session, ToInt32(r.port))}
                   else x.toNode)
    case NodeStarts(a, r, c) =>
      x.(node := Start(x.node, StartOf(r), c), toNode := x.toNode - multiset{r},
         toFront := x.toFront + multiset{StartResult(r.user, r.session, StartStatus(x.node, StartOf(r), c))})
    case NodeCloses(a, r) =>
      x.(node := Finish(x.node, r.user), toNode := x.toNode - multiset{r},
         toFront := x.toFront + multiset{CloseResult(r.user, r.session, 0)})
    case ProcessExits(a, o, n) => x.(node := Clear(x.node, x.node.sessions[o][n]))
    case ResultArrives(a, r) => x.(toFront := x.toFront - multiset{r})
    case CloseArrives(a, r) => x.(toFront := x.toFront - multiset{r})
    case Destroy(u, n) => if x.attached then x.(toNode := x.toNode + multiset{RequestClose(u, n)}) else x
    case LoseToNode(a, p) => x.(toNode := x.toNode - multiset{p})
    case LoseToFront(a, p) => x.(toFront := x.toFront - multiset{p})
    case _ => x
  }

  /** The old process is gone with its channels; the front end keeps its view until the NodeInfo arrives. */
  ghost function Restarted(s: System, at: Text, c: Config, l: Listing): Site {
    var node := FreshNode(c.web, c.sock, c.rtc);
    var info := multiset{NodeInfo(c.publicAddress, l)};
    if at in s.sites then s.sites[at].(node := node, toNode := multiset{}, toFront := info, attached := false)
    else Site(node, multiset{}, info, false, false, NO_SLOTS, map[])
  }

  // ---------- steps of the whole system

  /** The node a destroy request is sent to, if the session is open and its node is known. */
  function CloseTarget(s: System, user: Text, session: Text): Option<Text> {
    var list := SessionsOf(s.open, user);
    if session in list && list[session].nodeAddress in s.sites && s.sites[list[session].nodeAddress].known
    then Some(list[session].nodeAddress) else None
  }

  ghost predicate Enabled(s: System, e: Step) {
    match e
    case Login(u, ip) => u in s.accounts ==> s.accounts[u].address == ip
    case Restart(a, c, l) => Enumerates(l, Unused(c.web))
    case Destroy(u, n) => u in s.accounts && !Locked(s, u)
    case ReserveSlot(a, u, n, p) =>
      a in s.sites && SiteEnabled(s.sites[a], e) && u in s.accounts && !Locked(s, u) && n !in SessionsOf(s.open, u)
    case SendStart(a, u) => a in s.sites && SiteEnabled(s.sites[a], e) && u in s.accounts
    case ResultArrives(a, r) => a in s.sites && SiteEnabled(s.sites[a], e) && !Locked(s, r.user)
    case _ => e.at in s.sites && SiteEnabled(s.sites[e.at], e)
  }

  /** The one site a step concerns; a restart sets up its site anew. */
  ghost function Touched(s: System, e: Step): Option<Text> {
    match e
    case Login(u, ip) => None
    case Destroy(u, n) => CloseTarget(s, u, n)
    case _ => Some(e.at)
  }

  ghost function SitesAfter(s: System, e: Step): map<Text, Site>
    requires Enabled(s, e)
  {
    if e.Restart? then s.sites[e.at := Restarted(s, e.at, e.config, e.listing)]
    else if Touched(s, e).None? then s.sites
    else
      var a := Touched(s, e).value;
      s.sites[a := SiteAfter(s.sites[a], e, if e.SendStart? then s.accounts[e.user].address else [])]
  }

  /** The session and its place in the user's index go together. */
  ghost predicate Drops(s: System, e: Step) {
    match e
    case CloseArrives(a, r) => r.CloseResult? && r.user in s.accounts && r.session in SessionsOf(s.open, r.user)
    case Destroy(u, n) => u in s.accounts && n in SessionsOf(s.open, u) && CloseTarget(s, u, n).None?
    case _ => false
  }

  ghost function NewInfo(s: System, at: Text, user: Text): Info
    requires at in s.sites && user in s.sites[at].pending && user in s.accounts
  {
    var r := s.sites[at].pending[user];
    Info(r.session, at, s.sites[at].slots.publicAddress, r.port, s.accounts[user].address, user, Creating)
  }

  ghost function OpenAfter(s: System, e: Step): Book
    requires Enabled(s, e)
  {
    match e
    case SendStart(a, u) => WithSession(s.open, u, s.sites[a].pending[u].session, NewInfo(s, a, u))
    case ResultArrives(a, r) =>
      if r.user in s.accounts then WithStatus(s.open, r.user, r.session, StatusOf(r.status)) else s.open
    case CloseArrives(a, r) => if Drops(s, e) then WithoutSession(s.open, r.user, r.session) else s.open
    case Destroy(u, n) =>
      if Drops(s, e) then WithoutSession(s.open, u, n) else WithStatus(s.open, u, n, Closing)
    case _ => s.open
  }

  ghost function AccountsAfter(s: System, e: Step): map<Text, Account>
    requires Enabled(s, e)
  {
    match e
    case Login(u, ip) => if u in s.accounts then s.accounts else s.accounts[u := Account(ip, map[])]
    case SendStart(a, u) =>
      s.accounts[u := s.accounts[u].(active := s.accounts[u].active[s.sites[a].pending[u].session := a])]
    case CloseArrives(a, r) =>
      if Drops(s, e) then s.accounts[r.user := s.accounts[r.user].(active := s.accounts[r.user].active - {r.session})]
      else s.accounts
    case Destroy(u, n) =>
      if Drops(s, e) then s.accounts[u := s.accounts[u].(active := s.accounts[u].active - {n})] else s.accounts
    case _ => s.accounts
  }

  ghost function After(s: System, e: Step): System
    requires Enabled(s, e)
  {
    System(SitesAfter(s, e), OpenAfter(s, e), AccountsAfter(s, e))
  }

  // ---------- runs

  ghost predicate Run(s: System, es: seq<Step>)
    decreases |es|
  {
    es == [] || (Enabled(s, es[0]) && Run(After(s, es[0]), es[1..]))
  }

  ghost function Final(s: System, es: seq<Step>): System
    requires Run(s, es)
    decreases |es|
  {
    if es == [] then s else Final(After(s, es[0]), es[1..])
  }
}
