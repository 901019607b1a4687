/** The sessions of one visualization node and the ports they hold (SessionManager). */
module NodeSessions {
  import opened Common
  import opened Ports

  /** `running`: the child process was started, so its end will one day clear the session. */
  datatype Session = Session(name: Text, owner: Text, ownerAddress: Text,
                             web: UInt16, sock: UInt16, rtc: UInt16, running: bool)

  datatype NodeState = NodeState(web: PortTable, sock: PortTable, rtc: PortTable,
                                 sessions: map<Text, map<Text, Session>>)

  /** The three port lists of a node. */
  datatype Kind = Web | Sock | Rtc

  function Table(s: NodeState, k: Kind): PortTable {
    match k case Web => s.web case Sock => s.sock case Rtc => s.rtc
  }

  function PortOf(x: Session, k: Kind): UInt16 {
    match k case Web => x.web case Sock => x.sock case Rtc => x.rtc
  }

  predicate IsLive(s: NodeState, owner: Text, name: Text) {
    owner in s.sessions && name in s.sessions[owner]
  }

  /** operator[] on the outer map: an absent owner gets an empty list. */
  function ListOf(s: NodeState, owner: Text): map<Text, Session> {
    if owner in s.sessions then s.sessions[owner] else map[]
  }

  /** A node that has just started with these port lists. */
  function FreshNode(web: set<UInt16>, sock: set<UInt16>, rtc: set<UInt16>): NodeState {
    NodeState(Unused(web), Unused(sock), Unused(rtc), map[])
  }

  datatype Request = Request(owner: Text, ownerAddress: Text, name: Text, port: UInt16)

  /** What a start does not decide itself: the ports its two searches meet, and whether the thread starts. */
  datatype Choice = Choice(sock: UInt16, rtc: UInt16, launched: bool)

  ghost predicate CanChoose(s: NodeState, c: Choice) {
    CanClaim(s.sock, c.sock) && CanClaim(s.rtc, c.rtc)
  }

  ghost predicate Refused(s: NodeState, r: Request, c: Choice) {
    r.port !in s.web || s.web[r.port] || c.sock == 0 || c.rtc == 0
  }

  ghost predicate Duplicate(s: NodeState, r: Request) {
    IsLive(s, r.owner, r.name)
  }

  ghost function StartStatus(s: NodeState, r: Request, c: Choice): Int32 {
    if Refused(s, r, c) then LAUNCH_PORT_UNAVAILABLE
    else if Duplicate(s, r) then LAUNCH_DUPLICATE_NAME
    else if c.launched then LAUNCH_OK
    else LAUNCH_CRASHED
  }

  ghost function NewSession(r: Request, c: Choice): Session {
    Session(r.name, r.owner, r.ownerAddress, r.port, c.sock, c.rtc, c.launched)
  }

  /** The state a start request leaves behind. No failing path gives a port back. */
  ghost function Start(s: NodeState, r: Request, c: Choice): NodeState {
    var s1 := s.(sock := Claim(s.sock, c.sock), rtc := Claim(s.rtc, c.rtc));
    if Refused(s, r, c) then s1
    else
      var s2 := s1.(web := s.web[r.port := true]);
      var list := ListOf(s, r.owner);
      if Duplicate(s, r) then s2
      else s2.(sessions := s.sessions[r.owner := list[r.name := NewSession(r, c)]])
  }

  /** A close request only signals the process; the owner's list is created if it was absent. */
  function Finish(s: NodeState, owner: Text): NodeState {
    s.(sessions := s.sessions[owner := ListOf(s, owner)])
  }

  /** The state once the process of session `x` has ended. */
  function Clear(s: NodeState, x: Session): NodeState {
    NodeState(s.web[x.web := false], s.sock[x.sock := false], s.rtc[x.rtc := false],
              s.sessions[x.owner := ListOf(s, x.owner) - {x.name}])
  }

  /** The start opened this session, with or without a process. */
  ghost predicate Opens(s: NodeState, t: NodeState, owner: Text, name: Text, running: bool) {
    !IsLive(s, owner, name) && IsLive(t, owner, name) && t.sessions[owner][name].running == running
  }

  /** What the code of an answer tells of the states before and after a start. */
  ghost predicate Tells(s: NodeState, t: NodeState, owner: Text, name: Text, code: Int32) {
    && 0 <= code <= 3
    && (code == 0 <==> Opens(s, t, owner, name, true))
    && (code == 1 <==> t.sessions == s.sessions && t.web != s.web)
    && (code == 2 <==> t.web == s.web)
    && (code == 3 <==> Opens(s, t, owner, name, false))
  }

  lemma StatusTells(s: NodeState, r: Request, c: Choice)
    ensures Tells(s, Start(s, r, c), r.owner, r.name, StartStatus(s, r, c))
  {
    if !Refused(s, r, c) {
      assert Start(s, r, c).web[r.port] != s.web[r.port];
      if !Duplicate(s, r) {
        assert IsLive(Start(s, r, c), r.owner, r.name);
      }
    }
  }

  /**
   A session that a start opens has the name, owner, address and web port of the request, and the socket and RTC port
   found; all three ports were free and are used afterwards, and every other session stays as it was.
   */
  lemma OpenedAsAsked(s: NodeState, r: Request, c: Choice)
    requires CanChoose(s, c) && !IsLive(s, r.owner, r.name) && IsLive(Start(s, r, c), r.owner, r.name)
    ensures var t := Start(s, r, c); var x := t.sessions[r.owner][r.name];
            && x.name == r.name && x.owner == r.owner && x.ownerAddress == r.ownerAddress
            && x.web == r.port && x.sock == c.sock && x.rtc == c.rtc && x.running == c.launched
            && x.web in Free(s.web) && x.sock in Free(s.sock) && x.rtc in Free(s.rtc)
            && t.web == s.web[x.web := true] && t.sock == s.sock[x.sock := true] && t.rtc == s.rtc[x.rtc := true]
            && forall o, n :: (o != r.owner || n != r.name) ==>
                 && (IsLive(t, o, n) <==> IsLive(s, o, n))
                 && (IsLive(s, o, n) ==> t.sessions[o][n] == s.sessions[o][n])
  {
  }

  class SessionManager {
    var usedPorts: PortTable
    var usedSockPorts: PortTable
    var usedRtcPorts: PortTable
    var streamSessions: map<Text, map<Text, Session>>
    // results pushed to the front end's connection
    var results: seq<Packet>
    // owner and name of every session whose process was told to finish
    var signals: seq<(Text, Text)>

    ghost function State(): NodeState
      reads this
    {
      NodeState(usedPorts, usedSockPorts, usedRtcPorts, streamSessions)
    }

    constructor (web: set<UInt16>, sock: set<UInt16>, rtc: set<UInt16>)
      ensures State() == FreshNode(web, sock, rtc) && results == [] && signals == []
    {
      usedPorts, usedSockPorts, usedRtcPorts := Unused(web), Unused(sock), Unused(rtc);
      streamSessions, results, signals := map[], [], [];
    }

    /** `launched` stands for the outcome of tryLaunchSession. */
    method StartNewSession(ownerName: Text, ownerAddress: Text, sessionName: Text, port: UInt16, launched: bool)
      returns (ghost c: Choice)
      modifies this
      ensures CanChoose(old(State()), c) && c.launched == launched
      ensures State() == Start(old(State()), Request(ownerName, ownerAddress, sessionName, port), c)
      ensures results == old(results) + [StartResult(ownerName, sessionName,
                         StartStatus(old(State()), Request(ownerName, ownerAddress, sessionName, port), c))]
      ensures signals == old(signals)
    {
      ghost var s, r := State(), Request(ownerName, ownerAddress, sessionName, port);
      var sockPort, rtcPort, status;
      sockPort, usedSockPorts := FindAvailablePort(usedSockPorts);
      rtcPort, usedRtcPorts := FindAvailablePort(usedRtcPorts);
      c := Choice(sockPort, rtcPort, launched);

      if port !in usedPorts || usedPorts[port] || sockPort == 0 || rtcPort == 0 {
        status := LAUNCH_PORT_UNAVAILABLE;
      } else {
        usedPorts := usedPorts[port := true];
        if ownerName !in streamSessions {
          streamSessions := streamSessions[ownerName := map[]];
        }
        if sessionName in streamSessions[ownerName] {
          status := LAUNCH_DUPLICATE_NAME;
          assert Duplicate(s, r) && streamSessions == s.sessions;
        } else {
          var session := Session(sessionName, ownerName, ownerAddress, port, sockPort, rtcPort, launched);
          streamSessions := streamSessions[ownerName := streamSessions[ownerName][sessionName := session]];
          status := if launched then LAUNCH_OK else LAUNCH_CRASHED;
          assert !Duplicate(s, r);
          assert streamSessions == s.sessions[ownerName := ListOf(s, ownerName)[sessionName := session]];
        }
      }
      results := results + [StartResult(ownerName, sessionName, status)];
    }

    /** The finish packet goes to the session's process, if the session exists. */
    method FinishSession(ownerName: Text, sessionName: Text)
      modifies this
      ensures State() == Finish(old(State()), ownerName) && results == old(results) && ownerName in streamSessions
      ensures signals == old(signals) + if IsLive(old(State()), ownerName, sessionName) then [(ownerName, sessionName)]
                                        else []
    {
      if ownerName !in streamSessions {
        streamSessions := streamSessions[ownerName := map[]];
      }
      if sessionName in streamSessions[ownerName] {
        signals := signals + [(ownerName, sessionName)];
      }
    }

    method ClearSession(session: Session)
      modifies this
      ensures State() == Clear(old(State()), session) && results == old(results) && signals == old(signals)
    {
      usedPorts := usedPorts[session.web := false];
      usedSockPorts := usedSockPorts[session.sock := false];
      usedRtcPorts := usedRtcPorts[session.rtc := false];
      if session.owner !in streamSessions {
        streamSessions := streamSessions[session.owner := map[]];
      }
      if session.name in streamSessions[session.owner] {
        streamSessions := streamSessions[session.owner := streamSessions[session.owner] - {session.name}];
      }
      assert session.name !in ListOf(old(State()), session.owner) ==>
          ListOf(old(State()), session.owner) - {session.name} == ListOf(old(State()), session.owner);
    }
  }
}
