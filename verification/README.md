# ReMoLON: session allocation, wire format and worker pool

ReMoLON hands out remote streaming sessions. A front end keeps, for every visualization node, a tracker of the
node's web ports and two slot counters; a user's request reserves one (node, port) pair and sends a start request
to the node, which takes two more ports of its own and launches the session. Packets travel over a small binary
protocol and are executed by a pool of workers. This project models those three parts and proves what they keep.

## What is modelled

**Session and port allocation.** `NodeSessions` is the node's session manager (three port tables and the map of
sessions), `Slots` and `Nodes` are the front end's view of a node and its registry of nodes, `Sessions` is the session
tracker and the users' own index. Each is a class whose methods are proved against a specification function on the
abstract state (`Start`, `Clear`, `Reserve`, `Refresh`, `WithSession`, ...). `NodeAccounting` proves port exclusivity
and the exact accounting of lost ports over all lifetimes of a node, `NodeAnswers` what its answers say. `LoadBalance`
lets creations interleave between finding a node and reserving a slot. `Protocol` joins the front end and all nodes
through in-flight packets that may be lost and reordered; it uses the same specification functions as the classes. A
node may restart at any moment with any configuration. `Handlers` runs the packet actions and the users' requests on the
objects and proves that each makes exactly its step of `Protocol`: what the objects hold afterwards, and which packets
they pushed to a connection that is up. `ProtocolSafety` proves what every step and run keeps, `ProtocolPromise` when
the tracker can be trusted, `ProtocolLists` what remains of that for nodes whose web lists do not shrink,
`ProtocolRefusals` when a start is refused for want of a port, `ProtocolSlots` how many creations one start of a node is
good for, `ProtocolIndex` that each user's index agrees with the open sessions, `ProtocolRecords` that the record of a
session and the packets in flight are what users' requests and nodes' answers made them, and `ProtocolLimits` gives
concrete runs in which the promise fails.

**Wire format.** `Bytes` holds the little-endian integers and strings, `ByteBuffer` the buffer class over an array with
its two cursors, `Codec` the six packet classes that cross the wire in both directions, `WireFormat` their bytes,
`Packets` the sending side (`writeImpl`, `writePacket`), `PacketHandler` the receiving side (`readImpl`,
`handlePacket`), `Wire` the connection queue and the two loops of the selector thread. `Arrivals` is the arithmetic of
receiving: lengths of frames and sizes of receives. `Streams` shows that it tells exactly what a parser does with frames
in pieces, for any parser that delivers whole frames and waits for partial ones; `Framing` shows that `handlePacket` is
such a parser. `NodeInfoExchange` follows a node's port table through the buffers into the tracker.

**Worker pool.** `ThreadPool` is the pool class; `ThreadPoolRuns` is the transition system of all interleavings of
submissions and workers, with the history of accepted, started and completed tasks. `ThreadPoolPurge` says which workers
a purge leaves, `ThreadPoolCounter` when the pool's counter of workers is right.

## What the proofs found

* The tracker can offer a port that the node cannot give. Its promise is that each port on offer is vacant at its node
  and in no start in flight, and each start in flight names an existing unused port of its own, in the present state and
  however the starts already reserved are then sent. `ProtocolPromise.RunExact`: the promise holds in every state of a
  run if and only if every step is clean, which a caller can check beforehand: no NodeInfo arrives while a creation holds
  a reservation whose start is not sent, and a restarted node still has every web port that is on offer for it. The part
  about the present state alone survives every NodeInfo (`ProtocolSafety.InfoKeepsHonest`), also one in the wrong
  moment; it fails when the overtaken start is sent.
* If every node always restarts with its own web list, the second condition is met by itself
  (`ProtocolLists.RunExactFixedLists`).
* A start is answered SESSION_LAUNCH_PORT_UNAVAILABLE in some step of a run of well configured nodes if and only if some
  delivered start names a web port that its node lacks or already uses; the other two lists never run out first, because
  the three tables stay level until the first such answer (`ProtocolRefusals.RefusalsExact`). In clean runs it never
  happens. `ProtocolLimits` gives two runs from the initial state, one for each way of not being clean, that break the
  promise and end in such an answer.
* The configuration file asks for three lists with the same number of items. The weaker `GoodConfig` is enough: the web
  list is not longer than the other two, and port 0 is in neither of those.
* A start that fails with a duplicate name loses one port of each kind for the rest of the node's lifetime; so does a
  start whose launch crashes, since its entry stays in the list with no process whose end could clear it; one that is
  refused loses the socket and the RTC port it had found. Used ports are exactly one of each kind for each session with
  a process, plus these.
* The retry counter of `tryCreateSession` never moves. The loop still ends: without interference after one round, with
  interference after at most one round more than the slots available at entry plus those that NodeInfos add meanwhile.
* A buffer needs strict room for every field and drops a field that has none without saying so. A packet survives the
  wire exactly when the sending buffer has strict room for its whole frame. A NodeInfo whose address and count have
  room is read without an exception if and only if the bytes behind it in the receiving buffer make up for the entries
  that had none; otherwise a new node is left with more slots on offer than it has free ports on record.
* One receive delivers at most one packet. Of packets in any pieces all are delivered if and only if no receive leaves
  one or two bytes of a header unread, and each frame is whole when as many receives are still to come as there are
  frames behind it (`Framing.AllArrive`); of packets received together only the first is delivered. A receive that cuts a
  header in two makes the handler throw, and nothing else does (`Framing.ArrivalsExact`).
* Nothing gives a slot back when a session ends. From a node's NodeInfo until it restarts the creations there and the
  slots still available are together as many as its web ports (`ProtocolSlots.SlotsOfOneStart`).
* The answer to a start tells exactly what happened to the session it names (`NodeSessions.StatusTells`); over a lifetime
  the starts answered 0 are the sessions with a process and the processes that have ended
  (`NodeAnswers.AnswersBalance`).
* Releasing a port gives its tracker entry back, but not its slot (`Slots.ReserveThenRelease`).
* A purge counts an idle worker off again if it was dismissed before and has not ended, as when its task takes longer
  than the idle time. The counter is the number of workers still wanted if and only if no submission has done that
  (`ThreadPoolCounter.CounterExact`); `ThreadPoolCounter.CountedOffTwice` is a run in which it happens. The workers still
  wanted are never fewer than the counter.

Steps of the transition systems are as atomic as the locks of the code make them; the update of a node's view by a
NodeInfo counts as one step of `Protocol`, and finding and reserving are two steps.

## Model

| member | source | states |
|---|---|---|
| Ports.FindAvailablePort | ReMoLON/src/SessionManager.cpp:57-70 | answers some port that was free and marks it alone, or answers 0 and changes nothing when no port is free, in whatever order the table is visited |
| NodeSessions.SessionManager.StartNewSession | ReMoLON/src/SessionManager.cpp:72-138 | the whole new state and the one result sent, for every path: refused, duplicate name, launched, crashed; both searches have claimed their ports even when the start is refused |
| NodeSessions.SessionManager.FinishSession | ReMoLON/src/SessionManager.cpp:140-157 | signals the session of exactly this owner and name, if it is live, and no other; frees nothing, and leaves an empty list for an unknown owner |
| NodeSessions.SessionManager.ClearSession | ReMoLON/src/SessionManager.cpp:159-177 | frees the three ports of the session and removes that session only |
| NodeSessions.StatusTells | ReMoLON/src/SessionManager.cpp:84-138 | what the code of an answer tells of the states before and after: 0 iff this session was opened with a process, 3 iff it was opened without one, 1 iff the web port was taken and no session opened, 2 iff the web table is unchanged |
| NodeSessions.OpenedAsAsked | ReMoLON/src/SessionManager.cpp:115-121 | an opened session has the name, owner, address and web port of the request and the two ports found; all three were free and are now used, and every other session is unchanged |
| NodeAccounting.EventKeepsInv | ReMoLON/src/SessionManager.cpp:72-177 | every start, close and process exit keeps port exclusivity: distinct live sessions hold different ports in each table, every held port is marked used, owner and name equal the map keys |
| NodeAccounting.EventStrands | ReMoLON/src/SessionManager.cpp:84-138 | the used ports that no session with a process holds grow by exactly the ports a refused, duplicate or crashed start took, which were free before, and by nothing else |
| NodeAccounting.RunAccounting | ReMoLON/src/SessionManager.cpp:57-177 | over any sequence of events stranded ports stay used and never come back, and grow by one for each refused, duplicate or crashed start that takes one; the sessions with a process hold one port each |
| NodeAccounting.LifetimeAccounting | ReMoLON/src/SessionManager.cpp:57-177 | from a fresh node: used ports = sessions with a process + lost ports, in each of the three tables |
| NodeAccounting.CrashedIsForEver | ReMoLON/src/SessionManager.cpp:122-138 | the three ports of a session whose launch crashed stay used whatever happens later |
| NodeAnswers.AnswerCounts | ReMoLON/src/SessionManager.cpp:84-138 | a start is answered 0 if and only if one session more has a process, and 3 if and only if one more has none |
| NodeAnswers.AnswersBalance | ReMoLON/src/SessionManager.cpp:72-177 | over a node's lifetime: starts answered 0 = sessions with a process + processes ended; starts answered 3 = sessions in the list without a process |
| Slots.VisualizationNode.TryReserveSlot | ReMoLON_FrontEnd/src/VisualizationNode.cpp:74-94 | success takes one free port and counts it; failure changes nothing and means no slot is available or no port is free |
| Slots.VisualizationNode.ReleaseSlot | ReMoLON_FrontEnd/src/VisualizationNode.cpp:96-108 | frees a tracked port but leaves the counter of used slots as it is |
| Slots.ReleaseFrees | ReMoLON_FrontEnd/src/VisualizationNode.cpp:96-108 | the free ports gain exactly a tracked port, while a slot is used; availability never changes |
| Slots.ReserveThenRelease | ReMoLON_FrontEnd/src/VisualizationNode.cpp:74-108 | releasing a reserved port restores the tracker, but the slot stays counted as used |
| Slots.VisualizationNode.SendPacket | ReMoLON_FrontEnd/src/VisualizationNode.cpp:116-122 | a packet for a node without a connection vanishes |
| Slots.ReserveKeepsInv | ReMoLON_FrontEnd/src/VisualizationNode.cpp:74-94 | a reservation keeps the slot invariant and lowers the available count by exactly one, without wrapping |
| Slots.RefreshKeepsInv | ReMoLON_FrontEnd/src/clientpackets/NodeInfo.cpp:35-60 | any list of distinct ports re-establishes the invariant, whatever the tracker held; as many slots are available as free ports are listed |
| Slots.RefreshSynchronises | ReMoLON_FrontEnd/src/clientpackets/NodeInfo.cpp:35-60 | after a list that enumerates a node's table the tracker agrees with it on every port, other entries are kept, and availability equals the number of unused ports |
| Slots.SlotsRunSafe | ReMoLON_FrontEnd/src/VisualizationNode.cpp:59-114 | in every sequence of reserves, releases and refreshes the unsigned subtraction never wraps and a positive count has a free port behind it |
| Nodes.VisualizationNodeManager.RegisterOrGetNode | ReMoLON_FrontEnd/src/VisualizationNodeManager.cpp:41-57 | a known node keeps its slots and gets the new connection, an unknown one is added empty; no other entry changes |
| Nodes.VisualizationNodeManager.FindBest | ReMoLON_FrontEnd/src/VisualizationNodeManager.cpp:84-102 | none exactly when every node reports 0 available, otherwise a registered node with the maximum |
| Nodes.VisualizationNodeManager.Find | ReMoLON_FrontEnd/src/VisualizationNodeManager.cpp:104-118 | none exactly when every node reports 0 available, otherwise some node that reports more |
| Nodes.VisualizationNodeManager.FindBestNode | ReMoLON_FrontEnd/src/VisualizationNodeManager.cpp:70-82 | whether a node is found does not depend on the load-balance flag; with the flag it has the maximum |
| Sessions.SessionTracker.ReserveOnSomeNode | ReMoLON_FrontEnd/src/SessionTracker.cpp:55-80 | without interference the loop body runs exactly once; it fails exactly when every node reports 0, else one (node, port) pair goes from free to used and no other view changes |
| Sessions.SessionTracker.TryCreateSession | ReMoLON_FrontEnd/src/SessionTracker.cpp:37-107 | duplicate and no-node answers exactly characterised; failure changes nothing; success takes one slot, sends a start to that node only, and leaves an entry with the reserved port, the node's two addresses, the user and status creating, with every other entry unchanged |
| Sessions.SessionTracker.CreateSession | ReMoLON_FrontEnd/src/SessionTracker.cpp:109-118 | a result makes an open session running if its code is 0 and crashed otherwise, and touches nothing else; a result for an unknown session changes nothing |
| Sessions.SessionTracker.TryFinishSession | ReMoLON_FrontEnd/src/SessionTracker.cpp:120-145 | a close request goes to the session's node if it is registered, otherwise the session leaves the record and the user's index together |
| Sessions.SessionTracker.FinishSession | ReMoLON_FrontEnd/src/SessionTracker.cpp:147-160 | an open session leaves the record and the user's index together; an unknown one changes neither |
| Handlers.ExecuteStart | ReMoLON/src/frontendserverpackets/RequestStartStreamingSession.cpp:42-48 | running a delivered start is the start step of the protocol; the one answer names the packet's session and its code tells what happened; a session opened has the packet's address and port |
| Handlers.ExecuteClose | ReMoLON/src/frontendserverpackets/RequestCloseUserSession.cpp:42-54 | running a delivered close is the close step: exactly the session the packet names is signalled, if it is live, and the one answer names it, before the process has ended and with no port freed |
| Handlers.ProcessEnds | ReMoLON/src/SessionManager.cpp:159-177 | clearing a session is the exit step of the protocol and sends nothing |
| Handlers.ExecuteStartResult | ReMoLON_FrontEnd/src/clientpackets/StartStreamingSessionResult.cpp:42-51 | a start result for a known or unknown user takes the tracker from a protocol state to the next |
| Handlers.ExecuteCloseResult | ReMoLON_FrontEnd/src/clientpackets/CloseSessionResult.cpp:42-49 | a close result takes tracker and user index together from a protocol state to the next |
| Handlers.ExecuteNodeInfo | ReMoLON_FrontEnd/src/clientpackets/NodeInfo.cpp:35-60 | reading the bytes of a NodeInfo in flight (of a size the 16-bit length field can hold) takes the registry, with every node's view and connection, from a protocol state to the one after its arrival, and consumes exactly that packet |
| Handlers.Create | ReMoLON_FrontEnd/src/SessionTracker.cpp:37-107 | a creation nobody interrupts makes the reserve and the send step of the protocol in a row on tracker, users and nodes, or no step at all; what it pushed to connections that are up is what those steps put on its way to the nodes |
| Handlers.Destroy | ReMoLON_FrontEnd/src/SessionTracker.cpp:120-145 | a destroy request is the destroy step of the protocol on tracker, users and nodes, and pushes exactly the packets of that step |
| LoadBalance.MoveKeepsPaid | ReMoLON_FrontEnd/src/SessionTracker.cpp:59-74 | in every interleaving of creations and NodeInfo refreshes each round that came to nothing is paid for by a slot that another creation took or a refresh removed |
| LoadBalance.RetryBound | ReMoLON_FrontEnd/src/SessionTracker.cpp:59-74 | in every interleaving a creation looks for a node at most 1 + (slots available at its entry) + (slots that refreshes added since) times, all counted from the moves themselves, although the attempt counter never advances |
| LoadBalance.RetryBoundUnrefreshed | ReMoLON_FrontEnd/src/SessionTracker.cpp:59-74 | when no NodeInfo comes in between: at most 1 + (slots available at its entry) times |
| LoadBalance.SpreadStaysSmall | ReMoLON_FrontEnd/src/VisualizationNodeManager.cpp:84-102 | over any run of creations through findBest the spread never exceeds max(initial spread, 1), and slots taken = sessions created |
| ProtocolSlots.SlotsConserved | ReMoLON_FrontEnd/src/VisualizationNode.cpp:74-108 | over any run in which no NodeInfo of a node arrives: slots available at the end + creations that reserved there = slots available at the start, however many sessions end |
| ProtocolSlots.SlotsUsedUp | ReMoLON_FrontEnd/src/VisualizationNode.cpp:74-108 | the same for a node that has reported itself, over any run in which it does not restart |
| ProtocolSlots.SlotsOfOneStart | ReMoLON_FrontEnd/src/clientpackets/NodeInfo.cpp:35-60 | from a NodeInfo until the node restarts: slots available + creations there = number of the node's web ports |
| ProtocolSafety.SiteStepKeepsInv | ReMoLON_FrontEnd/src/VisualizationNode.cpp:74-114 | every step keeps, at every node, port exclusivity, the slot invariant, and a NodeInfo that tells the table of a node still unattached |
| ProtocolSafety.InfoTruth | ReMoLON_FrontEnd/src/clientpackets/NodeInfo.cpp:35-60 | a NodeInfo keeps the tracker truthful, reserved and unsent starts included, if and only if there is no such start at that node |
| ProtocolSafety.InfoKeepsHonest | ReMoLON_FrontEnd/src/clientpackets/NodeInfo.cpp:35-60 | what the tracker promises about the offers and the starts in flight at present survives every NodeInfo, also one that overtakes a creation |
| ProtocolPromise.TruthfulMeans | ReMoLON_FrontEnd/src/SessionTracker.cpp:66-102 | the clauses about reserved starts hold exactly when every port on offer is vacant and in no start in flight, and every start in flight names an existing unused port of its own, now and however the reserved starts are then sent |
| ProtocolPromise.StepPromise | ReMoLON_FrontEnd/src/SessionTracker.cpp:55-102 | from a state in which that promise holds, a step keeps it if and only if the step is clean |
| ProtocolPromise.RunExact | ReMoLON/src/SessionManager.cpp:84-99 | in every run with lossy, reordering channels: the promise holds in all states, if and only if all steps are clean |
| ProtocolLists.RunExactKeepingLists | ReMoLON/src/SessionManager.cpp:57-70 | when no restart drops a web port, the promise holds throughout if and only if no NodeInfo comes between a reservation at its node and the sending of the start |
| ProtocolLists.RunExactFixedLists | ReMoLON_FrontEnd/src/VisualizationNodeManager.cpp:41-57 | the same condition when each address always restarts with its own web list |
| ProtocolSafety.RunInv | ReMoLON/src/SessionManager.cpp:57-177 | port exclusivity at every node and the slot invariant at the front end hold in every run, clean or not |
| ProtocolRefusals.RefusalsExact | ReMoLON/src/SessionManager.cpp:84-99 | in every run of well configured nodes, clean or not: no start is answered SESSION_LAUNCH_PORT_UNAVAILABLE if and only if every delivered start names a web port its node has and does not use; without such an answer the three tables of every node end with equally many used ports |
| ProtocolRefusals.NeverRefused | ReMoLON/src/SessionManager.cpp:89-138 | in clean runs of well configured nodes no start is answered so, also after duplicate names and crashes have stranded ports |
| ProtocolIndex.StepKeepsIndex | ReMoLON_FrontEnd/src/User.cpp:75-88 | create, result, destroy and close-result steps keep each user's index equal to the open sessions with their nodes |
| ProtocolIndex.RunKeepsIndex | ReMoLON_FrontEnd/src/SessionTracker.cpp:82-160 | the same after every sequence of steps, with losses and restarts |
| ProtocolRecords.StepEntry | ReMoLON_FrontEnd/src/SessionTracker.cpp:82-160 | what each step does to the entry of any session: created with all these values, running or crashed by the code of the answer, closing, removed, or unchanged |
| ProtocolRecords.RecordsAreTrue | ReMoLON_FrontEnd/src/SessionTracker.cpp:82-94 | in every run each open session is recorded with the node and the port that its last creation reserved, and with its user's address |
| ProtocolRecords.PacketsWereAskedFor | ReMoLON_FrontEnd/src/SessionTracker.cpp:96-141 | in every run a start in flight is one its user's creation reserved at that node, port and address included, and a close in flight is for a session its user asked to end |
| ProtocolRecords.AnswersWereAskedFor | ReMoLON/src/SessionManager.cpp:89-138 | in every run an answer in flight names a session that was started at this node, or that its user asked to end |
| ProtocolLimits.MovedPortBreaksPromise | ReMoLON_FrontEnd/src/VisualizationNode.cpp:110-114 | a run of well configured nodes that breaks the promise: a node comes back with another web list, the old port stays on offer, and a creation that gets it is refused |
| ProtocolLimits.OvertakingBreaksPromise | ReMoLON_FrontEnd/src/SessionTracker.cpp:66-102 | a run with unchanged lists that breaks the promise: a NodeInfo overtakes a creation between its reservation and its start, the start sent is for a port on offer, and the next creation to get the port is refused |
| ProtocolLimits.UntrueOfferIsRefused | ReMoLON/src/SessionManager.cpp:89-99 | whatever the state: when an attached node's tracker offers a port that is not vacant there, reserving it leads in three steps to a refused start |
| ThreadPool.ThreadPool.PurgeIdleThreads | ReMoLON_Util/ThreadPool.h:158-183 | the loop over the list computes the purge of it |
| ThreadPoolPurge.PurgeLeaves | ReMoLON_Util/ThreadPool.h:158-183 | told by positions: dropped are exactly the terminated workers reached before the counter is at the minimum, dismissed exactly the idle ones reached, all others stay as they are, in order; the counter falls by the idle ones, not below the minimum |
| ThreadPoolPurge.PurgeSweeps | ReMoLON_Util/ThreadPool.h:158-183 | if the counter ends above the minimum, no worker left is terminated and no idle one is still wanted |
| ThreadPoolPurge.SubmitExact | ReMoLON_Util/ThreadPool.h:79-100 | an accepted task is queued last; one fresh worker is added if more tasks waited than workers are counted, otherwise the pool is purged above its minimum; then exactly the sleeping workers are woken |
| ThreadPool.ThreadPool.ExecuteTask | ReMoLON_Util/ThreadPool.h:79-100 | a full queue refuses and changes nothing; otherwise the task is queued last and every sleeping worker is notified |
| ThreadPool.ThreadPool.EnterQueue | ReMoLON_Util/ThreadPool.h:196-213 | a worker with the lock takes the oldest task, or sleeps if it is still wanted, or goes round again |
| ThreadPoolRuns.PurgeGap | ReMoLON_Util/ThreadPool.h:158-183 | purging never dismisses more workers than it subtracts from the counter, and never takes the counter below the minimum |
| ThreadPoolRuns.ActionKeepsInv | ReMoLON_Util/ThreadPool.h:79-231 | every submission and every step of every worker keeps no lost wake-up, the worker floor and task conservation |
| ThreadPoolRuns.PoolSafety | ReMoLON_Util/ThreadPool.h:79-231 | in every interleaving: wanted workers >= counter >= minimum; accepted = started + queued in order; started = in hand + completed, none twice; the queue stays within its bound; with a task queued nobody sleeps and some wanted worker is coming |
| ThreadPoolRuns.EveryTaskCanStart | ReMoLON_Util/ThreadPool.h:192-231 | from every reachable state the workers alone can start all queued tasks, in the order they were accepted |
| ThreadPoolRuns.DismissedWorkerEnds | ReMoLON_Util/ThreadPool.h:192-231 | in every reachable state a dismissed worker can end with at most four actions of its own |
| ThreadPoolCounter.PurgeExact | ReMoLON_Util/ThreadPool.h:158-183 | one purge lowers the counter by exactly the workers it dismisses if and only if it reaches no idle worker that was dismissed before and has not ended |
| ThreadPoolCounter.CounterExact | ReMoLON_Util/ThreadPool.h:79-183 | in every interleaving the counter equals the number of workers still wanted if and only if no submission so far has counted off a worker that was dismissed before |
| ThreadPoolCounter.CountedOffTwice | ReMoLON_Util/ThreadPool.h:158-183 | a run from a new pool: three workers, the idle one inside a long task; one submission dismisses it, the next counts it off again |
| Bytes.SignedRoundTrip | ReMoLON_Util/src/ByteBuffer.cpp:179-323 | writing and reading k bytes gives back every signed k-byte integer, for every k |
| Bytes.LengthRoundTrip | ReMoLON_Util/src/ByteBuffer.cpp:247-256 | a string length survives its detour through signed short, also above 32767 |
| Bytes.TakeTextBack | ReMoLON_Util/src/ByteBuffer.cpp:247-367 | every string below 65536 bytes is read back, whatever follows it |
| Bytes.TakeIntBack | ReMoLON_Util/src/ByteBuffer.cpp:193-300 | every 32-bit integer is read back, whatever follows it |
| Bytes.TakeLongBack | ReMoLON_Util/src/ByteBuffer.cpp:209-323 | every 64-bit integer is read back, whatever follows it |
| Bytes.TakeShortBack | ReMoLON_Util/src/ByteBuffer.cpp:179-283 | every 16-bit integer is read back, whatever follows it |
| Bytes.TextCut | ReMoLON_Util/src/ByteBuffer.cpp:353-367 | a string cut behind its length fails after the length is consumed, the bytes there are stay unread |
| ByteBuffer.ByteBuffer.AppendContent | ReMoLON_Util/src/ByteBuffer.cpp:100-110 | appends the other buffer's bytes exactly when there is strict room, else changes nothing |
| ByteBuffer.ByteBuffer.Compact | ReMoLON_Util/src/ByteBuffer.cpp:152-158 | the unread bytes survive the overlapping forward copy, at the front |
| ByteBuffer.ByteBuffer.WriteShort | ReMoLON_Util/src/ByteBuffer.cpp:179-191 | appends the two bytes exactly when there is strict room, and keeps all other bytes of the array |
| ByteBuffer.ByteBuffer.WriteInt | ReMoLON_Util/src/ByteBuffer.cpp:193-206 | appends the four bytes in two's complement, low byte first, exactly when there is strict room |
| ByteBuffer.ByteBuffer.WriteLong | ReMoLON_Util/src/ByteBuffer.cpp:209-226 | the same with eight bytes |
| ByteBuffer.ByteBuffer.WriteString | ReMoLON_Util/src/ByteBuffer.cpp:247-256 | length and bytes together, or nothing at all without strict room |
| ByteBuffer.ByteBuffer.ReadShort | ReMoLON_Util/src/ByteBuffer.cpp:271-283 | the signed value of the next two bytes, or a failure that consumes nothing |
| ByteBuffer.ByteBuffer.ReadInt | ReMoLON_Util/src/ByteBuffer.cpp:285-300 | the signed value of the next four bytes, or a failure that consumes nothing |
| ByteBuffer.ByteBuffer.ReadLong | ReMoLON_Util/src/ByteBuffer.cpp:302-323 | the signed value of the next eight bytes, or a failure that consumes nothing |
| ByteBuffer.ByteBuffer.ReadString | ReMoLON_Util/src/ByteBuffer.cpp:353-367 | length taken unsigned, then that many bytes; a missing body fails after the length was consumed |
| Packets.WriteImpl | ReMoLON_FrontEnd/src/serverpackets/RequestStartStreamingSession.cpp:42-48 | every packet class appends its fields in order, dropping exactly those without strict room |
| Packets.WritePacket | ReMoLON_Util/src/Packet.cpp:103-126 | moving the cursor forward, back and forward again leaves opcode, true content length and content behind what was there |
| Packets.SizeBytes | ReMoLON_Util/src/Packet.cpp:115-120 | the length computed from truncated shorts has the two low bytes of the content length, and read unsigned is that length whenever it is below 65536 |
| Codec.WrittenIsFrame | ReMoLON_Util/src/Packet.cpp:103-126 | what is written is the packet's frame if and only if the buffer has strict room for all of it |
| Codec.DecodeBack | ReMoLON/src/frontendserverpackets/RequestStartStreamingSession.cpp:34-40 | for all six classes the reader on one side inverts the writer on the other, and leaves the bytes behind the packet |
| Codec.DecodeLength | ReMoLON_FrontEnd/src/clientpackets/StartStreamingSessionResult.cpp:35-40 | whatever bytes a packet is read from, as many are consumed as its encoding has |
| WireFormat.NodePackets | ReMoLON/src/frontendserverpackets/RequestStartStreamingSession.cpp:34-40 | the frames of the three packets to a node, byte by byte: opcode, length low byte first, fields in order |
| WireFormat.FrontEndPackets | ReMoLON/src/frontendclientpackets/NodeInfo.cpp:34-51 | the same for the three packets to the front end |
| PacketHandler.ReadImpl | ReMoLON_FrontEnd/src/clientpackets/CloseSessionResult.cpp:35-40 | reading from the buffer class agrees with decoding the unread bytes, also where it fails |
| PacketHandler.HandlePacket | ReMoLON_Util/src/PacketHandler.cpp:39-89 | buffer, cursor and outcome after one call for every content: empty, cut header, oversized, incomplete, unknown opcode, unreadable, complete |
| PacketHandler.HandleOutcomes | ReMoLON_Util/src/PacketHandler.cpp:39-89 | for any bytes: a call waits if and only if the buffer is empty or an acceptable frame is incomplete, delivers if and only if a known class reads a complete one, and throws otherwise |
| PacketHandler.HandleConsumes | ReMoLON_Util/src/PacketHandler.cpp:39-89 | a call only consumes from the front: nothing when it waits, the header and what was decoded when it delivers; when it throws the opcode of a cut header, the header of a refused frame, or the header and what was decoded before the bytes ended |
| Framing.OnePacketRoundTrip | ReMoLON_Util/src/PacketHandler.cpp:39-89 | handling the bytes written for a packet gives that packet back if and only if the sending buffer had strict room for its frame |
| Framing.PacketInPieces | ReMoLON_Util/src/PacketHandler.cpp:43-63 | a packet in any pieces: no call throws if and only if the first piece has the whole header, and then nothing comes out until the last piece, which gives the packet |
| Framing.PacketsBack | ReMoLON_Util/src/PacketHandler.cpp:39-89 | repeated calls on the bytes of several packets give exactly them, in order, and use every byte |
| Framing.ArrivalsExact | ReMoLON_Util/src/SelectorThread.cpp:149-195 | packets in any pieces, in a buffer of any size: a call throws if and only if a receive leaves one or two bytes unread behind the last frame delivered, and otherwise the first packets sent are delivered, one with each receive behind which the next frame is whole, and the frames of the others remain |
| Framing.AllArrive | ReMoLON_Util/src/SelectorThread.cpp:163-190 | all packets are delivered without a throw if and only if no header is cut and each frame is whole when as many receives are still to come as there are frames behind it |
| Framing.SafePieces | ReMoLON_Util/src/PacketHandler.cpp:43-63 | in a buffer with room for everything: if no receive ends one or two bytes behind the end of a packet, no call throws |
| Framing.CoalescedAreLost | ReMoLON_Util/src/Client.cpp:71-84 | of packets received together only the first is delivered; the others are left in a buffer about to be reset |
| Streams.HandleArriving | ReMoLON_Util/src/PacketHandler.cpp:39-89 | the exact outcome of one call on the beginning of some frames; it throws precisely when one or two bytes of a header are there |
| Streams.FeedExact | ReMoLON_Util/src/SelectorThread.cpp:163-190 | append-then-parse from any state of the buffer, for any parser of frames: it throws if and only if a receive cuts a header, and otherwise delivers exactly the packets whose frames become whole in their turn, never inventing, reordering or repeating one |
| Wire.Connection.SendPacket | ReMoLON_Util/src/Connection.cpp:57-67 | queues the packet last and, inside a poll set, asks to be told when the socket can be written |
| Wire.Connection.PollSendablePacket | ReMoLON_Util/src/Connection.cpp:69-88 | takes the oldest packet; takes back the write flag only when there is none |
| Wire.Connection.EndConnection | ReMoLON_Util/src/Connection.cpp:90-102 | every packet still queued is dropped |
| Wire.WriteToConnection | ReMoLON_Util/src/SelectorThread.cpp:197-229 | drains the queue into chunks: each is the bytes of consecutive whole packets, in FIFO order, and ends only where the next packet has no strict room |
| Wire.ReadFromConnection | ReMoLON_Util/src/SelectorThread.cpp:149-195 | the receive loop on the buffer class delivers what feeding the pieces to the parser delivers; it ends only at the timeout, or when nothing is offered, nothing is left or the buffer is full |
| Arrivals.FirstPiece | ReMoLON_Util/src/SelectorThread.cpp:163-171 | a receive brings as many bytes as are offered, fit and are there, also when fewer fit than wait; it brings none only if one of the three is 0 |
| Wire.QueueRoundTrip | ReMoLON_Util/src/SelectorThread.cpp:197-229 | the chunks concatenate to the frames of the queue if and only if each packet fits the helper buffer, and then repeated handlePacket gives the whole queue back |
| Wire.ChunkRoundTrip | ReMoLON_Util/src/SelectorThread.cpp:197-229 | no packet is split across chunks: each chunk alone gives its own packets back |
| Wire.QueueArrives | ReMoLON_Util/src/SelectorThread.cpp:149-229 | from the sender's queue through chunks and any pieces to the receiver: a call throws if and only if a receive cuts a header, and otherwise the first packets of the queue are delivered, one with each receive behind which the next frame is whole |
| NodeInfoExchange.WriteNodeInfo | ReMoLON/src/frontendclientpackets/NodeInfo.cpp:34-51 | the loop over the table lists every port once with its flag, in some order, and writes that list |
| NodeInfoExchange.ReadNodeInfo | ReMoLON_FrontEnd/src/clientpackets/NodeInfo.cpp:37-59 | the loop over the buffer updates the view as the entries say; cut short, it leaves the entries read and the old counter of used slots |
| NodeInfoExchange.CutReading | ReMoLON_FrontEnd/src/clientpackets/NodeInfo.cpp:37-59 | what a NodeInfo leaves that is cut before its address, before its count, or among its entries; the counter of used slots is always the old one |
| NodeInfoExchange.NodeInfoArrives | ReMoLON_FrontEnd/src/clientpackets/NodeInfo.cpp:35-60 | the sender is registered under its address and only its view is updated |
| NodeInfoExchange.NodeInfoSynchronises | ReMoLON_FrontEnd/src/clientpackets/NodeInfo.cpp:35-60 | a table written with enough room and read back: the tracker agrees with it on every listed port and availability is the number of unused ports |
| NodeInfoExchange.NodeInfoInvExact | ReMoLON_FrontEnd/src/clientpackets/NodeInfo.cpp:42-59 | once address and count are read, a new node gets sound slots only if all the entries are there and the count is not negative, and then does if no port is listed twice |
| NodeInfoExchange.UnfitNodeInfo | ReMoLON/src/frontendclientpackets/NodeInfo.cpp:34-51 | a NodeInfo whose address and count have room in the sending buffer, with any bytes behind it in the receiving one: it is read if and only if those bytes make up for the entries that had no room; a new node never gets sound slots otherwise, and does if all of it had room or no port is read twice |

## Left out

- Sockets, TLS, poll sets, accept and select loops and timeouts: a receive is "some of the bytes sent", a send is "these bytes".
- PAM login, user ids, `fork`, `execle` and `waitpid`: a session's process is a step that clears the session at most once, and whether its thread starts is an input of `StartNewSession`.
- HTTP handlers, pages, the XML builder and request dispatch: user interface.
- Configuration parsing and the choice of a selector thread for a connection: a split loop and a smallest-element search.
- Floats and doubles of `ByteBuffer`: raw copies of memory.
- Shutdown, detached threads, list erasure during iteration and pointers to closed connections: erasure moves on to the next element, and the overlapping memory copy is a forward byte by byte copy.
- Opcodes above 127 index outside the table of packet classes; the model treats them as unknown opcodes.
- Counters of a node that was registered but never refreshed are uninitialised in the code and 0 in the model.
- Data races on maps the code reads without a lock: each method and each locked section is one step.
- RequestNodeInfo has a handler at the node but the front end never sends it; only a node's first packet carries a NodeInfo in `Protocol`.
- The maximum pool size is stored and never used by the code; the pool may grow without bound in the model too.
- Pool workers are values in a list, so sharing a worker object between the pool and its thread is not captured.
- Masks and shifts on bytes are remainders and quotients by powers of 256, which equal them for two's complement.
- The body of `tryCreateSession` is split over several methods: the retry loop and one pass of it, the recording of the session, and the frame around both; likewise `tryFinishSession`, `handlePacket`, `writePacket` and `writeToConnection` have helper methods.
- Session lookups for the user interface (`getStreamSession`, `getUserSessions`) and `finishAllSessions`: they add empty lists or send signals only.
- NodeInfoExchange.UnfitNodeInfo: says nothing of a NodeInfo whose address or count finds no room, because those fields are dropped and entries are then read as if they were the address or the count.
- Framing.ArrivalsExact: after a call has thrown in the middle of a header the following bytes are read out of step, and nothing is claimed of what is delivered then.
