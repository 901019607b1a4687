/** Every interleaving of submissions and workers on an active pool: what is kept, and that work can go on. */
module ThreadPoolRuns {
  import opened Common
  import opened ThreadPool

  /** A pool with its history: accepted and started tasks in order, and how often each was completed. */
  datatype Trace = Trace(pool: Pool, accepted: seq<Packet>, started: seq<Packet>, completed: multiset<Packet>)

  datatype Action =
    | Execute(task: Packet, now: int)
    | Check(i: nat)
    | Enter(i: nat)
    | WakeUp(i: nat)
    | StartTask(i: nat, now: int)
    | EndTask(i: nat)

  ghost predicate Enabled(t: Trace, a: Action) {
    match a
    case Execute(task, now) => true
    case Check(i) => i < |t.pool.workers| && t.pool.workers[i].phase == Ready
    case Enter(i) =>
      i < |t.pool.workers| && (t.pool.workers[i].phase == Entering || t.pool.workers[i].phase == Notified)
    case WakeUp(i) => i < |t.pool.workers| && t.pool.workers[i].phase == Waiting
    case StartTask(i, now) => i < |t.pool.workers| && t.pool.workers[i].phase.Holding?
    case EndTask(i) => i < |t.pool.workers| && t.pool.workers[i].phase.Running?
  }

  /** A full queue refuses the task; a worker may wake up without being notified. */
  ghost function After(t: Trace, a: Action): Trace
    requires Enabled(t, a)
  {
    var p := t.pool;
    match a
    case Execute(task, now) =>
      if |p.tasks| >= p.maxQueueSize then t else t.(pool := Submit(p, task, now), accepted := t.accepted + [task])
    case Check(i) => t.(pool := SetPhase(p, i, if p.workers[i].active then Entering else Terminated))
    case Enter(i) =>
      t.(pool := TakeOrWait(p, i), started := if p.tasks != [] then t.started + [p.tasks[0]] else t.started)
    case WakeUp(i) => t.(pool := SetPhase(p, i, Notified))
    case StartTask(i, now) => t.(pool := Begin(p, i, now))
    case EndTask(i) =>
      t.(pool := SetPhase(p, i, Ready), completed := t.completed + multiset{p.workers[i].phase.job})
  }

  // ---------- counting workers

  ghost function Actives(ws: seq<Worker>): nat {
    if ws == [] then 0 else (if ws[0].active then 1 else 0) + Actives(ws[1..])
  }

  ghost function InHand(ws: seq<Worker>): multiset<Packet> {
    if ws == [] then multiset{} else TaskOf(ws[0]) + InHand(ws[1..])
  }

  ghost function TaskOf(w: Worker): multiset<Packet> {
    match w.phase
    case Holding(task) => multiset{task}
    case Running(job) => multiset{job}
    case _ => multiset{}
  }

  lemma {:induction false} UpdateActives(ws: seq<Worker>, i: nat, w: Worker)
    requires i < |ws|
    ensures Actives(ws[i := w]) == Actives(ws) - (if ws[i].active then 1 else 0) + (if w.active then 1 else 0)
  {
    if i > 0 {
      UpdateActives(ws[1..], i - 1, w);
      assert ws[i := w][1..] == ws[1..][i - 1 := w];
    } else {
      assert ws[i := w][1..] == ws[1..];
    }
  }

  lemma {:induction false} UpdateInHand(ws: seq<Worker>, i: nat, w: Worker)
    requires i < |ws|
    ensures InHand(ws[i := w]) + TaskOf(ws[i]) == InHand(ws) + TaskOf(w)
  {
    var less := ws[1..];
    if i > 0 {
      UpdateInHand(less, i - 1, w);
      assert ws[i := w][1..] == less[i - 1 := w];
      Swap(TaskOf(ws[0]), InHand(less[i - 1 := w]), TaskOf(ws[i]), InHand(less), TaskOf(w));
    } else {
      assert ws[i := w][1..] == less;
      Swap(InHand(less), TaskOf(w), TaskOf(ws[0]), TaskOf(ws[0]), TaskOf(w));
    }
  }

  lemma Swap(a: multiset<Packet>, b: multiset<Packet>, c: multiset<Packet>, d: multiset<Packet>, e: multiset<Packet>)
    requires b + c == d + e
    ensures (a + b) + c == (a + d) + e && (b + a) + c == (d + a) + e
  {
    assert (a + b) + c == a + (b + c);
    assert (a + d) + e == a + (d + e);
    assert b + a == a + b && d + a == a + d;
  }

  lemma {:induction false} Append(ws: seq<Worker>, w: Worker)
    ensures Actives(ws + [w]) == Actives(ws) + (if w.active then 1 else 0)
    ensures InHand(ws + [w]) == InHand(ws) + TaskOf(w)
  {
    if ws == [] {
      assert [w][1..] == [] && ws + [w] == [w];
    } else {
      Append(ws[1..], w);
      assert (ws + [w])[1..] == ws[1..] + [w];
    }
  }

  lemma {:induction false} Woken(ws: seq<Worker>)
    ensures Actives(Wake(ws)) == Actives(ws) && InHand(Wake(ws)) == InHand(ws)
  {
    if ws != [] {
      Woken(ws[1..]);
      assert Wake(ws)[1..] == Wake(ws[1..]);
      assert TaskOf(Wake(ws)[0]) == TaskOf(ws[0]);
    }
  }

  /** Terminated workers are no longer wanted. */
  ghost predicate OnlyDismissedEnd(ws: seq<Worker>) {
    forall i :: 0 <= i < |ws| && ws[i].phase == Terminated ==> !ws[i].active
  }

  /**
   Purging may lower the counter again for a worker that was dismissed before, but it never dismisses more
   workers than it subtracts, and it stops at the minimum.
   */
  lemma {:induction false} PurgeGap(ws: seq<Worker>, current: nat, min: nat, now: int, idle: int)
    requires OnlyDismissedEnd(ws)
    ensures var (left, counted) := Purge(ws, current, min, now, idle);
            && counted <= current && Actives(left) + (current - counted) >= Actives(ws)
            && (current >= min ==> counted >= min)
    decreases |ws|
  {
    if ws != [] && current > min {
      var w, tail := ws[0], ws[1..];
      if w.phase != Terminated && now - w.lastActiveTime > idle {
        PurgeGap(tail, current - 1, min, now, idle);
        Prefix(w.(active := false), Purge(tail, current - 1, min, now, idle).0);
      } else {
        PurgeGap(tail, current, min, now, idle);
        Prefix(w, Purge(tail, current, min, now, idle).0);
      }
    }
  }

  /** How many workers hold or run x. */
  ghost function Holders(ws: seq<Worker>, x: Packet): nat {
    if ws == [] then 0 else (if Holds(ws[0].phase, x) then 1 else 0) + Holders(ws[1..], x)
  }

  ghost predicate Holds(phase: Phase, x: Packet) {
    (phase.Holding? && phase.task == x) || (phase.Running? && phase.job == x)
  }

  lemma {:induction false} HoldersInHand(ws: seq<Worker>, x: Packet)
    ensures InHand(ws)[x] == Holders(ws, x)
  {
    if ws != [] {
      HoldersInHand(ws[1..], x);
    }
  }

  lemma HoldersFirst(w: Worker, v: Worker, ws: seq<Worker>, x: Packet)
    requires v.phase == w.phase
    ensures Holders([v] + ws, x) == (if Holds(w.phase, x) then 1 else 0) + Holders(ws, x)
  {
    assert ([v] + ws)[1..] == ws;
  }

  lemma {:induction false} PurgeHolders(ws: seq<Worker>, current: nat, min: nat, now: int, idle: int, x: Packet)
    ensures Holders(Purge(ws, current, min, now, idle).0, x) == Holders(ws, x)
    decreases |ws|
  {
    if ws != [] && current > min {
      var w, tail := ws[0], ws[1..];
      if w.phase != Terminated && now - w.lastActiveTime > idle {
        PurgeHolders(tail, current - 1, min, now, idle, x);
        HoldersFirst(w, w.(active := false), Purge(tail, current - 1, min, now, idle).0, x);
      } else {
        PurgeHolders(tail, current, min, now, idle, x);
        HoldersFirst(w, w, Purge(tail, current, min, now, idle).0, x);
      }
    }
  }

  /** Purging loses no task in hand. */
  lemma PurgeHands(ws: seq<Worker>, current: nat, min: nat, now: int, idle: int)
    ensures InHand(Purge(ws, current, min, now, idle).0) == InHand(ws)
  {
    forall x ensures InHand(Purge(ws, current, min, now, idle).0)[x] == InHand(ws)[x] {
      PurgeHolders(ws, current, min, now, idle, x);
      HoldersInHand(ws, x);
      HoldersInHand(Purge(ws, current, min, now, idle).0, x);
    }
  }

  /** Terminated workers that are kept were dismissed before. */
  lemma {:induction false} PurgeDismissed(ws: seq<Worker>, current: nat, min: nat, now: int, idle: int)
    requires OnlyDismissedEnd(ws)
    ensures OnlyDismissedEnd(Purge(ws, current, min, now, idle).0)
    decreases |ws|
  {
    if ws != [] && current > min {
      var w, tail := ws[0], ws[1..];
      assert OnlyDismissedEnd(tail);
      if w.phase != Terminated && now - w.lastActiveTime > idle {
        PurgeDismissed(tail, current - 1, min, now, idle);
      } else {
        PurgeDismissed(tail, current, min, now, idle);
      }
    }
  }

  lemma Prefix(w: Worker, ws: seq<Worker>)
    ensures Actives([w] + ws) == (if w.active then 1 else 0) + Actives(ws)
  {
    assert ([w] + ws)[1..] == ws;
  }

  lemma Cancel(a: multiset<Packet>, b: multiset<Packet>, c: multiset<Packet>)
    requires a + c == b + c
    ensures a == b
  {
    forall x ensures a[x] == b[x] {
      assert (a + c)[x] == (b + c)[x];
    }
  }

  /** A task moves from the workers' hands to the completed ones. */
  lemma MoveOver(before: multiset<Packet>, left: multiset<Packet>, completed: multiset<Packet>, job: Packet)
    requires left + multiset{job} == before + multiset{}
    ensures left + (completed + multiset{job}) == before + completed
  {
    assert left + (completed + multiset{job}) == (left + multiset{job}) + completed;
    assert before + multiset{} == before;
  }

  // ---------- what every run keeps

  /** Only a wanted worker sleeps, and none does while there is a task. */
  ghost predicate NoLostWakeUp(p: Pool) {
    forall i :: 0 <= i < |p.workers| && p.workers[i].phase == Waiting ==> p.tasks == [] && p.workers[i].active
  }

  ghost predicate Floor(p: Pool) {
    Actives(p.workers) >= p.currentSize >= p.minSize && OnlyDismissedEnd(p.workers)
  }

  ghost predicate Conserved(t: Trace) {
    && t.accepted == t.started + t.pool.tasks && |t.pool.tasks| <= t.pool.maxQueueSize
    && multiset(t.started) == InHand(t.pool.workers) + t.completed
  }

  ghost predicate Inv(t: Trace) {
    NoLostWakeUp(t.pool) && Floor(t.pool) && Conserved(t)
  }

  lemma SizedKeeps(p: Pool, now: int)
    requires Floor(p)
    ensures Floor(Sized(p, now)) && InHand(Sized(p, now).workers) == InHand(p.workers)
  {
    if |p.tasks| > p.currentSize {
      Append(p.workers, NewWorker(now));
    } else if p.currentSize > p.minSize {
      PurgeGap(p.workers, p.currentSize, p.minSize, now, p.maxIdleTime);
      PurgeHands(p.workers, p.currentSize, p.minSize, now, p.maxIdleTime);
      PurgeDismissed(p.workers, p.currentSize, p.minSize, now, p.maxIdleTime);
    }
  }

  lemma WakeAll(p: Pool, task: Packet, tasks: seq<Packet>)
    requires Floor(p)
    ensures var q := p.(tasks := tasks + [task], workers := Wake(p.workers)); Floor(q) && NoLostWakeUp(q)
  {
    Woken(p.workers);
    NoneAsleep(p.workers);
  }

  lemma NoneAsleep(ws: seq<Worker>)
    requires OnlyDismissedEnd(ws)
    ensures OnlyDismissedEnd(Wake(ws)) && forall i :: 0 <= i < |ws| ==> Wake(ws)[i].phase != Waiting
  {
  }

  lemma SubmitKeeps(p: Pool, task: Packet, now: int)
    requires Floor(p)
    ensures Floor(Submit(p, task, now)) && NoLostWakeUp(Submit(p, task, now))
    ensures InHand(Submit(p, task, now).workers) == InHand(p.workers)
  {
    SizedKeeps(p, now);
    Woken(Sized(p, now).workers);
    WakeAll(Sized(p, now), task, p.tasks);
    assert Submit(p, task, now) == Sized(p, now).(tasks := p.tasks + [task], workers := Wake(Sized(p, now).workers));
  }

  /** What a worker's action leaves at its place. */
  ghost function WorkerAfter(p: Pool, a: Action): Worker
    requires !a.Execute? && a.i < |p.workers|
  {
    var w := p.workers[a.i];
    match a
    case Check(i) => w.(phase := if w.active then Entering else Terminated)
    case Enter(i) =>
      w.(phase := if p.tasks != [] then Holding(p.tasks[0]) else if w.active then Waiting else Ready)
    case WakeUp(i) => w.(phase := Notified)
    case StartTask(i, now) => if w.phase.Holding? then Worker(Running(w.phase.task), w.active, now) else w
    case _ => w.(phase := Ready)
  }

  lemma WorkerOnly(t: Trace, a: Action)
    requires Enabled(t, a) && !a.Execute?
    ensures After(t, a).pool.workers == t.pool.workers[a.i := WorkerAfter(t.pool, a)]
  {
  }

  lemma TaskKept(t: Trace, a: Action)
    requires Enabled(t, a) && !a.Execute? && !(a.Enter? && t.pool.tasks != [])
    ensures TaskOf(WorkerAfter(t.pool, a)) == if a.EndTask? then multiset{} else TaskOf(t.pool.workers[a.i])
  {
  }

  lemma WorkerKeepsFloor(t: Trace, a: Action)
    requires Inv(t) && Enabled(t, a) && !a.Execute?
    ensures NoLostWakeUp(After(t, a).pool) && Floor(After(t, a).pool)
  {
    WorkerOnly(t, a);
    var w := WorkerAfter(t.pool, a);
    UpdateActives(t.pool.workers, a.i, w);
  }

  lemma TakeConserves(t: Trace, a: Action)
    requires Inv(t) && Enabled(t, a) && a.Enter? && t.pool.tasks != []
    ensures Conserved(After(t, a))
  {
    var p, q := t.pool, After(t, a).pool;
    UpdateInHand(p.workers, a.i, q.workers[a.i]);
    FirstTask(t.started, p.tasks);
    TaskTaken(InHand(p.workers), InHand(q.workers), t.started, t.completed, p.tasks[0]);
  }

  lemma FirstTask(started: seq<Packet>, tasks: seq<Packet>)
    requires tasks != []
    ensures started + tasks == (started + [tasks[0]]) + tasks[1..]
  {
  }

  lemma TaskTaken(before: multiset<Packet>, now: multiset<Packet>, started: seq<Packet>,
                  completed: multiset<Packet>, task: Packet)
    requires now + multiset{} == before + multiset{task} && multiset(started) == before + completed
    ensures multiset(started + [task]) == now + completed
  {
    assert now + multiset{} == now;
    assert (before + multiset{task}) + completed == (before + completed) + multiset{task};
  }

  lemma EndConserves(t: Trace, a: Action)
    requires Inv(t) && Enabled(t, a) && a.EndTask?
    ensures Conserved(After(t, a))
  {
    WorkerOnly(t, a);
    var w := WorkerAfter(t.pool, a);
    TaskKept(t, a);
    var job := t.pool.workers[a.i].phase.job;
    UpdateInHand(t.pool.workers, a.i, w);
    MoveOver(InHand(t.pool.workers), InHand(After(t, a).pool.workers), t.completed, job);
  }

  lemma OtherConserves(t: Trace, a: Action)
    requires Inv(t) && Enabled(t, a) && !a.Execute? && !a.EndTask? && !(a.Enter? && t.pool.tasks != [])
    ensures Conserved(After(t, a))
  {
    WorkerOnly(t, a);
    var w := WorkerAfter(t.pool, a);
    UpdateInHand(t.pool.workers, a.i, w);
    TaskKept(t, a);
    Cancel(InHand(After(t, a).pool.workers), InHand(t.pool.workers), TaskOf(w));
  }

  lemma SubmitConserves(t: Trace, task: Packet, now: int)
    requires Inv(t)
    ensures Conserved(After(t, Execute(task, now)))
  {
    SubmitKeeps(t.pool, task, now);
    assert t.accepted + [task] == t.started + (t.pool.tasks + [task]);
  }

  lemma ActionKeepsInv(t: Trace, a: Action)
    requires Inv(t) && Enabled(t, a)
    ensures Inv(After(t, a))
  {
    if a.Execute? {
      SubmitKeeps(t.pool, a.task, a.now);
      SubmitConserves(t, a.task, a.now);
    } else {
      WorkerKeepsFloor(t, a);
      if a.Enter? && t.pool.tasks != [] {
        TakeConserves(t, a);
      } else if a.EndTask? {
        EndConserves(t, a);
      } else {
        OtherConserves(t, a);
      }
    }
  }

  // ---------- runs

  ghost predicate Run(t: Trace, actions: seq<Action>)
    decreases |actions|
  {
    actions == [] || (Enabled(t, actions[0]) && Run(After(t, actions[0]), actions[1..]))
  }

  ghost function Final(t: Trace, actions: seq<Action>): Trace
    requires Run(t, actions)
    decreases |actions|
  {
    if actions == [] then t else Final(After(t, actions[0]), actions[1..])
  }

  lemma {:induction false} RunKeepsInv(t: Trace, actions: seq<Action>)
    requires Inv(t) && Run(t, actions)
    ensures Inv(Final(t, actions)) && Final(t, actions).pool.minSize == t.pool.minSize
    ensures Final(t, actions).pool.maxQueueSize == t.pool.maxQueueSize
    decreases |actions|
  {
    if actions != [] {
      ActionKeepsInv(t, actions[0]);
      RunKeepsInv(After(t, actions[0]), actions[1..]);
    }
  }

  ghost function Begun(minSize: nat, maxIdle: int, maxQueue: nat, now: int): Trace {
    Trace(Started(minSize, maxIdle, maxQueue, now), [], [], multiset{})
  }

  lemma {:induction false} FreshWorkers(n: nat, now: int)
    ensures var ws := seq(n, i => NewWorker(now)); Actives(ws) == n && InHand(ws) == multiset{}
  {
    if n > 0 {
      FreshWorkers(n - 1, now);
      var ws := seq(n, i => NewWorker(now));
      assert ws == seq(n - 1, i => NewWorker(now)) + [NewWorker(now)];
      Append(seq(n - 1, i => NewWorker(now)), NewWorker(now));
    }
  }

  lemma BegunInv(minSize: nat, maxIdle: int, maxQueue: nat, now: int)
    ensures Inv(Begun(minSize, maxIdle, maxQueue, now))
  {
    FreshWorkers(minSize, now);
  }

  /** A worker that is on its way to the queue's lock, or will be once its task has ended. */
  ghost predicate Coming(w: Worker) {
    w.active && w.phase != Waiting && w.phase != Terminated
  }

  lemma {:induction false} SomeActive(ws: seq<Worker>) returns (i: nat)
    requires Actives(ws) > 0
    ensures i < |ws| && ws[i].active
  {
    if ws[0].active {
      i := 0;
    } else {
      i := SomeActive(ws[1..]);
      i := i + 1;
    }
  }

  /**
   In every interleaving the workers still wanted number at least the counter, which is at least the minimum;
   no task is lost, started twice or started out of order, and the queue stays within its bound; and while
   there is a task nobody sleeps and some worker is coming for it.
   */
  lemma PoolSafety(minSize: nat, maxIdle: int, maxQueue: nat, now: int, actions: seq<Action>)
    requires Run(Begun(minSize, maxIdle, maxQueue, now), actions)
    ensures var t := Final(Begun(minSize, maxIdle, maxQueue, now), actions);
            var p := t.pool;
            && Actives(p.workers) >= p.currentSize >= minSize
            && t.accepted == t.started + p.tasks
            && multiset(t.started) == InHand(p.workers) + t.completed
            && |p.tasks| <= maxQueue
            && (p.tasks != [] ==> forall i :: 0 <= i < |p.workers| ==> p.workers[i].phase != Waiting)
            && (p.tasks != [] && minSize >= 1 ==> exists i :: 0 <= i < |p.workers| && Coming(p.workers[i]))
  {
    BegunInv(minSize, maxIdle, maxQueue, now);
    RunKeepsInv(Begun(minSize, maxIdle, maxQueue, now), actions);
    var p := Final(Begun(minSize, maxIdle, maxQueue, now), actions).pool;
    if p.tasks != [] && minSize >= 1 {
      var i := SomeActive(p.workers);
      assert Coming(p.workers[i]);
    }
  }

  // ---------- the queue can always be emptied

  lemma Prepend(t: Trace, a: Action, rest: seq<Action>)
    requires Enabled(t, a) && Run(After(t, a), rest)
    ensures Run(t, [a] + rest) && Final(t, [a] + rest) == Final(After(t, a), rest)
  {
    assert ([a] + rest)[1..] == rest;
  }

  /** How far worker i is from taking a task. */
  ghost function Distance(w: Worker): nat {
    match w.phase
    case Entering => 0
    case Notified => 0
    case Ready => 1
    case Running(job) => 2
    case Holding(task) => 3
    case _ => 4
  }

  ghost function NextAction(t: Trace, i: nat): Action
    requires i < |t.pool.workers|
  {
    match t.pool.workers[i].phase
    case Ready => Check(i)
    case Holding(task) => StartTask(i, 0)
    case Running(job) => EndTask(i)
    case _ => Enter(i)
  }

  lemma NextIsCloser(t: Trace, i: nat)
    requires i < |t.pool.workers| && t.pool.tasks != [] && Coming(t.pool.workers[i])
    ensures Enabled(t, NextAction(t, i)) && !NextAction(t, i).Execute?
    ensures var next := After(t, NextAction(t, i));
            && next.accepted == t.accepted && i < |next.pool.workers| && Coming(next.pool.workers[i])
            && (|next.pool.tasks| < |t.pool.tasks|
                || (next.pool.tasks == t.pool.tasks && Distance(next.pool.workers[i]) < Distance(t.pool.workers[i])))
  {
  }

  /**
   From any state a pool can be in, its workers alone can start every queued task, and do so in the order in
   which they were accepted.
   */
  lemma {:induction false} CanDrain(t: Trace, i: nat) returns (actions: seq<Action>)
    requires Inv(t) && i < |t.pool.workers| && (t.pool.tasks != [] ==> Coming(t.pool.workers[i]))
    ensures Run(t, actions)
    ensures Final(t, actions).started == t.accepted && (forall a :: a in actions ==> !a.Execute?)
    decreases |t.pool.tasks|, Distance(t.pool.workers[i])
  {
    if t.pool.tasks == [] {
      assert t.accepted == t.started;
      actions := [];
    } else {
      var a := NextAction(t, i);
      NextIsCloser(t, i);
      ActionKeepsInv(t, a);
      var rest := CanDrain(After(t, a), i);
      Prepend(t, a, rest);
      actions := [a] + rest;
    }
  }

  /** How many actions a dismissed worker that is awake has left. */
  ghost function ActionsLeft(t: Trace, i: nat): nat
    requires i < |t.pool.workers|
  {
    match t.pool.workers[i].phase
    case Terminated => 0
    case Ready => 1
    case Running(job) => 2
    case Holding(task) => 3
    case _ => 4
  }

  ghost predicate Leaving(t: Trace, i: nat) {
    i < |t.pool.workers| && !t.pool.workers[i].active && t.pool.workers[i].phase != Waiting
  }

  lemma NextLeaves(t: Trace, i: nat)
    requires Leaving(t, i) && t.pool.workers[i].phase != Terminated
    ensures Enabled(t, NextAction(t, i)) && !NextAction(t, i).Execute? && NextAction(t, i).i == i
    ensures Leaving(After(t, NextAction(t, i)), i) && ActionsLeft(After(t, NextAction(t, i)), i) < ActionsLeft(t, i)
  {
  }

  lemma {:induction false} CanLeave(t: Trace, i: nat) returns (actions: seq<Action>)
    requires Leaving(t, i)
    ensures Run(t, actions) && |actions| <= 4 && forall a :: a in actions ==> !a.Execute? && a.i == i
    ensures i < |Final(t, actions).pool.workers| && Final(t, actions).pool.workers[i].phase == Terminated
    ensures |actions| <= ActionsLeft(t, i)
    decreases ActionsLeft(t, i)
  {
    if t.pool.workers[i].phase == Terminated {
      actions := [];
    } else {
      NextLeaves(t, i);
      var rest := CanLeave(After(t, NextAction(t, i)), i);
      Prepend(t, NextAction(t, i), rest);
      actions := [NextAction(t, i)] + rest;
    }
  }

  /** In every reachable state a worker that was dismissed is awake, and ends with at most four actions of its own. */
  lemma DismissedWorkerEnds(minSize: nat, maxIdle: int, maxQueue: nat, now: int, actions: seq<Action>, i: nat)
    returns (more: seq<Action>)
    requires Run(Begun(minSize, maxIdle, maxQueue, now), actions)
    requires var ws := Final(Begun(minSize, maxIdle, maxQueue, now), actions).pool.workers;
             i < |ws| && !ws[i].active
    ensures var t := Final(Begun(minSize, maxIdle, maxQueue, now), actions);
            && Run(t, more) && |more| <= 4 && (forall a :: a in more ==> !a.Execute? && a.i == i)
            && i < |Final(t, more).pool.workers| && Final(t, more).pool.workers[i].phase == Terminated
  {
    BegunInv(minSize, maxIdle, maxQueue, now);
    RunKeepsInv(Begun(minSize, maxIdle, maxQueue, now), actions);
    more := CanLeave(Final(Begun(minSize, maxIdle, maxQueue, now), actions), i);
  }

  lemma EveryTaskCanStart(minSize: nat, maxIdle: int, maxQueue: nat, now: int, actions: seq<Action>)
    returns (more: seq<Action>)
    requires minSize >= 1 && Run(Begun(minSize, maxIdle, maxQueue, now), actions)
    ensures var t := Final(Begun(minSize, maxIdle, maxQueue, now), actions);
            Run(t, more) && Final(t, more).started == t.accepted && (forall a :: a in more ==> !a.Execute?)
  {
    BegunInv(minSize, maxIdle, maxQueue, now);
    RunKeepsInv(Begun(minSize, maxIdle, maxQueue, now), actions);
    var t := Final(Begun(minSize, maxIdle, maxQueue, now), actions);
    var i := SomeActive(t.pool.workers);
    more := CanDrain(t, i);
  }
}
