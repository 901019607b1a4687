/**
 How far the pool's counter of workers can be trusted: a purge may count off a worker that was dismissed before and
 has not ended yet, and exactly then the counter falls behind the number of workers still wanted.
 */
module ThreadPoolCounter {
  import opened Common
  import opened ThreadPool
  import opened ThreadPoolPurge
  import opened ThreadPoolRuns

  // ---------- one purge

  ghost predicate CountedAgain(ws: seq<Worker>, i: nat, current: nat, min: nat, now: int, idle: int)
    requires i < |ws|
  {
    Counted(ws[i], now, idle) && !ws[i].active && Reached(ws, i, current, min, now, idle)
  }

  /** Some worker that was dismissed before, idle and not yet ended, is counted off once more. */
  ghost predicate Recounts(ws: seq<Worker>, current: nat, min: nat, now: int, idle: int) {
    exists i: nat :: i < |ws| && CountedAgain(ws, i, current, min, now, idle)
  }

  /** The first worker, and those behind it with what is then left of the counter. */
  lemma RecountsFirst(ws: seq<Worker>, current: nat, min: nat, now: int, idle: int)
    requires ws != [] && current > min
    ensures var later := if Counted(ws[0], now, idle) then current - 1 else current;
            Recounts(ws, current, min, now, idle)
            <==> (Counted(ws[0], now, idle) && !ws[0].active) || Recounts(ws[1..], later, min, now, idle)
  {
    var tail, later := ws[1..], if Counted(ws[0], now, idle) then current - 1 else current;
    assert CountedOf(ws[..0], now, idle) == 0;
    assert CountedAgain(ws, 0, current, min, now, idle) <==> Counted(ws[0], now, idle) && !ws[0].active;
    forall i: nat | i < |tail|
      ensures CountedAgain(tail, i, later, min, now, idle) <==> CountedAgain(ws, i + 1, current, min, now, idle)
    {
      CountedFirst(ws, i + 1, now, idle);
    }
    if i: nat :| i < |ws| && CountedAgain(ws, i, current, min, now, idle) {
      assert i > 0 ==> CountedAgain(tail, i - 1, later, min, now, idle);
    }
    if i: nat :| i < |tail| && CountedAgain(tail, i, later, min, now, idle) {
      assert CountedAgain(ws, i + 1, current, min, now, idle);
    }
  }

  /** The counter falls by exactly the workers dismissed if and only if nobody is counted off once more. */
  lemma {:induction false} PurgeExact(ws: seq<Worker>, current: nat, min: nat, now: int, idle: int)
    requires OnlyDismissedEnd(ws)
    ensures var (left, counted) := Purge(ws, current, min, now, idle);
            Actives(left) + (current - counted) == Actives(ws) <==> !Recounts(ws, current, min, now, idle)
    decreases |ws|
  {
    if ws != [] && current > min {
      var w, tail := ws[0], ws[1..];
      RecountsFirst(ws, current, min, now, idle);
      if Counted(w, now, idle) {
        PurgeExact(tail, current - 1, min, now, idle);
        PurgeGap(tail, current - 1, min, now, idle);
        Prefix(w.(active := false), Purge(tail, current - 1, min, now, idle).0);
      } else {
        PurgeExact(tail, current, min, now, idle);
        Prefix(w, Purge(tail, current, min, now, idle).0);
      }
    } else {
      NoneRecounted(ws, current, min, now, idle);
    }
  }

  lemma NoneRecounted(ws: seq<Worker>, current: nat, min: nat, now: int, idle: int)
    requires ws == [] || current <= min
    ensures !Recounts(ws, current, min, now, idle)
  {
  }

  // ---------- when the counter is right

  /** The submission purges, and counts some worker off once more. */
  ghost predicate StepRecounts(t: Trace, a: Action) {
    var p := t.pool;
    && a.Execute? && |p.tasks| < p.maxQueueSize && |p.tasks| <= p.currentSize && p.currentSize > p.minSize
    && Recounts(p.workers, p.currentSize, p.minSize, a.now, p.maxIdleTime)
  }

  /** How many workers are wanted beyond those counted. */
  ghost function Gap(p: Pool): int {
    Actives(p.workers) - p.currentSize
  }

  lemma SubmitGap(t: Trace, a: Action)
    requires Inv(t) && a.Execute? && |t.pool.tasks| < t.pool.maxQueueSize
    ensures Gap(After(t, a).pool) >= Gap(t.pool)
    ensures Gap(After(t, a).pool) == Gap(t.pool) <==> !StepRecounts(t, a)
  {
    var p := t.pool;
    Woken(Sized(p, a.now).workers);
    if |p.tasks| > p.currentSize {
      Append(p.workers, NewWorker(a.now));
    } else if p.currentSize > p.minSize {
      PurgeGap(p.workers, p.currentSize, p.minSize, a.now, p.maxIdleTime);
      PurgeExact(p.workers, p.currentSize, p.minSize, a.now, p.maxIdleTime);
    }
  }

  lemma StepGap(t: Trace, a: Action)
    requires Inv(t) && Enabled(t, a)
    ensures Gap(After(t, a).pool) >= Gap(t.pool)
    ensures Gap(After(t, a).pool) == Gap(t.pool) <==> !StepRecounts(t, a)
  {
    if !a.Execute? {
      WorkerOnly(t, a);
      UpdateActives(t.pool.workers, a.i, WorkerAfter(t.pool, a));
    } else if |t.pool.tasks| < t.pool.maxQueueSize {
      SubmitGap(t, a);
    }
  }

  ghost predicate NeverRecounts(t: Trace, actions: seq<Action>)
    requires Run(t, actions)
    decreases |actions|
  {
    actions == [] || (!StepRecounts(t, actions[0]) && NeverRecounts(After(t, actions[0]), actions[1..]))
  }

  lemma {:induction false} RunGap(t: Trace, actions: seq<Action>)
    requires Inv(t) && Run(t, actions)
    ensures Gap(Final(t, actions).pool) >= Gap(t.pool)
    ensures Gap(Final(t, actions).pool) == Gap(t.pool) <==> NeverRecounts(t, actions)
    decreases |actions|
  {
    if actions != [] {
      StepGap(t, actions[0]);
      ActionKeepsInv(t, actions[0]);
      RunGap(After(t, actions[0]), actions[1..]);
    }
  }

  /**
   In every interleaving: the counter is the number of workers still wanted if and only if no submission so far has
   counted off a worker that was dismissed before.
   */
  lemma CounterExact(minSize: nat, maxIdle: int, maxQueue: nat, now: int, actions: seq<Action>)
    requires Run(Begun(minSize, maxIdle, maxQueue, now), actions)
    ensures var t := Final(Begun(minSize, maxIdle, maxQueue, now), actions);
            Actives(t.pool.workers) == t.pool.currentSize
            <==> NeverRecounts(Begun(minSize, maxIdle, maxQueue, now), actions)
  {
    BegunInv(minSize, maxIdle, maxQueue, now);
    FreshWorkers(minSize, now);
    RunGap(Begun(minSize, maxIdle, maxQueue, now), actions);
  }

  // ---------- a run in which one worker is counted off twice

  lemma {:induction false} Concat(t: Trace, es: seq<Action>, fs: seq<Action>)
    requires Run(t, es) && Run(Final(t, es), fs)
    ensures Run(t, es + fs) && Final(t, es + fs) == Final(Final(t, es), fs)
    decreases |es|
  {
    if es == [] {
      assert [] + fs == fs;
    } else {
      assert (es + fs)[1..] == es[1..] + fs;
      Concat(After(t, es[0]), es[1..], fs);
    }
  }

  lemma OneAction(t: Trace, a: Action)
    requires Enabled(t, a)
    ensures Run(t, [a]) && Final(t, [a]) == After(t, a)
  {
    assert [a][1..] == [];
  }

  /** A worker that is ready takes the oldest task and begins it. */
  ghost function TakeActions(i: nat, now: int): seq<Action> {
    ([Check(i)] + [Enter(i)]) + [StartTask(i, now)]
  }

  lemma Taken(t: Trace, i: nat, now: int)
    requires i < |t.pool.workers| && t.pool.workers[i].phase == Ready && t.pool.workers[i].active && t.pool.tasks != []
    ensures Run(t, TakeActions(i, now))
    ensures Final(t, TakeActions(i, now)).pool
         == t.pool.(tasks := t.pool.tasks[1..],
                    workers := t.pool.workers[i := Worker(Running(t.pool.tasks[0]), true, now)])
  {
    var t1 := After(t, Check(i));
    var t2 := After(t1, Enter(i));
    OneAction(t, Check(i));
    OneAction(t1, Enter(i));
    OneAction(t2, StartTask(i, now));
    Concat(t, [Check(i)], [Enter(i)]);
    Concat(t, [Check(i)] + [Enter(i)], [StartTask(i, now)]);
  }

  /** The pool with these workers counted, and so many tasks queued. */
  ghost function Small(job: Packet, workers: seq<Worker>, counted: nat, queued: nat): Pool {
    Pool(seq(queued, i => job), workers, counted, 1, 50, 10)
  }

  lemma OneMoreQueued(job: Packet, n: nat)
    ensures seq(n, i => job) + [job] == seq(n + 1, i => job)
    ensures n > 0 ==> seq(n, i => job)[0] == job && seq(n, i => job)[1..] == seq(n - 1, i => job)
  {
  }

  /** A submission to such a pool whose workers are awake. */
  lemma Submitted(t: Trace, job: Packet, ws: seq<Worker>, counted: nat, queued: nat, now: int, sized: Pool)
    requires t.pool == Small(job, ws, counted, queued) && queued < 10
    requires sized == Sized(t.pool, now) && forall i :: 0 <= i < |sized.workers| ==> sized.workers[i].phase != Waiting
    ensures Run(t, [Execute(job, now)])
    ensures Final(t, [Execute(job, now)]).pool == Small(job, sized.workers, sized.currentSize, queued + 1)
  {
    OneAction(t, Execute(job, now));
    OneMoreQueued(job, queued);
    assert Wake(sized.workers) == sized.workers;
  }

  const FRESH: Worker := NewWorker(0)

  /** Four submissions to a pool of one: three workers, four tasks. */
  lemma Grown(job: Packet) returns (es: seq<Action>)
    ensures Run(Begun(1, 50, 10, 0), es)
    ensures Final(Begun(1, 50, 10, 0), es).pool == Small(job, [FRESH, FRESH, FRESH], 3, 4)
  {
    var t0, e := Begun(1, 50, 10, 0), [Execute(job, 0)];
    assert t0.pool == Small(job, [FRESH], 1, 0);
    Submitted(t0, job, [FRESH], 1, 0, 0, t0.pool);
    var t1 := Final(t0, e);
    Submitted(t1, job, [FRESH], 1, 1, 0, t1.pool);
    var t2 := Final(t1, e);
    assert [FRESH] + [FRESH] == [FRESH, FRESH] && [FRESH, FRESH] + [FRESH] == [FRESH, FRESH, FRESH];
    Submitted(t2, job, [FRESH], 1, 2, 0, WithWorker(t2.pool, 0));
    var t3 := Final(t2, e);
    Submitted(t3, job, [FRESH, FRESH], 2, 3, 0, WithWorker(t3.pool, 0));
    Concat(t0, e, e);
    Concat(t0, e + e, e);
    Concat(t0, e + e + e, e);
    es := e + e + e + e;
  }

  ghost function Busy(job: Packet, active: bool, since: int): Worker {
    Worker(Running(job), active, since)
  }

  /** All three have a task; the first began long ago. */
  lemma AllBusy(t: Trace, job: Packet) returns (es: seq<Action>)
    requires t.pool == Small(job, [FRESH, FRESH, FRESH], 3, 4)
    ensures Run(t, es)
    ensures Final(t, es).pool == Small(job, [Busy(job, true, 0), Busy(job, true, 100), Busy(job, true, 100)], 3, 1)
  {
    OneMoreQueued(job, 4);
    OneMoreQueued(job, 3);
    OneMoreQueued(job, 2);
    Taken(t, 0, 0);
    var t1 := Final(t, TakeActions(0, 0));
    assert t1.pool == Small(job, [Busy(job, true, 0), FRESH, FRESH], 3, 3);
    Taken(t1, 1, 100);
    var t2 := Final(t1, TakeActions(1, 100));
    assert t2.pool == Small(job, [Busy(job, true, 0), Busy(job, true, 100), FRESH], 3, 2);
    Taken(t2, 2, 100);
    Concat(t, TakeActions(0, 0), TakeActions(1, 100));
    Concat(t, TakeActions(0, 0) + TakeActions(1, 100), TakeActions(2, 100));
    es := TakeActions(0, 0) + TakeActions(1, 100) + TakeActions(2, 100);
  }

  /** Two workers that are not idle are left alone. */
  lemma PurgeTwo(job: Packet, current: nat)
    ensures var ws := [Busy(job, true, 100), Busy(job, true, 100)]; Purge(ws, current, 1, 100, 50) == (ws, current)
  {
    var w := Busy(job, true, 100);
    assert [w, w][1..] == [w] && [w][1..] == [] && [w] + [w] == [w, w] && [w] + [] == [w];
    assert Purge([w], current, 1, 100, 50) == ([w], current);
  }

  lemma PurgeThree(job: Packet, active: bool, current: nat)
    requires current > 1
    ensures Purge([Busy(job, active, 0), Busy(job, true, 100), Busy(job, true, 100)], current, 1, 100, 50)
         == ([Busy(job, false, 0), Busy(job, true, 100), Busy(job, true, 100)], current - 1)
  {
    var first, others := Busy(job, active, 0), [Busy(job, true, 100), Busy(job, true, 100)];
    var all := [Busy(job, active, 0), Busy(job, true, 100), Busy(job, true, 100)];
    assert all[0] == first && all[1..] == others;
    PurgeTwo(job, current - 1);
    assert Purge(all, current, 1, 100, 50) == ([first.(active := false)] + others, current - 1);
    assert [first.(active := false)] + others == [Busy(job, false, 0), others[0], others[1]];
  }

  lemma ActivesThree(a: Worker, b: Worker, c: Worker)
    ensures Actives([a, b, c])
         == (if a.active then 1 else 0) + (if b.active then 1 else 0) + (if c.active then 1 else 0)
  {
    Prefix(a, [b, c]);
    Prefix(b, [c]);
    Prefix(c, []);
    assert [a] + [b, c] == [a, b, c] && [b] + [c] == [b, c] && [c] + [] == [c];
  }

  /** The gap between wanted and counted workers tells which of two submissions recounts. */
  lemma SecondRecounts(es: seq<Action>, job: Packet)
    requires Run(Begun(1, 50, 10, 0), es)
    requires var t, e := Final(Begun(1, 50, 10, 0), es), Execute(job, 100);
             Gap(t.pool) == 0 && Gap(After(t, e).pool) == 0 && Gap(After(After(t, e), e).pool) == 1
    ensures var t, e := Final(Begun(1, 50, 10, 0), es), Execute(job, 100);
            !StepRecounts(t, e) && StepRecounts(After(t, e), e)
  {
    var t := Final(Begun(1, 50, 10, 0), es);
    BegunInv(1, 50, 10, 0);
    RunKeepsInv(Begun(1, 50, 10, 0), es);
    StepGap(t, Execute(job, 100));
    ActionKeepsInv(t, Execute(job, 100));
    StepGap(After(t, Execute(job, 100)), Execute(job, 100));
  }

  /**
   A run in which one worker is counted off twice: it is idle, since its task began long ago, and two submissions in
   a row purge the pool. The first dismisses it, the second lowers the counter for it again.
   */
  lemma CountedOffTwice(job: Packet) returns (es: seq<Action>)
    ensures var s, e := Begun(1, 50, 10, 0), Execute(job, 100);
            && Run(s, es) && Enabled(Final(s, es), e) && Enabled(After(Final(s, es), e), e)
            && var before, once, twice := Final(s, es).pool, After(Final(s, es), e).pool,
                                          After(After(Final(s, es), e), e).pool;
            && before.currentSize == 3 && Actives(before.workers) == 3
            && once.currentSize == 2 && Actives(once.workers) == 2
            && twice.currentSize == 1 && Actives(twice.workers) == 2
            && !StepRecounts(Final(s, es), e) && StepRecounts(After(Final(s, es), e), e)
  {
    var s := Begun(1, 50, 10, 0);
    var grown := Grown(job);
    var busy := AllBusy(Final(s, grown), job);
    Concat(s, grown, busy);
    es := grown + busy;
    var t := Final(s, es);
    var w, v, u := Busy(job, true, 0), Busy(job, false, 0), Busy(job, true, 100);
    PurgeThree(job, true, 3);
    Submitted(t, job, [w, u, u], 3, 1, 100, Purged(t.pool, 100));
    OneAction(t, Execute(job, 100));
    var t1 := After(t, Execute(job, 100));
    PurgeThree(job, false, 2);
    Submitted(t1, job, [v, u, u], 2, 2, 100, Purged(t1.pool, 100));
    OneAction(t1, Execute(job, 100));
    ActivesThree(w, u, u);
    ActivesThree(v, u, u);
    SecondRecounts(es, job);
  }
}
