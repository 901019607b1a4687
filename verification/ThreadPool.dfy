/** The pool of worker threads that executes received packets. */
module ThreadPool {
  import opened Common

  /**
   Where a worker stands in its loop. Ready: about to test whether it is still wanted. Entering: waiting for
   the queue's lock. Waiting: asleep on the monitor. Notified: woken, waiting for the lock again. Holding: a
   task in hand, lock released. Running: the task is executing.
   */
  datatype Phase = Ready | Entering | Waiting | Notified | Holding(task: Packet) | Running(job: Packet) | Terminated

  datatype Worker = Worker(phase: Phase, active: bool, lastActiveTime: int)

  datatype Pool = Pool(tasks: seq<Packet>, workers: seq<Worker>, currentSize: nat,
                       minSize: nat, maxIdleTime: int, maxQueueSize: nat)

  function NewWorker(now: int): Worker {
    Worker(Ready, true, now)
  }

  function WithWorker(p: Pool, now: int): Pool {
    p.(workers := p.workers + [NewWorker(now)], currentSize := p.currentSize + 1)
  }

  /** notify_all */
  function Wake(ws: seq<Worker>): seq<Worker> {
    seq(|ws|, i requires 0 <= i < |ws| => if ws[i].phase == Waiting then ws[i].(phase := Notified) else ws[i])
  }

  /** Drops terminated workers and dismisses idle ones, in list order, while the pool is above its minimum. */
  function Purge(ws: seq<Worker>, currentSize: nat, minSize: nat, now: int, maxIdle: int): (seq<Worker>, nat) {
    if ws == [] || currentSize <= minSize then (ws, currentSize)
    else if ws[0].phase == Terminated then Purge(ws[1..], currentSize, minSize, now, maxIdle)
    else if now - ws[0].lastActiveTime > maxIdle then
      var rest := Purge(ws[1..], currentSize - 1, minSize, now, maxIdle);
      ([ws[0].(active := false)] + rest.0, rest.1)
    else
      var rest := Purge(ws[1..], currentSize, minSize, now, maxIdle);
      ([ws[0]] + rest.0, rest.1)
  }

  function Purged(p: Pool, now: int): Pool {
    var result := Purge(p.workers, p.currentSize, p.minSize, now, p.maxIdleTime);
    p.(workers := result.0, currentSize := result.1)
  }

  /** A long queue gets one more worker; otherwise a pool above its minimum is purged. */
  function Sized(p: Pool, now: int): Pool {
    if |p.tasks| > p.currentSize then WithWorker(p, now)
    else if p.currentSize > p.minSize then Purged(p, now)
    else p
  }

  /** The pool once it has accepted a task. */
  function Submit(p: Pool, task: Packet, now: int): Pool {
    var sized := Sized(p, now);
    sized.(tasks := p.tasks + [task], workers := Wake(sized.workers))
  }

  function Started(minSize: nat, maxIdle: int, maxQueue: nat, now: int): Pool {
    Pool([], seq(minSize, i => NewWorker(now)), minSize, minSize, maxIdle, maxQueue)
  }

  function SetPhase(p: Pool, i: nat, phase: Phase): Pool
    requires i < |p.workers|
  {
    p.(workers := p.workers[i := p.workers[i].(phase := phase)])
  }

  /** One pass through the locked part of the loop: sleep, take the next task, or find nothing to do. */
  function TakeOrWait(p: Pool, i: nat): Pool
    requires i < |p.workers|
  {
    if p.tasks != [] then SetPhase(p, i, Holding(p.tasks[0])).(tasks := p.tasks[1..])
    else if p.workers[i].active then SetPhase(p, i, Waiting)
    else SetPhase(p, i, Ready)
  }

  /** The task in hand is stamped with the time and executed. */
  function Begin(p: Pool, i: nat, now: int): Pool
    requires i < |p.workers| && p.workers[i].phase.Holding?
  {
    p.(workers := p.workers[i := p.workers[i].(phase := Running(p.workers[i].phase.task), lastActiveTime := now)])
  }

  class ThreadPool {
    var pool: seq<Worker>
    var tasks: seq<Packet>
    var currentPoolSize: nat
    const minPoolSize: nat
    const maxIdleTimeMilis: int
    const maxQueueSize: nat

    ghost function State(): Pool
      reads this
    {
      Pool(tasks, pool, currentPoolSize, minPoolSize, maxIdleTimeMilis, maxQueueSize)
    }

    constructor (poolSize: nat, maxIdleTimeMilis: int, maxQueueSize: nat, now: int)
      ensures State() == Started(poolSize, maxIdleTimeMilis, maxQueueSize, now)
    {
      minPoolSize, this.maxIdleTimeMilis, this.maxQueueSize := poolSize, maxIdleTimeMilis, maxQueueSize;
      pool, tasks, currentPoolSize := [], [], 0;
      new;
      for i := 0 to minPoolSize
        invariant pool == seq(i, j => NewWorker(now)) && currentPoolSize == i && tasks == []
      {
        CreateWorker(now);
      }
    }

    method CreateWorker(now: int)
      modifies this
      ensures State() == WithWorker(old(State()), now)
    {
      pool := pool + [Worker(Ready, true, now)];
      currentPoolSize := currentPoolSize + 1;
    }

    method PurgeIdleThreads(currentTime: int)
      modifies this
      ensures State() == Purged(old(State()), currentTime)
    {
      var it := 0;
      ghost var goal := Purge(pool, currentPoolSize, minPoolSize, currentTime, maxIdleTimeMilis);
      assert pool[0..] == pool && [] + goal.0 == goal.0;
      while it < |pool| && currentPoolSize > minPoolSize
        invariant it <= |pool| && tasks == old(tasks)
        invariant var rest := Purge(pool[it..], currentPoolSize, minPoolSize, currentTime, maxIdleTimeMilis);
                  goal == (pool[..it] + rest.0, rest.1)
        decreases |pool| - it
      {
        var wt := pool[it];
        ghost var front, tail := pool[..it], pool[it + 1..];
        assert pool[it..] == [wt] + tail;
        if wt.phase == Terminated {
          pool := pool[..it] + pool[it + 1..];
          assert pool[..it] == front && pool[it..] == tail;
        } else {
          var diff := currentTime - wt.lastActiveTime;
          if diff > maxIdleTimeMilis {
            wt := wt.(active := false);
            pool := pool[it := wt];
            currentPoolSize := currentPoolSize - 1;
          }
          it := it + 1;
          assert pool[it..] == tail && pool[..it] == front + [wt];
          ghost var rest := Purge(tail, currentPoolSize, minPoolSize, currentTime, maxIdleTimeMilis);
          assert front + ([wt] + rest.0) == (front + [wt]) + rest.0;
        }
      }
      assert pool[..it] + pool[it..] == pool;
    }

    /** `accepted` is false where the source throws: the queue is full. */
    method ExecuteTask(task: Packet, now: int) returns (accepted: bool)
      modifies this
      ensures accepted == (old(|tasks|) < maxQueueSize)
      ensures State() == if accepted then Submit(old(State()), task, now) else old(State())
    {
      if |tasks| >= maxQueueSize {
        return false;
      }
      if |tasks| > currentPoolSize {
        CreateWorker(now);
      } else if currentPoolSize > minPoolSize {
        PurgeIdleThreads(now);
      }
      tasks := tasks + [task];
      pool := Wake(pool);
      return true;
    }

    /** The test at the head of a worker's loop, while the pool is active. */
    method CheckWanted(i: nat)
      requires i < |pool| && pool[i].phase == Ready
      modifies this
      ensures State() == SetPhase(old(State()), i, if old(pool)[i].active then Entering else Terminated)
    {
      pool := pool[i := pool[i].(phase := if pool[i].active then Entering else Terminated)];
    }

    /** From acquiring the queue's lock to releasing it, asleep or with a task in hand. */
    method EnterQueue(i: nat)
      requires i < |pool| && (pool[i].phase == Entering || pool[i].phase == Notified)
      modifies this
      ensures State() == TakeOrWait(old(State()), i)
      ensures var w := old(pool)[i];
              if old(tasks) != [] then
                tasks == old(tasks)[1..] && pool == old(pool)[i := w.(phase := Holding(old(tasks)[0]))]
              else
                tasks == [] && pool == old(pool)[i := w.(phase := if w.active then Waiting else Ready)]
    {
      if pool[i].active && tasks == [] {
        pool := pool[i := pool[i].(phase := Waiting)];
      } else if tasks != [] {
        pool := pool[i := pool[i].(phase := Holding(tasks[0]))];
        tasks := tasks[1..];
      } else {
        pool := pool[i := pool[i].(phase := Ready)];
      }
    }

    method BeginTask(i: nat, now: int)
      requires i < |pool| && pool[i].phase.Holding?
      modifies this
      ensures State() == Begin(old(State()), i, now)
      ensures var w := old(pool)[i]; pool == old(pool)[i := Worker(Running(w.phase.task), w.active, now)]
    {
      pool := pool[i := pool[i].(phase := Running(pool[i].phase.task), lastActiveTime := now)];
    }
  }
}
