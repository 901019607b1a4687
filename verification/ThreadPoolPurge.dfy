/** Which workers a purge drops, dismisses and leaves alone, told by their positions in the list. */
module ThreadPoolPurge {
  import opened Common
  import opened ThreadPool

  /** A worker that a purge counts off, wanted or not. */
  ghost predicate Counted(w: Worker, now: int, idle: int) {
    w.phase != Terminated && now - w.lastActiveTime > idle
  }

  ghost function CountedOf(ws: seq<Worker>, now: int, idle: int): nat {
    if ws == [] then 0 else (if Counted(ws[0], now, idle) then 1 else 0) + CountedOf(ws[1..], now, idle)
  }

  /** The purge reaches worker i before the counter is at the minimum. */
  ghost predicate Reached(ws: seq<Worker>, i: nat, current: nat, min: nat, now: int, idle: int)
    requires i < |ws|
  {
    CountedOf(ws[..i], now, idle) < current - min
  }

  lemma CountedFirst(ws: seq<Worker>, i: nat, now: int, idle: int)
    requires 0 < i <= |ws|
    ensures CountedOf(ws[..i], now, idle)
         == (if Counted(ws[0], now, idle) then 1 else 0) + CountedOf(ws[1..][..i - 1], now, idle)
  {
    assert ws[..i][1..] == ws[1..][..i - 1];
  }

  /** A terminated worker that the purge reaches is dropped. */
  ghost predicate Dropped(ws: seq<Worker>, i: nat, current: nat, min: nat, now: int, idle: int)
    requires i < |ws|
  {
    ws[i].phase == Terminated && Reached(ws, i, current, min, now, idle)
  }

  /** The positions, among the first n, of the workers that stay. */
  ghost function Stay(ws: seq<Worker>, n: nat, current: nat, min: nat, now: int, idle: int): (stay: seq<nat>)
    requires n <= |ws|
    ensures forall j :: 0 <= j < |stay| ==> stay[j] < n
  {
    if n == 0 then []
    else Stay(ws, n - 1, current, min, now, idle)
         + if Dropped(ws, n - 1, current, min, now, idle) then [] else [n - 1]
  }

  /** A worker that stays is as before, but no longer wanted if it was idle when the purge reached it. */
  ghost function Treated(ws: seq<Worker>, i: nat, current: nat, min: nat, now: int, idle: int): Worker
    requires i < |ws|
  {
    ws[i].(active := ws[i].active && !(Counted(ws[i], now, idle) && Reached(ws, i, current, min, now, idle)))
  }

  /** The workers left are those that stay, each treated, in order. */
  ghost predicate Leaves(ws: seq<Worker>, left: seq<Worker>, current: nat, min: nat, now: int, idle: int) {
    var stay := Stay(ws, |ws|, current, min, now, idle);
    && |left| == |stay|
    && forall j {:trigger left[j]} :: 0 <= j < |stay| ==> left[j] == Treated(ws, stay[j], current, min, now, idle)
  }

  /** Those that stay are exactly those not dropped, each once and in order. */
  lemma {:induction false} StayExact(ws: seq<Worker>, n: nat, current: nat, min: nat, now: int, idle: int)
    requires n <= |ws|
    ensures var stay := Stay(ws, n, current, min, now, idle);
            && (forall i: nat :: i < n ==> (i in stay <==> !Dropped(ws, i, current, min, now, idle)))
            && (forall j, k :: 0 <= j < k < |stay| ==> stay[j] < stay[k])
  {
    if n > 0 {
      StayExact(ws, n - 1, current, min, now, idle);
    }
  }

  function Shifted(s: seq<nat>): (t: seq<nat>)
    ensures |t| == |s| && forall j :: 0 <= j < |s| ==> t[j] == s[j] + 1
  {
    seq(|s|, j requires 0 <= j < |s| => s[j] + 1)
  }

  /** What is left of the counter behind the first worker. */
  ghost function Later(w: Worker, current: nat, now: int, idle: int): nat {
    if Counted(w, now, idle) && current > 0 then current - 1 else current
  }

  lemma ReachedBehind(ws: seq<Worker>, i: nat, current: nat, min: nat, now: int, idle: int)
    requires i + 1 < |ws| && current > min
    ensures Reached(ws, i + 1, current, min, now, idle)
       <==> Reached(ws[1..], i, Later(ws[0], current, now, idle), min, now, idle)
  {
    CountedFirst(ws, i + 1, now, idle);
  }

  lemma {:induction false} StayFirst(ws: seq<Worker>, n: nat, current: nat, min: nat, now: int, idle: int)
    requires 0 < n <= |ws| && current > min
    ensures Stay(ws, n, current, min, now, idle)
         == (if ws[0].phase == Terminated then [] else [0])
            + Shifted(Stay(ws[1..], n - 1, Later(ws[0], current, now, idle), min, now, idle))
    decreases n
  {
    var later := Later(ws[0], current, now, idle);
    if n == 1 {
      assert Reached(ws, 0, current, min, now, idle);
      assert Shifted(Stay(ws[1..], 0, later, min, now, idle)) == [];
    } else {
      StayFirst(ws, n - 1, current, min, now, idle);
      ReachedBehind(ws, n - 2, current, min, now, idle);
      assert Dropped(ws, n - 1, current, min, now, idle) <==> Dropped(ws[1..], n - 2, later, min, now, idle);
      var before := Stay(ws[1..], n - 2, later, min, now, idle);
      assert Shifted(before + [n - 2]) == Shifted(before) + [n - 1];
    }
  }

  lemma {:induction false} StayAll(ws: seq<Worker>, n: nat, current: nat, min: nat, now: int, idle: int)
    requires n <= |ws| && current <= min
    ensures Stay(ws, n, current, min, now, idle) == seq(n, i => i)
  {
    if n > 0 {
      StayAll(ws, n - 1, current, min, now, idle);
    }
  }

  /** A worker behind the first is treated as it is from the rest of the list. */
  lemma TreatedBehind(ws: seq<Worker>, i: nat, current: nat, min: nat, now: int, idle: int)
    requires i + 1 < |ws| && current > min
    ensures Treated(ws, i + 1, current, min, now, idle)
         == Treated(ws[1..], i, Later(ws[0], current, now, idle), min, now, idle)
  {
    ReachedBehind(ws, i, current, min, now, idle);
  }

  /** The first worker is treated. */
  lemma LeavesOneMore(ws: seq<Worker>, rest: seq<Worker>, behind: seq<nat>, front: seq<nat>, left: seq<Worker>,
                      current: nat, min: nat, now: int, idle: int)
    requires ws != [] && current > min && |rest| == |behind| && (front == [] || front == [0])
    requires forall k :: 0 <= k < |behind| ==>
               && behind[k] < |ws| - 1
               && rest[k] == Treated(ws[1..], behind[k], Later(ws[0], current, now, idle), min, now, idle)
    requires left == if front == [] then rest else [Treated(ws, 0, current, min, now, idle)] + rest
    ensures |left| == |front + Shifted(behind)|
    ensures forall j :: 0 <= j < |left| ==>
              left[j] == Treated(ws, (front + Shifted(behind))[j], current, min, now, idle)
  {
    forall j | 0 <= j < |left|
      ensures left[j] == Treated(ws, (front + Shifted(behind))[j], current, min, now, idle)
    {
      if j >= |front| {
        TreatedBehind(ws, behind[j - |front|], current, min, now, idle);
        assert left[j] == rest[j - |front|];
      }
    }
  }

  /** The first worker is dropped or treated; those behind it are left as from the rest of the list. */
  lemma LeavesFirst(ws: seq<Worker>, rest: seq<Worker>, current: nat, min: nat, now: int, idle: int)
    requires ws != [] && current > min
    requires Leaves(ws[1..], rest, Later(ws[0], current, now, idle), min, now, idle)
    ensures var left := if ws[0].phase == Terminated then rest
                        else [Treated(ws, 0, current, min, now, idle)] + rest;
            Leaves(ws, left, current, min, now, idle)
  {
    var behind := Stay(ws[1..], |ws| - 1, Later(ws[0], current, now, idle), min, now, idle);
    var front: seq<nat> := if ws[0].phase == Terminated then [] else [0];
    var left := if ws[0].phase == Terminated then rest else [Treated(ws, 0, current, min, now, idle)] + rest;
    StayFirst(ws, |ws|, current, min, now, idle);
    LeavesOneMore(ws, rest, behind, front, left, current, min, now, idle);
  }

  /** What a purge does to the first worker. */
  lemma PurgeFirst(ws: seq<Worker>, current: nat, min: nat, now: int, idle: int)
    requires ws != [] && current > min
    ensures var (rest, counted) := Purge(ws[1..], Later(ws[0], current, now, idle), min, now, idle);
            Purge(ws, current, min, now, idle)
            == (if ws[0].phase == Terminated then rest else [Treated(ws, 0, current, min, now, idle)] + rest, counted)
  {
    assert CountedOf(ws[..0], now, idle) == 0;
  }

  /** What is left of the counter: the idle workers are taken from it, as far as the minimum. */
  ghost function Remaining(ws: seq<Worker>, current: nat, min: nat, now: int, idle: int): int {
    if current - CountedOf(ws, now, idle) >= min then current - CountedOf(ws, now, idle)
    else if current >= min then min else current
  }

  lemma RemainingFirst(ws: seq<Worker>, current: nat, min: nat, now: int, idle: int)
    requires ws != [] && current > min
    ensures Remaining(ws, current, min, now, idle)
         == Remaining(ws[1..], Later(ws[0], current, now, idle), min, now, idle)
  {
  }

  /**
   A purge drops exactly the terminated workers it reaches before the counter is at the minimum, dismisses exactly
   the idle ones it reaches, and leaves all others as they are, in order; and the counter falls by the idle ones, but
   not below the minimum.
   */
  lemma {:induction false} PurgeLeaves(ws: seq<Worker>, current: nat, min: nat, now: int, idle: int)
    ensures var (left, counted) := Purge(ws, current, min, now, idle);
            Leaves(ws, left, current, min, now, idle) && counted == Remaining(ws, current, min, now, idle)
    decreases |ws|
  {
    if ws != [] && current > min {
      var later := Later(ws[0], current, now, idle);
      PurgeLeaves(ws[1..], later, min, now, idle);
      PurgeFirst(ws, current, min, now, idle);
      RemainingFirst(ws, current, min, now, idle);
      LeavesFirst(ws, Purge(ws[1..], later, min, now, idle).0, current, min, now, idle);
    } else if current <= min {
      StayAll(ws, |ws|, current, min, now, idle);
    }
  }

  lemma {:induction false} CountedPrefix(ws: seq<Worker>, i: nat, now: int, idle: int)
    requires i <= |ws|
    ensures CountedOf(ws[..i], now, idle) <= CountedOf(ws, now, idle)
  {
    if i > 0 {
      CountedFirst(ws, i, now, idle);
      CountedPrefix(ws[1..], i - 1, now, idle);
    }
  }

  /** If the counter ends above the minimum, no worker left is terminated and every idle one is dismissed. */
  lemma PurgeSweeps(ws: seq<Worker>, current: nat, min: nat, now: int, idle: int)
    requires Purge(ws, current, min, now, idle).1 > min
    ensures forall w :: w in Purge(ws, current, min, now, idle).0 ==>
              w.phase != Terminated && (Counted(w, now, idle) ==> !w.active)
  {
    PurgeLeaves(ws, current, min, now, idle);
    var left, stay := Purge(ws, current, min, now, idle).0, Stay(ws, |ws|, current, min, now, idle);
    StayExact(ws, |ws|, current, min, now, idle);
    forall w | w in left ensures w.phase != Terminated && (Counted(w, now, idle) ==> !w.active) {
      var j :| 0 <= j < |left| && w == left[j];
      CountedPrefix(ws, stay[j], now, idle);
      assert stay[j] in stay && Reached(ws, stay[j], current, min, now, idle);
    }
  }

  // ---------- what one submission does

  /** The same workers, the sleeping ones woken and no other touched. */
  ghost predicate Awoken(before: seq<Worker>, now: seq<Worker>) {
    && |now| == |before|
    && forall i :: 0 <= i < |now| ==>
         if before[i].phase == Waiting then now[i] == Worker(Notified, before[i].active, before[i].lastActiveTime)
         else now[i] == before[i]
  }

  /**
   An accepted task is queued last. If more tasks were waiting than workers are counted, one worker is added, wanted
   and fresh; otherwise, above the minimum, the pool is purged; and then all sleepers are woken.
   */
  lemma SubmitExact(p: Pool, task: Packet, now: int)
    ensures var q := Submit(p, task, now);
            && q.tasks == p.tasks + [task] && q.minSize == p.minSize
            && q.maxIdleTime == p.maxIdleTime && q.maxQueueSize == p.maxQueueSize
            && exists sized ::
                 && Awoken(sized, q.workers)
                 && (if |p.tasks| > p.currentSize then
                       q.currentSize == p.currentSize + 1 && sized == p.workers + [Worker(Ready, true, now)]
                     else if p.currentSize > p.minSize then
                       Leaves(p.workers, sized, p.currentSize, p.minSize, now, p.maxIdleTime)
                       && p.currentSize - q.currentSize
                          == Least(CountedOf(p.workers, now, p.maxIdleTime), p.currentSize - p.minSize)
                     else q.currentSize == p.currentSize && sized == p.workers)
  {
    PurgeLeaves(p.workers, p.currentSize, p.minSize, now, p.maxIdleTime);
    assert Awoken(Sized(p, now).workers, Submit(p, task, now).workers);
  }

  function Least(a: int, b: int): int {
    if a <= b then a else b
  }
}
