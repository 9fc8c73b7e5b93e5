/**
 The scheduler of src/kernel/main.c: the pick of the next task, timer preemption, and how long a
 ready task can be passed over.
 */
module Scheduler {

  const MAX_TASKS := 64

  datatype State = Runnable | Running | Blocked | Zombie

  datatype Task = Task(used: bool, state: State, nice: int, switches: nat)

  predicate Ready(task: Task) {
    task.used && task.state == Runnable
  }

  predicate WellFormed(ts: seq<Task>) {
    |ts| == MAX_TASKS && forall i :: 0 <= i < |ts| ==> -20 <= ts[i].nice <= 19
  }

  /** How many tasks after the current one the scan reaches task i. */
  function Distance(cur: nat, i: nat): (d: nat)
    requires cur < MAX_TASKS && i < MAX_TASKS
    ensures 1 <= d <= MAX_TASKS && i == (cur + d) % MAX_TASKS
  {
    if i > cur then i - cur else i + MAX_TASKS - cur
  }

  /** a is to run before b, wherever they are in the table. */
  predicate Before(a: Task, b: Task) {
    a.nice < b.nice || (a.nice == b.nice && a.switches < b.switches)
  }

  /** The ready task of least nice, then of fewest switches, then first after the current one. */
  ghost predicate IsPick(ts: seq<Task>, cur: nat, r: nat)
    requires |ts| == MAX_TASKS && cur < MAX_TASKS
  {
    && r < MAX_TASKS && Ready(ts[r])
    && forall i :: 0 <= i < MAX_TASKS && Ready(ts[i]) ==>
         !Before(ts[i], ts[r]) && (Before(ts[r], ts[i]) || Distance(cur, r) <= Distance(cur, i))
  }

  ghost predicate NoneReady(ts: seq<Task>) {
    forall i :: 0 <= i < |ts| ==> !Ready(ts[i])
  }

  /** The pick is determined. */
  lemma OnePick(ts: seq<Task>, cur: nat, r: nat, s: nat)
    requires |ts| == MAX_TASKS && cur < MAX_TASKS && IsPick(ts, cur, r) && IsPick(ts, cur, s)
    ensures r == s
  {
    assert Distance(cur, r) == Distance(cur, s);
  }

  /** task_pick_next */
  method PickNext(ts: seq<Task>, cur: nat) returns (best: int)
    requires WellFormed(ts) && cur < MAX_TASKS
    ensures best == -1 || 0 <= best < MAX_TASKS
    ensures best == -1 <==> NoneReady(ts)
    ensures best >= 0 ==> IsPick(ts, cur, best)
  {
    best := -1;
    var bestNice, bestSwitches := 1000000, 0xFFFF_FFFF_FFFF_FFFF;
    for n := 1 to MAX_TASKS + 1
      invariant best == -1 || (0 <= best < MAX_TASKS && Ready(ts[best]) && Distance(cur, best) < n)
      invariant best >= 0 ==> bestNice == ts[best].nice && bestSwitches == ts[best].switches
      invariant best == -1 ==> bestNice == 1000000
      invariant forall i :: 0 <= i < MAX_TASKS && Ready(ts[i]) && Distance(cur, i) < n ==>
          best >= 0 && !Before(ts[i], ts[best]) && (Before(ts[best], ts[i]) || Distance(cur, best) <= Distance(cur, i))
    {
      var i := (cur + n) % MAX_TASKS;
      if !Ready(ts[i]) {
        continue;
      }
      if ts[i].nice < bestNice || (ts[i].nice == bestNice && ts[i].switches < bestSwitches) {
        best, bestNice, bestSwitches := i, ts[i].nice, ts[i].switches;
      }
    }
  }

  /** The tasks as the pick sees them: the one that ran is ready again. */
  function Yielded(ts: seq<Task>, cur: nat): seq<Task>
    requires cur < |ts|
  {
    if ts[cur].state != Zombie then ts[cur := ts[cur].(state := Runnable)] else ts
  }

  /** A timer interrupt hands the processor from task cur to task next. */
  ghost predicate Preempted(ts: seq<Task>, cur: nat, after: seq<Task>, next: nat)
    requires |ts| == MAX_TASKS && cur < MAX_TASKS
  {
    var ready := Yielded(ts, cur);
    && IsPick(ready, cur, next)
    && after == ready[next := ready[next].(state := Running, switches := ready[next].switches + 1)]
  }

  class Cpu {
    var tasks: seq<Task>
    var current: nat

    /** timer_preempt_from_user: the switch itself */
    method Preempt()
      requires WellFormed(tasks) && current < MAX_TASKS && tasks[current].used
      modifies this
      ensures WellFormed(tasks) && current < MAX_TASKS
      ensures old(tasks[current].state) != Zombie ==> Preempted(old(tasks), old(current), tasks, current)
      ensures old(tasks[current].state) == Zombie && !NoneReady(old(tasks)) ==>
                Preempted(old(tasks), old(current), tasks, current)
      ensures old(tasks[current].state) == Zombie && NoneReady(old(tasks)) ==>
                var root := old(tasks)[0];
                if root.used && root.state != Zombie
                then current == 0 && tasks == old(tasks)[0 := root.(state := Running, switches := root.switches + 1)]
                else current == old(current) && tasks == old(tasks)[current := old(tasks)[current].(state := Running)]
    {
      if tasks[current].state != Zombie {
        tasks := tasks[current := tasks[current].(state := Runnable)];
        assert Ready(tasks[current]);
      }
      var next := PickNext(tasks, current);
      if next < 0 {
        if tasks[current].state == Zombie && tasks[0].used && tasks[0].state != Zombie {
          next := 0;
        }
        if next < 0 {
          tasks := tasks[current := tasks[current].(state := Running)];
          return;
        }
      }
      tasks := tasks[next := tasks[next].(state := Running, switches := tasks[next].switches + 1)];
      current := next;
    }
  }

  // ----- Waiting -----

  /** Task i competes with t: it is ready or running and as nice. */
  predicate Competes(ts: seq<Task>, t: nat, i: nat)
    requires t < |ts| && i < |ts|
  {
    ts[i].used && (ts[i].state == Runnable || ts[i].state == Running) && ts[i].nice == ts[t].nice
  }

  /** What task i may still be picked before task t must be. */
  function Ahead(ts: seq<Task>, t: nat, i: nat): nat
    requires t < |ts| && i < |ts|
  {
    if i != t && Competes(ts, t, i) && ts[i].switches <= ts[t].switches then ts[t].switches - ts[i].switches + 1 else 0
  }

  function AheadOf(ts: seq<Task>, t: nat, n: nat): nat
    requires t < |ts| && n <= |ts|
  {
    if n == 0 then 0 else AheadOf(ts, t, n - 1) + Ahead(ts, t, n - 1)
  }

  /** Task t is ready or running and no such task is less nice to others. */
  ghost predicate Foremost(ts: seq<Task>, t: nat)
    requires t < |ts|
  {
    && Competes(ts, t, t)
    && forall i :: 0 <= i < |ts| && ts[i].used && (ts[i].state == Runnable || ts[i].state == Running) ==>
         ts[t].nice <= ts[i].nice
  }

  /** Only the current task is running. */
  ghost predicate OneRunning(ts: seq<Task>, cur: nat) {
    && cur < |ts| && ts[cur].used && ts[cur].state == Running
    && forall i :: 0 <= i < |ts| && i != cur ==> ts[i].state != Running
  }

  lemma {:induction false} AheadChanges(ts: seq<Task>, after: seq<Task>, t: nat, j: nat, n: nat)
    requires t < |ts| == |after| && j < |ts| && n <= |ts|
    requires forall i :: 0 <= i < |ts| && i != j ==> Ahead(after, t, i) == Ahead(ts, t, i)
    ensures j < n ==> AheadOf(after, t, n) + Ahead(ts, t, j) == AheadOf(ts, t, n) + Ahead(after, t, j)
    ensures j >= n ==> AheadOf(after, t, n) == AheadOf(ts, t, n)
  {
    if n > 0 {
      AheadChanges(ts, after, t, j, n - 1);
    }
  }

  /** A switch to another task uses up one of the picks ahead of t. */
  lemma PassedOver(ts: seq<Task>, cur: nat, after: seq<Task>, next: nat, t: nat)
    requires |ts| == MAX_TASKS && OneRunning(ts, cur) && t < MAX_TASKS && Foremost(ts, t)
    requires Preempted(ts, cur, after, next) && next != t
    ensures OneRunning(after, next) && Foremost(after, t)
    ensures AheadOf(after, t, MAX_TASKS) == AheadOf(ts, t, MAX_TASKS) - 1
  {
    var ready := Yielded(ts, cur);
    assert Ready(ready[t]);
    assert !Before(ready[t], ready[next]);
    forall i | 0 <= i < MAX_TASKS && i != next
      ensures Ahead(after, t, i) == Ahead(ts, t, i)
    {
    }
    AheadChanges(ts, after, t, next, MAX_TASKS);
  }

  /** A run of the timer: states and who ran. */
  ghost predicate Ticks(run: seq<(seq<Task>, nat)>) {
    && (forall k :: 0 <= k < |run| ==> |run[k].0| == MAX_TASKS && run[k].1 < MAX_TASKS)
    && forall k :: 0 <= k < |run| - 1 ==> Preempted(run[k].0, run[k].1, run[k + 1].0, run[k + 1].1)
  }

  /** Task t gets the processor after at most as many switches to others as are ahead of it. */
  lemma {:induction false} BoundedWait(run: seq<(seq<Task>, nat)>, t: nat)
    requires Ticks(run) && |run| > 0 && t < MAX_TASKS && OneRunning(run[0].0, run[0].1) && Foremost(run[0].0, t)
    requires |run| > AheadOf(run[0].0, t, MAX_TASKS) + 1
    ensures exists k :: 1 <= k <= AheadOf(run[0].0, t, MAX_TASKS) + 1 && run[k].1 == t
    decreases |run|
  {
    if run[1].1 != t {
      PassedOver(run[0].0, run[0].1, run[1].0, run[1].1, t);
      BoundedWait(run[1..], t);
      var k :| 1 <= k <= AheadOf(run[1].0, t, MAX_TASKS) + 1 && run[1..][k].1 == t;
      assert run[k + 1].1 == t;
    }
  }

  /** The foremost tasks have been picked equally often, give or take one. */
  ghost predicate Balanced(ts: seq<Task>) {
    forall i, j :: 0 <= i < |ts| && 0 <= j < |ts| && Foremost(ts, i) && Foremost(ts, j) ==>
      ts[i].switches <= ts[j].switches + 1
  }

  /** A switch moves the processor, and changes neither who is ready nor how nice anybody is. */
  lemma SameForemost(ts: seq<Task>, cur: nat, after: seq<Task>, next: nat, i: nat)
    requires |ts| == MAX_TASKS && OneRunning(ts, cur) && Preempted(ts, cur, after, next) && i < MAX_TASKS
    ensures |after| == |ts| && OneRunning(after, next)
    ensures Foremost(after, i) ==> Foremost(ts, i) && Ready(Yielded(ts, cur)[i])
    ensures after[i].switches == ts[i].switches + if i == next then 1 else 0
    ensures Foremost(after, i) ==> i == next || !Before(Yielded(ts, cur)[i], Yielded(ts, cur)[next])
  {
    if Foremost(after, i) {
      forall j | 0 <= j < |ts| && ts[j].used && (ts[j].state == Runnable || ts[j].state == Running)
        ensures ts[i].nice <= ts[j].nice
      {
        assert after[j].used && (after[j].state == Runnable || after[j].state == Running);
      }
    }
  }

  /** Once balanced, always balanced. */
  lemma StaysBalanced(ts: seq<Task>, cur: nat, after: seq<Task>, next: nat)
    requires |ts| == MAX_TASKS && OneRunning(ts, cur) && Preempted(ts, cur, after, next) && Balanced(ts)
    ensures OneRunning(after, next) && Balanced(after)
  {
    hide Foremost, OneRunning;
    SameForemost(ts, cur, after, next, 0);
    forall i, j | 0 <= i < |ts| && 0 <= j < |ts| && Foremost(after, i) && Foremost(after, j)
      ensures after[i].switches <= after[j].switches + 1
    {
      SameForemost(ts, cur, after, next, i);
      SameForemost(ts, cur, after, next, j);
      ForemostNice(after, i, j);
    }
  }

  lemma ForemostNice(ts: seq<Task>, i: nat, j: nat)
    requires i < |ts| && j < |ts| && Foremost(ts, i) && Foremost(ts, j)
    ensures ts[i].nice == ts[j].nice
  {
  }

  lemma {:induction false} BalancedRun(run: seq<(seq<Task>, nat)>)
    requires Ticks(run) && |run| > 0 && OneRunning(run[0].0, run[0].1) && Balanced(run[0].0)
    ensures forall k :: 0 <= k < |run| ==> Balanced(run[k].0)
    decreases |run|
  {
    if |run| > 1 {
      StaysBalanced(run[0].0, run[0].1, run[1].0, run[1].1);
      BalancedRun(run[1..]);
      forall k | 0 <= k < |run|
        ensures Balanced(run[k].0)
      {
        assert k > 0 ==> run[1..][k - 1] == run[k];
      }
    }
  }
}
