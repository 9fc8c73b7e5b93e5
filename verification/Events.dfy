/**
 The input event queues of src/kernel/main.c: one ring per device, and any number of open states
 that each remember the number of the next event to read.
 */
module Events {

  const CAP := 256

  /** What one read returned: the number of the event, the event, and how many had been pushed. */
  datatype Got<E> = Got(n: nat, e: E, at: nat)

  /** The first number that could have followed the first k reads. */
  function After<E>(log: seq<Got<E>>, start: nat, k: nat): nat
    requires k <= |log|
  {
    if k == 0 then start else log[k - 1].n + 1
  }

  /** Read k returned the event pushed under its number, after all numbers read before. */
  ghost predicate InOrder<E(!new)>(log: seq<Got<E>>, start: nat, k: nat, pushed: seq<E>)
    requires k < |log|
  {
    && log[k].n < log[k].at <= |pushed| && log[k].e == pushed[log[k].n]
    && After(log, start, k) <= log[k].n
    && (After(log, start, k) < log[k].n ==> log[k].n + CAP <= log[k].at)
  }

  /**
   What an open state that started at `start` has read so far: events in increasing order, each
   the one pushed under its number, and an event left out only when 256 newer ones had been pushed.
   */
  ghost predicate History<E(!new)>(log: seq<Got<E>>, start: nat, next: nat, pushed: seq<E>) {
    && start <= next <= |pushed| && After(log, start, |log|) <= next
    && (forall k :: 0 <= k < |log| ==> InOrder(log, start, k, pushed))
    && (After(log, start, |log|) < next ==> next + CAP <= |pushed|)
  }

  lemma MorePushed<E(!new)>(log: seq<Got<E>>, start: nat, next: nat, pushed: seq<E>, e: E)
    requires History(log, start, next, pushed)
    ensures History(log, start, next, pushed + [e])
  {
    forall k | 0 <= k < |log|
      ensures InOrder(log, start, k, pushed + [e])
    {
      assert InOrder(log, start, k, pushed);
    }
  }

  /** Numbers strictly increase, so no event is read twice. */
  lemma {:induction false} Increasing<E(!new)>(log: seq<Got<E>>, start: nat, next: nat, pushed: seq<E>, i: nat, j: nat)
    requires History(log, start, next, pushed) && i < j < |log|
    ensures start <= log[i].n < log[j].n < next
    decreases j
  {
    assert InOrder(log, start, j, pushed);
    if i + 1 < j {
      Increasing(log, start, next, pushed, i, j - 1);
    } else {
      FromStart(log, start, next, pushed, i);
    }
    UpTo(log, start, next, pushed, j);
  }

  lemma {:induction false} FromStart<E(!new)>(log: seq<Got<E>>, start: nat, next: nat, pushed: seq<E>, i: nat)
    requires History(log, start, next, pushed) && i < |log|
    ensures start <= log[i].n
  {
    assert InOrder(log, start, i, pushed);
    if i > 0 {
      FromStart(log, start, next, pushed, i - 1);
    }
  }

  lemma {:induction false} UpTo<E(!new)>(log: seq<Got<E>>, start: nat, next: nat, pushed: seq<E>, j: nat)
    requires History(log, start, next, pushed) && j < |log|
    ensures log[j].n < next
    decreases |log| - j
  {
    if j + 1 < |log| {
      assert InOrder(log, start, j + 1, pushed);
      UpTo(log, start, next, pushed, j + 1);
    }
  }

  /** Every event since the opening was read or overtaken by 256 newer ones. */
  lemma {:induction false} NoneLost<E(!new)>(log: seq<Got<E>>, start: nat, next: nat, pushed: seq<E>, n: nat, k: nat)
    requires History(log, start, next, pushed) && start <= n && k <= |log|
    requires if k == |log| then n < next else n < After(log, start, k)
    ensures (exists j :: 0 <= j < |log| && log[j].n == n) || n + CAP < |pushed|
    decreases k
  {
    if n < After(log, start, k) && log[k - 1].n != n {
      assert InOrder(log, start, k - 1, pushed);
      if n < After(log, start, k - 1) {
        NoneLost(log, start, next, pushed, n, k - 1);
      }
    }
  }

  /** The ring holds the latest events, each in the slot of its number. */
  ghost predicate LatestIn<E(!new)>(queue: seq<E>, pushed: seq<E>)
    requires |queue| == CAP
  {
    forall n :: 0 <= n < |pushed| <= n + CAP ==> queue[n % CAP] == pushed[n]
  }

  /** The events in out follow each other from number first on. */
  predicate Stretch<E(==)>(pushed: seq<E>, first: nat, out: seq<E>) {
    first + |out| <= |pushed| && out == pushed[first..first + |out|]
  }

  lemma StretchNone<E>(pushed: seq<E>, first: nat)
    requires first <= |pushed|
    ensures Stretch(pushed, first, [])
  {
  }

  lemma StretchMore<E>(pushed: seq<E>, first: nat, out: seq<E>, e: E)
    requires Stretch(pushed, first, out) && first + |out| < |pushed| && e == pushed[first + |out|]
    ensures Stretch(pushed, first, out + [e])
  {
  }

  lemma LatestAt<E(!new)>(queue: seq<E>, pushed: seq<E>, n: nat)
    requires |queue| == CAP && LatestIn(queue, pushed) && n < |pushed| <= n + CAP
    ensures queue[n % CAP] == pushed[n]
  {
  }

  class EventRing<E(!new)> {
    var queue: seq<E>
    var count: nat
    var readers: map<nat, nat>
    ghost var pushed: seq<E>
    ghost var logs: map<nat, seq<Got<E>>>
    ghost var starts: map<nat, nat>

    ghost predicate Valid()
      reads this
    {
      && |queue| == CAP && count == |pushed|
      && LatestIn(queue, pushed)
      && logs.Keys == readers.Keys == starts.Keys
      && (forall r :: r in readers ==> readers[r] <= count && History(logs[r], starts[r], readers[r], pushed))
    }

    constructor (filler: E)
      ensures Valid() && pushed == [] && readers == map[]
    {
      queue := seq(CAP, i => filler);
      count, readers := 0, map[];
      pushed, logs, starts := [], map[], map[];
    }

    /** input_push_event and mouse_push_event */
    method Push(e: E)
      requires Valid()
      modifies this`queue, this`count, this`pushed
      ensures Valid() && pushed == old(pushed) + [e]
    {
      forall r | r in readers
        ensures History(logs[r], starts[r], readers[r], pushed + [e])
      {
        MorePushed(logs[r], starts[r], readers[r], pushed, e);
      }
      SlotsApart(count);
      queue := queue[count % CAP := e];
      count := count + 1;
      pushed := pushed + [e];
    }

    /** A new open state starts with the next event. */
    method Open(r: nat)
      requires Valid() && r !in readers
      modifies this`readers, this`logs, this`starts
      ensures Valid() && readers == old(readers)[r := count] && logs == old(logs)[r := []]
      ensures starts == old(starts)[r := count]
    {
      readers, logs, starts := readers[r := count], logs[r := []], starts[r := count];
    }

    /** The oldest event still in the ring. */
    function Oldest(): nat
      reads this`count
    {
      if count > CAP then count - CAP else 0
    }

    /** Where a read continues. */
    function Synced(next: nat): nat
      reads this`count
    {
      if next < Oldest() then Oldest() else next
    }

    /** keyboard_fd_sync and mouse_fd_sync */
    method Sync(r: nat)
      requires Valid() && r in readers
      modifies this`readers
      ensures Valid() && Oldest() <= readers[r]
      ensures readers == old(readers)[r := Synced(old(readers)[r])]
    {
      if readers[r] < Oldest() {
        readers := readers[r := Oldest()];
      }
    }

    /** keyboard_pop_event_fd and mouse_pop_event_fd, through any descriptor of the open state */
    method Pop(r: nat) returns (ok: bool, e: E)
      requires Valid() && r in readers
      modifies this`readers, this`logs
      ensures Valid() && readers.Keys == old(readers).Keys
      ensures ok <==> old(readers)[r] < count
      ensures ok ==> var n := Synced(old(readers)[r]);
                     n < count && e == pushed[n] && readers[r] == n + 1 && logs[r] == old(logs)[r] + [Got(n, e, count)]
      ensures !ok ==> readers[r] == old(readers)[r] && logs[r] == old(logs)[r]
      ensures forall s :: s in readers && s != r ==> readers[s] == old(readers)[s] && logs[s] == old(logs)[s]
    {
      hide History, LatestIn;
      Sync(r);
      var n := readers[r];
      e := queue[n % CAP];
      ok := n < count;
      if ok {
        LatestAt(queue, pushed, n);
        Next(r, e);
      }
    }

    /** The reader has got event e. */
    method Next(r: nat, e: E)
      requires Valid() && r in readers && readers[r] < count && e == pushed[readers[r]]
      modifies this`readers, this`logs
      ensures Valid() && readers == old(readers)[r := old(readers)[r] + 1]
      ensures logs == old(logs)[r := old(logs)[r] + [Got(old(readers)[r], e, count)]]
    {
      hide History, LatestIn;
      var n := readers[r];
      MoreRead(logs[r], starts[r], n, pushed, Got(n, e, count));
      readers := readers[r := n + 1];
      logs := logs[r := logs[r] + [Got(n, e, count)]];
    }

    /** The loop of a read: up to max events that follow each other. */
    method Read(r: nat, max: nat) returns (out: seq<E>)
      requires Valid() && r in readers
      modifies this`readers, this`logs
      ensures Valid() && readers.Keys == old(readers).Keys
      ensures forall s :: s in readers && s != r ==> readers[s] == old(readers)[s] && logs[s] == old(logs)[s]
      ensures |out| <= max && (|out| < max ==> readers[r] == count)
      ensures out != [] ==> readers[r] == Synced(old(readers)[r]) + |out| <= count
      ensures Stretch(pushed, Synced(old(readers)[r]), out)
    {
      hide History, LatestIn, Stretch;
      out := [];
      StretchNone(pushed, Synced(readers[r]));
      ghost var first := Synced(readers[r]);
      while |out| < max
        invariant Valid() && readers.Keys == old(readers).Keys && |out| <= max
        invariant forall s :: s in readers && s != r ==> readers[s] == old(readers)[s] && logs[s] == old(logs)[s]
        invariant Synced(readers[r]) == first + |out| <= count && (out != [] ==> readers[r] == first + |out|)
        invariant Stretch(pushed, first, out)
        decreases max - |out|
      {
        var ok, e := Pop(r);
        if !ok {
          break;
        }
        StretchMore(pushed, first, out, e);
        out := out + [e];
      }
    }
  }

  lemma MoreRead<E(!new)>(log: seq<Got<E>>, start: nat, next: nat, pushed: seq<E>, got: Got<E>)
    requires History(log, start, next, pushed) && next < |pushed| && got == Got(next, pushed[next], |pushed|)
    ensures History(log + [got], start, next + 1, pushed)
  {
    var more := log + [got];
    forall k | 0 <= k < |more|
      ensures InOrder(more, start, k, pushed)
    {
      assert After(more, start, k) == After(log, start, k);
      assert k < |log| ==> InOrder(log, start, k, pushed);
    }
  }

  /** The events still in the ring have slots of their own. */
  lemma SlotsApart(count: nat)
    ensures forall n :: 0 <= n < count < n + CAP ==> n % CAP != count % CAP
  {
  }
}
