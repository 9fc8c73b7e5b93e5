/**
 The memory map calls of src/kernel/main.c over all tasks: tasks that share an address space keep
 the same table of lazy ranges and the same placement cursor, and a mapping without a fixed address
 never lands on a page or on a reservation.

 An address space is named by its root; the pages that translate in it are a set of addresses.
 */
module MemoryMap {
  import opened Common
  import opened LazyMmap
  import opened Placement

  const MAX_TASKS := 64
  const EFAULT := -14
  const EACCES := -13

  datatype Task = Task(used: bool, cr3: nat, heapEnd: nat, mmapNext: nat, lazy: seq<Range>)

  predicate Shares(ts: seq<Task>, t: nat, i: nat)
    requires t < |ts| && i < |ts|
  {
    ts[i].used && (i == t || (ts[t].cr3 != 0 && ts[i].cr3 == ts[t].cr3))
  }

  ghost predicate WellFormed(ts: seq<Task>) {
    && |ts| == MAX_TASKS
    && forall i :: 0 <= i < |ts| ==> |ts[i].lazy| == SLOTS && ts[i].heapEnd < U64 && ts[i].mmapNext < U64
  }

  /** Two tasks in one address space. */
  predicate Twins(a: Task, b: Task) {
    a.used && b.used && a.cr3 != 0 && a.cr3 == b.cr3
  }

  /** Tasks in one address space agree on its lazy ranges. */
  ghost predicate SameTables(ts: seq<Task>) {
    forall i, j :: 0 <= i < |ts| && 0 <= j < |ts| && Twins(ts[i], ts[j]) ==> ts[i].lazy == ts[j].lazy
  }

  /** Every reservation ends at or below the cursor of every task that has it. */
  ghost predicate BelowCursors(ts: seq<Task>) {
    forall i :: 0 <= i < |ts| && ts[i].used ==> EndsBelow(ts[i].lazy, ts[i].mmapNext)
  }

  /** The highest cursor of the first n tasks that share with t. */
  function Highest(ts: seq<Task>, t: nat, n: nat): (high: nat)
    requires t < |ts| && n <= |ts|
    ensures MMAP_MIN <= high
    ensures forall i :: 0 <= i < n && Shares(ts, t, i) ==> ts[i].mmapNext <= high
    ensures high == MMAP_MIN || exists i :: 0 <= i < n && Shares(ts, t, i) && ts[i].mmapNext == high
  {
    if n == 0 then MMAP_MIN else
      var high := Highest(ts, t, n - 1);
      if Shares(ts, t, n - 1) && ts[n - 1].mmapNext > high then ts[n - 1].mmapNext else high
  }

  ghost function Retabled(ts: seq<Task>, t: nat, n: nat, table: seq<Range>): (r: seq<Task>)
    requires t < |ts| && n <= |ts|
    ensures |r| == |ts|
  {
    seq(|ts|, i requires 0 <= i < |ts| => if i < n && Shares(ts, t, i) then ts[i].(lazy := table) else ts[i])
  }

  ghost function Recursored(ts: seq<Task>, t: nat, n: nat, cursor: nat): (r: seq<Task>)
    requires t < |ts| && n <= |ts|
    ensures |r| == |ts|
  {
    seq(|ts|, i requires 0 <= i < |ts| => if i < n && Shares(ts, t, i) then ts[i].(mmapNext := cursor) else ts[i])
  }

  lemma RetabledKeeps(ts: seq<Task>, t: nat, table: seq<Range>)
    requires t < |ts| && WellFormed(ts) && SameTables(ts) && |table| == SLOTS && ts[t].used
    ensures WellFormed(Retabled(ts, t, |ts|, table)) && SameTables(Retabled(ts, t, |ts|, table))
  {
  }

  lemma RecursoredKeeps(ts: seq<Task>, t: nat, cursor: nat)
    requires t < |ts| && WellFormed(ts) && SameTables(ts) && cursor < U64
    ensures WellFormed(Recursored(ts, t, |ts|, cursor)) && SameTables(Recursored(ts, t, |ts|, cursor))
    ensures BelowCursors(ts) && Highest(ts, t, |ts|) <= cursor ==> BelowCursors(Recursored(ts, t, |ts|, cursor))
  {
  }

  lemma RecursoredTwice(ts: seq<Task>, t: nat, a: nat, b: nat)
    requires t < |ts|
    ensures Recursored(Recursored(ts, t, |ts|, a), t, |ts|, b) == Recursored(ts, t, |ts|, b)
  {
  }

  /** Cursors at or above next, and above all others, are above reservations that may reach up to next. */
  lemma AdvancedBelow(ts: seq<Task>, t: nat, next: nat, cursor: nat)
    requires t < |ts| && next <= cursor && Highest(ts, t, |ts|) <= cursor
    requires forall i :: 0 <= i < |ts| && ts[i].used && !Shares(ts, t, i) ==> EndsBelow(ts[i].lazy, ts[i].mmapNext)
    requires forall i, c :: 0 <= i < |ts| && Shares(ts, t, i) && c >= next && c >= ts[i].mmapNext ==>
               EndsBelow(ts[i].lazy, c)
    ensures BelowCursors(Recursored(ts, t, |ts|, cursor))
  {
    hide EndsBelow;
    var rs := Recursored(ts, t, |ts|, cursor);
    forall i | 0 <= i < |rs| && rs[i].used
      ensures EndsBelow(rs[i].lazy, rs[i].mmapNext)
    {
      assert Shares(ts, t, i) ==> ts[i].mmapNext <= cursor;
    }
  }

  /** The pages of a range. */
  function PagesOf(lo: nat, hi: nat): (pages: set<nat>)
    ensures forall va :: va in pages <==> lo <= va < hi && va % PAGE == 0
  {
    set va | lo <= va < hi && va % PAGE == 0
  }

  predicate AnyRangeOk(addr: nat, len: nat) {
    len > 0 && addr < USER_LIMIT && len <= USER_LIMIT - addr
  }

  /** No lazy range of t's space holds an address of [lo, hi). */
  ghost predicate Unreserved(ts: seq<Task>, t: nat, lo: nat, hi: nat)
    requires t < |ts|
  {
    forall i, addr :: 0 <= i < |ts| && Shares(ts, t, i) && lo <= addr < hi ==> Lookup(ts[i].lazy, addr) == None
  }

  /** Every task of t's space finds what a change of [lo, hi) is meant to leave; no other task notices. */
  ghost predicate LookupsChanged(was: seq<Task>, ts: seq<Task>, t: nat, lo: nat, hi: nat, op: Operation, prot: nat)
    requires t < |was|
  {
    && |ts| == |was|
    && forall i :: 0 <= i < |was| ==>
         && ts[i].used == was[i].used && ts[i].cr3 == was[i].cr3 && ts[i].heapEnd == was[i].heapEnd
         && (!Shares(was, t, i) ==> ts[i].lazy == was[i].lazy)
         && (Shares(was, t, i) ==>
               forall addr :: Lookup(ts[i].lazy, addr) == Changed(Lookup(was[i].lazy, addr), addr, lo, hi, op, prot))
  }

  ghost predicate LookupsSame(was: seq<Task>, ts: seq<Task>) {
    && |ts| == |was|
    && forall i :: 0 <= i < |was| ==>
         && ts[i].used == was[i].used && ts[i].cr3 == was[i].cr3
         && ts[i].heapEnd == was[i].heapEnd && ts[i].lazy == was[i].lazy
  }

  lemma RetabledLookups(ts: seq<Task>, t: nat, lo: nat, hi: nat, op: Operation, prot: nat)
    requires t < |ts| && SameTables(ts) && lo < hi && |Rebuilt(ts[t].lazy, lo, hi, op, prot)| <= SLOTS && ts[t].used
    ensures var table := Padded(Rebuilt(ts[t].lazy, lo, hi, op, prot));
            LookupsChanged(ts, Retabled(ts, t, |ts|, table), t, lo, hi, op, prot)
  {
    var table := Padded(Rebuilt(ts[t].lazy, lo, hi, op, prot));
    forall addr
      ensures Lookup(table, addr) == Changed(Lookup(ts[t].lazy, addr), addr, lo, hi, op, prot)
    {
      RebuiltLookup(ts[t].lazy, lo, hi, op, prot, addr);
      PaddedLookup(Rebuilt(ts[t].lazy, lo, hi, op, prot), addr);
    }
  }

  // ----- What each call is to do -----

  /** The tasks of t's space have their cursor at c; all others have theirs where it was. */
  ghost predicate CursorsMoved(was: seq<Task>, now: seq<Task>, t: nat, c: nat)
    requires t < |was|
  {
    && |now| == |was|
    && forall i :: 0 <= i < |was| ==> now[i].mmapNext == if Shares(was, t, i) then c else was[i].mmapNext
  }

  ghost predicate CursorsStay(was: seq<Task>, now: seq<Task>) {
    |now| == |was| && forall i :: 0 <= i < |was| ==> now[i].mmapNext == was[i].mmapNext
  }

  datatype State = State(tasks: seq<Task>, mapped: map<nat, set<nat>>)

  /** What sys_mmap says to arguments it does not look at further, or 0. */
  ghost function MmapRefusal(c: nat, addr: nat, len: nat, prot: nat, fixed: bool): int {
    if c == 0 then EFAULT
    else if len == 0 || len > 0x4000_0000 then EINVAL
    else if WriteExec(prot) then EACCES
    else if fixed && addr % PAGE != 0 then EINVAL
    else 0
  }

  /** The same for sys_mprotect, which gets as far as its table of lazy ranges. */
  ghost function MprotectRefusal(s: State, t: nat, addr: nat, len: nat, prot: nat): int
    requires t < |s.tasks|
  {
    var hi := addr + AlignUp(len);
    if s.tasks[t].cr3 == 0 then EFAULT
    else if addr % PAGE != 0 || len == 0 then EINVAL
    else if WriteExec(prot) then EACCES
    else if AlignUp(len) == 0 || hi > 0x8000_0000_0000 then EINVAL
    else if |Rebuilt(s.tasks[t].lazy, addr, hi, SetProt, prot)| > SLOTS then ENOMEM
    else 0
  }

  /** A mapping of anonymous memory. */
  ghost predicate Mmapped(s: State, n: State, t: nat, addr: nat, len: nat, prot: nat, fixed: bool, avail: nat, r: int)
    requires t < |s.tasks| == MAX_TASKS
  {
    var c, hi := s.tasks[t].cr3, r + AlignUp(len);
    && (r >= 0 <==> if fixed then CanMmapAt(s.tasks, t, addr, len, prot, avail)
                    else CanMmap(s.tasks, t, s.mapped, len, prot, avail))
    && (var early := MmapRefusal(c, addr, len, prot, fixed); early != 0 ==> r == early)
    && (r < 0 && !fixed ==> n.mapped == s.mapped && LookupsSame(s.tasks, n.tasks))
    && (r < 0 && fixed ==>
          && OnlyPages(s.mapped, n.mapped, c, addr, addr + AlignUp(len))
          && (LookupsSame(s.tasks, n.tasks)
              || LookupsChanged(s.tasks, n.tasks, t, addr, addr + AlignUp(len), Remove, 0)))
    && (r >= 0 ==> 0 < len && c in s.mapped && n.mapped == s.mapped[c := PagesAfter(s.mapped[c], prot, fixed, r, hi)])
    && (r >= 0 && fixed ==> r == addr)
    && (r >= 0 && !fixed ==>
          && Placed(s.mapped[c], Highest(s.tasks, t, MAX_TASKS), r, AlignUp(len), s.tasks[t].heapEnd)
          && Unreserved(s.tasks, t, r, hi))
    && (if r >= 0 then CursorsMoved(s.tasks, n.tasks, t, Max(hi, Highest(s.tasks, t, MAX_TASKS)))
        else if c == 0 then CursorsStay(s.tasks, n.tasks)
        else CursorsMoved(s.tasks, n.tasks, t, Highest(s.tasks, t, MAX_TASKS)))
    && (r >= 0 && prot == 0 ==> LookupsChanged(s.tasks, n.tasks, t, r, hi, Replace, 0))
    && (r >= 0 && prot != 0 ==>
          if fixed then LookupsChanged(s.tasks, n.tasks, t, r, hi, Remove, 0) else LookupsSame(s.tasks, n.tasks))
  }

  /** The range is gone from the tables and the pages, or nothing changed. */
  ghost predicate Munmapped(s: State, n: State, t: nat, addr: nat, len: nat, fs: nat, gs: nat, rc: int)
    requires t < |s.tasks|
  {
    var c, hi := s.tasks[t].cr3, addr + AlignUp(len);
    && (rc != 0 ==> n == s) && CursorsStay(s.tasks, n.tasks)
    && (rc == 0 ==> c in s.mapped && n.mapped == s.mapped[c := s.mapped[c] - PagesOf(addr, hi)])
    && (rc == 0 ==> LookupsChanged(s.tasks, n.tasks, t, addr, hi, Remove, 0))
    && rc == if c == 0 then EFAULT
             else if addr % PAGE != 0 || len == 0 || AlignUp(len) == 0 || hi > 0x8000_0000_0000 then EINVAL
             else if (fs != 0 && addr <= fs < hi) || (gs != 0 && addr <= gs < hi) then EINVAL
             else if |Rebuilt(s.tasks[t].lazy, addr, hi, Remove, 0)| > SLOTS then ENOMEM
             else 0
  }

  /** The range has a new protection; its pages are all mapped, or none for no access. */
  ghost predicate Mprotected(s: State, n: State, t: nat, addr: nat, len: nat, prot: nat, avail: nat, rc: int)
    requires t < |s.tasks| && (s.tasks[t].cr3 != 0 ==> s.tasks[t].cr3 in s.mapped)
  {
    var c, hi := s.tasks[t].cr3, addr + AlignUp(len);
    && OnlyPages(s.mapped, n.mapped, c, addr, hi) && CursorsStay(s.tasks, n.tasks)
    && (var early := MprotectRefusal(s, t, addr, len, prot);
        if early != 0 then rc == early && n == s
        else
          && LookupsChanged(s.tasks, n.tasks, t, addr, hi, SetProt, prot)
          && (rc == 0 <==> CanProtect(s.mapped[c], s.tasks[t].lazy, addr, hi, prot, avail)))
    && (rc == 0 ==>
          && c in s.mapped && c in n.mapped
          && SameOff(s.mapped[c], n.mapped[c], addr, hi)
          && if prot == 0 then n.mapped[c] !! PagesOf(addr, hi) else PagesOf(addr, hi) <= n.mapped[c])
  }

  /** One page, exactly for an allowed access to an unmapped page of a lazy range. */
  ghost predicate Faulted(s: State, n: State, t: nat, addr: nat, write: bool, exec: bool, spare: bool, ok: bool)
    requires t < |s.tasks| && (s.tasks[t].cr3 != 0 ==> s.tasks[t].cr3 in s.mapped)
  {
    var c := s.tasks[t].cr3;
    && (ok <==>
          && c != 0 && spare && PageOf(addr) !in s.mapped[c]
          && Lookup(s.tasks[t].lazy, addr).Some? && Allowed(Lookup(s.tasks[t].lazy, addr).value, write, exec))
    && n == if ok then s.(mapped := s.mapped[c := s.mapped[c] + {PageOf(addr)}]) else s
  }

  /** The first free slot is a task in the same space. */
  ghost predicate Cloned(s: State, n: State, parent: nat, child: int)
    requires parent < |s.tasks|
  {
    && (child < 0 <==> forall i :: 0 <= i < |s.tasks| ==> s.tasks[i].used)
    && (child < 0 ==> n == s)
    && (child >= 0 ==> child < |s.tasks| && FirstFree(s.tasks, child)
                       && n == s.(tasks := s.tasks[child := s.tasks[parent]]))
  }

  /** The first free slot is a task in a copy of the space. */
  ghost predicate Forked(s: State, n: State, parent: nat, copy: nat, child: int)
    requires parent < |s.tasks|
  {
    && (child < 0 <==> copy == 0 || forall i :: 0 <= i < |s.tasks| ==> s.tasks[i].used)
    && (child < 0 ==>
          && n.mapped == s.mapped && |n.tasks| == |s.tasks|
          && forall i :: 0 <= i < |s.tasks| ==> if s.tasks[i].used then n.tasks[i] == s.tasks[i] else !n.tasks[i].used)
    && (child >= 0 ==>
          && child < |s.tasks| && FirstFree(s.tasks, child) && s.tasks[parent].cr3 in s.mapped
          && n == State(s.tasks[child := s.tasks[parent].(cr3 := copy)],
                        s.mapped[copy := s.mapped[s.tasks[parent].cr3]]))
  }

  ghost predicate FirstFree(ts: seq<Task>, i: int) {
    0 <= i < |ts| && !ts[i].used && forall j :: 0 <= j < i ==> ts[j].used
  }

  /** The old space goes unless another task has it. */
  ghost predicate Execed(s: State, n: State, t: nat, root: nat, pages: set<nat>, heapEnd: nat)
    requires t < |s.tasks|
  {
    var c := s.tasks[t].cr3;
    && n.tasks == s.tasks[t := Task(true, root, heapEnd, MMAP_MIN, Padded([]))]
    && n.mapped == (if c == 0 || Others(s.tasks, t) then s.mapped else s.mapped - {c})[root := pages]
  }

  /** The space goes with its last task; task 0's stays. */
  ghost predicate Reaped(s: State, n: State, t: nat)
    requires t < |s.tasks|
  {
    var c := s.tasks[t].cr3;
    && n.tasks == s.tasks[t := s.tasks[t].(used := false, cr3 := 0)]
    && n.mapped == if c == 0 || c == s.tasks[0].cr3 || Others(s.tasks, t) then s.mapped else s.mapped - {c}
  }

  /** One call of one task, with its result. */
  ghost predicate Effect(s: State, n: State, call: Call, r: int)
    requires Settled(s)
  {
    if call.t >= |s.tasks| || |s.tasks| != MAX_TASKS || !s.tasks[call.t].used then n == s else
      match call
      case CallMmap(t, addr, len, prot, fixed, avail) => Mmapped(s, n, t, addr, len, prot, fixed, avail, r)
      case CallMunmap(t, addr, len, fs, gs) => Munmapped(s, n, t, addr, len, fs, gs, r)
      case CallMprotect(t, addr, len, prot, avail) => Mprotected(s, n, t, addr, len, prot, avail, r)
      case CallFault(t, addr, write, exec, spare) =>
        (r == 0 || r == 1) && Faulted(s, n, t, addr, write, exec, spare, r != 0)
      case CallClone(t) => Cloned(s, n, t, r)
      case CallFork(t, copy) => if s.tasks[t].cr3 != 0 && copy !in s.mapped then Forked(s, n, t, copy, r) else n == s
      case CallExec(t, root, pages, heapEnd) =>
        if root !in s.mapped && root != 0 then Execed(s, n, t, root, pages, heapEnd) else n == s
      case CallReap(t) => Reaped(s, n, t)
  }

  class Tasks {
    var tasks: seq<Task>
    var mapped: map<nat, set<nat>>

    ghost predicate Valid()
      reads this
    {
      && WellFormed(tasks) && SameTables(tasks) && BelowCursors(tasks)
      && (forall c :: c in mapped ==> AllPages(mapped[c]))
      && (forall i :: 0 <= i < |tasks| && tasks[i].used && tasks[i].cr3 != 0 ==> tasks[i].cr3 in mapped)
    }

    ghost function Now(): State
      reads this
    {
      State(tasks, mapped)
    }

    /** At boot: the root task in its space. */
    constructor (cr3: nat, pages: set<nat>)
      requires cr3 != 0 && AllPages(pages)
      ensures Valid() && tasks[0] == Task(true, cr3, HEAP_BASE, MMAP_MIN, Padded([])) && mapped == map[cr3 := pages]
    {
      var root := Task(true, cr3, HEAP_BASE, MMAP_MIN, Padded([]));
      tasks := seq(MAX_TASKS, i => if i == 0 then root else root.(used := false, cr3 := 0));
      mapped := map[cr3 := pages];
    }

    /** task_lazy_mmap_transform_shared: all tasks of the space or none. */
    method TransformShared(t: nat, start: nat, end: nat, op: Operation, prot: nat) returns (rc: int)
      requires WellFormed(tasks) && SameTables(tasks) && t < MAX_TASKS && tasks[t].used
      modifies this`tasks
      ensures rc == if start >= end then EINVAL
                    else if |Rebuilt(old(tasks)[t].lazy, start, end, op, prot)| > SLOTS then ENOMEM else 0
      ensures rc != 0 ==> tasks == old(tasks)
      ensures rc == 0 ==>
                tasks == Retabled(old(tasks), t, MAX_TASKS, Padded(Rebuilt(old(tasks)[t].lazy, start, end, op, prot)))
    {
      hide Rebuilt, Padded, Lookup, Changed;
      ghost var ts := tasks;
      ghost var good := start < end && |Rebuilt(ts[t].lazy, start, end, op, prot)| <= SLOTS;
      ghost var table := if good then Padded(Rebuilt(ts[t].lazy, start, end, op, prot)) else ts[t].lazy;
      for i := 0 to MAX_TASKS
        invariant tasks == Retabled(ts, t, i, table)
        invariant i > t ==> good
      {
        assert Shares(tasks, t, i) == Shares(ts, t, i);
        if Shares(tasks, t, i) {
          assert tasks[i] == ts[i] && ts[i].lazy == ts[t].lazy;
          var after;
          rc, after := Transform(tasks[i].lazy, start, end, op, prot);
          if rc < 0 {
            assert tasks == ts;
            return;
          }
          tasks := tasks[i := tasks[i].(lazy := after)];
        }
      }
      return 0;
    }

    /** The second loop of task_shared_mmap_cursor, and the loop of task_shared_mmap_cursor_advance */
    method SetCursors(t: nat, cursor: nat)
      requires t < |tasks|
      modifies this`tasks
      ensures tasks == Recursored(old(tasks), t, |old(tasks)|, cursor)
    {
      ghost var ts := tasks;
      for i := 0 to |tasks|
        invariant tasks == Recursored(ts, t, i, cursor)
      {
        assert tasks[i] == ts[i] && tasks[t].cr3 == ts[t].cr3;
        if tasks[i].used && (i == t || (tasks[t].cr3 != 0 && tasks[i].cr3 == tasks[t].cr3)) {
          tasks := tasks[i := tasks[i].(mmapNext := cursor)];
        }
      }
    }

    /** The first loop of task_shared_mmap_cursor */
    method HighCursor(t: nat) returns (high: nat)
      requires WellFormed(tasks) && t < MAX_TASKS
      ensures high == Highest(tasks, t, MAX_TASKS) && high < U64
    {
      high := MMAP_MIN;
      for i := 0 to MAX_TASKS
        invariant high == Highest(tasks, t, i) && high < U64
      {
        if Shares(tasks, t, i) && tasks[i].mmapNext > high {
          high := tasks[i].mmapNext;
        }
      }
    }

    /** task_shared_mmap_cursor */
    method Cursor(t: nat) returns (high: nat)
      requires Valid() && t < MAX_TASKS
      modifies this`tasks
      ensures Valid() && high == Highest(old(tasks), t, MAX_TASKS) && high < U64
      ensures tasks == Recursored(old(tasks), t, MAX_TASKS, high)
    {
      high := HighCursor(t);
      RecursoredKeeps(tasks, t, high);
      SetCursors(t, high);
    }

    /** task_shared_mmap_cursor_advance, on tables that may reach up to next */
    method Advance(t: nat, next: nat)
      requires WellFormed(tasks) && SameTables(tasks) && t < MAX_TASKS && next < U64
      requires forall i :: 0 <= i < MAX_TASKS && tasks[i].used && !Shares(tasks, t, i) ==>
                 EndsBelow(tasks[i].lazy, tasks[i].mmapNext)
      requires forall i, c :: 0 <= i < MAX_TASKS && Shares(tasks, t, i) && c >= next && c >= tasks[i].mmapNext ==>
                 EndsBelow(tasks[i].lazy, c)
      modifies this`tasks
      ensures WellFormed(tasks) && SameTables(tasks) && BelowCursors(tasks)
      ensures tasks == Recursored(old(tasks), t, MAX_TASKS, Max(next, Highest(old(tasks), t, MAX_TASKS)))
    {
      hide Recursored, SameTables, BelowCursors, EndsBelow, Highest;
      ghost var ts := tasks;
      var high := HighCursor(t);
      SetCursors(t, high);
      if next > high {
        high := next;
      }
      SetCursors(t, high);
      RecursoredTwice(ts, t, Highest(ts, t, MAX_TASKS), high);
      RecursoredKeeps(ts, t, high);
      AdvancedBelow(ts, t, next, high);
    }

    /** Cutting a range out, or changing its protection, in all tasks of the space. */
    method ChangeLazy(t: nat, lo: nat, hi: nat, op: Operation, prot: nat) returns (ok: bool)
      requires Valid() && t < MAX_TASKS && tasks[t].used && lo < hi && op != Replace
      modifies this`tasks
      ensures Valid()
      ensures !ok ==> tasks == old(tasks)
      ensures ok ==> LookupsChanged(old(tasks), tasks, t, lo, hi, op, prot)
      ensures CursorsStay(old(tasks), tasks)
      ensures ok <==> |Rebuilt(old(tasks)[t].lazy, lo, hi, op, prot)| <= SLOTS
    {
      hide Rebuilt, Padded, Lookup, Changed;
      ghost var ts := tasks;
      var rc := TransformShared(t, lo, hi, op, prot);
      ok := rc == 0;
      if ok {
        ghost var table := Padded(Rebuilt(ts[t].lazy, lo, hi, op, prot));
        RetabledKeeps(ts, t, table);
        RetabledLookups(ts, t, lo, hi, op, prot);
        RetabledBelow(ts, t, lo, hi, op, prot);
      }
    }

    /** A reservation at [lo, hi) and the cursor after it; every task of the space has its cursor at `cursor`. */
    method Reserve(t: nat, lo: nat, hi: nat, prot: nat, cursor: nat) returns (rc: int)
      requires Valid() && t < MAX_TASKS && tasks[t].used && lo < hi < U64
      requires forall i :: 0 <= i < MAX_TASKS && Shares(tasks, t, i) ==> tasks[i].mmapNext == cursor
      requires MMAP_MIN <= cursor
      modifies this`tasks
      ensures Valid()
      ensures rc != 0 ==> tasks == old(tasks) && rc == ENOMEM
      ensures rc == 0 ==> LookupsChanged(old(tasks), tasks, t, lo, hi, Replace, prot)
      ensures rc == 0 ==> CursorsMoved(old(tasks), tasks, t, Max(hi, cursor))
      ensures rc == 0 <==> |Rebuilt(old(tasks)[t].lazy, lo, hi, Replace, prot)| <= SLOTS
    {
      hide Rebuilt, Padded, Lookup, Changed, EndsBelow, LookupsChanged, Retabled, Recursored, SameTables, CursorsMoved;
      hide Highest;
      ghost var ts := tasks;
      rc := TransformShared(t, lo, hi, Replace, prot);
      if rc == 0 {
        ghost var table := Padded(Rebuilt(ts[t].lazy, lo, hi, Replace, prot));
        RetabledKeeps(ts, t, table);
        RetabledLookups(ts, t, lo, hi, Replace, prot);
        ReservedBelow(ts, t, lo, hi, prot, cursor);
        ReservedReady(ts, t, table, hi, cursor);
        if hi > cursor {
          ghost var mid := tasks;
          Advance(t, hi);
          RecursoredLookups(mid, t, Max(hi, Highest(mid, t, MAX_TASKS)));
          LookupsAfter(ts, mid, tasks, t, lo, hi, Replace, prot);
        }
        ReservedCursors(ts, t, table, hi, cursor, tasks);
      }
    }

    /** Unmap every page of a range. */
    method UnmapPages(c: nat, base: nat, end: nat)
      requires c in mapped && base % PAGE == 0
      modifies this`mapped
      ensures mapped == old(mapped)[c := old(mapped)[c] - PagesOf(base, end)]
    {
      var va := base;
      PagesNone(old(mapped)[c], base);
      while va < end
        invariant base <= va && va % PAGE == 0 && (va < end + PAGE || va == base)
        invariant mapped == old(mapped)[c := old(mapped)[c] - PagesOf(base, va)]
        decreases end - va
      {
        PagesMore(base, va);
        mapped := mapped[c := mapped[c] - {va}];
        va := va + PAGE;
        assert mapped[c] == old(mapped)[c] - PagesOf(base, va);
      }
      PagesRound(base, va, end);
    }

    /** The page loop of sys_mmap: `avail` pages can be allocated and mapped; running out undoes what was done. */
    method MapPages(c: nat, base: nat, end: nat, fixed: bool, avail: nat) returns (ok: bool)
      requires c in mapped && base % PAGE == 0 && base <= end
      modifies this`mapped
      ensures ok <==> end - base <= avail * PAGE
      ensures ok ==> mapped == old(mapped)[c := old(mapped)[c] + PagesOf(base, end)]
      ensures !ok ==> mapped == old(mapped)[c := old(mapped)[c] - PagesOf(base, base + avail * PAGE)]
    {
      var va, n := base, 0;
      PagesNone(mapped[c], base);
      while va < end
        invariant base <= va && va == base + n * PAGE && va % PAGE == 0 && n <= avail && (va - PAGE < end || n == 0)
        invariant mapped == old(mapped)[c := old(mapped)[c] + PagesOf(base, va)]
        decreases end - va
      {
        PagesMore(base, va);
        if n == avail {
          UnmapPages(c, base, va);
          assert mapped[c] == old(mapped)[c] - PagesOf(base, va);
          return false;
        }
        if fixed {
          mapped := mapped[c := mapped[c] - {va}];
        }
        mapped := mapped[c := mapped[c] + {va}];
        va, n := va + PAGE, n + 1;
        assert mapped[c] == old(mapped)[c] + PagesOf(base, va);
      }
      PagesRound(base, va, end);
      return true;
    }

    /** Every task of t's space has its cursor there. */
    ghost predicate CursorsAt(t: nat, cursor: nat)
      reads this`tasks
      requires t < |tasks|
    {
      forall i :: 0 <= i < |tasks| && Shares(tasks, t, i) ==> tasks[i].mmapNext == cursor
    }

    /** Where sys_mmap puts a mapping. */
    method Place(t: nat, addr: nat, size: nat, fixed: bool, cursor: nat) returns (base: int)
      requires Valid() && t < MAX_TASKS && tasks[t].used && tasks[t].cr3 != 0 && addr < U64 && 0 < size
      requires CursorsAt(t, cursor) && cursor < U64 && (fixed ==> addr % PAGE == 0)
      ensures base >= 0 ==> base % PAGE == 0 && base + size <= USER_LIMIT
      ensures base >= 0 && fixed ==> base == addr
      ensures fixed ==> (base >= 0 <==> AnyRangeOk(addr, size))
      ensures base >= 0 && !fixed ==> Placed(mapped[tasks[t].cr3], cursor, base, size, tasks[t].heapEnd)
      ensures base >= 0 && !fixed ==> Unreserved(tasks, t, base, base + size)
      ensures !fixed ==> (base >= 0 <==> HasFit(mapped[tasks[t].cr3], cursor, size, tasks[t].heapEnd))
    {
      if fixed {
        return if AnyRangeOk(addr, size) then addr else EINVAL;
      }
      if cursor > U64 - PAGE {
        return ENOMEM;
      }
      var ok, b := FindGap(mapped[tasks[t].cr3], cursor, size, tasks[t].heapEnd);
      if !ok {
        return ENOMEM;
      }
      AboveCursors(tasks, t, cursor, b, b + size);
      return b;
    }

    /** sys_mmap without access rights: the range is only noted. */
    method FillLazily(t: nat, base: nat, size: nat, fixed: bool, cursor: nat) returns (r: int)
      requires Valid() && t < MAX_TASKS && tasks[t].used && tasks[t].cr3 != 0 && CursorsAt(t, cursor)
      requires MMAP_MIN <= cursor
      requires base % PAGE == 0 && 0 < size && base + size <= USER_LIMIT
      modifies this
      ensures Valid() && (r == base || r == ENOMEM)
      ensures r < 0 ==> tasks == old(tasks)
      ensures r >= 0 ==> LookupsChanged(old(tasks), tasks, t, base, base + size, Replace, 0)
      ensures r >= 0 ==> CursorsMoved(old(tasks), tasks, t, Max(base + size, cursor))
      ensures cursor <= base ==> (r >= 0 <==> LiveCount(old(tasks)[t].lazy) < SLOTS)
      ensures r >= 0 <==> |Rebuilt(old(tasks)[t].lazy, base, base + size, Replace, 0)| <= SLOTS
      ensures var c := tasks[t].cr3;
              mapped == if fixed then old(mapped)[c := old(mapped)[c] - PagesOf(base, base + size)] else old(mapped)
    {
      hide Lookup, Changed, EndsBelow, Rebuilt;
      if fixed {
        UnmapPages(tasks[t].cr3, base, base + size);
      }
      if cursor <= base {
        NothingCutAbove(tasks[t].lazy, tasks[t].mmapNext, base, base + size);
      }
      var rc := Reserve(t, base, base + size, 0, cursor);
      return if rc < 0 then rc else base;
    }

    /** Advancing the cursors changes nothing else. */
    method Raise(t: nat, next: nat)
      requires Valid() && t < MAX_TASKS && next < U64
      modifies this`tasks
      ensures Valid() && LookupsSame(old(tasks), tasks)
      ensures CursorsAt(t, Max(next, Highest(old(tasks), t, MAX_TASKS)))
      ensures CursorsMoved(old(tasks), tasks, t, Max(next, Highest(old(tasks), t, MAX_TASKS)))
    {
      hide Lookup, EndsBelow, Highest;
      EndsMore(tasks);
      Advance(t, next);
    }

    /** sys_mmap with access rights: every page is allocated at once. */
    method FillEagerly(t: nat, base: nat, size: nat, fixed: bool, avail: nat, cursor: nat) returns (r: int)
      requires Valid() && t < MAX_TASKS && tasks[t].used && tasks[t].cr3 != 0 && CursorsAt(t, cursor)
      requires MMAP_MIN <= cursor
      requires base % PAGE == 0 && 0 < size && base + size <= USER_LIMIT
      requires !fixed ==> NoneMapped(mapped[tasks[t].cr3], base, base + size)
      modifies this
      ensures Valid() && (r == base || r == ENOMEM)
      ensures r < 0 && !fixed ==> mapped == old(mapped) && LookupsSame(old(tasks), tasks)
      ensures r >= 0 ==>
                if fixed then LookupsChanged(old(tasks), tasks, t, base, base + size, Remove, 0)
                else LookupsSame(old(tasks), tasks)
      ensures r >= 0 ==> mapped == old(mapped)[tasks[t].cr3 := old(mapped)[tasks[t].cr3] + PagesOf(base, base + size)]
      ensures !fixed ==> (r >= 0 <==> size <= avail * PAGE)
      ensures fixed ==>
                (r >= 0 <==>
                 |Rebuilt(old(tasks)[t].lazy, base, base + size, Remove, 0)| <= SLOTS && size <= avail * PAGE)
      ensures r < 0 ==>
                LookupsSame(old(tasks), tasks) || LookupsChanged(old(tasks), tasks, t, base, base + size, Remove, 0)
      ensures r < 0 ==> OnlyPages(old(mapped), mapped, old(tasks)[t].cr3, base, base + size)
      ensures if r >= 0 then CursorsMoved(old(tasks), tasks, t, Max(base + size, cursor))
              else CursorsStay(old(tasks), tasks)
    {
      hide Lookup, Changed, EndsBelow, Rebuilt, LookupsChanged, LookupsSame, SameTables, BelowCursors, PagesOf;
      hide OnlyPages, NoneMapped, Recursored, Highest, CursorsMoved, CursorsStay;
      NoCursors(tasks);
      var c := tasks[t].cr3;
      LookupsStay(tasks);
      if fixed {
        var ok := ChangeLazy(t, base, base + size, Remove, 0);
        if !ok {
          OnlySame(mapped, c, base, base + size);
          return ENOMEM;
        }
        LookupsShape(old(tasks), tasks, t, base, base + size, Remove, 0);
      }
      var ok := MapPages(c, base, base + size, fixed, avail);
      if !ok {
        OnlyThose(old(mapped), c, base, base + avail * PAGE, base + size);
        if !fixed {
          PagesApart(old(mapped)[c], base, base + avail * PAGE, base + size);
          assert mapped == old(mapped);
        }
        return ENOMEM;
      }
      if base + size > cursor {
        ghost var ts := tasks;
        Raise(t, base + size);
        RaisedCursors(old(tasks), ts, t, cursor, base + size, tasks);
        LookupsAfter(old(tasks), ts, tasks, t, base, base + size, Remove, 0);
        LookupsShape(ts, tasks, t, base, base + size, Remove, 0);
      } else {
        KeptCursors(old(tasks), t, cursor, tasks);
      }
      return base;
    }

    /** sys_mmap of anonymous memory; `avail` pages can be allocated. */
    method Mmap(t: nat, addr: nat, len: nat, prot: nat, fixed: bool, avail: nat) returns (r: int)
      requires Valid() && t < MAX_TASKS && tasks[t].used && addr < U64 && len < U64
      modifies this
      ensures Valid()
      ensures Mmapped(old(Now()), Now(), t, addr, len, prot, fixed, avail, r)
    {
      hide WellFormed, SameTables, BelowCursors, Recursored, Mmapped, Highest;
      TasksSized();
      if tasks[t].cr3 == 0 {
        NoSpace(Now(), t, addr, len, prot, fixed, avail, EFAULT);
        return EFAULT;
      }
      ghost var s := Now();
      var cursor := Cursor(t);
      RecursoredShape(s.tasks, t, cursor);
      ghost var s1 := Now();
      r := MapPlaced(t, addr, len, prot, fixed, avail, cursor);
      SyncedFirst(s, s1, Now(), t, addr, len, prot, fixed, avail, r);
    }

    /** What follows once all tasks of the space have their cursor at the same place. */
    method MapPlaced(t: nat, addr: nat, len: nat, prot: nat, fixed: bool, avail: nat, cursor: nat) returns (r: int)
      requires Valid() && t < MAX_TASKS && tasks[t].used && tasks[t].cr3 != 0 && addr < U64 && len < U64
      requires CursorsAt(t, cursor) && MMAP_MIN <= cursor < U64 && cursor == Highest(tasks, t, MAX_TASKS)
      modifies this
      ensures Valid()
      ensures Mmapped(old(Now()), Now(), t, addr, len, prot, fixed, avail, r)
    {
      hide Lookup, Changed, EndsBelow, Rebuilt, Fits, NoFit, AlignUp, Highest, LookupsChanged, LookupsSame, SameTables;
      hide BelowCursors, HasFit, Unreserved, LiveCount, Placed;
      hide PagesOf, OnlyPages, NoneMapped, CursorsMoved, CursorsStay;
      LookupsStay(tasks);
      NoCursors(tasks);
      KeptCursors(tasks, t, cursor, tasks);
      OnlySame(mapped, tasks[t].cr3, addr, addr + AlignUp(len));
      if len == 0 || len > 0x4000_0000 {
        return EINVAL;
      }
      if WriteExec(prot) {
        return EACCES;
      }
      if fixed && addr % PAGE != 0 {
        return EINVAL;
      }
      var size := AlignUp(len);
      r := Place(t, addr, size, fixed, cursor);
      if r < 0 {
        return;
      }
      PlacedFree(mapped[tasks[t].cr3], cursor, r, size, tasks[t].heapEnd);
      if prot == 0 {
        assert mapped[tasks[t].cr3 := mapped[tasks[t].cr3]] == mapped;
        ghost var base := r;
        r := FillLazily(t, r, size, fixed, cursor);
        LookupsShape(old(tasks), tasks, t, base, base + size, Replace, 0);
        if r < 0 && fixed {
          OnlyThose(old(mapped), tasks[t].cr3, addr, addr + size, addr + size);
        }
      } else {
        ghost var base := r;
        r := FillEagerly(t, r, size, fixed, avail, cursor);
        LookupsShape(old(tasks), tasks, t, base, base + size, Remove, 0);
        if r < 0 {
          KeptCursors(old(tasks), t, cursor, tasks);
        }
      }
    }

    /** sys_munmap; fs and gs are the bases of the thread's segments. */
    method Munmap(t: nat, addr: nat, len: nat, fs: nat, gs: nat) returns (rc: int)
      requires Valid() && t < MAX_TASKS && tasks[t].used && addr < U64 && len < U64
      modifies this
      ensures Valid()
      ensures Munmapped(old(Now()), Now(), t, addr, len, fs, gs, rc)
    {
      hide Lookup, Changed, EndsBelow, Rebuilt, AlignUp;
      if tasks[t].cr3 == 0 {
        return EFAULT;
      }
      if addr % PAGE != 0 || len == 0 {
        return EINVAL;
      }
      var size := AlignUp(len);
      if Within(fs, addr, size) || Within(gs, addr, size) || !AnyRangeOk(addr, size) {
        return EINVAL;
      }
      var ok := ChangeLazy(t, addr, addr + size, Remove, 0);
      if !ok {
        return ENOMEM;
      }
      UnmapPages(tasks[t].cr3, addr, addr + size);
      return 0;
    }

    /** One page comes or goes. */
    method SetPage(c: nat, va: nat, present: bool)
      requires Valid() && c in mapped && va % PAGE == 0
      modifies this`mapped
      ensures Valid() && mapped.Keys == old(mapped).Keys
      ensures mapped[c] == if present then old(mapped)[c] + {va} else old(mapped)[c] - {va}
      ensures forall d :: d in mapped && d != c ==> mapped[d] == old(mapped)[d]
    {
      mapped := mapped[c := if present then mapped[c] + {va} else mapped[c] - {va}];
    }

    /** The page loop of sys_mprotect. */
    method ProtectPages(t: nat, lo: nat, hi: nat, prot: nat, avail: nat) returns (rc: int)
      requires Valid() && t < MAX_TASKS && tasks[t].used && tasks[t].cr3 != 0 && lo % PAGE == 0 && hi % PAGE == 0
      requires lo <= hi
      modifies this`mapped
      ensures Valid() && mapped.Keys == old(mapped).Keys && rc <= 0
      ensures forall c :: c in mapped && c != tasks[t].cr3 ==> mapped[c] == old(mapped)[c]
      ensures SameOff(old(mapped)[tasks[t].cr3], mapped[tasks[t].cr3], lo, hi)
      ensures rc == 0 ==>
                if prot == 0 then mapped[tasks[t].cr3] !! PagesOf(lo, hi) else PagesOf(lo, hi) <= mapped[tasks[t].cr3]
      ensures rc == 0 <==> CanProtect(old(mapped)[tasks[t].cr3], tasks[t].lazy, lo, hi, prot, avail)
    {
      hide EndsBelow, SameTables, BelowCursors, CanProtect, Lookup, Treated, PagesOf, SameOff, AllPages, Lacking;
      var c := tasks[t].cr3;
      ghost var was := mapped[c];
      var va, n := lo, 0;
      ProtectNone(was, tasks[t].lazy, lo, prot, avail);
      while va < hi
        invariant lo <= va <= hi && va % PAGE == 0
        invariant Valid() && mapped.Keys == old(mapped).Keys
        invariant forall d :: d in mapped && d != c ==> mapped[d] == old(mapped)[d]
        invariant Treated(was, mapped[c], lo, va, prot)
        invariant CanProtect(was, tasks[t].lazy, lo, va, prot, avail)
        invariant prot != 0 ==> n == Lacking(was, lo, va)
      {
        TreatMore(was, mapped[c], lo, va, hi, prot);
        ProtectMore(was, tasks[t].lazy, lo, va, hi, prot, avail);
        if va !in mapped[c] {
          var found := Protection(tasks[t].lazy, va);
          if found.None? {
            return EFAULT;
          }
          if prot != 0 {
            if n >= avail {
              return ENOMEM;
            }
            n := n + 1;
            SetPage(c, va, true);
          }
        } else if prot == 0 {
          SetPage(c, va, false);
        }
        va := va + PAGE;
      }
      TreatedAll(was, mapped[c], lo, hi, prot);
      return 0;
    }

    /** sys_mprotect; `avail` pages can be allocated. */
    method Mprotect(t: nat, addr: nat, len: nat, prot: nat, avail: nat) returns (rc: int)
      requires Valid() && t < MAX_TASKS && tasks[t].used && addr < U64 && len < U64
      modifies this
      ensures Valid()
      ensures Mprotected(old(Now()), Now(), t, addr, len, prot, avail, rc)
    {
      hide Lookup, Changed, EndsBelow, Rebuilt, AlignUp, SameTables, BelowCursors, LookupsChanged, LookupsSame;
      hide CanProtect;
      LookupsStay(tasks);
      OnlySame(mapped, tasks[t].cr3, addr, addr + AlignUp(len));
      if tasks[t].cr3 == 0 {
        return EFAULT;
      }
      if addr % PAGE != 0 || len == 0 {
        return EINVAL;
      }
      if WriteExec(prot) {
        return EACCES;
      }
      var size := AlignUp(len);
      if !AnyRangeOk(addr, size) {
        return EINVAL;
      }
      var ok := ChangeLazy(t, addr, addr + size, SetProt, prot);
      if !ok {
        return ENOMEM;
      }
      LookupsShape(old(tasks), tasks, t, addr, addr + size, SetProt, prot);
      ReprotectedCan(old(tasks), tasks, t, mapped[tasks[t].cr3], addr, addr + size, prot, avail);
      rc := ProtectPages(t, addr, addr + size, prot, avail);
    }

    /** task_lazy_page_fault, with a page to spare or not */
    method Fault(t: nat, addr: nat, write: bool, exec: bool, spare: bool) returns (ok: bool)
      requires Valid() && t < MAX_TASKS && tasks[t].used
      modifies this`mapped
      ensures Valid()
      ensures Faulted(old(Now()), Now(), t, addr, write, exec, spare, ok)
    {
      if tasks[t].cr3 == 0 {
        return false;
      }
      var found := Protection(tasks[t].lazy, addr);
      if found.None? || found.value == 0 {
        return false;
      }
      var prot := found.value;
      if write && prot / 2 % 2 == 0 {
        return false;
      }
      if exec && prot / 4 % 2 == 0 {
        return false;
      }
      if !write && !exec && prot % 2 == 0 && prot / 2 % 2 == 0 {
        return false;
      }
      var c := tasks[t].cr3;
      if PageOf(addr) in mapped[c] || !spare {
        return false;
      }
      mapped := mapped[c := mapped[c] + {PageOf(addr)}];
      return true;
    }

    /** The memory half of sys_clone: the child shares the space of its parent. */
    method Clone(parent: nat) returns (child: int)
      requires Valid() && parent < MAX_TASKS && tasks[parent].used
      modifies this`tasks
      ensures Valid()
      ensures Cloned(old(Now()), Now(), parent, child)
    {
      var slot := 0;
      while slot < MAX_TASKS && tasks[slot].used
        invariant 0 <= slot <= MAX_TASKS && forall i :: 0 <= i < slot ==> tasks[i].used
      {
        slot := slot + 1;
      }
      if slot == MAX_TASKS {
        return ENOMEM;
      }
      tasks := tasks[slot := tasks[parent]];
      return slot;
    }

    /** The memory half of sys_fork: then the child moves to a copy of the space, a new root, or goes away. */
    method Fork(parent: nat, copy: nat) returns (child: int)
      requires Valid() && parent < MAX_TASKS && tasks[parent].used && tasks[parent].cr3 != 0
      requires copy !in mapped
      modifies this
      ensures Valid()
      ensures Forked(old(Now()), Now(), parent, copy, child)
    {
      child := Clone(parent);
      if child < 0 {
        return;
      }
      if copy == 0 {
        tasks := tasks[child := tasks[child].(used := false, cr3 := 0)];
        return ENOMEM;
      }
      mapped := mapped[copy := mapped[tasks[parent].cr3]];
      tasks := tasks[child := tasks[child].(cr3 := copy)];
    }

    /** The memory half of execve: a new space with the pages of the image and no lazy ranges. */
    method Exec(t: nat, newRoot: nat, pages: set<nat>, heapEnd: nat)
      requires Valid() && t < MAX_TASKS && tasks[t].used && newRoot !in mapped && newRoot != 0
      requires AllPages(pages) && heapEnd < U64
      modifies this
      ensures Valid()
      ensures Execed(old(Now()), Now(), t, newRoot, pages, heapEnd)
    {
      var c := tasks[t].cr3;
      var shared := IsShared(t);
      if c != 0 && !shared {
        mapped := mapped - {c};
      }
      mapped := mapped[newRoot := pages];
      tasks := tasks[t := Task(true, newRoot, heapEnd, MMAP_MIN, Padded([]))];
    }

    /** task_cr3_is_shared */
    method IsShared(t: nat) returns (b: bool)
      requires t < |tasks|
      ensures b <==> tasks[t].cr3 != 0 && Others(tasks, t)
    {
      if tasks[t].cr3 == 0 {
        return false;
      }
      for i := 0 to |tasks|
        invariant forall j :: 0 <= j < i && j != t && tasks[j].used ==> tasks[j].cr3 != tasks[t].cr3
      {
        if i != t && tasks[i].used && tasks[i].cr3 == tasks[t].cr3 {
          return true;
        }
      }
      return false;
    }

    /** task_reap_resources, and the slot is free again */
    method Reap(t: nat)
      requires Valid() && t < MAX_TASKS && tasks[t].used
      modifies this
      ensures Valid()
      ensures Reaped(old(Now()), Now(), t)
    {
      var c := tasks[t].cr3;
      if c != 0 && c != tasks[0].cr3 {
        var shared := IsShared(t);
        if !shared {
          mapped := mapped - {c};
        }
      }
      tasks := tasks[t := tasks[t].(used := false, cr3 := 0)];
    }

    /** Any call by any task. */
    method Do(call: Call) returns (r: int)
      requires Valid() && WordCall(call)
      modifies this
      ensures Valid() && Effect(old(Now()), Now(), call, r)
    {
      hide WellFormed, SameTables, BelowCursors;
      hide Mmapped, Munmapped, Mprotected, Faulted, Cloned, Forked, Execed, Reaped;
      TasksSized();
      r := 0;
      if call.t >= MAX_TASKS || !tasks[call.t].used {
        return;
      }
      match call
      case CallMmap(t, addr, len, prot, fixed, avail) => r := Mmap(t, addr, len, prot, fixed, avail);
      case CallMunmap(t, addr, len, fs, gs) => r := Munmap(t, addr, len, fs, gs);
      case CallMprotect(t, addr, len, prot, avail) => r := Mprotect(t, addr, len, prot, avail);
      case CallFault(t, addr, write, exec, spare) =>
        var ok := Fault(t, addr, write, exec, spare);
        r := if ok then 1 else 0;
      case CallClone(t) => r := Clone(t);
      case CallFork(t, copy) =>
        if tasks[t].cr3 != 0 && copy !in mapped {
          r := Fork(t, copy);
        }
      case CallExec(t, root, pages, heapEnd) =>
        if root !in mapped && root != 0 {
          Exec(t, root, pages, heapEnd);
        }
      case CallReap(t) => Reap(t);
    }

    lemma TasksSized()
      requires Valid()
      ensures |tasks| == MAX_TASKS
    {
    }

    /**
     Any run: every call has its effect on the state the calls before it left, and at the end tasks that
     share a space agree on its lazy ranges, and none ends above a cursor.
     */
    method Run(calls: seq<Call>) returns (rs: seq<int>, ghost states: seq<State>)
      requires Valid() && forall i :: 0 <= i < |calls| ==> WordCall(calls[i])
      modifies this
      ensures Valid()
      ensures |rs| == |calls| && |states| == |calls| + 1 && states[0] == old(Now()) && states[|calls|] == Now()
      ensures forall i :: 0 <= i < |calls| ==> Settled(states[i]) && Effect(states[i], states[i + 1], calls[i], rs[i])
      ensures forall i, j, addr: nat ::
                0 <= i < MAX_TASKS && 0 <= j < MAX_TASKS && Shares(tasks, i, j) && tasks[i].used ==>
                Lookup(tasks[i].lazy, addr) == Lookup(tasks[j].lazy, addr)
    {
      hide Effect;
      rs, states := [], [Now()];
      for n := 0 to |calls|
        invariant Valid() && |rs| == n && |states| == n + 1 && states[0] == old(Now()) && states[n] == Now()
        invariant forall i :: 0 <= i < n ==> Settled(states[i]) && Effect(states[i], states[i + 1], calls[i], rs[i])
      {
        var r := Do(calls[n]);
        rs, states := rs + [r], states + [Now()];
      }
    }
  }

  /** Every task in use has its space. */
  ghost predicate Settled(s: State) {
    forall i :: 0 <= i < |s.tasks| && s.tasks[i].used && s.tasks[i].cr3 != 0 ==> s.tasks[i].cr3 in s.mapped
  }

  /** Another task has the space of t. */
  ghost predicate Others(ts: seq<Task>, t: nat)
    requires t < |ts|
  {
    exists i :: 0 <= i < |ts| && i != t && ts[i].used && ts[i].cr3 == ts[t].cr3
  }

  predicate Within(x: nat, addr: nat, size: nat) {
    x != 0 && addr <= x < addr + size
  }

  /** The access is allowed by the protection of the lazy range. */
  predicate Allowed(prot: nat, write: bool, exec: bool) {
    && prot != 0 && (write ==> prot / 2 % 2 == 1) && (exec ==> prot / 4 % 2 == 1)
    && (!write && !exec ==> prot % 2 == 1 || prot / 2 % 2 == 1)
  }

  datatype Call =
    | CallMmap(t: nat, addr: nat, len: nat, prot: nat, fixed: bool, avail: nat)
    | CallMunmap(t: nat, addr: nat, len: nat, fs: nat, gs: nat)
    | CallMprotect(t: nat, addr: nat, len: nat, prot: nat, avail: nat)
    | CallFault(t: nat, addr: nat, write: bool, exec: bool, spare: bool)
    | CallClone(t: nat)
    | CallFork(t: nat, copy: nat)
    | CallExec(t: nat, root: nat, pages: set<nat>, heapEnd: nat)
    | CallReap(t: nat)

  /** Arguments are 64-bit words. */
  ghost predicate WordCall(call: Call) {
    && (call.CallMmap? || call.CallMunmap? || call.CallMprotect? ==> call.addr < U64 && call.len < U64)
    && (call.CallExec? ==> AllPages(call.pages) && call.heapEnd < U64)
  }

  /** Only pages of one space between lo and hi may have come or gone. */
  ghost predicate OnlyPages(was: map<nat, set<nat>>, now: map<nat, set<nat>>, c: nat, lo: nat, hi: nat) {
    && now.Keys == was.Keys && (forall d :: d in was && d != c ==> now[d] == was[d])
    && (c in was ==> SameOff(was[c], now[c], lo, hi))
  }

  lemma OnlySame(m: map<nat, set<nat>>, c: nat, lo: nat, hi: nat)
    ensures OnlyPages(m, m, c, lo, hi)
  {
  }

  lemma OnlyThose(m: map<nat, set<nat>>, c: nat, lo: nat, mid: nat, hi: nat)
    requires c in m && mid <= hi
    ensures OnlyPages(m, m[c := m[c] - PagesOf(lo, mid)], c, lo, hi)
  {
  }

  /** The same addresses translate outside a range. */
  ghost predicate SameOff(was: set<nat>, now: set<nat>, lo: nat, hi: nat) {
    forall va :: !(lo <= va < hi) ==> (va in now <==> va in was)
  }

  /**
   PROT_READ is 1, PROT_WRITE 2 and PROT_EXEC 4: writing and executing together are refused, a write needs
   the one, an execution the other, and a read either reading or writing.
   */
  lemma ProtectionBits(r: bool, w: bool, x: bool, high: nat, write: bool, exec: bool)
    ensures var prot := (if r then 1 else 0) + (if w then 2 else 0) + (if x then 4 else 0) + 8 * high;
            && (WriteExec(prot) <==> w && x)
            && (Allowed(prot, write, exec) <==>
                  (write ==> w) && (exec ==> x) && (!write && !exec ==> r || w))
  {
  }

  predicate WriteExec(prot: nat) {
    prot / 2 % 2 == 1 && prot / 4 % 2 == 1
  }

  /** A mapping of len bytes without a fixed address can be made. */
  ghost predicate CanMmap(ts: seq<Task>, t: nat, mapped: map<nat, set<nat>>, len: nat, prot: nat, avail: nat)
    requires t < |ts|
  {
    && ts[t].cr3 != 0 && ts[t].cr3 in mapped && 0 < len <= 0x4000_0000 && !WriteExec(prot)
    && HasFit(mapped[ts[t].cr3], Highest(ts, t, |ts|), AlignUp(len), ts[t].heapEnd)
    && if prot == 0 then LiveCount(ts[t].lazy) < SLOTS else AlignUp(len) <= avail * PAGE
  }

  /** A mapping of len bytes at a fixed address can be made. */
  ghost predicate CanMmapAt(ts: seq<Task>, t: nat, addr: nat, len: nat, prot: nat, avail: nat)
    requires t < |ts|
  {
    && ts[t].cr3 != 0 && 0 < len <= 0x4000_0000 && !WriteExec(prot)
    && addr % PAGE == 0 && addr + AlignUp(len) <= 0x8000_0000_0000
    && if prot == 0 then |Rebuilt(ts[t].lazy, addr, addr + AlignUp(len), Replace, 0)| <= SLOTS
       else |Rebuilt(ts[t].lazy, addr, addr + AlignUp(len), Remove, 0)| <= SLOTS && AlignUp(len) <= avail * PAGE
  }

  ghost predicate HasFit(mapped: set<nat>, cursor: nat, size: nat, heapEnd: nat) {
    cursor + PAGE <= U64 && exists b :: Lowest(cursor) <= b && Fits(mapped, b, size, heapEnd)
  }

  /** The lowest place at or above the cursor. */
  ghost predicate Placed(mapped: set<nat>, cursor: nat, base: nat, size: nat, heapEnd: nat) {
    && Fits(mapped, base, size, heapEnd) && cursor <= Lowest(cursor) <= base
    && NoFit(mapped, Lowest(cursor), base, size, heapEnd)
  }

  lemma PlacedFree(mapped: set<nat>, cursor: nat, base: nat, size: nat, heapEnd: nat)
    ensures Placed(mapped, cursor, base, size, heapEnd) ==> NoneMapped(mapped, base, base + size) && cursor <= base
  {
  }

  ghost function PagesAfter(was: set<nat>, prot: nat, fixed: bool, lo: nat, hi: nat): set<nat> {
    if prot != 0 then was + PagesOf(lo, hi) else if fixed then was - PagesOf(lo, hi) else was
  }

  lemma AboveCursors(ts: seq<Task>, t: nat, cursor: nat, lo: nat, hi: nat)
    requires t < |ts| && BelowCursors(ts) && cursor <= lo
    requires forall i :: 0 <= i < |ts| && Shares(ts, t, i) ==> ts[i].mmapNext == cursor
    ensures Unreserved(ts, t, lo, hi)
  {
    forall i, addr | 0 <= i < |ts| && Shares(ts, t, i) && lo <= addr < hi
      ensures Lookup(ts[i].lazy, addr) == None
    {
      FoundBelow(ts[i].lazy, ts[i].mmapNext, addr);
    }
  }

  lemma NothingCutAbove(table: seq<Range>, cursor: nat, lo: nat, hi: nat)
    requires EndsBelow(table, cursor) && cursor <= lo
    ensures |Rebuilt(table, lo, hi, Replace, 0)| == LiveCount(table) + 1
  {
    NothingCut(table, lo, hi, Replace, 0);
  }

  lemma LookupsStay(ts: seq<Task>)
    ensures LookupsSame(ts, ts)
  {
  }

  lemma RecursoredLookups(ts: seq<Task>, t: nat, cursor: nat)
    requires t < |ts|
    ensures LookupsSame(ts, Recursored(ts, t, |ts|, cursor))
  {
  }

  lemma SameTwice(was: seq<Task>, ts: seq<Task>, after: seq<Task>)
    requires LookupsSame(was, ts)
    ensures LookupsSame(ts, after) ==> LookupsSame(was, after)
  {
  }

  lemma EndsMore(ts: seq<Task>)
    requires BelowCursors(ts)
    ensures forall i, c :: 0 <= i < |ts| && ts[i].used && c >= ts[i].mmapNext ==> EndsBelow(ts[i].lazy, c)
  {
  }

  lemma PagesApart(pages: set<nat>, base: nat, mid: nat, end: nat)
    requires NoneMapped(pages, base, end) && mid <= end
    ensures pages - PagesOf(base, mid) == pages
  {
  }

  lemma LookupsBefore(was: seq<Task>, ts: seq<Task>, after: seq<Task>, t: nat, lo: nat, hi: nat, op: Operation,
                      prot: nat)
    requires t < |was| && LookupsSame(was, ts) && LookupsChanged(ts, after, t, lo, hi, op, prot)
    ensures LookupsChanged(was, after, t, lo, hi, op, prot)
  {
    assert forall i :: 0 <= i < |was| ==> (Shares(was, t, i) <==> Shares(ts, t, i));
  }

  lemma LookupsAfter(was: seq<Task>, ts: seq<Task>, after: seq<Task>, t: nat, lo: nat, hi: nat, op: Operation,
                     prot: nat)
    requires t < |was| && |ts| == |was| && LookupsSame(ts, after)
    ensures LookupsChanged(was, ts, t, lo, hi, op, prot) ==> LookupsChanged(was, after, t, lo, hi, op, prot)
    ensures LookupsSame(was, ts) ==> LookupsSame(was, after)
  {
    hide Lookup, Changed;
  }

  lemma LookupsShape(was: seq<Task>, ts: seq<Task>, t: nat, lo: nat, hi: nat, op: Operation, prot: nat)
    requires t < |was| && (LookupsChanged(was, ts, t, lo, hi, op, prot) || LookupsSame(was, ts))
    ensures |ts| == |was|
    ensures forall i :: 0 <= i < |ts| ==> ts[i].used == was[i].used && ts[i].cr3 == was[i].cr3
  {
  }

  lemma SameUnreserved(was: seq<Task>, ts: seq<Task>, t: nat, lo: nat, hi: nat)
    requires t < |was| && LookupsSame(was, ts)
    ensures Unreserved(ts, t, lo, hi) ==> Unreserved(was, t, lo, hi)
  {
    hide Lookup;
    assert forall i :: 0 <= i < |was| ==> (Shares(was, t, i) <==> Shares(ts, t, i));
  }

  lemma PagesNone(s: set<nat>, base: nat)
    ensures s - PagesOf(base, base) == s && s + PagesOf(base, base) == s
  {
  }

  /** Every page of [lo, hi) is mapped or reserved, and there is memory for those that must be mapped now. */
  ghost predicate CanProtect(pages: set<nat>, lazy: seq<Range>, lo: nat, hi: nat, prot: nat, avail: nat) {
    && (forall va :: va in PagesOf(lo, hi) ==> va in pages || Lookup(lazy, va).Some?)
    && (prot != 0 ==> Lacking(pages, lo, hi) <= avail)
  }

  /** The number of pages of [lo, hi) that are not mapped. */
  ghost function Lacking(pages: set<nat>, lo: nat, hi: nat): nat {
    |PagesOf(lo, hi) - pages|
  }

  /** The pages of [lo, hi) were all taken out, or all put in, and no other page was touched. */
  ghost predicate Treated(was: set<nat>, now: set<nat>, lo: nat, hi: nat, prot: nat) {
    && SameOff(was, now, lo, hi)
    && if prot == 0 then now !! PagesOf(lo, hi) else PagesOf(lo, hi) <= now
  }

  lemma TreatMore(was: set<nat>, now: set<nat>, lo: nat, va: nat, hi: nat, prot: nat)
    requires Treated(was, now, lo, va, prot) && lo <= va < hi && lo % PAGE == 0 && va % PAGE == 0 && hi % PAGE == 0
    ensures va + PAGE <= hi && (va + PAGE) % PAGE == 0 && SameOff(was, now, lo, hi) && (va in now <==> va in was)
    ensures Treated(was, if prot == 0 then now - {va} else now + {va}, lo, va + PAGE, prot)
    ensures (va in now <==> prot != 0) ==> Treated(was, now, lo, va + PAGE, prot)
  {
    hide PagesOf;
    PagesMore(lo, va);
    NextPage(va, hi);
    PageInside(lo, va, hi);
    assert now == if va in now then now + {va} else now - {va};
  }

  lemma NextPage(va: nat, hi: nat)
    requires va < hi && va % PAGE == 0 && hi % PAGE == 0
    ensures va + PAGE <= hi && (va + PAGE) % PAGE == 0
  {
  }

  lemma PageInside(lo: nat, va: nat, hi: nat)
    requires lo <= va < hi
    ensures forall x :: x in PagesOf(lo, va) ==> lo <= x < va
  {
  }

  lemma TreatedAll(was: set<nat>, now: set<nat>, lo: nat, hi: nat, prot: nat)
    requires Treated(was, now, lo, hi, prot)
    ensures SameOff(was, now, lo, hi) && if prot == 0 then now !! PagesOf(lo, hi) else PagesOf(lo, hi) <= now
  {
  }

  lemma ProtectNone(pages: set<nat>, lazy: seq<Range>, lo: nat, prot: nat, avail: nat)
    ensures PagesOf(lo, lo) == {} && Lacking(pages, lo, lo) == 0 && CanProtect(pages, lazy, lo, lo, prot, avail)
    ensures Treated(pages, pages, lo, lo, prot)
  {
    assert PagesOf(lo, lo) - pages == {};
  }

  /** One page more. */
  lemma ProtectMore(pages: set<nat>, lazy: seq<Range>, lo: nat, va: nat, hi: nat, prot: nat, avail: nat)
    requires lo <= va < hi && lo % PAGE == 0 && va % PAGE == 0 && hi % PAGE == 0
    ensures CanProtect(pages, lazy, lo, va + PAGE, prot, avail) <==>
            && CanProtect(pages, lazy, lo, va, prot, avail) && (va in pages || Lookup(lazy, va).Some?)
            && (prot != 0 && va !in pages ==> Lacking(pages, lo, va) < avail)
    ensures Lacking(pages, lo, va + PAGE) == Lacking(pages, lo, va) + (if va in pages then 0 else 1)
    ensures CanProtect(pages, lazy, lo, hi, prot, avail) ==> CanProtect(pages, lazy, lo, va + PAGE, prot, avail)
  {
    hide Lookup;
    PagesMore(lo, va);
    var a, b := PagesOf(lo, va) - pages, PagesOf(lo, va + PAGE) - pages;
    assert b == if va in pages then a else a + {va};
    assert va in PagesOf(lo, va + PAGE);
    if CanProtect(pages, lazy, lo, hi, prot, avail) {
      assert b <= PagesOf(lo, hi) - pages;
      SubsetSize(b, PagesOf(lo, hi) - pages);
    }
  }

  /** A new protection does not change which pages are reserved. */
  lemma ReprotectedCan(was: seq<Task>, ts: seq<Task>, t: nat, pages: set<nat>, lo: nat, hi: nat, prot: nat, avail: nat)
    requires t < |was| && was[t].used && LookupsChanged(was, ts, t, lo, hi, SetProt, prot)
    ensures CanProtect(pages, ts[t].lazy, lo, hi, prot, avail) <==> CanProtect(pages, was[t].lazy, lo, hi, prot, avail)
  {
    hide Lookup;
    assert forall va :: Lookup(ts[t].lazy, va).Some? <==> Lookup(was[t].lazy, va).Some?;
  }

  lemma PagesMore(base: nat, va: nat)
    requires base <= va && base % PAGE == 0 && va % PAGE == 0
    ensures PagesOf(base, va + PAGE) == PagesOf(base, va) + {va} && va !in PagesOf(base, va)
  {
    forall x | x in PagesOf(base, va + PAGE) && x !in PagesOf(base, va)
      ensures x == va
    {
    }
  }

  lemma PagesRound(base: nat, va: nat, end: nat)
    requires base <= va && va % PAGE == 0 && end <= va && (va < end + PAGE || va == base)
    ensures PagesOf(base, va) == PagesOf(base, end)
  {
  }

  lemma RetabledBelow(ts: seq<Task>, t: nat, lo: nat, hi: nat, op: Operation, prot: nat)
    requires t < |ts| && ts[t].used && SameTables(ts) && BelowCursors(ts) && op != Replace
    requires |Rebuilt(ts[t].lazy, lo, hi, op, prot)| <= SLOTS
    ensures BelowCursors(Retabled(ts, t, |ts|, Padded(Rebuilt(ts[t].lazy, lo, hi, op, prot))))
  {
    forall i | 0 <= i < |ts| && Shares(ts, t, i)
      ensures EndsBelow(Padded(Rebuilt(ts[t].lazy, lo, hi, op, prot)), ts[i].mmapNext)
    {
      RebuiltEnd(ts[t].lazy, lo, hi, op, prot, ts[i].mmapNext);
    }
  }

  /** The new table in all tasks of the space: the cursors may have to go up to hi. */
  lemma ReservedReady(ts: seq<Task>, t: nat, table: seq<Range>, hi: nat, cursor: nat)
    requires t < |ts| && BelowCursors(ts)
    requires forall i :: 0 <= i < |ts| && Shares(ts, t, i) ==> ts[i].mmapNext == cursor
    requires forall c :: c >= hi && c >= cursor ==> EndsBelow(table, c)
    ensures var mid := Retabled(ts, t, |ts|, table);
            && (forall i :: 0 <= i < |ts| && mid[i].used && !Shares(mid, t, i) ==>
                  EndsBelow(mid[i].lazy, mid[i].mmapNext))
            && (forall i, c :: 0 <= i < |ts| && Shares(mid, t, i) && c >= hi && c >= mid[i].mmapNext ==>
                  EndsBelow(mid[i].lazy, c))
            && (hi <= cursor ==> BelowCursors(mid))
  {
    hide EndsBelow;
  }

  lemma NoCursors(ts: seq<Task>)
    ensures CursorsStay(ts, ts)
  {
  }

  /** A cursor that is where it should be already. */
  lemma KeptCursors(ts: seq<Task>, t: nat, cursor: nat, now: seq<Task>)
    requires t < |ts| && CursorsStay(ts, now)
    requires forall i :: 0 <= i < |ts| && Shares(ts, t, i) ==> ts[i].mmapNext == cursor
    ensures CursorsMoved(ts, now, t, cursor)
  {
  }

  lemma RaisedCursors(was: seq<Task>, ts: seq<Task>, t: nat, cursor: nat, next: nat, now: seq<Task>)
    requires t < |was| && was[t].used && MMAP_MIN <= cursor && CursorsStay(was, ts)
    requires forall i :: 0 <= i < |was| ==> ts[i].used == was[i].used && ts[i].cr3 == was[i].cr3
    requires forall i :: 0 <= i < |was| && Shares(was, t, i) ==> was[i].mmapNext == cursor
    requires CursorsMoved(ts, now, t, Max(next, Highest(ts, t, |ts|)))
    ensures CursorsMoved(was, now, t, Max(next, cursor))
  {
    assert Shares(ts, t, t) && ts[t].mmapNext == cursor;
    assert Highest(ts, t, |ts|) == cursor;
  }

  lemma NoSpace(s: State, t: nat, addr: nat, len: nat, prot: nat, fixed: bool, avail: nat, r: int)
    requires t < |s.tasks| == MAX_TASKS && s.tasks[t].cr3 == 0 && r == EFAULT
    ensures Mmapped(s, s, t, addr, len, prot, fixed, avail, r)
  {
    hide Rebuilt, AlignUp, HasFit, Lookup, Changed;
    LookupsStay(s.tasks);
  }

  lemma RecursoredShape(ts: seq<Task>, t: nat, cursor: nat)
    requires t < |ts| && cursor == Highest(ts, t, |ts|) && ts[t].used
    ensures var rs := Recursored(ts, t, |ts|, cursor);
            && |rs| == |ts| && rs[t].used && rs[t].cr3 == ts[t].cr3 && Highest(rs, t, |ts|) == cursor
            && forall i :: 0 <= i < |rs| && Shares(rs, t, i) ==> rs[i].mmapNext == cursor
  {
    var rs := Recursored(ts, t, |ts|, cursor);
    assert Shares(rs, t, t) && rs[t].mmapNext == cursor;
  }

  /** Bringing the cursors together first makes no difference to what a mapping does. */
  lemma SyncedFirst(s: State, s1: State, n: State, t: nat, addr: nat, len: nat, prot: nat, fixed: bool, avail: nat,
                    r: int)
    requires t < |s.tasks| == MAX_TASKS && s.tasks[t].used && s.tasks[t].cr3 != 0 && s1.mapped == s.mapped
    requires s1.tasks == Recursored(s.tasks, t, MAX_TASKS, Highest(s.tasks, t, MAX_TASKS))
    requires Mmapped(s1, n, t, addr, len, prot, fixed, avail, r)
    ensures Mmapped(s, n, t, addr, len, prot, fixed, avail, r)
  {
    hide Highest, Rebuilt, AlignUp, HasFit, Lookup, Changed, Placed, OnlyPages, PagesOf, LiveCount, Recursored;
    hide CursorsMoved, CursorsStay, LookupsSame, LookupsChanged, Unreserved, CanMmap, CanMmapAt, PagesAfter, Shares;
    SyncedCan(s, s1, t, addr, len, prot, avail);
    var cursor := Highest(s.tasks, t, MAX_TASKS);
    RecursoredShape(s.tasks, t, cursor);
    RecursoredLookups(s.tasks, t, cursor);
    SameTask(s.tasks, s1.tasks, t);
    SameTwice(s.tasks, s1.tasks, n.tasks);
    CursorsAfter(s.tasks, t, cursor, if r >= 0 then Max(r + AlignUp(len), cursor) else 0, n.tasks);
    ChangedBefore(s.tasks, s1.tasks, n.tasks, t, addr, addr + AlignUp(len), Remove);
    if r >= 0 {
      SameUnreserved(s.tasks, s1.tasks, t, r, r + AlignUp(len));
      ChangedBefore(s.tasks, s1.tasks, n.tasks, t, r, r + AlignUp(len), Remove);
      ChangedBefore(s.tasks, s1.tasks, n.tasks, t, r, r + AlignUp(len), Replace);
    }
  }

  lemma SyncedCan(s: State, s1: State, t: nat, addr: nat, len: nat, prot: nat, avail: nat)
    requires t < |s.tasks| == MAX_TASKS && s.tasks[t].used && s1.mapped == s.mapped
    requires s1.tasks == Recursored(s.tasks, t, MAX_TASKS, Highest(s.tasks, t, MAX_TASKS))
    ensures |s1.tasks| == MAX_TASKS
    ensures CanMmap(s1.tasks, t, s1.mapped, len, prot, avail) <==> CanMmap(s.tasks, t, s.mapped, len, prot, avail)
    ensures CanMmapAt(s1.tasks, t, addr, len, prot, avail) <==> CanMmapAt(s.tasks, t, addr, len, prot, avail)
  {
    hide Highest, Recursored, Rebuilt, AlignUp, HasFit, LiveCount, LookupsSame, WriteExec, Shares;
    RecursoredShape(s.tasks, t, Highest(s.tasks, t, MAX_TASKS));
    RecursoredLookups(s.tasks, t, Highest(s.tasks, t, MAX_TASKS));
    SameTask(s.tasks, s1.tasks, t);
  }

  lemma SameTask(was: seq<Task>, ts: seq<Task>, t: nat)
    requires LookupsSame(was, ts) && t < |was|
    ensures |ts| == |was| && ts[t].used == was[t].used && ts[t].cr3 == was[t].cr3 && ts[t].heapEnd == was[t].heapEnd
    ensures ts[t].lazy == was[t].lazy
  {
  }

  lemma ChangedBefore(was: seq<Task>, ts: seq<Task>, after: seq<Task>, t: nat, lo: nat, hi: nat, op: Operation)
    requires LookupsSame(was, ts) && t < |was|
    ensures LookupsChanged(ts, after, t, lo, hi, op, 0) ==> LookupsChanged(was, after, t, lo, hi, op, 0)
  {
    if LookupsChanged(ts, after, t, lo, hi, op, 0) {
      LookupsBefore(was, ts, after, t, lo, hi, op, 0);
    }
  }

  /** First all cursors of the space to one place, then what came of them. */
  lemma CursorsAfter(was: seq<Task>, t: nat, cursor: nat, c: nat, now: seq<Task>)
    requires t < |was|
    ensures var ts := Recursored(was, t, |was|, cursor);
            && (CursorsMoved(ts, now, t, cursor) ==> CursorsMoved(was, now, t, cursor))
            && (CursorsMoved(ts, now, t, c) ==> CursorsMoved(was, now, t, c))
  {
    var ts := Recursored(was, t, |was|, cursor);
    assert forall i :: 0 <= i < |was| ==> (Shares(ts, t, i) <==> Shares(was, t, i));
  }

  lemma ReservedCursors(ts: seq<Task>, t: nat, table: seq<Range>, hi: nat, cursor: nat, now: seq<Task>)
    requires t < |ts| && ts[t].used && MMAP_MIN <= cursor
    requires forall i :: 0 <= i < |ts| && Shares(ts, t, i) ==> ts[i].mmapNext == cursor
    requires var mid := Retabled(ts, t, |ts|, table);
             now == if hi > cursor then Recursored(mid, t, |ts|, Max(hi, Highest(mid, t, |ts|))) else mid
    ensures CursorsMoved(ts, now, t, Max(hi, cursor))
  {
    var mid := Retabled(ts, t, |ts|, table);
    assert Shares(mid, t, t) && mid[t].mmapNext == cursor;
    assert Highest(mid, t, |ts|) == cursor;
  }

  lemma ReservedBelow(ts: seq<Task>, t: nat, lo: nat, hi: nat, prot: nat, cursor: nat)
    requires t < |ts| && ts[t].used && SameTables(ts) && BelowCursors(ts)
    requires |Rebuilt(ts[t].lazy, lo, hi, Replace, prot)| <= SLOTS
    requires forall i :: 0 <= i < |ts| && Shares(ts, t, i) ==> ts[i].mmapNext == cursor
    ensures forall c :: c >= hi && c >= cursor ==> EndsBelow(Padded(Rebuilt(ts[t].lazy, lo, hi, Replace, prot)), c)
  {
    hide Rebuilt, Padded;
    forall c | c >= hi && c >= cursor
      ensures EndsBelow(Padded(Rebuilt(ts[t].lazy, lo, hi, Replace, prot)), c)
    {
      assert EndsBelow(ts[t].lazy, c);
      RebuiltEnd(ts[t].lazy, lo, hi, Replace, prot, c);
    }
  }

}
