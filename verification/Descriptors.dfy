/**
 Descriptor tables of src/kernel/main.c and the reference counts of what descriptors stand for:
 pipe ends and the two sides of pseudo-terminals.
 */
module Descriptors {

  const MAX_FILES := 512
  const MAX_TABLES := 32
  const MAX_TASKS := 64
  const PIPES := 8
  const PTYS := 8

  const O_CLOEXEC := 0x80000

  const EBADF := -9
  const EMFILE := -24
  const EINVAL := -22
  const EFAULT := -14
  const ENXIO := -6
  const EACCES := -13

  /** One kind of thing a descriptor may refer to; `Plain` stands for everything that is not counted. */
  datatype End = PipeRead(p: nat) | PipeWrite(p: nat) | Master(p: nat) | Slave(p: nat) | Plain

  datatype Fd = Free | Open(end: End, cloexec: bool)

  type Table = seq<Fd>

  /** Descriptor fd of table t is set. */
  function Put(tables: seq<Table>, t: int, fd: int, f: Fd): seq<Table>
    requires 0 <= t < |tables| && 0 <= fd < |tables[t]|
  {
    tables[t := tables[t][fd := f]]
  }

  lemma PutSame(tables: seq<Table>, t: nat, fd: nat, f: Fd)
    requires t < |tables|
    ensures fd < |tables[t]| && tables[t][fd] == f ==> tables[t := tables[t][fd := f]] == tables
  {
    if fd < |tables[t]| && tables[t][fd] == f {
      assert tables[t][fd := f] == tables[t];
    }
  }

  predicate Refers(fd: Fd, e: End) {
    fd.Open? && fd.end == e
  }

  /** No descriptor is left. */
  predicate Full(table: Table) {
    forall i :: 0 <= i < |table| ==> table[i].Open?
  }

  predicate TwoFree(table: Table) {
    exists i, j :: 0 <= i < j < |table| && table[i] == Free && table[j] == Free
  }

  lemma OnlyOneFree(table: Table, a: nat)
    requires forall i :: 0 <= i < |table| && i != a ==> table[i].Open?
    ensures !TwoFree(table)
  {
  }

  function Bit(b: bool): nat {
    if b then 1 else 0
  }

  /** How many descriptors of a table refer to e. */
  function CountIn(table: Table, e: End): nat {
    if table == [] then 0 else CountIn(table[..|table| - 1], e) + Bit(Refers(table[|table| - 1], e))
  }

  /** How many descriptors of the first n tables in use refer to e. */
  function Live(tables: seq<Table>, refs: seq<nat>, e: End, n: nat): nat
    requires n <= |tables| && n <= |refs|
  {
    if n == 0 then 0 else Live(tables, refs, e, n - 1) + if refs[n - 1] > 0 then CountIn(tables[n - 1], e) else 0
  }

  /** How many of the first n tasks use table t. */
  function Users(ids: seq<int>, t: nat, n: nat): nat
    requires n <= |ids|
  {
    if n == 0 then 0 else Users(ids, t, n - 1) + Bit(ids[n - 1] == t)
  }

  lemma {:induction false} CountSet(table: Table, i: nat, fd: Fd, e: End)
    requires i < |table|
    ensures CountIn(table[i := fd], e) + Bit(Refers(table[i], e)) == CountIn(table, e) + Bit(Refers(fd, e))
  {
    var n := |table| - 1;
    if i < n {
      CountSet(table[..n], i, fd, e);
      assert table[i := fd][..n] == table[..n][i := fd];
    } else {
      assert table[i := fd][..n] == table[..n];
    }
  }

  lemma {:induction false} CountNone(table: Table, e: End)
    requires forall i :: 0 <= i < |table| ==> table[i] == Free
    ensures CountIn(table, e) == 0
  {
    if table != [] {
      CountNone(table[..|table| - 1], e);
    }
  }

  lemma CountMore(table: Table, i: nat, e: End)
    requires i < |table|
    ensures CountIn(table[..i + 1], e) == CountIn(table[..i], e) + Bit(Refers(table[i], e))
  {
    assert table[..i + 1][..i] == table[..i];
  }

  /** A descriptor that refers to e is counted. */
  lemma {:induction false} CountSome(table: Table, i: nat, e: End)
    requires i < |table| && Refers(table[i], e)
    ensures CountIn(table, e) > 0
  {
    if i < |table| - 1 {
      CountSome(table[..|table| - 1], i, e);
    }
  }

  /** Changing one table. */
  lemma {:induction false} LiveTable(tables: seq<Table>, refs: seq<nat>, t: nat, table: Table, e: End, n: nat)
    requires n <= |tables| && n <= |refs| && t < |tables| && t < |refs|
    ensures t < n && refs[t] > 0 ==>
              Live(tables[t := table], refs, e, n) + CountIn(tables[t], e) ==
                Live(tables, refs, e, n) + CountIn(table, e)
    ensures t >= n || refs[t] == 0 ==> Live(tables[t := table], refs, e, n) == Live(tables, refs, e, n)
  {
    if n > 0 {
      LiveTable(tables, refs, t, table, e, n - 1);
    }
  }

  /** A table comes into use or goes out of use. */
  lemma {:induction false} LiveRefs(tables: seq<Table>, refs: seq<nat>, t: nat, r: nat, e: End, n: nat)
    requires n <= |tables| && n <= |refs| && t < |tables| && t < |refs|
    ensures t < n ==>
              Live(tables, refs[t := r], e, n) + (if refs[t] > 0 then CountIn(tables[t], e) else 0) ==
              Live(tables, refs, e, n) + (if r > 0 then CountIn(tables[t], e) else 0)
    ensures t >= n ==> Live(tables, refs[t := r], e, n) == Live(tables, refs, e, n)
  {
    if n > 0 {
      LiveRefs(tables, refs, t, r, e, n - 1);
    }
  }

  lemma {:induction false} LiveSome(tables: seq<Table>, refs: seq<nat>, t: nat, i: nat, e: End, n: nat)
    requires n <= |tables| && n <= |refs| && t < n && refs[t] > 0 && i < |tables[t]| && Refers(tables[t][i], e)
    ensures Live(tables, refs, e, n) > 0
  {
    if t == n - 1 {
      CountSome(tables[t], i, e);
    } else {
      LiveSome(tables, refs, t, i, e, n - 1);
    }
  }

  lemma {:induction false} UsersSet(ids: seq<int>, task: nat, id: int, t: nat, n: nat)
    requires n <= |ids| && task < |ids|
    ensures Users(ids[task := id], t, n) + Bit(task < n && ids[task] == t) ==
              Users(ids, t, n) + Bit(task < n && id == t)
  {
    if n > 0 {
      UsersSet(ids, task, id, t, n - 1);
    }
  }

  lemma {:induction false} UsersSome(ids: seq<int>, task: nat, t: nat, n: nat)
    requires n <= |ids| && task < n && ids[task] == t
    ensures Users(ids, t, n) > 0
  {
    if task < n - 1 {
      UsersSome(ids, task, t, n - 1);
    }
  }

  ghost predicate Shaped(tables: seq<Table>, refs: seq<nat>, ids: seq<int>) {
    && |tables| == MAX_TABLES && |refs| == MAX_TABLES && |ids| == MAX_TASKS
    && (forall t :: 0 <= t < MAX_TABLES ==> |tables[t]| == MAX_FILES)
    && (forall k :: 0 <= k < MAX_TASKS ==> -1 <= ids[k] < MAX_TABLES)
    && ids[0] == 0
  }

  predicate Counted(e: End) {
    match e
    case PipeRead(p) => p < PIPES
    case PipeWrite(p) => p < PIPES
    case Master(p) => p < PTYS
    case Slave(p) => p < PTYS
    case Plain => false
  }

  /** Descriptors refer to slots that exist. */
  ghost predicate GoodEnds(tables: seq<Table>) {
    forall t, i :: 0 <= t < |tables| && 0 <= i < |tables[t]| && tables[t][i].Open? ==>
      tables[t][i].end == Plain || Counted(tables[t][i].end)
  }

  ghost predicate TableCounts(refs: seq<nat>, ids: seq<int>)
    requires |refs| == MAX_TABLES && |ids| == MAX_TASKS
  {
    forall t :: 0 <= t < MAX_TABLES ==> refs[t] == Users(ids, t, MAX_TASKS)
  }

  /** Each counter is the number of live descriptors, and those of `more`, that refer to its end. */
  ghost predicate EndCounts(counts: map<End, nat>, tables: seq<Table>, refs: seq<nat>, more: Table)
    requires |tables| == MAX_TABLES && |refs| == MAX_TABLES
  {
    forall e :: Counted(e) ==> e in counts && counts[e] == Live(tables, refs, e, MAX_TABLES) + CountIn(more, e)
  }

  /** A pseudo-terminal side is open exactly while something refers to it. */
  ghost predicate OpenSides(counts: map<End, nat>, sideOpen: map<End, bool>) {
    forall e :: Counted(e) && (e.Master? || e.Slave?) ==>
      e in counts && e in sideOpen && (sideOpen[e] <==> counts[e] > 0)
  }

  /** One descriptor of a table in use changes. */
  lemma FdSet(tables: seq<Table>, refs: seq<nat>, t: nat, i: nat, fd: Fd, e: End)
    requires |tables| == MAX_TABLES && |refs| == MAX_TABLES && t < MAX_TABLES && refs[t] > 0 && i < |tables[t]|
    ensures Live(tables[t := tables[t][i := fd]], refs, e, MAX_TABLES) + Bit(Refers(tables[t][i], e)) ==
            Live(tables, refs, e, MAX_TABLES) + Bit(Refers(fd, e))
  {
    CountSet(tables[t], i, fd, e);
    LiveTable(tables, refs, t, tables[t][i := fd], e, MAX_TABLES);
  }

  function Retained(counts: map<End, nat>, e: End): map<End, nat> {
    if e in counts then counts[e := counts[e] + 1] else counts
  }

  function Dropped(counts: map<End, nat>, e: End): map<End, nat> {
    if e in counts && counts[e] > 0 then counts[e := counts[e] - 1] else counts
  }

  lemma OpenedFd(counts: map<End, nat>, tables: seq<Table>, refs: seq<nat>, t: nat, i: nat, fd: Fd)
    requires |tables| == MAX_TABLES && |refs| == MAX_TABLES && t < MAX_TABLES && refs[t] > 0 && i < |tables[t]|
    requires EndCounts(counts, tables, refs, []) && tables[t][i] == Free && fd.Open?
    requires (Counted(fd.end) <==> fd.end in counts)
    ensures EndCounts(Retained(counts, fd.end), tables[t := tables[t][i := fd]], refs, [])
  {
    forall e | Counted(e)
      ensures e in Retained(counts, fd.end)
      ensures Retained(counts, fd.end)[e] == Live(tables[t := tables[t][i := fd]], refs, e, MAX_TABLES) + CountIn([], e)
    {
      FdSet(tables, refs, t, i, fd, e);
    }
  }

  lemma ClosedFd(counts: map<End, nat>, tables: seq<Table>, refs: seq<nat>, t: nat, i: nat)
    requires |tables| == MAX_TABLES && |refs| == MAX_TABLES && t < MAX_TABLES && refs[t] > 0 && i < |tables[t]|
    requires EndCounts(counts, tables, refs, []) && tables[t][i].Open?
    requires (Counted(tables[t][i].end) <==> tables[t][i].end in counts)
    ensures EndCounts(Dropped(counts, tables[t][i].end), tables[t := tables[t][i := Free]], refs, [])
  {
    var d := tables[t][i].end;
    forall e | Counted(e)
      ensures e in Dropped(counts, d)
      ensures Dropped(counts, d)[e] == Live(tables[t := tables[t][i := Free]], refs, e, MAX_TABLES) + CountIn([], e)
    {
      FdSet(tables, refs, t, i, Free, e);
      if e == d {
        LiveSome(tables, refs, t, i, e, MAX_TABLES);
      }
    }
  }

  /** Nothing refers to the pipe and it holds no bytes. */
  predicate PipeFree(counts: map<End, nat>, pending: seq<nat>, p: nat) {
    && PipeRead(p) in counts && PipeWrite(p) in counts && p < |pending|
    && counts[PipeRead(p)] == 0 && counts[PipeWrite(p)] == 0 && pending[p] == 0
  }

  // ----- The machine without counters -----

  /** Tables, the table of each task, and what else decides a call. */
  datatype View = View(tables: seq<Table>, ids: seq<int>, unlocked: seq<bool>, pending: seq<nat>)

  ghost predicate Proper(v: View) {
    && |v.tables| == MAX_TABLES && (forall t :: 0 <= t < MAX_TABLES ==> |v.tables[t]| == MAX_FILES)
    && |v.ids| == MAX_TASKS && (forall k :: 0 <= k < MAX_TASKS ==> -1 <= v.ids[k] < MAX_TABLES)
    && |v.unlocked| == PTYS && |v.pending| == PIPES
  }

  /** A task works in its own table, in table 0 while it has none. */
  ghost function Mine(v: View, task: nat): nat
    requires Proper(v) && task < MAX_TASKS
  {
    if v.ids[task] >= 0 then v.ids[task] else 0
  }

  /** Some task has a descriptor for e. */
  ghost predicate Held(v: View, e: End) {
    exists k, i :: HeldAt(v, k, i, e)
  }

  ghost predicate HeldAt(v: View, k: int, i: int, e: End) {
    && 0 <= k < |v.ids| && 0 <= v.ids[k] < |v.tables| && 0 <= i < |v.tables[v.ids[k]]|
    && Refers(v.tables[v.ids[k]][i], e)
  }

  ghost predicate Used(v: View, t: nat) {
    exists k :: 0 <= k < |v.ids| && v.ids[k] == t
  }

  /** The lowest free descriptor from lo on; -1 when there is none. */
  ghost function Lowest(table: Table, lo: nat): int
    decreases |table| - lo
  {
    if lo >= |table| then -1 else if table[lo] == Free then lo else Lowest(table, lo + 1)
  }

  /** The first pipe from p on that no task has and that is empty. */
  ghost function FirstPipe(v: View, p: nat): (r: nat)
    requires Proper(v)
    ensures r >= PIPES || (!Held(v, PipeRead(r)) && !Held(v, PipeWrite(r)) && v.pending[r] == 0)
    decreases PIPES - p
  {
    if p >= PIPES || (!Held(v, PipeRead(p)) && !Held(v, PipeWrite(p)) && v.pending[p] == 0) then p
    else FirstPipe(v, p + 1)
  }

  /** The first terminal from p on that no task has open. */
  ghost function FirstTerminal(v: View, p: nat): (r: nat)
    ensures r >= PTYS || (!Held(v, Master(r)) && !Held(v, Slave(r)))
    decreases PTYS - p
  {
    if p >= PTYS || (!Held(v, Master(p)) && !Held(v, Slave(p))) then p else FirstTerminal(v, p + 1)
  }

  /** The first table from t on that no task uses. */
  ghost function FirstTable(v: View, t: nat): (r: nat)
    ensures r >= t && (r >= MAX_TABLES || !Used(v, r))
    decreases MAX_TABLES - t
  {
    if t >= MAX_TABLES || !Used(v, t) then t else FirstTable(v, t + 1)
  }

  ghost function Filed(v: View, t: nat, fd: int, f: Fd): (r: View)
    requires Proper(v) && t < MAX_TABLES && 0 <= fd < MAX_FILES
    ensures Proper(r)
  {
    v.(tables := v.tables[t := v.tables[t][fd := f]])
  }

  ghost function Opened(v: View, task: nat, lo: nat, f: Fd): (r: View)
    requires Proper(v) && task < MAX_TASKS
    ensures Proper(r)
  {
    var t := Mine(v, task);
    var n := Lowest(v.tables[t], lo);
    if 0 <= n < MAX_FILES then Filed(v, t, n, f) else v
  }

  /** Two descriptors for a pipe that is in nobody's hands. */
  ghost function Piped(v: View, task: nat): (r: View)
    requires Proper(v) && task < MAX_TASKS
    ensures Proper(r)
  {
    var t := Mine(v, task);
    var a := Lowest(v.tables[t], 0);
    var b := if a < 0 then -1 else Lowest(v.tables[t], a + 1);
    var p := FirstPipe(v, 0);
    if 0 <= a < MAX_FILES && 0 <= b < MAX_FILES && p < PIPES then
      Filed(Filed(v, t, a, Open(PipeRead(p), false)), t, b, Open(PipeWrite(p), false))
    else v
  }

  /** A terminal nobody has open, locked. */
  ghost function Mastered(v: View, task: nat, cloexec: bool): (r: View)
    requires Proper(v) && task < MAX_TASKS
    ensures Proper(r)
  {
    var p := FirstTerminal(v, 0);
    if p < PTYS && Lowest(v.tables[Mine(v, task)], 0) >= 0 then
      Opened(v, task, 0, Open(Master(p), cloexec)).(unlocked := v.unlocked[p := false])
    else v
  }

  /** The other side of an unlocked terminal somebody has open. */
  ghost function Slaved(v: View, task: nat, p: nat, cloexec: bool): (r: View)
    requires Proper(v) && task < MAX_TASKS
    ensures Proper(r)
  {
    if p < PTYS && Held(v, Master(p)) && v.unlocked[p] then Opened(v, task, 0, Open(Slave(p), cloexec)) else v
  }

  ghost function Dupped(v: View, task: nat, fd: nat, lowest: nat, cloexec: bool): (r: View)
    requires Proper(v) && task < MAX_TASKS
    ensures Proper(r)
  {
    var table := v.tables[Mine(v, task)];
    if fd < MAX_FILES && table[fd].Open? then Opened(v, task, lowest, Open(table[fd].end, cloexec)) else v
  }

  ghost function DuppedTo(v: View, task: nat, fd: nat, to: nat, cloexec: bool): (r: View)
    requires Proper(v) && task < MAX_TASKS
    ensures Proper(r)
  {
    var t := Mine(v, task);
    if fd < MAX_FILES && to < MAX_FILES && fd != to && v.tables[t][fd].Open? then
      Filed(v, t, to, Open(v.tables[t][fd].end, cloexec))
    else v
  }

  ghost function Closed(v: View, task: nat, fd: nat): (r: View)
    requires Proper(v) && task < MAX_TASKS
    ensures Proper(r)
  {
    if fd < MAX_FILES then Filed(v, Mine(v, task), fd, Free) else v
  }

  ghost function Execed(v: View, task: nat): (r: View)
    requires Proper(v) && task < MAX_TASKS
    ensures Proper(r)
  {
    var t := Mine(v, task);
    var table := v.tables[t];
    var kept := seq(MAX_FILES, i requires 0 <= i < MAX_FILES =>
      if table[i].Open? && table[i].cloexec then Free else table[i]);
    v.(tables := v.tables[t := kept])
  }

  /** The last user takes the descriptors along; task 0 keeps table 0. */
  ghost function Exited(v: View, task: nat): (r: View)
    requires Proper(v) && task < MAX_TASKS
    ensures Proper(r)
  {
    var t := v.ids[task];
    if t < 0 then v else
      var after := v.(ids := if task == 0 then v.ids else v.ids[task := -1]);
      if exists k :: 0 <= k < MAX_TASKS && k != task && v.ids[k] == t then after
      else after.(tables := v.tables[t := seq(MAX_FILES, i => Free)])
  }

  /** The child works in its parent's table or in a copy of it. */
  ghost function Copied(v: View, task: nat, child: nat, share: bool): (r: View)
    requires Proper(v) && task < MAX_TASKS
    ensures Proper(r)
  {
    if child >= MAX_TASKS || v.ids[child] >= 0 || v.ids[task] < 0 then v
    else if share then v.(ids := v.ids[child := v.ids[task]])
    else
      var u := FirstTable(v, 1);
      if u >= MAX_TABLES then v else v.(tables := v.tables[u := v.tables[v.ids[task]]], ids := v.ids[child := u])
  }

  /** What each request is to do. Nothing is counted: whether an end is in use is looked up in the tables. */
  ghost function After(v: View, q: Request): (r: View)
    requires Proper(v)
    ensures Proper(r)
  {
    if q.task >= MAX_TASKS then v else
      match q
      case AskPipe(task, fault) => if fault then v else Piped(v, task)
      case AskMaster(task, cloexec) => Mastered(v, task, cloexec)
      case AskSlave(task, p, cloexec) => Slaved(v, task, p, cloexec)
      case AskPlain(task, cloexec) => Opened(v, task, 0, Open(Plain, cloexec))
      case AskDup(task, fd, lowest, cloexec) => Dupped(v, task, fd, lowest, cloexec)
      case AskDup2(task, fd, to) => DuppedTo(v, task, fd, to, false)
      case AskDup3(task, fd, to, flags) =>
      if flags == 0 || flags == 0x80000 then DuppedTo(v, task, fd, to, flags != 0) else v
      case AskClose(task, fd) => Closed(v, task, fd)
      case AskExec(task) => Execed(v, task)
      case AskExit(task) => Exited(v, task)
      case AskClone(task, child, share) => Copied(v, task, child, share)
      case AskUnlock(_, p, lock) => if p >= PTYS then v else v.(unlocked := v.unlocked[p := !lock])
      case AskBytes(_, p, n) => if p >= PIPES then v else v.(pending := v.pending[p := n])
  }

  ghost function AfterAll(v: View, qs: seq<Request>): (r: View)
    requires Proper(v)
    ensures Proper(r)
    decreases |qs|
  {
    if qs == [] then v else After(AfterAll(v, qs[..|qs| - 1]), qs[|qs| - 1])
  }

  lemma {:induction false} LowestIs(table: Table, lo: nat, fd: int)
    requires fd == -1 || lo <= fd < |table|
    requires fd >= 0 ==> table[fd] == Free && forall i :: lo <= i < fd ==> table[i].Open?
    requires fd == -1 ==> forall i :: lo <= i < |table| ==> table[i].Open?
    ensures Lowest(table, lo) == fd
    decreases |table| - lo
  {
    if lo < |table| && table[lo] != Free {
      LowestIs(table, lo + 1, fd);
    }
  }

  lemma {:induction false} FirstPipeIs(v: View, p: nat, r: nat)
    requires Proper(v) && p <= r <= PIPES
    requires r < PIPES ==> !Held(v, PipeRead(r)) && !Held(v, PipeWrite(r)) && v.pending[r] == 0
    requires forall i :: p <= i < r ==> Held(v, PipeRead(i)) || Held(v, PipeWrite(i)) || v.pending[i] != 0
    ensures FirstPipe(v, p) == r
    decreases PIPES - p
  {
    hide Held;
    if p < r {
      FirstPipeIs(v, p + 1, r);
    }
  }

  lemma {:induction false} FirstTerminalIs(v: View, p: nat, r: nat)
    requires p <= r <= PTYS && (r < PTYS ==> !Held(v, Master(r)) && !Held(v, Slave(r)))
    requires forall i :: p <= i < r ==> Held(v, Master(i)) || Held(v, Slave(i))
    ensures FirstTerminal(v, p) == r
    decreases PTYS - p
  {
    hide Held;
    if p < r {
      FirstTerminalIs(v, p + 1, r);
    }
  }

  lemma {:induction false} FirstTableIs(v: View, t: nat, r: nat)
    requires t <= r <= MAX_TABLES && (r < MAX_TABLES ==> !Used(v, r))
    requires forall i :: t <= i < r ==> Used(v, i)
    ensures FirstTable(v, t) == r
    decreases MAX_TABLES - t
  {
    hide Used;
    if t < r {
      FirstTableIs(v, t + 1, r);
    }
  }

  lemma {:induction false} CountedFd(table: Table, e: End) returns (i: nat)
    requires CountIn(table, e) > 0
    ensures i < |table| && Refers(table[i], e)
  {
    var n := |table| - 1;
    if Refers(table[n], e) {
      return n;
    }
    i := CountedFd(table[..n], e);
  }

  lemma {:induction false} LiveFd(tables: seq<Table>, refs: seq<nat>, e: End, n: nat) returns (t: nat, i: nat)
    requires n <= |tables| && n <= |refs| && Live(tables, refs, e, n) > 0
    ensures t < n && refs[t] > 0 && i < |tables[t]| && Refers(tables[t][i], e)
  {
    if refs[n - 1] > 0 && CountIn(tables[n - 1], e) > 0 {
      t := n - 1;
      i := CountedFd(tables[t], e);
    } else {
      t, i := LiveFd(tables, refs, e, n - 1);
    }
  }

  lemma {:induction false} SomeUser(ids: seq<int>, t: nat, n: nat) returns (k: nat)
    requires n <= |ids| && Users(ids, t, n) > 0
    ensures k < n && ids[k] == t
  {
    if ids[n - 1] == t {
      return n - 1;
    }
    k := SomeUser(ids, t, n - 1);
  }

  /** A table with one user has no other. */
  lemma OtherUser(refs: seq<nat>, ids: seq<int>, task: nat, t: nat)
    requires |refs| == MAX_TABLES && |ids| == MAX_TASKS && TableCounts(refs, ids)
    requires task < MAX_TASKS && ids[task] == t && t < MAX_TABLES
    ensures refs[t] > 1 <==> exists k :: 0 <= k < MAX_TASKS && k != task && ids[k] == t
  {
    UsersSet(ids, task, -1, t, MAX_TASKS);
    if k :| 0 <= k < MAX_TASKS && k != task && ids[k] == t {
      UsersSome(ids[task := -1], k, t, MAX_TASKS);
    }
    if refs[t] > 1 {
      var k := SomeUser(ids[task := -1], t, MAX_TASKS);
      assert k != task && ids[k] == t;
    }
  }

  /** A table that lost its close-on-exec descriptors. */
  lemma ExecedIs(v: View, task: nat, after: View)
    requires Proper(v) && Proper(after) && after == v.(tables := after.tables)
    requires task < MAX_TASKS ==>
               forall t :: 0 <= t < MAX_TABLES && t != Mine(v, task) ==> after.tables[t] == v.tables[t]
    requires task < MAX_TASKS ==> forall i :: 0 <= i < MAX_FILES ==>
               var fd := v.tables[Mine(v, task)][i];
               after.tables[Mine(v, task)][i] == if fd.Open? && fd.cloexec then Free else fd
    ensures task < MAX_TASKS ==> after == Execed(v, task)
  {
    if task < MAX_TASKS {
      assert after.tables[Mine(v, task)] == Execed(v, task).tables[Mine(v, task)];
      assert after.tables == Execed(v, task).tables;
    }
  }

  /** A counter is above zero exactly while some task has a descriptor for its end. */
  lemma CountHeld(v: View, refs: seq<nat>, counts: map<End, nat>, e: End)
    requires Proper(v) && |refs| == MAX_TABLES && TableCounts(refs, v.ids) && EndCounts(counts, v.tables, refs, [])
    requires Counted(e)
    ensures e in counts && (counts[e] > 0 <==> Held(v, e))
  {
    if counts[e] > 0 {
      var t, i := LiveFd(v.tables, refs, e, MAX_TABLES);
      var k := SomeUser(v.ids, t, MAX_TASKS);
      assert HeldAt(v, k, i, e);
    }
    if Held(v, e) {
      var k, i :| HeldAt(v, k, i, e);
      UsersSome(v.ids, k, v.ids[k], MAX_TASKS);
      LiveSome(v.tables, refs, v.ids[k], i, e, MAX_TABLES);
    }
  }

  lemma RefsUsed(v: View, refs: seq<nat>, t: nat)
    requires Proper(v) && |refs| == MAX_TABLES && TableCounts(refs, v.ids) && t < MAX_TABLES
    ensures refs[t] > 0 <==> Used(v, t)
  {
    if refs[t] > 0 {
      var k := SomeUser(v.ids, t, MAX_TASKS);
    }
    if k :| 0 <= k < MAX_TASKS && v.ids[k] == t {
      UsersSome(v.ids, k, t, MAX_TASKS);
    }
  }

  class Files {
    var tables: seq<Table>
    var refs: seq<nat>
    var ids: seq<int>
    /** readers, writers, master_refs and slave_refs of all slots */
    var counts: map<End, nat>
    /** master_open and slave_open */
    var sideOpen: map<End, bool>
    var unlocked: seq<bool>
    /** bytes waiting in each pipe */
    var pending: seq<nat>

    ghost predicate Valid()
      reads this
    {
      && Shaped(tables, refs, ids) && GoodEnds(tables) && TableCounts(refs, ids)
      && EndCounts(counts, tables, refs, []) && OpenSides(counts, sideOpen)
      && (forall e :: e in counts ==> Counted(e)) && |unlocked| == PTYS && |pending| == PIPES
    }

    ghost function Seen(): View
      reads this
    {
      View(tables, ids, unlocked, pending)
    }

    lemma SeenProper()
      requires Valid()
      ensures Proper(Seen())
    {
    }

    /** In the tables nobody counts: what the counters say. */
    lemma CountersSay()
      requires Valid()
      ensures Proper(Seen())
      ensures forall e :: Counted(e) ==> e in counts && (counts[e] > 0 <==> Held(Seen(), e))
      ensures forall t :: 0 <= t < MAX_TABLES ==> (refs[t] > 0 <==> Used(Seen(), t))
    {
      hide EndCounts, TableCounts, Held, Used;
      forall e | Counted(e)
        ensures e in counts && (counts[e] > 0 <==> Held(Seen(), e))
      {
        CountHeld(Seen(), refs, counts, e);
      }
      forall t | 0 <= t < MAX_TABLES
        ensures refs[t] > 0 <==> Used(Seen(), t)
      {
        RefsUsed(Seen(), refs, t);
      }
    }

    /** The table a task's descriptors are in. */
    function TableOf(task: nat): (t: int)
      reads this`ids
    {
      if task < |ids| && 0 <= ids[task] < MAX_TABLES then ids[task] else 0
    }

    lemma TableLive(task: nat)
      requires Valid()
      ensures 0 <= TableOf(task) < MAX_TABLES && refs[TableOf(task)] > 0
      ensures Proper(Seen()) && (task < MAX_TASKS ==> TableOf(task) == Mine(Seen(), task))
    {
      if task < |ids| && 0 <= ids[task] < MAX_TABLES {
        UsersSome(ids, task, ids[task], MAX_TASKS);
      } else {
        UsersSome(ids, 0, 0, MAX_TASKS);
      }
    }

    /** The first free descriptor from lo on. */
    method FindFree(table: Table, lo: nat) returns (fd: int)
      requires |table| == MAX_FILES
      ensures fd == -1 || lo <= fd < MAX_FILES
      ensures fd >= 0 ==> table[fd] == Free && forall i :: lo <= i < fd ==> table[i].Open?
      ensures fd == -1 ==> forall i :: lo <= i < MAX_FILES ==> table[i].Open?
      ensures fd == Lowest(table, lo)
    {
      hide Lowest;
      var i := lo;
      while i < MAX_FILES
        invariant lo <= i && forall j :: lo <= j < i && j < MAX_FILES ==> table[j].Open?
      {
        if table[i] == Free {
          LowestIs(table, lo, i);
          return i;
        }
        i := i + 1;
      }
      LowestIs(table, lo, -1);
      return -1;
    }

    /** fd_copy_scalar into a free slot and fd_retain_endpoint_ref */
    method Install(t: nat, i: nat, fd: Fd)
      requires Valid() && t < MAX_TABLES && refs[t] > 0 && i < MAX_FILES && tables[t][i] == Free
      requires fd.Open? && (fd.end == Plain || Counted(fd.end))
      modifies this`tables, this`counts, this`sideOpen
      ensures Valid() && tables == old(tables)[t := old(tables)[t][i := fd]] && counts == Retained(old(counts), fd.end)
    {
      hide EndCounts;
      CountedKeys();
      OpenedFd(counts, tables, refs, t, i, fd);
      tables := tables[t := tables[t][i := fd]];
      if fd.end != Plain {
        counts := counts[fd.end := counts[fd.end] + 1];
        if fd.end.Master? || fd.end.Slave? {
          sideOpen := sideOpen[fd.end := true];
        }
      }
    }

    lemma CountedKeys()
      requires Valid()
      ensures forall e :: Counted(e) <==> e in counts
    {
    }

    /** pipe_live_readers and pipe_live_writers */
    method LiveCount(e: End) returns (n: nat)
      requires Shaped(tables, refs, ids)
      ensures n == Live(tables, refs, e, MAX_TABLES)
    {
      n := 0;
      for t := 0 to MAX_TABLES
        invariant n == Live(tables, refs, e, t)
      {
        if refs[t] > 0 {
          ghost var before := n;
          for i := 0 to MAX_FILES
            invariant n == before + CountIn(tables[t][..i], e)
          {
            CountMore(tables[t], i, e);
            if Refers(tables[t][i], e) {
              n := n + 1;
            }
          }
          assert tables[t][..MAX_FILES] == tables[t];
        }
      }
    }

    /** sys_close */
    method Close(task: nat, fd: nat) returns (rc: int)
      requires Valid()
      modifies this`tables, this`counts, this`sideOpen
      ensures Valid()
      ensures rc == if fd < MAX_FILES && old(tables)[TableOf(task)][fd].Open? then 0 else EBADF
      ensures rc != 0 ==> tables == old(tables) && counts == old(counts)
      ensures rc == 0 ==> tables == old(tables)[TableOf(task) := old(tables)[TableOf(task)][fd := Free]]
      ensures rc == 0 ==> counts == Dropped(old(counts), old(tables)[TableOf(task)][fd].end)
      ensures task < MAX_TASKS ==> Proper(old(Seen())) && Seen() == Closed(old(Seen()), task, fd)
    {
      hide EndCounts, GoodEnds, OpenSides, TableCounts;
      TableLive(task);
      var t := TableOf(task);
      if fd >= MAX_FILES || tables[t][fd] == Free {
        PutSame(tables, t, fd, Free);
        return EBADF;
      }
      CloseFd(t, fd);
      return 0;
    }

    /** The descriptor goes, with the reference it was. */
    method CloseFd(t: nat, fd: nat)
      requires Valid() && t < MAX_TABLES && refs[t] > 0 && fd < MAX_FILES && tables[t][fd].Open?
      modifies this`tables, this`counts, this`sideOpen
      ensures Valid() && tables == old(tables)[t := old(tables)[t][fd := Free]]
      ensures counts == Dropped(old(counts), old(tables)[t][fd].end)
    {
      hide EndCounts, TableCounts;
      CountedKeys();
      var e := tables[t][fd].end;
      ClosedFd(counts, tables, refs, t, fd);
      if e != Plain {
        if counts[e] > 0 {
          counts := counts[e := counts[e] - 1];
        }
        if (e.Master? || e.Slave?) && counts[e] == 0 {
          sideOpen := sideOpen[e := false];
        }
      }
      tables := tables[t := tables[t][fd := Free]];
      if e.PipeRead? || e.PipeWrite? {
        var n := LiveCount(e);
        LiveIs(counts, tables, refs, e);
        counts := counts[e := n];
      }
    }

    /** sys_dup and the duplicating fcntl */
    method Dup(task: nat, from: nat, lowest: nat, cloexec: bool) returns (r: int)
      requires Valid()
      modifies this`tables, this`counts, this`sideOpen
      ensures Valid()
      ensures r < 0 ==> tables == old(tables) && counts == old(counts)
      ensures r == EBADF <==> !(from < MAX_FILES && old(tables)[TableOf(task)][from].Open?)
      ensures r < 0 && r != EBADF ==> forall i :: lowest <= i < MAX_FILES ==> old(tables)[TableOf(task)][i].Open?
      ensures r >= 0 ==> lowest <= r < MAX_FILES && old(tables)[TableOf(task)][r] == Free
                         && (forall i :: lowest <= i < r ==> old(tables)[TableOf(task)][i].Open?)
                         && tables == Put(old(tables), TableOf(task), r,
                                          Open(old(tables)[TableOf(task)][from].end, cloexec))
                         && counts == Retained(old(counts), old(tables)[TableOf(task)][from].end)
      ensures task < MAX_TASKS ==> Proper(old(Seen())) && Seen() == Dupped(old(Seen()), task, from, lowest, cloexec)
    {
      hide EndCounts;
      TableLive(task);
      var t := TableOf(task);
      if from >= MAX_FILES || tables[t][from] == Free {
        return EBADF;
      }
      var n := FindFree(tables[t], lowest);
      if n < 0 {
        return EMFILE;
      }
      Install(t, n, Open(tables[t][from].end, cloexec));
      return n;
    }

    /** The common part of sys_dup2 and sys_dup3: what to referred to is closed first. */
    method Duplicate(task: nat, from: nat, to: nat, cloexec: bool)
      requires Valid() && from < MAX_FILES && to < MAX_FILES && from != to && tables[TableOf(task)][from].Open?
      modifies this`tables, this`counts, this`sideOpen
      ensures Valid()
      ensures tables == Put(old(tables), TableOf(task), to, Open(old(tables)[TableOf(task)][from].end, cloexec))
      ensures task < MAX_TASKS ==> Proper(old(Seen())) && Seen() == DuppedTo(old(Seen()), task, from, to, cloexec)
    {
      hide EndCounts;
      TableLive(task);
      var t := TableOf(task);
      if tables[t][to].Open? {
        var _ := Close(task, to);
      }
      Install(t, to, Open(tables[t][from].end, cloexec));
      assert tables[t] == old(tables)[t][to := Open(old(tables)[t][from].end, cloexec)];
    }

    /** sys_dup2 */
    method Dup2(task: nat, from: nat, to: nat) returns (r: int)
      requires Valid()
      modifies this`tables, this`counts, this`sideOpen
      ensures Valid()
      ensures r == if from < MAX_FILES && to < MAX_FILES && old(tables)[TableOf(task)][from].Open? then to else EBADF
      ensures r < 0 || from == to ==> tables == old(tables) && counts == old(counts)
      ensures r >= 0 && from != to ==>
                tables == Put(old(tables), TableOf(task), to, Open(old(tables)[TableOf(task)][from].end, false))
      ensures task < MAX_TASKS ==> Proper(old(Seen())) && Seen() == DuppedTo(old(Seen()), task, from, to, false)
    {
      hide EndCounts;
      TableLive(task);
      if from >= MAX_FILES || tables[TableOf(task)][from] == Free || to >= MAX_FILES {
        return EBADF;
      }
      if from != to {
        Duplicate(task, from, to, false);
      }
      return to;
    }

    /** sys_dup3 */
    method Dup3(task: nat, from: nat, to: nat, flags: nat) returns (r: int)
      requires Valid()
      modifies this`tables, this`counts, this`sideOpen
      ensures Valid()
      ensures r == if flags != 0 && flags != O_CLOEXEC then EINVAL
                   else if !(from < MAX_FILES && to < MAX_FILES && old(tables)[TableOf(task)][from].Open?) then EBADF
                   else if from == to then EINVAL else to
      ensures r < 0 ==> tables == old(tables) && counts == old(counts)
      ensures r >= 0 ==>
                var end := old(tables)[TableOf(task)][from].end;
                tables == Put(old(tables), TableOf(task), to, Open(end, flags == O_CLOEXEC))
      ensures task < MAX_TASKS && (flags == 0 || flags == O_CLOEXEC) ==>
                Proper(old(Seen())) && Seen() == DuppedTo(old(Seen()), task, from, to, flags != 0)
      ensures flags != 0 && flags != O_CLOEXEC ==> Seen() == old(Seen())
    {
      hide EndCounts;
      TableLive(task);
      if flags != 0 && flags != O_CLOEXEC {
        return EINVAL;
      }
      if from >= MAX_FILES || tables[TableOf(task)][from] == Free || to >= MAX_FILES {
        return EBADF;
      }
      if from == to {
        return EINVAL;
      }
      Duplicate(task, from, to, flags == O_CLOEXEC);
      return to;
    }

    /** A descriptor that is not counted. */
    method OpenPlain(task: nat, cloexec: bool) returns (r: int)
      requires Valid()
      modifies this`tables, this`counts, this`sideOpen
      ensures Valid() && counts == old(counts)
      ensures r < 0 ==> tables == old(tables) && Full(tables[TableOf(task)])
      ensures r >= 0 ==> r < MAX_FILES && tables == Put(old(tables), TableOf(task), r, Open(Plain, cloexec))
      ensures task < MAX_TASKS ==> Proper(old(Seen())) && Seen() == Opened(old(Seen()), task, 0, Open(Plain, cloexec))
    {
      hide EndCounts;
      TableLive(task);
      CountedKeys();
      var t := TableOf(task);
      var n := FindFree(tables[t], 0);
      if n < 0 {
        return EMFILE;
      }
      Install(t, n, Open(Plain, cloexec));
      return n;
    }

    /** sys_pipe, in slot p; the copy of the two numbers to user memory may fail. */
    method Pipe(task: nat, fault: bool) returns (r: int, rfd: nat, wfd: nat, p: int)
      requires Valid()
      modifies this`tables, this`counts, this`sideOpen, this`pending
      ensures Valid() && pending == old(pending)
      ensures r != 0 ==> tables == old(tables) && counts == old(counts)
      ensures r == 0 ==> rfd < wfd < MAX_FILES && 0 <= p < PIPES && PipeFree(old(counts), pending, p)
      ensures r == 0 ==> old(tables)[TableOf(task)][rfd] == Free && old(tables)[TableOf(task)][wfd] == Free
      ensures r == 0 ==> forall i :: 0 <= i < wfd && i != rfd ==> old(tables)[TableOf(task)][i].Open?
      ensures r == 0 ==>
                var t := TableOf(task);
                tables == Put(Put(old(tables), t, rfd, Open(PipeRead(p), false)), t, wfd, Open(PipeWrite(p), false))
      ensures r != 0 && !fault ==>
                || !TwoFree(tables[TableOf(task)])
                || (forall i :: 0 <= i < PIPES ==> !PipeFree(old(counts), pending, i))
      ensures task < MAX_TASKS ==>
                Proper(old(Seen())) && Seen() == if fault then old(Seen()) else Piped(old(Seen()), task)
    {
      hide EndCounts;
      rfd, wfd, p := 0, 0, -1;
      TableLive(task);
      CountedKeys();
      var t := TableOf(task);
      var a := FindFree(tables[t], 0);
      if a < 0 {
        OnlyOneFree(tables[t], 0);
        return EMFILE, 0, 0, p;
      }
      var b := FindFree(tables[t], a + 1);
      if b < 0 {
        OnlyOneFree(tables[t], a);
        return EMFILE, 0, 0, p;
      }
      p := FreePipe();
      if p < 0 {
        return EMFILE, 0, 0, p;
      }
      r := LinkPipe(t, a, b, p, fault);
      return r, a, b, p;
    }

    /** The two ends of a free pipe get their descriptors; if their numbers cannot be delivered, lose them again. */
    method LinkPipe(t: nat, a: nat, b: nat, p: nat, fault: bool) returns (r: int)
      requires Valid() && t < MAX_TABLES && refs[t] > 0 && a < b < MAX_FILES && p < PIPES
      requires PipeFree(counts, pending, p)
      requires tables[t][a] == Free && tables[t][b] == Free
      modifies this`tables, this`counts, this`sideOpen, this`pending
      ensures Valid() && pending == old(pending) && r == if fault then EFAULT else 0
      ensures r != 0 ==> tables == old(tables) && counts == old(counts)
      ensures r == 0 ==>
                tables == Put(Put(old(tables), t, a, Open(PipeRead(p), false)), t, b, Open(PipeWrite(p), false))
    {
      hide EndCounts, GoodEnds, OpenSides, TableCounts;
      CountedKeys();
      Install(t, a, Open(PipeRead(p), false));
      Install(t, b, Open(PipeWrite(p), false));
      pending := pending[p := 0];
      assert pending == old(pending);
      if fault {
        Unlink(t, a);
        Unlink(t, b);
        assert tables[t] == old(tables)[t];
        return EFAULT;
      }
      return 0;
    }

    /** The only descriptor of a pipe end goes. */
    method Unlink(t: nat, i: nat)
      requires Valid() && t < MAX_TABLES && refs[t] > 0 && i < MAX_FILES && tables[t][i].Open?
      requires tables[t][i].end.PipeRead? || tables[t][i].end.PipeWrite?
      requires tables[t][i].end in counts && counts[tables[t][i].end] == 1
      modifies this`tables, this`counts
      ensures Valid() && tables == old(tables)[t := old(tables)[t][i := Free]]
      ensures counts == old(counts)[old(tables)[t][i].end := 0]
    {
      hide EndCounts;
      CountedKeys();
      ClosedFd(counts, tables, refs, t, i);
      counts := counts[tables[t][i].end := 0];
      tables := tables[t := tables[t][i := Free]];
    }

    /** A pipe slot that nothing refers to and that holds no bytes. */
    method FreePipe() returns (p: int)
      requires Valid()
      ensures -1 <= p < PIPES && Proper(Seen()) && FirstPipe(Seen(), 0) == if p < 0 then PIPES else p
      ensures p >= 0 ==> PipeFree(counts, pending, p)
      ensures p < 0 ==> forall i :: 0 <= i < PIPES ==> !PipeFree(counts, pending, i)
    {
      hide EndCounts, TableCounts, Held, Used, Valid, FirstPipe;
      CountersSay();
      PipeKeys();
      for i := 0 to PIPES
        invariant forall j :: 0 <= j < i ==> !PipeFree(counts, pending, j)
        invariant forall j :: 0 <= j < i ==>
            Held(Seen(), PipeRead(j)) || Held(Seen(), PipeWrite(j)) || pending[j] != 0
      {
        assert Counted(PipeRead(i)) && Counted(PipeWrite(i));
        if counts[PipeRead(i)] == 0 && counts[PipeWrite(i)] == 0 && pending[i] == 0 {
          FirstPipeIs(Seen(), 0, i);
          return i;
        }
      }
      FirstPipeIs(Seen(), 0, PIPES);
      return -1;
    }

    lemma PipeKeys()
      requires Valid()
      ensures |pending| == PIPES && forall i :: 0 <= i < PIPES ==> Counted(PipeRead(i)) && Counted(PipeWrite(i))
    {
    }

    /** A terminal nobody has open. */
    method FreeTerminal() returns (p: nat)
      requires Valid()
      ensures p <= PTYS && p == FirstTerminal(Seen(), 0)
      ensures forall e :: Counted(e) ==> e in counts
      ensures p < PTYS ==> counts[Master(p)] == 0 && counts[Slave(p)] == 0
      ensures forall q :: 0 <= q < p ==> counts[Master(q)] > 0 || counts[Slave(q)] > 0
    {
      hide EndCounts, TableCounts, Held, Used, FirstTerminal, Shaped, GoodEnds;
      CountersSay();
      p := 0;
      while p < PTYS && (sideOpen[Master(p)] || sideOpen[Slave(p)] || counts[Master(p)] != 0 || counts[Slave(p)] != 0)
        invariant 0 <= p <= PTYS
        invariant forall q :: 0 <= q < p ==> counts[Master(q)] > 0 || counts[Slave(q)] > 0
      {
        p := p + 1;
      }
      FirstTerminalIs(Seen(), 0, p);
    }

    /** Opening /dev/ptmx: a terminal nobody has open, locked */
    method OpenMaster(task: nat, cloexec: bool) returns (r: int, p: nat)
      requires Valid()
      modifies this`tables, this`counts, this`sideOpen, this`unlocked
      ensures Valid()
      ensures r < 0 ==> tables == old(tables) && counts == old(counts)
      ensures r >= 0 ==> r < MAX_FILES && old(tables)[TableOf(task)][r] == Free
      ensures r >= 0 ==> p < PTYS && old(counts)[Master(p)] == 0 && old(counts)[Slave(p)] == 0 && !unlocked[p]
      ensures r >= 0 ==>
                tables == old(tables)[TableOf(task) := old(tables)[TableOf(task)][r := Open(Master(p), cloexec)]]
      ensures r < 0 ==>
                || Full(tables[TableOf(task)])
                || (forall q :: 0 <= q < PTYS ==> counts[Master(q)] > 0 || counts[Slave(q)] > 0)
      ensures task < MAX_TASKS ==> Proper(old(Seen())) && Seen() == Mastered(old(Seen()), task, cloexec)
    {
      hide EndCounts, GoodEnds, TableCounts, Held, FirstTerminal, Lowest;
      TableLive(task);
      CountedKeys();
      var t := TableOf(task);
      var n := FindFree(tables[t], 0);
      p := 0;
      if n < 0 {
        return EMFILE, p;
      }
      p := FreeTerminal();
      if p == PTYS {
        return EMFILE, p;
      }
      unlocked := unlocked[p := false];
      Install(t, n, Open(Master(p), cloexec));
      return n, p;
    }

    /** Opening /dev/pts/p */
    method OpenSlave(task: nat, p: nat, cloexec: bool) returns (r: int)
      requires Valid()
      modifies this`tables, this`counts, this`sideOpen
      ensures Valid()
      ensures r < 0 ==> tables == old(tables) && counts == old(counts)
      ensures r < 0 <==> p >= PTYS || old(counts)[Master(p)] == 0 || !unlocked[p] || Full(old(tables)[TableOf(task)])
      ensures r >= 0 ==> r < MAX_FILES && old(tables)[TableOf(task)][r] == Free
                         && tables == Put(old(tables), TableOf(task), r, Open(Slave(p), cloexec))
      ensures task < MAX_TASKS ==> Proper(old(Seen())) && Seen() == Slaved(old(Seen()), task, p, cloexec)
    {
      hide EndCounts;
      TableLive(task);
      CountedKeys();
      var t := TableOf(task);
      var n := FindFree(tables[t], 0);
      if n < 0 {
        return EMFILE;
      }
      CountersSay();
      if p >= PTYS || !sideOpen[Master(p)] {
        return ENXIO;
      }
      if !unlocked[p] {
        return EACCES;
      }
      Install(t, n, Open(Slave(p), cloexec));
      assert !Full(old(tables)[t]);
      return n;
    }

    /** The close-on-exec descriptors of a task that starts a new program. */
    method CloseOnExec(task: nat)
      requires Valid()
      modifies this`tables, this`counts, this`sideOpen
      ensures Valid()
      ensures forall t :: 0 <= t < MAX_TABLES && t != TableOf(task) ==> tables[t] == old(tables)[t]
      ensures forall i :: 0 <= i < MAX_FILES ==>
                var fd := old(tables)[TableOf(task)][i];
                tables[TableOf(task)][i] == if fd.Open? && fd.cloexec then Free else fd
      ensures task < MAX_TASKS ==> Proper(old(Seen())) && Seen() == Execed(old(Seen()), task)
    {
      hide EndCounts;
      TableLive(task);
      var t := TableOf(task);
      for fd := 0 to MAX_FILES
        invariant Valid()
        invariant forall u :: 0 <= u < MAX_TABLES && u != t ==> tables[u] == old(tables)[u]
        invariant forall i :: fd <= i < MAX_FILES ==> tables[t][i] == old(tables)[t][i]
        invariant forall i :: 0 <= i < fd ==>
            tables[t][i] == var d := old(tables)[t][i]; if d.Open? && d.cloexec then Free else d
      {
        if tables[t][fd].Open? && tables[t][fd].cloexec {
          var _ := Close(task, fd);
        }
      }
      ExecedIs(old(Seen()), task, Seen());
    }

    /** task_fd_table_clone: the child shares its parent's table or gets a copy of it. */
    method CloneTable(parent: nat, child: nat, share: bool) returns (ok: bool)
      requires Valid() && parent < MAX_TASKS && child < MAX_TASKS && ids[child] == -1
      modifies this`tables, this`counts, this`sideOpen, this`refs, this`ids
      ensures Valid()
      ensures !ok ==> tables == old(tables) && counts == old(counts) && refs == old(refs) && ids == old(ids)
      ensures ok ==> old(ids)[parent] >= 0 && ids[parent] == old(ids)[parent] && ids == old(ids)[child := ids[child]]
      ensures ok && share ==> ids[child] == ids[parent] && tables == old(tables) && counts == old(counts)
      ensures ok && !share ==> 0 < ids[child] < MAX_TABLES && old(refs)[ids[child]] == 0
                               && tables == old(tables)[ids[child] := old(tables)[old(ids)[parent]]]
      ensures ok <==> old(ids)[parent] >= 0 && (share || exists t :: 0 < t < MAX_TABLES && old(refs)[t] == 0)
      ensures Proper(old(Seen())) && Seen() == Copied(old(Seen()), parent, child, share)
    {
      hide EndCounts, GoodEnds, OpenSides, TableCounts;
      var source := ids[parent];
      if source < 0 {
        return false;
      }
      IdLive(parent);
      if share {
        ShareKeeps(tables, refs, ids, counts, child, source);
        ids, refs := ids[child := source], refs[source := refs[source] + 1];
        return true;
      }
      var t := 1;
      while t < MAX_TABLES && refs[t] > 0
        invariant 1 <= t <= MAX_TABLES && forall u :: 0 < u < t ==> refs[u] > 0
      {
        t := t + 1;
      }
      CountersSay();
      FirstTableIs(Seen(), 1, t);
      if t == MAX_TABLES {
        return false;
      }
      ghost var tables0, refs0, counts0 := tables, refs, counts;
      CopyFds(source, t);
      CopyKeeps(tables0, refs0, ids, counts, child, source, t);
      ids, refs := ids[child := t], refs[t := 1];
      return true;
    }

    lemma IdLive(task: nat)
      requires Valid() && task < MAX_TASKS && ids[task] >= 0
      ensures refs[ids[task]] > 0
    {
      UsersSome(ids, task, ids[task], MAX_TASKS);
    }

    /** The copy loop: every copied descriptor is one more reference. */
    method CopyFds(source: nat, t: nat)
      requires Valid() && source < MAX_TABLES && t < MAX_TABLES && source != t && refs[t] == 0
      modifies this`tables, this`counts, this`sideOpen
      ensures tables == old(tables)[t := old(tables)[source]] && GoodEnds(tables)
      ensures EndCounts(counts, old(tables), refs, old(tables)[source]) && OpenSides(counts, sideOpen)
      ensures forall e :: e in counts ==> Counted(e)
    {
      hide EndCounts, GoodEnds, OpenSides, TableCounts;
      ghost var tables0 := tables;
      var src := tables[source];
      CopyNone(counts, tables, refs, src);
      for fd := 0 to MAX_FILES
        invariant |tables| == MAX_TABLES && tables == tables0[t := tables[t]] && |tables[t]| == MAX_FILES
        invariant tables[t][..fd] == src[..fd]
        invariant EndCounts(counts, tables0, refs, src[..fd]) && OpenSides(counts, sideOpen)
        invariant forall e :: e in counts ==> Counted(e)
      {
        tables := tables[t := tables[t][fd := src[fd]]];
        assert tables[t][..fd + 1] == src[..fd + 1];
        if src[fd].Open? {
          EndOf(tables0, source, fd);
        }
        CopyOne(counts, tables0, refs, src, fd);
        if src[fd].Open? && src[fd].end != Plain {
          SideRetained(counts, sideOpen, src[fd].end);
          counts := counts[src[fd].end := counts[src[fd].end] + 1];
          if src[fd].end.Master? || src[fd].end.Slave? {
            sideOpen := sideOpen[src[fd].end := true];
          }
        }
      }
      assert tables[t] == src && src[..MAX_FILES] == src;
      GoodCopy(tables0, source, t);
    }

    /** task_fd_table_release: the last user closes every descriptor; task 0 keeps table 0. */
    method Release(task: nat)
      requires Valid() && task < MAX_TASKS
      modifies this`tables, this`counts, this`sideOpen, this`refs, this`ids
      ensures Valid()
      ensures task != 0 ==> ids == old(ids)[task := -1]
      ensures task == 0 ==> ids == old(ids)
      ensures var t := old(ids)[task];
              tables == if t >= 0 && old(refs)[t] == 1 then old(tables)[t := seq(MAX_FILES, i => Free)] else old(tables)
      ensures Proper(old(Seen())) && Seen() == Exited(old(Seen()), task)
    {
      hide EndCounts, GoodEnds, OpenSides, TableCounts;
      var t := ids[task];
      if t < 0 {
        assert ids[task := -1] == ids;
        return;
      }
      IdLive(task);
      OtherUser(refs, ids, task, t);
      if refs[t] > 1 {
        LeaveKeeps(tables, refs, ids, counts, task, t);
        ids, refs := ids[task := -1], refs[t := refs[t] - 1];
        if task == 0 {
          ids, refs := ids[0 := 0], refs[0 := refs[0] + 1];
          assert ids == old(ids) && refs == old(refs);
        }
        return;
      }
      LastUser(refs, ids, task, t);
      CloseAll(t);
      if t == 0 {
        EmptyKeeps(old(tables), refs, counts, t);
        ids, refs := ids[0 := 0], refs[0 := 1];
        assert ids == old(ids) && refs == old(refs);
      } else {
        GoneKeeps(old(tables), refs, ids, counts, task, t);
        ids, refs := ids[task := -1], refs[t := 0];
      }
    }

    /** The closing loop: t is no longer in use, its descriptors still count until they are closed. */
    method CloseAll(t: nat)
      requires Valid() && t < MAX_TABLES && refs[t] == 1
      modifies this`tables, this`counts, this`sideOpen
      ensures tables == old(tables)[t := seq(MAX_FILES, i => Free)] && GoodEnds(tables)
      ensures EndCounts(counts, old(tables), refs[t := 0], []) && OpenSides(counts, sideOpen)
      ensures forall e :: e in counts ==> Counted(e)
    {
      hide EndCounts, GoodEnds, OpenSides, TableCounts;
      ghost var tables0 := tables;
      var src := tables[t];
      CloseNone(counts, tables, refs, t);
      for fd := 0 to MAX_FILES
        invariant |tables| == MAX_TABLES && tables == tables0[t := tables[t]] && |tables[t]| == MAX_FILES
        invariant tables[t][fd..] == src[fd..] && forall i :: 0 <= i < fd ==> tables[t][i] == Free
        invariant EndCounts(counts, tables0, refs[t := 0], src[fd..]) && OpenSides(counts, sideOpen)
        invariant forall e :: e in counts ==> Counted(e)
      {
        CloseOne(counts, tables0, refs[t := 0], src, fd);
        if src[fd].Open? {
          var e := src[fd].end;
          EndOf(tables0, t, fd);
          if e != Plain {
            SideDropped(counts, sideOpen, e);
            if counts[e] > 0 {
              counts := counts[e := counts[e] - 1];
            }
            if (e.Master? || e.Slave?) && counts[e] == 0 {
              sideOpen := sideOpen[e := false];
            }
          }
          tables := tables[t := tables[t][fd := Free]];
        }
      }
      assert src[MAX_FILES..] == [];
      assert tables[t] == seq(MAX_FILES, i => Free);
      GoodFree(tables0, t);
    }

    /** At boot: task 0 has table 0 with its three standard descriptors. */
    constructor ()
      ensures Valid() && forall e :: e in counts ==> counts[e] == 0
      ensures ids[0] == 0 && forall k :: 0 < k < MAX_TASKS ==> ids[k] == -1
      ensures forall i :: 0 <= i < MAX_FILES ==> tables[0][i] == if i < 3 then Open(Plain, false) else Free
      ensures forall p :: 0 <= p < PTYS ==> !unlocked[p]
      ensures forall p :: 0 <= p < PIPES ==> pending[p] == 0
    {
      var empty: Table := seq(MAX_FILES, i => Free);
      var first := empty[0 := Open(Plain, false)][1 := Open(Plain, false)][2 := Open(Plain, false)];
      tables := seq(MAX_TABLES, t => empty)[0 := first];
      refs := seq(MAX_TABLES, t => 0)[0 := 1];
      ids := seq(MAX_TASKS, k => -1)[0 := 0];
      counts := map e | e in AllEnds() :: 0;
      sideOpen := map e | e in AllEnds() :: false;
      unlocked := seq(PTYS, p => false);
      pending := seq(PIPES, p => 0);
      new;
      BootCounts(tables, refs, ids);
    }

    /** Any request of any task. */
    method Do(q: Request)
      requires Valid()
      modifies this
      ensures Valid() && Proper(old(Seen())) && Seen() == After(old(Seen()), q)
    {
      hide EndCounts, GoodEnds, OpenSides, TableCounts;
      hide Piped, Mastered, Slaved, Dupped, DuppedTo, Closed, Execed, Exited;
      hide Opened;
      SeenProper();
      if q.task >= MAX_TASKS {
        return;
      }
      match q
      case AskPipe(task, fault) => var _, _, _, _ := Pipe(task, fault);
      case AskMaster(task, cloexec) => var _, _ := OpenMaster(task, cloexec);
      case AskSlave(task, p, cloexec) => var _ := OpenSlave(task, p, cloexec);
      case AskPlain(task, cloexec) => var _ := OpenPlain(task, cloexec);
      case AskDup(task, fd, lowest, cloexec) => var _ := Dup(task, fd, lowest, cloexec);
      case AskDup2(task, fd, to) => var _ := Dup2(task, fd, to);
      case AskDup3(task, fd, to, flags) => var _ := Dup3(task, fd, to, flags);
      case AskClose(task, fd) => var _ := Close(task, fd);
      case AskExec(task) => CloseOnExec(task);
      case AskExit(task) => Release(task);
      case AskClone(task, child, share) =>
        if child < MAX_TASKS && ids[child] == -1 {
          var _ := CloneTable(task, child, share);
        }
      case AskUnlock(_, p, lock) =>
        if p < PTYS {
          unlocked := unlocked[p := !lock];
        }
      case AskBytes(_, p, n) =>
        if p < PIPES {
          pending := pending[p := n];
        }
    }

    /**
     Over any run the tables are those of the machine that does not count, and counters are the numbers
     of live descriptors of their ends, tables' counts those of their users.
     */
    method Run(qs: seq<Request>)
      requires Valid()
      modifies this
      ensures Valid() && Proper(old(Seen())) && Seen() == AfterAll(old(Seen()), qs)
      ensures forall e :: Counted(e) ==> e in counts && counts[e] == Live(tables, refs, e, MAX_TABLES)
      ensures forall t :: 0 <= t < MAX_TABLES ==> refs[t] == Users(ids, t, MAX_TASKS)
      ensures forall e :: Counted(e) && (e.Master? || e.Slave?) ==>
                (sideOpen[e] <==> Live(tables, refs, e, MAX_TABLES) > 0)
    {
      hide After;
      SeenProper();
      for i := 0 to |qs|
        invariant Valid() && Seen() == AfterAll(old(Seen()), qs[..i])
      {
        Do(qs[i]);
        assert qs[..i + 1][..i] == qs[..i];
      }
      assert qs[..|qs|] == qs;
    }

    /** A descriptor that a child with a table of its own closes stays open in its parent. */
    method ChildCloses(parent: nat, child: nat, fd: nat) returns (ok: bool, rc: int)
      requires Valid() && parent < MAX_TASKS && child < MAX_TASKS && parent != child && ids[child] == -1
      modifies this
      ensures Valid()
      ensures ok ==> 0 <= ids[parent] < MAX_TABLES && 0 <= ids[child] < MAX_TABLES && ids[child] != ids[parent]
      ensures ok ==> tables[ids[parent]] == old(tables)[ids[parent]]
      ensures ok && fd < MAX_FILES ==>
                && tables[ids[child]] == old(tables)[ids[parent]][fd := Free]
                && rc == if old(tables)[ids[parent]][fd].Open? then 0 else EBADF
    {
      hide EndCounts, GoodEnds, OpenSides, TableCounts;
      ok := CloneTable(parent, child, false);
      rc := EBADF;
      if ok {
        IdLive(parent);
        rc := Close(child, fd);
      }
    }
  }

  datatype Request =
    | AskPipe(task: nat, fault: bool)
    | AskMaster(task: nat, cloexec: bool)
    | AskSlave(task: nat, p: nat, cloexec: bool)
    | AskPlain(task: nat, cloexec: bool)
    | AskDup(task: nat, fd: nat, lowest: nat, cloexec: bool)
    | AskDup2(task: nat, fd: nat, to: nat)
    | AskDup3(task: nat, fd: nat, to: nat, flags: nat)
    | AskClose(task: nat, fd: nat)
    | AskExec(task: nat)
    | AskExit(task: nat)
    | AskClone(task: nat, child: nat, share: bool)
    | AskUnlock(task: nat, p: nat, lock: bool)
    | AskBytes(task: nat, p: nat, n: nat)

  function AllEnds(): (s: set<End>)
    ensures forall e :: e in s <==> Counted(e)
  {
    (set p | 0 <= p < PIPES :: PipeRead(p)) + (set p | 0 <= p < PIPES :: PipeWrite(p))
    + (set p | 0 <= p < PTYS :: Master(p)) + (set p | 0 <= p < PTYS :: Slave(p))
  }

  lemma {:induction false} PlainOnly(table: Table, e: End)
    requires Counted(e) && forall i :: 0 <= i < |table| ==> table[i] == Free || table[i].end == Plain
    ensures CountIn(table, e) == 0
  {
    if table != [] {
      PlainOnly(table[..|table| - 1], e);
    }
  }

  lemma {:induction false} BootLive(tables: seq<Table>, refs: seq<nat>, e: End, n: nat)
    requires n <= |tables| && n <= |refs| && Counted(e)
    requires forall t, i :: 0 <= t < |tables| && 0 <= i < |tables[t]| ==>
               tables[t][i] == Free || tables[t][i].end == Plain
    ensures Live(tables, refs, e, n) == 0
  {
    if n > 0 {
      BootLive(tables, refs, e, n - 1);
      PlainOnly(tables[n - 1], e);
    }
  }

  lemma {:induction false} BootUsers(ids: seq<int>, t: nat, n: nat)
    requires n <= |ids| && 0 < |ids| && ids[0] == 0 && forall k :: 0 < k < |ids| ==> ids[k] == -1
    ensures Users(ids, t, n) == Bit(t == 0 && n > 0)
  {
    if n > 0 {
      BootUsers(ids, t, n - 1);
    }
  }

  lemma BootCounts(tables: seq<Table>, refs: seq<nat>, ids: seq<int>)
    requires Shaped(tables, refs, ids) && refs[0] == 1 && forall t :: 0 < t < MAX_TABLES ==> refs[t] == 0
    requires forall k :: 0 < k < MAX_TASKS ==> ids[k] == -1
    requires forall t, i :: 0 <= t < |tables| && 0 <= i < |tables[t]| ==>
               tables[t][i] == Free || tables[t][i].end == Plain
    ensures TableCounts(refs, ids) && forall e :: Counted(e) ==> Live(tables, refs, e, MAX_TABLES) == 0
  {
    forall t | 0 <= t < MAX_TABLES
      ensures refs[t] == Users(ids, t, MAX_TASKS)
    {
      BootUsers(ids, t, MAX_TASKS);
    }
    forall e | Counted(e)
      ensures Live(tables, refs, e, MAX_TABLES) == 0
    {
      BootLive(tables, refs, e, MAX_TABLES);
    }
  }

  lemma GoodFree(tables: seq<Table>, t: nat)
    requires GoodEnds(tables) && t < |tables|
    ensures GoodEnds(tables[t := seq(MAX_FILES, i => Free)])
  {
  }

  lemma {:induction false} CountFront(table: Table, e: End)
    requires table != []
    ensures CountIn(table, e) == Bit(Refers(table[0], e)) + CountIn(table[1..], e)
  {
    var n := |table| - 1;
    if n > 0 {
      CountFront(table[..n], e);
      assert table[..n][1..] == table[1..][..n - 1];
    }
  }

  lemma CloseNone(counts: map<End, nat>, tables: seq<Table>, refs: seq<nat>, t: nat)
    requires |tables| == MAX_TABLES && |refs| == MAX_TABLES && t < MAX_TABLES && refs[t] > 0
    requires EndCounts(counts, tables, refs, [])
    ensures EndCounts(counts, tables, refs[t := 0], tables[t][0..])
  {
    assert tables[t][0..] == tables[t];
    forall e
      ensures Live(tables, refs[t := 0], e, MAX_TABLES) + CountIn(tables[t], e) == Live(tables, refs, e, MAX_TABLES)
    {
      LiveRefs(tables, refs, t, 0, e, MAX_TABLES);
    }
  }

  lemma CloseOne(counts: map<End, nat>, tables: seq<Table>, refs: seq<nat>, src: Table, i: nat)
    requires |tables| == MAX_TABLES && |refs| == MAX_TABLES && i < |src| && EndCounts(counts, tables, refs, src[i..])
    ensures src[i].Open? && Counted(src[i].end) ==>
              src[i].end in counts && counts[src[i].end] > 0
              && EndCounts(counts[src[i].end := counts[src[i].end] - 1], tables, refs, src[i + 1..])
    ensures !(src[i].Open? && Counted(src[i].end)) ==> EndCounts(counts, tables, refs, src[i + 1..])
  {
    assert src[i..][1..] == src[i + 1..];
    forall e
      ensures CountIn(src[i..], e) == CountIn(src[i + 1..], e) + Bit(Refers(src[i], e))
    {
      CountFront(src[i..], e);
    }
  }

  lemma SideDropped(counts: map<End, nat>, sideOpen: map<End, bool>, e: End)
    requires OpenSides(counts, sideOpen) && e in counts && counts[e] > 0
    ensures var last := (e.Master? || e.Slave?) && counts[e] == 1;
            OpenSides(counts[e := counts[e] - 1], if last then sideOpen[e := false] else sideOpen)
  {
  }

  /** One of several users of a table leaves it. */
  lemma LeaveKeeps(tables: seq<Table>, refs: seq<nat>, ids: seq<int>, counts: map<End, nat>, task: nat, t: nat)
    requires Shaped(tables, refs, ids) && TableCounts(refs, ids) && EndCounts(counts, tables, refs, [])
    requires task < MAX_TASKS && ids[task] == t && t < MAX_TABLES && refs[t] > 1
    ensures var refs', ids' := refs[t := refs[t] - 1], ids[task := -1];
            && (task != 0 ==> Shaped(tables, refs', ids')) && TableCounts(refs', ids')
            && EndCounts(counts, tables, refs', [])
  {
    var refs' := refs[t := refs[t] - 1];
    forall u | 0 <= u < MAX_TABLES
      ensures refs'[u] == Users(ids[task := -1], u, MAX_TASKS)
    {
      UsersSet(ids, task, -1, u, MAX_TASKS);
    }
    forall e
      ensures Live(tables, refs', e, MAX_TABLES) == Live(tables, refs, e, MAX_TABLES)
    {
      LiveRefs(tables, refs, t, refs[t] - 1, e, MAX_TABLES);
    }
  }

  /** Only task 0 can be the last user of table 0. */
  lemma LastUser(refs: seq<nat>, ids: seq<int>, task: nat, t: nat)
    requires |refs| == MAX_TABLES && |ids| == MAX_TASKS && TableCounts(refs, ids) && ids[0] == 0
    requires task < MAX_TASKS && ids[task] == t && t < MAX_TABLES && refs[t] == 1
    ensures t == 0 <==> task == 0
  {
    if t == 0 && task != 0 {
      UsersSet(ids, task, -1, 0, MAX_TASKS);
      UsersSome(ids[task := -1], 0, 0, MAX_TASKS);
    }
  }

  lemma EmptyLive(tables: seq<Table>, refs: seq<nat>, t: nat, r: nat, e: End)
    requires |tables| == MAX_TABLES && |refs| == MAX_TABLES && t < MAX_TABLES
    ensures Live(tables[t := seq(MAX_FILES, i => Free)], refs[t := r], e, MAX_TABLES) ==
              Live(tables, refs[t := 0], e, MAX_TABLES)
  {
    var empty := seq(MAX_FILES, i => Free);
    CountNone(empty, e);
    LiveTable(tables, refs[t := 0], t, empty, e, MAX_TABLES);
    LiveRefs(tables[t := empty], refs[t := 0], t, r, e, MAX_TABLES);
    assert refs[t := 0][t := r] == refs[t := r];
  }

  lemma EmptyKeeps(tables: seq<Table>, refs: seq<nat>, counts: map<End, nat>, t: nat)
    requires |tables| == MAX_TABLES && |refs| == MAX_TABLES && t < MAX_TABLES && refs[t] == 1
    requires EndCounts(counts, tables, refs[t := 0], [])
    ensures EndCounts(counts, tables[t := seq(MAX_FILES, i => Free)], refs, [])
  {
    assert refs[t := 1] == refs;
    var tables' := tables[t := seq(MAX_FILES, i => Free)];
    forall e
      ensures Live(tables', refs, e, MAX_TABLES) == Live(tables, refs[t := 0], e, MAX_TABLES)
    {
      EmptyLive(tables, refs, t, 1, e);
    }
  }

  lemma GoneKeeps(tables: seq<Table>, refs: seq<nat>, ids: seq<int>, counts: map<End, nat>, task: nat, t: nat)
    requires Shaped(tables, refs, ids) && TableCounts(refs, ids) && 0 < task < MAX_TASKS && ids[task] == t
    requires t < MAX_TABLES && refs[t] == 1
    requires EndCounts(counts, tables, refs[t := 0], [])
    ensures var tables', refs', ids' := tables[t := seq(MAX_FILES, i => Free)], refs[t := 0], ids[task := -1];
            Shaped(tables', refs', ids') && TableCounts(refs', ids') && EndCounts(counts, tables', refs', [])
  {
    var refs' := refs[t := 0];
    forall u | 0 <= u < MAX_TABLES
      ensures refs'[u] == Users(ids[task := -1], u, MAX_TASKS)
    {
      UsersSet(ids, task, -1, u, MAX_TASKS);
    }
    var tables' := tables[t := seq(MAX_FILES, i => Free)];
    forall e
      ensures Live(tables', refs', e, MAX_TABLES) == Live(tables, refs', e, MAX_TABLES)
    {
      EmptyLive(tables, refs, t, 0, e);
    }
  }

  lemma EndOf(tables: seq<Table>, t: nat, i: nat)
    requires GoodEnds(tables) && t < |tables| && i < |tables[t]| && tables[t][i].Open?
    ensures tables[t][i].end == Plain || Counted(tables[t][i].end)
  {
  }

  lemma GoodCopy(tables: seq<Table>, source: nat, t: nat)
    requires GoodEnds(tables) && source < |tables| && t < |tables|
    ensures GoodEnds(tables[t := tables[source]])
  {
  }

  lemma CopyNone(counts: map<End, nat>, tables: seq<Table>, refs: seq<nat>, src: Table)
    requires |tables| == MAX_TABLES && |refs| == MAX_TABLES && EndCounts(counts, tables, refs, [])
    ensures EndCounts(counts, tables, refs, src[..0])
  {
    assert src[..0] == [];
  }

  lemma CopyOne(counts: map<End, nat>, tables: seq<Table>, refs: seq<nat>, src: Table, i: nat)
    requires |tables| == MAX_TABLES && |refs| == MAX_TABLES && i < |src| && EndCounts(counts, tables, refs, src[..i])
    requires src[i].Open? ==> src[i].end == Plain || Counted(src[i].end)
    ensures src[i].Open? && src[i].end != Plain ==>
              && src[i].end in counts
              && EndCounts(counts[src[i].end := counts[src[i].end] + 1], tables, refs, src[..i + 1])
    ensures !(src[i].Open? && src[i].end != Plain) ==> EndCounts(counts, tables, refs, src[..i + 1])
  {
    forall e
      ensures CountIn(src[..i + 1], e) == CountIn(src[..i], e) + Bit(Refers(src[i], e))
    {
      CountMore(src, i, e);
    }
  }

  lemma SideRetained(counts: map<End, nat>, sideOpen: map<End, bool>, e: End)
    requires OpenSides(counts, sideOpen) && e in counts
    ensures OpenSides(counts[e := counts[e] + 1], if e.Master? || e.Slave? then sideOpen[e := true] else sideOpen)
  {
  }

  lemma ShareKeeps(tables: seq<Table>, refs: seq<nat>, ids: seq<int>, counts: map<End, nat>, child: nat, source: nat)
    requires Shaped(tables, refs, ids) && TableCounts(refs, ids) && EndCounts(counts, tables, refs, [])
    requires child < MAX_TASKS && ids[child] == -1 && source < MAX_TABLES && refs[source] > 0
    ensures var refs', ids' := refs[source := refs[source] + 1], ids[child := source];
            Shaped(tables, refs', ids') && TableCounts(refs', ids') && EndCounts(counts, tables, refs', [])
  {
    var refs' := refs[source := refs[source] + 1];
    forall t | 0 <= t < MAX_TABLES
      ensures refs'[t] == Users(ids[child := source], t, MAX_TASKS)
    {
      UsersSet(ids, child, source, t, MAX_TASKS);
    }
    forall e
      ensures Live(tables, refs[source := refs[source] + 1], e, MAX_TABLES) == Live(tables, refs, e, MAX_TABLES)
    {
      LiveRefs(tables, refs, source, refs[source] + 1, e, MAX_TABLES);
    }
  }

  lemma CopyKeeps(tables: seq<Table>, refs: seq<nat>, ids: seq<int>, counts: map<End, nat>, child: nat, source: nat,
                  t: nat)
    requires Shaped(tables, refs, ids) && TableCounts(refs, ids) && child < MAX_TASKS && ids[child] == -1
    requires source < MAX_TABLES && t < MAX_TABLES && t != source && refs[t] == 0
    requires EndCounts(counts, tables, refs, tables[source])
    ensures var tables', refs', ids' := tables[t := tables[source]], refs[t := 1], ids[child := t];
            Shaped(tables', refs', ids') && TableCounts(refs', ids') && EndCounts(counts, tables', refs', [])
  {
    var tables', refs' := tables[t := tables[source]], refs[t := 1];
    forall u | 0 <= u < MAX_TABLES
      ensures refs'[u] == Users(ids[child := t], u, MAX_TASKS)
    {
      UsersSet(ids, child, t, u, MAX_TASKS);
    }
    forall e
      ensures Live(tables', refs', e, MAX_TABLES) == Live(tables, refs, e, MAX_TABLES) + CountIn(tables[source], e)
    {
      LiveTable(tables, refs, t, tables[source], e, MAX_TABLES);
      LiveRefs(tables', refs, t, 1, e, MAX_TABLES);
    }
  }

  lemma LiveIs(counts: map<End, nat>, tables: seq<Table>, refs: seq<nat>, e: End)
    requires |tables| == MAX_TABLES && |refs| == MAX_TABLES && EndCounts(counts, tables, refs, []) && Counted(e)
    ensures e in counts && counts[e] == Live(tables, refs, e, MAX_TABLES) && counts[e := counts[e]] == counts
  {
  }
}
