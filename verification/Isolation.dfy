/**
 Whole runs of the memory manager. A machine whose address spaces own all their memory, with no
 frames, tables or counts, is what copy-on-write must look like from the inside.
 */
module Isolation {
  import opened Common
  import opened Pmm
  import opened Paging
  import opened Trees
  import opened Addresses
  import opened FlatMap
  import opened Supply
  import opened Vmm

  // ----- Exact sharing -----

  /** All present leaf entries of all address spaces that map page f. */
  ghost function LeafEntries(g: World, f: Frame): set<Loc> {
    set k, i |
      k in g.at && |k.path| == 3 && 0 <= i < ENTRIES && Ent(g, Loc(k, i)).p && Ent(g, Loc(k, i)).addr == f :: Loc(k, i)
  }

  /** Those entries are what the hardware walk reaches from the roots of the address spaces, in memory alone. */
  lemma LeafEntriesWalk(g: World, f: Frame, l: Loc)
    requires Quiet(g)
    ensures l in LeafEntries(g, f) <==>
            && Key(l.key.root, []) in g.at && IsLeaf(l) && GoodPath(l.key.path) && l.idx < ENTRIES
            && match WalkTo(g.mem, l.key.root, l.key.path)
               case None => false
               case Some(t) => t < |g.mem| && l.idx < |g.mem[t]| && g.mem[t][l.idx].p && g.mem[t][l.idx].addr == f
  {
    hide Inv, Settled;
    InvFacts(g);
    if l.key in g.at {
      RootsLive(g, l.key);
    }
    if Key(l.key.root, []) in g.at && IsLeaf(l) && GoodPath(l.key.path) {
      WalkFinds(g, l.key.root, l.key.path);
      assert Key(l.key.root, l.key.path) == l.key;
    }
    assert l == Loc(l.key, l.idx);
  }

  /**
   Between system calls, with no page in the kernel's hands, the reference count of a managed page
   is the number of leaf entries that map it, plus one if it is a table; and a page that some
   entry may write has exactly one.
   */
  lemma ExactSharing(g: World, f: Frame)
    requires Quiet(g) && g.held == multiset{} && f in g.man
    ensures f < |g.refs| && g.refs[f] == |LeafEntries(g, f)| + (if f in g.at.Values then 1 else 0)
    ensures forall l :: l in LeafEntries(g, f) && Ent(g, l).w ==> LeafEntries(g, f) == {l} && f !in g.at.Values
  {
    assert LeafEntries(g, f) == Sharers(g, f) by {
      forall l
        ensures l in LeafEntries(g, f) <==> l in Sharers(g, f)
      {
        if l in Sharers(g, f) {
          OwnedIdx(g, l);
          assert l == Loc(l.key, l.idx);
        }
      }
    }
    forall l | l in LeafEntries(g, f) && Ent(g, l).w
      ensures LeafEntries(g, f) == {l} && f !in g.at.Values
    {
      MappedIsNoTable(g, l);
      forall m | m in LeafEntries(g, f)
        ensures m == l
      {
        WritableIsPrivate(g, l, m);
      }
    }
  }

  // ----- Exposed pages -----

  /** Nobody else refers to the page. */
  ghost predicate Alone(g: World, f: Frame) {
    f < |g.refs| && g.refs[f] == 1
  }

  /** The rights allow a store, and memory that others share can still be copied. */
  ghost predicate MayStore(g: World, hhdm: nat, l: Loc, s: Sight) {
    match s
    case Unmapped => false
    case Memory(_, rights) => rights.w && rights.u && (Alone(g, Ent(g, l).addr) || FreePages(g) != {})
    case Foreign(f, rights) => rights.w && rights.u && Mappable(hhdm, f)
  }

  lemma StorableMeans(g: World, hhdm: nat, l: Loc)
    requires Quiet(g) && |g.mem| == TRACK_PAGES && Covers(hhdm) && IsLeaf(l) && l.idx < ENTRIES
    ensures Storable(g, hhdm, Ent(g, l)) <==> MayStore(g, hhdm, l, Sees(g, l))
  {
    hide Inv, FreePages, Mappable;
    InvFacts(g);
    if Ent(g, l).p {
      SettledOwns(g, l);
      OwnedFacts(g, l);
    }
  }

  /** Between system calls a page an entry maps has another user exactly when another address space maps it. */
  lemma ExposedElsewhere(g: World, l: Loc)
    requires Quiet(g) && g.held == multiset{} && IsLeaf(l) && l.idx < ENTRIES && Ent(g, l).p && Ent(g, l).addr in g.man
    ensures Ent(g, l).addr < |g.refs|
    ensures g.refs[Ent(g, l).addr] != 1 <==>
            exists m ::
              && IsLeaf(m) && m.idx < ENTRIES && m.key.root != l.key.root
              && Ent(g, m).p && Ent(g, m).addr == Ent(g, l).addr
  {
    hide Inv, Settled;
    var f := Ent(g, l).addr;
    SettledOwns(g, l);
    OwnedFacts(g, l);
    MappedIsNoTable(g, l);
    CountAlone(g, f);
    var s := Sharers(g, f);
    if m :| m in s && m != l {
      OwnedFacts(g, m);
      OwnedIdx(g, m);
      OwnPageOnce(g, l);
      assert m.key.root != l.key.root;
      assert {l, m} <= s && |{l, m}| == 2;
      SubsetSize({l, m}, s);
    } else {
      assert s == {l};
      forall m | IsLeaf(m) && m.idx < ENTRIES && Ent(g, m).p && Ent(g, m).addr == f
        ensures m == l
      {
        SettledOwns(g, m);
        assert m in s;
      }
    }
  }

  lemma CountAlone(g: World, f: Frame)
    requires Inv(g) && g.held == multiset{} && f in g.man && f !in g.at.Values
    ensures f < |g.refs| && g.refs[f] == |Sharers(g, f)|
  {
  }

  /**
   Once a shared page is writable through entry l, a store there that changes a word is seen by
   another address space.
   */
  lemma SharedWrite(g: World, l: Loc, flags: Flags, off: nat, val: Word)
    requires Quiet(g) && g.held == multiset{} && IsLeaf(l) && l.idx < ENTRIES && Ent(g, l).p
    requires flags.w && Exposes(g, Ent(g, l), flags.w) && off < ENTRIES
    ensures var f := Ent(g, l).addr;
            && l.key in g.at && g.at[l.key] < |g.mem| && l.idx < |g.mem[g.at[l.key]]|
            && f < |g.mem| && |g.mem[f]| == ENTRIES
            && var h := LeafReplaced(g, l, LeafWord(f, flags));
               && f < |h.mem| && h.mem[f] == g.mem[f]
               && (val != g.mem[f][off] ==>
                     var after := Filled(h, f, h.mem[f][off := val]);
                     exists m :: IsLeaf(m) && m.key.root != l.key.root && Sees(after, m) != Sees(g, m))
  {
    hide Inv, Settled, LeafReplaced, Ent;
    InvFacts(g);
    SettledEntry(g, l);
    OwnedFacts(g, l);
    MappedIsNoTable(g, l);
    ExposedElsewhere(g, l);
    var f := Ent(g, l).addr;
    var e := LeafWord(f, flags);
    ReplacedHeld(g, l, e);
    ReplacedEnts(g, l, e);
    var h := LeafReplaced(g, l, e);
    var m :| IsLeaf(m) && m.idx < ENTRIES && m.key.root != l.key.root && Ent(g, m).p && Ent(g, m).addr == f;
    var page := h.mem[f][off := val];
    FilledEntry(h, f, page, m);
    assert val != g.mem[f][off] ==> page[off] != g.mem[f][off];
  }

  lemma SettledEntry(g: World, l: Loc)
    requires Settled(g) && IsLeaf(l) && l.idx < ENTRIES && Ent(g, l).p
    ensures l in g.own
  {
  }

  lemma FilledEntry(g: World, f: Frame, page: Page, m: Loc)
    requires f < |g.mem| && f !in g.at.Values
    ensures Ent(Filled(g, f, page), m) == Ent(g, m)
  {
    if m.key in g.at {
      assert g.at[m.key] in g.at.Values;
    }
  }

  /**
   The entries fork leaves, in the parent and the child alike: a writable managed page is read-only and
   marked copy-on-write, everything else about it and every other entry is as it was.
   */
  lemma ForkEntries(g: World, h: World, s: Frame, d: Frame, l: Loc)
    requires Quiet(g) && Forked(g, h, s, d) && IsLeaf(l) && l.key.root == s && l.idx < ENTRIES && Ent(g, l).p
    ensures var was, now := Ent(g, l), Ent(h, l);
            if was.w && was.addr in g.man then
              && now.p && !now.w && now.cow && now.addr == was.addr && now.u == was.u && now.nx == was.nx
              && now.pwt == was.pwt && now.pcd == was.pcd && now.low == was.low && now.high == was.high
            else now == was
    ensures Ent(h, TwinLoc(l, d)) == Ent(h, l)
  {
    var t := TwinLoc(l, d);
    assert TwinLoc(t, s) == l;
    assert SameCopy(h, t, l);
  }

  /** What could be stored to before a fork can be after it, on both sides, while a page can be copied. */
  lemma ForkStorable(g: World, h: World, hhdm: nat, s: Frame, d: Frame, l: Loc)
    requires Quiet(g) && Forked(g, h, s, d) && IsLeaf(l) && l.key.root == s && l.idx < ENTRIES
    requires Storable(g, hhdm, Ent(g, l)) && FreePages(h) != {}
    ensures Storable(h, hhdm, Ent(h, l)) && Storable(h, hhdm, Ent(h, TwinLoc(l, d)))
  {
    hide FreePages, Mappable, Forked;
    ForkEntries(g, h, s, d, l);
    SettledOwns(g, l);
    OwnedFacts(g, l);
  }

  /** Whatever s could store to before, s and d can store to now. */
  ghost predicate StoresKept(g: World, h: World, hhdm: nat, s: Frame, d: Frame) {
    forall va: nat :: va < USER_TOP && Storable(g, hhdm, Ent(g, LocOf(s, va))) ==>
      Storable(h, hhdm, Ent(h, LocOf(s, va))) && Storable(h, hhdm, Ent(h, LocOf(d, va)))
  }

  lemma ForkStores(g: World, h: World, hhdm: nat, s: Frame, d: Frame)
    requires Quiet(g) && Forked(g, h, s, d)
    ensures FreePages(h) != {} ==> StoresKept(g, h, hhdm, s, d)
  {
    hide Inv, Settled, Storable, FreePages, Forked, Ent;
    if FreePages(h) != {} {
      forall va: nat | va < USER_TOP && Storable(g, hhdm, Ent(g, LocOf(s, va)))
        ensures Storable(h, hhdm, Ent(h, LocOf(s, va))) && Storable(h, hhdm, Ent(h, LocOf(d, va)))
      {
        LocLeaf(s, va);
        ForkStorable(g, h, hhdm, s, d, LocOf(s, va));
        assert LocOf(d, va) == TwinLoc(LocOf(s, va), d);
      }
    }
  }

  /** A fork leaves the read-only pages of both sides exposed: they are shared without the copy-on-write mark. */
  lemma ForkExposes(g: World, h: World, s: Frame, d: Frame, l: Loc)
    requires Quiet(g) && Quiet(h) && h.held == multiset{} && Forked(g, h, s, d)
    requires IsLeaf(l) && l.key.root == s && l.idx < ENTRIES && Ent(g, l).p && Ent(g, l).addr in g.man
    requires !Ent(g, l).w && !Ent(g, l).cow
    ensures Ent(h, l).p && Exposes(h, Ent(h, l), true)
    ensures Ent(h, TwinLoc(l, d)).p && Exposes(h, Ent(h, TwinLoc(l, d)), true)
  {
    hide Inv, Settled;
    var t := TwinLoc(l, d);
    assert TwinLoc(t, s) == l;
    assert SameCopy(h, t, l);
    assert Ent(h, l) == CowOf(g.man, Ent(g, l));
    ExposedElsewhere(h, l);
  }

  // ----- A machine with private memory -----

  type Space = imap<seq<nat>, Sight>
  type Machine = map<Frame, Space>

  datatype Event =
    | Skip
    | Create(d: Frame)
    | Map(r: Frame, path: seq<nat>, page: Page, rights: Rights)
    | Protect(r: Frame, path: seq<nat>, rights: Rights)
    | Unmap(r: Frame, path: seq<nat>)
    | Fork(s: Frame, d: Frame)
    | Store(r: Frame, path: seq<nat>, off: nat, val: Word)
    | Destroy(r: Frame)

  /** A fork copies; a store changes the storing space. */
  ghost function Apply(m: Machine, e: Event): Machine {
    match e
    case Skip => m
    case Create(d) => m[d := imap[]]
    case Map(r, path, page, rights) => if r in m then m[r := m[r][path := Memory(page, rights)]] else m
    case Protect(r, path, rights) =>
      if r in m && path in m[r] then m[r := m[r][path := WithRights(m[r][path], rights)]] else m
    case Unmap(r, path) => if r in m then m[r := imap q | q in m[r] && q != path :: m[r][q]] else m
    case Fork(s, d) => if s in m then m[d := m[s]] else m
    case Store(r, path, off, val) => if r in m then m[r := StoreIn(m[r], path, off, val)] else m
    case Destroy(r) => m - {r}
  }

  /** A store the rights do not allow changes nothing. */
  ghost function StoreIn(sp: Space, path: seq<nat>, off: nat, val: Word): Space {
    if path in sp && sp[path].Memory? && off < |sp[path].page| && sp[path].rights.w && sp[path].rights.u
    then sp[path := Memory(sp[path].page[off := val], sp[path].rights)] else sp
  }

  ghost function ApplyAll(m: Machine, es: seq<Event>): Machine
    decreases |es|
  {
    if es == [] then m else ApplyAll(Apply(m, es[0]), es[1..])
  }

  /** The events that may change what r sees. */
  predicate Touches(e: Event, r: Frame) {
    match e
    case Skip => false
    case Create(d) => d == r
    case Map(q, _, _, _) => q == r
    case Protect(q, _, _) => q == r
    case Unmap(q, _) => q == r
    case Fork(_, d) => d == r
    case Store(q, _, _, _) => q == r
    case Destroy(q) => q == r
  }

  function Own(es: seq<Event>, r: Frame): seq<Event> {
    if es == [] then [] else (if Touches(es[0], r) then [es[0]] else []) + Own(es[1..], r)
  }

  /** Given its starting memory, what a space sees is decided by its own events alone. */
  lemma {:induction false} OnlyOwnEvents(m: Machine, n: Machine, es: seq<Event>, r: Frame)
    requires r in m && r in n && m[r] == n[r]
    requires forall i :: 0 <= i < |es| ==> es[i] != Destroy(r) && !(es[i].Fork? && es[i].d == r)
    ensures r in ApplyAll(m, es) && r in ApplyAll(n, Own(es, r))
    ensures ApplyAll(m, es)[r] == ApplyAll(n, Own(es, r))[r]
    decreases |es|
  {
    if es != [] {
      if Touches(es[0], r) {
        assert Own(es, r)[1..] == Own(es[1..], r);
        OnlyOwnEvents(Apply(m, es[0]), Apply(n, es[0]), es[1..], r);
      } else {
        assert Own(es, r) == Own(es[1..], r);
        OnlyOwnEvents(Apply(m, es[0]), n, es[1..], r);
      }
    }
  }

  /**
   Starting from the memory s had in m, each of s and d sees what its own events among es would
   make of a copy of that memory with nobody else around.
   */
  ghost predicate PrivateCopies(m: Machine, after: Machine, s: Frame, d: Frame, es: seq<Event>) {
    && s in m && s in after && d in after
    && var alone, copy := ApplyAll(map[s := m[s]], Own(es, s)), ApplyAll(map[d := m[s]], Own(es, d));
       s in alone && after[s] == alone[s] && d in copy && after[d] == copy[d]
  }

  /** After a fork, parent and child each go on from the same memory and never see the other again. */
  lemma ForkIsolation(m: Machine, s: Frame, d: Frame, es: seq<Event>)
    requires s in m && s != d
    requires forall i :: 0 <= i < |es| ==>
               es[i] != Destroy(s) && es[i] != Destroy(d) && !(es[i].Fork? && (es[i].d == s || es[i].d == d))
    ensures PrivateCopies(m, ApplyAll(m, [Fork(s, d)] + es), s, d, es)
  {
    var all := [Fork(s, d)] + es;
    assert all[1..] == es;
    var forked := Apply(m, Fork(s, d));
    OnlyOwnEvents(forked, map[s := m[s]], es, s);
    OnlyOwnEvents(forked, map[d := m[s]], es, d);
  }

  /** Stored to a page just mapped. */
  lemma MapStore(m: Machine, r: Frame, path: seq<nat>, page: Page, rights: Rights, off: nat, val: Word)
    requires r in m && off < |page| && rights.w && rights.u
    ensures var after := Apply(Apply(m, Map(r, path, page, rights)), Store(r, path, off, val));
            r in after && path in after[r] && after[r][path] == Memory(page[off := val], rights)
  {
  }

  /** The words of one page. */
  lemma WordOf(va: nat, off: nat)
    requires va < USER_TOP && va % PAGE_SIZE == 0 && off < ENTRIES
    ensures va + 8 * off < USER_TOP && Path(va + 8 * off) == Path(va) && (va + 8 * off) % PAGE_SIZE / 8 == off
    ensures forall r :: LocOf(r, va + 8 * off) == LocOf(r, va)
  {
    hide Path;
    assert (va + 8 * off) / PAGE_SIZE == va / PAGE_SIZE;
    SamePath(va, va + 8 * off);
  }

  // ----- What the real machine shows -----

  function PathLoc(r: Frame, path: seq<nat>): Loc
    requires |path| == 4
  {
    Loc(Key(r, path[..3]), path[3])
  }

  predicate PagePath(path: seq<nat>) {
    |path| == 4 && GoodPath(path)
  }

  ghost function SpaceOf(g: World, r: Frame): Space {
    imap path: seq<nat> | PagePath(path) && Sees(g, PathLoc(r, path)) != Unmapped :: Sees(g, PathLoc(r, path))
  }

  ghost function MachineOf(g: World, spaces: set<Frame>): Machine {
    map r | r in spaces :: SpaceOf(g, r)
  }

  /** A space none of whose pages looks different is the same space. */
  lemma SameSpace(g: World, h: World, r: Frame, q: Frame)
    requires forall path :: PagePath(path) ==> Sees(h, PathLoc(q, path)) == Sees(g, PathLoc(r, path))
    ensures SpaceOf(h, q) == SpaceOf(g, r)
  {
  }

  lemma SameMachine(g: World, h: World, spaces: set<Frame>, l: Loc)
    requires SeesSameBut(g, h, l) && (IsLeaf(l) && l.idx < ENTRIES ==> Sees(h, l) == Sees(g, l))
    ensures MachineOf(h, spaces) == MachineOf(g, spaces)
  {
    forall r | r in spaces
      ensures SpaceOf(h, r) == SpaceOf(g, r)
    {
      forall path | PagePath(path)
        ensures Sees(h, PathLoc(r, path)) == Sees(g, PathLoc(r, path))
      {
      }
      SameSpace(g, h, r, r);
    }
  }

  /** A change seen through one entry changes one page of one space. */
  lemma OnePageChanges(g: World, h: World, spaces: set<Frame>, r: Frame, path: seq<nat>)
    requires PagePath(path) && r in spaces && SeesSameBut(g, h, PathLoc(r, path))
    ensures MachineOf(h, spaces) == MachineOf(g, spaces)[r := SpaceOf(h, r)]
    ensures forall q :: q != path ==> (q in SpaceOf(h, r) <==> q in SpaceOf(g, r))
    ensures forall q :: q != path && q in SpaceOf(h, r) ==> SpaceOf(h, r)[q] == SpaceOf(g, r)[q]
  {
    hide Sees;
    forall q | PagePath(q) && q != path
      ensures Sees(h, PathLoc(r, q)) == Sees(g, PathLoc(r, q))
    {
      assert q == q[..3] + [q[3]] && path == path[..3] + [path[3]];
    }
    forall s | s in spaces && s != r
      ensures SpaceOf(h, s) == SpaceOf(g, s)
    {
      SameSpace(g, h, s, s);
    }
  }

  lemma CreateShows(g: World, h: World, spaces: set<Frame>, d: Frame)
    requires Quiet(g) && Created(g, h, d) && forall r :: r in spaces <==> Key(r, []) in g.at
    ensures MachineOf(h, spaces + {d}) == Apply(MachineOf(g, spaces), Create(d))
  {
    hide Inv, Settled, Sees;
    SameSights(g, h);
    forall path | PagePath(path)
      ensures Sees(h, PathLoc(d, path)) == Unmapped
    {
      NothingThere(g, d, path);
    }
    assert SpaceOf(h, d) == imap[];
    forall r | r in spaces
      ensures SpaceOf(h, r) == SpaceOf(g, r)
    {
      SameSpace(g, h, r, r);
    }
  }

  lemma NothingThere(g: World, d: Frame, path: seq<nat>)
    requires Quiet(g) && Key(d, []) !in g.at && PagePath(path)
    ensures Sees(g, PathLoc(d, path)) == Unmapped
  {
    hide Inv, Settled;
    if Key(d, path[..3]) in g.at {
      RootsLive(g, Key(d, path[..3]));
    }
  }

  lemma ForkShows(g: World, h: World, spaces: set<Frame>, s: Frame, d: Frame)
    requires Quiet(g) && Quiet(h) && Forked(g, h, s, d) && s in spaces
    requires forall r :: r in spaces <==> Key(r, []) in g.at
    ensures MachineOf(h, spaces + {d}) == Apply(MachineOf(g, spaces), Fork(s, d))
  {
    hide Inv, Settled, Sees, Forked;
    ForkSights(g, h, s, d);
    SameSpace(g, h, s, d);
    forall r | r in spaces
      ensures r != d && SpaceOf(h, r) == SpaceOf(g, r)
    {
      ForkRoots(g, h, s, d, r);
      SameSpace(g, h, r, r);
    }
  }

  lemma ForkRoots(g: World, h: World, s: Frame, d: Frame, r: Frame)
    requires Forked(g, h, s, d) && Key(r, []) in g.at
    ensures r != d
  {
  }

  lemma ForkSights(g: World, h: World, s: Frame, d: Frame)
    requires Quiet(g) && Forked(g, h, s, d)
    ensures forall r, path :: PagePath(path) && r != d ==> Sees(h, PathLoc(r, path)) == Sees(g, PathLoc(r, path))
    ensures forall path :: PagePath(path) ==> Sees(h, PathLoc(d, path)) == Sees(g, PathLoc(s, path))
  {
    forall r, path | PagePath(path) && r != d
      ensures Sees(h, PathLoc(r, path)) == Sees(g, PathLoc(r, path))
    {
      ForkSight(g, h, s, d, PathLoc(r, path));
    }
    forall path | PagePath(path)
      ensures Sees(h, PathLoc(d, path)) == Sees(g, PathLoc(s, path))
    {
      var l, t := PathLoc(d, path), PathLoc(s, path);
      ForkSight(g, h, s, d, t);
      assert TwinLoc(l, s) == t;
      assert SameCopy(h, l, t);
    }
  }

  /** Trading its write permission for the mark does not change what an entry shows. */
  lemma ForkSight(g: World, h: World, s: Frame, d: Frame, l: Loc)
    requires Quiet(g) && Forked(g, h, s, d) && IsLeaf(l) && l.idx < ENTRIES && l.key.root != d
    ensures Sees(h, l) == Sees(g, l)
  {
    hide Inv;
    InvFacts(g);
    if Ent(g, l).p && Ent(g, l).addr in g.man {
      SettledOwns(g, l);
      OwnedFacts(g, l);
      MappedIsNoTable(g, l);
    }
  }

  lemma DestroyShows(g: World, h: World, spaces: set<Frame>, r: Frame)
    requires Quiet(g) && Destroyed(g, h, r)
    ensures MachineOf(h, spaces - {r}) == Apply(MachineOf(g, spaces), Destroy(r))
  {
    hide Inv, Settled, Sees, Destroyed, SpaceOf;
    forall q | q in spaces && q != r
      ensures SpaceOf(h, q) == SpaceOf(g, q)
    {
      DestroySpaces(g, h, r, q);
    }
  }

  lemma DestroySpaces(g: World, h: World, r: Frame, q: Frame)
    requires Quiet(g) && Destroyed(g, h, r) && q != r
    ensures SpaceOf(h, q) == SpaceOf(g, q)
  {
    hide Inv, Settled, Sees;
    forall path | PagePath(path)
      ensures Sees(h, PathLoc(q, path)) == Sees(g, PathLoc(q, path))
    {
      SightKept(g, h, PathLoc(q, path));
    }
    SameSpace(g, h, q, q);
  }

  lemma StoreShows(g: World, h: World, spaces: set<Frame>, r: Frame, path: seq<nat>, off: nat, val: Word)
    requires r in spaces && PagePath(path) && SeesStore(g, h, PathLoc(r, path), off, val)
    ensures MachineOf(h, spaces) == Apply(MachineOf(g, spaces), Store(r, path, off, val))
  {
    hide Sees, SeesSameBut;
    var m := MachineOf(g, spaces);
    assert path in m[r] && m[r][path] == Sees(g, PathLoc(r, path));
    match Sees(g, PathLoc(r, path)) {
      case Memory(page, rights) =>
        MapShows(g, h, spaces, r, path, page[off := val], rights);
      case Foreign(_, _) =>
        SameMachine(g, h, spaces, PathLoc(r, path));
        assert m[r := m[r]] == m;
    }
  }

  lemma MapShows(g: World, h: World, spaces: set<Frame>, r: Frame, path: seq<nat>, page: Page, rights: Rights)
    requires r in spaces && PagePath(path) && SeesSameBut(g, h, PathLoc(r, path))
    requires Sees(h, PathLoc(r, path)) == Memory(page, rights)
    ensures MachineOf(h, spaces) == Apply(MachineOf(g, spaces), Map(r, path, page, rights))
  {
    hide Sees, SeesSameBut, SpaceOf;
    OnePageChanges(g, h, spaces, r, path);
    SightSpace(g, h, r, path);
  }

  lemma SightIn(g: World, r: Frame, path: seq<nat>)
    requires PagePath(path) && Sees(g, PathLoc(r, path)) != Unmapped
    ensures path in SpaceOf(g, r) && SpaceOf(g, r)[path] == Sees(g, PathLoc(r, path))
  {
    hide Sees;
  }

  /** A page that is seen. */
  lemma SightSpace(g: World, h: World, r: Frame, path: seq<nat>)
    requires PagePath(path) && Sees(h, PathLoc(r, path)) != Unmapped
    requires forall q :: q != path ==> (q in SpaceOf(h, r) <==> q in SpaceOf(g, r))
    requires forall q :: q != path && q in SpaceOf(h, r) ==> SpaceOf(h, r)[q] == SpaceOf(g, r)[q]
    ensures SpaceOf(h, r) == SpaceOf(g, r)[path := Sees(h, PathLoc(r, path))]
  {
    hide Sees;
  }

  lemma ProtectShows(g: World, h: World, spaces: set<Frame>, r: Frame, path: seq<nat>, rights: Rights)
    requires r in spaces && PagePath(path) && SeesSameBut(g, h, PathLoc(r, path))
    requires Sees(g, PathLoc(r, path)) != Unmapped
    requires Sees(h, PathLoc(r, path)) == WithRights(Sees(g, PathLoc(r, path)), rights)
    ensures MachineOf(h, spaces) == Apply(MachineOf(g, spaces), Protect(r, path, rights))
  {
    hide Sees, SeesSameBut, SpaceOf;
    OnePageChanges(g, h, spaces, r, path);
    SightSpace(g, h, r, path);
    SightIn(g, r, path);
  }

  lemma UnmapShows(g: World, h: World, spaces: set<Frame>, r: Frame, path: seq<nat>)
    requires r in spaces && PagePath(path) && SeesSameBut(g, h, PathLoc(r, path))
    requires Sees(h, PathLoc(r, path)) == Unmapped
    ensures MachineOf(h, spaces) == Apply(MachineOf(g, spaces), Unmap(r, path))
  {
    hide Sees, SeesSameBut, SpaceOf;
    OnePageChanges(g, h, spaces, r, path);
    UnmapSpace(g, h, r, path);
  }

  lemma UnmapSpace(g: World, h: World, r: Frame, path: seq<nat>)
    requires PagePath(path) && Sees(h, PathLoc(r, path)) == Unmapped
    requires forall q :: q != path ==> (q in SpaceOf(h, r) <==> q in SpaceOf(g, r))
    requires forall q :: q != path && q in SpaceOf(h, r) ==> SpaceOf(h, r)[q] == SpaceOf(g, r)[q]
    ensures SpaceOf(h, r) == imap q | q in SpaceOf(g, r) && q != path :: SpaceOf(g, r)[q]
  {
    hide Sees;
  }

  lemma CreatedAt(g: World, h: World, d: Frame)
    requires Created(g, h, d)
    ensures h.at == g.at[Key(d, []) := d] && h.held == g.held && Key(d, []) !in g.at
  {
  }

  lemma ForkedAt(g: World, h: World, s: Frame, d: Frame)
    requires Forked(g, h, s, d)
    ensures h.held == g.held && forall r :: Key(r, []) in h.at <==> Key(r, []) in g.at || r == d
    ensures Key(d, []) !in g.at
  {
  }

  lemma DestroyedAt(g: World, h: World, r: Frame)
    requires Destroyed(g, h, r)
    ensures h.held == g.held && forall q :: Key(q, []) in h.at <==> Key(q, []) in g.at && q != r
  {
  }

  lemma UndoneShows(g: World, h: World, spaces: set<Frame>)
    requires Quiet(g) && Undone(g, h)
    ensures MachineOf(h, spaces) == MachineOf(g, spaces) && h.held == g.held && h.at == g.at
  {
    hide Inv, Settled, Sees;
    LiveEntries(g, h);
    UndoneData(g, h);
    SameSights(g, h);
    forall r | r in spaces
      ensures SpaceOf(h, r) == SpaceOf(g, r)
    {
      SameSpace(g, h, r, r);
    }
  }

  lemma UndoneData(g: World, h: World)
    requires Undone(g, h) && forall l: Loc :: l.key in g.at ==> Ent(h, l) == Ent(g, l)
    ensures SameLeaves(g, h) && SameData(g, h)
  {
  }

  lemma ApplyNone(m: Machine)
    ensures ApplyAll(m, []) == m
  {
  }

  lemma {:induction false} ApplyMore(m: Machine, es: seq<Event>, e: Event)
    ensures ApplyAll(m, es + [e]) == Apply(ApplyAll(m, es), e)
    decreases |es|
  {
    if es == [] {
      assert (es + [e])[1..] == [];
    } else {
      ApplyMore(Apply(m, es[0]), es[1..], e);
      assert (es + [e])[1..] == es[1..] + [e];
    }
  }

  lemma ApplySkip(m: Machine)
    ensures Apply(m, Skip) == m
  {
  }

  // ----- Runs -----

  /** What a program or the kernel asks of the memory manager. */
  datatype Request =
    | AskCreate
    | AskMap(r: Frame, va: nat, page: Page, flags: Flags)
    | AskUnmap(r: Frame, va: nat)
    | AskFork(r: Frame)
    | AskFault(r: Frame, va: nat)
    | AskStore(r: Frame, va: nat, val: Word)
    | AskProtect(r: Frame, va: nat, flags: Flags)
    | AskDestroy(r: Frame)

  /** The event that answers a request, or none when the request is refused. */
  predicate Answers(q: Request, e: Event) {
    match q
    case AskCreate => e == Skip || e.Create?
    case AskMap(r, va, page, flags) => e == Skip || e == Map(r, Path(va), page, UserRights(flags))
    case AskUnmap(r, va) => e == Skip || e == Unmap(r, Path(va))
    case AskFork(r) => e == Skip || (e.Fork? && e.s == r)
    case AskFault(_, _) => e == Skip
    case AskStore(r, va, val) => e == Skip || e == Store(r, Path(va), va % PAGE_SIZE / 8, val)
    case AskProtect(r, va, flags) => e == Skip || e == Protect(r, Path(va), UserRights(flags))
    case AskDestroy(r) => e == Skip || e == Destroy(r)
  }

  /** The address spaces there are after an event. */
  function SpacesAfter(spaces: set<Frame>, e: Event): set<Frame> {
    match e
    case Create(d) => spaces + {d}
    case Fork(_, d) => spaces + {d}
    case Destroy(r) => spaces - {r}
    case _ => spaces
  }

  predicate MakesSpace(e: Event) {
    e.Create? || e.Fork?
  }

  /** The spaces before and after an event: a space that is made is new, one that is forked is there. */
  predicate Follows(was: set<Frame>, e: Event, spaces: set<Frame>) {
    spaces == SpacesAfter(was, e) && (MakesSpace(e) ==> e.d !in was) && (e.Fork? ==> e.s in was)
  }

  /** The space is not destroyed. */
  predicate Spared(es: seq<Event>, r: Frame) {
    forall i :: 0 <= i < |es| ==> es[i] != Destroy(r)
  }

  /** The space is made anew. */
  predicate Remade(es: seq<Event>, r: Frame) {
    exists i :: 0 <= i < |es| && MakesSpace(es[i]) && es[i].d == r
  }

  lemma SparedMore(es: seq<Event>, e: Event)
    ensures forall r :: Spared(es + [e], r) <==> Spared(es, r) && e != Destroy(r)
    ensures forall r :: Remade(es + [e], r) <==> Remade(es, r) || (MakesSpace(e) && e.d == r)
  {
    var more := es + [e];
    assert forall i :: 0 <= i < |es| ==> more[i] == es[i];
    assert more[|es|] == e;
    forall r
      ensures Spared(more, r) <==> Spared(es, r) && e != Destroy(r)
      ensures Remade(more, r) <==> Remade(es, r) || (MakesSpace(e) && e.d == r)
    {
      if Remade(es, r) {
        var i :| 0 <= i < |es| && MakesSpace(es[i]) && es[i].d == r;
        assert MakesSpace(more[i]);
      }
    }
  }

  lemma AnswersFork(r: Frame, e: Event)
    requires Answers(AskFork(r), e)
    ensures e == Skip || (e.Fork? && e.s == r)
  {
  }

  lemma ApplyFirst(m: Machine, e: Event, es: seq<Event>)
    ensures ApplyAll(m, [e] + es) == ApplyAll(Apply(m, e), es)
  {
    assert ([e] + es)[1..] == es;
  }

  class Kernel {
    const vmm: AddressSpaces
    const kernelCr3: Frame
    var spaces: set<Frame>

    ghost predicate Ready()
      reads this, vmm, vmm.pmm
    {
      && vmm.Valid() && Settled(vmm.g) && vmm.g.held == multiset{} && kernelCr3 < TRACK_PAGES
      && (forall r :: r in spaces <==> Key(r, []) in vmm.g.at)
    }

    ghost function Shows(): Machine
      reads this, vmm
    {
      MachineOf(vmm.g, spaces)
    }

    /** The requests that must be granted while the direct map covers all of memory. */
    ghost predicate Grants(q: Request)
      reads this, vmm, vmm.pmm
    {
      match q
      case AskCreate => kernelCr3 != 0 && FreePages(vmm.g) != {}
      case AskMap(r, va, _, _) => r in spaces && !Ent(vmm.g, LocOf(r, va)).p && CanMap(vmm.g, r, va, 1)
      case AskUnmap(r, va) => r in spaces && va < USER_TOP && va % PAGE_SIZE == 0 && Ent(vmm.g, LocOf(r, va)).p
      case AskFork(r) => r in spaces && CanFork(vmm.g, vmm.pmm.reserved, r)
      case AskFault(_, _) => false
      case AskStore(r, va, _) => r in spaces && va < USER_TOP && Storable(vmm.g, vmm.pmm.hhdm, Ent(vmm.g, LocOf(r, va)))
      case AskProtect(r, va, flags) =>
        && r in spaces && va < USER_TOP && va % PAGE_SIZE == 0 && Ent(vmm.g, LocOf(r, va)).p
        && (flags.w && Ent(vmm.g, LocOf(r, va)).cow ==> Resolvable(vmm.g, Ent(vmm.g, LocOf(r, va))))
      case AskDestroy(r) => r in spaces
    }

    /** The one request after which address spaces are not isolated any more: it exposes a page. */
    ghost predicate Breaks(q: Request)
      reads this, vmm
    {
      && q.AskProtect? && q.r in spaces && q.va < USER_TOP && q.va % PAGE_SIZE == 0
      && Ent(vmm.g, LocOf(q.r, q.va)).p && Exposes(vmm.g, Ent(vmm.g, LocOf(q.r, q.va)), q.flags.w)
    }

    /** Whether a request breaks isolation, from memory and the allocator's counts. */
    method Endangers(q: Request) returns (b: bool)
      requires Ready()
      ensures b <==> Breaks(q)
    {
      hide FrameAllocator.Valid, FramebufferApart, Settled, Inv, ReachOk;
      if !q.AskProtect? || q.r !in spaces || q.va >= USER_TOP || q.va % PAGE_SIZE != 0 {
        return false;
      }
      var ok, pte := vmm.Translate(q.r, q.va);
      if !ok || !q.flags.w || pte.cow {
        return false;
      }
      var usable := vmm.pmm.InUsableRegion(pte.addr);
      var reserved := vmm.pmm.IsReserved(pte.addr);
      var n := vmm.pmm.RefCount(pte.addr);
      vmm.ManagedUsable(pte.addr);
      InvFacts(vmm.g);
      return usable && !reserved && n != 1;
    }

    /**
     When a store goes through, in terms of what the space sees: the rights allow it, and memory that
     others share can still be copied.
     */
    lemma StoreMeans(r: Frame, va: nat, val: Word)
      requires Ready() && r in spaces && va < USER_TOP && Covers(vmm.pmm.hhdm)
      ensures Grants(AskStore(r, va, val)) <==>
                Path(va) in Shows()[r] && MayStore(vmm.g, vmm.pmm.hhdm, LocOf(r, va), Shows()[r][Path(va)])
    {
      hide FrameAllocator.Valid, FramebufferApart, Inv, Settled, Storable, Covers, ReachOk, FreePages, Mappable;
      UserPath(va);
      assert PathLoc(r, Path(va)) == LocOf(r, va);
      StorableMeans(vmm.g, vmm.pmm.hhdm, LocOf(r, va));
    }

    /** A writable mapping of managed memory can be stored to. */
    lemma FreshStorable(r: Frame, va: nat, flags: Flags)
      requires Ready() && flags.w && EntryFor(Ent(vmm.g, LocOf(r, va)), Ent(vmm.g, LocOf(r, va)).addr, flags)
      requires Ent(vmm.g, LocOf(r, va)).addr in vmm.g.man
      ensures Covers(vmm.pmm.hhdm) ==> Storable(vmm.g, vmm.pmm.hhdm, Ent(vmm.g, LocOf(r, va)))
    {
      hide FrameAllocator.Valid, FramebufferApart, Inv, Settled, Mappable, FreePages, ReachOk;
      InvFacts(vmm.g);
    }

    /** A root is a live table in the direct map. */
    lemma RootReady(r: Frame)
      requires Ready() && r in spaces
      ensures r != 0 && Mappable(vmm.pmm.hhdm, r)
    {
      RootCount(vmm.g, r);
      InvFacts(vmm.g);
      assert Reached(vmm.pmm.hhdm, vmm.g.at, Key(r, []));
    }

    /** After boot there is no address space. */
    constructor (vmm: AddressSpaces, kernelCr3: Frame)
      requires vmm.Valid() && Quiet(vmm.g) && vmm.g.at == map[] && vmm.g.held == multiset{} && kernelCr3 < TRACK_PAGES
      ensures Ready() && Shows() == map[] && this.vmm == vmm && this.kernelCr3 == kernelCr3
    {
      this.vmm := vmm;
      this.kernelCr3 := kernelCr3;
      spaces := {};
    }

    method DoCreate() returns (e: Event)
      requires Ready()
      modifies this, vmm, vmm.pmm`next, vmm.pmm`inUse, vmm.pmm`refs, vmm.pmm`freePages
      ensures Ready() && Shows() == Apply(old(Shows()), e) && Answers(AskCreate, e)
      ensures Covers(vmm.pmm.hhdm) ==> (e != Skip <==> old(Grants(AskCreate)))
      ensures Follows(old(spaces), e, spaces)
    {
      hide FrameAllocator.Valid, FramebufferApart, Settled, Inv, MachineOf, Created, Apply, Covers, CanMap, CanFork;
      hide Storable, FreePages;
      ApplySkip(Shows());
      var d := vmm.CreateSpace(kernelCr3);
      if d == 0 {
        return Skip;
      }
      CreateShows(old(vmm.g), vmm.g, spaces, d);
      CreatedAt(old(vmm.g), vmm.g, d);
      spaces := spaces + {d};
      return Create(d);
    }

    /** A fresh page with given contents at an unmapped address, as task_lazy_page_fault maps it. */
    method DoMap(r: Frame, va: nat, page: Page, flags: Flags) returns (e: Event)
      requires Ready() && |page| == ENTRIES
      modifies this, vmm, vmm.pmm`next, vmm.pmm`inUse, vmm.pmm`refs, vmm.pmm`freePages
      ensures Ready() && Shows() == Apply(old(Shows()), e) && Answers(AskMap(r, va, page, flags), e)
      ensures Covers(vmm.pmm.hhdm) ==> (e != Skip <==> old(Grants(AskMap(r, va, page, flags))))
      ensures Follows(old(spaces), e, spaces)
      ensures e != Skip ==>
                && va < USER_TOP && va % PAGE_SIZE == 0 && r in spaces && Ent(vmm.g, LocOf(r, va)).addr in vmm.g.man
                && EntryFor(Ent(vmm.g, LocOf(r, va)), Ent(vmm.g, LocOf(r, va)).addr, flags)
    {
      hide FrameAllocator.Valid, FramebufferApart, Settled, Inv, MachineOf, Apply, SeesSameBut, Sees, Covers, CanMap;
      hide CanFork, Storable, FreePages;
      ApplySkip(Shows());
      if r !in spaces {
        return Skip;
      }
      RootReady(r);
      var ok := vmm.Activate(r);
      if !ok {
        return Skip;
      }
      var was, _ := vmm.Translate(r, va);
      if was {
        return Skip;
      }
      ok := vmm.MapFresh(va, page, flags);
      if ok {
        UserPath(va);
        MapShows(old(vmm.g), vmm.g, spaces, r, Path(va), page, UserRights(flags));
        return Map(r, Path(va), page, UserRights(flags));
      }
      SameMachine(old(vmm.g), vmm.g, spaces, LocOf(r, va));
      return Skip;
    }

    method DoUnmap(r: Frame, va: nat) returns (e: Event)
      requires Ready()
      modifies this, vmm, vmm.pmm`next, vmm.pmm`inUse, vmm.pmm`refs, vmm.pmm`freePages
      ensures Ready() && Shows() == Apply(old(Shows()), e) && Answers(AskUnmap(r, va), e)
      ensures Covers(vmm.pmm.hhdm) ==> (e != Skip <==> old(Grants(AskUnmap(r, va))))
      ensures Follows(old(spaces), e, spaces)
    {
      hide FrameAllocator.Valid, FramebufferApart, Settled, Inv, MachineOf, Apply, SeesSameBut, Sees, Covers, CanMap;
      hide CanFork, Storable, FreePages;
      ApplySkip(Shows());
      if r !in spaces {
        return Skip;
      }
      RootReady(r);
      var ok := vmm.Activate(r);
      if !ok {
        return Skip;
      }
      ok := vmm.UnmapFree(va);
      if ok {
        UserPath(va);
        UnmapShows(old(vmm.g), vmm.g, spaces, r, Path(va));
        return Unmap(r, Path(va));
      }
      return Skip;
    }

    method DoFork(r: Frame) returns (e: Event)
      requires Ready()
      modifies this, vmm, vmm.pmm`next, vmm.pmm`inUse, vmm.pmm`refs, vmm.pmm`freePages
      ensures Ready() && Shows() == Apply(old(Shows()), e) && Answers(AskFork(r), e)
      ensures Covers(vmm.pmm.hhdm) ==> (e != Skip <==> old(Grants(AskFork(r))))
      ensures Follows(old(spaces), e, spaces)
      ensures e.Fork? ==> Forked(old(vmm.g), vmm.g, r, e.d)
      ensures e.Fork? ==> |FreePages(vmm.g)| + |TablesUnder(old(vmm.g), Key(r, []))| == |FreePages(old(vmm.g))|
      ensures e.Fork? && FreePages(vmm.g) != {} ==> StoresKept(old(vmm.g), vmm.g, vmm.pmm.hhdm, r, e.d)
    {
      hide FrameAllocator.Valid, FramebufferApart, Settled, Inv, MachineOf, Apply, Forked, Undone, Covers, CanMap;
      hide CanFork, Storable, FreePages;
      ApplySkip(Shows());
      if r !in spaces {
        return Skip;
      }
      RootReady(r);
      vmm.FreeCount();
      var rc, d := vmm.CloneSpace(r);
      if rc != 0 {
        UndoneShows(old(vmm.g), vmm.g, spaces);
        return Skip;
      }
      ForkShows(old(vmm.g), vmm.g, spaces, r, d);
      ForkedAt(old(vmm.g), vmm.g, r, d);
      spaces := spaces + {d};
      vmm.FreeCount();
      ForkStores(old(vmm.g), vmm.g, vmm.pmm.hhdm, r, d);
      return Fork(r, d);
    }

    method DoFault(r: Frame, va: nat) returns (e: Event)
      requires Ready()
      modifies this, vmm, vmm.pmm`next, vmm.pmm`inUse, vmm.pmm`refs, vmm.pmm`freePages
      ensures Ready() && Shows() == Apply(old(Shows()), e) && Answers(AskFault(r, va), e)
      ensures Covers(vmm.pmm.hhdm) ==> (e != Skip <==> old(Grants(AskFault(r, va))))
      ensures Follows(old(spaces), e, spaces)
    {
      hide FrameAllocator.Valid, FramebufferApart, Settled, Inv, MachineOf, Apply, OnlyLeaf, SeesSameBut, Sees, Covers;
      hide CanMap, CanFork, Storable, FreePages;
      ApplySkip(Shows());
      if r in spaces {
        var ok := vmm.CowFault(r, va);
        if ok {
          OnlyLeafSeen(old(vmm.g), vmm.g, LocOf(r, va));
          SameMachine(old(vmm.g), vmm.g, spaces, LocOf(r, va));
        }
      }
      return Skip;
    }

    /** A change of permissions that exposes no page changes the rights to that page in that space, and nothing else. */
    method DoProtect(r: Frame, va: nat, flags: Flags) returns (e: Event)
      requires Ready() && !Breaks(AskProtect(r, va, flags))
      modifies this, vmm, vmm.pmm`next, vmm.pmm`inUse, vmm.pmm`refs, vmm.pmm`freePages
      ensures Ready() && Shows() == Apply(old(Shows()), e) && Answers(AskProtect(r, va, flags), e)
      ensures Covers(vmm.pmm.hhdm) ==> (e != Skip <==> old(Grants(AskProtect(r, va, flags))))
      ensures Follows(old(spaces), e, spaces)
    {
      hide FrameAllocator.Valid, FramebufferApart, Settled, Inv, MachineOf, Apply, OnlyLeaf, SeesSameBut, Covers;
      hide Resolvable, CanMap, CanFork, Storable, FreePages;
      ApplySkip(Shows());
      if r !in spaces {
        return Skip;
      }
      RootReady(r);
      var ok := vmm.Activate(r);
      if !ok {
        return Skip;
      }
      ok := vmm.Protect(va, flags);
      if !ok {
        return Skip;
      }
      UserPath(va);
      OnlyLeafSeen(old(vmm.g), vmm.g, LocOf(r, va));
      ProtectShows(old(vmm.g), vmm.g, spaces, r, Path(va), UserRights(flags));
      return Protect(r, Path(va), UserRights(flags));
    }

    method DoStore(r: Frame, va: nat, val: Word) returns (e: Event)
      requires Ready()
      modifies this, vmm, vmm.pmm`next, vmm.pmm`inUse, vmm.pmm`refs, vmm.pmm`freePages
      ensures Ready() && Shows() == Apply(old(Shows()), e) && Answers(AskStore(r, va, val), e)
      ensures Covers(vmm.pmm.hhdm) ==> (e != Skip <==> old(Grants(AskStore(r, va, val))))
      ensures Follows(old(spaces), e, spaces)
    {
      hide FrameAllocator.Valid, FramebufferApart, Settled, Inv, MachineOf, Apply, SeesStore, SeesSameBut, Sees, Covers;
      hide CanMap, CanFork, Storable, FreePages;
      ApplySkip(Shows());
      if r !in spaces {
        return Skip;
      }
      var ok := vmm.StoreWord(r, va, val);
      if ok {
        UserPath(va);
        StoreShows(old(vmm.g), vmm.g, spaces, r, Path(va), va % PAGE_SIZE / 8, val);
        return Store(r, Path(va), va % PAGE_SIZE / 8, val);
      }
      SameMachine(old(vmm.g), vmm.g, spaces, LocOf(r, va));
      return Skip;
    }

    method DoDestroy(r: Frame) returns (e: Event)
      requires Ready()
      modifies this, vmm, vmm.pmm`next, vmm.pmm`inUse, vmm.pmm`refs, vmm.pmm`freePages
      ensures Ready() && Shows() == Apply(old(Shows()), e) && Answers(AskDestroy(r), e)
      ensures Covers(vmm.pmm.hhdm) ==> (e != Skip <==> old(Grants(AskDestroy(r))))
      ensures Follows(old(spaces), e, spaces)
    {
      hide FrameAllocator.Valid, FramebufferApart, Settled, Inv, MachineOf, Apply, Destroyed;
      ApplySkip(Shows());
      if r !in spaces {
        return Skip;
      }
      RootReady(r);
      var ok := vmm.DestroySpace(r);
      if !ok {
        return Skip;
      }
      DestroyShows(old(vmm.g), vmm.g, spaces, r);
      DestroyedAt(old(vmm.g), vmm.g, r);
      spaces := spaces - {r};
      return Destroy(r);
    }

    /** Any request that does not expose a page. */
    method Do(q: Request) returns (e: Event)
      requires Ready() && (q.AskMap? ==> |q.page| == ENTRIES) && !Breaks(q)
      modifies this, vmm, vmm.pmm`next, vmm.pmm`inUse, vmm.pmm`refs, vmm.pmm`freePages
      ensures Ready() && Shows() == Apply(old(Shows()), e) && Answers(q, e)
      ensures Follows(old(spaces), e, spaces)
      ensures Covers(vmm.pmm.hhdm) ==> (e != Skip <==> old(Grants(q)))
    {
      hide AddressSpaces.Valid, MachineOf, Apply, Answers, Grants, Covers;
      match q
      case AskCreate => e := DoCreate();
      case AskMap(r, va, page, flags) => e := DoMap(r, va, page, flags);
      case AskUnmap(r, va) => e := DoUnmap(r, va);
      case AskFork(r) => e := DoFork(r);
      case AskFault(r, va) => e := DoFault(r, va);
      case AskStore(r, va, val) => e := DoStore(r, va, val);
      case AskProtect(r, va, flags) => e := DoProtect(r, va, flags);
      case AskDestroy(r) => e := DoDestroy(r);
    }

    /**
     Any run, up to the first request that exposes a page, if there is one: what the address spaces see
     at the end is what the machine with private memory makes of the same events, and reference counts
     are exact.
     */
    method Run(qs: seq<Request>) returns (es: seq<Event>)
      requires Ready() && forall i :: 0 <= i < |qs| && qs[i].AskMap? ==> |qs[i].page| == ENTRIES
      modifies this, vmm, vmm.pmm`next, vmm.pmm`inUse, vmm.pmm`refs, vmm.pmm`freePages
      ensures Ready() && |es| <= |qs| && forall i :: 0 <= i < |es| ==> Answers(qs[i], es[i])
      ensures |es| < |qs| ==> Breaks(qs[|es|])
      ensures Shows() == ApplyAll(old(Shows()), es)
      ensures forall r :: r in old(spaces) && Spared(es, r) ==> r in spaces && !Remade(es, r)
      ensures forall f :: f in vmm.g.man ==>
                f < |vmm.pmm.refs| && vmm.pmm.refs[f] == |LeafEntries(vmm.g, f)| + TableRefs(vmm.g, f)
      ensures forall f, l :: f in vmm.g.man && l in LeafEntries(vmm.g, f) && Ent(vmm.g, l).w ==>
                LeafEntries(vmm.g, f) == {l}
    {
      hide AddressSpaces.Valid, MachineOf, Apply, Answers, Grants, Covers;
      es := [];
      ApplyNone(Shows());
      for i := 0 to |qs|
        invariant Ready() && |es| == i && forall j :: 0 <= j < i ==> Answers(qs[j], es[j])
        invariant Shows() == ApplyAll(old(Shows()), es)
        invariant forall r :: r in old(spaces) && Spared(es, r) ==> r in spaces && !Remade(es, r)
      {
        var stop := Endangers(qs[i]);
        if stop {
          break;
        }
        var e := Do(qs[i]);
        ApplyMore(old(Shows()), es, e);
        SparedMore(es, e);
        es := es + [e];
      }
      SharingNow();
    }

    /** Between requests the counts are exact. */
    lemma SharingNow()
      requires Ready()
      ensures forall f :: f in vmm.g.man ==>
                f < |vmm.pmm.refs| && vmm.pmm.refs[f] == |LeafEntries(vmm.g, f)| + TableRefs(vmm.g, f)
      ensures forall f, l :: f in vmm.g.man && l in LeafEntries(vmm.g, f) && Ent(vmm.g, l).w ==>
                LeafEntries(vmm.g, f) == {l}
    {
      hide Inv, Settled, LeafEntries, FrameAllocator.Valid, FramebufferApart;
      forall f | f in vmm.g.man
        ensures f < |vmm.pmm.refs| && vmm.pmm.refs[f] == |LeafEntries(vmm.g, f)| + TableRefs(vmm.g, f)
        ensures forall l :: l in LeafEntries(vmm.g, f) && Ent(vmm.g, l).w ==> LeafEntries(vmm.g, f) == {l}
      {
        ExactSharing(vmm.g, f);
      }
    }

    /**
     Fork isolation: after a fork, whatever requests follow, parent and child each see exactly what
     they would see with a private copy of the memory taken at the fork and their own events alone.
     */
    method ForkThenRun(r: Frame, qs: seq<Request>) returns (e: Event, es: seq<Event>)
      requires Ready() && forall i :: 0 <= i < |qs| && qs[i].AskMap? ==> |qs[i].page| == ENTRIES
      modifies this, vmm, vmm.pmm`next, vmm.pmm`inUse, vmm.pmm`refs, vmm.pmm`freePages
      ensures Ready() && |es| <= |qs| && (e == Skip || (e.Fork? && e.s == r))
      ensures |es| < |qs| ==> Breaks(qs[|es|])
      ensures e.Fork? && Spared(es, r) && Spared(es, e.d) ==>
                PrivateCopies(old(Shows()), Shows(), r, e.d, es)
    {
      hide AddressSpaces.Valid, Apply, Answers, Grants, Covers, ApplyAll, Own, PrivateCopies, LeafEntries, SpaceOf;
      ghost var m := Shows();
      e := Do(AskFork(r));
      AnswersFork(r, e);
      es := Run(qs);
      if e.Fork? && Spared(es, r) && Spared(es, e.d) {
        ForkIsolation(m, r, e.d, es);
        ApplyFirst(m, e, es);
      }
    }

    /**
     With a page to spare for the copy, a store that was possible before a fork goes through after it, in
     the parent and in the child.
     */
    method ForkThenStore(r: Frame, va: nat, val: Word, child: bool) returns (forked: Event, stored: Event)
      requires Ready()
      modifies this, vmm, vmm.pmm`next, vmm.pmm`inUse, vmm.pmm`refs, vmm.pmm`freePages
      ensures Ready() && (forked == Skip || forked.Fork?) && (stored == Skip || stored.Store?)
      ensures && Covers(vmm.pmm.hhdm) && old(Grants(AskFork(r))) && old(Grants(AskStore(r, va, val)))
              && |TablesUnder(old(vmm.g), Key(r, []))| < |FreePages(old(vmm.g))| ==>
                && forked.Fork?
                && stored == Store(if child then forked.d else r, Path(va), va % PAGE_SIZE / 8, val)
    {
      hide AddressSpaces.Valid, Apply, Covers, Forked, Storable, CanFork, FreePages, TablesUnder, MachineOf;
      forked := DoFork(r);
      stored := DoStore(if child && forked.Fork? then forked.d else r, va, val);
    }

    /** A page mapped writable can be stored to. */
    method MapThenStore(r: Frame, va: nat, page: Page, flags: Flags, off: nat, val: Word)
      returns (mapped: Event, stored: Event)
      requires Ready() && |page| == ENTRIES && flags.w && off < ENTRIES
      modifies this, vmm, vmm.pmm`next, vmm.pmm`inUse, vmm.pmm`refs, vmm.pmm`freePages
      ensures Ready() && (mapped == Skip || mapped.Map?)
      ensures Covers(vmm.pmm.hhdm) && mapped.Map? ==> stored == Store(r, Path(va + 8 * off), off, val)
      ensures Covers(vmm.pmm.hhdm) && mapped.Map? ==>
                && r in Shows() && Path(va) in Shows()[r]
                && Shows()[r][Path(va)] == Memory(page[off := val], UserRights(flags))
    {
      hide AddressSpaces.Valid, Covers, FreePages, Apply, SpaceOf, Storable, CanMap, CanFork, Ent, LocOf, Path;
      mapped := DoMap(r, va, page, flags);
      if mapped.Map? {
        WordOf(va, off);
        FreshStorable(r, va, flags);
        MapStore(old(Shows()), r, Path(va), page, UserRights(flags), off, val);
      }
      stored := DoStore(r, va + 8 * off, val);
    }

    /**
     Such requests do come up: a page mapped read-only is shared by a fork without the copy-on-write mark,
     and asking for write access to it then exposes it, in the parent and in the child.
     */
    method ForkReadOnly(r: Frame, va: nat, page: Page, ro: Flags, rw: Flags) returns (mapped: Event, forked: Event)
      requires Ready() && |page| == ENTRIES && !ro.w && rw.w
      modifies this, vmm, vmm.pmm`next, vmm.pmm`inUse, vmm.pmm`refs, vmm.pmm`freePages
      ensures Ready() && (mapped == Skip || mapped.Map?) && (forked == Skip || forked.Fork?)
      ensures Covers(vmm.pmm.hhdm) ==> (mapped.Map? <==> old(Grants(AskMap(r, va, page, ro))))
      ensures mapped.Map? && forked.Fork? ==>
                Breaks(AskProtect(r, va, rw)) && Breaks(AskProtect(forked.d, va, rw))
    {
      hide FrameAllocator.Valid, FramebufferApart, Settled, Inv, MachineOf, Apply, Covers, Grants, Forked, ReachOk, Ent;
      mapped := DoMap(r, va, page, ro);
      ghost var g1 := vmm.g;
      forked := DoFork(r);
      if mapped != Skip && forked != Skip {
        LocLeaf(r, va);
        UserPath(va);
        ForkExposes(g1, vmm.g, r, forked.d, LocOf(r, va));
      }
    }
  }

  /** The frames of a memory map's regions that boot leaves to the allocator. */
  ghost function BootFrames(entries: seq<MemmapEntry>, reserved: seq<Frame>): set<Frame>
    requires U64Entries(entries)
  {
    set f | 0 <= f < TRACK_PAGES && InRegions(RegionsKept(entries), f) && f !in reserved
  }

  /**
   Boot, up to the first address space: pmm_init, the empty bookkeeping and vmm_address_space_create. It is
   created whenever some usable page is neither part of the kernel image nor of its page tables.
   */
  method Boot(entries: seq<MemmapEntry>, hhdm: nat, image: seq<Frame>, tables: seq<Frame>, mem: seq<Page>,
              fbFirst: Frame, fbEnd: Frame, kernelCr3: Frame) returns (k: Kernel, e: Event)
    requires U64Entries(entries) && RegionsKept(entries) != [] && DisjointRegions(RegionsKept(entries))
    requires hhdm != 0 && kernelCr3 < TRACK_PAGES
    requires |mem| == TRACK_PAGES && forall f :: 0 <= f < |mem| ==> |mem[f]| == ENTRIES
    requires forall f :: fbFirst <= f < fbEnd ==> !InRegions(RegionsKept(entries), f)
    ensures fresh(k) && fresh(k.vmm) && fresh(k.vmm.pmm) && k.Ready()
    ensures e == Skip || e.Create?
    ensures k.Shows() == if e == Skip then map[] else map[e.d := imap[]]
    ensures Covers(hhdm) && kernelCr3 != 0 && BootFrames(entries, image + tables) != {} ==> e.Create?
  {
    hide FrameAllocator.Valid, RegionsKept, DisjointRegions, Inv, Settled, ReachOk, Covers, InRegions;
    var pmm := new FrameAllocator();
    pmm.Init(entries, hhdm, image, tables);
    var vmm := new AddressSpaces(pmm, mem, fbFirst, fbEnd);
    k := new Kernel(vmm, kernelCr3);
    if f :| f in BootFrames(entries, image + tables) {
      assert pmm.Managed(f);
      assert f in FreePages(vmm.g);
    }
    e := k.Do(AskCreate);
  }
}
