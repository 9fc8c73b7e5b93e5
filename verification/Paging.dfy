/**
 Four-level page tables in physical memory, as src/kernel/vmm.c keeps them, and the invariant that
 ties tables, leaf entries and reference counts together.

 A page is 512 words. A word that is read as a table entry is given by its fields: the page number
 it points to and its flag bits, so every 64-bit word is a `Word`.
 */
module Paging {
  import opened Common
  import opened Pmm

  datatype Word = Word(
    addr: Frame, p: bool, w: bool, u: bool, pwt: bool, pcd: bool, ps: bool, cow: bool, nx: bool,
    low: nat, high: nat)

  const ZERO := Word(0, false, false, false, false, false, false, false, false, 0, 0)
  const ENTRIES := 512

  type Page = seq<Word>

  function ZeroPage(): (page: Page)
    ensures |page| == ENTRIES && forall i :: 0 <= i < ENTRIES ==> page[i] == ZERO
  {
    seq(ENTRIES, i => ZERO)
  }

  /** A table of the address space rooted at `root`: the indices that lead to it from the root. */
  datatype Key = Key(root: Frame, path: seq<nat>)

  /** One entry of a table. */
  datatype Loc = Loc(key: Key, idx: nat)

  /**
   What the kernel's memory holds, with the bookkeeping of who refers to what:
   - `at` gives the frame of every live table;
   - `tops` are tables no parent entry leads to yet (or any more);
   - `own` are the present entries that own the table or the page they point to; while a fork or
     a teardown is under way a present entry may not;
   - `held` counts the references that kernel code has in its hands.
   */
  datatype World = World(
    mem: seq<Page>, at: map<Key, Frame>, tops: set<Key>, own: set<Loc>, held: multiset<Frame>,
    refs: seq<nat>, man: set<Frame>)

  /** Only the lower half of a root belongs to user space. */
  function Fan(k: Key): nat {
    if k.path == [] then 256 else ENTRIES
  }

  function Kid(k: Key, i: nat): Key {
    Key(k.root, k.path + [i])
  }

  function Up(k: Key): Key
    requires k.path != []
  {
    Key(k.root, k.path[..|k.path| - 1])
  }

  function Last(k: Key): nat
    requires k.path != []
  {
    k.path[|k.path| - 1]
  }

  predicate Under(k: Key, top: Key) {
    k.root == top.root && top.path <= k.path
  }

  predicate GoodPath(path: seq<nat>) {
    forall j :: 0 <= j < |path| ==> path[j] < if j == 0 then 256 else ENTRIES
  }

  predicate GoodKey(k: Key) {
    |k.path| <= 3 && GoodPath(k.path)
  }

  /** An entry of a table; an absent entry where there is no such table. */
  function Ent(g: World, l: Loc): Word {
    if l.key in g.at && g.at[l.key] < |g.mem| && l.idx < |g.mem[g.at[l.key]]| then g.mem[g.at[l.key]][l.idx] else ZERO
  }

  predicate IsLeaf(l: Loc) {
    |l.key.path| == 3
  }

  ghost predicate Sized(g: World) {
    && |g.refs| == |g.mem|
    && (forall f :: 0 <= f < |g.mem| ==> |g.mem[f]| == ENTRIES)
    && (forall f :: f in g.man ==> 0 < f < |g.mem|)
  }

  predicate SameFrame(g: World, k: Key, l: Key) {
    k in g.at && l in g.at && g.at[k] == g.at[l]
  }

  ghost predicate TablesOk(g: World) {
    && (forall k :: k in g.at ==> GoodKey(k) && g.at[k] in g.man && (k.path == [] ==> g.at[k] == k.root))
    && (forall k, l {:trigger SameFrame(g, k, l)} :: SameFrame(g, k, l) ==> k == l)
    && (forall k :: k in g.tops ==> k in g.at)
  }

  ghost predicate OwnersOk(g: World) {
    forall l :: l in g.own ==> l.key in g.at && l.idx < Fan(l.key) && Ent(g, l).p && !Ent(g, l).ps
  }

  /** An entry above the leaves leads to the table it stands for, and it alone does; it denies nothing. */
  ghost predicate LinksOk(g: World) {
    && (forall l :: l in g.own && !IsLeaf(l) ==> LeadsDown(g, l))
    && (forall k {:trigger Linked(g, k)} :: k in g.at && k.path != [] && k !in g.tops ==> Linked(g, k))
  }

  ghost predicate LeadsDown(g: World, l: Loc) {
    var k := Kid(l.key, l.idx);
    k in g.at && k !in g.tops && Ent(g, l).addr == g.at[k] && Ent(g, l).u && Ent(g, l).w
  }

  ghost predicate Linked(g: World, k: Key)
    requires k.path != []
  {
    Loc(Up(k), Last(k)) in g.own
  }

  /** A writable page has one reference; only allocator-managed pages are copy-on-write. */
  ghost predicate LeafOk(g: World, e: Word) {
    && (e.addr in g.man && e.w ==> e.addr < |g.refs| && g.refs[e.addr] == 1)
    && (e.cow ==> e.addr in g.man && !e.w)
  }

  ghost predicate LeavesOk(g: World) {
    forall l :: l in g.own && IsLeaf(l) ==> LeafOk(g, Ent(g, l))
  }

  /** One address space does not map a managed page twice. */
  ghost predicate OnceOk(g: World) {
    forall l, m {:trigger SamePage(g, l, m)} :: SamePage(g, l, m) ==> l == m
  }

  ghost predicate SamePage(g: World, l: Loc, m: Loc) {
    && l in g.own && m in g.own && IsLeaf(l) && IsLeaf(m) && l.key.root == m.key.root
    && Ent(g, l).addr in g.man && Ent(g, l).addr == Ent(g, m).addr
  }

  /** The leaf entries that own a reference to page f, over all address spaces. */
  ghost function Sharers(g: World, f: Frame): set<Loc> {
    set l | l in g.own && IsLeaf(l) && Ent(g, l).addr == f
  }

  ghost function TableRefs(g: World, f: Frame): nat {
    if f in g.at.Values then 1 else 0
  }

  ghost predicate CountsOk(g: World) {
    && (forall f :: f in g.man ==> f < |g.refs| && g.refs[f] == |Sharers(g, f)| + TableRefs(g, f) + g.held[f])
    && (forall f :: f in g.man && f in g.at.Values ==> f < |g.refs| && g.refs[f] == 1)
    && (forall f :: f in g.held ==> f in g.man)
  }

  ghost predicate Struct(g: World) {
    Sized(g) && TablesOk(g) && OwnersOk(g) && LinksOk(g) && OnceOk(g)
  }

  ghost predicate Inv(g: World) {
    Struct(g) && LeavesOk(g) && CountsOk(g)
  }

  /** What most callers need of the invariant. */
  lemma InvFacts(g: World)
    requires Inv(g)
    ensures Sized(g)
    ensures forall k :: k in g.at ==> GoodKey(k) && g.at[k] in g.man && g.at[k] < |g.mem|
    ensures forall f :: f in g.held ==> f in g.man && f !in g.at.Values && g.refs[f] >= 1
  {
    forall f | f in g.held
      ensures f in g.man && f !in g.at.Values && g.refs[f] >= 1
    {
      HeldIsNoTable(g, f);
    }
  }

  /** Every table lies in the direct map. */
  ghost predicate ReachOk(hhdm: nat, at: map<Key, Frame>) {
    forall k {:trigger Reached(hhdm, at, k)} :: k in at ==> Reached(hhdm, at, k)
  }

  ghost predicate Reached(hhdm: nat, at: map<Key, Frame>, k: Key) {
    k in at && Mappable(hhdm, at[k])
  }

  lemma ReachAdded(hhdm: nat, at: map<Key, Frame>, k: Key, f: Frame)
    requires ReachOk(hhdm, at) && Mappable(hhdm, f)
    ensures ReachOk(hhdm, at[k := f])
  {
    var bt := at[k := f];
    forall l | l in bt
      ensures Reached(hhdm, bt, l)
    {
      assert l != k ==> Reached(hhdm, at, l);
    }
  }

  /** Between system calls: every table is linked, every present entry owns its target. */
  ghost predicate Settled(g: World) {
    g.tops == {} && forall l: Loc :: l.key in g.at && l.idx < Fan(l.key) && Ent(g, l).p ==> l in g.own
  }

  ghost predicate Quiet(g: World) {
    Inv(g) && Settled(g)
  }

  /** In a quiet world an entry above the leaves is present exactly when there is a table below it. */
  lemma EntryMeansTable(g: World, k: Key, i: nat)
    requires Quiet(g) && k in g.at && |k.path| < 3 && i < Fan(k)
    ensures Ent(g, Loc(k, i)).p <==> Kid(k, i) in g.at
    ensures Ent(g, Loc(k, i)).p ==>
              !Ent(g, Loc(k, i)).ps && Ent(g, Loc(k, i)).addr == g.at[Kid(k, i)] && Loc(k, i) in g.own
    ensures Ent(g, Loc(k, i)).p ==> Ent(g, Loc(k, i)).u && Ent(g, Loc(k, i)).w
  {
    if Ent(g, Loc(k, i)).p {
      assert LeadsDown(g, Loc(k, i));
    }
    if Kid(k, i) in g.at {
      assert Linked(g, Kid(k, i));
      assert Up(Kid(k, i)) == k;
    }
  }

  /** Every user address translates as before, in every address space. */
  ghost predicate SameLeaves(g: World, h: World) {
    forall l :: IsLeaf(l) ==> Ent(h, l) == Ent(g, l)
  }

  /** No page in use other than a table has changed. */
  ghost predicate SameData(g: World, h: World) {
    && |h.mem| == |g.mem|
    && forall f :: f in g.man && f < |g.mem| && f < |g.refs| && g.refs[f] > 0 && f !in g.at.Values ==>
         h.mem[f] == g.mem[f]
  }

  // ----- Changes of one entry -----

  /** Storing one entry. */
  ghost function Store(g: World, l: Loc, e: Word): World
    requires l.key in g.at && g.at[l.key] < |g.mem| && l.idx < |g.mem[g.at[l.key]]|
  {
    var f := g.at[l.key];
    g.(mem := g.mem[f := g.mem[f][l.idx := e]])
  }

  /** It changes that entry and no other. */
  lemma StoreEnt(g: World, l: Loc, e: Word)
    requires Sized(g) && TablesOk(g)
    requires l.key in g.at && l.idx < ENTRIES
    ensures Sized(Store(g, l, e)) && TablesOk(Store(g, l, e))
    ensures forall m :: Ent(Store(g, l, e), m) == if m == l then e else Ent(g, m)
  {
    var h := Store(g, l, e);
    FewerFrames(g, h);
    forall m
      ensures Ent(h, m) == if m == l then e else Ent(g, m)
    {
      assert SameFrame(g, m.key, l.key) ==> m.key == l.key;
    }
  }

  /** Dropping tables leaves the rest on distinct frames. */
  lemma FewerFrames(g: World, h: World)
    requires TablesOk(g) && forall k :: k in h.at ==> k in g.at && h.at[k] == g.at[k]
    ensures forall k, l :: SameFrame(h, k, l) ==> k == l
  {
    forall k, l | SameFrame(h, k, l)
      ensures k == l
    {
      assert SameFrame(g, k, l);
    }
  }

  lemma SameAt(g: World, h: World)
    requires TablesOk(g) && h.at == g.at && h.man == g.man && forall k :: k in h.tops ==> k in g.at
    ensures TablesOk(h)
  {
    FewerFrames(g, h);
  }

  lemma FewerPages(g: World, h: World)
    requires OnceOk(g) && h.man == g.man
    requires forall l :: l in h.own && IsLeaf(l) ==> l in g.own && Ent(h, l).addr == Ent(g, l).addr
    ensures OnceOk(h)
  {
    forall l, m | SamePage(h, l, m)
      ensures l == m
    {
      assert SamePage(g, l, m);
    }
  }

  lemma SameLinks(g: World, h: World)
    requires LinksOk(g) && h.at == g.at && h.tops == g.tops && h.own == g.own
    requires forall l :: l in g.own && !IsLeaf(l) ==> Ent(h, l) == Ent(g, l)
    ensures LinksOk(h)
  {
    forall l | l in h.own && !IsLeaf(l)
      ensures LeadsDown(h, l)
    {
      assert LeadsDown(g, l);
    }
    forall k | k in h.at && k.path != [] && k !in h.tops
      ensures Linked(h, k)
    {
      assert Linked(g, k);
    }
  }

  ghost predicate Owns(g: World, l: Loc, f: Frame) {
    l in g.own && IsLeaf(l) && Ent(g, l).addr == f
  }

  /** The sharers of a page when one entry changes. */
  lemma OneOwnerChanges(g: World, h: World, l: Loc, f: Frame)
    requires forall m :: m != l ==> (Owns(g, m, f) <==> Owns(h, m, f))
    ensures |Sharers(h, f)| == |Sharers(g, f)| - (if Owns(g, l, f) then 1 else 0) + (if Owns(h, l, f) then 1 else 0)
  {
    var a, b := Sharers(g, f), Sharers(h, f);
    assert forall m :: (m in a <==> Owns(g, m, f)) && (m in b <==> Owns(h, m, f));
    SizeBut(a, b, l);
  }

  lemma SameOwners(g: World, h: World, f: Frame)
    requires g.own == h.own && forall m :: m in g.own ==> Ent(g, m) == Ent(h, m)
    ensures Sharers(g, f) == Sharers(h, f)
  {
  }

  /** The same tables with the same entries. */
  ghost predicate SameTables(g: World, h: World) {
    h.at == g.at && h.tops == g.tops && h.own == g.own && h.man == g.man && forall l :: Ent(h, l) == Ent(g, l)
  }

  lemma SameStruct(g: World, h: World)
    requires Struct(g) && SameTables(g, h) && Sized(h)
    ensures Struct(h)
    ensures forall f :: Sharers(h, f) == Sharers(g, f)
    ensures forall f :: TableRefs(h, f) == TableRefs(g, f)
  {
    FewerFrames(g, h);
    FewerPages(g, h);
    SameLinks(g, h);
    forall f
      ensures Sharers(h, f) == Sharers(g, f)
    {
      SameOwners(g, h, f);
    }
  }

  /** A page in the kernel's hands is not a table. */
  lemma HeldIsNoTable(g: World, f: Frame)
    requires CountsOk(g) && f in g.held
    ensures f in g.man && f !in g.at.Values && f < |g.refs| && g.refs[f] >= 1
  {
  }

  lemma HeldIsNotWritable(g: World, f: Frame)
    requires Inv(g) && f in g.held
    ensures forall l :: l in g.own && IsLeaf(l) && Ent(g, l).addr == f ==> !Ent(g, l).w
  {
    forall l | l in g.own && IsLeaf(l) && Ent(g, l).addr == f
      ensures !Ent(g, l).w
    {
      assert l in Sharers(g, f);
    }
  }

  /** Another count for a page that no entry may write. */
  lemma SizedStill(g: World, h: World)
    requires Struct(g) && h.mem == g.mem && h.man == g.man && |h.refs| == |g.refs|
    ensures Sized(g) && Sized(h)
  {
  }

  /** A reference taken or dropped by its holder. */
  lemma RefCounts(g: World, h: World, f: Frame)
    requires CountsOk(g) && h.at == g.at && h.man == g.man && |h.refs| == |g.refs| && f < |g.refs| && f in g.man
    requires f !in g.at.Values
    requires forall e :: Sharers(h, e) == Sharers(g, e) && TableRefs(h, e) == TableRefs(g, e)
    requires h.refs == g.refs[f := h.refs[f]] && h.refs[f] + g.held[f] == g.refs[f] + h.held[f]
    requires forall e :: e != f ==> h.held[e] == g.held[e]
    ensures CountsOk(h)
  {
    hide Sharers, TableRefs;
  }

  lemma RefLeaves(g: World, h: World, f: Frame)
    requires Sized(g) && LeavesOk(g) && SameTables(g, h) && |h.refs| == |g.refs| && f < |g.refs|
    requires forall l :: l in g.own && IsLeaf(l) && Ent(g, l).addr == f ==> !Ent(g, l).w
    requires h.refs == g.refs[f := h.refs[f]]
    ensures LeavesOk(h)
  {
    forall l | l in h.own && IsLeaf(l)
      ensures LeafOk(h, Ent(h, l))
    {
      assert LeafOk(g, Ent(g, l));
    }
  }

  // ----- One reference more, one fewer -----

  ghost function Alloced(g: World, f: Frame): World
    requires f < |g.refs|
  {
    g.(refs := g.refs[f := 1], held := g.held + multiset{f})
  }

  lemma AllocKeeps(g: World, f: Frame)
    requires Inv(g) && f in g.man && g.refs[f] == 0
    ensures Inv(Alloced(g, f))
    ensures f !in g.at.Values && f !in g.held
    ensures Sharers(g, f) == {}
  {
    SameStruct(g, Alloced(g, f));
    assert |Sharers(g, f)| == 0;
  }

  ghost function Released(g: World, f: Frame): World
    requires f < |g.refs| && g.refs[f] > 0
  {
    g.(refs := g.refs[f := g.refs[f] - 1], held := g.held - multiset{f})
  }

  lemma ReleaseKeeps(g: World, f: Frame)
    requires Inv(g) && f in g.held
    ensures f in g.man && g.refs[f] > 0
    ensures Inv(Released(g, f))
  {
    hide Struct, LeavesOk, CountsOk;
    HeldIsNoTable(g, f);
    HeldIsNotWritable(g, f);
    var h := Released(g, f);
    SizedStill(g, h);
    RefLeaves(g, h, f);
    SameStruct(g, h);
    RefCounts(g, h, f);
  }

  /** Allocating a page and giving it back at once changes nothing. */
  lemma AllocReleased(g: World, f: Frame)
    requires f < |g.refs| && g.refs[f] == 0
    ensures Released(Alloced(g, f), f) == g
  {
    assert g.refs[f := 1][f := 0] == g.refs;
    assert g.held + multiset{f} - multiset{f} == g.held;
  }

  ghost function Retained(g: World, f: Frame): World
    requires f < |g.refs|
  {
    g.(refs := g.refs[f := g.refs[f] + 1], held := g.held + multiset{f})
  }

  lemma RetainKeeps(g: World, f: Frame)
    requires Inv(g) && f in g.held
    ensures f in g.man
    ensures Inv(Retained(g, f))
  {
    hide Struct, LeavesOk, CountsOk;
    HeldIsNoTable(g, f);
    HeldIsNotWritable(g, f);
    var h := Retained(g, f);
    SizedStill(g, h);
    RefLeaves(g, h, f);
    SameStruct(g, h);
    RefCounts(g, h, f);
  }

  // ----- Pages, tables and entries change -----

  /** The contents of a page that is not a table. */
  ghost function Filled(g: World, f: Frame, page: Page): World
    requires f < |g.mem|
  {
    g.(mem := g.mem[f := page])
  }

  lemma FillKeeps(g: World, f: Frame, page: Page)
    requires Inv(g) && f < |g.mem| && f !in g.at.Values && |page| == ENTRIES
    ensures Inv(Filled(g, f, page))
    ensures SameTables(g, Filled(g, f, page))
  {
    var h := Filled(g, f, page);
    forall l
      ensures Ent(h, l) == Ent(g, l)
    {
      assert l.key in g.at ==> g.at[l.key] in g.at.Values;
    }
    SameStruct(g, h);
  }

  /** Storing an entry that owns nothing. */
  lemma WriteKeeps(g: World, l: Loc, e: Word)
    requires Inv(g) && l.key in g.at && l.idx < ENTRIES && l !in g.own
    ensures Inv(Store(g, l, e))
    ensures forall m :: Ent(Store(g, l, e), m) == if m == l then e else Ent(g, m)
  {
    var h := Store(g, l, e);
    StoreEnt(g, l, e);
    OwnedSame(g, h);
    SameLinks(g, h);
  }

  /** The owning entries, and what they point to, are the same. */
  lemma OwnedSame(g: World, h: World)
    requires OnceOk(g) && h.man == g.man && h.own == g.own
    requires forall l :: l in g.own ==> Ent(h, l) == Ent(g, l)
    ensures OnceOk(h)
    ensures h.refs == g.refs && LeavesOk(g) ==> LeavesOk(h)
    ensures forall f :: Sharers(h, f) == Sharers(g, f)
  {
    FewerPages(g, h);
    forall f
      ensures Sharers(h, f) == Sharers(g, f)
    {
      SameOwners(g, h, f);
    }
  }

  /** A held page becomes a table that nothing leads to yet. */
  ghost function TableAdded(g: World, k: Key, f: Frame): World {
    g.(at := g.at[k := f], tops := g.tops + {k}, held := g.held - multiset{f})
  }

  lemma AddTableKeeps(g: World, k: Key, f: Frame)
    requires Inv(g) && k !in g.at && GoodKey(k) && (k.path == [] ==> k.root == f)
    requires f in g.held && g.refs[f] == 1
    ensures Inv(TableAdded(g, k, f))
    ensures forall l: Loc :: l.key != k ==> Ent(TableAdded(g, k, f), l) == Ent(g, l)
  {
    var h := TableAdded(g, k, f);
    HeldIsNoTable(g, f);
    AddTableEnts(g, k, f);
    OwnedSame(g, h);
    AddTableCounts(g, k, f);
    AddTableFrames(g, k, f);
    AddTableLinks(g, k, f);
  }

  lemma AddTableEnts(g: World, k: Key, f: Frame)
    requires k !in g.at
    ensures forall l: Loc :: l.key != k ==> Ent(TableAdded(g, k, f), l) == Ent(g, l)
  {
  }

  lemma AddTableFrames(g: World, k: Key, f: Frame)
    requires TablesOk(g) && k !in g.at && GoodKey(k) && (k.path == [] ==> k.root == f)
    requires f in g.man && f !in g.at.Values
    ensures TablesOk(TableAdded(g, k, f))
  {
    var h := TableAdded(g, k, f);
    forall l, m | SameFrame(h, l, m)
      ensures l == m
    {
      assert l in g.at ==> g.at[l] in g.at.Values;
      assert m in g.at ==> g.at[m] in g.at.Values;
      assert l != k && m != k ==> SameFrame(g, l, m);
    }
  }

  lemma AddTableCounts(g: World, k: Key, f: Frame)
    requires CountsOk(g) && k !in g.at && f in g.held && f < |g.refs| && g.refs[f] == 1
    requires forall x :: Sharers(TableAdded(g, k, f), x) == Sharers(g, x)
    ensures CountsOk(TableAdded(g, k, f))
  {
    HeldIsNoTable(g, f);
    AddedValues(g.at, k, f);
  }

  lemma AddedValues(at: map<Key, Frame>, k: Key, f: Frame)
    requires k !in at
    ensures at[k := f].Values == at.Values + {f}
  {
    var b := at[k := f];
    forall x | x in at.Values
      ensures x in b.Values
    {
      var l :| l in at && at[l] == x;
      assert b[l] == x;
    }
    assert b[k] == f;
  }

  lemma AddTableLinks(g: World, k: Key, f: Frame)
    requires OwnersOk(g) && LinksOk(g) && k !in g.at
    requires forall l: Loc :: l.key != k ==> Ent(TableAdded(g, k, f), l) == Ent(g, l)
    ensures OwnersOk(TableAdded(g, k, f)) && LinksOk(TableAdded(g, k, f))
  {
    var h := TableAdded(g, k, f);
    forall l | l in h.own && !IsLeaf(l)
      ensures LeadsDown(h, l)
    {
      assert LeadsDown(g, l);
    }
    forall m | m in h.at && m.path != [] && m !in h.tops
      ensures Linked(h, m)
    {
      assert Linked(g, m);
    }
  }

  /** An unlinked table that owns nothing becomes a held page again. */
  ghost function TableRemoved(g: World, k: Key): World
    requires k in g.at
  {
    g.(at := g.at - {k}, tops := g.tops - {k}, held := g.held + multiset{g.at[k]})
  }

  lemma RemoveTableKeeps(g: World, k: Key)
    requires Inv(g) && k in g.at && (k.path == [] || k in g.tops)
    requires forall l :: l in g.own ==> l.key != k
    ensures Inv(TableRemoved(g, k))
    ensures forall l: Loc :: l.key != k ==> Ent(TableRemoved(g, k), l) == Ent(g, l)
    ensures g.refs[g.at[k]] == 1
  {
    var h := TableRemoved(g, k);
    RemoveTableEnts(g, k);
    OwnedSame(g, h);
    RemoveTableCounts(g, k);
    FewerFrames(g, h);
    RemoveTableLinks(g, k);
  }

  lemma RemoveTableEnts(g: World, k: Key)
    requires k in g.at
    ensures forall l: Loc :: l.key != k ==> Ent(TableRemoved(g, k), l) == Ent(g, l)
  {
  }

  lemma RemoveTableCounts(g: World, k: Key)
    requires TablesOk(g) && CountsOk(g) && k in g.at
    requires forall x :: Sharers(TableRemoved(g, k), x) == Sharers(g, x)
    ensures CountsOk(TableRemoved(g, k))
  {
    RemovedValues(g, k);
    assert g.at[k] in g.at.Values;
  }

  lemma RemovedValues(g: World, k: Key)
    requires TablesOk(g) && k in g.at
    ensures (g.at - {k}).Values == g.at.Values - {g.at[k]}
  {
    var b := g.at - {k};
    forall x | x in g.at.Values - {g.at[k]}
      ensures x in b.Values
    {
      var l :| l in g.at && g.at[l] == x;
      assert b[l] == x;
    }
    forall l | l in b
      ensures b[l] != g.at[k]
    {
      assert SameFrame(g, l, k) ==> l == k;
    }
  }

  lemma RemoveTableLinks(g: World, k: Key)
    requires OwnersOk(g) && LinksOk(g) && k in g.at && (k.path == [] || k in g.tops)
    requires forall l :: l in g.own ==> l.key != k
    requires forall l: Loc :: l.key != k ==> Ent(TableRemoved(g, k), l) == Ent(g, l)
    ensures OwnersOk(TableRemoved(g, k)) && LinksOk(TableRemoved(g, k))
  {
    var h := TableRemoved(g, k);
    forall l | l in h.own && !IsLeaf(l)
      ensures LeadsDown(h, l)
    {
      assert LeadsDown(g, l);
    }
    forall m | m in h.at && m.path != [] && m !in h.tops
      ensures Linked(h, m)
    {
      assert Linked(g, m);
    }
  }

  // ----- An entry takes or gives up what it points to -----

  ghost predicate IsLink(g: World, l: Loc, e: Word) {
    var k := Kid(l.key, l.idx);
    e.p && !e.ps && e.u && e.w && k in g.at && e.addr == g.at[k]
  }

  /** Store an entry that leads to a table nothing led to so far. */
  ghost function LinkMade(g: World, l: Loc, e: Word): World
    requires l.key in g.at && g.at[l.key] < |g.mem| && l.idx < |g.mem[g.at[l.key]]|
  {
    Store(g, l, e).(own := g.own + {l}, tops := g.tops - {Kid(l.key, l.idx)})
  }

  lemma LinkKeeps(g: World, l: Loc, e: Word)
    requires Inv(g) && l.key in g.at && |l.key.path| < 3 && l.idx < Fan(l.key) && l !in g.own
    requires IsLink(g, l, e) && Kid(l.key, l.idx) in g.tops
    ensures Inv(LinkMade(g, l, e))
    ensures forall m :: Ent(LinkMade(g, l, e), m) == if m == l then e else Ent(g, m)
  {
    hide OwnersOk, LinksOk, OnceOk, LeavesOk, CountsOk;
    var h := LinkMade(g, l, e);
    StoreEnt(g, l, e);
    assert forall m :: Ent(h, m) == Ent(Store(g, l, e), m);
    FewerPages(g, h);
    SameAt(g, h);
    LinkLinks(g, h, l, e);
    LinkCounts(g, h, l);
  }

  lemma LinkCounts(g: World, h: World, l: Loc)
    requires LeavesOk(g) && CountsOk(g) && !IsLeaf(l)
    requires h.own == g.own + {l} && h.at == g.at && h.refs == g.refs && h.held == g.held && h.man == g.man
    requires forall m :: m != l ==> Ent(h, m) == Ent(g, m)
    ensures LeavesOk(h) && CountsOk(h)
  {
    forall f
      ensures Sharers(h, f) == Sharers(g, f)
    {
    }
  }

  lemma LinkLinks(g: World, h: World, l: Loc, e: Word)
    requires OwnersOk(g) && LinksOk(g) && l.key in g.at && l.idx < Fan(l.key) && l !in g.own
    requires !IsLeaf(l) && IsLink(g, l, e) && Kid(l.key, l.idx) in g.tops
    requires h.own == g.own + {l} && h.at == g.at && h.tops == g.tops - {Kid(l.key, l.idx)}
    requires forall m :: Ent(h, m) == if m == l then e else Ent(g, m)
    ensures OwnersOk(h) && LinksOk(h)
  {
    forall m | m in h.own && !IsLeaf(m)
      ensures LeadsDown(h, m)
    {
      assert m != l ==> LeadsDown(g, m);
    }
    forall k | k in h.at && k.path != [] && k !in h.tops
      ensures Linked(h, k)
    {
      if k == Kid(l.key, l.idx) {
        assert Up(k) == l.key && Last(k) == l.idx;
      } else {
        assert Linked(g, k);
      }
    }
  }

  /** Take the table below an entry out of its hands; memory stays as it is. */
  ghost function LinkCut(g: World, l: Loc): World {
    g.(own := g.own - {l}, tops := g.tops + {Kid(l.key, l.idx)})
  }

  lemma CutKeeps(g: World, l: Loc)
    requires Inv(g) && l in g.own && !IsLeaf(l)
    ensures Inv(LinkCut(g, l))
    ensures forall m :: Ent(LinkCut(g, l), m) == Ent(g, m)
    ensures Kid(l.key, l.idx) in g.at && Ent(g, l).addr == g.at[Kid(l.key, l.idx)]
  {
    assert LeadsDown(g, l);
    hide OwnersOk, LinksOk, OnceOk, LeavesOk, CountsOk;
    var h := LinkCut(g, l);
    assert forall m :: Ent(h, m) == Ent(g, m);
    FewerPages(g, h);
    SameAt(g, h);
    CutLinks(g, h, l);
    CutCounts(g, h, l);
  }

  lemma CutCounts(g: World, h: World, l: Loc)
    requires LeavesOk(g) && CountsOk(g) && !IsLeaf(l)
    requires h.own == g.own - {l} && h.at == g.at && h.refs == g.refs && h.held == g.held && h.man == g.man
    requires forall m :: Ent(h, m) == Ent(g, m)
    ensures LeavesOk(h) && CountsOk(h)
  {
    forall f
      ensures Sharers(h, f) == Sharers(g, f)
    {
    }
  }

  lemma CutLinks(g: World, h: World, l: Loc)
    requires TablesOk(g) && OwnersOk(g) && LinksOk(g) && l in g.own && !IsLeaf(l)
    requires h.own == g.own - {l} && h.at == g.at && h.tops == g.tops + {Kid(l.key, l.idx)}
    requires forall m :: Ent(h, m) == Ent(g, m)
    ensures OwnersOk(h) && LinksOk(h)
  {
    assert LeadsDown(g, l);
    forall m | m in h.own && !IsLeaf(m)
      ensures LeadsDown(h, m)
    {
      assert LeadsDown(g, m);
      if Kid(m.key, m.idx) == Kid(l.key, l.idx) {
        KidInjective(m, l);
      }
    }
    forall k | k in h.at && k.path != [] && k !in h.tops
      ensures Linked(h, k)
    {
      assert Linked(g, k);
      assert Kid(Up(k), Last(k)) == k;
    }
  }

  lemma KidInjective(m: Loc, l: Loc)
    requires Kid(m.key, m.idx) == Kid(l.key, l.idx)
    ensures m == l
  {
    var a, b := m.key.path + [m.idx], l.key.path + [l.idx];
    assert a == b && m.key.path == a[..|a| - 1] && l.key.path == b[..|b| - 1];
    assert m.idx == a[|a| - 1] && l.idx == b[|b| - 1];
  }

  ghost function One(g: World, f: Frame): multiset<Frame> {
    if f in g.man then multiset{f} else multiset{}
  }

  /** Take the page below a leaf entry into the kernel's hands; memory stays as it is. */
  ghost function LeafCut(g: World, l: Loc): World {
    g.(own := g.own - {l}, held := g.held + One(g, Ent(g, l).addr))
  }

  lemma LeafCutKeeps(g: World, l: Loc)
    requires Inv(g) && l in g.own && IsLeaf(l)
    ensures Inv(LeafCut(g, l))
    ensures forall m :: Ent(LeafCut(g, l), m) == Ent(g, m)
  {
    hide OwnersOk, LinksOk, OnceOk, LeavesOk, CountsOk;
    var h := LeafCut(g, l);
    assert forall m :: Ent(h, m) == Ent(g, m);
    FewerPages(g, h);
    SameAt(g, h);
    LeafLinks(g, h, l);
    LeafCutCounts(g, h, l);
  }

  lemma LeafLinks(g: World, h: World, l: Loc)
    requires TablesOk(g) && OwnersOk(g) && LinksOk(g) && h.at == g.at && h.tops == g.tops && IsLeaf(l)
    requires h.own - {l} == g.own - {l}
    requires forall m :: m != l ==> Ent(h, m) == Ent(g, m)
    requires l in h.own ==> l.key in g.at && l.idx < ENTRIES && Ent(h, l).p && !Ent(h, l).ps
    ensures OwnersOk(h) && LinksOk(h)
  {
    forall m | m in h.own
      ensures m.key in h.at && m.idx < Fan(m.key) && Ent(h, m).p && !Ent(h, m).ps
    {
      assert m != l ==> m in g.own - {l};
    }
    forall m | m in h.own && !IsLeaf(m)
      ensures LeadsDown(h, m)
    {
      assert m in g.own - {l};
      assert LeadsDown(g, m);
    }
    forall k | k in h.at && k.path != [] && k !in h.tops
      ensures Linked(h, k)
    {
      assert Linked(g, k);
      assert Loc(Up(k), Last(k)) in h.own - {l};
    }
  }

  lemma LeafCutCounts(g: World, h: World, l: Loc)
    requires LeavesOk(g) && CountsOk(g) && IsLeaf(l) && l in g.own
    requires h == LeafCut(g, l)
    requires forall m :: Ent(h, m) == Ent(g, m)
    ensures LeavesOk(h) && CountsOk(h)
  {
    forall m | m in h.own && IsLeaf(m)
      ensures LeafOk(h, Ent(h, m))
    {
      assert m in g.own ==> LeafOk(g, Ent(g, m));
    }
    hide LeavesOk;
    forall f | f in g.man
      ensures |Sharers(h, f)| == |Sharers(g, f)| - (if Ent(g, l).addr == f then 1 else 0)
    {
      OneOwnerChanges(g, h, l, f);
    }
  }

  /** Store a leaf entry that takes over a held reference. */
  ghost function LeafSet(g: World, l: Loc, e: Word): World
    requires l.key in g.at && g.at[l.key] < |g.mem| && l.idx < |g.mem[g.at[l.key]]|
  {
    Store(g, l, e).(own := g.own + {l}, held := g.held - One(g, e.addr))
  }

  lemma LeafSetKeeps(g: World, l: Loc, e: Word)
    requires Inv(g) && l.key in g.at && IsLeaf(l) && l.idx < ENTRIES && l !in g.own
    requires e.p && !e.ps && LeafOk(g, e) && (e.addr in g.man ==> e.addr in g.held)
    requires forall m :: m in g.own && IsLeaf(m) && m.key.root == l.key.root ==>
               !(Ent(g, m).addr == e.addr && e.addr in g.man)
    ensures Inv(LeafSet(g, l, e))
    ensures forall m :: Ent(LeafSet(g, l, e), m) == if m == l then e else Ent(g, m)
  {
    hide OwnersOk, LinksOk, OnceOk, LeavesOk, CountsOk;
    var h := LeafSet(g, l, e);
    StoreEnt(g, l, e);
    assert forall m :: Ent(h, m) == Ent(Store(g, l, e), m);
    SameAt(g, h);
    LeafLinks(g, h, l);
    LeafSetOnce(g, h, l, e);
    LeafSetCounts(g, h, l, e);
  }

  lemma LeafSetOnce(g: World, h: World, l: Loc, e: Word)
    requires OnceOk(g) && l !in g.own && h.own == g.own + {l} && h.man == g.man
    requires forall m :: Ent(h, m) == if m == l then e else Ent(g, m)
    requires forall m :: m in g.own && IsLeaf(m) && m.key.root == l.key.root ==>
               !(Ent(g, m).addr == e.addr && e.addr in g.man)
    ensures OnceOk(h)
  {
    forall m, n | SamePage(h, m, n)
      ensures m == n
    {
      assert m != l && n != l ==> SamePage(g, m, n);
    }
  }

  lemma LeafSetCounts(g: World, h: World, l: Loc, e: Word)
    requires LeavesOk(g) && CountsOk(g) && IsLeaf(l) && l !in g.own
    requires LeafOk(g, e) && (e.addr in g.man ==> e.addr in g.held)
    requires h.own == g.own + {l} && h.at == g.at && h.refs == g.refs && h.man == g.man
    requires h.held == g.held - One(g, e.addr)
    requires forall m :: Ent(h, m) == if m == l then e else Ent(g, m)
    ensures LeavesOk(h) && CountsOk(h)
  {
    forall m | m in h.own && IsLeaf(m)
      ensures LeafOk(h, Ent(h, m))
    {
      assert m in g.own ==> LeafOk(g, Ent(g, m));
    }
    hide LeavesOk;
    forall f | f in g.man
      ensures |Sharers(h, f)| == |Sharers(g, f)| + (if e.addr == f then 1 else 0)
    {
      OneOwnerChanges(g, h, l, f);
    }
  }
}
