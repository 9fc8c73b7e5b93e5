/**
 What changes when one user address is mapped, unmapped, copied on write or stored to, and what
 each address space sees of it.
 */
module Addresses {
  import opened Common
  import opened Pmm
  import opened Paging
  import opened Trees

  ghost predicate FramebufferApart(man: set<Frame>, first: Frame, end: Frame) {
    forall f :: f in man ==> !(first <= f < end)
  }

  const USER_TOP := 0x0000_8000_0000_0000

  /** idx4, idx3, idx2 and idx1 of an address. */
  function Path(va: nat): (path: seq<nat>)
    ensures |path| == 4
  {
    [va / 0x80_0000_0000 % 512, va / 0x4000_0000 % 512, va / 0x20_0000 % 512, va / 0x1000 % 512]
  }

  function LocOf(root: Frame, va: nat): Loc {
    Loc(Key(root, Path(va)[..3]), Path(va)[3])
  }

  lemma UserPath(va: nat)
    requires va < USER_TOP
    ensures GoodPath(Path(va)) && GoodKey(LocOf(0, va).key)
  {
  }

  /** Different user pages have different paths. */
  lemma PathInjective(va: nat, vb: nat)
    requires va < USER_TOP && vb < USER_TOP && Path(va) == Path(vb)
    ensures va / PAGE_SIZE == vb / PAGE_SIZE
  {
    var a, b := Path(va), Path(vb);
    assert a[0] == b[0] && a[1] == b[1] && a[2] == b[2] && a[3] == b[3];
    Digits(va);
    Digits(vb);
  }

  /** A user page number in base 512. */
  lemma Digits(va: nat)
    requires va < USER_TOP
    ensures va / PAGE_SIZE == ((Path(va)[0] * 512 + Path(va)[1]) * 512 + Path(va)[2]) * 512 + Path(va)[3]
  {
    var n := va / 0x1000;
    assert va / 0x20_0000 == n / 512;
    assert va / 0x4000_0000 == n / 512 / 512;
    assert va / 0x80_0000_0000 == n / 512 / 512 / 512;
    assert va / 0x80_0000_0000 < 256;
  }

  /** A last-level table is reached through all the tables above it. */
  lemma WalkEnd(g: World, hhdm: nat, cr3: Frame, path: seq<nat>)
    requires Quiet(g) && |path| == 4 && GoodPath(path) && ReachOk(hhdm, g.at)
    requires cr3 == 0 || Key(cr3, []) in g.at
    ensures Key(cr3, path[..3]) in g.at ==>
              Key(cr3, path[..2]) in g.at && Key(cr3, path[..1]) in g.at && Key(cr3, []) in g.at
    ensures Key(0, []) !in g.at
    ensures Key(cr3, []) in g.at ==> g.at[Key(cr3, [])] == cr3 && Mappable(hhdm, cr3)
  {
    if Key(cr3, path[..3]) in g.at {
      assert Linked(g, Key(cr3, path[..3]));
      assert path[..3][..2] == path[..2];
      assert Linked(g, Key(cr3, path[..2]));
      assert path[..2][..1] == path[..1];
      assert Linked(g, Key(cr3, path[..1]));
      assert path[..1][..0] == [];
    }
    if Key(cr3, []) in g.at {
      assert Reached(hhdm, g.at, Key(cr3, []));
    }
  }

  /** The word new_user_table and ensure_user_child store for a table. */
  function TableWord(f: Frame): Word {
    ZERO.(addr := f, p := true, w := true, u := true)
  }

  /** The world after new_user_table put the empty table f below entry (k, i). */
  ghost function NewChild(g: World, k: Key, i: nat, f: Frame): World
    requires Sized(g) && k in g.at && g.at[k] < |g.mem| && i < ENTRIES && f < |g.mem|
  {
    LinkMade(TableAdded(Filled(Alloced(g, f), f, ZeroPage()), Kid(k, i), f), Loc(k, i), TableWord(f))
  }

  /** Only empty tables were added: what is mapped, and every page in use, is as before. */
  ghost predicate Grown(g: World, h: World) {
    && h.held == g.held && h.man == g.man && |h.refs| == |g.refs|
    && (forall k :: k in g.at ==> k in h.at && h.at[k] == g.at[k])
    && (forall k :: k in h.at && k.path == [] ==> k in g.at)
    && (forall f :: f in g.man && f < |g.refs| && g.refs[f] > 0 ==>
          h.refs[f] == g.refs[f] && (f in h.at.Values ==> f in g.at.Values))
    && SameLeaves(g, h) && SameData(g, h)
  }

  lemma GrownReflexive(g: World)
    ensures Grown(g, g)
  {
  }

  lemma SettledOwns(g: World, l: Loc)
    requires Settled(g) && Ent(g, l).p && l.idx < Fan(l.key)
    ensures l in g.own
  {
  }

  lemma NotOwned(g: World, l: Loc)
    requires Inv(g) && !Ent(g, l).p
    ensures l !in g.own
  {
  }

  lemma GrownTransitive(g: World, h: World, i: World)
    requires Grown(g, h) && Grown(h, i)
    ensures Grown(g, i)
  {
  }

  lemma NewChildKeeps(g: World, k: Key, i: nat, f: Frame)
    requires Inv(g) && k in g.at && |k.path| < 3 && i < Fan(k) && Kid(k, i) !in g.at && Loc(k, i) !in g.own
    requires f in g.man && g.refs[f] == 0
    ensures Inv(NewChild(g, k, i, f))
    ensures forall l :: Ent(NewChild(g, k, i, f), l) == if l == Loc(k, i) then TableWord(f) else Ent(g, l)
  {
    hide Inv;
    InvFacts(g);
    var kid := Kid(k, i);
    var g1 := Alloced(g, f);
    var g2 := Filled(g1, f, ZeroPage());
    var g3 := TableAdded(g2, kid, f);
    AllocKeeps(g, f);
    FillKeeps(g1, f, ZeroPage());
    AddTableKeeps(g2, kid, f);
    LinkKeeps(g3, Loc(k, i), TableWord(f));
    forall l: Loc
      ensures Ent(g3, l) == Ent(g, l)
    {
      assert Ent(g1, l) == Ent(g, l) && Ent(g2, l) == Ent(g1, l);
      assert l.key == kid ==> Ent(g3, l) == ZERO && Ent(g, l) == ZERO;
    }
  }

  lemma NewChildGrows(g: World, k: Key, i: nat, f: Frame)
    requires Quiet(g) && k in g.at && |k.path| < 3 && i < Fan(k) && Kid(k, i) !in g.at && Loc(k, i) !in g.own
    requires f in g.man && g.refs[f] == 0
    ensures Quiet(NewChild(g, k, i, f)) && Grown(g, NewChild(g, k, i, f))
  {
    hide Inv;
    InvFacts(g);
    NewChildKeeps(g, k, i, f);
    AllocKeeps(g, f);
    AddedValues(g.at, Kid(k, i), f);
    assert g.held + multiset{f} - multiset{f} == g.held;
  }

  lemma OwnedFacts(g: World, l: Loc)
    requires Inv(g) && l in g.own
    ensures l.key in g.at && l.idx < Fan(l.key) && Ent(g, l).p && !Ent(g, l).ps && |l.key.path| <= 3
    ensures !IsLeaf(l) ==> LeadsDown(g, l)
    ensures IsLeaf(l) ==> LeafOk(g, Ent(g, l))
    ensures IsLeaf(l) && Ent(g, l).addr in g.man ==> l in Sharers(g, Ent(g, l).addr) && g.refs[Ent(g, l).addr] >= 1
  {
    if IsLeaf(l) {
      assert l in Sharers(g, Ent(g, l).addr);
    }
  }

  datatype Flags = Flags(w: bool, nx: bool, pwt: bool, pcd: bool)

  /** The leaf entry vmm_user_map stores. */
  function LeafWord(f: Frame, flags: Flags): Word {
    ZERO.(addr := f, p := true, u := true, w := flags.w, nx := flags.nx, pwt := flags.pwt, pcd := flags.pcd)
  }

  /** A present user entry for page f with exactly these permissions and no mark. */
  predicate EntryFor(e: Word, f: Frame, flags: Flags) {
    && e.p && e.u && e.addr == f && !e.cow && !e.ps
    && e.w == flags.w && e.nx == flags.nx && e.pwt == flags.pwt && e.pcd == flags.pcd
  }

  /** Only leaf entry l differs; no page in use other than a table has changed. */
  ghost predicate OnlyLeaf(g: World, h: World, l: Loc) {
    && h.man == g.man && (forall m :: IsLeaf(m) && m != l ==> Ent(h, m) == Ent(g, m))
    && SameData(g, h)
  }

  lemma OnlySelf(g: World, l: Loc)
    ensures OnlyLeaf(g, g, l)
  {
  }

  /** No page but a table is written. */
  ghost predicate OnlyTables(g: World, h: World) {
    h.at == g.at && |h.mem| == |g.mem| && forall f :: 0 <= f < |g.mem| && f !in g.at.Values ==> h.mem[f] == g.mem[f]
  }

  lemma OnlyMore(g: World, h: World, i: World, l: Loc)
    requires OnlyLeaf(g, h, l) && OnlyLeaf(h, i, l) && OnlyTables(h, i) && h.at == g.at
    ensures OnlyLeaf(g, i, l)
  {
  }

  /** The world after leaf entry l was overwritten: what it owned is in the kernel's hands. */
  ghost function LeafReplaced(g: World, l: Loc, e: Word): World
    requires l.key in g.at && g.at[l.key] < |g.mem| && l.idx < |g.mem[g.at[l.key]]|
  {
    LeafSet(if l in g.own then LeafCut(g, l) else g, l, e)
  }

  /**
   What an entry may be set to: a managed page is one whose reference the kernel holds, which no other entry
   of the address space maps, and which nobody else uses if the entry allows writing.
   */
  ghost predicate MayMap(g: World, l: Loc, e: Word) {
    e.addr in g.man ==>
      && e.addr in g.held && (e.w ==> e.addr < |g.refs| && g.refs[e.addr] == 1)
      && forall m :: m in g.own && m != l && IsLeaf(m) && m.key.root == l.key.root ==> Ent(g, m).addr != e.addr
  }

  /** A page with one reference, held by the kernel, may be mapped anywhere. */
  lemma MayMapFresh(g: World, l: Loc, e: Word)
    requires Inv(g) && (e.addr in g.man ==> e.addr in g.held && g.refs[e.addr] == 1)
    ensures MayMap(g, l, e)
  {
    hide Inv;
    InvFacts(g);
    if e.addr in g.man {
      FreshUnshared(g, e.addr);
    }
  }

  lemma ReplaceKeeps(g: World, l: Loc, e: Word)
    requires Quiet(g) && l.key in g.at && IsLeaf(l) && l.idx < ENTRIES && e.p && !e.ps && !e.cow
    requires MayMap(g, l, e)
    ensures g.at[l.key] < |g.mem| && |g.mem[g.at[l.key]]| == ENTRIES
    ensures Quiet(LeafReplaced(g, l, e)) && OnlyLeaf(g, LeafReplaced(g, l, e), l)
    ensures Ent(LeafReplaced(g, l, e), l) == e
  {
    hide Inv, MayMap, LeafReplaced;
    InvFacts(g);
    ReplacedInv(g, l, e);
    ReplacedHeld(g, l, e);
    var h := LeafReplaced(g, l, e);
    assert forall f :: f in g.man && f !in g.at.Values ==> h.mem[f] == g.mem[f];
  }

  lemma ReplacedInv(g: World, l: Loc, e: Word)
    requires Inv(g) && l.key in g.at && IsLeaf(l) && l.idx < ENTRIES && e.p && !e.ps && !e.cow
    requires g.at[l.key] < |g.mem| && |g.mem[g.at[l.key]]| == ENTRIES && MayMap(g, l, e)
    ensures var h := LeafReplaced(g, l, e);
            && Inv(h) && h.own == g.own + {l} && h.tops == g.tops
            && forall m :: Ent(h, m) == if m == l then e else Ent(g, m)
  {
    hide Inv, Ent, Store;
    var g1 := if l in g.own then LeafCut(g, l) else g;
    if l in g.own {
      LeafCutKeeps(g, l);
    }
    assert forall m :: Ent(g1, m) == Ent(g, m);
    LeafSetKeeps(g1, l, e);
    StoreOwners(g1, l, e);
  }

  lemma StoreOwners(g: World, l: Loc, e: Word)
    requires l.key in g.at && g.at[l.key] < |g.mem| && l.idx < |g.mem[g.at[l.key]]|
    ensures Store(g, l, e).tops == g.tops
  {
  }

  /** Nothing weaker will do: a held page is otherwise left writable and shared, or mapped twice in one space. */
  lemma MayMapExactly(g: World, l: Loc, e: Word)
    requires Quiet(g) && l.key in g.at && IsLeaf(l) && l.idx < ENTRIES && e.p && !e.ps && !e.cow
    requires e.addr in g.man ==> e.addr in g.held
    ensures g.at[l.key] < |g.mem| && |g.mem[g.at[l.key]]| == ENTRIES
    ensures Quiet(LeafReplaced(g, l, e)) <==> MayMap(g, l, e)
  {
    hide Inv, Settled;
    InvFacts(g);
    var h := LeafReplaced(g, l, e);
    if MayMap(g, l, e) {
      ReplaceKeeps(g, l, e);
    } else {
      var g1 := if l in g.own then LeafCut(g, l) else g;
      assert l in h.own && h.man == g.man && h.refs == g.refs;
      assert Ent(h, l) == e;
      if e.w && g.refs[e.addr] != 1 {
        assert !LeafOk(h, Ent(h, l));
        LeavesFail(h, l);
      } else {
        var m :| m in g.own && m != l && IsLeaf(m) && m.key.root == l.key.root && Ent(g, m).addr == e.addr;
        ReplacedEnt(g, l, e, m);
        assert SamePage(h, l, m);
        OnceFail(h, l, m);
      }
    }
  }

  lemma ReplacedEnt(g: World, l: Loc, e: Word, m: Loc)
    requires Inv(g) && l.key in g.at && l.idx < ENTRIES && m != l && m in g.own
    ensures g.at[l.key] < |g.mem| && l.idx < |g.mem[g.at[l.key]]|
    ensures m in LeafReplaced(g, l, e).own && Ent(LeafReplaced(g, l, e), m) == Ent(g, m)
  {
    hide LinksOk, OwnersOk, OnceOk, LeavesOk, CountsOk;
    InvFacts(g);
    StoreEnt(g, l, e);
    var h := LeafReplaced(g, l, e);
    assert h.mem == Store(g, l, e).mem && h.at == g.at;
    assert Ent(h, m) == Ent(Store(g, l, e), m);
  }

  lemma LeavesFail(g: World, l: Loc)
    requires l in g.own && IsLeaf(l) && !LeafOk(g, Ent(g, l))
    ensures !Inv(g)
  {
  }

  lemma OnceFail(g: World, l: Loc, m: Loc)
    requires SamePage(g, l, m) && l != m
    ensures !Inv(g)
  {
  }

  /** A page with one reference, in the kernel's hands, is mapped nowhere. */
  lemma FreshUnshared(g: World, f: Frame)
    requires Inv(g) && f in g.held && g.refs[f] == 1
    ensures forall m :: m in g.own && IsLeaf(m) ==> Ent(g, m).addr != f
  {
    assert |Sharers(g, f)| == 0;
    forall m | m in g.own && IsLeaf(m)
      ensures Ent(g, m).addr != f
    {
      assert m !in Sharers(g, f);
    }
  }

  lemma GrownThenLeaf(g: World, h: World, i: World, l: Loc)
    requires Inv(g) && Grown(g, h) && OnlyLeaf(h, i, l) && IsLeaf(l)
    ensures OnlyLeaf(g, i, l) && Ent(h, l) == Ent(g, l)
  {
  }

  lemma GrownSame(g: World, h: World)
    requires Grown(g, h)
    ensures h.held == g.held && h.man == g.man
    ensures forall f :: One(h, f) == One(g, f)
    ensures forall r :: Key(r, []) in h.at <==> Key(r, []) in g.at
  {
  }

  lemma ReplacedHeld(g: World, l: Loc, e: Word)
    requires Quiet(g) && l.key in g.at && g.at[l.key] < |g.mem| && l.idx < |g.mem[g.at[l.key]]| && l.idx < Fan(l.key)
    ensures LeafReplaced(g, l, e).held ==
            g.held + (if Ent(g, l).p then One(g, Ent(g, l).addr) else multiset{}) - One(g, e.addr)
    ensures var h := LeafReplaced(g, l, e);
            && h.man == g.man && h.at == g.at && h.refs == g.refs
            && h.mem == g.mem[g.at[l.key] := g.mem[g.at[l.key]][l.idx := e]]
  {
    assert l in g.own <==> Ent(g, l).p;
  }

  lemma GrownHeld(g: World, h: World, f: Frame)
    requires Inv(g) && Grown(g, h) && f in g.held
    ensures h.refs[f] == g.refs[f]
  {
    InvFacts(g);
  }

  lemma GrownMayMap(g: World, h: World, l: Loc, e: Word)
    requires Quiet(g) && Inv(h) && Grown(g, h) && MayMap(g, l, e)
    ensures MayMap(h, l, e)
  {
    hide Inv;
    InvFacts(g);
    InvFacts(h);
    if e.addr in g.man {
      forall m | m in h.own && m != l && IsLeaf(m) && m.key.root == l.key.root
        ensures Ent(h, m).addr != e.addr
      {
        OwnedFacts(h, m);
        OwnedBefore(g, m);
      }
    }
  }

  /** Whatever leaf entry is present is an owner. */
  lemma OwnedBefore(g: World, m: Loc)
    requires Quiet(g) && IsLeaf(m) && Ent(g, m).p
    ensures m in g.own
  {
    InvFacts(g);
  }

  /** New permissions for the page an entry maps; a page that becomes writable has no other user. */
  lemma RemapKeeps(g: World, l: Loc, e: Word)
    requires Quiet(g) && l in g.own && IsLeaf(l) && e.p && !e.ps && !e.cow && e.addr == Ent(g, l).addr
    requires e.addr in g.man && e.w ==> e.addr < |g.refs| && g.refs[e.addr] == 1
    ensures l.key in g.at && g.at[l.key] < |g.mem| && |g.mem[g.at[l.key]]| == ENTRIES && l.idx < ENTRIES
    ensures Quiet(LeafReplaced(g, l, e))
  {
    hide Inv, Ent, Store;
    InvFacts(g);
    OwnedFacts(g, l);
    LeafCutKeeps(g, l);
    OwnPageOnce(g, l);
    LeafSetKeeps(LeafCut(g, l), l, e);
    StoreOwners(LeafCut(g, l), l, e);
    RemapSettles(g, l, e);
  }

  lemma RemapSettles(g: World, l: Loc, e: Word)
    requires Settled(g) && l in g.own && l.key in g.at && g.at[l.key] < |g.mem| && l.idx < |g.mem[g.at[l.key]]|
    requires forall m :: Ent(LeafReplaced(g, l, e), m) == if m == l then e else Ent(g, m)
    ensures Settled(LeafReplaced(g, l, e))
  {
  }

  lemma OwnPageOnce(g: World, l: Loc)
    requires Inv(g) && l in g.own && IsLeaf(l)
    ensures forall m :: m in g.own && m != l && IsLeaf(m) && m.key.root == l.key.root ==>
              !(Ent(g, m).addr == Ent(g, l).addr && Ent(g, l).addr in g.man)
  {
    forall m | m in g.own && m != l && IsLeaf(m) && m.key.root == l.key.root
      ensures !(Ent(g, m).addr == Ent(g, l).addr && Ent(g, l).addr in g.man)
    {
      assert !SamePage(g, l, m);
    }
  }

  /** Nothing looks different but the rights to the page. */
  lemma RemapSeen(g: World, l: Loc, e: Word)
    requires Quiet(g) && l in g.own && IsLeaf(l) && e.p && e.addr == Ent(g, l).addr
    ensures l.key in g.at && g.at[l.key] < |g.mem| && |g.mem[g.at[l.key]]| == ENTRIES && l.idx < ENTRIES
    ensures var h := LeafReplaced(g, l, e);
            && OnlyLeaf(g, h, l) && Ent(h, l) == e && h.held == g.held && h.own == g.own
            && Sees(h, l) == WithRights(Sees(g, l), RightsOf(e))
            && (RightsOf(e) == RightsOf(Ent(g, l)) ==> Sees(h, l) == Sees(g, l))
  {
    hide Inv, LeafReplaced, Store;
    InvFacts(g);
    OwnedFacts(g, l);
    if e.addr in g.man {
      MappedIsNoTable(g, l);
    }
    ReplacedHeld(g, l, e);
    ReplacedEnts(g, l, e);
    assert g.held + One(g, e.addr) - One(g, e.addr) == g.held;
  }

  lemma ReplacedEnts(g: World, l: Loc, e: Word)
    requires Inv(g) && l in g.own && l.key in g.at && g.at[l.key] < |g.mem| && |g.mem[g.at[l.key]]| == ENTRIES
    requires l.idx < ENTRIES
    ensures LeafReplaced(g, l, e).own == g.own
    ensures forall m :: Ent(LeafReplaced(g, l, e), m) == if m == l then e else Ent(g, m)
  {
    hide LinksOk, OwnersOk, OnceOk, LeavesOk, CountsOk;
    StoreEnt(g, l, e);
    var h := LeafReplaced(g, l, e);
    assert h.mem == Store(g, l, e).mem && h.at == g.at;
    assert forall m :: Ent(h, m) == Ent(Store(g, l, e), m);
  }

  /** Making an entry writable exposes its page: others use it and no copy-on-write mark stands in the way. */
  predicate Exposes(g: World, e: Word, w: bool) {
    w && !e.cow && e.addr in g.man && e.addr < |g.refs| && g.refs[e.addr] != 1
  }

  /** New permissions without a private copy keep the invariant exactly when no page is exposed. */
  lemma RemapExactly(g: World, l: Loc, e: Word)
    requires Quiet(g) && l in g.own && IsLeaf(l) && e.p && !e.ps && !e.cow && e.addr == Ent(g, l).addr
    ensures l.key in g.at && g.at[l.key] < |g.mem| && |g.mem[g.at[l.key]]| == ENTRIES && l.idx < ENTRIES
    ensures Quiet(LeafReplaced(g, l, e)) <==> (e.addr in g.man && e.w ==> e.addr < |g.refs| && g.refs[e.addr] == 1)
  {
    hide Inv, Settled, LeafReplaced, Ent;
    InvFacts(g);
    OwnedFacts(g, l);
    if e.addr in g.man && e.w ==> e.addr < |g.refs| && g.refs[e.addr] == 1 {
      RemapKeeps(g, l, e);
    } else {
      ReplacedEnts(g, l, e);
      ReplacedHeld(g, l, e);
      LeavesFail(LeafReplaced(g, l, e), l);
    }
  }

  /** The world after leaf entry l was cleared. */
  ghost function LeafCleared(g: World, l: Loc): World
    requires l.key in g.at && g.at[l.key] < |g.mem| && l.idx < |g.mem[g.at[l.key]]|
  {
    Store(LeafCut(g, l), l, ZERO)
  }

  lemma ClearKeeps(g: World, l: Loc)
    requires Inv(g) && l in g.own && IsLeaf(l)
    ensures l.key in g.at && g.at[l.key] < |g.mem| && |g.mem[g.at[l.key]]| == ENTRIES && l.idx < ENTRIES
    ensures Inv(LeafCleared(g, l)) && OnlyLeaf(g, LeafCleared(g, l), l)
    ensures Settled(g) ==> Settled(LeafCleared(g, l))
    ensures forall m :: Ent(LeafCleared(g, l), m) == if m == l then ZERO else Ent(g, m)
  {
    hide Inv;
    InvFacts(g);
    OwnedFacts(g, l);
    LeafCutKeeps(g, l);
    WriteKeeps(LeafCut(g, l), l, ZERO);
    var h := LeafCleared(g, l);
    assert forall f :: f in g.man && f !in g.at.Values ==> h.mem[f] == g.mem[f];
  }

  /** What a program may do with a page, and how it is cached. */
  datatype Rights = Rights(w: bool, u: bool, nx: bool, pwt: bool, pcd: bool)

  /** A page that is only to be copied before it is written is as good as writable. */
  ghost function RightsOf(e: Word): Rights {
    Rights(e.w || e.cow, e.u, e.nx, e.pwt, e.pcd)
  }

  /** What a user mapping with these flags grants. */
  function UserRights(flags: Flags): Rights {
    Rights(flags.w, true, flags.nx, flags.pwt, flags.pcd)
  }

  /** What an address space sees at a page: nothing, memory of its own, or an unmanaged page. */
  datatype Sight = Unmapped | Memory(page: Page, rights: Rights) | Foreign(frame: Frame, rights: Rights)

  ghost function Sees(g: World, l: Loc): Sight {
    var e := Ent(g, l);
    if !e.p then Unmapped
    else if e.addr in g.man && e.addr < |g.mem| then Memory(g.mem[e.addr], RightsOf(e))
    else Foreign(e.addr, RightsOf(e))
  }

  /** The same page with other rights. */
  ghost function WithRights(s: Sight, rights: Rights): Sight {
    if s.Unmapped? then s else s.(rights := rights)
  }

  ghost predicate SeesSameBut(g: World, h: World, l: Loc) {
    forall m :: IsLeaf(m) && m != l && m.idx < ENTRIES ==> Sees(h, m) == Sees(g, m)
  }

  /** A change of one leaf entry is not seen through any other. */
  lemma OnlyLeafSeen(g: World, h: World, l: Loc)
    requires Quiet(g) && OnlyLeaf(g, h, l)
    ensures SeesSameBut(g, h, l)
  {
    hide Inv;
    InvFacts(g);
    forall m | IsLeaf(m) && m != l && m.idx < ENTRIES
      ensures Sees(h, m) == Sees(g, m)
    {
      if Ent(g, m).p && Ent(g, m).addr in g.man {
        SettledOwns(g, m);
        OwnedFacts(g, m);
        MappedIsNoTable(g, m);
      }
    }
  }

  lemma GrownSeen(g: World, h: World, l: Loc)
    requires Quiet(g) && Grown(g, h)
    ensures SeesSameBut(g, h, l) && (IsLeaf(l) && l.idx < ENTRIES ==> Sees(h, l) == Sees(g, l))
  {
    hide Inv;
    InvFacts(g);
    forall m | IsLeaf(m) && m.idx < ENTRIES
      ensures Sees(h, m) == Sees(g, m)
    {
      if Ent(g, m).p && Ent(g, m).addr in g.man {
        SettledOwns(g, m);
        OwnedFacts(g, m);
        MappedIsNoTable(g, m);
      }
    }
  }

  lemma MappedIsNoTable(g: World, l: Loc)
    requires Inv(g) && l in g.own && IsLeaf(l) && Ent(g, l).addr in g.man
    ensures Ent(g, l).addr !in g.at.Values
  {
    assert l in Sharers(g, Ent(g, l).addr);
  }

  /**
   One word of the page seen at l is replaced, and nothing else changes in sight. A store to a page
   the allocator does not manage is not seen as memory.
   */
  ghost predicate SeesStore(g: World, h: World, l: Loc, off: nat, val: Word) {
    && SeesSameBut(g, h, l)
    && match Sees(g, l)
       case Unmapped => false
       case Memory(page, rights) =>
         rights.w && rights.u && off < |page| && Sees(h, l) == Memory(page[off := val], rights)
       case Foreign(f, rights) => rights.w && rights.u && Sees(h, l) == Foreign(f, rights)
  }

  lemma SeesSelf(g: World, l: Loc)
    ensures SeesSameBut(g, g, l)
  {
  }

  lemma StoreSeen(g: World, g1: World, h: World, l: Loc, off: nat, val: Word)
    requires SeesSameBut(g, g1, l) && Sees(g1, l) == Sees(g, l) && SeesStore(g1, h, l, off, val)
    ensures SeesStore(g, h, l, off, val)
  {
  }

  /** The page behind a writable entry is not a table. */
  lemma WriteTarget(g: World, l: Loc)
    requires Inv(g) && l in g.own && IsLeaf(l)
    ensures Ent(g, l).addr !in g.at.Values
  {
    if Ent(g, l).addr in g.man {
      MappedIsNoTable(g, l);
    }
  }

  lemma FilledSettled(g: World, f: Frame, page: Page)
    requires Settled(g) && f < |g.mem| && SameTables(g, Filled(g, f, page))
    ensures Settled(Filled(g, f, page))
  {
  }

  lemma WriteSeen(g: World, l: Loc, off: nat, val: Word)
    requires Quiet(g) && l in g.own && IsLeaf(l) && Ent(g, l).w && Ent(g, l).u && Ent(g, l).addr < |g.mem|
    requires off < ENTRIES && |g.mem[Ent(g, l).addr]| == ENTRIES
    ensures SeesStore(g, Filled(g, Ent(g, l).addr, g.mem[Ent(g, l).addr][off := val]), l, off, val)
  {
    hide Inv;
    InvFacts(g);
    OwnedFacts(g, l);
    WriteTarget(g, l);
    var f := Ent(g, l).addr;
    var h := Filled(g, f, g.mem[f][off := val]);
    FillKeeps(g, f, g.mem[f][off := val]);
    forall m | IsLeaf(m) && m != l && m.idx < ENTRIES
      ensures Sees(h, m) == Sees(g, m)
    {
      if Ent(g, m).p && Ent(g, m).addr == f && f in g.man {
        SettledOwns(g, m);
        WritableIsPrivate(g, l, m);
      }
    }
  }

  lemma ForeignSeen(g: World, l: Loc, off: nat, val: Word)
    requires Sized(g) && Ent(g, l).p && Ent(g, l).w && Ent(g, l).u && Ent(g, l).addr >= |g.mem|
    ensures SeesStore(g, g, l, off, val)
  {
  }

  /** The world with a fresh page np, filled, in the kernel's hands. */
  ghost function Prepared(g: World, np: Frame, page: Page): World
    requires np < |g.refs| && np < |g.mem|
  {
    Filled(Alloced(g, np), np, page)
  }

  lemma PreparedFacts(g: World, np: Frame, page: Page)
    requires Quiet(g) && np in g.man && g.refs[np] == 0 && |page| == ENTRIES
    ensures np < |g.mem| && np < |g.refs| && np !in g.at.Values && np !in g.held
    ensures Quiet(Prepared(g, np, page)) && SameTables(g, Prepared(g, np, page)) && SameData(g, Prepared(g, np, page))
  {
    hide Inv;
    InvFacts(g);
    AllocKeeps(g, np);
    FillKeeps(Alloced(g, np), np, page);
    assert forall m :: Ent(Alloced(g, np), m) == Ent(g, m);
  }

  /** After the copy is mapped and the shared page let go, only entry l differs, and it sees the same. */
  lemma CopyDone(g: World, g3: World, l: Loc, e: Word, page: Page)
    requires Quiet(g) && e.addr in g.man && g.refs[e.addr] == 0 && |page| == ENTRIES
    requires IsLeaf(l) && Ent(g, l).p && Ent(g, l).addr in g.man && Ent(g, l).addr < |g.mem|
    requires g3.refs == g.refs[e.addr := 1] && g3.at == g.at
    requires g3.held == g.held + multiset{e.addr} + multiset{Ent(g, l).addr} - multiset{e.addr}
    requires OnlyLeaf(Prepared(g, e.addr, page), g3, l) && Ent(g3, l) == e && e.p
    requires Ent(g, l).addr < |g3.refs| && g3.refs[Ent(g, l).addr] > 0
    ensures var h := Released(g3, Ent(g, l).addr);
            OnlyLeaf(g, h, l) && h.held == g.held && Sees(h, l) == Memory(page, RightsOf(e))
    ensures page == g.mem[Ent(g, l).addr] ==> Sees(g, l) == Memory(page, RightsOf(Ent(g, l)))
  {
    hide Inv, Settled;
    PreparedFacts(g, e.addr, page);
    var h := Released(g3, Ent(g, l).addr);
    assert forall m :: Ent(h, m) == Ent(g3, m);
    assert h.held == g.held;
    var p := Prepared(g, e.addr, page);
    DataTransitive(g, p, g3);
  }

  lemma DataTransitive(g: World, p: World, h: World)
    requires SameData(g, p) && SameData(p, h) && p.at == g.at && p.man == g.man && |p.refs| == |g.refs|
    requires forall f :: 0 <= f < |g.refs| && g.refs[f] > 0 ==> p.refs[f] > 0
    ensures SameData(g, h)
  {
  }

  lemma ReleasedSettled(g: World, f: Frame)
    requires Settled(g) && f < |g.refs| && g.refs[f] > 0
    ensures Settled(Released(g, f))
  {
    assert forall m :: Ent(Released(g, f), m) == Ent(g, m);
  }

  /** A writable page is seen through one entry only. */
  lemma WritableIsPrivate(g: World, l: Loc, m: Loc)
    requires Inv(g) && l in g.own && IsLeaf(l) && Ent(g, l).w && Ent(g, l).addr in g.man
    requires m in g.own && IsLeaf(m) && Ent(g, m).addr == Ent(g, l).addr
    ensures m == l
  {
    var s := Sharers(g, Ent(g, l).addr);
    assert l in s && m in s;
    assert |s| <= 1;
    assert s == {l} by {
      if x :| x in s && x != l {
        assert {x, l} <= s;
        assert |{x, l}| == 2;
        SubsetSize({x, l}, s);
      }
    }
  }

  /** Leaf entries and pages in use are as before: nothing looks different. */
  lemma SameSights(g: World, h: World)
    requires Quiet(g) && SameLeaves(g, h) && SameData(g, h) && h.man == g.man
    ensures forall l :: IsLeaf(l) && l.idx < ENTRIES ==> Sees(h, l) == Sees(g, l)
  {
    hide Inv;
    InvFacts(g);
    forall l | IsLeaf(l) && l.idx < ENTRIES
      ensures Sees(h, l) == Sees(g, l)
    {
      SightKept(g, h, l);
    }
  }

  lemma SightKept(g: World, h: World, l: Loc)
    requires Quiet(g) && IsLeaf(l) && l.idx < ENTRIES && Ent(h, l) == Ent(g, l) && SameData(g, h) && h.man == g.man
    ensures Sees(h, l) == Sees(g, l)
  {
    hide Inv;
    InvFacts(g);
    if Ent(g, l).p && Ent(g, l).addr in g.man {
      SettledOwns(g, l);
      OwnedFacts(g, l);
      MappedIsNoTable(g, l);
    }
  }

  lemma ReleasedSights(g: World, f: Frame)
    requires f < |g.refs| && g.refs[f] > 0
    ensures forall l :: Sees(Released(g, f), l) == Sees(g, l)
  {
    forall l
      ensures Sees(Released(g, f), l) == Sees(g, l)
    {
      assert Ent(Released(g, f), l) == Ent(g, l);
    }
  }

  /** Preparing a page is not seen by anyone. */
  lemma PreparedSights(g: World, np: Frame, page: Page, h: World, l: Loc)
    requires Quiet(g) && np in g.man && g.refs[np] == 0 && |page| == ENTRIES && IsLeaf(l) && l.idx < ENTRIES
    requires np < |g.mem| && np < |g.refs|
    requires SeesSameBut(Prepared(g, np, page), h, l)
    ensures SeesSameBut(g, h, l) && Sees(Prepared(g, np, page), l) == Sees(g, l)
  {
    hide Inv;
    PreparedFacts(g, np, page);
    SameSights(g, Prepared(g, np, page));
  }

  /** The mapped page shows its contents. */
  lemma MappedSight(g: World, h: World, np: Frame, l: Loc, page: Page)
    requires Inv(g) && np in g.held && np < |g.mem| && np < |g.refs| && g.mem[np] == page && SameData(g, h)
    requires h.man == g.man
    requires Ent(h, l).p && Ent(h, l).addr == np
    ensures Sees(h, l) == Memory(page, RightsOf(Ent(h, l)))
  {
    hide Inv;
    InvFacts(g);
  }

  lemma ReleasedSeen(g: World, g1: World, h: World, l: Loc)
    requires SeesSameBut(g, g1, l) && forall m :: Sees(h, m) == Sees(g1, m)
    ensures SeesSameBut(g, h, l)
  {
  }

  lemma OnlyLeafData(g: World, h: World, l: Loc)
    requires OnlyLeaf(g, h, l)
    ensures SameData(g, h)
  {
  }

  lemma LocLeaf(r: Frame, va: nat)
    ensures IsLeaf(LocOf(r, va)) && LocOf(r, va).idx < ENTRIES && LocOf(r, va).key.root == r
  {
  }

  lemma PreparedHeld(g: World, np: Frame, page: Page)
    requires np < |g.refs| && np < |g.mem|
    ensures var h := Prepared(g, np, page);
            && h.held == g.held + multiset{np} && h.man == g.man && h.at == g.at && |h.mem| == |g.mem|
            && |h.refs| == |g.refs|
            && h.refs[np] == 1 && h.mem[np] == page
  {
  }

  /** A prepared page was mapped at l: that page is seen there, and nothing else is new. */
  lemma PreparedMapped(g0: World, np: Frame, page: Page, h: World, l: Loc)
    requires Quiet(g0) && np in g0.man && np < |g0.refs| && np < |g0.mem| && g0.refs[np] == 0 && |page| == ENTRIES
    requires Quiet(Prepared(g0, np, page)) && IsLeaf(l) && l.idx < ENTRIES
    requires OnlyLeaf(Prepared(g0, np, page), h, l) && Ent(h, l).p && Ent(h, l).addr == np
    ensures SeesSameBut(g0, h, l) && Sees(h, l) == Memory(page, RightsOf(Ent(h, l))) && h.man == g0.man
  {
    hide Inv, Settled, SeesSameBut, Sees, Prepared;
    var g1 := Prepared(g0, np, page);
    PreparedHeld(g0, np, page);
    OnlyLeafSeen(g1, h, l);
    OnlyLeafData(g1, h, l);
    MappedSight(g1, h, np, l, page);
    PreparedSights(g0, np, page, h, l);
  }

  /** A prepared page was given back after new tables were made: nothing is seen of it. */
  lemma PreparedDropped(g0: World, np: Frame, page: Page, g2: World, l: Loc)
    requires Quiet(g0) && np in g0.man && np < |g0.refs| && np < |g0.mem| && g0.refs[np] == 0 && |page| == ENTRIES
    requires Quiet(Prepared(g0, np, page)) && Quiet(g2) && IsLeaf(l) && l.idx < ENTRIES
    requires Grown(Prepared(g0, np, page), g2)
    ensures np in g2.held && np < |g2.refs| && g2.refs[np] > 0 && Settled(Released(g2, np))
    ensures SeesSameBut(g0, Released(g2, np), l) && Sees(Released(g2, np), l) == Sees(g0, l)
    ensures Released(g2, np).held == g0.held && g2.man == g0.man
  {
    hide Inv, Settled, SeesSameBut, Sees, Prepared, Grown;
    var g1 := Prepared(g0, np, page);
    PreparedHeld(g0, np, page);
    GrownSame(g1, g2);
    InvFacts(g2);
    GrownHeld(g1, g2, np);
    GrownSeen(g1, g2, l);
    ReleasedSettled(g2, np);
    ReleasedSights(g2, np);
    ReleasedSeen(g1, g2, Released(g2, np), l);
    PreparedSights(g0, np, page, Released(g2, np), l);
    assert g0.held + multiset{np} - multiset{np} == g0.held;
  }
}
