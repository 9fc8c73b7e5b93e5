/**
 The radix tree of page tables seen as a flat map from user pages to leaf entries, as the hardware
 walk finds them in memory alone.
 */
module FlatMap {
  import opened Common
  import opened Pmm
  import opened Paging
  import opened Trees
  import opened Addresses

  /**
   Follow table entries from a root, reading nothing but memory. An entry on the way that keeps user code out
   or forbids writing ends the walk, so what an address allows is what its leaf allows.
   */
  function WalkTo(mem: seq<Page>, root: Frame, path: seq<nat>): Option<Frame> {
    if path == [] then Some(root) else
      match WalkTo(mem, root, path[..|path| - 1])
      case None => None
      case Some(t) =>
        var i := path[|path| - 1];
        if t < |mem| && i < |mem[t]| && Opens(mem[t][i]) then Some(mem[t][i].addr) else None
  }

  /** The processor goes on through this entry for any user access. */
  predicate Opens(e: Word) {
    e.p && e.u && e.w && !e.ps
  }

  /** The translation of a user address by the hardware walk. */
  function Translation(mem: seq<Page>, root: Frame, va: nat): Option<Word> {
    match WalkTo(mem, root, Path(va)[..3])
    case None => None
    case Some(t) =>
      var i := Path(va)[3];
      if t < |mem| && i < |mem[t]| && mem[t][i].p then Some(mem[t][i]) else None
  }

  /** The bookkeeping of tables says exactly what a walk through memory finds. */
  lemma {:induction false} WalkFinds(g: World, root: Frame, path: seq<nat>)
    requires Quiet(g) && Key(root, []) in g.at && GoodPath(path) && |path| <= 3
    ensures WalkTo(g.mem, root, path) == if Key(root, path) in g.at then Some(g.at[Key(root, path)]) else None
  {
    hide Inv;
    InvFacts(g);
    if path == [] {
      RootCount(g, root);
    } else {
      var up := path[..|path| - 1];
      WalkFinds(g, root, up);
      var k := Key(root, up);
      var i := path[|path| - 1];
      assert path == up + [i];
      if k in g.at {
        EntryMeansTable(g, k, i);
      } else if Key(root, path) in g.at {
        ParentLive(g, Key(root, path));
      }
    }
  }

  lemma ParentLive(g: World, k: Key)
    requires Quiet(g) && k in g.at && k.path != []
    ensures Up(k) in g.at
  {
    assert Linked(g, k);
    OwnedKey(g, Loc(Up(k), Last(k)));
  }

  /** So the walk translates exactly the addresses that have a leaf entry. */
  lemma TranslationFinds(g: World, root: Frame, va: nat)
    requires Quiet(g) && Key(root, []) in g.at && va < USER_TOP
    ensures Translation(g.mem, root, va) == Found(g, LocOf(root, va))
  {
    hide Inv;
    InvFacts(g);
    UserPath(va);
    WalkFinds(g, root, Path(va)[..3]);
  }

  /** Two addresses of one page translate alike; addresses of different pages have different entries. */
  lemma LocOfInjective(r: Frame, va: nat, s: Frame, vb: nat)
    requires va < USER_TOP && vb < USER_TOP
    ensures LocOf(r, va) == LocOf(s, vb) <==> r == s && va / PAGE_SIZE == vb / PAGE_SIZE
  {
    var a, b := Path(va), Path(vb);
    if LocOf(r, va) == LocOf(s, vb) {
      assert a == a[..3] + [a[3]] && b == b[..3] + [b[3]];
      PathInjective(va, vb);
    }
    if va / PAGE_SIZE == vb / PAGE_SIZE {
      SamePath(va, vb);
    }
  }

  lemma SamePath(va: nat, vb: nat)
    requires va / PAGE_SIZE == vb / PAGE_SIZE
    ensures Path(va) == Path(vb)
  {
    PathOfPage(va);
    PathOfPage(vb);
  }

  lemma PathOfPage(va: nat)
    ensures var n := va / 0x1000; Path(va) == [n / 0x800_0000 % 512, n / 0x4_0000 % 512, n / 0x200 % 512, n % 512]
  {
    TopOfPage(va);
    MiddleOfPage(va);
    LowOfPage(va);
  }

  lemma TopOfPage(va: nat)
    ensures va / 0x80_0000_0000 == va / 0x1000 / 0x800_0000
  {
  }

  lemma MiddleOfPage(va: nat)
    ensures va / 0x4000_0000 == va / 0x1000 / 0x4_0000
  {
  }

  lemma LowOfPage(va: nat)
    ensures va / 0x20_0000 == va / 0x1000 / 0x200
  {
  }

  /** The entry at l as a translation. */
  ghost function Found(g: World, l: Loc): Option<Word> {
    if Ent(g, l).p then Some(Ent(g, l)) else None
  }

  /** In the flat maps of all address spaces, only the page of va in the space of root changes, to `now`. */
  ghost predicate FlatUpdate(g: World, h: World, root: Frame, va: nat, now: Option<Word>) {
    forall r, vb: nat {:trigger Translation(h.mem, r, vb)} :: Key(r, []) in g.at && vb < USER_TOP ==>
      Translation(h.mem, r, vb) ==
      if r == root && vb / PAGE_SIZE == va / PAGE_SIZE then now else Translation(g.mem, r, vb)
  }

  /** No translation of any address space changes. */
  ghost predicate FlatSame(g: World, h: World) {
    forall r, vb: nat {:trigger Translation(h.mem, r, vb)} :: Key(r, []) in g.at && vb < USER_TOP ==>
      Translation(h.mem, r, vb) == Translation(g.mem, r, vb)
  }

  /** A change of one leaf entry changes the translation of exactly one page of one address space. */
  lemma FlatMapUpdate(g: World, h: World, root: Frame, va: nat)
    requires Quiet(g) && Quiet(h) && va < USER_TOP && OnlyLeaf(g, h, LocOf(root, va))
    requires forall r :: Key(r, []) in g.at ==> Key(r, []) in h.at
    ensures FlatUpdate(g, h, root, va, Found(h, LocOf(root, va)))
  {
    hide Inv, Settled, Translation, LocOf, Ent, OnlyLeaf, USER_TOP;
    forall r, vb: nat | Key(r, []) in g.at && vb < USER_TOP
      ensures Translation(h.mem, r, vb) ==
              if r == root && vb / PAGE_SIZE == va / PAGE_SIZE then Found(h, LocOf(root, va))
              else Translation(g.mem, r, vb)
    {
      TranslationFinds(g, r, vb);
      TranslationFinds(h, r, vb);
      LocOfInjective(r, vb, root, va);
      LocLeaf(r, vb);
      OtherLeaf(g, h, LocOf(root, va), LocOf(r, vb));
    }
  }

  lemma OtherLeaf(g: World, h: World, l: Loc, m: Loc)
    requires OnlyLeaf(g, h, l) && IsLeaf(m)
    ensures m != l ==> Ent(h, m) == Ent(g, m)
  {
  }

  /** New tables with nothing in them change no translation. */
  lemma FlatGrown(g: World, h: World)
    requires Quiet(g) && Quiet(h) && Grown(g, h)
    ensures FlatSame(g, h)
  {
    hide Inv, Settled, Translation, LocOf, Ent;
    forall r, vb: nat | Key(r, []) in g.at && vb < USER_TOP
      ensures Translation(h.mem, r, vb) == Translation(g.mem, r, vb)
    {
      TranslationFinds(g, r, vb);
      TranslationFinds(h, r, vb);
      LocLeaf(r, vb);
    }
  }
}
