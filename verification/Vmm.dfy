/**
 User address spaces: src/kernel/vmm.c over the allocator of src/kernel/pmm.c.
 */
module Vmm {
  import opened Common
  import opened Pmm
  import opened Paging
  import opened Trees
  import opened Addresses
  import opened FlatMap
  import opened Supply

  class AddressSpaces {
    const pmm: FrameAllocator
    /** The pages of the framebuffer, which the allocator does not manage. */
    const fbFirst: Frame
    const fbEnd: Frame
    var mem: seq<Page>
    var user: Frame
    var userValid: bool
    /** The memory with the bookkeeping of tables, owners and held references. */
    ghost var g: World

    ghost predicate Tied()
      reads this, pmm
    {
      && |mem| == TRACK_PAGES && |pmm.reserved| == TRACK_PAGES
      && g.mem == mem && g.refs == pmm.refs && g.man == ManagedFrames(pmm.regions, pmm.reserved)
      && FramebufferApart(g.man, fbFirst, fbEnd)
    }

    ghost predicate Valid()
      reads this, pmm
    {
      && pmm.Valid() && pmm.ready && Tied() && Inv(g)
      && ReachOk(pmm.hhdm, g.at)
    }

    /** After boot: no user tables yet and every managed page free. */
    constructor (pmm: FrameAllocator, mem: seq<Page>, fbFirst: Frame, fbEnd: Frame)
      requires pmm.Valid() && pmm.ready
      requires forall f: Frame :: pmm.Managed(f) ==> pmm.refs[f] == 0
      requires |mem| == TRACK_PAGES && forall f :: 0 <= f < |mem| ==> |mem[f]| == ENTRIES
      requires FramebufferApart(ManagedFrames(pmm.regions, pmm.reserved), fbFirst, fbEnd)
      ensures Valid() && Quiet(g)
      ensures this.pmm == pmm && this.mem == mem && g.at == map[] && g.held == multiset{} && !userValid
    {
      this.pmm := pmm;
      this.mem := mem;
      this.fbFirst, this.fbEnd := fbFirst, fbEnd;
      user, userValid := 0, false;
      g := World(mem, map[], {}, {}, multiset{}, pmm.refs, ManagedFrames(pmm.regions, pmm.reserved));
    }

    /** The allocator's counter counts the managed pages without a reference. */
    lemma FreeCount()
      requires pmm.Valid() && Tied()
      ensures pmm.freePages == |FreePages(g)|
    {
      assert FreeFrames(pmm.regions, pmm.inUse) == FreePages(g);
    }

    /** The pages with counts are the usable ones that are not reserved. */
    lemma ManagedUsable(f: Frame)
      requires Valid()
      ensures f in g.man <==> InRegions(pmm.regions, f) && !(f < TRACK_PAGES && pmm.reserved[f])
    {
    }

    /** pmm_alloc_page; the caller holds the one reference. */
    method TakePage() returns (f: Frame)
      requires Valid()
      modifies pmm`next, pmm`inUse, pmm`refs, pmm`freePages, this`g
      ensures Valid()
      ensures f == 0 ==> g == old(g)
      ensures f != 0 ==> f in g.man && old(g.refs[f]) == 0 && g == Alloced(old(g), f)
      ensures f == 0 <==> FreePages(old(g)) == {}
    {
      hide Inv, FrameAllocator.Valid, FramebufferApart;
      InvFacts(g);
      FreeCount();
      f := pmm.Alloc();
      if f != 0 {
        AllocKeeps(g, f);
        g := Alloced(g, f);
      }
    }

    /** pmm_free_page on a reference the caller holds, or on a page the allocator does not manage. */
    method DropPage(f: Frame)
      requires Valid()
      requires f in g.man ==> f in g.held
      modifies pmm`inUse, pmm`refs, pmm`freePages, this`g
      ensures Valid()
      ensures f !in g.man ==> g == old(g)
      ensures f in g.man ==> old(g.refs[f]) > 0 && g == Released(old(g), f)
    {
      hide Inv, FrameAllocator.Valid, FramebufferApart;
      InvFacts(g);
      pmm.Free(f);
      if f in g.man {
        ReleaseKeeps(g, f);
        g := Released(g, f);
      }
    }

    /** Fill a page the caller holds. */
    method Fill(f: Frame, page: Page)
      requires Valid() && f in g.held && |page| == ENTRIES
      modifies this`mem, this`g
      ensures Valid() && g == Filled(old(g), f, page)
    {
      hide Inv, FrameAllocator.Valid, FramebufferApart;
      InvFacts(g);
      FillKeeps(g, f, page);
      mem := mem[f := page];
      g := Filled(g, f, page);
    }

    /** A page in the direct map with given contents, in the caller's hands; 0 when there is none. */
    method FreshPage(page: Page) returns (f: Frame)
      requires Valid() && |page| == ENTRIES
      modifies pmm`next, pmm`inUse, pmm`refs, pmm`freePages, this`mem, this`g
      ensures Valid()
      ensures f == 0 ==> g == old(g) && (Covers(pmm.hhdm) ==> FreePages(g) == {})
      ensures f != 0 ==> FreePages(old(g)) != {} && Mappable(pmm.hhdm, f)
      ensures f != 0 ==> f in old(g).man && f < |old(g).refs| && f < |old(g).mem|
      ensures f != 0 ==> old(g).refs[f] == 0 && g == Prepared(old(g), f, page)
    {
      hide Inv, FrameAllocator.Valid, FramebufferApart;
      InvFacts(g);
      f := TakePage();
      if f == 0 {
        return;
      }
      if !Mappable(pmm.hhdm, f) {
        AllocReleased(old(g), f);
        DropPage(f);
        return 0;
      }
      Fill(f, page);
    }

    /** An empty table for key k, not linked yet; 0 when memory runs out. */
    method MakeTable(ghost k: Key) returns (f: Frame)
      requires Valid() && GoodKey(k) && k !in g.at && k.path != []
      modifies pmm`next, pmm`inUse, pmm`refs, pmm`freePages, this`mem, this`g
      ensures Valid()
      ensures f == 0 ==> g == old(g) && (Covers(pmm.hhdm) ==> FreePages(g) == {})
      ensures f != 0 ==> f in g.man && old(g.refs[f]) == 0 && Mappable(pmm.hhdm, f)
      ensures f != 0 ==> g == TableAdded(Filled(Alloced(old(g), f), f, ZeroPage()), k, f)
    {
      hide Inv, FrameAllocator.Valid, FramebufferApart, Covers, Mappable, FreePages;
      InvFacts(g);
      f := FreshPage(ZeroPage());
      if f == 0 {
        return;
      }
      AddTableKeeps(g, k, f);
      ReachAdded(pmm.hhdm, g.at, k, f);
      g := TableAdded(g, k, f);
    }

    // ----- Walking and changing one address -----

    /** One level of a walk. */
    method Descend(t: Frame, i: nat, ghost k: Key) returns (ok: bool, child: Frame)
      requires Valid() && Settled(g)
      requires k in g.at && g.at[k] == t && |k.path| < 3 && i < Fan(k)
      ensures ok <==> Kid(k, i) in g.at
      ensures ok ==> child == g.at[Kid(k, i)]
    {
      hide Inv, Settled, FrameAllocator.Valid, FramebufferApart;
      InvFacts(g);
      EntryMeansTable(g, k, i);
      var e := mem[t][i];
      assert Kid(k, i) in g.at ==> Reached(pmm.hhdm, g.at, Kid(k, i));
      ok := e.p && !e.ps && Mappable(pmm.hhdm, e.addr);
      child := e.addr;
    }

    /** The walk all translations share: the last-level table of a user address. */
    method Walk(cr3: Frame, va: nat) returns (ok: bool, pt: Frame)
      requires Valid() && Settled(g) && va < USER_TOP
      requires cr3 == 0 || Key(cr3, []) in g.at
      ensures ok <==> LocOf(cr3, va).key in g.at
      ensures ok ==> pt == g.at[LocOf(cr3, va).key]
    {
      hide Inv, Settled, FrameAllocator.Valid, FramebufferApart;
      ghost var path := Path(va);
      ghost var k0 := Key(cr3, []);
      UserPath(va);
      ok, pt := false, 0;
      if cr3 == 0 || !Mappable(pmm.hhdm, cr3) {
        WalkEnd(g, pmm.hhdm, cr3, path);
        return;
      }
      WalkEnd(g, pmm.hhdm, cr3, path);
      assert Kid(k0, path[0]).path == path[..1];
      ok, pt := Descend(cr3, va / 0x80_0000_0000 % 512, k0);
      if !ok {
        return;
      }
      assert Kid(Kid(k0, path[0]), path[1]).path == path[..2];
      ok, pt := Descend(pt, va / 0x4000_0000 % 512, Kid(k0, path[0]));
      if !ok {
        return;
      }
      assert Kid(Kid(Kid(k0, path[0]), path[1]), path[2]).path == path[..3];
      ok, pt := Descend(pt, va / 0x20_0000 % 512, Kid(Kid(k0, path[0]), path[1]));
    }

    /** new_user_table */
    method NewUserTable(t: Frame, i: nat, ghost k: Key) returns (child: Frame)
      requires Valid() && k in g.at && g.at[k] == t && |k.path| < 3 && i < Fan(k)
      requires Kid(k, i) !in g.at && Loc(k, i) !in g.own
      modifies pmm`next, pmm`inUse, pmm`refs, pmm`freePages, this`mem, this`g
      ensures Valid()
      ensures child == 0 ==> g == old(g) && (Covers(pmm.hhdm) ==> FreePages(g) == {})
      ensures child != 0 ==> child in g.man && old(g.refs[child]) == 0 && g == NewChild(old(g), k, i, child)
    {
      hide Inv, FrameAllocator.Valid, FramebufferApart;
      InvFacts(g);
      child := MakeTable(Kid(k, i));
      if child == 0 {
        return;
      }
      NewChildKeeps(old(g), k, i, child);
      mem := mem[t := mem[t][i := TableWord(child)]];
      g := LinkMade(g, Loc(k, i), TableWord(child));
      assert ReachOk(pmm.hhdm, g.at);
    }

    /** ensure_user_child */
    method EnsureUserChild(t: Frame, i: nat, ghost k: Key) returns (child: Frame)
      requires Valid() && Settled(g) && k in g.at && g.at[k] == t && |k.path| < 3 && i < Fan(k)
      modifies pmm`next, pmm`inUse, pmm`refs, pmm`freePages, this`mem, this`g
      ensures Valid() && Settled(g)
      ensures child == 0 ==> g == old(g) && Kid(k, i) !in g.at && (Covers(pmm.hhdm) ==> FreePages(g) == {})
      ensures child != 0 ==> Kid(k, i) in g.at && g.at[Kid(k, i)] == child && Grown(old(g), g)
      ensures child != 0 ==> g.at.Keys == old(g.at).Keys + {Kid(k, i)}
      ensures child != 0 ==> |FreePages(g)| + Lacks(old(g), Kid(k, i)) == |FreePages(old(g))|
    {
      hide Inv, Settled, FrameAllocator.Valid, FramebufferApart, Grown;
      InvFacts(g);
      EntryMeansTable(g, k, i);
      ghost var l := Loc(k, i);
      var e := mem[t][i];
      assert Kid(k, i) in g.at ==> Reached(pmm.hhdm, g.at, Kid(k, i));
      if !e.p || e.ps || !Mappable(pmm.hhdm, e.addr) {
        NotOwned(g, l);
        child := NewUserTable(t, i, k);
        if child != 0 {
          NewChildGrows(old(g), k, i, child);
          OneTaken(old(g), g, child);
        }
        return;
      }
      child := e.addr;
      // Every link is writable and open to the user, so the source never has to add the two flags.
      assert e.w && e.u;
      GrownReflexive(g);
    }

    /** vmm_user_activate */
    method Activate(cr3: Frame) returns (ok: bool)
      modifies this`user, this`userValid
      ensures ok <==> cr3 != 0 && Mappable(pmm.hhdm, cr3)
      ensures if ok then user == cr3 && userValid else user == old(user) && userValid == old(userValid)
    {
      ok := cr3 != 0 && Mappable(pmm.hhdm, cr3);
      if ok {
        user, userValid := cr3, true;
      }
    }

    /** The three ensure_user_child calls of vmm_user_map. */
    method EnsurePath(virt: nat) returns (pt: Frame)
      requires Valid() && Settled(g) && virt < USER_TOP && Key(user, []) in g.at
      modifies pmm`next, pmm`inUse, pmm`refs, pmm`freePages, this`mem, this`g
      ensures Valid() && Settled(g) && Grown(old(g), g)
      ensures pt != 0 ==> LocOf(user, virt).key in g.at && g.at[LocOf(user, virt).key] == pt
      ensures pt != 0 ==> |FreePages(g)| + Missing(old(g), user, Path(virt)) == |FreePages(old(g))|
      ensures pt == 0 && Covers(pmm.hhdm) ==> |FreePages(old(g))| < Missing(old(g), user, Path(virt))
    {
      hide Inv, Settled, FrameAllocator.Valid, FramebufferApart, Grown;
      ghost var path := Path(virt);
      ghost var k0 := Key(user, []);
      UserPath(virt);
      WalkEnd(g, pmm.hhdm, user, path);
      GrownReflexive(g);
      assert Kid(k0, path[0]).path == path[..1];
      pt := EnsureUserChild(user, virt / 0x80_0000_0000 % 512, k0);
      if pt == 0 {
        return;
      }
      ghost var g1 := g;
      assert Kid(Kid(k0, path[0]), path[1]).path == path[..2];
      pt := EnsureUserChild(pt, virt / 0x4000_0000 % 512, Kid(k0, path[0]));
      if pt == 0 {
        return;
      }
      GrownTransitive(old(g), g1, g);
      ghost var g2 := g;
      assert Kid(Kid(Kid(k0, path[0]), path[1]), path[2]).path == path[..3];
      pt := EnsureUserChild(pt, virt / 0x20_0000 % 512, Kid(Kid(k0, path[0]), path[1]));
      if pt == 0 {
        return;
      }
      GrownTransitive(old(g), g2, g);
    }

    /** The pages a leaf entry gives up when it is overwritten. */
    ghost function Displaced(g: World, l: Loc): multiset<Frame> {
      if Ent(g, l).p then One(g, Ent(g, l).addr) else multiset{}
    }

    /** Overwrite a leaf entry of a last-level table. */
    method SetLeaf(pt: Frame, i: nat, e: Word, ghost l: Loc)
      requires Valid() && Settled(g)
      requires l.key in g.at && g.at[l.key] == pt && l.idx == i && IsLeaf(l) && i < ENTRIES
      requires e.p && !e.ps && !e.cow && MayMap(g, l, e)
      modifies this`mem, this`g
      ensures Valid() && Settled(g)
      ensures Ent(g, l) == e && OnlyLeaf(old(g), g, l) && g.at == old(g.at) && g.refs == old(g.refs)
      ensures g.held == old(g.held) + Displaced(old(g), l) - One(g, e.addr)
    {
      hide Inv, Settled, FrameAllocator.Valid, FramebufferApart, OnlyLeaf, MayMap, ReachOk, ManagedFrames, LeafReplaced;
      hide Ent;
      InvFacts(g);
      ReplaceKeeps(g, l, e);
      ReplacedHeld(g, l, e);
      mem := mem[pt := mem[pt][i := e]];
      g := LeafReplaced(g, l, e);
    }

    /** vmm_user_map: the caller holds the reference to a managed page that the entry takes over. */
    method Map(virt: nat, phys: Frame, flags: Flags) returns (ok: bool)
      requires Valid() && Settled(g)
      requires userValid ==> Key(user, []) in g.at
      requires MayMap(g, LocOf(user, virt), LeafWord(phys, flags))
      modifies pmm`next, pmm`inUse, pmm`refs, pmm`freePages, this`mem, this`g
      ensures Valid() && Settled(g)
      ensures ok ==> userValid && virt < USER_TOP && virt % PAGE_SIZE == 0
      ensures Covers(pmm.hhdm) ==> (ok <==> userValid && CanMap(old(g), user, virt, 0))
      ensures ok ==> Ent(g, LocOf(user, virt)) == LeafWord(phys, flags) && OnlyLeaf(old(g), g, LocOf(user, virt))
      ensures ok ==> EntryFor(Ent(g, LocOf(user, virt)), phys, flags)
      ensures ok ==> g.held == old(g.held) + Displaced(old(g), LocOf(user, virt)) - One(g, phys)
      ensures ok ==> FlatUpdate(old(g), g, user, virt, Some(LeafWord(phys, flags)))
      ensures !ok ==> Grown(old(g), g) && FlatSame(old(g), g)
      ensures g.man == old(g.man) && forall r :: Key(r, []) in g.at <==> Key(r, []) in old(g.at)
    {
      hide Inv, Settled, FrameAllocator.Valid, FramebufferApart, Grown, OnlyLeaf, Ent, One, ManagedFrames, ReachOk;
      hide Covers, FreePages, FlatUpdate, FlatSame, MayMap;
      if !userValid || virt >= USER_TOP || virt % PAGE_SIZE != 0 {
        GrownReflexive(g);
        FlatGrown(g, g);
        return false;
      }
      var pt := EnsurePath(virt);
      GrownSame(old(g), g);
      if pt == 0 {
        FlatGrown(old(g), g);
        return false;
      }
      ghost var l := LocOf(user, virt);
      ghost var g1 := g;
      GrownMayMap(old(g), g1, l, LeafWord(phys, flags));
      SetLeaf(pt, virt / 0x1000 % 512, LeafWord(phys, flags), l);
      GrownThenLeaf(old(g), g1, g, l);
      FlatMapUpdate(old(g), g, user, virt);
      return true;
    }

    /** A fresh page with given contents at an unmapped address, as task_lazy_page_fault maps it. */
    method MapFresh(virt: nat, page: Page, flags: Flags) returns (ok: bool)
      requires Valid() && Settled(g) && |page| == ENTRIES && userValid && Key(user, []) in g.at
      requires virt < USER_TOP ==> !Ent(g, LocOf(user, virt)).p
      modifies pmm`next, pmm`inUse, pmm`refs, pmm`freePages, this`mem, this`g
      ensures Valid() && Settled(g) && g.held == old(g.held) && g.man == old(g.man)
      ensures forall r :: Key(r, []) in g.at <==> Key(r, []) in old(g.at)
      ensures SeesSameBut(old(g), g, LocOf(user, virt)) && (ok ==> virt < USER_TOP)
      ensures Sees(g, LocOf(user, virt)) ==
              if ok then Memory(page, UserRights(flags)) else Sees(old(g), LocOf(user, virt))
      ensures ok ==> virt % PAGE_SIZE == 0 && Ent(g, LocOf(user, virt)).addr in g.man
      ensures ok ==> EntryFor(Ent(g, LocOf(user, virt)), Ent(g, LocOf(user, virt)).addr, flags)
      ensures Covers(pmm.hhdm) ==> (ok <==> CanMap(old(g), user, virt, 1))
    {
      hide Inv, Settled, FrameAllocator.Valid, FramebufferApart, Grown, OnlyLeaf, SeesSameBut, Sees, LocOf;
      ghost var l := LocOf(user, virt);
      SeesSelf(g, l);
      InvFacts(g);
      var phys := FreshPage(page);
      if phys == 0 {
        return false;
      }
      PreparedFacts(old(g), phys, page);
      PreparedCan(old(g), phys, page, user, virt);
      ok := MapPrepared(virt, phys, page, flags, old(g));
    }

    /** The mapping of a prepared page, undone if it fails. */
    method MapPrepared(virt: nat, phys: Frame, page: Page, flags: Flags, ghost g0: World) returns (ok: bool)
      requires Valid() && Settled(g) && Quiet(g0) && |page| == ENTRIES && userValid && Key(user, []) in g.at
      requires phys in g0.man && phys < |g0.refs| && phys < |g0.mem| && g0.refs[phys] == 0
      requires g == Prepared(g0, phys, page)
      requires virt < USER_TOP ==> !Ent(g, LocOf(user, virt)).p
      modifies pmm`next, pmm`inUse, pmm`refs, pmm`freePages, this`mem, this`g
      ensures Valid() && Settled(g) && g.held == g0.held && g.man == g0.man
      ensures forall r :: Key(r, []) in g.at <==> Key(r, []) in g0.at
      ensures SeesSameBut(g0, g, LocOf(user, virt)) && (ok ==> virt < USER_TOP)
      ensures Sees(g, LocOf(user, virt)) == if ok then Memory(page, UserRights(flags)) else Sees(g0, LocOf(user, virt))
      ensures Covers(pmm.hhdm) ==> (ok <==> CanMap(old(g), user, virt, 0))
      ensures ok ==> virt % PAGE_SIZE == 0 && EntryFor(Ent(g, LocOf(user, virt)), phys, flags) && phys in g.man
    {
      hide Inv, Settled, FrameAllocator.Valid, FramebufferApart, Grown, OnlyLeaf, SeesSameBut, Sees, LocOf, Prepared;
      hide CanMap;
      ghost var l := LocOf(user, virt);
      PreparedHeld(g0, phys, page);
      LocLeaf(user, virt);
      MayMapFresh(g, LocOf(user, virt), LeafWord(phys, flags));
      ok := Map(virt, phys, flags);
      if ok {
        PreparedMapped(g0, phys, page, g, l);
        assert g.held == g0.held;
      } else {
        PreparedDropped(g0, phys, page, g, l);
        DropPage(phys);
      }
    }

    /** vmm_user_unmap and pmm_free_page, as sys_munmap does for each page. */
    method UnmapFree(virt: nat) returns (ok: bool)
      requires Valid() && Settled(g)
      requires userValid ==> Key(user, []) in g.at
      modifies pmm`inUse, pmm`refs, pmm`freePages, this`mem, this`g
      ensures Valid() && Settled(g) && g.held == old(g.held) && g.at == old(g.at)
      ensures ok <==> userValid && virt < USER_TOP && virt % PAGE_SIZE == 0 && Ent(old(g), LocOf(user, virt)).p
      ensures !ok ==> g == old(g)
      ensures ok ==> SeesSameBut(old(g), g, LocOf(user, virt)) && Sees(g, LocOf(user, virt)) == Unmapped
    {
      hide Inv, Settled, FrameAllocator.Valid, FramebufferApart, OnlyLeaf, SeesSameBut;
      var phys;
      ok, phys := Unmap(virt);
      if ok {
        ghost var g1 := g;
        ghost var l := LocOf(user, virt);
        OnlyLeafSeen(old(g), g1, l);
        InvFacts(g1);
        if phys != 0 {
          DropPage(phys);
        }
        if phys in g.man {
          ReleasedSettled(g1, phys);
          ReleasedSights(g1, phys);
          ReleasedSeen(old(g), g1, g, l);
        }
        assert g.held == old(g.held);
      }
    }

    /** vmm_cr3_translate_direct, and vmm_user_translate with the active space */
    method Translate(cr3: Frame, va: nat) returns (ok: bool, pte: Word)
      requires Valid() && Settled(g)
      requires cr3 == 0 || Key(cr3, []) in g.at
      ensures ok <==> va < USER_TOP && Ent(g, LocOf(cr3, va)).p
      ensures ok ==> pte == Ent(g, LocOf(cr3, va))
    {
      hide Inv, Settled, FrameAllocator.Valid, FramebufferApart;
      InvFacts(g);
      if va >= USER_TOP {
        return false, ZERO;
      }
      UserPath(va);
      var pt;
      ok, pt := Walk(cr3, va);
      if !ok {
        return false, ZERO;
      }
      pte := mem[pt][va / 0x1000 % 512];
      ok := pte.p;
    }

    /** vmm_user_unmap: the caller gets the reference the entry had. */
    method Unmap(virt: nat) returns (ok: bool, phys: Frame)
      requires Valid() && Settled(g)
      requires userValid ==> Key(user, []) in g.at
      modifies this`mem, this`g
      ensures Valid() && Settled(g)
      ensures ok <==> userValid && virt < USER_TOP && virt % PAGE_SIZE == 0 && Ent(old(g), LocOf(user, virt)).p
      ensures !ok ==> g == old(g) && phys == 0
      ensures ok ==> phys == Ent(old(g), LocOf(user, virt)).addr
      ensures ok ==> Ent(g, LocOf(user, virt)) == ZERO && OnlyLeaf(old(g), g, LocOf(user, virt))
      ensures ok ==> g.held == old(g.held) + One(g, phys) && g.at == old(g.at)
      ensures ok ==> FlatUpdate(old(g), g, user, virt, None)
    {
      hide Inv, Settled, FrameAllocator.Valid, FramebufferApart, OnlyLeaf, FlatUpdate;
      InvFacts(g);
      ok, phys := false, 0;
      if !userValid || virt >= USER_TOP || virt % PAGE_SIZE != 0 {
        return;
      }
      UserPath(virt);
      var pt;
      ok, pt := Walk(user, virt);
      if !ok {
        return;
      }
      var i := virt / 0x1000 % 512;
      ok := mem[pt][i].p;
      if !ok {
        return;
      }
      phys := mem[pt][i].addr;
      ghost var l := LocOf(user, virt);
      SettledOwns(g, l);
      ClearKeeps(g, l);
      mem := mem[pt := mem[pt][i := ZERO]];
      g := LeafCleared(g, l);
      FlatMapUpdate(old(g), g, user, virt);
    }

    /** The entry vmm_user_cow_fault stores for a private copy. */
    function CopyWord(pte: Word, np: Frame): Word {
      pte.(addr := np, p := true, u := true, w := true, cow := false, high := 0)
    }

    /** The mark is gone; execution, caching and software bits stay. */
    predicate OtherBits(was: Word, e: Word) {
      !e.cow && e.nx == was.nx && e.pwt == was.pwt && e.pcd == was.pcd && e.ps == was.ps && e.low == was.low
    }

    /** A fresh page with the contents of `src`; 0 when there is none. */
    method CopyPage(src: Frame) returns (np: Frame)
      requires Valid() && Settled(g) && src < |mem|
      modifies pmm`next, pmm`inUse, pmm`refs, pmm`freePages, this`mem, this`g
      ensures Valid()
      ensures np == 0 ==> g == old(g) && (Covers(pmm.hhdm) && src != 0 ==> FreePages(g) == {})
      ensures np != 0 ==> FreePages(old(g)) != {} && Mappable(pmm.hhdm, np)
      ensures np != 0 ==> np in g.man && old(g.refs[np]) == 0 && g == Prepared(old(g), np, old(mem[src]))
    {
      hide Inv, Settled, FrameAllocator.Valid, FramebufferApart;
      InvFacts(g);
      np := TakePage();
      if np == 0 {
        return;
      }
      if !Mappable(pmm.hhdm, src) || !Mappable(pmm.hhdm, np) {
        AllocReleased(old(g), np);
        DropPage(np);
        return 0;
      }
      Fill(np, mem[src]);
    }

    /** The copying half of vmm_user_cow_fault. */
    method CowCopy(pt: Frame, i: nat, pte: Word, ghost l: Loc) returns (ok: bool)
      requires Valid() && Settled(g)
      requires l.key in g.at && g.at[l.key] == pt && l.idx == i && IsLeaf(l) && i < ENTRIES
      requires Ent(g, l) == pte && pte.p && pte.u && pte.cow && pte.addr in g.man
      modifies pmm`next, pmm`inUse, pmm`refs, pmm`freePages, this`mem, this`g
      ensures Valid() && Settled(g)
      ensures !ok ==> g == old(g) && (Covers(pmm.hhdm) ==> FreePages(g) == {})
      ensures ok ==> OnlyLeaf(old(g), g, l) && g.held == old(g.held) && g.at == old(g.at) && FreePages(old(g)) != {}
      ensures ok ==>
                Ent(g, l).p && Ent(g, l).w && Ent(g, l).u && Sees(g, l) == Sees(old(g), l) && Ent(g, l).addr in g.man
      ensures ok ==> OtherBits(pte, Ent(g, l))
    {
      hide Inv, Settled, FrameAllocator.Valid, FramebufferApart, OnlyLeaf, Sees, Mappable;
      InvFacts(g);
      SettledOwns(g, l);
      OwnedFacts(g, l);
      var np := CopyPage(pte.addr);
      if np == 0 {
        return false;
      }
      ghost var page := old(mem[pte.addr]);
      PreparedFacts(old(g), np, page);
      MayMapFresh(g, l, CopyWord(pte, np));
      SetLeaf(pt, i, CopyWord(pte, np), l);
      ghost var g3 := g;
      DropPage(pte.addr);
      ReleasedSettled(g3, pte.addr);
      CopyDone(old(g), g3, l, CopyWord(pte, np), page);
      return true;
    }

    /** The promoting half of vmm_user_cow_fault: the page has no other user any more. */
    method CowPromote(pt: Frame, i: nat, pte: Word, ghost l: Loc)
      requires Valid() && Settled(g)
      requires l.key in g.at && g.at[l.key] == pt && l.idx == i && IsLeaf(l) && i < ENTRIES
      requires Ent(g, l) == pte && pte.p && pte.u && pte.cow && pte.addr in g.man && g.refs[pte.addr] == 1
      modifies this`mem, this`g
      ensures Valid() && Settled(g)
      ensures OnlyLeaf(old(g), g, l) && g.held == old(g.held) && g.at == old(g.at)
      ensures Ent(g, l).p && Ent(g, l).w && Ent(g, l).u && Sees(g, l) == Sees(old(g), l) && Ent(g, l).addr in g.man
      ensures OtherBits(pte, Ent(g, l))
    {
      hide Inv, Settled, FrameAllocator.Valid, FramebufferApart, OnlyLeaf;
      InvFacts(g);
      SettledOwns(g, l);
      OwnedFacts(g, l);
      MappedIsNoTable(g, l);
      var e := pte.(w := true, cow := false);
      RemapKeeps(g, l, e);
      RemapSeen(g, l, e);
      ReplacedHeld(g, l, e);
      mem := mem[pt := mem[pt][i := e]];
      g := LeafReplaced(g, l, e);
    }

    /** vmm_user_cow_fault */
    method CowFault(cr3: Frame, virt: nat) returns (ok: bool)
      requires Valid() && Settled(g)
      requires cr3 == 0 || Key(cr3, []) in g.at
      modifies pmm`next, pmm`inUse, pmm`refs, pmm`freePages, this`mem, this`g
      ensures Valid() && Settled(g)
      ensures !ok ==> g == old(g)
      ensures ok ==> OnlyLeaf(old(g), g, LocOf(cr3, virt)) && g.held == old(g.held) && g.at == old(g.at)
      ensures ok ==> Ent(g, LocOf(cr3, virt)).p && Ent(g, LocOf(cr3, virt)).w && Ent(g, LocOf(cr3, virt)).u
      ensures ok ==>
                Sees(g, LocOf(cr3, virt)) == Sees(old(g), LocOf(cr3, virt)) && Ent(g, LocOf(cr3, virt)).addr in g.man
      ensures ok ==> virt < USER_TOP && Ent(old(g), LocOf(cr3, virt)).cow
      ensures ok ==> var e, was := Ent(g, LocOf(cr3, virt)), Ent(old(g), LocOf(cr3, virt));
                     OtherBits(was, e)
      ensures ok ==> Resolvable(old(g), Ent(old(g), LocOf(cr3, virt)))
      ensures Covers(pmm.hhdm) ==> (ok <==> virt < USER_TOP && Resolvable(old(g), Ent(old(g), LocOf(cr3, virt))))
    {
      hide Inv, Settled, FrameAllocator.Valid, FramebufferApart, OnlyLeaf;
      InvFacts(g);
      if virt >= USER_TOP {
        return false;
      }
      UserPath(virt);
      var pt;
      ok, pt := Walk(cr3, virt);
      if !ok {
        return;
      }
      var i := virt / 0x1000 % 512;
      var pte := mem[pt][i];
      if !pte.p || !pte.u || !pte.cow || pte.w {
        return false;
      }
      ghost var l := LocOf(cr3, virt);
      SettledOwns(g, l);
      OwnedFacts(g, l);
      var refs := pmm.RefCount(pte.addr);
      if refs == 1 {
        CowPromote(pt, i, pte, l);
        return true;
      }
      ok := CowCopy(pt, i, pte, l);
    }

    /**
     vmm_user_protect. A copy-on-write page is made private before it becomes writable; one that is shared
     without the mark is not, and then, and only then, a shared page ends up writable.
     */
    method Protect(virt: nat, flags: Flags) returns (ok: bool)
      requires Valid() && Settled(g)
      requires userValid ==> Key(user, []) in g.at
      modifies pmm`next, pmm`inUse, pmm`refs, pmm`freePages, this`mem, this`g
      ensures !ok ==> g == old(g)
      ensures ok ==> userValid && virt < USER_TOP && virt % PAGE_SIZE == 0 && Ent(old(g), LocOf(user, virt)).p
      ensures Covers(pmm.hhdm) ==> (ok <==>
                && userValid && virt < USER_TOP && virt % PAGE_SIZE == 0 && Ent(old(g), LocOf(user, virt)).p
                && (flags.w && Ent(old(g), LocOf(user, virt)).cow ==>
                      Resolvable(old(g), Ent(old(g), LocOf(user, virt)))))
      ensures ok ==> EntryFor(Ent(g, LocOf(user, virt)), Ent(g, LocOf(user, virt)).addr, flags)
      ensures ok && !(flags.w && Ent(old(g), LocOf(user, virt)).cow) ==>
                Ent(g, LocOf(user, virt)).addr == Ent(old(g), LocOf(user, virt)).addr && g.refs == old(g.refs)
      ensures OnlyLeaf(old(g), g, LocOf(user, virt)) && g.held == old(g.held) && g.at == old(g.at)
      ensures Sees(g, LocOf(user, virt)) ==
              if ok
              then WithRights(Sees(old(g), LocOf(user, virt)), UserRights(flags))
              else Sees(old(g), LocOf(user, virt))
      ensures Valid() && Settled(g) <==> !(ok && Exposes(old(g), Ent(old(g), LocOf(user, virt)), flags.w))
    {
      hide Inv, Settled, FrameAllocator.Valid, FramebufferApart, OnlyLeaf, OnlyTables, Sees, Covers, Resolvable;
      hide ReachOk, ManagedFrames;
      ghost var l := LocOf(user, virt);
      OnlySelf(g, l);
      if !userValid || virt >= USER_TOP || virt % PAGE_SIZE != 0 {
        return false;
      }
      InvFacts(g);
      var pte;
      ok, pte := Translate(user, virt);
      if !ok {
        return;
      }
      if flags.w && pte.cow {
        ok := CowFault(user, virt);
        if !ok {
          return;
        }
        ok, pte := Translate(user, virt);
        if !ok {
          return;
        }
        SettledOwns(g, l);
        OwnedFacts(g, l);
      }
      var pt;
      ok, pt := Walk(user, virt);
      ghost var g1 := g;
      Reprotect(pt, virt / 0x1000 % 512, LeafWord(pte.addr, flags), l);
      OnlyMore(old(g), g1, g, l);
    }

    /** Overwrite a leaf entry with another one for the same page. */
    method Reprotect(pt: Frame, i: nat, e: Word, ghost l: Loc)
      requires Valid() && Settled(g)
      requires l.key in g.at && g.at[l.key] == pt && l.idx == i && IsLeaf(l) && i < ENTRIES
      requires e.p && !e.ps && !e.cow && Ent(g, l).p && e.addr == Ent(g, l).addr
      modifies this`mem, this`g
      ensures Valid() && Settled(g) <==> (e.addr in g.man && e.w ==> e.addr < |old(g).refs| && old(g).refs[e.addr] == 1)
      ensures Ent(g, l) == e && OnlyLeaf(old(g), g, l) && Sees(g, l) == WithRights(Sees(old(g), l), RightsOf(e))
      ensures g.at == old(g.at) && g.refs == old(g.refs) && g.held == old(g.held) && OnlyTables(old(g), g)
    {
      hide Inv, Settled, FrameAllocator.Valid, FramebufferApart, OnlyLeaf, ReachOk, ManagedFrames, LeafReplaced, Sees;
      InvFacts(g);
      SettledOwns(g, l);
      RemapExactly(g, l, e);
      RemapSeen(g, l, e);
      ReplacedHeld(g, l, e);
      mem := mem[pt := mem[pt][i := e]];
      g := LeafReplaced(g, l, e);
    }

    // ----- Fork -----

    /** The loop of destroy_clone_level and destroy_clone_root over the entries of a table. */
    method DestroyCloneEntries(t: Frame, level: nat, ghost k: Key)
      requires Valid() && 2 <= level <= 4 && |k.path| == 4 - level
      requires Throwaway(g, k) && g.at[k] == t
      modifies pmm`inUse, pmm`refs, pmm`freePages, this`g
      ensures Valid() && Pruned(old(g), g, k, Fan(k))
      decreases level, 0
    {
      hide Inv, FrameAllocator.Valid, FramebufferApart, Throwaway, Pruned;
      ghost var g0 := g;
      PrunedNone(g, k);
      InvFacts(g);
      ThrowawayRoot(g, k);
      var n := if level == 4 then 256 else 512;
      var i := 0;
      while i < n
        invariant 0 <= i <= n == Fan(k)
        invariant Valid() && Pruned(g0, g, k, i)
      {
        var e := mem[t][i];
        assert e == Ent(g0, Loc(k, i));
        if !e.p || e.ps {
          PsAbsent(g0, k, i);
          PruneAbsent(g0, g, k, i);
        } else {
          ghost var g1 := g;
          CutReady(g0, g, k, i);
          g := LinkCut(g, Loc(k, i));
          DestroyCloneLevel(e.addr, level - 1, Kid(k, i));
          KidNoTop(g0, k, i);
          PrunePresent(g0, g1, g, k, i);
        }
        i := i + 1;
      }
    }

    /** destroy_clone_level */
    method DestroyCloneLevel(t: Frame, level: nat, ghost k: Key)
      requires Valid() && 1 <= level <= 3 && |k.path| == 4 - level
      requires Throwaway(g, k) && g.at[k] == t
      modifies pmm`inUse, pmm`refs, pmm`freePages, this`g
      ensures Valid() && Uprooted(old(g), g, k)
      decreases level, 1
    {
      hide Inv, FrameAllocator.Valid, FramebufferApart, Throwaway, Pruned, Uprooted;
      ghost var g0 := g;
      if level > 1 {
        DestroyCloneEntries(t, level, k);
      } else {
        PruneLeafTable(g, k);
      }
      PruneAll(g0, g, k);
      PrunedFrame(g0, g, k, Fan(k));
      ReachFewer(pmm.hhdm, g.at, g.at - {k});
      g := TableRemoved(g, k);
      InvFacts(g);
      DropPage(t);
    }

    /** destroy_clone_root */
    method DestroyCloneRoot(root: Frame)
      requires Valid() && Throwaway(g, Key(root, [])) && g.at[Key(root, [])] == root
      modifies pmm`inUse, pmm`refs, pmm`freePages, this`g
      ensures Valid() && Uprooted(old(g), g, Key(root, []))
    {
      hide Inv, FrameAllocator.Valid, FramebufferApart, Throwaway, Pruned, Uprooted;
      ghost var g0 := g;
      ghost var k := Key(root, []);
      DestroyCloneEntries(root, 4, k);
      PruneAll(g0, g, k);
      PrunedFrame(g0, g, k, Fan(k));
      ReachFewer(pmm.hhdm, g.at, g.at - {k});
      g := TableRemoved(g, k);
      InvFacts(g);
      DropPage(root);
    }

    /** The loop of clone_user_tables and vmm_user_space_clone over the entries of a table. */
    method CloneEntries(src: Frame, dst: Frame, level: nat, ghost sk: Key, ghost dk: Key, ghost g0: World)
      returns (ok: bool, err: int, ghost i: nat)
      requires Valid() && Inv(g0) && 1 <= level <= 4 && |sk.path| == 4 - level
      requires Source(g0, sk) && Room(g0, sk, dk) && Cloned(g0, g, sk, dk, 0)
      requires sk in g0.at && g0.at[sk] == src && dk in g.at && g.at[dk] == dst
      modifies pmm`next, pmm`inUse, pmm`refs, pmm`freePages, this`mem, this`g
      ensures Valid() && Cloned(g0, g, sk, dk, i) && dk in g.at && g.at[dk] == dst
      ensures if ok then i == Fan(sk) && err == 0 else err != 0
      ensures !ok && Covers(pmm.hhdm) ==> |FreePages(g)| < |TablesUnder(g0, Kid(sk, i))|
      ensures level == 4 ==> dst < |old(mem)| && dst < |mem| && KernelHalf(old(mem)[dst], mem[dst])
      decreases level, 1
    {
      hide Inv, FrameAllocator.Valid, FramebufferApart, Source, Room, Cloned, KernelHalf, ButEntry, FreePages;
      hide TablesUnder, Covers, ReachOk, ManagedFrames;
      ok, err := true, 0;
      ClonedFacts(g0, g, sk, dk, 0);
      InvFacts(g);
      KernelHalfSelf(mem[dst]);
      var n := if level == 4 then 256 else 512;
      var j := 0;
      while j < n
        invariant 0 <= j <= n == Fan(sk)
        invariant Valid() && Cloned(g0, g, sk, dk, j)
        invariant ok && err == 0 && dk in g.at && g.at[dk] == dst
        invariant level == 4 ==> dst < |old(mem)| && dst < |mem| && KernelHalf(old(mem)[dst], mem[dst])
      {
        InvFacts(g);
        ClonedFacts(g0, g, sk, dk, j);
        ghost var page := mem[dst];
        var e := mem[src][j];
        assert e == Ent(g0, Loc(sk, j));
        if !e.p {
          CloneAbsent(g0, g, sk, dk, j);
        } else if level == 1 && !e.ps {
          CloneLeaf(g0, g, sk, dk, j);
          mem := mem[dst := mem[dst][j := e]];
          g := Store(g, Loc(dk, j), e);
        } else {
          var np;
          np, err := CloneBelow(e, level, dst, j, sk, dk, g0);
          if level == 4 {
            KernelHalfKept(old(mem)[dst], page, mem[dst], j);
          }
          if np == 0 {
            return false, err, j;
          }
        }
        j := j + 1;
      }
      i := j;
    }

    /** One entry of the loop: clone the table below it and store the link. */
    method CloneBelow(e: Word, level: nat, dst: Frame, j: nat, ghost sk: Key, ghost dk: Key, ghost g0: World)
      returns (np: Frame, err: int)
      requires Valid() && Inv(g0) && 1 <= level <= 4 && |sk.path| == 4 - level && j < Fan(sk)
      requires Source(g0, sk) && Room(g0, sk, dk) && Cloned(g0, g, sk, dk, j)
      requires dk in g.at && g.at[dk] == dst && e == Ent(g0, Loc(sk, j)) && e.p && (level == 1 ==> e.ps)
      modifies pmm`next, pmm`inUse, pmm`refs, pmm`freePages, this`mem, this`g
      ensures Valid() && dk in g.at && g.at[dk] == dst
      ensures dst < |old(mem)| && dst < |mem| && ButEntry(old(mem)[dst], mem[dst], j)
      ensures np == 0 ==> err != 0 && Cloned(g0, g, sk, dk, j)
      ensures np == 0 && Covers(pmm.hhdm) ==> |FreePages(g)| < |TablesUnder(g0, Kid(sk, j))|
      ensures np != 0 ==> err == 0 && Cloned(g0, g, sk, dk, j + 1)
      decreases level, 0
    {
      hide Inv, FrameAllocator.Valid, FramebufferApart, Source, Room, Cloned, FreePages, TablesUnder, Covers, ReachOk;
      hide ManagedFrames;
      np, err := 0, -2;
      InvFacts(g);
      if e.ps {
        PsStarved(g0, sk, j, |FreePages(g)|);
        return;
      }
      ghost var g1 := g;
      SameTree(g0, g, sk, dk, j, Kid(sk, j));
      CloneDown(g0, g, sk, dk, j);
      np, err := CloneTables(e.addr, level - 1, Kid(sk, j), Kid(dk, j));
      if np == 0 {
        UndoneCloned(g0, g1, g, sk, dk, j);
        UndoneLive(g1, g);
        LiveTableSame(g1, g, dk);
        UndoneFree(g1, g);
        UndoneAt(g1, g);
        return;
      }
      CloneTree(g0, g1, g, sk, dk, j);
      ClonedLive(g1, g, Kid(sk, j), Kid(dk, j), ENTRIES);
      LiveTableSame(g1, g, dk);
      ClonedFacts(g1, g, Kid(sk, j), Kid(dk, j), ENTRIES);
      InvFacts(g);
      mem := mem[dst := mem[dst][j := e.(addr := np)]];
      g := LinkMade(g, Loc(dk, j), e.(addr := np));
    }

    /** clone_user_tables */
    method CloneTables(src: Frame, level: nat, ghost sk: Key, ghost dk: Key) returns (dst: Frame, err: int)
      requires Valid() && 1 <= level <= 3 && |sk.path| == 4 - level
      requires Source(g, sk) && Room(g, sk, dk) && GoodKey(dk) && sk in g.at && g.at[sk] == src
      modifies pmm`next, pmm`inUse, pmm`refs, pmm`freePages, this`mem, this`g
      ensures Valid()
      ensures dst == 0 ==> err != 0 && Undone(old(g), g)
      ensures dst == 0 && Covers(pmm.hhdm) ==> |FreePages(old(g))| < |TablesUnder(old(g), sk)|
      ensures dst != 0 ==> err == 0 && Cloned(old(g), g, sk, dk, ENTRIES) && dk in g.at && g.at[dk] == dst
      decreases level, 2
    {
      hide Inv, FrameAllocator.Valid, FramebufferApart, Source, Cloned, Throwaway, Uprooted, Undone;
      ghost var g0 := g;
      UndoneSelf(g);
      OneTable(g, sk);
      dst := MakeTable(dk);
      if dst == 0 {
        return 0, -1;
      }
      CloneStart(g0, sk, dk, dst, ZeroPage());
      var ok;
      ghost var i;
      ok, err, i := CloneEntries(src, dst, level, sk, dk, g0);
      if !ok {
        if Covers(pmm.hhdm) {
          CloneStarved(g0, g, sk, dk, i);
        }
        ClonedThrowaway(g0, g, sk, dk, i);
        ghost var g1 := g;
        DestroyCloneLevel(dst, level, dk);
        UprootedUndone(g0, g1, g, sk, dk, i);
        return 0, err;
      }
    }

    /** pmm_retain_page and, if it worked, pmm_free_page: nothing changes. */
    method Probe(f: Frame) returns (ok: bool)
      requires pmm.Valid()
      modifies pmm`inUse, pmm`refs, pmm`freePages
      ensures pmm.Valid()
      ensures pmm.refs == old(pmm.refs) && pmm.inUse == old(pmm.inUse) && pmm.freePages == old(pmm.freePages)
      ensures ok <==> pmm.Managed(f) && 0 < pmm.refs[f] < REFS_MAX
    {
      ok := pmm.Retain(f);
      if ok {
        pmm.Free(f);
        assert pmm.refs == old(pmm.refs);
      }
    }

    /** preflight_fork_pages, and the same loop over the root in vmm_user_space_clone */
    method Preflight(src: Frame, level: nat, ghost sk: Key) returns (ok: bool)
      requires Valid() && 1 <= level <= 4 && |sk.path| == 4 - level
      requires Source(g, sk) && sk in g.at && g.at[sk] == src
      modifies pmm`inUse, pmm`refs, pmm`freePages
      ensures Valid()
      ensures pmm.refs == old(pmm.refs) && pmm.inUse == old(pmm.inUse) && pmm.freePages == old(pmm.freePages)
      ensures ok <==> AllForkable(g, pmm.reserved, sk, Fan(sk))
      decreases level
    {
      hide Inv, FrameAllocator.Valid, FramebufferApart, Source, AllForkable;
      InvFacts(g);
      ForkableNone(g, pmm.reserved, sk);
      var n := if level == 4 then 256 else 512;
      var i := 0;
      while i < n
        invariant 0 <= i <= n == Fan(sk)
        invariant Valid() && AllForkable(g, pmm.reserved, sk, i)
        invariant pmm.refs == old(pmm.refs) && pmm.inUse == old(pmm.inUse) && pmm.freePages == old(pmm.freePages)
      {
        var e := mem[src][i];
        if !e.p {
          ForkableAbsent(g, pmm.reserved, sk, i);
        } else if level == 1 {
          ForkableLeaf(g, pmm.reserved, sk, i);
          SourceOwns(g, sk, i);
          OwnedFacts(g, Loc(sk, i));
          if e.addr == 0 {
            return false;
          }
          var res := pmm.IsReserved(e.addr);
          if !res {
            ok := Probe(e.addr);
            if !ok {
              return;
            }
          }
        } else {
          ForkableTree(g, pmm.reserved, sk, i);
          ok := Preflight(e.addr, level - 1, Kid(sk, i));
          if !ok {
            return;
          }
        }
        i := i + 1;
      }
      ok := true;
    }

    /** The leaf case of apply_fork_cow. */
    method ShareEntry(st: Frame, dt: Frame, i: nat, ghost sk: Key, ghost dk: Key, ghost g0: World) returns (ok: bool)
      requires Valid() && Inv(g0) && |sk.path| == 3 && i < ENTRIES
      requires Shareable(g0, pmm.reserved, sk, dk) && Shared(g0, g, sk, dk, i) && PairOk(g, sk.root, dk.root)
      requires sk in g.at && g.at[sk] == st && dk in g.at && g.at[dk] == dt && Ent(g0, Loc(sk, i)).p
      requires Forkable(g, pmm.reserved, Ent(g0, Loc(sk, i)))
      modifies pmm`refs, this`mem, this`g
      ensures Valid() && Shared(g0, g, sk, dk, i + 1) && PairOk(g, sk.root, dk.root) && UpperSame(old(g), g)
      ensures ok
    {
      hide Inv, FrameAllocator.Valid, FramebufferApart, Shareable, Shared, PairOk, LeafShared, ManagedFrames, ReachOk;
      hide UpperSame;
      InvFacts(g);
      ReservedApart(pmm.regions, pmm.reserved);
      ghost var sl, dl := Loc(sk, i), Loc(dk, i);
      ShareLeaf(g0, pmm.reserved, g, sk, dk, i);
      LeafSharedIs(g, sl, dl);
      OwnedFacts(g, sl);
      var e := mem[st][i];
      ok := e.addr != 0;
      var res := pmm.IsReserved(e.addr);
      ghost var h := LeafShared(g, sl, dl);
      if ok && res {
        mem := mem[dt := mem[dt][i := e]];
        assert mem == h.mem;
      } else if ok {
        ok := pmm.Retain(e.addr);
        if ok && e.w {
          var cow := e.(w := false, cow := true);
          mem := mem[st := mem[st][i := cow]];
          mem := mem[dt := mem[dt][i := cow]];
          assert mem == h.mem;
        } else if ok {
          mem := mem[dt := mem[dt][i := e]];
          assert mem == h.mem;
        }
      }
      g := h;
    }

    /** apply_fork_cow, and the same loop over the root in vmm_user_space_clone */
    method ApplyCow(st: Frame, dt: Frame, level: nat, ghost sk: Key, ghost dk: Key) returns (ok: bool)
      requires Valid() && 1 <= level <= 4 && |sk.path| == 4 - level
      requires Shareable(g, pmm.reserved, sk, dk) && PairOk(g, sk.root, dk.root)
      requires sk in g.at && g.at[sk] == st && dk in g.at && g.at[dk] == dt
      modifies pmm`refs, this`mem, this`g
      ensures Valid() && Shared(old(g), g, sk, dk, Fan(sk)) && PairOk(g, sk.root, dk.root) && UpperSame(old(g), g)
      ensures ok
      decreases level
    {
      hide Inv, FrameAllocator.Valid, FramebufferApart, Shareable, Shared, PairOk, UpperSame, ManagedFrames, ReachOk;
      ghost var g0 := g;
      UpperSelf(g);
      SharedNone(g, sk, dk);
      var n := if level == 4 then 256 else 512;
      var i := 0;
      ok := true;
      while ok && i < n
        invariant 0 <= i <= n == Fan(sk) && ok
        invariant Valid() && Shared(g0, g, sk, dk, i) && PairOk(g, sk.root, dk.root) && g.at == g0.at
        invariant UpperSame(g0, g)
      {
        InvFacts(g);
        ghost var g1 := g;
        var e := mem[st][i];
        ShareEntryAt(g0, pmm.reserved, g, sk, dk, i);
        if !e.p {
          ShareAbsent(g0, pmm.reserved, g, sk, dk, i);
        } else if level == 1 {
          ShareForkable(g0, pmm.reserved, g, sk, dk, i);
          ok := ShareEntry(st, dt, i, sk, dk, g0);
          UpperTwice(g0, g1, g);
          SharedAt(g0, g, sk, dk, i + 1);
        } else {
          ShareDown(g0, pmm.reserved, g, sk, dk, i);
          var np := mem[dt][i].addr;
          ok := np != 0;
          if ok {
            ok := ApplyCow(e.addr, np, level - 1, Kid(sk, i), Kid(dk, i));
            UpperTwice(g0, g1, g);
          }
          ShareTree(g0, pmm.reserved, g1, g, sk, dk, i);
          SharedAt(g0, g, sk, dk, i + 1);
        }
        i := i + 1;
      }
    }

    /** The first half of vmm_user_space_clone: an empty root that shares the kernel half. */
    method NewRoot(src: Frame) returns (dst: Frame)
      requires Valid() && Settled(g) && Key(src, []) in g.at
      modifies pmm`next, pmm`inUse, pmm`refs, pmm`freePages, this`mem, this`g
      ensures Valid()
      ensures dst == 0 ==> g == old(g) && (Covers(pmm.hhdm) ==> FreePages(g) == {})
      ensures dst != 0 ==> Room(old(g), Key(src, []), Key(dst, [])) && Cloned(old(g), g, Key(src, []), Key(dst, []), 0)
      ensures dst != 0 ==> Key(dst, []) in g.at && g.at[Key(dst, [])] == dst && dst < |mem|
      ensures dst != 0 ==> src < |old(mem)| && KernelHalf(old(mem)[src], mem[dst])
    {
      hide Inv, FrameAllocator.Valid, FramebufferApart, Settled, Cloned, Room;
      InvFacts(g);
      RootCount(g, src);
      var page := ZeroPage()[..256] + mem[src][256..];
      dst := FreshPage(page);
      if dst == 0 {
        return;
      }
      ghost var sk, dk := Key(src, []), Key(dst, []);
      FreeIsNoRoot(old(g), src, dst);
      CloneStart(old(g), sk, dk, dst, page);
      ReachAdded(pmm.hhdm, g.at, dk, dst);
      g := TableAdded(g, dk, dst);
    }

    /** vmm_user_space_clone */
    method CloneSpace(src: Frame) returns (rc: int, dst: Frame)
      requires Valid() && Settled(g)
      requires src == 0 || Key(src, []) in g.at
      modifies pmm`next, pmm`inUse, pmm`refs, pmm`freePages, this`mem, this`g
      ensures Valid() && Settled(g)
      ensures rc != 0 ==> Undone(old(g), g) && pmm.freePages == old(pmm.freePages)
      ensures rc == 0 ==> src != 0 && Forked(old(g), g, src, dst) && CanFork(old(g), pmm.reserved, src)
      ensures rc == 0 ==> pmm.freePages + |TablesUnder(old(g), Key(src, []))| == old(pmm.freePages)
      ensures Covers(pmm.hhdm) && src != 0 && CanFork(old(g), pmm.reserved, src) ==> rc == 0
      ensures rc == 0 ==> src < |mem| && dst < |mem| && src < |old(mem)|
                          && KernelHalf(old(mem)[src], mem[src]) && KernelHalf(old(mem)[src], mem[dst])
    {
      hide Inv, FrameAllocator.Valid, FramebufferApart, Settled, Cloned, Room, Undone, Source, Shareable, Shared;
      hide Forked, Throwaway, Uprooted, AllForkable, PairOk, Covers, KernelHalf, UpperSame;
      UndoneSelf(g);
      FreeCount();
      if src == 0 {
        return -1, 0;
      }
      ghost var g0 := g;
      ghost var sk := Key(src, []);
      OneTable(g, sk);
      dst := NewRoot(src);
      ghost var gr := g;
      FreeCount();
      if dst == 0 {
        return -1, 0;
      }
      ghost var dk := Key(dst, []);
      RootCount(g0, src);
      QuietSource(g0, sk);
      var ok;
      ghost var i;
      ok, rc, i := CloneEntries(src, dst, 4, sk, dk, g0);
      ghost var g1 := g;
      if ok {
        ClonedSource(g0, g, sk, dk, i);
        ClonedFacts(g0, g, sk, dk, i);
        ClonedForkable(g0, pmm.reserved, g, sk, dk, i);
        CloneCost(g0, g, sk, dk);
        FreeCount();
        ok := Preflight(src, 4, sk);
        rc := if ok then 0 else -1;
      } else if Covers(pmm.hhdm) {
        CloneStarved(g0, g, sk, dk, i);
      }
      if !ok {
        ClonedThrowaway(g0, g, sk, dk, i);
        DestroyCloneRoot(dst);
        UprootedUndone(g0, g1, g, sk, dk, i);
        UndoneSettled(g0, g);
        UndoneFree(g0, g);
        FreeCount();
        return rc, 0;
      }
      ClonedShareable(g0, pmm.reserved, g, sk, dk);
      ok := ApplyCow(src, dst, 4, sk, dk);
      SharedAt(g1, g, sk, dk, 256);
      ForkDone(g0, pmm.reserved, g1, g, src, dst);
      ClonedLive(g0, g1, sk, dk, i);
      KernelDone(g0, gr, g1, g, src, dst);
      PublishKeeps(g, dst);
      g := Published(g, dst);
      return 0, dst;
    }

    // ----- Teardown -----

    /** destroy_user_level, and the same loop over the root in vmm_user_space_destroy */
    method DestroyEntries(t: Frame, level: nat, ghost k: Key)
      requires Valid() && 1 <= level <= 4 && |k.path| == 4 - level
      requires Source(g, k) && k in g.at && g.at[k] == t
      modifies pmm`inUse, pmm`refs, pmm`freePages, this`mem, this`g
      ensures Valid() && Erased(old(g), g, k, Fan(k))
      decreases level, 1
    {
      hide Inv, FrameAllocator.Valid, FramebufferApart, Source, Erased;
      ghost var g0 := g;
      ErasedNone(g, k);
      var n := if level == 4 then 256 else 512;
      var i := 0;
      while i < n
        invariant 0 <= i <= n == Fan(k)
        invariant Valid() && Erased(g0, g, k, i) && k in g.at && g.at[k] == t
      {
        InvFacts(g);
        ErasedAt(g0, g, k, i);
        var e := mem[t][i];
        if !e.p {
          EraseAbsent(g0, g, k, i);
        } else if level == 1 {
          DestroyPage(t, i, e.addr, k, g0);
        } else {
          DestroyTable(t, i, level, e.addr, k, g0);
        }
        i := i + 1;
      }
    }

    /** A present entry above the last level: empty its table, free it, clear the entry. */
    method DestroyTable(t: Frame, i: nat, level: nat, child: Frame, ghost k: Key, ghost g0: World)
      requires Valid() && Inv(g0) && 2 <= level <= 4 && |k.path| == 4 - level && i < Fan(k)
      requires Source(g0, k) && Erased(g0, g, k, i) && k in g.at && g.at[k] == t
      requires Ent(g0, Loc(k, i)).p && child == Ent(g0, Loc(k, i)).addr
      modifies pmm`inUse, pmm`refs, pmm`freePages, this`mem, this`g
      ensures Valid() && Erased(g0, g, k, i + 1) && k in g.at && g.at[k] == t
      decreases level, 0
    {
      hide Inv, FrameAllocator.Valid, FramebufferApart, Source, Erased;
      ghost var g1 := g;
      ghost var c := Kid(k, i);
      EraseDown(g0, g, k, i);
      g := LinkCut(g, Loc(k, i));
      DestroyEntries(child, level - 1, c);
      ghost var g2 := g;
      EraseTree(g0, g1, g2, k, i);
      EmptyTableKeeps(g2, k, i);
      ErasedFrame(LinkCut(g1, Loc(k, i)), g2, c, ENTRIES, c);
      ErasedFrame(LinkCut(g1, Loc(k, i)), g2, c, ENTRIES, k);
      ReachFewer(pmm.hhdm, g.at, g.at - {c});
      g := TableRemoved(g, c);
      DropPage(child);
      mem := mem[t := mem[t][i := ZERO]];
      g := Store(g, Loc(k, i), ZERO);
      assert g == TableErased(g2, k, i);
    }

    /** A present leaf entry: free its page unless it is the framebuffer's, clear the entry. */
    method DestroyPage(t: Frame, i: nat, page: Frame, ghost k: Key, ghost g0: World)
      requires Valid() && Inv(g0) && |k.path| == 3 && i < ENTRIES
      requires Source(g0, k) && Erased(g0, g, k, i) && k in g.at && g.at[k] == t
      requires Ent(g0, Loc(k, i)).p && page == Ent(g0, Loc(k, i)).addr
      modifies pmm`inUse, pmm`refs, pmm`freePages, this`mem, this`g
      ensures Valid() && Erased(g0, g, k, i + 1) && k in g.at && g.at[k] == t
    {
      hide Inv, FrameAllocator.Valid, Source, Erased;
      ghost var g1 := g;
      ghost var l := Loc(k, i);
      EraseLeaf(g0, g, k, i);
      LeafCutKeeps(g, l);
      g := LeafCut(g, l);
      if page < fbFirst || page >= fbEnd {
        DropPage(page);
      }
      mem := mem[t := mem[t][i := ZERO]];
      g := Store(g, l, ZERO);
      assert g == LeafErased(g1, l);
    }

    /** vmm_user_space_destroy */
    method DestroySpace(cr3: Frame) returns (ok: bool)
      requires Valid() && Settled(g)
      requires cr3 == 0 || Key(cr3, []) in g.at
      modifies pmm`inUse, pmm`refs, pmm`freePages, this`mem, this`g
      ensures Valid() && Settled(g)
      ensures ok <==> cr3 != 0
      ensures !ok ==> g == old(g)
      ensures ok ==> Destroyed(old(g), g, cr3)
    {
      hide Inv, FrameAllocator.Valid, FramebufferApart, Settled, Source, Erased, Destroyed;
      if cr3 == 0 {
        return false;
      }
      ghost var k := Key(cr3, []);
      RootCount(g, cr3);
      QuietSource(g, k);
      DestroyEntries(cr3, 4, k);
      DestroyDone(old(g), g, cr3);
      ReachFewer(pmm.hhdm, g.at, g.at - {k});
      g := TableRemoved(g, k);
      DropPage(cr3);
      return true;
    }

    // ----- Creating a space and storing through it -----

    /** vmm_user_space_create: no user mapping, the upper half of the kernel's own root. */
    method CreateSpace(kernelCr3: Frame) returns (root: Frame)
      requires Valid() && Settled(g)
      requires kernelCr3 < |mem|
      modifies pmm`next, pmm`inUse, pmm`refs, pmm`freePages, this`mem, this`g, this`user, this`userValid
      ensures Valid() && Settled(g)
      ensures root == 0 ==> g == old(g) && user == old(user) && userValid == old(userValid)
      ensures Covers(pmm.hhdm) ==> (root == 0 <==> kernelCr3 == 0 || FreePages(old(g)) == {})
      ensures root != 0 ==> Created(old(g), g, root) && user == root && userValid
      ensures root != 0 ==> root < |mem| && kernelCr3 < |old(mem)| && KernelHalf(old(mem)[kernelCr3], mem[root])
    {
      hide Inv, FrameAllocator.Valid, FramebufferApart, Settled, Created, ReachOk, ManagedFrames, FreePages;
      InvFacts(g);
      if kernelCr3 == 0 || !Mappable(pmm.hhdm, kernelCr3) {
        return 0;
      }
      var page := ZeroPage()[..256] + mem[kernelCr3][256..];
      assert KernelHalf(mem[kernelCr3], page);
      root := FreshPage(page);
      if root == 0 {
        return;
      }
      CreateDone(old(g), root, page);
      ReachAdded(pmm.hhdm, g.at, Key(root, []), root);
      g := Published(TableAdded(g, Key(root, []), root), root);
      user, userValid := root, true;
    }

    /** The store of one word by user code or by user_copy_to_cr3, with the faults it takes. */
    method StoreWord(cr3: Frame, va: nat, val: Word) returns (ok: bool)
      requires Valid() && Settled(g)
      requires cr3 == 0 || Key(cr3, []) in g.at
      modifies pmm`next, pmm`inUse, pmm`refs, pmm`freePages, this`mem, this`g
      ensures Valid() && Settled(g) && g.held == old(g.held) && g.at == old(g.at) && g.man == old(g.man)
      ensures ok ==> va < USER_TOP && SeesStore(old(g), g, LocOf(cr3, va), va % PAGE_SIZE / 8, val)
      ensures !ok ==> SeesSameBut(old(g), g, LocOf(cr3, va)) && Sees(g, LocOf(cr3, va)) == Sees(old(g), LocOf(cr3, va))
      ensures Covers(pmm.hhdm) ==> (ok <==> va < USER_TOP && Storable(old(g), pmm.hhdm, Ent(old(g), LocOf(cr3, va))))
    {
      hide Inv, FrameAllocator.Valid, FramebufferApart, Settled, OnlyLeaf, SeesSameBut, SeesStore, Sees;
      ghost var l := LocOf(cr3, va);
      SeesSelf(g, l);
      var pte;
      ok, pte := Translate(cr3, va);
      if !ok || !pte.u {
        return false;
      }
      if !pte.w {
        if !pte.cow {
          return false;
        }
        ok := CowFault(cr3, va);
        if !ok {
          return;
        }
        OnlyLeafSeen(old(g), g, l);
        InvFacts(g);
        ok, pte := Translate(cr3, va);
        if !ok || !pte.u || !pte.w {
          return false;
        }
      }
      if !Mappable(pmm.hhdm, pte.addr) {
        return false;
      }
      ghost var g1 := g;
      PutWord(pte, va % PAGE_SIZE / 8, val, l);
      StoreSeen(old(g), g1, g, l, va % PAGE_SIZE / 8, val);
    }

    /** Write one word of the page behind a writable entry. */
    method PutWord(pte: Word, off: nat, val: Word, ghost l: Loc)
      requires Valid() && Settled(g) && IsLeaf(l) && l.idx < ENTRIES && Ent(g, l) == pte && pte.p && pte.w && pte.u
      requires off < ENTRIES
      modifies this`mem, this`g
      ensures Valid() && Settled(g) && g.held == old(g.held) && g.at == old(g.at) && g.man == old(g.man)
      ensures SeesStore(old(g), g, l, off, val)
    {
      hide Inv, FrameAllocator.Valid, FramebufferApart, Settled, SeesStore, Sees;
      InvFacts(g);
      SettledOwns(g, l);
      OwnedFacts(g, l);
      WriteTarget(g, l);
      if pte.addr < |mem| {
        var page := mem[pte.addr][off := val];
        FillKeeps(g, pte.addr, page);
        mem := mem[pte.addr := page];
        g := Filled(g, pte.addr, page);
        FilledSettled(old(g), pte.addr, page);
        WriteSeen(old(g), l, off, val);
      } else {
        ForeignSeen(g, l, off, val);
      }
    }
  }
}
