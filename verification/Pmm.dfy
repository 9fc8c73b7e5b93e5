/**
 The physical page allocator of src/kernel/pmm.c: usable regions, an allocation bitmap, a
 reservation bitmap, a reference count per page and a counter of free pages.

 A physical page is named by its page number; every entry point of the allocator first truncates
 the address it is given to its page.
 */
module Pmm {
  import opened Common

  type Frame = nat

  const PAGE_SIZE := 0x1000
  const MAX_REGIONS := 64
  const MAX_RESERVED_PAGES := 65536
  /** PMM_MIN_PHYS, PMM_TRACK_LIMIT and 2^52, in pages */
  const MIN_FRAME := 0x1000
  const TRACK_PAGES := 0x100000
  const MAX_PHYS_FRAME := 0x100_0000_0000
  const REFS_MAX := 65535

  /** A usable region [base, end), in pages. */
  datatype Region = Region(base: Frame, end: Frame)

  /** One entry of the boot loader's memory map, in bytes. */
  datatype MemmapEntry = MemmapEntry(base: nat, length: nat, usable: bool)

  predicate InRegion(r: Region, f: Frame) {
    r.base <= f < r.end
  }

  ghost predicate InRegions(regions: seq<Region>, f: Frame) {
    exists i :: 0 <= i < |regions| && InRegion(regions[i], f)
  }

  ghost predicate WellFormedRegions(regions: seq<Region>) {
    && |regions| <= MAX_REGIONS
    && (forall i :: 0 <= i < |regions| ==> MIN_FRAME <= regions[i].base < regions[i].end <= TRACK_PAGES)
  }

  ghost predicate DisjointRegions(regions: seq<Region>) {
    forall i, j :: 0 <= i < j < |regions| ==> Apart(regions[i], regions[j])
  }

  predicate Apart(r: Region, s: Region) {
    r.end <= s.base || s.end <= r.base
  }

  predicate Nonempty(r: Region) {
    r.base < r.end
  }

  /** pmm_phys_to_virt: the direct map reaches the page only inside the top 2^48 bytes. */
  predicate Mappable(hhdm: nat, f: Frame) {
    && hhdm != 0
    && hhdm + f * PAGE_SIZE < U64
    && (hhdm + f * PAGE_SIZE) / 0x1_0000_0000_0000 == 0xFFFF
  }

  /** The pages the allocator hands out and counts references for: usable and not reserved. */
  ghost function ManagedFrames(regions: seq<Region>, reserved: seq<bool>): set<Frame> {
    set f | 0 <= f < TRACK_PAGES && f < |reserved| && InRegions(regions, f) && !reserved[f]
  }

  lemma ReservedApart(regions: seq<Region>, reserved: seq<bool>)
    ensures forall f: Frame :: f < |reserved| && reserved[f] ==> f !in ManagedFrames(regions, reserved)
  {
  }

  /** The frames of the usable regions that are not marked allocated. */
  ghost function FreeFrames(regions: seq<Region>, inUse: seq<bool>): set<Frame>
    requires |inUse| == TRACK_PAGES
  {
    set f | 0 <= f < TRACK_PAGES && InRegions(regions, f) && !inUse[f]
  }

  /** Marking one free frame takes exactly that frame out of the free set. */
  lemma TakeFree(regions: seq<Region>, inUse: seq<bool>, f: Frame)
    requires |inUse| == TRACK_PAGES
    requires f < TRACK_PAGES && InRegions(regions, f) && !inUse[f]
    ensures FreeFrames(regions, inUse[f := true]) == FreeFrames(regions, inUse) - {f}
    ensures |FreeFrames(regions, inUse[f := true])| == |FreeFrames(regions, inUse)| - 1
  {
    assert FreeFrames(regions, inUse[f := true]) == FreeFrames(regions, inUse) - {f};
  }

  /** Clearing the mark of one frame of a region puts exactly that frame back. */
  lemma ReturnFree(regions: seq<Region>, inUse: seq<bool>, f: Frame)
    requires |inUse| == TRACK_PAGES
    requires f < TRACK_PAGES && InRegions(regions, f) && inUse[f]
    ensures FreeFrames(regions, inUse[f := false]) == FreeFrames(regions, inUse) + {f}
    ensures |FreeFrames(regions, inUse[f := false])| == |FreeFrames(regions, inUse)| + 1
  {
    assert FreeFrames(regions, inUse[f := false]) == FreeFrames(regions, inUse) + {f};
  }

  /** The region pmm_init makes of a memory map entry, if any. */
  function RegionOf(e: MemmapEntry): (r: Region)
    requires e.base < U64 && e.length < U64
  {
    if !e.usable || e.length < PAGE_SIZE || e.base + e.length >= U64 then Region(0, 0)
    else
      var start := (e.base + PAGE_SIZE - 1) / PAGE_SIZE;
      var end := (e.base + e.length) / PAGE_SIZE;
      Region(if start < MIN_FRAME then MIN_FRAME else start, if end > TRACK_PAGES then TRACK_PAGES else end)
  }

  /** All regions of a memory map, in order. */
  ghost function RegionsOf(entries: seq<MemmapEntry>): (rs: seq<Region>)
    requires U64Entries(entries)
    ensures |rs| <= |entries|
  {
    if entries == [] then [] else
      var rs := RegionsOf(entries[..|entries| - 1]);
      var r := RegionOf(entries[|entries| - 1]);
      if Nonempty(r) then rs + [r] else rs
  }

  /** The regions cover exactly the whole pages of the usable entries, between 16 MiB and 4 GiB. */
  lemma {:induction false} RegionsOfCover(entries: seq<MemmapEntry>, f: Frame)
    requires U64Entries(entries)
    ensures InRegions(RegionsOf(entries), f) <==> exists i :: 0 <= i < |entries| && PageInside(entries[i], f)
  {
    hide RegionOf, PageInside;
    if entries != [] {
      var n := |entries| - 1;
      RegionPages(entries[n], f);
      RegionsOfCover(entries[..n], f);
      var rs, r := RegionsOf(entries[..n]), RegionOf(entries[n]);
      if InRegions(rs, f) {
        var i :| 0 <= i < |rs| && InRegion(rs[i], f);
        assert InRegion(RegionsOf(entries)[i], f);
      }
      if InRegion(r, f) {
        assert InRegion(RegionsOf(entries)[|rs|], f);
      }
      if i :| 0 <= i < |entries| && PageInside(entries[i], f) {
        assert i < n ==> entries[..n][i] == entries[i];
      }
      if i :| 0 <= i < n && PageInside(entries[..n][i], f) {
        assert PageInside(entries[i], f);
      }
    }
  }

  /** Page f lies wholly inside a usable entry that does not wrap, between 16 MiB and 4 GiB. */
  ghost predicate PageInside(e: MemmapEntry, f: Frame) {
    && e.usable && e.base + e.length < U64 && e.base <= f * 0x1000 && (f + 1) * 0x1000 <= e.base + e.length
    && 16 * 1024 * 1024 <= f * 0x1000 && (f + 1) * 0x1000 <= 4 * 1024 * 1024 * 1024
  }

  lemma RegionPages(e: MemmapEntry, f: Frame)
    requires e.base < U64 && e.length < U64
    ensures InRegion(RegionOf(e), f) <==> PageInside(e, f)
  {
  }

  ghost predicate U64Entries(entries: seq<MemmapEntry>) {
    forall i :: 0 <= i < |entries| ==> entries[i].base < U64 && entries[i].length < U64
  }

  /** Usable entries of the memory map do not overlap, as the Limine protocol promises. */
  ghost predicate DisjointEntries(entries: seq<MemmapEntry>) {
    forall i, j :: 0 <= i < j < |entries| && entries[i].usable && entries[j].usable ==>
      entries[i].base + entries[i].length <= entries[j].base || entries[j].base + entries[j].length <= entries[i].base
  }

  function Interval(lo: nat, hi: nat): (s: set<Frame>)
    requires lo <= hi
  {
    set f | 0 <= f < hi && InRegion(Region(lo, hi), f)
  }

  lemma {:induction false} IntervalSize(lo: nat, hi: nat)
    requires lo <= hi
    ensures |Interval(lo, hi)| == hi - lo
    decreases hi
  {
    if lo == hi {
      assert Interval(lo, hi) == {};
    } else {
      IntervalSize(lo, hi - 1);
      assert Interval(lo, hi) == Interval(lo, hi - 1) + {hi - 1};
    }
  }

  /** The free pages pmm_init counts: the sizes of the regions, added up. */
  function Sizes(regions: seq<Region>): nat
    requires forall i :: 0 <= i < |regions| ==> Nonempty(regions[i])
  {
    if regions == [] then 0 else
      var n := |regions| - 1;
      assert Nonempty(regions[n]);
      Sizes(regions[..n]) + (regions[n].end - regions[n].base)
  }

  lemma OneMore(regions: seq<Region>, r: Region)
    requires WellFormedRegions(regions) && |regions| < MAX_REGIONS && MIN_FRAME <= r.base < r.end <= TRACK_PAGES
    ensures WellFormedRegions(regions + [r]) && Sizes(regions + [r]) == Sizes(regions) + (r.end - r.base)
  {
    assert (regions + [r])[..|regions|] == regions;
  }

  lemma Nowhere(entries: seq<MemmapEntry>)
    ensures RegionsOf(entries[..0]) == [] && WellFormedRegions([]) && Sizes([]) == 0
  {
  }

  /** The pages of all regions together. */
  ghost function Union(regions: seq<Region>): set<Frame> {
    set f | 0 <= f < TRACK_PAGES && InRegions(regions, f)
  }

  /** The sizes add up to at least the number of pages, and to exactly that when no two regions overlap. */
  lemma {:induction false} SizesCount(regions: seq<Region>)
    requires forall i :: 0 <= i < |regions| ==> Nonempty(regions[i]) && regions[i].end <= TRACK_PAGES
    ensures Sizes(regions) >= |Union(regions)|
    ensures Sizes(regions) == |Union(regions)| <==> DisjointRegions(regions)
    decreases |regions|
  {
    if regions == [] {
      assert Union(regions) == {};
    } else {
      var n := |regions| - 1;
      var rest, r := regions[..n], regions[n];
      assert regions == rest + [r];
      SizesCount(rest);
      IntervalSize(r.base, r.end);
      UnionLast(rest, r);
      DisjointLast(rest, r);
    }
  }

  lemma UnionLast(rest: seq<Region>, r: Region)
    requires Nonempty(r) && r.end <= TRACK_PAGES
    ensures var u, i := Union(rest), Interval(r.base, r.end);
            |Union(rest + [r])| <= |u| + |i| && (|Union(rest + [r])| == |u| + |i| <==> u !! i)
  {
    var rs, u, i := rest + [r], Union(rest), Interval(r.base, r.end);
    forall f: Frame
      ensures InRegions(rs, f) <==> InRegions(rest, f) || InRegion(r, f)
    {
      if InRegions(rest, f) {
        var k :| 0 <= k < |rest| && InRegion(rest[k], f);
        assert InRegion(rs[k], f);
      }
      if InRegion(r, f) {
        assert InRegion(rs[|rest|], f);
      }
    }
    assert Union(rs) == u + i;
    assert |u + i| + |u * i| == |u| + |i|;
  }

  lemma DisjointLast(rest: seq<Region>, r: Region)
    requires Nonempty(r) && r.end <= TRACK_PAGES
    requires forall k :: 0 <= k < |rest| ==> Nonempty(rest[k])
    ensures DisjointRegions(rest + [r]) <==> DisjointRegions(rest) && Union(rest) !! Interval(r.base, r.end)
  {
    var rs := rest + [r];
    assert forall k :: 0 <= k < |rest| ==> rs[k] == rest[k];
    if Union(rest) !! Interval(r.base, r.end) {
      forall k | 0 <= k < |rest|
        ensures Apart(rest[k], r)
      {
        var f := Max(rest[k].base, r.base);
        assert InRegion(rest[k], f) ==> InRegions(rest, f);
        assert !InRegion(rest[k], f) || f !in Interval(r.base, r.end);
      }
    }
    if DisjointRegions(rs) {
      forall f | f in Union(rest)
        ensures f !in Interval(r.base, r.end)
      {
        var k :| 0 <= k < |rest| && InRegion(rest[k], f);
        assert Apart(rs[k], rs[|rest|]);
      }
      forall i, j | 0 <= i < j < |rest|
        ensures Apart(rest[i], rest[j])
      {
        assert Apart(rs[i], rs[j]);
      }
    }
  }

  /** The regions pmm_init keeps: those of the memory map, up to MAX_REGIONS. */
  ghost function RegionsKept(entries: seq<MemmapEntry>): seq<Region>
    requires U64Entries(entries)
  {
    var rs := RegionsOf(entries);
    if |rs| <= MAX_REGIONS then rs else rs[..MAX_REGIONS]
  }

  /** Regions cut from disjoint entries are disjoint. */
  lemma KeptDisjoint(entries: seq<MemmapEntry>)
    requires U64Entries(entries) && DisjointEntries(entries)
    ensures DisjointRegions(RegionsKept(entries))
  {
    RegionsOfDisjoint(entries);
  }

  lemma {:induction false} RegionsOfDisjoint(entries: seq<MemmapEntry>)
    requires U64Entries(entries) && DisjointEntries(entries)
    ensures DisjointRegions(RegionsOf(entries))
    decreases |entries|
  {
    if entries != [] {
      var n := |entries| - 1;
      var rs, r := RegionsOf(entries[..n]), RegionOf(entries[n]);
      RegionsOfDisjoint(entries[..n]);
      forall k | 0 <= k < |rs|
        ensures Nonempty(r) ==> Apart(rs[k], r)
      {
        RegionsOfFrom(entries[..n], k);
      }
    }
  }

  /** Every region is that of some entry. */
  lemma {:induction false} RegionsOfFrom(entries: seq<MemmapEntry>, k: nat)
    requires U64Entries(entries) && k < |RegionsOf(entries)|
    ensures Nonempty(RegionsOf(entries)[k]) && MIN_FRAME <= RegionsOf(entries)[k].base
    ensures RegionsOf(entries)[k].end <= TRACK_PAGES
    ensures exists i :: 0 <= i < |entries| && RegionsOf(entries)[k] == RegionOf(entries[i])
    decreases |entries|
  {
    var n := |entries| - 1;
    var rs := RegionsOf(entries[..n]);
    if k < |rs| {
      RegionsOfFrom(entries[..n], k);
      var i :| 0 <= i < n && rs[k] == RegionOf(entries[..n][i]);
      assert RegionsOf(entries)[k] == RegionOf(entries[i]);
    } else {
      assert RegionsOf(entries)[k] == RegionOf(entries[n]);
    }
  }

  /** The region of one more entry. */
  lemma RegionsOfNext(entries: seq<MemmapEntry>, i: nat)
    requires U64Entries(entries) && i < |entries|
    ensures var rs, r := RegionsOf(entries[..i]), RegionOf(entries[i]);
            && RegionsOf(entries[..i + 1]) == (if Nonempty(r) then rs + [r] else rs)
            && (Nonempty(r) ==> MIN_FRAME <= r.base && r.end <= TRACK_PAGES)
  {
    assert entries[..i + 1][..i] == entries[..i];
  }

  /** Entries after the first i only add regions at the end. */
  lemma {:induction false} RegionsOfPrefix(entries: seq<MemmapEntry>, i: nat)
    requires U64Entries(entries) && i <= |entries|
    ensures RegionsOf(entries[..i]) <= RegionsOf(entries)
    decreases |entries|
  {
    if i == |entries| {
      assert entries[..i] == entries;
    } else {
      hide RegionOf;
      var n := |entries| - 1;
      RegionsOfPrefix(entries[..n], i);
      assert entries[..n][..i] == entries[..i];
    }
  }

  /** One page given twice: the counter says two. */
  lemma OverlapExample()
    ensures var e := MemmapEntry(0x100_0000, 0x1000, true);
            && U64Entries([e, e]) && !DisjointRegions(RegionsKept([e, e]))
            && RegionsKept([e, e]) == [Region(0x1000, 0x1001), Region(0x1000, 0x1001)]
  {
    var e := MemmapEntry(0x100_0000, 0x1000, true);
    var r := Region(0x1000, 0x1001);
    assert RegionOf(e) == r;
    assert [e, e][..1] == [e] && [e][..0] == [];
    assert RegionsOf([e]) == [r];
    assert RegionsOf([e, e]) == [r, r];
    assert !Apart([r, r][0], [r, r][1]);
  }

  class FrameAllocator {
    var regions: seq<Region>
    var next: seq<Frame>
    var reservedPages: seq<Frame>
    var inUse: seq<bool>
    var reserved: seq<bool>
    var refs: seq<nat>
    var freePages: nat
    var hhdm: nat
    var ready: bool

    ghost predicate Sized()
      reads this
    {
      |inUse| == TRACK_PAGES && |reserved| == TRACK_PAGES && |refs| == TRACK_PAGES
    }

    ghost predicate Cursors()
      reads this
    {
      && |next| == |regions|
      && (forall i :: 0 <= i < |regions| ==> regions[i].base <= next[i] <= regions[i].end)
    }

    ghost predicate Managed(f: Frame)
      reads this
    {
      f in ManagedFrames(regions, reserved)
    }

    /** Counter, bitmaps and reference counts agree. */
    ghost predicate Valid()
      reads this
    {
      && Sized() && Cursors()
      && WellFormedRegions(regions)
      && (ready <==> |regions| > 0)
      && (ready ==> hhdm != 0)
      && freePages == |FreeFrames(regions, inUse)|
      && (forall f :: 0 <= f < TRACK_PAGES && reserved[f] && InRegions(regions, f) ==> inUse[f])
      && (forall f :: 0 <= f < TRACK_PAGES && inUse[f] ==> reserved[f] || InRegions(regions, f))
      && (forall f :: 0 <= f < TRACK_PAGES && !reserved[f] ==> (inUse[f] <==> refs[f] > 0))
      && (forall f :: 0 <= f < TRACK_PAGES ==> refs[f] <= REFS_MAX)
    }

    /** The state before pmm_init. */
    constructor ()
      ensures Valid() && !ready
    {
      regions, next, reservedPages := [], [], [];
      inUse := seq(TRACK_PAGES, i => false);
      reserved := seq(TRACK_PAGES, i => false);
      refs := seq(TRACK_PAGES, i => 0);
      freePages, hhdm, ready := 0, 0, false;
      new;
      assert FreeFrames(regions, inUse) == {};
    }

    /** phys_in_usable_region */
    method InUsableRegion(f: Frame) returns (b: bool)
      ensures b <==> InRegions(regions, f)
    {
      for r := 0 to |regions|
        invariant forall j :: 0 <= j < r ==> !InRegion(regions[j], f)
      {
        if InRegion(regions[r], f) {
          return true;
        }
      }
      return false;
    }

    /** reserve_page */
    method ReservePage(f: Frame) returns (ok: bool)
      requires Sized()
      requires ready ==> Valid()
      modifies this`reservedPages, this`reserved, this`inUse, this`freePages
      ensures Sized()
      ensures ready ==> Valid()
      ensures ok <==> f != 0 && f < MAX_PHYS_FRAME && !(f < TRACK_PAGES && old(reserved[f]))
                      && |old(reservedPages)| < MAX_RESERVED_PAGES
      ensures reservedPages == if ok then old(reservedPages) + [f] else old(reservedPages)
      ensures reserved == if ok && f < TRACK_PAGES then old(reserved)[f := true] else old(reserved)
      ensures inUse == if ok && ready && InRegions(regions, f) then old(inUse)[f := true] else old(inUse)
      ensures !ready ==> freePages == old(freePages)
    {
      if f == 0 || f >= MAX_PHYS_FRAME {
        return false;
      }
      if f < TRACK_PAGES && reserved[f] {
        return false;
      }
      if |reservedPages| >= MAX_RESERVED_PAGES {
        return false;
      }
      reservedPages := reservedPages + [f];
      if f < TRACK_PAGES {
        reserved := reserved[f := true];
      }
      var usable := InUsableRegion(f);
      if ready && usable && !(f >= TRACK_PAGES || inUse[f]) {
        TakeFree(regions, inUse, f);
        inUse := inUse[f := true];
        if freePages > 0 {
          freePages := freePages - 1;
        }
      }
      return true;
    }

    /** pmm_reserve_range, on byte addresses below 2^64 */
    method ReserveRange(base: nat, length: nat)
      requires base < U64 && length < U64
      requires Sized()
      requires ready ==> Valid()
      modifies this`reservedPages, this`reserved, this`inUse, this`freePages
      ensures Sized()
      ensures ready ==> Valid()
      ensures forall f :: 0 <= f < TRACK_PAGES && old(reserved[f]) ==> reserved[f]
      ensures forall f :: 0 <= f < TRACK_PAGES && reserved[f] && !old(reserved[f]) ==>
                base / PAGE_SIZE <= f && f * PAGE_SIZE < base + length
      ensures base + length + PAGE_SIZE - 1 < U64 && 0 < length && |reservedPages| < MAX_RESERVED_PAGES ==>
                forall f :: 0 < f < TRACK_PAGES && base / PAGE_SIZE <= f && f * PAGE_SIZE < base + length ==>
                  reserved[f]
      ensures |old(reservedPages)| <= |reservedPages|
    {
      if length == 0 {
        return;
      }
      var start := base / PAGE_SIZE;
      // align_up(base + length) in 64-bit arithmetic
      var end := ((base + length) % U64 + PAGE_SIZE - 1) % U64 / PAGE_SIZE;
      if end * PAGE_SIZE < base {
        return;
      }
      var p := start;
      while p < end
        invariant start <= p && (p <= end || p == start)
        invariant Sized()
        invariant ready ==> Valid()
        invariant |old(reservedPages)| <= |reservedPages|
        invariant forall f :: 0 <= f < TRACK_PAGES && old(reserved[f]) ==> reserved[f]
        invariant forall f :: 0 <= f < TRACK_PAGES && reserved[f] && !old(reserved[f]) ==> start <= f < p
        invariant |reservedPages| < MAX_RESERVED_PAGES ==>
            forall f :: 0 < f < TRACK_PAGES && start <= f < p ==> reserved[f]
      {
        var _ := ReservePage(p);
        p := p + 1;
      }
    }

    /** Give out one free frame. */
    method Take(p: Frame)
      requires Valid() && ready
      requires Managed(p) && !inUse[p]
      modifies this`inUse, this`refs, this`freePages
      ensures Valid()
      ensures inUse == old(inUse)[p := true] && refs == old(refs)[p := 1]
      ensures freePages == old(freePages) - 1
    {
      TakeFree(regions, inUse, p);
      inUse := inUse[p := true];
      refs := refs[p := 1];
      if freePages > 0 {
        freePages := freePages - 1;
      }
    }

    /** First scan of a region: from its cursor, which moves past every page looked at. */
    method ScanForward(i: nat) returns (f: Frame)
      requires Valid() && ready && i < |regions|
      modifies this`next, this`inUse, this`refs, this`freePages
      ensures Valid()
      ensures f == 0 ==> inUse == old(inUse) && refs == old(refs) && freePages == old(freePages)
      ensures f != 0 ==> Managed(f) && !old(inUse[f]) && old(refs[f]) == 0
      ensures f != 0 ==> inUse == old(inUse)[f := true] && refs == old(refs)[f := 1]
                         && freePages == old(freePages) - 1
    {
      var r := regions[i];
      var p := next[i];
      while p < r.end
        invariant Cursors()
        invariant r.base <= p <= r.end
        invariant inUse == old(inUse) && refs == old(refs) && freePages == old(freePages)
      {
        next := next[i := p + 1];
        if p >= TRACK_PAGES || p < MIN_FRAME || reserved[p] {
          p := p + 1;
          continue;
        }
        if inUse[p] {
          p := p + 1;
          continue;
        }
        assert InRegion(regions[i], p);
        Take(p);
        return p;
      }
      return 0;
    }

    /** Second scan: the whole region, so that failure means it has no free page. */
    method ScanWhole(i: nat) returns (f: Frame)
      requires Valid() && ready && i < |regions|
      modifies this`next, this`inUse, this`refs, this`freePages
      ensures Valid()
      ensures f == 0 ==> inUse == old(inUse) && refs == old(refs) && freePages == old(freePages)
      ensures f == 0 ==> forall g: Frame :: InRegion(regions[i], g) ==> inUse[g]
      ensures f != 0 ==> Managed(f) && !old(inUse[f]) && old(refs[f]) == 0
      ensures f != 0 ==> inUse == old(inUse)[f := true] && refs == old(refs)[f := 1]
                         && freePages == old(freePages) - 1
    {
      var r := regions[i];
      var p := r.base;
      while p < r.end
        invariant Cursors()
        invariant r.base <= p <= r.end
        invariant inUse == old(inUse) && refs == old(refs) && freePages == old(freePages)
        invariant forall g :: r.base <= g < p ==> inUse[g]
      {
        assert InRegion(regions[i], p);
        if p >= TRACK_PAGES || p < MIN_FRAME || reserved[p] {
          p := p + 1;
          continue;
        }
        if !inUse[p] {
          next := next[i := p + 1];
          Take(p);
          return p;
        }
        p := p + 1;
      }
      return 0;
    }

    /** pmm_alloc_page; page 0 stands for failure */
    method Alloc() returns (f: Frame)
      requires Valid()
      modifies this`next, this`inUse, this`refs, this`freePages
      ensures Valid()
      ensures ready ==> (f == 0 <==> old(freePages) == 0)
      ensures !ready ==> f == 0
      ensures f == 0 ==> inUse == old(inUse) && refs == old(refs) && freePages == old(freePages)
      ensures f != 0 ==> Managed(f) && !old(inUse[f]) && old(refs[f]) == 0
      ensures f != 0 ==> inUse == old(inUse)[f := true] && refs == old(refs)[f := 1]
                         && freePages == old(freePages) - 1
    {
      if !ready || hhdm == 0 {
        return 0;
      }
      for i := 0 to |regions|
        invariant Valid()
        invariant inUse == old(inUse) && refs == old(refs) && freePages == old(freePages)
        invariant forall j, g: Frame :: 0 <= j < i && InRegion(regions[j], g) ==> inUse[g]
      {
        f := ScanForward(i);
        if f != 0 {
          return f;
        }
        f := ScanWhole(i);
        if f != 0 {
          return f;
        }
      }
      assert FreeFrames(regions, inUse) == {};
      return 0;
    }

    /** Give back a frame whose last reference goes. */
    method Return(f: Frame)
      requires Valid() && ready
      requires Managed(f) && refs[f] == 1
      modifies this`inUse, this`refs, this`freePages
      ensures Valid()
      ensures inUse == old(inUse)[f := false] && refs == old(refs)[f := 0]
      ensures freePages == old(freePages) + 1
    {
      ReturnFree(regions, inUse, f);
      refs := refs[f := 0];
      inUse := inUse[f := false];
      freePages := freePages + 1;
    }

    /** pmm_free_page */
    method Free(f: Frame)
      requires Valid()
      modifies this`inUse, this`refs, this`freePages
      ensures Valid()
      ensures refs == if Managed(f) && old(refs[f]) > 0 then old(refs)[f := old(refs[f]) - 1] else old(refs)
      ensures inUse == if Managed(f) && old(refs[f]) == 1 then old(inUse)[f := false] else old(inUse)
      ensures freePages == old(freePages) + if Managed(f) && old(refs[f]) == 1 then 1 else 0
    {
      if !ready || f == 0 || f >= MAX_PHYS_FRAME || (f < TRACK_PAGES && reserved[f]) {
        return;
      }
      if f >= TRACK_PAGES {
        return;
      }
      for i := 0 to |regions|
        invariant Valid()
        invariant refs == old(refs) && inUse == old(inUse) && freePages == old(freePages)
        invariant forall j :: 0 <= j < i ==> !InRegion(regions[j], f)
      {
        if !InRegion(regions[i], f) {
          continue;
        }
        if !inUse[f] {
          return;
        }
        if refs[f] > 1 {
          refs := refs[f := refs[f] - 1];
          return;
        }
        Return(f);
        return;
      }
    }

    /** pmm_page_refcount */
    method RefCount(f: Frame) returns (n: nat)
      requires Valid()
      ensures n == if ready && f != 0 && f < TRACK_PAGES then refs[f] else 0
      ensures Managed(f) ==> (n > 0 <==> f !in FreeFrames(regions, inUse))
    {
      if !ready || f == 0 || f >= TRACK_PAGES {
        return 0;
      }
      return refs[f];
    }

    /** pmm_page_is_reserved */
    method IsReserved(f: Frame) returns (b: bool)
      requires Valid()
      ensures b <==> f < TRACK_PAGES && reserved[f]
      ensures b ==> !Managed(f) && f !in FreeFrames(regions, inUse)
    {
      return f < TRACK_PAGES && reserved[f];
    }

    /** pmm_retain_page: true when a reference was added */
    method Retain(f: Frame) returns (ok: bool)
      requires Valid()
      modifies this`refs
      ensures Valid()
      ensures ok <==> Managed(f) && 0 < old(refs[f]) < REFS_MAX
      ensures refs == if ok then old(refs)[f := old(refs[f]) + 1] else old(refs)
    {
      if !ready || f == 0 || f >= TRACK_PAGES || reserved[f] {
        return false;
      }
      if !inUse[f] {
        return false;
      }
      if refs[f] == REFS_MAX {
        return false;
      }
      refs := refs[f := if refs[f] == 0 then 1 else refs[f] + 1];
      return true;
    }

    /** The usable regions of the memory map, and the first value of the free counter. */
    method InitRegions(entries: seq<MemmapEntry>)
      requires U64Entries(entries)
      requires regions == [] && next == [] && freePages == 0
      modifies this`regions, this`next, this`freePages
      ensures regions == RegionsKept(entries) && WellFormedRegions(regions) && Cursors()
      ensures freePages == Sizes(regions)
    {
      hide RegionOf, RegionsOf, Sizes;
      Nowhere(entries);
      var i := 0;
      while i < |entries| && |regions| < MAX_REGIONS
        invariant 0 <= i <= |entries| && regions == RegionsOf(entries[..i])
        invariant WellFormedRegions(regions) && Cursors() && freePages == Sizes(regions)
      {
        var r := RegionOf(entries[i]);
        RegionsOfNext(entries, i);
        if Nonempty(r) {
          OneMore(regions, r);
          regions, next := regions + [r], next + [r.base];
          freePages := freePages + (r.end - r.base);
        }
        i := i + 1;
      }
      RegionsOfPrefix(entries, i);
      assert i == |entries| ==> entries[..i] == entries;
    }

    /** With nothing allocated the counter is exact when no two regions overlap, and too large otherwise. */
    method CountRegions(entries: seq<MemmapEntry>)
      requires U64Entries(entries) && Sized() && forall f :: 0 <= f < TRACK_PAGES ==> !inUse[f]
      requires regions == [] && next == [] && freePages == 0
      modifies this`regions, this`next, this`freePages
      ensures regions == RegionsKept(entries) && WellFormedRegions(regions) && Cursors()
      ensures freePages >= |FreeFrames(regions, inUse)|
      ensures freePages == |FreeFrames(regions, inUse)| <==> DisjointRegions(regions)
      ensures DisjointEntries(entries) ==> DisjointRegions(regions)
    {
      hide RegionsKept, DisjointRegions, DisjointEntries;
      InitRegions(entries);
      SizesCount(regions);
      assert FreeFrames(regions, inUse) == Union(regions);
      if DisjointEntries(entries) {
        KeptDisjoint(entries);
      }
    }

    /** The first lines of pmm_init. */
    method Clear(hhdm': nat)
      modifies this
      ensures Sized() && regions == [] && next == [] && reservedPages == [] && freePages == 0 && hhdm == hhdm' && !ready
      ensures forall f :: 0 <= f < TRACK_PAGES ==> !inUse[f] && !reserved[f] && refs[f] == 0
      ensures FreeFrames(regions, inUse) == {} && WellFormedRegions(regions) && DisjointRegions(regions)
    {
      regions, next, reservedPages := [], [], [];
      inUse := seq(TRACK_PAGES, i => false);
      reserved := seq(TRACK_PAGES, i => false);
      refs := seq(TRACK_PAGES, i => 0);
      freePages, hhdm, ready := 0, hhdm', false;
      assert FreeFrames(regions, inUse) == {};
    }

    /** The reservation list and the reservation bitmap agree, each tracked page listed once. */
    ghost predicate ReservedListed()
      reads this
      requires Sized()
    {
      && (forall f :: 0 <= f < TRACK_PAGES ==> (reserved[f] <==> f in reservedPages))
      && (forall i, j :: 0 <= i < j < |reservedPages| && reservedPages[i] < TRACK_PAGES ==>
            reservedPages[i] != reservedPages[j])
    }

    /** Before the allocator is ready: note the pages of [lo, hi) as reserved. */
    method ReserveEarly(pages: seq<Frame>)
      requires Sized() && ReservedListed() && !ready
      modifies this`reservedPages, this`reserved, this`inUse, this`freePages
      ensures Sized() && ReservedListed()
      ensures inUse == old(inUse) && freePages == old(freePages)
      ensures old(reservedPages) <= reservedPages
      ensures |reservedPages| < MAX_RESERVED_PAGES ==>
                forall f :: f in pages && 0 < f < TRACK_PAGES ==> reserved[f]
      ensures forall f :: 0 <= f < TRACK_PAGES && reserved[f] ==> old(reserved[f]) || f in pages
    {
      for i := 0 to |pages|
        invariant Sized() && ReservedListed()
        invariant inUse == old(inUse) && freePages == old(freePages)
        invariant old(reservedPages) <= reservedPages
        invariant |reservedPages| < MAX_RESERVED_PAGES ==>
            forall j :: 0 <= j < i && 0 < pages[j] < TRACK_PAGES ==> reserved[pages[j]]
        invariant forall f :: 0 <= f < TRACK_PAGES && reserved[f] ==> old(reserved[f]) || f in pages
      {
        var _ := ReservePage(pages[i]);
      }
    }

    /** The last step of pmm_init: take the reserved pages out of the free ones. */
    method TakeReserved()
      requires Sized() && ReservedListed() && !ready
      requires WellFormedRegions(regions)
      requires forall f :: 0 <= f < TRACK_PAGES ==> !inUse[f]
      requires freePages >= |FreeFrames(regions, inUse)|
      modifies this`inUse, this`freePages
      ensures Sized()
      ensures forall f :: 0 <= f < TRACK_PAGES ==> (inUse[f] <==> reserved[f])
      ensures freePages - |FreeFrames(regions, inUse)| == old(freePages - |FreeFrames(regions, inUse)|)
    {
      for i := 0 to |reservedPages|
        invariant Sized()
        invariant forall f :: 0 <= f < TRACK_PAGES ==> (inUse[f] <==> f in reservedPages[..i])
        invariant freePages - |FreeFrames(regions, inUse)| == old(freePages - |FreeFrames(regions, inUse)|)
      {
        var rp := reservedPages[i];
        assert forall f :: f in reservedPages[..i + 1] <==> f in reservedPages[..i] || f == rp;
        var usable := InUsableRegion(rp);
        if rp < TRACK_PAGES {
          assert rp !in reservedPages[..i];
          if usable {
            TakeFree(regions, inUse, rp);
          } else {
            assert FreeFrames(regions, inUse[rp := true]) == FreeFrames(regions, inUse);
          }
          inUse := inUse[rp := true];
        }
        if usable && freePages > 0 {
          freePages := freePages - 1;
        }
      }
      assert reservedPages[..|reservedPages|] == reservedPages;
    }

    /**
     pmm_init. The pages of the kernel image and of the page tables the boot loader left active
     (found by walking CR3) are given as `image` and `tables`.
     */
    method Init(entries: seq<MemmapEntry>, hhdm': nat, image: seq<Frame>, tables: seq<Frame>)
      requires U64Entries(entries)
      modifies this
      ensures Sized() && Cursors() && WellFormedRegions(regions) && hhdm == hhdm'
      ensures regions == if hhdm' == 0 then [] else RegionsKept(entries)
      ensures freePages >= |FreeFrames(regions, inUse)|
      ensures freePages == |FreeFrames(regions, inUse)| <==> DisjointRegions(regions)
      ensures Valid() <==> DisjointRegions(regions)
      ensures DisjointEntries(entries) ==> Valid()
      ensures forall f: Frame :: Managed(f) ==> !inUse[f] && refs[f] == 0
      ensures hhdm' != 0 && |reservedPages| < MAX_RESERVED_PAGES ==>
                forall f :: f in image + tables && 0 < f < TRACK_PAGES ==> reserved[f]
      ensures forall f :: 0 <= f < TRACK_PAGES && reserved[f] ==> f in image + tables
      ensures ready <==> hhdm' != 0 && regions != []
    {
      hide RegionsKept, DisjointRegions, DisjointEntries, WellFormedRegions, FreeFrames, InRegions;
      Clear(hhdm');
      if hhdm' == 0 {
        return;
      }
      CountRegions(entries);
      ReserveEarly(image);
      ReserveEarly(tables);
      TakeReserved();
      ready := |regions| != 0;
    }
  }
}
