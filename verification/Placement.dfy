/**
 Where a mapping without a fixed address goes: user_mmap_range_free and user_mmap_find_gap of
 src/kernel/main.c. The pages that translate are given as the set of their addresses.
 */
module Placement {
  import opened Common

  const PAGE := 0x1000
  const MMAP_MIN := 0x1000_0000
  const USER_LIMIT := 0x8000_0000_0000
  const HEAP_BASE := 0x50_0000

  /** Rounding up in 64-bit arithmetic. */
  function AlignUp(x: nat): (r: nat)
    ensures r % PAGE == 0
    ensures x + PAGE <= U64 ==> x <= r < x + PAGE
  {
    (x + PAGE - 1) % U64 / PAGE * PAGE
  }

  function PageOf(x: nat): (r: nat)
    ensures r % PAGE == 0 && r <= x < r + PAGE
  {
    x / PAGE * PAGE
  }

  predicate RangeOk(addr: nat, len: nat) {
    len > 0 && MMAP_MIN <= addr < USER_LIMIT && len <= USER_LIMIT - addr
  }

  ghost predicate AllPages(mapped: set<nat>) {
    forall va :: va in mapped ==> va % PAGE == 0
  }

  ghost predicate NoneMapped(mapped: set<nat>, lo: nat, hi: nat) {
    forall va :: va in mapped ==> !(lo <= va < hi)
  }

  /** The range does not touch the heap. */
  predicate OffHeap(base: nat, size: nat, heapEnd: nat) {
    heapEnd <= HEAP_BASE || base >= AlignUp(heapEnd) || base + size <= HEAP_BASE
  }

  /** A place for size bytes. */
  ghost predicate Fits(mapped: set<nat>, base: nat, size: nat, heapEnd: nat) {
    base % PAGE == 0 && RangeOk(base, size) && OffHeap(base, size, heapEnd) && NoneMapped(mapped, base, base + size)
  }

  /**
   What makes a place: a page address, between 256 MiB and the end of user space, clear of the heap from
   5 MiB up to its end, and no page of it mapped.
   */
  lemma FitsExactly(mapped: set<nat>, base: nat, size: nat, heapEnd: nat)
    requires heapEnd + PAGE <= U64
    ensures Fits(mapped, base, size, heapEnd) <==>
            && base % 0x1000 == 0 && 0 < size && 0x1000_0000 <= base && base + size <= 0x8000_0000_0000
            && (heapEnd <= 0x50_0000 || base + size <= 0x50_0000 || heapEnd <= base)
            && forall va :: va in mapped ==> !(base <= va < base + size)
  {
  }

  /** The lowest page address at or above start where mappings may be. */
  function Lowest(start: nat): (base: nat)
    ensures base % PAGE == 0 && base >= 0x1000_0000
    ensures start + PAGE <= U64 ==>
              && base >= start
              && forall b :: b % PAGE == 0 && b >= start && b >= 0x1000_0000 ==> b >= base
  {
    if AlignUp(start) < MMAP_MIN then MMAP_MIN else AlignUp(start)
  }

  /** The first mapped page of a range; its last page when there is none. */
  method FirstMapped(mapped: set<nat>, base: nat, size: nat) returns (probe: nat)
    requires AllPages(mapped) && base % PAGE == 0 && size > 0
    ensures probe % PAGE == 0 && base <= probe < base + size && NoneMapped(mapped, base, probe)
    ensures probe !in mapped ==> NoneMapped(mapped, base, base + size)
  {
    var last := PageOf(base + size - 1);
    probe := base;
    while probe !in mapped && probe != last
      invariant probe % PAGE == 0 && base <= probe <= last && NoneMapped(mapped, base, probe)
      decreases last - probe
    {
      StepPage(mapped, base, probe);
      probe := probe + PAGE;
    }
    if probe !in mapped {
      StepPage(mapped, base, probe);
    }
  }

  lemma StepPage(mapped: set<nat>, base: nat, probe: nat)
    requires AllPages(mapped) && probe % PAGE == 0 && NoneMapped(mapped, base, probe) && probe !in mapped
    ensures NoneMapped(mapped, base, probe + PAGE)
  {
  }

  /** user_mmap_range_free */
  method RangeFree(mapped: set<nat>, addr: nat, len: nat) returns (free: bool)
    requires AllPages(mapped)
    ensures free <==> RangeOk(addr, len) && NoneMapped(mapped, PageOf(addr), addr + len)
  {
    if !RangeOk(addr, len) {
      return false;
    }
    var first, last := PageOf(addr), PageOf(addr + len - 1);
    var va := first;
    while va !in mapped && va != last
      invariant va % PAGE == 0 && first <= va <= last && NoneMapped(mapped, first, va)
      decreases last - va
    {
      StepPage(mapped, first, va);
      va := va + PAGE;
    }
    if va !in mapped {
      StepPage(mapped, first, va);
    }
    return va !in mapped;
  }

  /** No place from lo up to hi. */
  ghost predicate NoFit(mapped: set<nat>, lo: nat, hi: nat, size: nat, heapEnd: nat) {
    forall b :: lo <= b < hi ==> !Fits(mapped, b, size, heapEnd)
  }

  lemma SkipHeap(mapped: set<nat>, base: nat, size: nat, heapEnd: nat)
    requires !OffHeap(base, size, heapEnd)
    ensures NoFit(mapped, base, AlignUp(heapEnd), size, heapEnd)
  {
  }

  lemma SkipMapped(mapped: set<nat>, base: nat, probe: nat, size: nat, heapEnd: nat)
    requires base <= probe < base + size && probe in mapped && probe % PAGE == 0
    ensures NoFit(mapped, base, probe + PAGE, size, heapEnd)
  {
    forall b | base <= b < probe + PAGE
      ensures !Fits(mapped, b, size, heapEnd)
    {
      if b % PAGE == 0 {
        assert b <= probe;
      }
    }
  }

  lemma SkipTop(mapped: set<nat>, base: nat, size: nat, heapEnd: nat)
    requires base >= MMAP_MIN && !RangeOk(base, size)
    ensures forall b :: base <= b ==> !Fits(mapped, b, size, heapEnd)
  {
  }

  /** user_mmap_find_gap: the lowest place at or above the start, if there is any. */
  method FindGap(mapped: set<nat>, start: nat, size: nat, heapEnd: nat) returns (ok: bool, base: nat)
    requires AllPages(mapped) && start < U64 && heapEnd < U64
    ensures ok ==> Fits(mapped, base, size, heapEnd) && Lowest(start) <= base
    ensures ok ==> NoFit(mapped, Lowest(start), base, size, heapEnd)
    ensures !ok ==> forall b :: Lowest(start) <= b ==> !Fits(mapped, b, size, heapEnd)
  {
    hide OffHeap;
    base := AlignUp(start);
    if size == 0 {
      return false, base;
    }
    if base < MMAP_MIN {
      base := MMAP_MIN;
    }
    while true
      invariant base % PAGE == 0 && Lowest(start) <= base && MMAP_MIN <= base
      invariant NoFit(mapped, Lowest(start), base, size, heapEnd)
      decreases USER_LIMIT - base
    {
      if !RangeOk(base, size) {
        SkipTop(mapped, base, size, heapEnd);
        return false, base;
      }
      if !OffHeap(base, size, heapEnd) {
        SkipHeap(mapped, base, size, heapEnd);
        HeapAhead(base, size, heapEnd);
        base := AlignUp(heapEnd);
        continue;
      }
      var free := RangeFree(mapped, base, size);
      if free {
        return true, base;
      }
      var probe := FirstMapped(mapped, base, size);
      SkipMapped(mapped, base, probe, size, heapEnd);
      base := probe + PAGE;
    }
  }

  lemma HeapAhead(base: nat, size: nat, heapEnd: nat)
    requires !OffHeap(base, size, heapEnd)
    ensures base < AlignUp(heapEnd)
  {
  }
}
