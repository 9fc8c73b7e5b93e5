/**
 The table of lazily mapped ranges of a task in src/kernel/main.c: how cutting a range out of it,
 changing its protection or replacing it changes what a look-up finds, address by address.
 */
module LazyMmap {
  import opened Common

  const SLOTS := 128
  const EINVAL := -22
  const ENOMEM := -12

  datatype Range = Range(start: nat, end: nat, prot: nat, used: bool)

  const EMPTY := Range(0, 0, 0, false)

  datatype Operation = Remove | SetProt | Replace

  predicate Live(m: Range) {
    m.used && m.start < m.end
  }

  predicate Holds(m: Range, addr: nat) {
    m.used && m.start <= addr < m.end
  }

  /** The protection of the first range that holds the address. */
  function Lookup(table: seq<Range>, addr: nat): Option<nat> {
    if table == [] then None
    else if Holds(table[0], addr) then Some(table[0].prot)
    else Lookup(table[1..], addr)
  }

  /** task_lazy_mmap_protection */
  method Protection(table: seq<Range>, addr: nat) returns (r: Option<nat>)
    ensures r == Lookup(table, addr)
    ensures r == None <==>
            forall i :: 0 <= i < |table| && table[i].used ==> !(table[i].start <= addr < table[i].end)
    ensures r != None ==>
              exists i :: 0 <= i < |table| && r == Some(table[i].prot) && Holds(table[i], addr)
                          && forall j :: 0 <= j < i ==> !Holds(table[j], addr)
  {
    for i := 0 to |table|
      invariant Lookup(table, addr) == Lookup(table[i..], addr)
      invariant forall j :: 0 <= j < i ==> !Holds(table[j], addr)
    {
      if Holds(table[i], addr) {
        return Some(table[i].prot);
      }
    }
    return None;
  }

  /** What a change of [start, end) is meant to do to the protection found at an address. */
  function Changed(was: Option<nat>, addr: nat, start: nat, end: nat, op: Operation, prot: nat): Option<nat> {
    if !(start <= addr < end) then was else
      match op
      case Remove => None
      case SetProt => if was.Some? then Some(prot) else None
      case Replace => Some(prot)
  }

  /** What remains of one range. */
  function Pieces(m: Range, start: nat, end: nat, op: Operation, prot: nat): (out: seq<Range>)
    ensures |out| <= 3
  {
    if !Live(m) then []
    else if m.end <= start || m.start >= end then [m]
    else
      var os := if m.start > start then m.start else start;
      var oe := if m.end < end then m.end else end;
      (if m.start < start then [Range(m.start, start, m.prot, true)] else [])
      + (if op == SetProt && os < oe then [Range(os, oe, prot, true)] else [])
      + (if m.end > end then [Range(end, m.end, m.prot, true)] else [])
  }

  function AllPieces(table: seq<Range>, start: nat, end: nat, op: Operation, prot: nat): seq<Range> {
    if table == [] then []
    else AllPieces(table[..|table| - 1], start, end, op, prot) + Pieces(table[|table| - 1], start, end, op, prot)
  }

  /** The ranges after the change, however many they are. */
  function Rebuilt(table: seq<Range>, start: nat, end: nat, op: Operation, prot: nat): seq<Range> {
    AllPieces(table, start, end, op, prot) + if op == Replace then [Range(start, end, prot, true)] else []
  }

  function Padded(ranges: seq<Range>): (table: seq<Range>)
    requires |ranges| <= SLOTS
    ensures |table| == SLOTS
  {
    ranges + seq(SLOTS - |ranges|, i => EMPTY)
  }

  lemma {:induction false} LookupBoth(a: seq<Range>, b: seq<Range>, addr: nat)
    ensures Lookup(a + b, addr) == if Lookup(a, addr).Some? then Lookup(a, addr) else Lookup(b, addr)
  {
    if a == [] {
      assert a + b == b;
    } else {
      assert (a + b)[1..] == a[1..] + b;
      LookupBoth(a[1..], b, addr);
    }
  }

  lemma {:induction false} LookupEmpty(n: nat, addr: nat)
    ensures Lookup(seq(n, i => EMPTY), addr) == None
  {
    if n > 0 {
      assert seq(n, i => EMPTY)[1..] == seq(n - 1, i => EMPTY);
      LookupEmpty(n - 1, addr);
    }
  }

  lemma PaddedLookup(ranges: seq<Range>, addr: nat)
    requires |ranges| <= SLOTS
    ensures Lookup(Padded(ranges), addr) == Lookup(ranges, addr)
  {
    var pad := seq(SLOTS - |ranges|, i => EMPTY);
    LookupEmpty(|pad|, addr);
    LookupBoth(ranges, pad, addr);
  }

  lemma PiecesLookup(m: Range, start: nat, end: nat, op: Operation, prot: nat, addr: nat)
    requires start < end
    ensures Lookup(Pieces(m, start, end, op, prot), addr) ==
            if op == Replace && start <= addr < end then None
            else Changed(Lookup([m], addr), addr, start, end, op, prot)
  {
    if Live(m) && !(m.end <= start || m.start >= end) {
      var os := if m.start > start then m.start else start;
      var oe := if m.end < end then m.end else end;
      var a := if m.start < start then [Range(m.start, start, m.prot, true)] else [];
      var b := if op == SetProt && os < oe then [Range(os, oe, prot, true)] else [];
      var c := if m.end > end then [Range(end, m.end, m.prot, true)] else [];
      LookupBoth(a + b, c, addr);
      LookupBoth(a, b, addr);
    }
  }

  lemma {:induction false} AllPiecesLookup(table: seq<Range>, start: nat, end: nat, op: Operation, prot: nat, addr: nat)
    requires start < end
    ensures Lookup(AllPieces(table, start, end, op, prot), addr) ==
            if op == Replace && start <= addr < end then None
            else Changed(Lookup(table, addr), addr, start, end, op, prot)
  {
    if table != [] {
      var front, last := table[..|table| - 1], table[|table| - 1];
      AllPiecesLookup(front, start, end, op, prot, addr);
      PiecesLookup(last, start, end, op, prot, addr);
      LookupBoth(AllPieces(front, start, end, op, prot), Pieces(last, start, end, op, prot), addr);
      assert table == front + [last];
      LookupBoth(front, [last], addr);
    }
  }

  /** The change does to every address exactly what it is meant to do, even where ranges overlap. */
  lemma RebuiltLookup(table: seq<Range>, start: nat, end: nat, op: Operation, prot: nat, addr: nat)
    requires start < end
    ensures Lookup(Rebuilt(table, start, end, op, prot), addr) ==
            Changed(Lookup(table, addr), addr, start, end, op, prot)
  {
    AllPiecesLookup(table, start, end, op, prot, addr);
    var added := if op == Replace then [Range(start, end, prot, true)] else [];
    LookupBoth(AllPieces(table, start, end, op, prot), added, addr);
  }

  /** No live range ends above the cursor. */
  ghost predicate EndsBelow(table: seq<Range>, cursor: nat) {
    forall i :: 0 <= i < |table| && Live(table[i]) ==> table[i].end <= cursor
  }

  lemma EndsBoth(a: seq<Range>, b: seq<Range>, cursor: nat)
    requires EndsBelow(a, cursor) && EndsBelow(b, cursor)
    ensures EndsBelow(a + b, cursor)
  {
  }

  lemma {:induction false} PiecesEnd(table: seq<Range>, start: nat, end: nat, op: Operation, prot: nat, cursor: nat)
    requires EndsBelow(table, cursor)
    ensures EndsBelow(AllPieces(table, start, end, op, prot), cursor)
  {
    if table != [] {
      var front, last := table[..|table| - 1], table[|table| - 1];
      PiecesEnd(front, start, end, op, prot, cursor);
      assert EndsBelow(Pieces(last, start, end, op, prot), cursor);
      EndsBoth(AllPieces(front, start, end, op, prot), Pieces(last, start, end, op, prot), cursor);
    }
  }

  /** Only a replacement can make a range end higher. */
  lemma RebuiltEnd(table: seq<Range>, start: nat, end: nat, op: Operation, prot: nat, cursor: nat)
    requires EndsBelow(table, cursor) && |Rebuilt(table, start, end, op, prot)| <= SLOTS
    requires (op == Replace ==> end <= cursor)
    ensures EndsBelow(Padded(Rebuilt(table, start, end, op, prot)), cursor)
  {
    PiecesEnd(table, start, end, op, prot, cursor);
  }

  function LiveCount(table: seq<Range>): nat {
    if table == [] then 0 else LiveCount(table[..|table| - 1]) + if Live(table[|table| - 1]) then 1 else 0
  }

  /** Above all live ranges, nothing is cut. */
  lemma {:induction false} NothingCut(table: seq<Range>, start: nat, end: nat, op: Operation, prot: nat)
    requires EndsBelow(table, start)
    ensures |AllPieces(table, start, end, op, prot)| == LiveCount(table)
  {
    if table != [] {
      NothingCut(table[..|table| - 1], start, end, op, prot);
    }
  }

  /** An address found in a table lies below every bound on the ends of its ranges. */
  lemma {:induction false} FoundBelow(table: seq<Range>, cursor: nat, addr: nat)
    requires EndsBelow(table, cursor) && cursor <= addr
    ensures Lookup(table, addr) == None
  {
    if table != [] {
      FoundBelow(table[1..], cursor, addr);
    }
  }

  /** task_lazy_mmap_transform: all ranges that fit, or an unchanged table. */
  method Transform(table: seq<Range>, start: nat, end: nat, op: Operation, prot: nat) returns (rc: int,
                   after: seq<Range>)
    requires |table| == SLOTS
    ensures |after| == SLOTS
    ensures rc == if start >= end then EINVAL else if |Rebuilt(table, start, end, op, prot)| > SLOTS then ENOMEM else 0
    ensures rc != 0 ==> after == table
    ensures rc == 0 ==> after == Padded(Rebuilt(table, start, end, op, prot))
    ensures rc == 0 ==> forall addr :: Lookup(after, addr) == Changed(Lookup(table, addr), addr, start, end, op, prot)
  {
    if start >= end {
      return EINVAL, table;
    }
    var ok, out := KeepPieces(table, start, end, op, prot);
    if ok && op == Replace {
      if |out| >= SLOTS {
        ok := false;
      } else {
        out := out + [Range(start, end, prot, true)];
      }
    }
    if !ok {
      return ENOMEM, table;
    }
    assert out == Rebuilt(table, start, end, op, prot);
    forall addr
      ensures Lookup(Padded(out), addr) == Changed(Lookup(table, addr), addr, start, end, op, prot)
    {
      RebuiltLookup(table, start, end, op, prot, addr);
      PaddedLookup(out, addr);
    }
    return 0, Padded(out);
  }

  /** The loop over the old table. */
  method KeepPieces(table: seq<Range>, start: nat, end: nat, op: Operation, prot: nat) returns (ok: bool,
                    out: seq<Range>)
    requires |table| == SLOTS && start < end
    ensures ok <==> |AllPieces(table, start, end, op, prot)| <= SLOTS
    ensures ok ==> out == AllPieces(table, start, end, op, prot)
  {
    hide Pieces;
    ok, out := true, [];
    for i := 0 to SLOTS
      invariant out == AllPieces(table[..i], start, end, op, prot) && |out| <= SLOTS
    {
      PiecesGrow(table, start, end, op, prot, i + 1);
      assert table[..i + 1][..i] == table[..i];
      ok, out := KeepSome(table[i], start, end, op, prot, out);
      if !ok {
        return;
      }
    }
    assert table[..SLOTS] == table;
    return true, out;
  }

  /** One turn of the loop. */
  method KeepSome(m: Range, start: nat, end: nat, op: Operation, prot: nat, was: seq<Range>) returns (ok: bool,
                  out: seq<Range>)
    requires |was| <= SLOTS && start < end
    ensures ok <==> |was + Pieces(m, start, end, op, prot)| <= SLOTS
    ensures ok ==> out == was + Pieces(m, start, end, op, prot)
  {
    out := was;
    if !m.used || m.start >= m.end {
      return true, out;
    }
    if m.end <= start || m.start >= end {
      if |out| >= SLOTS {
        return false, out;
      }
      return true, out + [m];
    }
    if m.start < start {
      if |out| >= SLOTS {
        return false, out;
      }
      out := out + [Range(m.start, start, m.prot, true)];
    }
    var os := if m.start > start then m.start else start;
    var oe := if m.end < end then m.end else end;
    if op == SetProt && os < oe {
      if |out| >= SLOTS {
        return false, out;
      }
      out := out + [Range(os, oe, prot, true)];
    }
    if m.end > end {
      if |out| >= SLOTS {
        return false, out;
      }
      out := out + [Range(end, m.end, m.prot, true)];
    }
    return true, out;
  }

  lemma {:induction false} PiecesGrow(table: seq<Range>, start: nat, end: nat, op: Operation, prot: nat, i: nat)
    requires i <= |table|
    ensures |AllPieces(table[..i], start, end, op, prot)| <= |AllPieces(table, start, end, op, prot)|
    decreases |table| - i
  {
    if i == |table| {
      assert table[..i] == table;
    } else {
      PiecesGrow(table, start, end, op, prot, i + 1);
      assert table[..i + 1][..i] == table[..i];
    }
  }
}
