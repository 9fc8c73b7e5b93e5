/**
 Which requests must succeed: how many free pages fork and map need, counted over the tables.
 */
module Supply {
  import opened Common
  import opened Pmm
  import opened Paging
  import opened Trees
  import opened Addresses

  /** The pages the allocator could hand out. */
  ghost function FreePages(g: World): set<Frame> {
    set f | f in g.man && f < |g.refs| && g.refs[f] == 0
  }

  /** The direct map reaches all of the memory the allocator tracks. */
  ghost predicate Covers(hhdm: nat) {
    forall f: Frame :: 0 < f < TRACK_PAGES ==> Mappable(hhdm, f)
  }

  /** That is the case for a direct map in the upper half with room for 4 GiB. */
  lemma CoversExactly(hhdm: nat)
    ensures Covers(hhdm) <==>
            hhdm + 0x1000 >= 0xFFFF_0000_0000_0000 && hhdm + 4 * 1024 * 1024 * 1024 - 0x1000 < 0x1_0000_0000_0000_0000
  {
    if Covers(hhdm) {
      assert Mappable(hhdm, 1) && Mappable(hhdm, TRACK_PAGES - 1);
    }
  }

  ghost function TablesUnder(g: World, k: Key): set<Key> {
    set j | j in g.at && Under(j, k)
  }

  ghost function TablesBelow(g: World, k: Key, i: nat): set<Key> {
    set j | j in g.at && Below(j, k, i)
  }

  /** How many of the three tables below the root an address lacks. */
  ghost function Missing(g: World, root: Frame, path: seq<nat>): nat
    requires |path| == 4
  {
    Lacks(g, Key(root, path[..1])) + Lacks(g, Key(root, path[..2])) + Lacks(g, Key(root, path[..3]))
  }

  ghost function Lacks(g: World, k: Key): nat {
    if k in g.at then 0 else 1
  }

  /** A page can be mapped at va after `extra` further pages were taken. */
  ghost predicate CanMap(g: World, root: Frame, va: nat, extra: nat) {
    va < USER_TOP && va % PAGE_SIZE == 0 && Missing(g, root, Path(va)) + extra <= |FreePages(g)|
  }

  /** A write fault on this entry can be resolved. */
  ghost predicate Resolvable(g: World, e: Word) {
    e.p && e.u && e.cow && !e.w && ((e.addr < |g.refs| && g.refs[e.addr] == 1) || FreePages(g) != {})
  }

  /** A user store through this entry goes through. */
  ghost predicate Storable(g: World, hhdm: nat, e: Word) {
    e.p && e.u && ((e.w && Mappable(hhdm, e.addr)) || (!e.w && Resolvable(g, e)))
  }

  /** Fork of the address space with this root can be done. */
  ghost predicate CanFork(g: World, reserved: seq<bool>, root: Frame) {
    AllForkable(g, reserved, Key(root, []), 256) && |TablesUnder(g, Key(root, []))| <= |FreePages(g)|
  }

  /** A page taken from the allocator. */
  lemma OneTaken(g: World, h: World, f: Frame)
    requires f in g.man && f < |g.refs| && g.refs[f] == 0 && h.refs == g.refs[f := 1] && h.man == g.man
    ensures FreePages(h) == FreePages(g) - {f} && |FreePages(h)| == |FreePages(g)| - 1
  {
    assert FreePages(h) == FreePages(g) - {f};
    assert f in FreePages(g);
  }

  /** Preparing a page uses up one page. */
  lemma PreparedCan(g: World, np: Frame, page: Page, root: Frame, va: nat)
    requires np in g.man && np < |g.refs| && np < |g.mem| && g.refs[np] == 0
    ensures CanMap(Prepared(g, np, page), root, va, 0) <==> CanMap(g, root, va, 1)
  {
    OneTaken(g, Prepared(g, np, page), np);
  }

  lemma {:induction false} ImageSize<X(!new), Y>(a: set<X>, f: X -> Y, b: set<Y>)
    requires b == set x | x in a :: f(x)
    requires forall x, y :: x in a && y in a && f(x) == f(y) ==> x == y
    ensures |b| == |a|
    decreases a
  {
    if x :| x in a {
      ImageSize(a - {x}, f, b - {f(x)});
    }
  }

  lemma NoNewSharers(g0: World, g: World, sk: Key, dk: Key, i: nat, f: Frame)
    requires Inv(g0) && Cloned(g0, g, sk, dk, i)
    ensures Sharers(g, f) == Sharers(g0, f)
  {
    ClonedFacts(g0, g, sk, dk, i);
    forall l
      ensures l in Sharers(g, f) <==> l in Sharers(g0, f)
    {
      if l in g0.own {
        OwnedKey(g0, l);
      }
    }
  }

  ghost function NewTables(g0: World, g: World): set<Key> {
    set k | k in g.at && k !in g0.at
  }

  /** A clone takes one page for each table it makes. */
  lemma ClonedTaken(g0: World, g: World, sk: Key, dk: Key, i: nat)
    requires Inv(g0) && Inv(g) && Cloned(g0, g, sk, dk, i)
    ensures |FreePages(g0)| == |FreePages(g)| + |NewTables(g0, g)|
  {
    hide Inv, Cloned, FreePages;
    var made := NewTables(g0, g);
    var frames := set k | k in made :: FrameAt(g.at, k);
    forall k, l | k in made && l in made && FrameAt(g.at, k) == FrameAt(g.at, l)
      ensures k == l
    {
      OneFrame(g, k, l);
    }
    ImageSize(made, k => FrameAt(g.at, k), frames);
    forall f
      ensures f in FreePages(g0) <==> f in FreePages(g) || f in frames
      ensures f !in FreePages(g) || f !in frames
    {
      FreeOrTable(g0, g, sk, dk, i, f);
    }
    assert FreePages(g0) == FreePages(g) + frames;
  }

  lemma OneFrame(g: World, k: Key, l: Key)
    requires Inv(g) && SameFrame(g, k, l)
    ensures k == l
  {
  }

  function FrameAt(at: map<Key, Frame>, k: Key): Frame {
    if k in at then at[k] else 0
  }

  /** A free page is one that nothing maps, that is no table and that nobody holds. */
  lemma FreeMeans(g: World, f: Frame)
    requires Inv(g)
    ensures f in FreePages(g) <==> f in g.man && Sharers(g, f) == {} && f !in g.at.Values && f !in g.held
  {
    hide Struct, LeavesOk, Sharers;
  }

  lemma FreeOrTable(g0: World, g: World, sk: Key, dk: Key, i: nat, f: Frame)
    requires Inv(g0) && Inv(g) && Cloned(g0, g, sk, dk, i)
    ensures f in FreePages(g0) <==> f in FreePages(g) || exists k :: k in NewTables(g0, g) && FrameAt(g.at, k) == f
    ensures f !in FreePages(g) || forall k :: k in NewTables(g0, g) ==> FrameAt(g.at, k) != f
  {
    hide Inv, Cloned, Sharers, FreePages;
    NoNewSharers(g0, g, sk, dk, i, f);
    ClonedFacts(g0, g, sk, dk, i);
    FreeMeans(g0, f);
    FreeMeans(g, f);
    InvFacts(g);
    ClonedHeld(g0, g, sk, dk, i);
    if f in g.at.Values {
      var k :| k in g.at && g.at[k] == f;
      SoleTable(g, k);
      TableUnheld(g, k);
      if k in g0.at {
        assert f in g0.at.Values;
      } else {
        assert k in NewTables(g0, g);
      }
    }
  }

  lemma ClonedHeld(g0: World, g: World, sk: Key, dk: Key, i: nat)
    requires Cloned(g0, g, sk, dk, i)
    ensures g.held == g0.held
  {
  }

  lemma SoleTable(g: World, k: Key)
    requires Inv(g) && k in g.at
    ensures forall l :: l in g.at && g.at[l] == g.at[k] ==> l == k
  {
    forall l | l in g.at && g.at[l] == g.at[k]
      ensures l == k
    {
      assert SameFrame(g, l, k);
    }
  }

  lemma TableUnheld(g: World, k: Key)
    requires Inv(g) && k in g.at
    ensures g.at[k] in g.man && Sharers(g, g.at[k]) == {} && g.at[k] !in g.held
  {
    hide OwnersOk, LinksOk, OnceOk, LeavesOk, Sharers;
    assert g.at[k] in g.at.Values;
  }

  lemma NewTableIs(g0: World, g: World, sk: Key, dk: Key, i: nat, k: Key)
    requires Room(g0, sk, dk) && ClonedTables(g0, g, sk, dk, i)
    ensures k in NewTables(g0, g) <==> k == dk || (k.root == dk.root && Twin(k, sk.root) in TablesBelow(g0, sk, i))
  {
    assert Below(k, dk, i) <==> k.root == dk.root && Below(Twin(k, sk.root), sk, i);
  }

  /** The tables made are the new root and the twins of the tables already cloned. */
  lemma TwinTables(g0: World, g: World, sk: Key, dk: Key, i: nat)
    requires Room(g0, sk, dk) && ClonedTables(g0, g, sk, dk, i)
    ensures |NewTables(g0, g)| == 1 + |TablesBelow(g0, sk, i)|
  {
    hide ClonedTables, Room;
    var a := TablesBelow(g0, sk, i);
    var b := set k | k in a :: Twin(k, dk.root);
    ImageSize(a, k => Twin(k, dk.root), b);
    forall k
      ensures k in NewTables(g0, g) <==> k == dk || k in b
    {
      NewTableIs(g0, g, sk, dk, i, k);
      assert k.root == dk.root ==> Twin(Twin(k, sk.root), dk.root) == k;
      if k in b {
        var j :| j in a && Twin(j, dk.root) == k;
        assert Twin(k, sk.root) == j;
      }
    }
    assert dk !in b by {
      if dk in b {
        SelfBelow(g0, sk, dk, i);
      }
    }
    assert NewTables(g0, g) == b + {dk};
  }

  lemma SelfBelow(g0: World, sk: Key, dk: Key, i: nat)
    requires Room(g0, sk, dk)
    ensures forall k :: k in TablesBelow(g0, sk, i) ==> Twin(k, dk.root) != dk
  {
  }

  lemma ClonedCount(g0: World, g: World, sk: Key, dk: Key, i: nat)
    requires Inv(g0) && Inv(g) && Room(g0, sk, dk) && Cloned(g0, g, sk, dk, i)
    ensures |FreePages(g0)| == |FreePages(g)| + 1 + |TablesBelow(g0, sk, i)|
  {
    hide Inv, Room, ClonedTables, ClonedOwners, ClonedEntries;
    ClonedTaken(g0, g, sk, dk, i);
    TwinTables(g0, g, sk, dk, i);
  }

  /** A clone that ran out of pages at entry i needs more pages than there were. */
  lemma CloneStarved(g0: World, g: World, sk: Key, dk: Key, i: nat)
    requires Inv(g0) && Inv(g) && Room(g0, sk, dk) && Cloned(g0, g, sk, dk, i) && sk in g0.at
    requires |FreePages(g)| < |TablesUnder(g0, Kid(sk, i))|
    ensures |FreePages(g0)| < |TablesUnder(g0, sk)|
  {
    hide Inv;
    ClonedCount(g0, g, sk, dk, i);
    var a, b := TablesBelow(g0, sk, i), TablesUnder(g0, Kid(sk, i));
    forall k | k in b
      ensures k in TablesUnder(g0, sk) && k !in a && k != sk
    {
      UnderKid(k, sk, i);
    }
    SubsetSize({sk} + a + b, TablesUnder(g0, sk));
    assert |{sk} + a + b| == 1 + |a| + |b|;
  }

  /** The recursive call sees the same source tree as its caller. */
  lemma SameTree(g0: World, g: World, sk: Key, dk: Key, i: nat, k: Key)
    requires Inv(g0) && Cloned(g0, g, sk, dk, i) && Room(g0, sk, dk) && k.root == sk.root
    ensures TablesUnder(g, k) == TablesUnder(g0, k)
  {
  }

  /** A whole clone takes exactly as many pages as the source has tables. */
  lemma CloneCost(g0: World, g: World, sk: Key, dk: Key)
    requires Inv(g0) && Inv(g) && Room(g0, sk, dk) && Cloned(g0, g, sk, dk, Fan(sk)) && sk in g0.at
    ensures |FreePages(g0)| == |FreePages(g)| + |TablesUnder(g0, sk)|
  {
    hide Inv, Room, Cloned;
    InvFacts(g0);
    ClonedCount(g0, g, sk, dk, Fan(sk));
    forall k | k in TablesUnder(g0, sk) && k != sk
      ensures k in TablesBelow(g0, sk, Fan(sk))
    {
      assert |k.path| == |sk.path| ==> k.path == sk.path;
    }
    assert TablesUnder(g0, sk) == TablesBelow(g0, sk, Fan(sk)) + {sk};
  }

  lemma OneTable(g: World, k: Key)
    requires k in g.at
    ensures |TablesUnder(g, k)| >= 1
  {
    assert k in TablesUnder(g, k);
  }

  /** No present entry of a source is a large page, so that refusal never happens. */
  lemma PsStarved(g0: World, sk: Key, i: nat, n: nat)
    requires Inv(g0) && Source(g0, sk) && i < Fan(sk) && Ent(g0, Loc(sk, i)).p
    ensures Ent(g0, Loc(sk, i)).ps ==> n < |TablesUnder(g0, Kid(sk, i))|
  {
    SourceOwns(g0, sk, i);
    OwnedFacts(g0, Loc(sk, i));
  }

  lemma UndoneFree(g: World, h: World)
    requires Undone(g, h)
    ensures FreePages(h) == FreePages(g)
  {
  }

  /** Cloning the tables does not change which pages can be shared. */
  lemma ClonedForkable(g0: World, reserved: seq<bool>, g: World, sk: Key, dk: Key, i: nat)
    requires Inv(g0) && Source(g0, sk) && Room(g0, sk, dk) && Cloned(g0, g, sk, dk, i)
    ensures AllForkable(g, reserved, sk, Fan(sk)) <==> AllForkable(g0, reserved, sk, Fan(sk))
  {
    hide Inv, ClonedOwners, ClonedEntries;
    InvFacts(g0);
    ClonedFacts(g0, g, sk, dk, i);
    forall l: Loc | IsLeaf(l) && l.idx < ENTRIES && BelowLoc(l, sk, Fan(sk))
      ensures l.key in g.at <==> l.key in g0.at
      ensures l.key in g0.at && Ent(g0, l).p ==>
                Ent(g, l) == Ent(g0, l) && (Forkable(g, reserved, Ent(g, l)) <==> Forkable(g0, reserved, Ent(g0, l)))
    {
      if l.key in g0.at && Ent(g0, l).p {
        OwnedFacts(g0, l);
      }
    }
  }
}
