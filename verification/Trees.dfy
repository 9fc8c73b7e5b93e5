/**
 What the recursive passes of fork and teardown do to the tables below one table.
 */
module Trees {
  import opened Pmm
  import opened Paging

  /** Key k lies strictly below dk, through an entry before entry i. */
  predicate Below(k: Key, dk: Key, i: nat) {
    Under(k, dk) && |k.path| > |dk.path| && k.path[|dk.path|] < i
  }

  /** The same for an entry of dk or of a table below it. */
  predicate BelowLoc(l: Loc, dk: Key, i: nat) {
    Under(l.key, dk) && if |l.key.path| == |dk.path| then l.idx < i else l.key.path[|dk.path|] < i
  }

  /** Every table below dk hangs in the tree under dk. */
  ghost predicate OneTree(g: World, dk: Key) {
    forall k :: k in g.tops && Under(k, dk) ==> k == dk
  }

  /** Every present entry above the leaves at or below dk owns its table. */
  ghost predicate LinksOwned(g: World, dk: Key) {
    forall l: Loc :: l.key in g.at && Under(l.key, dk) && !IsLeaf(l) && l.idx < Fan(l.key) && Ent(g, l).p ==> l in g.own
  }

  /** A tree of tables whose leaf entries own nothing: what a failed fork throws away. */
  ghost predicate Throwaway(g: World, dk: Key) {
    && dk in g.at && (dk.path == [] || dk in g.tops) && OneTree(g, dk) && LinksOwned(g, dk)
    && (forall l :: l in g.own && Under(l.key, dk) ==> !IsLeaf(l))
  }

  /** Counts of pages the allocator does not manage are as before. */
  ghost predicate SameOutside(g0: World, g: World) {
    |g.refs| == |g0.refs| && forall f :: 0 <= f < |g0.refs| && f !in g0.man ==> g.refs[f] == g0.refs[f]
  }

  /** The trees below the first i entries of dk are gone; nothing else changed. */
  ghost predicate Pruned(g0: World, g: World, dk: Key, i: nat) {
    && g.mem == g0.mem && g.tops == g0.tops && g.held == g0.held && g.man == g0.man && SameOutside(g0, g)
    && (forall k :: k in g.at <==> k in g0.at && !Below(k, dk, i))
    && (forall k :: k in g.at ==> k in g0.at && g.at[k] == g0.at[k])
    && (forall l :: l in g.own <==> l in g0.own && !BelowLoc(l, dk, i))
  }

  /** dk and everything below it is gone; nothing else changed. */
  ghost predicate Uprooted(g0: World, g: World, dk: Key) {
    && g.mem == g0.mem && g.tops == g0.tops - {dk} && g.held == g0.held && g.man == g0.man && SameOutside(g0, g)
    && (forall k :: k in g.at <==> k in g0.at && !Under(k, dk))
    && (forall k :: k in g.at ==> k in g0.at && g.at[k] == g0.at[k])
    && (forall l :: l in g.own <==> l in g0.own && !Under(l.key, dk))
  }

  lemma PrunedNone(g: World, dk: Key)
    ensures Pruned(g, g, dk, 0)
  {
  }

  /** From any table below dk there is a table right below dk that leads to it. */
  lemma {:induction false} ChainUp(g: World, dk: Key, k: Key)
    requires Inv(g) && OneTree(g, dk) && k in g.at && Under(k, dk) && |k.path| > |dk.path|
    ensures Kid(dk, k.path[|dk.path|]) in g.at && Loc(dk, k.path[|dk.path|]) in g.own
    decreases |k.path|
  {
    assert Linked(g, k);
    OwnedKey(g, Loc(Up(k), Last(k)));
    if |k.path| == |dk.path| + 1 {
      assert Up(k).path == dk.path;
      assert Kid(dk, k.path[|dk.path|]).path == k.path;
    } else {
      ChainUp(g, dk, Up(k));
    }
  }

  lemma OwnedKey(g: World, l: Loc)
    requires Inv(g) && l in g.own
    ensures l.key in g.at
  {
  }

  /** Where entry i of dk is absent there is nothing to throw away. */
  lemma PruneAbsent(g0: World, g: World, dk: Key, i: nat)
    requires Inv(g0) && Throwaway(g0, dk) && |dk.path| < 3 && i < Fan(dk)
    requires Pruned(g0, g, dk, i) && !Ent(g0, Loc(dk, i)).p
    ensures Pruned(g0, g, dk, i + 1)
  {
    AbsentNotOwned(g0, Loc(dk, i));
    forall k | k in g0.at && Under(k, dk) && |k.path| > |dk.path|
      ensures k.path[|dk.path|] != i
    {
      ChainUp(g0, dk, k);
    }
    forall l | l in g0.own && BelowLoc(l, dk, i + 1)
      ensures BelowLoc(l, dk, i)
    {
      OwnedKey(g0, l);
    }
  }

  lemma AbsentNotOwned(g: World, l: Loc)
    requires Inv(g) && !Ent(g, l).p
    ensures l !in g.own
  {
  }

  /** Where entry i of dk is present, the table below it is a tree of its own once it is cut off. */
  lemma CutReady(g0: World, g: World, dk: Key, i: nat)
    requires Inv(g0) && Inv(g) && Throwaway(g0, dk) && |dk.path| < 3 && i < Fan(dk)
    requires Pruned(g0, g, dk, i) && Ent(g0, Loc(dk, i)).p
    ensures Loc(dk, i) in g.own && Kid(dk, i) in g.at && g.at[Kid(dk, i)] == Ent(g0, Loc(dk, i)).addr
    ensures !Ent(g0, Loc(dk, i)).ps
    ensures Inv(LinkCut(g, Loc(dk, i))) && Throwaway(LinkCut(g, Loc(dk, i)), Kid(dk, i))
  {
    hide Inv;
    var l := Loc(dk, i);
    var h := LinkCut(g, l);
    CutKeeps(g, l);
    OwnedNoPs(g0, l);
    SameEntries(g0, g);
    forall k | k in h.tops && Under(k, Kid(dk, i))
      ensures k == Kid(dk, i)
    {
      assert k in g0.tops ==> Under(k, dk) && k == dk;
    }
    forall m: Loc | m.key in h.at && Under(m.key, Kid(dk, i)) && !IsLeaf(m) && m.idx < Fan(m.key) && Ent(h, m).p
      ensures m in h.own
    {
      assert m.key.path[|dk.path|] == i;
    }
  }

  lemma OwnedNoPs(g: World, l: Loc)
    requires Inv(g) && l in g.own
    ensures !Ent(g, l).ps
  {
  }

  lemma SameEntries(g0: World, g: World)
    requires g.mem == g0.mem && forall k :: k in g.at ==> k in g0.at && g.at[k] == g0.at[k]
    ensures forall l: Loc :: l.key in g.at ==> Ent(g, l) == Ent(g0, l)
  {
  }

  lemma PrunePresent(g0: World, g: World, g2: World, dk: Key, i: nat)
    requires Pruned(g0, g, dk, i) && Throwaway(g0, dk)
    requires Uprooted(LinkCut(g, Loc(dk, i)), g2, Kid(dk, i)) && Kid(dk, i) !in g0.tops
    ensures Pruned(g0, g2, dk, i + 1)
  {
    forall k
      ensures Below(k, dk, i + 1) <==> Below(k, dk, i) || Under(k, Kid(dk, i))
    {
      UnderKid(k, dk, i);
    }
    forall l
      ensures BelowLoc(l, dk, i + 1) <==> BelowLoc(l, dk, i) || l == Loc(dk, i) || Under(l.key, Kid(dk, i))
    {
      UnderKid(l.key, dk, i);
      if Under(l.key, dk) && |l.key.path| == |dk.path| {
        assert l.key.path == dk.path;
      }
    }
    assert g2.tops == g0.tops;
  }

  lemma UnderKid(k: Key, dk: Key, i: nat)
    ensures Under(k, Kid(dk, i)) <==> Under(k, dk) && |k.path| > |dk.path| && k.path[|dk.path|] == i
  {
    if Under(k, dk) && |k.path| > |dk.path| && k.path[|dk.path|] == i {
      assert k.path[..|dk.path| + 1] == dk.path + [i];
    }
    if Under(k, Kid(dk, i)) {
      assert k.path[..|dk.path| + 1] == dk.path + [i];
    }
  }

  /** A table of leaf entries that own nothing has nothing below it. */
  lemma PruneLeafTable(g: World, dk: Key)
    requires Inv(g) && Throwaway(g, dk) && |dk.path| == 3
    ensures Pruned(g, g, dk, ENTRIES)
  {
    forall k | k in g.at
      ensures !Below(k, dk, ENTRIES)
    {
    }
    forall l | l in g.own
      ensures !BelowLoc(l, dk, ENTRIES)
    {
      OwnedKey(g, l);
    }
  }

  /** With everything below it gone, dk itself can go. */
  lemma PruneAll(g0: World, g: World, dk: Key)
    requires Inv(g0) && Inv(g) && Throwaway(g0, dk) && Pruned(g0, g, dk, Fan(dk))
    ensures dk in g.at && (dk.path == [] || dk in g.tops) && forall l :: l in g.own ==> l.key != dk
    ensures g.at[dk] < |g.refs| && g.refs[g.at[dk]] == 1 && Inv(TableRemoved(g, dk))
    ensures Uprooted(g0, Released(TableRemoved(g, dk), g.at[dk]), dk)
  {
    hide Inv;
    InvFacts(g0);
    InvFacts(g);
    forall l | l in g.own
      ensures !Under(l.key, dk)
    {
      OwnedIdx(g0, l);
      if Under(l.key, dk) && |l.key.path| > |dk.path| {
        FanBound(l.key, dk);
      }
    }
    forall k | k in g.at && Under(k, dk)
      ensures k == dk
    {
      if |k.path| > |dk.path| {
        FanBound(k, dk);
      } else {
        assert k.path == dk.path;
      }
    }
    RemoveTableKeeps(g, dk);
    assert g.held + multiset{g.at[dk]} - multiset{g.at[dk]} == g.held;
  }

  lemma ReachFewer(hhdm: nat, at: map<Key, Frame>, bt: map<Key, Frame>)
    requires ReachOk(hhdm, at) && forall k :: k in bt ==> k in at && bt[k] == at[k]
    ensures ReachOk(hhdm, bt)
  {
    forall k | k in bt
      ensures Reached(hhdm, bt, k)
    {
      assert Reached(hhdm, at, k);
    }
  }

  lemma ThrowawayRoot(g: World, k: Key)
    requires Throwaway(g, k)
    ensures k in g.at
  {
  }

  /** A present entry never maps a large page. */
  lemma PsAbsent(g: World, k: Key, i: nat)
    requires Inv(g) && Throwaway(g, k) && |k.path| < 3 && i < Fan(k)
    ensures Ent(g, Loc(k, i)).ps ==> !Ent(g, Loc(k, i)).p
  {
    if Ent(g, Loc(k, i)).p {
      OwnedNoPs(g, Loc(k, i));
    }
  }

  lemma KidNoTop(g: World, k: Key, i: nat)
    requires Throwaway(g, k)
    ensures Kid(k, i) !in g.tops
  {
    assert Under(Kid(k, i), k);
  }

  lemma PrunedFrame(g0: World, g: World, k: Key, i: nat)
    requires Pruned(g0, g, k, i) && k in g.at
    ensures k in g0.at && g.at[k] == g0.at[k] && g.mem == g0.mem && g.man == g0.man
  {
  }

  lemma OwnedIdx(g: World, l: Loc)
    requires Inv(g) && l in g.own
    ensures l.key in g.at && l.idx < Fan(l.key) && GoodKey(l.key)
  {
  }

  lemma FanBound(k: Key, dk: Key)
    requires GoodKey(k) && Under(k, dk) && |k.path| > |dk.path|
    ensures k.path[|dk.path|] < Fan(dk)
  {
  }

  // ----- Cloning tables -----

  function Twin(k: Key, root: Frame): Key {
    Key(root, k.path)
  }

  function TwinLoc(l: Loc, root: Frame): Loc {
    Loc(Key(root, l.key.path), l.idx)
  }

  /** A page in use, or not the allocator's, is as before, with the same count. */
  ghost predicate LiveSame(g0: World, g: World) {
    && |g.mem| == |g0.mem| && |g.refs| == |g0.refs|
    && (forall f :: 0 <= f < |g0.mem| && f < |g0.refs| && (f !in g0.man || g0.refs[f] > 0) ==>
          g.mem[f] == g0.mem[f] && g.refs[f] == g0.refs[f])
  }

  /** Everything a failed fork may leave behind is the old contents of free pages. */
  ghost predicate Undone(g0: World, g: World) {
    && g.at == g0.at && g.tops == g0.tops && g.own == g0.own && g.held == g0.held && g.man == g0.man
    && g.refs == g0.refs && LiveSame(g0, g)
  }

  /** The source of a clone: one tree, all of whose present entries own what they point to. */
  ghost predicate Source(g: World, sk: Key) {
    && sk in g.at && OneTree(g, sk)
    && (forall l: Loc :: l.key in g.at && Under(l.key, sk) && l.idx < Fan(l.key) && Ent(g, l).p ==> l in g.own)
  }

  /** Room for a clone of sk at dk. */
  ghost predicate Room(g: World, sk: Key, dk: Key) {
    dk.path == sk.path && dk.root != sk.root && forall k :: k in g.at ==> !Under(k, dk)
  }

  /** What a clone of entry e holds at l. */
  function CopyOf(g: World, e: Word, l: Loc): Word {
    if !e.p then ZERO
    else if IsLeaf(l) then e
    else e.(addr := if Kid(l.key, l.idx) in g.at then g.at[Kid(l.key, l.idx)] else 0)
  }

  /** The entries of dk before entry i, and the trees below them, are cloned from sk. */
  ghost predicate Cloned(g0: World, g: World, sk: Key, dk: Key, i: nat) {
    && g.man == g0.man && g.held == g0.held && g.tops == g0.tops + {dk} && LiveSame(g0, g)
    && dk in g.at && g.at[dk] < |g0.refs| && g0.refs[g.at[dk]] == 0
    && ClonedTables(g0, g, sk, dk, i) && ClonedOwners(g0, g, sk, dk, i) && ClonedEntries(g0, g, sk, dk, i)
  }

  ghost predicate ClonedTables(g0: World, g: World, sk: Key, dk: Key, i: nat) {
    && (forall k :: k in g.at <==> k in g0.at || k == dk || (Below(k, dk, i) && Twin(k, sk.root) in g0.at))
    && (forall k :: k in g0.at ==> k in g.at && g.at[k] == g0.at[k])
  }

  ghost predicate ClonedOwners(g0: World, g: World, sk: Key, dk: Key, i: nat) {
    forall l :: l in g.own <==> l in g0.own || (BelowLoc(l, dk, i) && !IsLeaf(l) && TwinLoc(l, sk.root) in g0.own)
  }

  ghost predicate ClonedEntries(g0: World, g: World, sk: Key, dk: Key, i: nat) {
    forall l: Loc :: l.key in g.at && Under(l.key, dk) && l.idx < Fan(l.key) ==>
      Ent(g, l) == if BelowLoc(l, dk, i) then CopyOf(g, Ent(g0, TwinLoc(l, sk.root)), l) else ZERO
  }

  /** Tables that were there before keep their entries. */
  lemma LiveEntries(g0: World, g: World)
    requires Inv(g0) && LiveSame(g0, g) && forall k :: k in g0.at ==> k in g.at && g.at[k] == g0.at[k]
    ensures forall l: Loc :: l.key in g0.at ==> Ent(g, l) == Ent(g0, l)
  {
    forall l: Loc | l.key in g0.at
      ensures Ent(g, l) == Ent(g0, l)
    {
      assert g0.at[l.key] in g0.at.Values;
    }
  }

  /** Entry i of the source is absent: nothing to clone. */
  lemma CloneAbsent(g0: World, g: World, sk: Key, dk: Key, i: nat)
    requires Inv(g0) && Source(g0, sk) && Room(g0, sk, dk) && |sk.path| <= 3 && i < Fan(sk)
    requires Cloned(g0, g, sk, dk, i) && !Ent(g0, Loc(sk, i)).p
    ensures Cloned(g0, g, sk, dk, i + 1)
  {
    hide Inv;
    AbsentNotOwned(g0, Loc(sk, i));
    forall k | Below(k, dk, i + 1) && Twin(k, sk.root) in g0.at
      ensures Below(k, dk, i)
    {
      ChainUp(g0, sk, Twin(k, sk.root));
    }
    forall l | BelowLoc(l, dk, i + 1) && TwinLoc(l, sk.root) in g0.own
      ensures BelowLoc(l, dk, i)
    {
      OwnedKey(g0, TwinLoc(l, sk.root));
      if |l.key.path| > |dk.path| {
        ChainUp(g0, sk, Twin(l.key, sk.root));
      } else {
        assert l.key.path == dk.path;
      }
    }
    forall l: Loc |
      l.key in g.at && Under(l.key, dk) && l.idx < Fan(l.key) && BelowLoc(l, dk, i + 1) && !BelowLoc(l, dk, i)
      ensures Ent(g, l) == ZERO && !Ent(g0, TwinLoc(l, sk.root)).p
    {
      assert l.key.path == dk.path;
    }
  }

  /** Entry i of a last-level source table is copied as it is. */
  lemma CloneLeaf(g0: World, g: World, sk: Key, dk: Key, i: nat)
    requires Inv(g0) && Inv(g) && Source(g0, sk) && Room(g0, sk, dk) && |sk.path| == 3 && i < ENTRIES
    requires Cloned(g0, g, sk, dk, i)
    ensures Loc(dk, i) !in g.own && g.at[dk] < |g.mem| && |g.mem[g.at[dk]]| == ENTRIES
    ensures Inv(Store(g, Loc(dk, i), Ent(g0, Loc(sk, i))))
    ensures Ent(g0, Loc(sk, i)).p ==> Cloned(g0, Store(g, Loc(dk, i), Ent(g0, Loc(sk, i))), sk, dk, i + 1)
  {
    hide Inv;
    InvFacts(g0);
    InvFacts(g);
    var l := Loc(dk, i);
    var e := Ent(g0, Loc(sk, i));
    if l in g0.own {
      OwnedKey(g0, l);
    }
    WriteKeeps(g, l, e);
    var h := Store(g, l, e);
    forall m | BelowLoc(m, dk, i + 1)
      ensures BelowLoc(m, dk, i) || m == l || |m.key.path| > 3
    {
      if |m.key.path| == |dk.path| {
        assert m.key.path == dk.path;
      }
    }
    forall m | TwinLoc(m, sk.root) in g0.own
      ensures |m.key.path| <= 3
    {
      OwnedIdx(g0, TwinLoc(m, sk.root));
    }
    if e.p {
      assert ClonedTables(g0, h, sk, dk, i + 1);
      assert ClonedOwners(g0, h, sk, dk, i + 1);
      assert ClonedEntries(g0, h, sk, dk, i + 1);
      assert LiveSame(g0, h);
    }
  }

  /** The tree below entry i of the source can be cloned in turn. */
  lemma CloneDown(g0: World, g: World, sk: Key, dk: Key, i: nat)
    requires Inv(g0) && Inv(g) && Source(g0, sk) && Room(g0, sk, dk) && |sk.path| < 3 && i < Fan(sk)
    requires Cloned(g0, g, sk, dk, i) && Ent(g0, Loc(sk, i)).p
    ensures Source(g, Kid(sk, i)) && Room(g, Kid(sk, i), Kid(dk, i)) && GoodKey(Kid(dk, i))
    ensures Kid(sk, i) in g.at && g.at[Kid(sk, i)] == Ent(g0, Loc(sk, i)).addr && !Ent(g0, Loc(sk, i)).ps
    ensures Loc(dk, i) !in g.own && dk !in g0.at && Kid(sk, i) in g0.at && Loc(sk, i) in g0.own
  {
    hide Inv;
    InvFacts(g0);
    OwnedLeads(g0, Loc(sk, i));
    LiveEntries(g0, g);
    forall k | k in g.at
      ensures !Under(k, Kid(dk, i))
    {
      UnderKid(k, dk, i);
    }
    forall k | k in g.tops && Under(k, Kid(sk, i))
      ensures false
    {
      UnderKid(k, sk, i);
    }
    forall l: Loc | l.key in g.at && Under(l.key, Kid(sk, i)) && l.idx < Fan(l.key) && Ent(g, l).p
      ensures l in g.own
    {
      UnderKid(l.key, sk, i);
    }
    if Loc(dk, i) in g0.own {
      OwnedKey(g0, Loc(dk, i));
    }
  }

  lemma OwnedLeads(g: World, l: Loc)
    requires Inv(g) && l in g.own && !IsLeaf(l)
    ensures LeadsDown(g, l) && !Ent(g, l).ps
  {
  }

  /** The word a clone stores for the copy of the table below entry i. */
  function LinkCopy(g0: World, g: World, sk: Key, dk: Key, i: nat): Word
    requires Kid(dk, i) in g.at
  {
    Ent(g0, Loc(sk, i)).(addr := g.at[Kid(dk, i)])
  }

  lemma CloneTree(g0: World, g: World, g1: World, sk: Key, dk: Key, i: nat)
    requires Inv(g0) && Inv(g) && Inv(g1) && Source(g0, sk) && Room(g0, sk, dk) && |sk.path| < 3 && i < Fan(sk)
    requires Cloned(g0, g, sk, dk, i) && Ent(g0, Loc(sk, i)).p
    requires Cloned(g, g1, Kid(sk, i), Kid(dk, i), ENTRIES)
    ensures dk in g1.at && g1.at[dk] < |g1.mem| && |g1.mem[g1.at[dk]]| == ENTRIES && Loc(dk, i) !in g1.own
    ensures var h := LinkMade(g1, Loc(dk, i), LinkCopy(g0, g1, sk, dk, i));
            Inv(h) && Cloned(g0, h, sk, dk, i + 1)
  {
    hide Inv, ClonedTables, ClonedOwners, ClonedEntries, Source, LiveSame;
    InvFacts(g);
    InvFacts(g1);
    CloneDown(g0, g, sk, dk, i);
    CloneTreeLoc(g, g1, sk, dk, i);
    var e := LinkCopy(g0, g1, sk, dk, i);
    var h := LinkMade(g1, Loc(dk, i), e);
    SourceOwns(g0, sk, i);
    OwnedLeads(g0, Loc(sk, i));
    LinkKeeps(g1, Loc(dk, i), e);
    CloneTreeTables(g0, g, g1, h, sk, dk, i);
    CloneTreeOwners(g0, g, g1, h, sk, dk, i);
    ClonedExtends(g0, g, sk, dk, i);
    ClonedExtends(g, g1, Kid(sk, i), Kid(dk, i), ENTRIES);
    LiveEntries(g0, g);
    LiveEntries(g, g1);
    CloneTreeEntries(g0, g, g1, h, sk, dk, i);
    CloneTreeLive(g0, g, g1, h, sk, dk, i);
    TopsInAt(g, Kid(dk, i));
    assert h.tops == g0.tops + {dk};
  }

  lemma TopsInAt(g: World, k: Key)
    requires Inv(g) && k !in g.at
    ensures k !in g.tops
  {
  }

  lemma ClonedExtends(g0: World, g: World, sk: Key, dk: Key, i: nat)
    requires ClonedTables(g0, g, sk, dk, i)
    ensures forall k :: k in g0.at ==> k in g.at && g.at[k] == g0.at[k]
    ensures forall k :: k in g.at && !Under(k, dk) ==> k in g0.at
  {
  }

  lemma CloneTreeLoc(g: World, g1: World, sk: Key, dk: Key, i: nat)
    requires Room(g, Kid(sk, i), Kid(dk, i)) && dk in g.at && Loc(dk, i) !in g.own && |sk.path| < 3
    requires sk.path == dk.path
    requires ClonedTables(g, g1, Kid(sk, i), Kid(dk, i), ENTRIES)
    requires ClonedOwners(g, g1, Kid(sk, i), Kid(dk, i), ENTRIES)
    ensures dk in g1.at && g1.at[dk] == g.at[dk] && Loc(dk, i) !in g1.own && Kid(dk, i) in g1.at
  {
  }

  /** Below the clone of entry i lies exactly what lies below entries up to and including i. */
  lemma BelowStep(k: Key, dk: Key, i: nat)
    ensures Below(k, dk, i + 1) <==> Below(k, dk, i) || Under(k, Kid(dk, i))
  {
    UnderKid(k, dk, i);
  }

  lemma BelowKid(k: Key, dk: Key, i: nat)
    requires GoodKey(k) && Under(k, Kid(dk, i))
    ensures k == Kid(dk, i) || Below(k, Kid(dk, i), ENTRIES)
  {
    if |k.path| == |dk.path| + 1 {
      assert k.path == Kid(dk, i).path;
    }
  }

  lemma CloneTreeTables(g0: World, g: World, g1: World, h: World, sk: Key, dk: Key, i: nat)
    requires Inv(g0) && Room(g0, sk, dk) && Kid(sk, i) in g0.at
    requires ClonedTables(g0, g, sk, dk, i) && ClonedTables(g, g1, Kid(sk, i), Kid(dk, i), ENTRIES) && h.at == g1.at
    ensures ClonedTables(g0, h, sk, dk, i + 1)
  {
    hide Inv;
    InvFacts(g0);
    forall k
      ensures k in h.at <==> k in g0.at || k == dk || (Below(k, dk, i + 1) && Twin(k, sk.root) in g0.at)
    {
      BelowStep(k, dk, i);
      assert Twin(k, sk.root) in g.at <==> Twin(k, sk.root) in g0.at;
      if Under(k, Kid(dk, i)) && Twin(k, sk.root) in g0.at {
        assert GoodKey(Twin(k, sk.root));
        BelowKid(k, dk, i);
      }
    }
  }

  lemma CloneTreeOwners(g0: World, g: World, g1: World, h: World, sk: Key, dk: Key, i: nat)
    requires Inv(g0) && Room(g0, sk, dk) && Loc(sk, i) in g0.own && |sk.path| < 3
    requires ClonedOwners(g0, g, sk, dk, i) && ClonedOwners(g, g1, Kid(sk, i), Kid(dk, i), ENTRIES)
    requires h.own == g1.own + {Loc(dk, i)}
    ensures ClonedOwners(g0, h, sk, dk, i + 1)
  {
    hide Inv;
    forall l
      ensures l in h.own <==> l in g0.own || (BelowLoc(l, dk, i + 1) && !IsLeaf(l) && TwinLoc(l, sk.root) in g0.own)
    {
      UnderKid(l.key, dk, i);
      assert TwinLoc(l, sk.root) in g.own <==> TwinLoc(l, sk.root) in g0.own;
      if TwinLoc(l, sk.root) in g0.own {
        OwnedIdx(g0, TwinLoc(l, sk.root));
      }
      if |l.key.path| == |dk.path| && Under(l.key, dk) {
        assert l.key.path == dk.path;
      }
    }
  }

  lemma CloneTreeEntries(g0: World, g: World, g1: World, h: World, sk: Key, dk: Key, i: nat)
    requires Room(g0, sk, dk) && Inv(g1) && |sk.path| < 3 && Kid(dk, i) in g1.at && Ent(g0, Loc(sk, i)).p
    requires ClonedEntries(g0, g, sk, dk, i) && ClonedEntries(g, g1, Kid(sk, i), Kid(dk, i), ENTRIES)
    requires h.at == g1.at
    requires forall k :: k in g.at ==> k in g1.at && g1.at[k] == g.at[k]
    requires forall k :: k in g1.at && !Under(k, Kid(dk, i)) ==> k in g.at
    requires forall k :: k in g0.at ==> k in g.at && g.at[k] == g0.at[k]
    requires forall k :: k in g.at && !Under(k, dk) ==> k in g0.at
    requires forall l: Loc :: l.key in g0.at ==> Ent(g, l) == Ent(g0, l)
    requires forall l: Loc :: l.key in g.at ==> Ent(g1, l) == Ent(g, l)
    requires forall l :: Ent(h, l) == if l == Loc(dk, i) then LinkCopy(g0, g1, sk, dk, i) else Ent(g1, l)
    ensures ClonedEntries(g0, h, sk, dk, i + 1)
  {
    hide Inv, Ent, CopyOf, LinkCopy, BelowLoc;
    forall l: Loc | l.key in h.at && Under(l.key, dk) && l.idx < Fan(l.key)
      ensures Ent(h, l) == if BelowLoc(l, dk, i + 1) then CopyOf(h, Ent(g0, TwinLoc(l, sk.root)), l) else ZERO
    {
      hide ClonedEntries;
      InvFacts(g1);
      UnderKid(l.key, dk, i);
      if Under(l.key, Kid(dk, i)) {
        BelowKidLoc(l, dk, i);
        CloneTreeBelow(g0, g, g1, h, sk, dk, i, l);
      } else if l == Loc(dk, i) {
        CloneTreeHere(g0, g1, h, sk, dk, i);
      } else {
        CloneTreeBefore(g0, g, h, sk, dk, i, l);
      }
    }
  }

  lemma CloneTreeHere(g0: World, g1: World, h: World, sk: Key, dk: Key, i: nat)
    requires h.at == g1.at && |sk.path| < 3 && sk.path == dk.path && Kid(dk, i) in g1.at && Ent(g0, Loc(sk, i)).p
    requires Ent(h, Loc(dk, i)) == LinkCopy(g0, g1, sk, dk, i)
    ensures BelowLoc(Loc(dk, i), dk, i + 1)
    ensures Ent(h, Loc(dk, i)) == CopyOf(h, Ent(g0, TwinLoc(Loc(dk, i), sk.root)), Loc(dk, i))
  {
  }

  lemma BelowKidLoc(l: Loc, dk: Key, i: nat)
    requires GoodKey(l.key) && l.idx < Fan(l.key) && Under(l.key, Kid(dk, i))
    ensures BelowLoc(l, Kid(dk, i), ENTRIES) && BelowLoc(l, dk, i + 1)
  {
    UnderKid(l.key, dk, i);
  }

  lemma CloneTreeBelow(g0: World, g: World, g1: World, h: World, sk: Key, dk: Key, i: nat, l: Loc)
    requires ClonedEntries(g, g1, Kid(sk, i), Kid(dk, i), ENTRIES) && h.at == g1.at && dk.root != sk.root
    requires dk.path == sk.path
    requires l.key in g1.at && Under(l.key, Kid(dk, i)) && l.idx < Fan(l.key) && BelowLoc(l, Kid(dk, i), ENTRIES)
    requires forall m: Loc :: m.key in g0.at ==> Ent(g, m) == Ent(g0, m)
    requires forall k :: k in g.at && !Under(k, dk) ==> k in g0.at
    requires forall k :: k in g0.at ==> k in g.at
    requires Ent(h, l) == Ent(g1, l)
    ensures Ent(h, l) == CopyOf(h, Ent(g0, TwinLoc(l, sk.root)), l)
  {
    var t := TwinLoc(l, sk.root);
    assert Ent(g, t) == Ent(g0, t);
  }

  lemma CloneTreeBefore(g0: World, g: World, h: World, sk: Key, dk: Key, i: nat, l: Loc)
    requires ClonedEntries(g0, g, sk, dk, i)
    requires forall k :: k in g.at ==> k in h.at && h.at[k] == g.at[k]
    requires forall k :: k in h.at && !Under(k, Kid(dk, i)) ==> k in g.at
    requires l.key in g.at && Under(l.key, dk) && l.idx < Fan(l.key) && !Under(l.key, Kid(dk, i)) && l != Loc(dk, i)
    requires Ent(h, l) == Ent(g, l)
    ensures BelowLoc(l, dk, i + 1) <==> BelowLoc(l, dk, i)
    ensures Ent(h, l) == if BelowLoc(l, dk, i) then CopyOf(h, Ent(g0, TwinLoc(l, sk.root)), l) else ZERO
  {
    UnderKid(l.key, dk, i);
    UnderKid(Kid(l.key, l.idx), dk, i);
    if |l.key.path| == |dk.path| {
      assert l.key.path == dk.path;
    }
  }

  lemma CloneTreeLive(g0: World, g: World, g1: World, h: World, sk: Key, dk: Key, i: nat)
    requires Sized(g1) && LiveSame(g0, g) && LiveSame(g, g1) && g.man == g0.man && dk in g1.at && dk in g.at
    requires g1.at[dk] == g.at[dk] && g.at[dk] < |g0.refs| && g0.refs[g.at[dk]] == 0 && g.at[dk] in g0.man
    requires Kid(dk, i) in g1.at && i < ENTRIES
    requires g1.at[dk] < |g1.mem| && |g1.mem[g1.at[dk]]| == ENTRIES
    requires h == LinkMade(g1, Loc(dk, i), LinkCopy(g0, g1, sk, dk, i))
    ensures LiveSame(g0, h)
  {
  }

  /** An empty table at dk: the clone has begun. */
  lemma CloneStart(g0: World, sk: Key, dk: Key, f: Frame, page: Page)
    requires Inv(g0) && Room(g0, sk, dk) && f in g0.man && g0.refs[f] == 0
    requires GoodKey(dk) && (dk.path == [] ==> dk.root == f)
    requires |page| == ENTRIES && forall i :: 0 <= i < Fan(dk) ==> page[i] == ZERO
    ensures f < |g0.refs| && f < |g0.mem| && dk !in g0.at
    ensures var g := TableAdded(Filled(Alloced(g0, f), f, page), dk, f);
            Inv(g) && Cloned(g0, g, sk, dk, 0)
  {
    hide Inv, Room, LiveSame, ClonedTables, ClonedOwners, ClonedEntries, GoodKey;
    InvFacts(g0);
    var g1 := Alloced(g0, f);
    AllocKeeps(g0, f);
    FillKeeps(g1, f, page);
    var g2 := Filled(g1, f, page);
    RoomFor(g0, sk, dk);
    AddTableKeeps(g2, dk, f);
    var g := TableAdded(g2, dk, f);
    assert g0.held + multiset{f} - multiset{f} == g0.held;
    EmptyCloneTables(g0, g, sk, dk, f);
    EmptyClone(g0, g, sk, dk, f, page);
    FreeFilled(g0, g, f);
  }

  lemma RoomFor(g: World, sk: Key, dk: Key)
    requires Room(g, sk, dk)
    ensures dk !in g.at
  {
    assert Under(dk, dk);
  }

  lemma EmptyCloneTables(g0: World, g: World, sk: Key, dk: Key, f: Frame)
    requires Room(g0, sk, dk) && g.at == g0.at[dk := f] && g.own == g0.own
    ensures ClonedTables(g0, g, sk, dk, 0) && ClonedOwners(g0, g, sk, dk, 0)
  {
    RoomFor(g0, sk, dk);
  }

  /** Filling a free page touches no page in use. */
  lemma FreeFilled(g0: World, g: World, f: Frame)
    requires f in g0.man && f < |g0.refs| && f < |g0.mem| && g0.refs[f] == 0
    requires |g.mem| == |g0.mem| && g.mem == g0.mem[f := g.mem[f]] && g.refs == g0.refs[f := 1]
    ensures LiveSame(g0, g)
  {
  }

  lemma EmptyClone(g0: World, g: World, sk: Key, dk: Key, f: Frame, page: Page)
    requires Room(g0, sk, dk) && g.at == g0.at[dk := f] && f < |g.mem| && g.mem[f] == page
    requires |page| == ENTRIES && forall i :: 0 <= i < Fan(dk) ==> page[i] == ZERO
    ensures ClonedEntries(g0, g, sk, dk, 0)
  {
    forall l: Loc | l.key in g.at && Under(l.key, dk) && l.idx < Fan(l.key)
      ensures Ent(g, l) == ZERO && !BelowLoc(l, dk, 0)
    {
      assert l.key == dk;
    }
  }

  /** A clone in progress is a tree that can be thrown away. */
  lemma ClonedThrowaway(g0: World, g: World, sk: Key, dk: Key, i: nat)
    requires Inv(g0) && Source(g0, sk) && Room(g0, sk, dk) && Cloned(g0, g, sk, dk, i) && |sk.path| <= 3
    ensures Throwaway(g, dk)
  {
    hide Inv;
    InvFacts(g0);
    forall k | k in g.tops && Under(k, dk)
      ensures k == dk
    {
      if k in g0.tops {
        TopsAreTables(g0, k);
      }
    }
    forall l | l in g.own && Under(l.key, dk)
      ensures !IsLeaf(l)
    {
      if l in g0.own {
        OwnedKey(g0, l);
      }
    }
    forall l: Loc | l.key in g.at && Under(l.key, dk) && !IsLeaf(l) && l.idx < Fan(l.key) && Ent(g, l).p
      ensures l in g.own
    {
      assert Fan(l.key) == Fan(Twin(l.key, sk.root));
      assert TwinLoc(l, sk.root) in g0.own;
    }
  }

  lemma TopsAreTables(g: World, k: Key)
    requires Inv(g) && k in g.tops
    ensures k in g.at
  {
  }

  /** The counts of managed pages follow from tables, owners and held references. */
  lemma CountsDetermined(g0: World, g: World)
    requires Inv(g0) && Inv(g) && g.at == g0.at && g.own == g0.own && g.held == g0.held && g.man == g0.man
    requires forall l :: l in g0.own ==> Ent(g, l) == Ent(g0, l)
    requires SameOutside(g0, g)
    ensures g.refs == g0.refs
  {
    forall f | 0 <= f < |g0.refs|
      ensures g.refs[f] == g0.refs[f]
    {
      SameOwners(g0, g, f);
    }
  }

  /** Throwing a clone in progress away undoes the fork. */
  lemma UprootedUndone(g0: World, g: World, h: World, sk: Key, dk: Key, i: nat)
    requires Inv(g0) && Inv(h) && Source(g0, sk) && Room(g0, sk, dk) && Cloned(g0, g, sk, dk, i)
    requires Uprooted(g, h, dk)
    ensures Undone(g0, h)
  {
    hide Inv;
    InvFacts(g0);
    forall l | l in g0.own
      ensures l.key in g0.at && !Under(l.key, dk)
    {
      OwnedKey(g0, l);
    }
    assert h.own == g0.own;
    assert h.at == g0.at;
    forall k | k in g0.tops
      ensures k != dk
    {
      TopsAreTables(g0, k);
    }
    assert h.tops == g0.tops;
    LiveEntries(g0, g);
    SameEntries(g, h);
    CountsDetermined(g0, h);
  }

  /** A failed attempt further down leaves the clone in progress as it was. */
  lemma UndoneCloned(g0: World, g: World, h: World, sk: Key, dk: Key, i: nat)
    requires Inv(g) && Cloned(g0, g, sk, dk, i) && Undone(g, h)
    ensures Cloned(g0, h, sk, dk, i)
  {
    hide Inv, ClonedTables, ClonedOwners, ClonedEntries;
    LiveEntries(g, h);
    assert LiveSame(g0, h);
    SameCloned(g0, g, h, sk, dk, i);
  }

  lemma SameCloned(g0: World, g: World, h: World, sk: Key, dk: Key, i: nat)
    requires ClonedTables(g0, g, sk, dk, i) && ClonedOwners(g0, g, sk, dk, i) && ClonedEntries(g0, g, sk, dk, i)
    requires h.at == g.at && h.own == g.own && forall l: Loc :: l.key in g.at ==> Ent(h, l) == Ent(g, l)
    ensures ClonedTables(g0, h, sk, dk, i) && ClonedOwners(g0, h, sk, dk, i) && ClonedEntries(g0, h, sk, dk, i)
  {
  }

  lemma UndoneSelf(g: World)
    ensures Undone(g, g)
  {
  }

  lemma UndoneAt(g0: World, g: World)
    requires Undone(g0, g)
    ensures g.at == g0.at
  {
  }

  lemma ClonedFacts(g0: World, g: World, sk: Key, dk: Key, i: nat)
    requires Inv(g0) && Cloned(g0, g, sk, dk, i)
    ensures g.man == g0.man && dk in g.at
    ensures forall k :: k in g0.at ==> k in g.at && g.at[k] == g0.at[k]
    ensures forall l: Loc :: l.key in g0.at ==> Ent(g, l) == Ent(g0, l)
  {
    LiveEntries(g0, g);
  }

  // ----- Preflight -----

  /** A leaf entry that fork can share: a reserved page, or a managed one with a reference to spare. */
  ghost predicate Forkable(g: World, reserved: seq<bool>, e: Word) {
    && e.addr != 0
    && ((e.addr < |reserved| && reserved[e.addr])
        || (e.addr in g.man && e.addr < |g.refs| && g.refs[e.addr] < REFS_MAX))
  }

  /** All leaf entries below the first i entries of sk can be shared. */
  ghost predicate AllForkable(g: World, reserved: seq<bool>, sk: Key, i: nat) {
    forall l: Loc :: l.key in g.at && IsLeaf(l) && l.idx < ENTRIES && BelowLoc(l, sk, i) && Ent(g, l).p ==>
      Forkable(g, reserved, Ent(g, l))
  }

  lemma ForkableNone(g: World, reserved: seq<bool>, sk: Key)
    ensures AllForkable(g, reserved, sk, 0)
  {
  }

  lemma SourceOwns(g: World, sk: Key, i: nat)
    requires Source(g, sk) && i < Fan(sk) && Ent(g, Loc(sk, i)).p
    ensures Loc(sk, i) in g.own
  {
  }

  lemma ForkableAbsent(g: World, reserved: seq<bool>, sk: Key, i: nat)
    requires Inv(g) && Source(g, sk) && AllForkable(g, reserved, sk, i) && !Ent(g, Loc(sk, i)).p
    ensures AllForkable(g, reserved, sk, i + 1)
  {
    hide Inv;
    forall l: Loc | l.key in g.at && IsLeaf(l) && l.idx < ENTRIES && BelowLoc(l, sk, i + 1) && Ent(g, l).p
      ensures BelowLoc(l, sk, i)
    {
      if |l.key.path| > |sk.path| {
        ChainUp(g, sk, l.key);
        AbsentNotOwned(g, Loc(sk, i));
      } else {
        assert l.key.path == sk.path;
      }
    }
  }

  lemma ForkableLeaf(g: World, reserved: seq<bool>, sk: Key, i: nat)
    requires Inv(g) && sk in g.at && |sk.path| == 3 && i < ENTRIES && AllForkable(g, reserved, sk, i)
    requires Ent(g, Loc(sk, i)).p
    ensures AllForkable(g, reserved, sk, i + 1) <==> Forkable(g, reserved, Ent(g, Loc(sk, i)))
    ensures !Forkable(g, reserved, Ent(g, Loc(sk, i))) ==> !AllForkable(g, reserved, sk, ENTRIES)
  {
    assert BelowLoc(Loc(sk, i), sk, i + 1) && BelowLoc(Loc(sk, i), sk, ENTRIES);
    forall l: Loc | l.key in g.at && IsLeaf(l) && BelowLoc(l, sk, i + 1) && l != Loc(sk, i)
      ensures BelowLoc(l, sk, i)
    {
      if |l.key.path| == |sk.path| {
        assert l.key.path == sk.path;
      }
    }
  }

  lemma ForkableTree(g: World, reserved: seq<bool>, sk: Key, i: nat)
    requires Inv(g) && Source(g, sk) && |sk.path| < 3 && i < Fan(sk) && AllForkable(g, reserved, sk, i)
    requires Ent(g, Loc(sk, i)).p
    ensures Kid(sk, i) in g.at && g.at[Kid(sk, i)] == Ent(g, Loc(sk, i)).addr && Source(g, Kid(sk, i))
    ensures !Ent(g, Loc(sk, i)).ps
    ensures AllForkable(g, reserved, Kid(sk, i), ENTRIES) ==> AllForkable(g, reserved, sk, i + 1)
    ensures !AllForkable(g, reserved, Kid(sk, i), ENTRIES) ==> !AllForkable(g, reserved, sk, Fan(sk))
  {
    hide Inv;
    InvFacts(g);
    OwnedLeads(g, Loc(sk, i));
    SourceKid(g, sk, i);
    forall l: Loc | l.key in g.at && IsLeaf(l) && l.idx < ENTRIES
      ensures BelowLoc(l, Kid(sk, i), ENTRIES) ==> BelowLoc(l, sk, Fan(sk))
      ensures BelowLoc(l, sk, i + 1) <==> BelowLoc(l, sk, i) || BelowLoc(l, Kid(sk, i), ENTRIES)
    {
      UnderKid(l.key, sk, i);
      if Under(l.key, Kid(sk, i)) {
        BelowKidLoc(l, sk, i);
      }
    }
  }

  lemma SourceKid(g: World, sk: Key, i: nat)
    requires Source(g, sk) && Kid(sk, i) in g.at
    ensures Source(g, Kid(sk, i))
  {
    forall k | Under(k, Kid(sk, i))
      ensures Under(k, sk) && k != sk
    {
      UnderKid(k, sk, i);
    }
  }

  // ----- Sharing the pages -----

  /** What apply_fork_cow makes of a leaf entry, in source and clone alike. */
  function CowOf(man: set<Frame>, e: Word): Word {
    if e.p && e.addr in man && e.w then e.(w := false, cow := true) else e
  }

  /** The tables at and below dk mirror those at and below sk. */
  ghost predicate Mirrored(g: World, sk: Key, dk: Key) {
    && (forall k :: Under(k, dk) ==> (k in g.at <==> Twin(k, sk.root) in g.at))
    && (forall l: Loc :: Under(l.key, dk) && l.idx < Fan(l.key) ==> SameCopy(g, l, TwinLoc(l, sk.root)))
  }

  predicate SameCopy(g: World, l: Loc, t: Loc) {
    && (Ent(g, l).p <==> Ent(g, t).p)
    && (Ent(g, l).p && IsLeaf(l) ==> Ent(g, l) == Ent(g, t))
  }

  /** Owning leaf entries of the clone point where those of the source point. */
  ghost predicate PairOk(g: World, s: Frame, d: Frame) {
    forall m :: m in g.own && IsLeaf(m) && m.key.root == d ==>
      TwinLoc(m, s) in g.own && Ent(g, TwinLoc(m, s)).addr == Ent(g, m).addr
  }

  /** sk and dk are ready to share pages. */
  ghost predicate Shareable(g: World, reserved: seq<bool>, sk: Key, dk: Key) {
    && sk.path == dk.path && sk.root != dk.root && dk in g.at
    && Source(g, sk) && OneTree(g, dk) && LinksOwned(g, dk) && Mirrored(g, sk, dk)
    && (forall l :: l in g.own && Under(l.key, dk) ==> !IsLeaf(l))
    && AllForkable(g, reserved, sk, Fan(sk))
  }

  /** Some leaf entry below the first i entries of sk points to f. */
  ghost predicate Touched(g: World, sk: Key, i: nat, f: Frame) {
    exists l :: l in g.own && IsLeaf(l) && BelowLoc(l, sk, i) && Ent(g, l).addr == f
  }

  /** The pages below the first i entries are shared; nothing else changed. */
  ghost predicate Shared(g0: World, g: World, sk: Key, dk: Key, i: nat) {
    && g.at == g0.at && g.tops == g0.tops && g.held == g0.held && g.man == g0.man
    && |g.mem| == |g0.mem| && |g.refs| == |g0.refs|
    && (forall f :: 0 <= f < |g0.mem| && f !in g0.at.Values ==> g.mem[f] == g0.mem[f])
    && SharedOwners(g0, g, sk, dk, i) && SharedEntries(g0, g, sk, dk, i)
    && (forall f :: 0 <= f < |g0.refs| && !Touched(g0, sk, i, f) ==> g.refs[f] == g0.refs[f])
  }

  ghost predicate SharedOwners(g0: World, g: World, sk: Key, dk: Key, i: nat) {
    forall l :: l in g.own <==> l in g0.own || (BelowLoc(l, dk, i) && IsLeaf(l) && l.idx < ENTRIES && Ent(g0, l).p)
  }

  ghost predicate SharedEntries(g0: World, g: World, sk: Key, dk: Key, i: nat) {
    forall l :: Ent(g, l) ==
      if IsLeaf(l) && (BelowLoc(l, sk, i) || BelowLoc(l, dk, i)) then CowOf(g0.man, Ent(g0, l)) else Ent(g0, l)
  }

  lemma SharedNone(g: World, sk: Key, dk: Key)
    ensures Shared(g, g, sk, dk, 0)
  {
  }

  /** No key of the first i entries' trees lies through entry i when that entry is absent. */
  lemma NothingThrough(g: World, dk: Key, i: nat, l: Loc)
    requires Inv(g) && OneTree(g, dk) && !Ent(g, Loc(dk, i)).p && BelowLoc(l, dk, i + 1) && !BelowLoc(l, dk, i)
    ensures !Ent(g, l).p && l !in g.own
  {
    hide Inv;
    if |l.key.path| > |dk.path| {
      if l.key in g.at {
        ChainUp(g, dk, l.key);
        AbsentNotOwned(g, Loc(dk, i));
      }
    } else {
      assert l.key.path == dk.path;
    }
    AbsentNotOwned(g, l);
  }

  lemma ShareAbsent(g0: World, reserved: seq<bool>, g: World, sk: Key, dk: Key, i: nat)
    requires Inv(g0) && Shareable(g0, reserved, sk, dk) && i < Fan(sk)
    requires Shared(g0, g, sk, dk, i) && !Ent(g0, Loc(sk, i)).p
    ensures Shared(g0, g, sk, dk, i + 1)
  {
    hide Inv;
    assert SameCopy(g0, Loc(dk, i), TwinLoc(Loc(dk, i), sk.root));
    assert TwinLoc(Loc(dk, i), sk.root) == Loc(sk, i);
    forall l | BelowLoc(l, dk, i + 1) && !BelowLoc(l, dk, i)
      ensures !Ent(g0, l).p && l !in g0.own
    {
      NothingThrough(g0, dk, i, l);
    }
    forall l | BelowLoc(l, sk, i + 1) && !BelowLoc(l, sk, i)
      ensures !Ent(g0, l).p && l !in g0.own
    {
      NothingThrough(g0, sk, i, l);
    }
    TouchedMore(g0, sk, i);
  }

  lemma TouchedMore(g: World, sk: Key, i: nat)
    ensures forall f :: Touched(g, sk, i, f) ==> Touched(g, sk, i + 1, f)
  {
    forall f | Touched(g, sk, i, f)
      ensures Touched(g, sk, i + 1, f)
    {
      var l :| l in g.own && IsLeaf(l) && BelowLoc(l, sk, i) && Ent(g, l).addr == f;
      assert BelowLoc(l, sk, i + 1);
    }
  }

  /** The world after apply_fork_cow has handled source entry sl and clone entry dl. */
  ghost function LeafShared(g: World, sl: Loc, dl: Loc): World
    requires Sized(g) && sl.key in g.at && dl.key in g.at && g.at[sl.key] < |g.mem| && g.at[dl.key] < |g.mem|
    requires sl.idx < ENTRIES && dl.idx < ENTRIES
  {
    var e := Ent(g, sl);
    if e.addr in g.man then LeafSet(SourceShared(g, sl), dl, CowOf(g.man, e)) else LeafSet(g, dl, e)
  }

  /** One more reference to the page of a leaf entry, which loses its write permission. */
  ghost function SourceShared(g: World, sl: Loc): World
    requires Sized(g) && sl.key in g.at && g.at[sl.key] < |g.mem| && sl.idx < ENTRIES && Ent(g, sl).addr in g.man
  {
    LeafSet(Retained(LeafCut(g, sl), Ent(g, sl).addr), sl, CowOf(g.man, Ent(g, sl)))
  }

  lemma SourceShareKeeps(g: World, sl: Loc)
    requires Inv(g) && sl in g.own && IsLeaf(sl) && Ent(g, sl).addr in g.man
    ensures sl.key in g.at && g.at[sl.key] < |g.mem| && sl.idx < ENTRIES && Sized(g)
    ensures var h := SourceShared(g, sl);
            && Inv(h) && h.own == g.own && h.at == g.at && h.tops == g.tops && h.man == g.man
            && h.held == g.held + multiset{Ent(g, sl).addr}
            && h.refs == g.refs[Ent(g, sl).addr := g.refs[Ent(g, sl).addr] + 1]
            && (forall m :: Ent(h, m) == if m == sl then CowOf(g.man, Ent(g, sl)) else Ent(g, m))
  {
    hide Inv;
    InvFacts(g);
    OwnedIdx(g, sl);
    OwnedPage(g, sl);
    var e := Ent(g, sl);
    var g1 := LeafCut(g, sl);
    LeafCutKeeps(g, sl);
    var g2 := Retained(g1, e.addr);
    RetainKeeps(g1, e.addr);
    assert forall m :: Ent(g2, m) == Ent(g, m);
    forall m | m in g2.own && IsLeaf(m) && m.key.root == sl.key.root
      ensures Ent(g2, m).addr != e.addr
    {
      if Ent(g, m).addr == e.addr {
        OnePage(g, m, sl);
      }
    }
    LeafSetKeeps(g2, sl, CowOf(g.man, e));
    var h := SourceShared(g, sl);
    assert h.own == g.own;
    assert h.held == g.held + multiset{e.addr};
  }

  /** No owning entry of the clone points to the page that is about to be shared. */
  lemma CloneHasNot(g: World, sl: Loc, dl: Loc)
    requires Inv(g) && sl in g.own && IsLeaf(sl) && dl == TwinLoc(sl, dl.key.root) && dl !in g.own
    requires PairOk(g, sl.key.root, dl.key.root)
    ensures forall m :: m in g.own && IsLeaf(m) && m.key.root == dl.key.root ==>
              !(Ent(g, m).addr == Ent(g, sl).addr && Ent(g, sl).addr in g.man)
  {
    hide Inv;
    forall m | m in g.own && IsLeaf(m) && m.key.root == dl.key.root
      ensures !(Ent(g, m).addr == Ent(g, sl).addr && Ent(g, sl).addr in g.man)
    {
      if Ent(g, m).addr == Ent(g, sl).addr && Ent(g, sl).addr in g.man {
        OnePage(g, TwinLoc(m, sl.key.root), sl);
      }
    }
  }

  /** The counts with one more reference to f, if it has any. */
  function RefAdded(g: World, f: Frame): seq<nat> {
    if f in g.man && f < |g.refs| then g.refs[f := g.refs[f] + 1] else g.refs
  }

  lemma LeafShareKeeps(g: World, sl: Loc, dl: Loc)
    requires Inv(g) && sl in g.own && IsLeaf(sl) && dl == TwinLoc(sl, dl.key.root) && dl.key.root != sl.key.root
    requires dl !in g.own && dl.key in g.at && PairOk(g, sl.key.root, dl.key.root)
    ensures sl.key in g.at && g.at[sl.key] < |g.mem| && g.at[dl.key] < |g.mem| && sl.idx < ENTRIES && Sized(g)
    ensures var h := LeafShared(g, sl, dl);
            && Inv(h) && h.own == g.own + {dl} && h.held == g.held && h.at == g.at && h.tops == g.tops && h.man == g.man
            && h.refs == RefAdded(g, Ent(g, sl).addr)
            && (forall m :: Ent(h, m) == if m == sl || m == dl then CowOf(g.man, Ent(g, sl)) else Ent(g, m))
  {
    hide Inv, PairOk, LeafSet, Ent, SourceShared;
    InvFacts(g);
    OwnedIdx(g, sl);
    OwnedPage(g, sl);
    CloneHasNot(g, sl, dl);
    var e := Ent(g, sl);
    if e.addr in g.man {
      SourceShareKeeps(g, sl);
      var g3 := SourceShared(g, sl);
      InvFacts(g3);
      LeafSetKeeps(g3, dl, CowOf(g.man, e));
      LeafSetFields(g3, dl, CowOf(g.man, e));
      assert g.held + multiset{e.addr} - multiset{e.addr} == g.held;
    } else {
      LeafSetKeeps(g, dl, e);
      LeafSetFields(g, dl, e);
    }
  }

  lemma LeafSetFields(g: World, l: Loc, e: Word)
    requires l.key in g.at && g.at[l.key] < |g.mem| && l.idx < |g.mem[g.at[l.key]]|
    ensures var h := LeafSet(g, l, e);
            && h.own == g.own + {l} && h.at == g.at && h.tops == g.tops && h.man == g.man && h.refs == g.refs
            && h.held == if e.addr in g.man then g.held - multiset{e.addr} else g.held
  {
  }

  lemma OwnedPage(g: World, l: Loc)
    requires Inv(g) && l in g.own && IsLeaf(l)
    ensures Ent(g, l).p && !Ent(g, l).ps && LeafOk(g, Ent(g, l))
  {
  }

  lemma OnePage(g: World, l: Loc, m: Loc)
    requires Inv(g) && l in g.own && m in g.own && IsLeaf(l) && IsLeaf(m) && l.key.root == m.key.root
    requires Ent(g, l).addr in g.man && Ent(g, l).addr == Ent(g, m).addr
    ensures l == m
  {
    assert SamePage(g, l, m);
  }

  lemma LeafSharedMem(g: World, sl: Loc, dl: Loc)
    requires Sized(g) && sl.key in g.at && dl.key in g.at && g.at[sl.key] < |g.mem| && g.at[dl.key] < |g.mem|
    requires sl.idx < ENTRIES && dl.idx < ENTRIES
    ensures var h := LeafShared(g, sl, dl);
            |h.mem| == |g.mem| && forall f :: 0 <= f < |g.mem| && f !in g.at.Values ==> h.mem[f] == g.mem[f]
  {
    assert g.at[sl.key] in g.at.Values && g.at[dl.key] in g.at.Values;
  }

  /** The same, spelled out as the stores the pass makes. */
  lemma LeafSharedIs(g: World, sl: Loc, dl: Loc)
    requires Sized(g) && sl.key in g.at && dl.key in g.at && g.at[sl.key] < |g.mem| && g.at[dl.key] < |g.mem|
    requires sl.idx < ENTRIES && dl.idx < ENTRIES && Ent(g, sl).p
    ensures var h := LeafShared(g, sl, dl);
            var e, st, dt := Ent(g, sl), g.at[sl.key], g.at[dl.key];
            var m := if e.addr in g.man && e.w then g.mem[st := g.mem[st][sl.idx := CowOf(g.man, e)]] else g.mem;
            && h.mem == m[dt := m[dt][dl.idx := CowOf(g.man, e)]] && h.man == g.man && h.at == g.at
            && h.refs == if e.addr in g.man then g.refs[e.addr := g.refs[e.addr] + 1] else g.refs
  {
    var e, st := Ent(g, sl), g.at[sl.key];
    if e.addr in g.man && !e.w {
      assert g.mem[st][sl.idx := e] == g.mem[st];
      assert g.mem[st := g.mem[st][sl.idx := e]] == g.mem;
    }
  }

  lemma SharedPair(g: World, h: World, sl: Loc, dl: Loc)
    requires PairOk(g, sl.key.root, dl.key.root) && sl in g.own && dl == TwinLoc(sl, dl.key.root)
    requires dl.key.root != sl.key.root
    requires h.own == g.own + {dl}
    requires forall m :: Ent(h, m) == if m == sl || m == dl then CowOf(g.man, Ent(g, sl)) else Ent(g, m)
    requires dl !in g.own
    ensures PairOk(h, sl.key.root, dl.key.root)
  {
    forall m | m in h.own && IsLeaf(m) && m.key.root == dl.key.root
      ensures TwinLoc(m, sl.key.root) in h.own && Ent(h, TwinLoc(m, sl.key.root)).addr == Ent(h, m).addr
    {
      if m == dl {
        assert TwinLoc(m, sl.key.root) == sl;
      }
    }
  }

  /** One leaf entry of the source and its twin. */
  lemma ShareLeaf(g0: World, reserved: seq<bool>, g: World, sk: Key, dk: Key, i: nat)
    requires Inv(g0) && Inv(g) && Shareable(g0, reserved, sk, dk) && |sk.path| == 3 && i < ENTRIES
    requires Shared(g0, g, sk, dk, i) && PairOk(g, sk.root, dk.root) && Ent(g0, Loc(sk, i)).p
    ensures Loc(sk, i) in g.own && Loc(dk, i) !in g.own && Ent(g, Loc(sk, i)) == Ent(g0, Loc(sk, i)) && dk in g.at
    ensures Sized(g) && sk in g.at && g.at[sk] < |g.mem| && g.at[dk] < |g.mem|
    ensures var h := LeafShared(g, Loc(sk, i), Loc(dk, i));
            Inv(h) && Shared(g0, h, sk, dk, i + 1) && PairOk(h, sk.root, dk.root) && UpperSame(g, h)
  {
    hide Inv, PairOk, Shared, Shareable, LeafShared, UpperSame;
    InvFacts(g);
    ShareLeafReady(g0, reserved, g, sk, dk, i);
    var sl, dl := Loc(sk, i), Loc(dk, i);
    LeafShareKeeps(g, sl, dl);
    LeafSharedMem(g, sl, dl);
    var h := LeafShared(g, sl, dl);
    SharedPair(g, h, sl, dl);
    LeafSharedUpper(g, sl, dl);
    ShareLeafProgress(g0, reserved, g, h, sk, dk, i);
  }

  lemma ShareLeafReady(g0: World, reserved: seq<bool>, g: World, sk: Key, dk: Key, i: nat)
    requires Shareable(g0, reserved, sk, dk) && |sk.path| == 3 && i < ENTRIES
    requires Shared(g0, g, sk, dk, i) && Ent(g0, Loc(sk, i)).p
    ensures Loc(sk, i) in g.own && Loc(sk, i) in g0.own && Loc(dk, i) !in g.own
    ensures Ent(g, Loc(sk, i)) == Ent(g0, Loc(sk, i)) && dk in g.at
    ensures Loc(dk, i) == TwinLoc(Loc(sk, i), dk.root) && sk.root != dk.root
  {
  }

  lemma ShareLeafProgress(g0: World, reserved: seq<bool>, g: World, h: World, sk: Key, dk: Key, i: nat)
    requires Shareable(g0, reserved, sk, dk) && |sk.path| == 3 && i < ENTRIES
    requires Shared(g0, g, sk, dk, i) && Ent(g0, Loc(sk, i)).p && Loc(sk, i) in g0.own
    requires h.own == g.own + {Loc(dk, i)} && h.held == g.held && h.at == g.at && h.tops == g.tops && h.man == g.man
    requires Ent(g, Loc(sk, i)).addr in g.man ==> Ent(g, Loc(sk, i)).addr < |g.refs|
    requires h.refs == RefAdded(g, Ent(g, Loc(sk, i)).addr)
    requires forall m ::
               Ent(h, m) == if m == Loc(sk, i) || m == Loc(dk, i) then CowOf(g.man, Ent(g, Loc(sk, i))) else Ent(g, m)
    requires |h.mem| == |g.mem| && forall f :: 0 <= f < |g.mem| && f !in g.at.Values ==> h.mem[f] == g.mem[f]
    ensures Shared(g0, h, sk, dk, i + 1)
  {
    hide Shareable, Source, Mirrored, Touched, Ent, CowOf;
    var sl, dl := Loc(sk, i), Loc(dk, i);
    TwinCopy(g0, reserved, sk, dk, i);
    NextLeaf(sk, i);
    NextLeaf(dk, i);
    TouchedMore(g0, sk, i);
    TouchedHere(g0, sk, i);
  }

  /** The leaf entries below the first i + 1 entries of a last-level table. */
  lemma NextLeaf(k: Key, i: nat)
    requires |k.path| == 3
    ensures forall l :: IsLeaf(l) ==> (BelowLoc(l, k, i + 1) <==> BelowLoc(l, k, i) || l == Loc(k, i))
  {
    forall l | IsLeaf(l)
      ensures BelowLoc(l, k, i + 1) <==> BelowLoc(l, k, i) || l == Loc(k, i)
    {
      if Under(l.key, k) {
        assert l.key.path == k.path;
      }
    }
  }

  lemma TouchedHere(g: World, sk: Key, i: nat)
    requires Loc(sk, i) in g.own && |sk.path| == 3
    ensures Touched(g, sk, i + 1, Ent(g, Loc(sk, i)).addr)
  {
    assert BelowLoc(Loc(sk, i), sk, i + 1);
  }

  lemma TwinCopy(g: World, reserved: seq<bool>, sk: Key, dk: Key, i: nat)
    requires Shareable(g, reserved, sk, dk) && |sk.path| == 3 && i < ENTRIES && Ent(g, Loc(sk, i)).p
    ensures sk.path == dk.path && sk.root != dk.root && Ent(g, Loc(dk, i)) == Ent(g, Loc(sk, i))
  {
    assert TwinLoc(Loc(dk, i), sk.root) == Loc(sk, i);
    assert SameCopy(g, Loc(dk, i), Loc(sk, i));
  }

  /** The trees below entry i are ready to share pages in turn. */
  lemma ShareDown(g0: World, reserved: seq<bool>, g: World, sk: Key, dk: Key, i: nat)
    requires Inv(g0) && Inv(g) && Shareable(g0, reserved, sk, dk) && |sk.path| < 3 && i < Fan(sk)
    requires Shared(g0, g, sk, dk, i) && Ent(g0, Loc(sk, i)).p
    ensures Shareable(g, reserved, Kid(sk, i), Kid(dk, i))
    ensures Ent(g, Loc(sk, i)) == Ent(g0, Loc(sk, i))
    ensures Kid(sk, i) in g.at && Ent(g, Loc(sk, i)).addr == g.at[Kid(sk, i)]
    ensures Kid(dk, i) in g.at && Ent(g, Loc(dk, i)).addr == g.at[Kid(dk, i)]
  {
    hide Inv, AllForkable, Mirrored;
    InvFacts(g0);
    InvFacts(g);
    MirrorTwin(g0, sk, dk, i);
    OwnedLeads(g0, Loc(sk, i));
    OwnedLeads(g0, Loc(dk, i));
    assert SourceAll(g, Kid(sk, i)) && LinksOwned(g, Kid(dk, i)) by {
      ShareDownOwned(g0, g, sk, dk, i);
    }
    forall k
      ensures Under(k, Kid(sk, i)) ==> Under(k, sk) && k != sk
      ensures Under(k, Kid(dk, i)) ==> Under(k, dk) && k != dk
    {
      UnderKid(k, sk, i);
      UnderKid(k, dk, i);
    }
    ShareDownMirror(g0, g, sk, dk, i);
    ShareDownForkable(g0, reserved, g, sk, dk, i);
    forall l | l in g.own && Under(l.key, Kid(dk, i))
      ensures !IsLeaf(l)
    {
      UnderKid(l.key, dk, i);
    }
  }

  ghost predicate SourceAll(g: World, sk: Key) {
    forall l: Loc :: l.key in g.at && Under(l.key, sk) && l.idx < Fan(l.key) && Ent(g, l).p ==> l in g.own
  }

  lemma MirrorTwin(g: World, sk: Key, dk: Key, i: nat)
    requires Mirrored(g, sk, dk) && sk.path == dk.path && i < Fan(sk) && |sk.path| < 3
    requires LinksOwned(g, dk) && dk in g.at && Ent(g, Loc(sk, i)).p && Source(g, sk)
    ensures Ent(g, Loc(dk, i)).p && Loc(dk, i) in g.own && Loc(sk, i) in g.own
  {
    assert SameCopy(g, Loc(dk, i), TwinLoc(Loc(dk, i), sk.root));
    assert TwinLoc(Loc(dk, i), sk.root) == Loc(sk, i);
  }

  lemma ShareDownOwned(g0: World, g: World, sk: Key, dk: Key, i: nat)
    requires Source(g0, sk) && LinksOwned(g0, dk) && g.at == g0.at
    requires SharedOwners(g0, g, sk, dk, i) && SharedEntries(g0, g, sk, dk, i)
    ensures SourceAll(g, Kid(sk, i)) && LinksOwned(g, Kid(dk, i))
  {
    forall l: Loc
      ensures Under(l.key, Kid(sk, i)) ==> Under(l.key, sk)
      ensures Under(l.key, Kid(dk, i)) ==> Under(l.key, dk)
    {
      UnderKid(l.key, sk, i);
      UnderKid(l.key, dk, i);
    }
  }

  lemma ShareDownMirror(g0: World, g: World, sk: Key, dk: Key, i: nat)
    requires Mirrored(g0, sk, dk) && g.at == g0.at && sk.path == dk.path && sk.root != dk.root
    requires SharedEntries(g0, g, sk, dk, i)
    ensures Mirrored(g, Kid(sk, i), Kid(dk, i))
  {
    forall k | Under(k, Kid(dk, i))
      ensures k in g.at <==> Twin(k, sk.root) in g.at
    {
      UnderKid(k, dk, i);
    }
    forall l: Loc | Under(l.key, Kid(dk, i)) && l.idx < Fan(l.key)
      ensures SameCopy(g, l, TwinLoc(l, sk.root))
    {
      UnderKid(l.key, dk, i);
      var t := TwinLoc(l, sk.root);
      assert SameCopy(g0, l, t);
      assert !BelowLoc(l, dk, i) && !BelowLoc(t, sk, i) && !BelowLoc(l, sk, i) && !BelowLoc(t, dk, i);
    }
  }

  /** Sharing one part takes no reference to spare from another: no page is mapped twice. */
  lemma ShareDownForkable(g0: World, reserved: seq<bool>, g: World, sk: Key, dk: Key, i: nat)
    requires Inv(g0) && Source(g0, sk) && AllForkable(g0, reserved, sk, Fan(sk)) && Shared(g0, g, sk, dk, i)
    requires sk.root != dk.root && i < Fan(sk) && |sk.path| < 3
    ensures AllForkable(g, reserved, Kid(sk, i), Fan(Kid(sk, i)))
  {
    hide Inv;
    InvFacts(g0);
    forall l: Loc | l.key in g.at && IsLeaf(l) && l.idx < ENTRIES && BelowLoc(l, Kid(sk, i), ENTRIES) && Ent(g, l).p
      ensures Forkable(g, reserved, Ent(g, l))
    {
      UnderKid(l.key, sk, i);
      assert BelowLoc(l, sk, Fan(sk)) && !BelowLoc(l, sk, i) && !BelowLoc(l, dk, i);
      assert Ent(g, l) == Ent(g0, l);
      assert l in g0.own;
      var f := Ent(g0, l).addr;
      if f in g0.man && Touched(g0, sk, i, f) {
        var m :| m in g0.own && IsLeaf(m) && BelowLoc(m, sk, i) && Ent(g0, m).addr == f;
        OnePage(g0, l, m);
      }
    }
  }

  lemma ShareTree(g0: World, reserved: seq<bool>, g: World, h: World, sk: Key, dk: Key, i: nat)
    requires Inv(g0) && Shareable(g0, reserved, sk, dk) && |sk.path| < 3 && i < Fan(sk)
    requires Shared(g0, g, sk, dk, i) && Shared(g, h, Kid(sk, i), Kid(dk, i), ENTRIES)
    ensures Shared(g0, h, sk, dk, i + 1)
  {
    hide Inv, AllForkable, Mirrored, Source, SharedOwners, SharedEntries, Touched;
    InvFacts(g0);
    ShareTreeOwners(g0, g, h, sk, dk, i);
    ShareTreeEntries(g0, g, h, sk, dk, i);
    ShareTreeTouched(g0, g, sk, dk, i);
  }

  lemma ShareTreeOwners(g0: World, g: World, h: World, sk: Key, dk: Key, i: nat)
    requires |dk.path| < 3 && forall k :: k in g0.at ==> GoodKey(k)
    requires SharedOwners(g0, g, sk, dk, i) && SharedEntries(g0, g, sk, dk, i)
    requires SharedOwners(g, h, Kid(sk, i), Kid(dk, i), ENTRIES)
    ensures SharedOwners(g0, h, sk, dk, i + 1)
  {
    forall l
      ensures l in h.own <==> l in g0.own || (BelowLoc(l, dk, i + 1) && IsLeaf(l) && l.idx < ENTRIES && Ent(g0, l).p)
    {
      if IsLeaf(l) {
        ShareTreeLoc(l, dk, i);
      }
    }
  }

  lemma ShareTreeEntries(g0: World, g: World, h: World, sk: Key, dk: Key, i: nat)
    requires |dk.path| < 3 && |sk.path| < 3 && g.man == g0.man
    requires Sized(g0) && forall k :: k in g0.at ==> GoodKey(k) && g0.at[k] < |g0.mem|
    requires SharedEntries(g0, g, sk, dk, i) && SharedEntries(g, h, Kid(sk, i), Kid(dk, i), ENTRIES)
    ensures SharedEntries(g0, h, sk, dk, i + 1)
  {
    forall l
      ensures Ent(h, l) ==
        if IsLeaf(l) && (BelowLoc(l, sk, i + 1) || BelowLoc(l, dk, i + 1)) then CowOf(g0.man, Ent(g0, l))
        else Ent(g0, l)
    {
      if IsLeaf(l) {
        ShareTreeLoc(l, sk, i);
        ShareTreeLoc(l, dk, i);
      }
    }
  }

  lemma ShareTreeTouched(g0: World, g: World, sk: Key, dk: Key, i: nat)
    requires |sk.path| < 3 && sk.root != dk.root && sk.path == dk.path
    requires SharedOwners(g0, g, sk, dk, i) && SharedEntries(g0, g, sk, dk, i)
    ensures forall f :: Touched(g0, sk, i, f) ==> Touched(g0, sk, i + 1, f)
    ensures forall f :: Touched(g, Kid(sk, i), ENTRIES, f) ==> Touched(g0, sk, i + 1, f)
  {
    TouchedMore(g0, sk, i);
    forall f | Touched(g, Kid(sk, i), ENTRIES, f)
      ensures Touched(g0, sk, i + 1, f)
    {
      var l :| l in g.own && IsLeaf(l) && BelowLoc(l, Kid(sk, i), ENTRIES) && Ent(g, l).addr == f;
      ShareTreeLoc(l, sk, i);
      assert l in g0.own;
    }
  }

  lemma ShareTreeLoc(l: Loc, sk: Key, i: nat)
    requires IsLeaf(l) && |sk.path| < 3
    ensures GoodKey(l.key) && l.idx < ENTRIES ==>
              (BelowLoc(l, sk, i + 1) <==> BelowLoc(l, sk, i) || BelowLoc(l, Kid(sk, i), ENTRIES))
    ensures !(BelowLoc(l, Kid(sk, i), ENTRIES) && BelowLoc(l, sk, i))
    ensures BelowLoc(l, Kid(sk, i), ENTRIES) ==> BelowLoc(l, sk, i + 1)
  {
    UnderKid(l.key, sk, i);
  }

  /** An entry of the source that the pass has not reached is as it was. */
  lemma ShareEntryAt(g0: World, reserved: seq<bool>, g: World, sk: Key, dk: Key, i: nat)
    requires Shareable(g0, reserved, sk, dk) && Shared(g0, g, sk, dk, i)
    ensures Ent(g, Loc(sk, i)) == Ent(g0, Loc(sk, i))
  {
  }

  lemma ShareForkable(g0: World, reserved: seq<bool>, g: World, sk: Key, dk: Key, i: nat)
    requires Inv(g0) && Shareable(g0, reserved, sk, dk) && Shared(g0, g, sk, dk, i) && |sk.path| == 3 && i < ENTRIES
    requires Ent(g0, Loc(sk, i)).p
    ensures Forkable(g, reserved, Ent(g0, Loc(sk, i)))
  {
    hide Inv;
    var l := Loc(sk, i);
    assert BelowLoc(l, sk, Fan(sk));
    var f := Ent(g0, l).addr;
    if f in g0.man && Touched(g0, sk, i, f) {
      var m :| m in g0.own && IsLeaf(m) && BelowLoc(m, sk, i) && Ent(g0, m).addr == f;
      OnePage(g0, l, m);
    }
  }

  lemma SharedAt(g0: World, g: World, sk: Key, dk: Key, i: nat)
    requires Shared(g0, g, sk, dk, i)
    ensures g.at == g0.at
  {
  }

  // ----- The kernel half -----

  /** The upper half of a root, which user mappings never touch. */
  ghost predicate KernelHalf(a: Page, b: Page) {
    |a| == ENTRIES && |b| == ENTRIES && forall i :: 256 <= i < ENTRIES ==> a[i] == b[i]
  }

  /** Only entry j of a table may differ. */
  ghost predicate ButEntry(a: Page, b: Page, j: nat) {
    |a| == ENTRIES && |b| == ENTRIES && forall i :: 0 <= i < ENTRIES && i != j ==> a[i] == b[i]
  }

  lemma KernelHalfSelf(a: Page)
    requires |a| == ENTRIES
    ensures KernelHalf(a, a)
  {
  }

  lemma KernelHalfKept(a: Page, b: Page, c: Page, j: nat)
    requires KernelHalf(a, b) && ButEntry(b, c, j) && j < 256
    ensures KernelHalf(a, c)
  {
  }

  /** A live table is as before. */
  lemma LiveTableSame(g: World, h: World, k: Key)
    requires Inv(g) && LiveSame(g, h) && k in g.at
    ensures g.at[k] < |g.mem| && g.at[k] < |h.mem| && h.mem[g.at[k]] == g.mem[g.at[k]] && |g.mem[g.at[k]]| == ENTRIES
  {
    assert g.at[k] in g.at.Values;
  }

  lemma ClonedLive(g0: World, g: World, sk: Key, dk: Key, i: nat)
    requires Cloned(g0, g, sk, dk, i)
    ensures LiveSame(g0, g)
  {
  }

  lemma UndoneLive(g0: World, g: World)
    requires Undone(g0, g)
    ensures LiveSame(g0, g)
  {
  }

  /** No table above the last level has changed. */
  ghost predicate UpperSame(g: World, h: World) {
    && h.at == g.at && |h.mem| == |g.mem|
    && forall k :: k in g.at && |k.path| < 3 && g.at[k] < |g.mem| ==> h.mem[g.at[k]] == g.mem[g.at[k]]
  }

  lemma UpperSelf(g: World)
    ensures UpperSame(g, g)
  {
  }

  lemma UpperTwice(g: World, h: World, i: World)
    requires UpperSame(g, h) && UpperSame(h, i)
    ensures UpperSame(g, i)
  {
  }

  /** Storing into last-level tables. */
  lemma UpperApart(g: World, h: World, sk: Key, dk: Key)
    requires Inv(g) && sk in g.at && dk in g.at && |sk.path| == 3 && |dk.path| == 3 && h.at == g.at
    requires |h.mem| == |g.mem|
    requires forall f :: 0 <= f < |g.mem| && f != g.at[sk] && f != g.at[dk] ==> h.mem[f] == g.mem[f]
    ensures UpperSame(g, h)
  {
    forall k | k in g.at && |k.path| < 3
      ensures g.at[k] != g.at[sk] && g.at[k] != g.at[dk]
    {
      assert !SameFrame(g, k, sk) && !SameFrame(g, k, dk);
    }
  }

  lemma LeafSharedUpper(g: World, sl: Loc, dl: Loc)
    requires Inv(g) && Sized(g) && sl.key in g.at && dl.key in g.at && g.at[sl.key] < |g.mem| && g.at[dl.key] < |g.mem|
    requires IsLeaf(sl) && IsLeaf(dl) && sl.idx < ENTRIES && dl.idx < ENTRIES && Ent(g, sl).p
    ensures UpperSame(g, LeafShared(g, sl, dl))
  {
    hide Inv, LeafShared, UpperSame;
    LeafSharedIs(g, sl, dl);
    UpperApart(g, LeafShared(g, sl, dl), sl.key, dl.key);
  }

  /** The child has the kernel half of its parent, and the parent keeps it. */
  lemma KernelDone(g0: World, gr: World, g: World, h: World, s: Frame, d: Frame)
    requires Inv(g0) && Inv(g) && Key(s, []) in g0.at && Key(s, []) in g.at && Key(d, []) in g.at
    requires g0.at[Key(s, [])] == s && g.at[Key(s, [])] == s && g.at[Key(d, [])] == d
    requires LiveSame(g0, g) && s < |g0.mem| && d < |gr.mem| && d < |g.mem| && UpperSame(g, h)
    requires KernelHalf(g0.mem[s], gr.mem[d]) && KernelHalf(gr.mem[d], g.mem[d])
    ensures s < |h.mem| && d < |h.mem| && KernelHalf(g0.mem[s], h.mem[s]) && KernelHalf(g0.mem[s], h.mem[d])
  {
    hide Inv;
    LiveTableSame(g0, g, Key(s, []));
  }

  // ----- A whole fork -----

  lemma QuietSource(g: World, k: Key)
    requires Quiet(g) && k in g.at
    ensures Source(g, k)
  {
  }

  /** Every table of a quiet world hangs below a root. */
  lemma {:induction false} RootsLive(g: World, k: Key)
    requires Quiet(g) && k in g.at
    ensures Key(k.root, []) in g.at
    decreases |k.path|
  {
    if k.path == [] {
      assert k == Key(k.root, []);
    } else {
      assert Linked(g, k);
      OwnedKey(g, Loc(Up(k), Last(k)));
      RootsLive(g, Up(k));
    }
  }

  /** A free page is the root of no address space. */
  lemma FreeIsNoRoot(g: World, s: Frame, f: Frame)
    requires Quiet(g) && f in g.man && g.refs[f] == 0 && Key(s, []) in g.at
    ensures Room(g, Key(s, []), Key(f, []))
  {
    hide Inv;
    InvFacts(g);
    forall k | k in g.at
      ensures k.root != f
    {
      RootsLive(g, k);
      RootCount(g, k.root);
    }
  }

  lemma RootCount(g: World, r: Frame)
    requires Inv(g) && Key(r, []) in g.at
    ensures g.at[Key(r, [])] == r && r in g.at.Values && r in g.man && r < |g.refs| && g.refs[r] == 1
  {
    assert g.at[Key(r, [])] in g.at.Values;
  }

  lemma ClonedSource(g0: World, g: World, sk: Key, dk: Key, i: nat)
    requires Inv(g0) && Source(g0, sk) && Room(g0, sk, dk) && Cloned(g0, g, sk, dk, i)
    ensures Source(g, sk)
  {
    hide Inv;
    LiveEntries(g0, g);
  }

  lemma ClonedMirror(g0: World, g: World, sk: Key, dk: Key)
    requires Inv(g0) && Inv(g) && Source(g0, sk) && Room(g0, sk, dk) && Cloned(g0, g, sk, dk, Fan(dk))
    ensures Mirrored(g, sk, dk)
  {
    hide Inv;
    InvFacts(g0);
    InvFacts(g);
    LiveEntries(g0, g);
    forall k | Under(k, dk)
      ensures k in g.at <==> Twin(k, sk.root) in g.at
    {
      if Twin(k, sk.root) in g0.at && k != dk {
        if |k.path| > |dk.path| {
          FanBound(Twin(k, sk.root), sk);
        } else {
          assert k.path == dk.path;
        }
      }
    }
    forall l: Loc | Under(l.key, dk) && l.idx < Fan(l.key)
      ensures SameCopy(g, l, TwinLoc(l, sk.root))
    {
      if l.key in g.at {
        FullBelow(l, dk);
      }
    }
  }

  lemma FullBelow(l: Loc, dk: Key)
    requires GoodKey(l.key) && Under(l.key, dk) && l.idx < Fan(l.key)
    ensures BelowLoc(l, dk, Fan(dk))
  {
    if |l.key.path| > |dk.path| {
      FanBound(l.key, dk);
    } else {
      assert l.key.path == dk.path;
    }
  }

  lemma ClonedShareable(g0: World, reserved: seq<bool>, g: World, sk: Key, dk: Key)
    requires Inv(g0) && Inv(g) && Source(g0, sk) && Room(g0, sk, dk) && |sk.path| <= 3
    requires Cloned(g0, g, sk, dk, Fan(dk)) && AllForkable(g, reserved, sk, Fan(sk))
    requires sk.path == [] && dk.path == []
    ensures Shareable(g, reserved, sk, dk) && PairOk(g, sk.root, dk.root)
  {
    hide Inv, AllForkable, Mirrored;
    ClonedSource(g0, g, sk, dk, Fan(dk));
    ClonedMirror(g0, g, sk, dk);
    ClonedThrowaway(g0, g, sk, dk, Fan(dk));
    forall m | m in g.own && IsLeaf(m)
      ensures m.key.root != dk.root
    {
      if m in g0.own {
        OwnedKey(g0, m);
      }
    }
  }

  /** The clone becomes an address space. */
  ghost function Published(g: World, root: Frame): World {
    g.(tops := g.tops - {Key(root, [])})
  }

  lemma PublishKeeps(g: World, root: Frame)
    requires Inv(g) && Key(root, []) in g.at
    ensures Inv(Published(g, root))
    ensures forall l :: Ent(Published(g, root), l) == Ent(g, l)
  {
    var h := Published(g, root);
    assert forall l :: Ent(h, l) == Ent(g, l);
    SameAt(g, h);
    OwnedSame(g, h);
    forall k | k in h.at && k.path != [] && k !in h.tops
      ensures Linked(h, k)
    {
      assert Linked(g, k);
    }
    forall l | l in h.own && !IsLeaf(l)
      ensures LeadsDown(h, l)
    {
      assert LeadsDown(g, l);
    }
  }

  /**
   What a successful fork of address space s into d does: writable managed pages of s become
   copy-on-write, d maps what s maps, no other address space and no page contents change.
   */
  ghost predicate Forked(g0: World, h: World, s: Frame, d: Frame) {
    && s != d && h.man == g0.man && h.held == g0.held && Key(d, []) in h.at
    && (forall k :: k in g0.at ==> k.root != d && k in h.at && h.at[k] == g0.at[k])
    && (forall k :: k in h.at ==> k in g0.at || (k.root == d && Twin(k, s) in g0.at))
    && SameData(g0, h)
    && (forall l :: IsLeaf(l) && l.key.root != s && l.key.root != d ==> Ent(h, l) == Ent(g0, l))
    && (forall l :: IsLeaf(l) && l.key.root == s && l.idx < ENTRIES ==> Ent(h, l) == CowOf(g0.man, Ent(g0, l)))
    && (forall l :: IsLeaf(l) && l.key.root == d && l.idx < ENTRIES ==> SameCopy(h, l, TwinLoc(l, s)))
  }

  lemma ForkDone(g0: World, reserved: seq<bool>, g: World, g2: World, s: Frame, d: Frame)
    requires Quiet(g0) && Inv(g) && Inv(g2) && Key(s, []) in g0.at && Room(g0, Key(s, []), Key(d, []))
    requires Cloned(g0, g, Key(s, []), Key(d, []), 256) && Shareable(g, reserved, Key(s, []), Key(d, []))
    requires Shared(g, g2, Key(s, []), Key(d, []), 256)
    ensures Forked(g0, Published(g2, d), s, d) && Settled(Published(g2, d))
  {
    hide Inv, Settled, Room, Cloned, Shareable, Shared, SameData, Mirrored, LinksOwned, SharedOwners, SharedEntries;
    hide Ent;
    var sk, dk := Key(s, []), Key(d, []);
    var h := Published(g2, d);
    ForkTables(g0, g, g2, s, d);
    ForkParts(g, reserved, g2, sk, dk);
    SameEnt(g2, h);
    ClonedFacts(g0, g, sk, dk, 256);
    ForkData(g0, g, g2, sk, dk);
    SameDataAs(g0, g2, h);
    ForkEntries(g0, g, g2, h, s, d);
    ForkSettled(g0, g, g2, h, s, d);
  }

  lemma SameEnt(g: World, h: World)
    requires h.mem == g.mem && h.at == g.at
    ensures forall l :: Ent(h, l) == Ent(g, l)
  {
  }

  lemma SameDataAs(g: World, g2: World, h: World)
    requires SameData(g, g2) && h.mem == g2.mem
    ensures SameData(g, h)
  {
  }

  /** The tables of a fork: those there were, and the twins of the parent's. */
  lemma ForkTables(g0: World, g: World, g2: World, s: Frame, d: Frame)
    requires Inv(g0) && Inv(g) && Key(s, []) in g0.at && Room(g0, Key(s, []), Key(d, []))
    requires Cloned(g0, g, Key(s, []), Key(d, []), 256) && Shared(g, g2, Key(s, []), Key(d, []), 256)
    ensures s != d && g2.at == g.at && g2.man == g0.man && g2.held == g0.held && Key(d, []) in g2.at && Sized(g)
    ensures g.man == g0.man && g.tops == g0.tops + {Key(d, [])} && g2.tops == g.tops
    ensures forall k :: k in g0.at ==> k.root != d && k in g.at && g.at[k] == g0.at[k]
    ensures forall k :: k in g.at ==>
              GoodKey(k) && g.at[k] < |g.mem| && (k in g0.at || (k.root == d && Twin(k, s) in g0.at))
    ensures forall l :: l in g0.own ==> l in g.own
  {
    hide Inv, ClonedEntries, SharedEntries, SharedOwners, LiveSame;
    InvFacts(g);
    assert Twin(Key(d, []), s) == Key(s, []);
  }

  lemma ForkParts(g: World, reserved: seq<bool>, g2: World, sk: Key, dk: Key)
    requires Shareable(g, reserved, sk, dk) && Shared(g, g2, sk, dk, 256)
    ensures Mirrored(g, sk, dk) && LinksOwned(g, dk) && SharedOwners(g, g2, sk, dk, 256)
    ensures SharedEntries(g, g2, sk, dk, 256)
  {
    hide Mirrored, LinksOwned, SharedOwners, SharedEntries, AllForkable;
  }

  lemma ForkData(g0: World, g: World, g2: World, sk: Key, dk: Key)
    requires Inv(g0) && Cloned(g0, g, sk, dk, Fan(dk)) && Shared(g, g2, sk, dk, Fan(dk)) && Room(g0, sk, dk) && Inv(g)
    ensures SameData(g0, g2)
  {
    hide Inv;
    InvFacts(g0);
    InvFacts(g);
    ClonedFacts(g0, g, sk, dk, Fan(dk));
    forall l | l in g0.own
      ensures l in g.own && Ent(g, l) == Ent(g0, l)
    {
      OwnedKey(g0, l);
    }
    forall f | f in g0.man && f < |g0.mem| && f < |g0.refs| && g0.refs[f] > 0 && f !in g0.at.Values
      ensures g2.mem[f] == g0.mem[f]
    {
      TableCount(g0, g, f);
    }
  }

  /** A page in use that was no table does not become one. */
  lemma TableCount(g0: World, g: World, f: Frame)
    requires Inv(g0) && Inv(g) && g.man == g0.man && g.held == g0.held && f in g0.man && f < |g0.refs|
    requires g0.refs[f] > 0 && f !in g0.at.Values
    requires forall l :: l in g0.own ==> l in g.own && Ent(g, l) == Ent(g0, l)
    ensures f !in g.at.Values
  {
    if f in g0.held {
      HeldIsNoTable(g, f);
    } else {
      assert Sharers(g0, f) != {};
      var l :| l in Sharers(g0, f);
      assert l in Sharers(g, f);
    }
  }

  lemma ForkEntries(g0: World, g: World, g2: World, h: World, s: Frame, d: Frame)
    requires Room(g0, Key(s, []), Key(d, [])) && Mirrored(g, Key(s, []), Key(d, []))
    requires Sized(g) && forall k :: k in g.at ==> GoodKey(k) && g.at[k] < |g.mem|
    requires forall l: Loc :: l.key in g0.at ==> Ent(g, l) == Ent(g0, l)
    requires forall k :: k in g.at && k.root != d ==> k in g0.at
    requires SharedEntries(g, g2, Key(s, []), Key(d, []), 256) && g.man == g0.man
    requires forall l :: Ent(h, l) == Ent(g2, l)
    requires forall k :: k in g0.at ==> k in g.at
    ensures forall l :: IsLeaf(l) && l.key.root != s && l.key.root != d ==> Ent(h, l) == Ent(g0, l)
    ensures forall l :: IsLeaf(l) && l.key.root == s && l.idx < ENTRIES ==> Ent(h, l) == CowOf(g0.man, Ent(g0, l))
    ensures forall l :: IsLeaf(l) && l.key.root == d && l.idx < ENTRIES ==> SameCopy(h, l, TwinLoc(l, s))
  {
    var sk, dk := Key(s, []), Key(d, []);
    forall l | IsLeaf(l) && l.key.root != s && l.key.root != d
      ensures Ent(h, l) == Ent(g0, l)
    {
      assert l.key in g0.at <==> l.key in g.at;
    }
    forall l | IsLeaf(l) && l.key.root == s && l.idx < ENTRIES
      ensures Ent(h, l) == CowOf(g0.man, Ent(g0, l))
    {
      assert l.key in g0.at <==> l.key in g.at;
      if l.key in g.at {
        FullBelow(l, sk);
      }
    }
    forall l | IsLeaf(l) && l.key.root == d && l.idx < ENTRIES
      ensures SameCopy(h, l, TwinLoc(l, s))
    {
      var t := TwinLoc(l, s);
      assert SameCopy(g, l, t);
      if l.key in g.at {
        assert GoodKey(t.key);
        FullBelow(l, dk);
        FullBelow(t, sk);
      }
    }
  }

  lemma ForkSettled(g0: World, g: World, g2: World, h: World, s: Frame, d: Frame)
    requires Settled(g0) && g.tops == g0.tops + {Key(d, [])} && g2.tops == g.tops && h == Published(g2, d)
    requires forall l: Loc :: l.key in g0.at ==> Ent(g, l) == Ent(g0, l)
    requires forall k :: k in g.at && k.root != d ==> k in g0.at
    requires forall k :: k in g.at ==> GoodKey(k)
    requires forall l :: l in g0.own ==> l in g.own
    requires LinksOwned(g, Key(d, [])) && g2.at == g.at
    requires SharedOwners(g, g2, Key(s, []), Key(d, []), 256) && SharedEntries(g, g2, Key(s, []), Key(d, []), 256)
    ensures Settled(h)
  {
    assert forall l :: Ent(h, l) == Ent(g2, l);
    forall l: Loc | l.key in h.at && l.idx < Fan(l.key) && Ent(h, l).p
      ensures l in h.own
    {
      assert Ent(g, l).p;
      if l.key.root == d && IsLeaf(l) {
        FullBelow(l, Key(d, []));
      }
    }
  }

  lemma UndoneSettled(g0: World, g: World)
    requires Inv(g0) && Settled(g0) && Undone(g0, g)
    ensures Settled(g)
  {
    hide Inv;
    LiveEntries(g0, g);
  }

  // ----- Teardown -----

  /** The first i entries of k are cleared and everything they led to is let go; nothing else changed. */
  ghost predicate Erased(g0: World, g: World, k: Key, i: nat) {
    && g.tops == g0.tops && g.held == g0.held && g.man == g0.man && SameOutside(g0, g) && |g.mem| == |g0.mem|
    && ErasedTables(g0, g, k, i) && ErasedOwners(g0, g, k, i) && ErasedEntries(g0, g, k, i)
    && (forall f :: 0 <= f < |g0.mem| && f !in g0.at.Values ==> g.mem[f] == g0.mem[f])
  }

  ghost predicate ErasedTables(g0: World, g: World, k: Key, i: nat) {
    && (forall m :: m in g.at <==> m in g0.at && !Below(m, k, i))
    && (forall m :: m in g.at ==> m in g0.at && g.at[m] == g0.at[m])
  }

  ghost predicate ErasedOwners(g0: World, g: World, k: Key, i: nat) {
    forall l :: l in g.own <==> l in g0.own && !BelowLoc(l, k, i)
  }

  ghost predicate ErasedEntries(g0: World, g: World, k: Key, i: nat) {
    forall l: Loc :: l.key in g.at ==> Ent(g, l) == if l.key == k && l.idx < i && Ent(g0, l).p then ZERO else Ent(g0, l)
  }

  lemma ErasedNone(g: World, k: Key)
    ensures Erased(g, g, k, 0)
  {
  }

  lemma EraseAbsent(g0: World, g: World, k: Key, i: nat)
    requires Inv(g0) && Source(g0, k) && Erased(g0, g, k, i) && !Ent(g0, Loc(k, i)).p
    ensures Erased(g0, g, k, i + 1)
  {
    hide Inv;
    forall m | m in g0.at && Below(m, k, i + 1)
      ensures Below(m, k, i)
    {
      ChainUp(g0, k, m);
      AbsentNotOwned(g0, Loc(k, i));
    }
    forall l | l in g0.own && BelowLoc(l, k, i + 1)
      ensures BelowLoc(l, k, i)
    {
      if !BelowLoc(l, k, i) {
        NothingThrough(g0, k, i, l);
      }
    }
  }

  /** The world after the page of a leaf entry was let go and the entry cleared. */
  ghost function LeafErased(g: World, l: Loc): World
    requires Sized(g) && l.key in g.at && g.at[l.key] < |g.mem| && l.idx < ENTRIES
    requires Ent(g, l).addr in g.man ==> Ent(g, l).addr < |g.refs| && g.refs[Ent(g, l).addr] > 0
  {
    var f := Ent(g, l).addr;
    var h := LeafCut(g, l);
    Store(if f in g.man then Released(h, f) else h, l, ZERO)
  }

  lemma LeafEraseKeeps(g: World, l: Loc)
    requires Inv(g) && l in g.own && IsLeaf(l)
    ensures Sized(g) && l.key in g.at && g.at[l.key] < |g.mem| && l.idx < ENTRIES
    ensures Ent(g, l).addr in g.man ==> Ent(g, l).addr < |g.refs| && g.refs[Ent(g, l).addr] > 0
    ensures var h := LeafErased(g, l);
            && Inv(h) && h.own == g.own - {l} && h.held == g.held && h.at == g.at && h.tops == g.tops && h.man == g.man
            && SameOutside(g, h) && |h.mem| == |g.mem|
            && (forall m :: Ent(h, m) == if m == l then ZERO else Ent(g, m))
            && (forall f :: 0 <= f < |g.mem| && f !in g.at.Values ==> h.mem[f] == g.mem[f])
  {
    hide Inv;
    InvFacts(g);
    OwnedIdx(g, l);
    var f := Ent(g, l).addr;
    LeafCutKeeps(g, l);
    var g1 := LeafCut(g, l);
    InvFacts(g1);
    if f in g.man {
      assert f in g1.held;
      ReleaseKeeps(g1, f);
    }
    var g2 := if f in g.man then Released(g1, f) else g1;
    assert forall m :: Ent(g2, m) == Ent(g, m);
    WriteKeeps(g2, l, ZERO);
    assert g2.held == g.held;
    assert g.at[l.key] in g.at.Values;
  }

  lemma EraseLeaf(g0: World, g: World, k: Key, i: nat)
    requires Inv(g0) && Inv(g) && Source(g0, k) && |k.path| == 3 && i < ENTRIES
    requires Erased(g0, g, k, i) && Ent(g0, Loc(k, i)).p
    ensures Loc(k, i) in g.own && Ent(g, Loc(k, i)) == Ent(g0, Loc(k, i))
    ensures Sized(g) && k in g.at && g.at[k] < |g.mem|
    ensures Ent(g, Loc(k, i)).addr in g.man ==> Ent(g, Loc(k, i)).addr < |g.refs| && g.refs[Ent(g, Loc(k, i)).addr] > 0
    ensures Inv(LeafErased(g, Loc(k, i))) && Erased(g0, LeafErased(g, Loc(k, i)), k, i + 1)
  {
    hide Inv, LeafErased;
    InvFacts(g0);
    LeafEraseKeeps(g, Loc(k, i));
    forall l
      ensures BelowLoc(l, k, i + 1) <==>
                BelowLoc(l, k, i) || l == Loc(k, i) || (|l.key.path| > 3 && BelowLoc(l, k, i + 1))
    {
      if Under(l.key, k) && |l.key.path| == |k.path| {
        assert l.key.path == k.path;
      }
    }
    forall l | l in g0.own
      ensures |l.key.path| <= 3
    {
      OwnedIdx(g0, l);
    }
  }

  lemma EraseDown(g0: World, g: World, k: Key, i: nat)
    requires Inv(g0) && Inv(g) && Source(g0, k) && |k.path| < 3 && i < Fan(k)
    requires Erased(g0, g, k, i) && Ent(g0, Loc(k, i)).p
    ensures Ent(g, Loc(k, i)) == Ent(g0, Loc(k, i)) && Loc(k, i) in g.own
    ensures Kid(k, i) in g.at && g.at[Kid(k, i)] == Ent(g0, Loc(k, i)).addr && !Ent(g0, Loc(k, i)).ps
    ensures Inv(LinkCut(g, Loc(k, i))) && Source(LinkCut(g, Loc(k, i)), Kid(k, i))
  {
    hide Inv;
    InvFacts(g0);
    OwnedLeads(g, Loc(k, i));
    CutKeeps(g, Loc(k, i));
    var h := LinkCut(g, Loc(k, i));
    forall m
      ensures Under(m, Kid(k, i)) ==> Under(m, k) && m != k && |m.path| > |k.path| && m.path[|k.path|] == i
    {
      UnderKid(m, k, i);
    }
    forall m: Loc | m.key in h.at && Under(m.key, Kid(k, i)) && m.idx < Fan(m.key) && Ent(h, m).p
      ensures m in h.own
    {
      assert Ent(g, m) == Ent(g0, m);
    }
  }

  /** The world after an emptied table was freed and the entry that led to it cleared. */
  ghost function TableErased(g: World, k: Key, i: nat): World
    requires Sized(g) && k in g.at && g.at[k] < |g.mem| && i < ENTRIES && Kid(k, i) in g.at
    requires g.at[Kid(k, i)] < |g.refs| && g.refs[g.at[Kid(k, i)]] > 0
  {
    Store(Released(TableRemoved(g, Kid(k, i)), g.at[Kid(k, i)]), Loc(k, i), ZERO)
  }

  /** An emptied table can be freed. */
  lemma EmptyTableKeeps(g: World, k: Key, i: nat)
    requires Inv(g) && k in g.at && |k.path| < 3 && i < Fan(k) && Kid(k, i) in g.at && Kid(k, i) in g.tops
    requires Loc(k, i) !in g.own && forall l :: l in g.own ==> l.key != Kid(k, i)
    ensures Sized(g) && g.at[k] < |g.mem| && g.at[Kid(k, i)] < |g.refs| && g.refs[g.at[Kid(k, i)]] == 1
    ensures Inv(TableRemoved(g, Kid(k, i))) && g.at[Kid(k, i)] in TableRemoved(g, Kid(k, i)).held
    ensures var h := TableErased(g, k, i);
            && Inv(h) && h.own == g.own && h.held == g.held && h.at == g.at - {Kid(k, i)} && h.man == g.man
            && h.tops == g.tops - {Kid(k, i)} && SameOutside(g, h) && |h.mem| == |g.mem|
            && (forall m: Loc :: m.key != Kid(k, i) ==> Ent(h, m) == if m == Loc(k, i) then ZERO else Ent(g, m))
            && (forall f :: 0 <= f < |g.mem| && f !in g.at.Values ==> h.mem[f] == g.mem[f])
  {
    hide Inv;
    InvFacts(g);
    var c := Kid(k, i);
    var f := g.at[c];
    RemoveTableKeeps(g, c);
    var g1 := TableRemoved(g, c);
    InvFacts(g1);
    assert k != c;
    ReleaseKeeps(g1, f);
    var g2 := Released(g1, f);
    assert forall m :: Ent(g2, m) == Ent(g1, m);
    WriteKeeps(g2, Loc(k, i), ZERO);
    assert g2.held == g.held;
    assert g.at[k] in g.at.Values;
  }

  lemma EraseTree(g0: World, g: World, g2: World, k: Key, i: nat)
    requires Inv(g0) && Inv(g) && Inv(g2) && Source(g0, k) && |k.path| < 3 && i < Fan(k)
    requires Erased(g0, g, k, i) && Ent(g0, Loc(k, i)).p
    requires Erased(LinkCut(g, Loc(k, i)), g2, Kid(k, i), ENTRIES)
    ensures k in g2.at && Kid(k, i) in g2.at && Kid(k, i) in g2.tops && Loc(k, i) !in g2.own
    ensures forall l :: l in g2.own ==> l.key != Kid(k, i)
    ensures Sized(g2) && g2.at[k] < |g2.mem| && g2.at[Kid(k, i)] < |g2.refs| && g2.refs[g2.at[Kid(k, i)]] == 1
    ensures Inv(TableErased(g2, k, i)) && Erased(g0, TableErased(g2, k, i), k, i + 1)
  {
    hide Inv, TableErased;
    InvFacts(g0);
    EraseDown(g0, g, k, i);
    var c := Kid(k, i);
    var l := Loc(k, i);
    UnderKid(k, k, i);
    forall m | m in g2.own
      ensures m.key != c
    {
      OwnedIdx(g2, m);
    }
    EmptyTableKeeps(g2, k, i);
    EraseTreeProgress(g0, g, g2, TableErased(g2, k, i), k, i);
  }

  lemma EraseTreeProgress(g0: World, g: World, g2: World, h: World, k: Key, i: nat)
    requires Inv(g0) && |k.path| < 3 && i < Fan(k) && Erased(g0, g, k, i) && Ent(g0, Loc(k, i)).p
    requires Erased(LinkCut(g, Loc(k, i)), g2, Kid(k, i), ENTRIES) && k in g.at && Kid(k, i) !in g0.tops
    requires h.own == g2.own && h.held == g2.held && h.at == g2.at - {Kid(k, i)} && h.man == g2.man
    requires h.tops == g2.tops - {Kid(k, i)} && SameOutside(g2, h) && |h.mem| == |g2.mem|
    requires forall m: Loc :: m.key != Kid(k, i) ==> Ent(h, m) == if m == Loc(k, i) then ZERO else Ent(g2, m)
    requires forall f :: 0 <= f < |g2.mem| && f !in g2.at.Values ==> h.mem[f] == g2.mem[f]
    ensures Erased(g0, h, k, i + 1)
  {
    hide Inv, ErasedTables, ErasedOwners, ErasedEntries;
    InvFacts(g0);
    EraseTreeTables(g0, g, g2, h, k, i);
    EraseTreeOwners(g0, g, g2, h, k, i);
    EraseTreeEntries(g0, g, g2, h, k, i);
    ErasedFewer(g0, g, k, i);
    ErasedFewer(LinkCut(g, Loc(k, i)), g2, Kid(k, i), ENTRIES);
    assert h.tops == g0.tops;
    EraseTreeMem(g0, g, g2, h);
  }

  lemma ErasedFewer(g0: World, g: World, k: Key, i: nat)
    requires ErasedTables(g0, g, k, i)
    ensures forall m :: m in g.at ==> m in g0.at && g.at[m] == g0.at[m]
  {
  }

  lemma EraseTreeTables(g0: World, g: World, g2: World, h: World, k: Key, i: nat)
    requires forall m :: m in g0.at ==> GoodKey(m)
    requires ErasedTables(g0, g, k, i) && ErasedTables(LinkCut(g, Loc(k, i)), g2, Kid(k, i), ENTRIES)
    requires h.at == g2.at - {Kid(k, i)}
    ensures ErasedTables(g0, h, k, i + 1)
  {
    var c := Kid(k, i);
    forall m
      ensures m in h.at <==> m in g0.at && !Below(m, k, i + 1)
    {
      BelowStep(m, k, i);
      if m in g0.at && Under(m, c) {
        BelowKid(m, k, i);
      }
    }
  }

  lemma EraseTreeOwners(g0: World, g: World, g2: World, h: World, k: Key, i: nat)
    requires Inv(g0) && h.own == g2.own
    requires ErasedOwners(g0, g, k, i) && ErasedOwners(LinkCut(g, Loc(k, i)), g2, Kid(k, i), ENTRIES)
    ensures ErasedOwners(g0, h, k, i + 1)
  {
    hide Inv;
    var c := Kid(k, i);
    forall l
      ensures l in h.own <==> l in g0.own && !BelowLoc(l, k, i + 1)
    {
      UnderKid(l.key, k, i);
      if l in g0.own {
        OwnedIdx(g0, l);
        if Under(l.key, c) {
          BelowKidLoc(l, k, i);
        }
        if Under(l.key, k) && |l.key.path| == |k.path| {
          assert l.key.path == k.path;
        }
      }
    }
  }

  lemma EraseTreeEntries(g0: World, g: World, g2: World, h: World, k: Key, i: nat)
    requires Ent(g0, Loc(k, i)).p && h.at == g2.at - {Kid(k, i)}
    requires ErasedTables(g0, g, k, i) && ErasedTables(LinkCut(g, Loc(k, i)), g2, Kid(k, i), ENTRIES)
    requires ErasedEntries(g0, g, k, i) && ErasedEntries(LinkCut(g, Loc(k, i)), g2, Kid(k, i), ENTRIES)
    requires forall m: Loc :: m.key != Kid(k, i) ==> Ent(h, m) == if m == Loc(k, i) then ZERO else Ent(g2, m)
    ensures ErasedEntries(g0, h, k, i + 1)
  {
    assert forall m: Loc :: Ent(LinkCut(g, Loc(k, i)), m) == Ent(g, m);
  }

  lemma EraseTreeMem(g0: World, g: World, g2: World, h: World)
    requires |g.mem| == |g0.mem| == |g2.mem| == |h.mem|
    requires forall m :: m in g.at ==> m in g0.at && g.at[m] == g0.at[m]
    requires forall m :: m in g2.at ==> m in g.at && g2.at[m] == g.at[m]
    requires forall f :: 0 <= f < |g0.mem| && f !in g0.at.Values ==> g.mem[f] == g0.mem[f]
    requires forall f :: 0 <= f < |g.mem| && f !in g.at.Values ==> g2.mem[f] == g.mem[f]
    requires forall f :: 0 <= f < |g2.mem| && f !in g2.at.Values ==> h.mem[f] == g2.mem[f]
    ensures forall f :: 0 <= f < |g0.mem| && f !in g0.at.Values ==> h.mem[f] == g0.mem[f]
  {
    assert g.at.Values <= g0.at.Values;
    assert g2.at.Values <= g0.at.Values;
  }

  /** Address space r is gone; every other one, and every page in use that is no table, is as before. */
  ghost predicate Destroyed(g0: World, h: World, r: Frame) {
    && h.man == g0.man && h.held == g0.held
    && (forall k :: k in h.at <==> k in g0.at && k.root != r)
    && (forall k :: k in h.at ==> k in g0.at && h.at[k] == g0.at[k])
    && (forall l: Loc :: l.key.root != r ==> Ent(h, l) == Ent(g0, l))
    && SameData(g0, h)
  }

  lemma DestroyDone(g0: World, g: World, r: Frame)
    requires Quiet(g0) && Inv(g) && Key(r, []) in g0.at && Erased(g0, g, Key(r, []), 256)
    ensures Key(r, []) in g.at && g.at[Key(r, [])] == r && r in g.man && r < |g.refs| && g.refs[r] == 1
    ensures Inv(TableRemoved(g, Key(r, []))) && r in TableRemoved(g, Key(r, [])).held
    ensures var h := Released(TableRemoved(g, Key(r, [])), r);
            Destroyed(g0, h, r) && Settled(h)
  {
    hide Inv, Settled, ErasedEntries;
    var k := Key(r, []);
    DestroyRest(g0, g, r);
    RootCount(g, r);
    RemoveTableKeeps(g, k);
    var g1 := TableRemoved(g, k);
    InvFacts(g1);
    var h := Released(g1, r);
    assert forall l :: Ent(h, l) == Ent(g1, l);
    assert h.held == g0.held;
    DestroyEnts(g0, g, h, r);
    DestroySettled(g0, h, r);
  }

  /** When the root's entries are cleared, the root is all that is left. */
  lemma DestroyRest(g0: World, g: World, r: Frame)
    requires Inv(g0) && Key(r, []) in g0.at && Erased(g0, g, Key(r, []), 256)
    ensures forall l :: l in g.own <==> l in g0.own && l.key.root != r
    ensures forall m :: m in g.at && m.root == r ==> m == Key(r, [])
    ensures forall m :: m in g0.at && m.root != r ==> m in g.at
    ensures Key(r, []) in g.at
  {
    hide Inv;
    InvFacts(g0);
    var k := Key(r, []);
    forall m | m in g0.at && m.root == r && m != k
      ensures Below(m, k, 256)
    {
      FanBound(m, k);
    }
    forall l | l in g0.own && l.key.root == r
      ensures BelowLoc(l, k, 256)
    {
      OwnedIdx(g0, l);
      FullBelow(l, k);
    }
  }

  lemma DestroyEnts(g0: World, g: World, h: World, r: Frame)
    requires ErasedEntries(g0, g, Key(r, []), 256)
    requires forall m :: m in g.at ==> m in g0.at
    requires forall m :: m in g0.at && m.root != r ==> m in g.at
    requires forall l: Loc :: l.key != Key(r, []) ==> Ent(h, l) == Ent(g, l)
    ensures forall l: Loc :: l.key.root != r ==> Ent(h, l) == Ent(g0, l)
  {
    forall l: Loc | l.key.root != r
      ensures Ent(h, l) == Ent(g0, l)
    {
      assert l.key in g.at <==> l.key in g0.at;
    }
  }

  lemma DestroySettled(g0: World, h: World, r: Frame)
    requires Settled(g0) && h.tops <= g0.tops
    requires forall l: Loc :: l.key.root != r ==> Ent(h, l) == Ent(g0, l)
    requires forall k :: k in h.at ==> k in g0.at && k.root != r
    requires forall l :: l in h.own <==> l in g0.own && l.key.root != r
    ensures Settled(h)
  {
  }

  /** An entry the teardown has not reached is as it was. */
  lemma ErasedAt(g0: World, g: World, k: Key, i: nat)
    requires Erased(g0, g, k, i) && k in g.at
    ensures Ent(g, Loc(k, i)) == Ent(g0, Loc(k, i))
  {
  }

  lemma ErasedFrame(g0: World, g: World, k: Key, i: nat, m: Key)
    requires Erased(g0, g, k, i) && m in g.at
    ensures m in g0.at && g.at[m] == g0.at[m] && g.man == g0.man
  {
  }

  // ----- A new, empty address space -----

  ghost predicate Created(g0: World, h: World, d: Frame) {
    && d in g0.man && d < |g0.refs| && g0.refs[d] == 0 && Key(d, []) !in g0.at
    && h.man == g0.man && h.held == g0.held && h.at == g0.at[Key(d, []) := d]
    && SameLeaves(g0, h) && SameData(g0, h)
  }

  lemma CreateDone(g0: World, d: Frame, page: Page)
    requires Quiet(g0) && d in g0.man && g0.refs[d] == 0
    requires |page| == ENTRIES && forall i :: 0 <= i < 256 ==> page[i] == ZERO
    ensures d < |g0.refs| && d < |g0.mem| && Key(d, []) !in g0.at
    ensures var g := TableAdded(Filled(Alloced(g0, d), d, page), Key(d, []), d);
            && Inv(g) && Inv(Published(g, d)) && Created(g0, Published(g, d), d) && Settled(Published(g, d))
  {
    hide Inv;
    InvFacts(g0);
    var k := Key(d, []);
    if k in g0.at {
      RootCount(g0, d);
    }
    var g1 := Alloced(g0, d);
    AllocKeeps(g0, d);
    FillKeeps(g1, d, page);
    var g2 := Filled(g1, d, page);
    assert forall l :: Ent(g2, l) == Ent(g0, l);
    AddTableKeeps(g2, k, d);
    var g := TableAdded(g2, k, d);
    PublishKeeps(g, d);
    var h := Published(g, d);
    assert h.held == g0.held;
    assert h.tops == {};
    CreateSettled(g0, g2, h, d, page);
  }

  lemma CreateSettled(g0: World, g2: World, h: World, d: Frame, page: Page)
    requires Settled(g0) && h.tops == {} && h.own == g0.own && h.at == g0.at[Key(d, []) := d] && Key(d, []) !in g0.at
    requires forall l: Loc :: l.key != Key(d, []) ==> Ent(h, l) == Ent(g0, l)
    requires |page| == ENTRIES && forall i :: 0 <= i < 256 ==> page[i] == ZERO
    requires d < |h.mem| && h.mem[d] == page
    ensures Settled(h)
  {
  }
}
