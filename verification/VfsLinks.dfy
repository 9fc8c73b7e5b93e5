/**
 Hard links and file data of src/kernel/vfs.c: directory entries share an inode owner, whose link
 count and data slot follow them.
 */
module VfsLinks {
  import opened Common
  import opened VfsTree

  const SLOTS := 64
  const SLOT_SIZE := 65536

  /** The directory entries that share an owner. */
  ghost function Entries(ns: Nodes, o: int): set<nat> {
    set x | 0 <= x < |ns| && IsEntry(ns, x, o)
  }

  predicate IsEntry(ns: Nodes, x: nat, o: int)
    requires x < |ns|
  {
    ns[x].kind != Dir && ns[x].parent != NULL && ns[x].owner == o
  }

  predicate IsOwner(ns: Nodes, o: int) {
    In(ns, o) && ns[o].owner == o && ns[o].kind != Dir
  }

  ghost predicate OwnersOk(ns: Nodes) {
    forall x :: 0 <= x < |ns| ==> OwnerOk(ns, x)
  }

  ghost predicate OwnerOk(ns: Nodes, x: nat)
    requires x < |ns|
  {
    var o := ns[x].owner;
    && In(ns, o) && ns[o].owner == o && ns[o].kind == ns[x].kind && (ns[x].kind == Dir ==> o == x)
    && (ns[x].kind != File ==> ns[x].slot == NULL)
  }

  /** Link counts are right, but for `extra` links too many at o. */
  ghost predicate LinksBut(ns: Nodes, o: int, extra: int) {
    forall q :: IsOwner(ns, q) ==> ns[q].nlink == |Entries(ns, q)| + if q == o then extra else 0
  }

  /** The owner of a file with at least one name holds the slot its data is in. */
  predicate Holds(ns: Nodes, o: int, s: int) {
    IsOwner(ns, o) && ns[o].kind == File && ns[o].nlink > 0 && ns[o].slot == s
  }

  ghost predicate InodeOk(ns: Nodes, used: seq<bool>, o: int)
    requires |used| == SLOTS && In(ns, o)
  {
    && ns[o].size <= ns[o].capacity
    && (ns[o].slot == NULL ==> ns[o].capacity == 0)
    && (ns[o].slot != NULL ==>
          && ns[o].nlink > 0 && 0 <= ns[o].slot < SLOTS && used[ns[o].slot] && ns[o].capacity == SLOT_SIZE)
  }

  /** A slot is in use exactly when one owner with a name holds it. */
  ghost predicate SlotsOk(ns: Nodes, used: seq<bool>) {
    && |used| == SLOTS
    && (forall o :: IsOwner(ns, o) && ns[o].kind == File ==> InodeOk(ns, used, o))
    && (forall s :: 0 <= s < SLOTS && used[s] ==> exists o :: Holds(ns, o, s))
    && (forall o, q {:trigger SameSlot(ns, o, q)} :: SameSlot(ns, o, q) ==> o == q)
  }

  predicate SameSlot(ns: Nodes, o: int, q: int) {
    In(ns, o) && In(ns, q) && ns[o].slot != NULL && Holds(ns, o, ns[o].slot) && Holds(ns, q, ns[o].slot)
  }

  ghost predicate Inodes(ns: Nodes, used: seq<bool>) {
    OwnersOk(ns) && LinksBut(ns, NULL, 0) && SlotsOk(ns, used)
  }

  /** The fields that matter to inodes are the same. */
  predicate SameInode(a: Node, b: Node) {
    && a.kind == b.kind && a.slot == b.slot && a.size == b.size
    && a.capacity == b.capacity && a.nlink == b.nlink && a.owner == b.owner
  }

  /** The table changed in places inodes do not depend on, but for the parent of x. */
  ghost predicate MovedOne(ns: Nodes, after: Nodes, x: nat) {
    && x < |ns| == |after|
    && forall c :: 0 <= c < |ns| ==>
         SameInode(after[c], ns[c]) && (c != x ==> (after[c].parent == NULL <==> ns[c].parent == NULL))
  }

  /** An entry appears or goes: one link too few or too many. */
  lemma MovedLinks(ns: Nodes, after: Nodes, x: nat, extra: int, o: int)
    requires MovedOne(ns, after, x) && OwnersOk(ns) && LinksBut(ns, o, extra) && (extra == 0 || o == ns[x].owner)
    ensures OwnersOk(after)
    ensures LinksBut(after, ns[x].owner,
                     extra + (if ns[x].kind != Dir && ns[x].parent != NULL then 1 else 0)
                     - (if ns[x].kind != Dir && after[x].parent != NULL then 1 else 0))
  {
    forall c | 0 <= c < |ns|
      ensures OwnerOk(after, c)
    {
      assert OwnerOk(ns, c);
    }
    assert OwnerOk(ns, x);
    forall q | IsOwner(after, q)
      ensures IsOwner(ns, q) && |Entries(after, q)| == |Entries(ns, q)|
                - (if IsEntry(ns, x, q) then 1 else 0) + (if IsEntry(after, x, q) then 1 else 0)
    {
      assert Entries(after, q) - {x} == Entries(ns, q) - {x};
      SizeBut(Entries(ns, q), Entries(after, q), x);
    }
  }

  lemma MovedSlots(ns: Nodes, after: Nodes, used: seq<bool>)
    requires SlotsOk(ns, used) && |after| == |ns| && forall c :: 0 <= c < |ns| ==> SameInode(after[c], ns[c])
    ensures SlotsOk(after, used)
  {
    forall o | IsOwner(after, o) && after[o].kind == File
      ensures InodeOk(after, used, o)
    {
      assert InodeOk(ns, used, o);
    }
    forall s | 0 <= s < SLOTS && used[s]
      ensures exists o :: Holds(after, o, s)
    {
      var o :| Holds(ns, o, s);
      assert Holds(after, o, s);
    }
    forall o, q | SameSlot(after, o, q)
      ensures o == q
    {
      assert SameSlot(ns, o, q);
    }
  }

  /** vfs_drop_link on the owner: one link less, and without any the data goes. */
  function LinkDropped(ns: Nodes, o: nat): (r: Nodes)
    requires o < |ns|
    ensures |r| == |ns|
  {
    var n := if ns[o].nlink > 0 then ns[o].nlink - 1 else 0;
    if n > 0 then ns[o := ns[o].(nlink := n)]
    else
      var capacity := if ns[o].slot != NULL then 0 else ns[o].capacity;
      ns[o := ns[o].(nlink := 0, size := 0, slot := NULL, capacity := capacity)]
  }

  function SlotFreed(ns: Nodes, used: seq<bool>, o: nat): (r: seq<bool>)
    requires o < |ns|
    ensures |r| == |used|
  {
    if ns[o].nlink <= 1 && 0 <= ns[o].slot < |used| then used[ns[o].slot := false] else used
  }

  lemma DropLinks(ns: Nodes, o: nat)
    requires OwnersOk(ns) && IsOwner(ns, o) && LinksBut(ns, o, 1)
    ensures OwnersOk(LinkDropped(ns, o)) && LinksBut(LinkDropped(ns, o), NULL, 0)
  {
    var ns' := LinkDropped(ns, o);
    forall c | 0 <= c < |ns|
      ensures OwnerOk(ns', c)
    {
      assert OwnerOk(ns, c);
    }
    forall q | IsOwner(ns', q)
      ensures IsOwner(ns, q) && Entries(ns', q) == Entries(ns, q)
    {
    }
  }

  lemma DropSlots(ns: Nodes, used: seq<bool>, o: nat)
    requires SlotsOk(ns, used) && IsOwner(ns, o) && ns[o].nlink > 0 && (ns[o].kind != File ==> ns[o].slot == NULL)
    ensures SlotsOk(LinkDropped(ns, o), SlotFreed(ns, used, o))
  {
    var ns', used' := LinkDropped(ns, o), SlotFreed(ns, used, o);
    if ns[o].kind == File {
      assert InodeOk(ns, used, o);
    }
    forall q | IsOwner(ns', q) && ns'[q].kind == File
      ensures InodeOk(ns', used', q)
    {
      assert InodeOk(ns, used, q);
      if q != o && ns[q].slot != NULL && ns[q].slot == ns[o].slot {
        assert SameSlot(ns, q, o);
      }
    }
    forall s | 0 <= s < SLOTS && used'[s]
      ensures exists q :: Holds(ns', q, s)
    {
      var q :| Holds(ns, q, s);
      assert Holds(ns', q, s);
    }
    forall p, q | SameSlot(ns', p, q)
      ensures p == q
    {
      assert SameSlot(ns, p, q);
    }
  }

  /** A count that is wrong at something that owns no links is not wrong. */
  lemma NoOwner(ns: Nodes, o: int, extra: int)
    requires LinksBut(ns, o, extra) && (!IsOwner(ns, o) || extra == 0)
    ensures LinksBut(ns, NULL, 0)
  {
  }

  /** A new node counts one link, before it has a name. */
  lemma AppendOwner(ns: Nodes, used: seq<bool>, x: Node)
    requires Inodes(ns, used) && x.owner == |ns| && x.nlink == 1 && x.parent == NULL && x.size == 0
    requires x.slot == NULL ==> x.capacity == 0
    requires x.slot != NULL ==> x.kind == File && 0 <= x.slot < SLOTS && !used[x.slot] && x.capacity == SLOT_SIZE
    ensures OwnersOk(ns + [x]) && LinksBut(ns + [x], |ns|, 1)
    ensures SlotsOk(ns + [x], if x.slot != NULL then used[x.slot := true] else used)
  {
    var ns' := ns + [x];
    var used' := if x.slot != NULL then used[x.slot := true] else used;
    forall c | 0 <= c < |ns'|
      ensures OwnerOk(ns', c)
    {
      assert c < |ns| ==> OwnerOk(ns, c);
    }
    forall q | IsOwner(ns', q)
      ensures Entries(ns', q) == if q == |ns| then {} else Entries(ns, q)
    {
      forall c | 0 <= c < |ns|
        ensures ns[c].owner != |ns|
      {
        assert OwnerOk(ns, c);
      }
    }
    forall q | IsOwner(ns', q) && ns'[q].kind == File
      ensures InodeOk(ns', used', q)
    {
      assert q < |ns| ==> IsOwner(ns, q) && InodeOk(ns, used, q);
    }
    forall s | 0 <= s < SLOTS && used'[s]
      ensures exists q :: Holds(ns', q, s)
    {
      if s == x.slot {
        assert Holds(ns', |ns|, s);
      } else {
        var q :| Holds(ns, q, s);
        assert Holds(ns', q, s);
      }
    }
    forall p, q | SameSlot(ns', p, q)
      ensures p == q
    {
      if p < |ns| {
        assert IsOwner(ns, p) && InodeOk(ns, used, p);
      }
      if q < |ns| {
        assert IsOwner(ns, q) && InodeOk(ns, used, q);
      }
      if p < |ns| && q < |ns| {
        assert SameSlot(ns, p, q);
      }
    }
  }

  /** A new name for an inode, before it is in a directory. */
  lemma AppendAlias(ns: Nodes, used: seq<bool>, o: nat, x: Node)
    requires Inodes(ns, used) && IsOwner(ns, o) && ns[o].kind == File && ns[o].nlink > 0
    requires x.owner == o && x.kind == File && x.parent == NULL
    ensures var ns' := ns[o := ns[o].(nlink := ns[o].nlink + 1)] + [x];
            OwnersOk(ns') && LinksBut(ns', o, 1) && SlotsOk(ns', used)
  {
    var ns' := ns[o := ns[o].(nlink := ns[o].nlink + 1)] + [x];
    forall c | 0 <= c < |ns'|
      ensures OwnerOk(ns', c)
    {
      assert c < |ns| ==> OwnerOk(ns, c);
    }
    forall q | IsOwner(ns', q)
      ensures IsOwner(ns, q) && Entries(ns', q) == Entries(ns, q)
    {
    }
    forall q | IsOwner(ns', q) && ns'[q].kind == File
      ensures InodeOk(ns', used, q)
    {
      assert IsOwner(ns, q) && InodeOk(ns, used, q);
    }
    forall s | 0 <= s < SLOTS && used[s]
      ensures exists q :: Holds(ns', q, s)
    {
      var q :| Holds(ns, q, s);
      assert Holds(ns', q, s);
    }
    forall p, q | SameSlot(ns', p, q)
      ensures p == q
    {
      assert SameSlot(ns, p, q);
    }
  }

  /** The owner of an entry has at least that link. */
  lemma HasLink(ns: Nodes, used: seq<bool>, x: nat)
    requires Inodes(ns, used) && x < |ns| && ns[x].kind != Dir && ns[x].parent != NULL
    ensures IsOwner(ns, ns[x].owner) && ns[ns[x].owner].nlink > 0
  {
    assert OwnerOk(ns, x);
    assert x in Entries(ns, ns[x].owner);
  }
}
