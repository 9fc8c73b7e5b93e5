/**
 The node table of src/kernel/vfs.c as a tree: linked child lists, names, mounts and the walk along
 a path. A node is named by its place in the table; NULL is the null pointer.
 */
module VfsTree {

  const NULL := -1
  const NAME_MAX := 31

  datatype Kind = Dir | File | Boot | Other

  datatype Node = Node(
    name: string, kind: Kind, parent: int, children: int, next: int, mount: int,
    slot: int, size: nat, capacity: nat, nlink: nat, owner: int)

  type Nodes = seq<Node>

  /** The children of every node, in the order of its list. */
  type Kids = seq<seq<nat>>

  predicate In(ns: Nodes, x: int) {
    0 <= x < |ns|
  }

  function At(l: seq<nat>, i: nat): int {
    if i < |l| then l[i] else NULL
  }

  // ----- The tree -----

  /** The list of d in memory is kids[d]: every child in it once, and d its parent. */
  ghost predicate ListOk(ns: Nodes, kids: Kids, d: nat)
    requires d < |ns| && |kids| == |ns|
  {
    && ns[d].children == At(kids[d], 0) && (kids[d] != [] ==> ns[d].kind == Dir)
    && (forall i :: 0 <= i < |kids[d]| ==> KidOk(ns, kids[d], d, i))
    && (forall i, j :: 0 <= i < j < |kids[d]| ==> kids[d][i] != kids[d][j])
  }

  ghost predicate KidOk(ns: Nodes, l: seq<nat>, d: nat, i: nat)
    requires i < |l|
  {
    l[i] < |ns| && ns[l[i]].parent == d && ns[l[i]].next == At(l, i + 1)
  }

  ghost predicate Listed(ns: Nodes, kids: Kids) {
    |kids| == |ns| && forall d :: 0 <= d < |ns| ==> ListOk(ns, kids, d)
  }

  /** A node with a parent is in its parent's list, or is the root of what is mounted there. */
  ghost predicate PlaceOk(ns: Nodes, kids: Kids, c: nat)
    requires c < |ns| && |kids| == |ns|
  {
    ns[c].parent == NULL || (In(ns, ns[c].parent) && (c in kids[ns[c].parent] || ns[ns[c].parent].mount == c))
  }

  ghost predicate Placed(ns: Nodes, kids: Kids) {
    |kids| == |ns| && forall c :: 0 <= c < |ns| ==> PlaceOk(ns, kids, c)
  }

  /** Something is mounted on empty directories below the root only, and its root is in no list. */
  ghost predicate MountOk(ns: Nodes, kids: Kids, d: nat)
    requires d < |ns| && |kids| == |ns|
  {
    ns[d].mount != NULL ==>
      var m := ns[d].mount;
      && In(ns, m) && ns[m].parent == d && ns[m].kind == Dir && ns[m].mount == NULL
      && ns[d].kind == Dir && ns[d].parent != NULL && kids[d] == []
  }

  ghost predicate Mounted(ns: Nodes, kids: Kids) {
    |kids| == |ns| && forall d :: 0 <= d < |ns| ==> MountOk(ns, kids, d)
  }

  ghost predicate RootOk(ns: Nodes, root: nat) {
    root < |ns| && ns[root].parent == NULL && ns[root].kind == Dir
  }

  /** No directory holds two children of the same name. */
  ghost predicate NamesOk(ns: Nodes, l: seq<nat>) {
    && (forall i :: 0 <= i < |l| ==> l[i] < |ns|)
    && forall i, j :: 0 <= i < j < |l| ==> ns[l[i]].name != ns[l[j]].name
  }

  ghost predicate Named(ns: Nodes, kids: Kids) {
    forall d :: 0 <= d < |kids| ==> NamesOk(ns, kids[d])
  }

  ghost predicate Tree(ns: Nodes, kids: Kids, root: nat) {
    Listed(ns, kids) && Placed(ns, kids) && Mounted(ns, kids) && RootOk(ns, root) && Named(ns, kids)
  }

  // ----- No cycles -----

  /** Every node has a higher rank than its parent. */
  ghost predicate Ranked(ns: Nodes, rank: seq<nat>) {
    |rank| == |ns| && forall c :: 0 <= c < |ns| ==> RankOk(ns, rank, c)
  }

  ghost predicate RankOk(ns: Nodes, rank: seq<nat>, c: nat)
    requires c < |ns| && |rank| == |ns|
  {
    ns[c].parent != NULL ==> In(ns, ns[c].parent) && rank[ns[c].parent] < rank[c]
  }

  /** a is c or an ancestor of c. */
  ghost predicate Below(ns: Nodes, rank: seq<nat>, c: nat, a: nat)
    requires Ranked(ns, rank) && c < |ns|
    decreases rank[c]
  {
    c == a || (assert RankOk(ns, rank, c); ns[c].parent != NULL && Below(ns, rank, ns[c].parent, a))
  }

  ghost function Shifted(ns: Nodes, rank: seq<nat>, x: nat, k: nat): (r: seq<nat>)
    requires Ranked(ns, rank)
    ensures |r| == |ns| && forall c :: 0 <= c < |ns| ==> r[c] == rank[c] + if Below(ns, rank, c, x) then k else 0
  {
    seq(|ns|, c requires 0 <= c < |ns| => rank[c] + if Below(ns, rank, c, x) then k else 0)
  }

  /** A node without a parent, and all below it, can be put under p when p is not below it. */
  lemma AttachRank(ns: Nodes, rank: seq<nat>, after: Nodes, p: nat, x: nat)
    requires Ranked(ns, rank) && p < |ns| && x < |ns| && ns[x].parent == NULL && !Below(ns, rank, p, x)
    requires |after| == |ns| && after[x].parent == p
    requires forall c :: 0 <= c < |ns| && c != x ==> after[c].parent == ns[c].parent
    ensures Ranked(after, Shifted(ns, rank, x, rank[p] + 1))
  {
    var r := Shifted(ns, rank, x, rank[p] + 1);
    forall c | 0 <= c < |ns|
      ensures RankOk(after, r, c)
    {
      assert RankOk(ns, rank, c);
    }
  }

  /** Taking parents away leaves the ranks right. */
  lemma DetachRank(ns: Nodes, rank: seq<nat>, after: Nodes)
    requires Ranked(ns, rank) && |after| == |ns|
    requires forall c :: 0 <= c < |ns| ==> after[c].parent == NULL || after[c].parent == ns[c].parent
    ensures Ranked(after, rank)
  {
    forall c | 0 <= c < |ns|
      ensures RankOk(after, rank, c)
    {
      assert RankOk(ns, rank, c);
    }
  }

  lemma {:induction false} DetachBelow(ns: Nodes, rank: seq<nat>, after: Nodes, c: nat, a: nat)
    requires Ranked(ns, rank) && Ranked(after, rank) && |after| == |ns| && c < |ns| && !Below(ns, rank, c, a)
    requires forall d :: 0 <= d < |ns| ==> after[d].parent == NULL || after[d].parent == ns[d].parent
    ensures !Below(after, rank, c, a)
    decreases rank[c]
  {
    assert RankOk(ns, rank, c);
    if after[c].parent != NULL {
      DetachBelow(ns, rank, after, ns[c].parent, a);
    }
  }

  /** Only directories have anything below them. */
  lemma {:induction false} OnlyDirs(ns: Nodes, kids: Kids, root: nat, rank: seq<nat>, c: nat, a: nat)
    requires Tree(ns, kids, root) && Ranked(ns, rank) && c < |ns| && Below(ns, rank, c, a) && c != a
    ensures a < |ns| && ns[a].kind == Dir
    decreases rank[c]
  {
    assert RankOk(ns, rank, c);
    var p := ns[c].parent;
    ParentIsDir(ns, kids, root, c);
    if p != a {
      OnlyDirs(ns, kids, root, rank, p, a);
    }
  }

  lemma ParentIsDir(ns: Nodes, kids: Kids, root: nat, c: nat)
    requires Tree(ns, kids, root) && c < |ns| && ns[c].parent != NULL
    ensures In(ns, ns[c].parent) && ns[ns[c].parent].kind == Dir
  {
    assert PlaceOk(ns, kids, c);
    assert ListOk(ns, kids, ns[c].parent) && MountOk(ns, kids, ns[c].parent);
  }

  // ----- Adding and removing one entry -----

  /** add: x becomes the first child of p. */
  function Attached(ns: Nodes, p: nat, x: nat): (r: Nodes)
    requires p < |ns| && x < |ns| && p != x
    ensures |r| == |ns|
  {
    ns[x := ns[x].(parent := p, next := ns[p].children)][p := ns[p].(children := x)]
  }

  ghost function KidAdded(kids: Kids, p: nat, x: nat): (r: Kids)
    requires p < |kids|
    ensures |r| == |kids|
  {
    kids[p := [x] + kids[p]]
  }

  lemma AttachList(ns: Nodes, kids: Kids, root: nat, p: nat, x: nat)
    requires Tree(ns, kids, root) && p < |ns| && x < |ns| && p != x && x != root
    requires ns[p].kind == Dir && ns[p].mount == NULL && ns[x].parent == NULL
    ensures Listed(Attached(ns, p, x), KidAdded(kids, p, x))
  {
    var ns', kids' := Attached(ns, p, x), KidAdded(kids, p, x);
    forall d | 0 <= d < |ns|
      ensures ListOk(ns', kids', d)
    {
      assert ListOk(ns, kids, d);
      forall i | 0 <= i < |kids'[d]|
        ensures KidOk(ns', kids'[d], d, i)
      {
        if d == p && i > 0 {
          assert KidOk(ns, kids[d], d, i - 1);
        } else if d != p {
          assert KidOk(ns, kids[d], d, i);
        }
      }
      forall i, j | 0 <= i < j < |kids'[d]|
        ensures kids'[d][i] != kids'[d][j]
      {
        if d == p && i == 0 {
          assert KidOk(ns, kids[p], p, j - 1);
        }
      }
    }
  }

  lemma AttachKeeps(ns: Nodes, kids: Kids, root: nat, p: nat, x: nat)
    requires Tree(ns, kids, root) && p < |ns| && x < |ns| && p != x && x != root
    requires ns[p].kind == Dir && ns[p].mount == NULL && ns[x].parent == NULL && ns[x].mount == NULL
    requires forall i :: 0 <= i < |kids[p]| ==> ns[kids[p][i]].name != ns[x].name
    ensures Tree(Attached(ns, p, x), KidAdded(kids, p, x), root)
  {
    var ns', kids' := Attached(ns, p, x), KidAdded(kids, p, x);
    AttachList(ns, kids, root, p, x);
    forall c | 0 <= c < |ns|
      ensures PlaceOk(ns', kids', c)
    {
      assert PlaceOk(ns, kids, c);
      assert c == x ==> kids'[p][0] == x;
      if c != x && ns[c].parent == p && c in kids[p] {
        var i :| 0 <= i < |kids[p]| && kids[p][i] == c;
        assert kids'[p][i + 1] == c;
      }
    }
    forall d | 0 <= d < |ns|
      ensures MountOk(ns', kids', d)
    {
      assert MountOk(ns, kids, d);
    }
    forall d | 0 <= d < |kids|
      ensures NamesOk(ns', kids'[d])
    {
      assert NamesOk(ns, kids[d]);
      forall i, j | 0 <= i < j < |kids'[d]|
        ensures ns'[kids'[d][i]].name != ns'[kids'[d][j]].name
      {
        if d == p && i > 0 {
          assert ns[kids[p][i - 1]].name != ns[kids[p][j - 1]].name;
        }
      }
    }
  }

  /** The i-th child x of p is taken out of the list. */
  function Detached(ns: Nodes, l: seq<nat>, p: nat, i: nat): (r: Nodes)
    requires p < |ns| && i < |l| && l[i] < |ns| && (i > 0 ==> l[i - 1] < |ns|)
    ensures |r| == |ns|
  {
    var x := l[i];
    var ns1 := if i == 0 then ns[p := ns[p].(children := ns[x].next)]
      else ns[l[i - 1] := ns[l[i - 1]].(next := ns[x].next)];
    ns1[x := ns1[x].(parent := NULL, next := NULL)]
  }

  ghost function KidRemoved(kids: Kids, p: nat, i: nat): (r: Kids)
    requires p < |kids| && i < |kids[p]|
    ensures |r| == |kids|
  {
    kids[p := kids[p][..i] + kids[p][i + 1..]]
  }

  /** No directory is in its own list. */
  lemma NotOwnParent(ns: Nodes, kids: Kids, rank: seq<nat>, p: nat, i: nat)
    requires Listed(ns, kids) && Ranked(ns, rank) && p < |ns| && i < |kids[p]|
    ensures kids[p][i] < |ns| && kids[p][i] != p && ns[kids[p][i]].parent == p && ns[p].kind == Dir
  {
    assert ListOk(ns, kids, p);
    assert KidOk(ns, kids[p], p, i);
    assert RankOk(ns, rank, kids[p][i]);
  }

  /** What detaching changes. */
  lemma DetachedIs(ns: Nodes, kids: Kids, rank: seq<nat>, p: nat, i: nat)
    requires Listed(ns, kids) && Ranked(ns, rank) && p < |ns| && i < |kids[p]|
    ensures kids[p][i] < |ns| && kids[p][i] != p
    ensures (i > 0 ==> kids[p][i - 1] < |ns| && kids[p][i - 1] != kids[p][i] && kids[p][i - 1] != p)
    ensures var x := kids[p][i];
            var ns' := Detached(ns, kids[p], p, i);
            && ns'[x] == ns[x].(parent := NULL, next := NULL)
            && forall c :: 0 <= c < |ns| && c != x ==>
                 ns'[c] == ns[c].(children := if c == p && i == 0 then ns[x].next else ns[c].children,
                                  next := if i > 0 && c == kids[p][i - 1] then ns[x].next else ns[c].next)
  {
    NotOwnParent(ns, kids, rank, p, i);
    assert ListOk(ns, kids, p);
    if i > 0 {
      NotOwnParent(ns, kids, rank, p, i - 1);
    }
  }

  lemma DetachList(ns: Nodes, kids: Kids, rank: seq<nat>, p: nat, i: nat)
    requires Listed(ns, kids) && Ranked(ns, rank) && p < |ns| && i < |kids[p]|
    ensures kids[p][i] < |ns| && (i > 0 ==> kids[p][i - 1] < |ns|)
    ensures Listed(Detached(ns, kids[p], p, i), KidRemoved(kids, p, i))
  {
    hide Ranked;
    DetachedIs(ns, kids, rank, p, i);
    var x, l := kids[p][i], kids[p];
    var ns', kids' := Detached(ns, l, p, i), KidRemoved(kids, p, i);
    assert ListOk(ns, kids, p);
    assert KidOk(ns, l, p, i);
    forall d | 0 <= d < |ns|
      ensures ListOk(ns', kids', d)
    {
      assert ListOk(ns, kids, d);
      forall j | 0 <= j < |kids'[d]|
        ensures KidOk(ns', kids'[d], d, j)
      {
        if d != p {
          assert KidOk(ns, kids[d], d, j);
          OtherList(ns, kids, p, d, i, j);
        } else if j < i {
          assert KidOk(ns, l, p, j);
          assert kids'[p][j] == l[j];
        } else {
          assert KidOk(ns, l, p, j + 1);
          assert kids'[p][j] == l[j + 1];
        }
      }
    }
  }

  /** Lists of different directories have nothing in common. */
  lemma OtherList(ns: Nodes, kids: Kids, p: nat, d: nat, i: nat, j: nat)
    requires Listed(ns, kids) && p < |ns| && d < |ns| && p != d && i < |kids[p]| && j < |kids[d]|
    ensures kids[d][j] != kids[p][i]
    ensures i > 0 ==> kids[d][j] != kids[p][i - 1]
  {
    assert ListOk(ns, kids, p) && ListOk(ns, kids, d);
    assert KidOk(ns, kids[p], p, i) && KidOk(ns, kids[d], d, j);
    if i > 0 {
      assert KidOk(ns, kids[p], p, i - 1);
    }
  }

  lemma DetachKeeps(ns: Nodes, kids: Kids, root: nat, rank: seq<nat>, p: nat, i: nat)
    requires Tree(ns, kids, root) && Ranked(ns, rank) && p < |ns| && i < |kids[p]|
    requires kids[p][i] < |ns| ==> ns[kids[p][i]].mount == NULL
    ensures kids[p][i] < |ns| && (i > 0 ==> kids[p][i - 1] < |ns|)
    ensures Tree(Detached(ns, kids[p], p, i), KidRemoved(kids, p, i), root)
  {
    hide Ranked;
    DetachedIs(ns, kids, rank, p, i);
    DetachList(ns, kids, rank, p, i);
    var x, l := kids[p][i], kids[p];
    var ns', kids' := Detached(ns, l, p, i), KidRemoved(kids, p, i);
    forall c | 0 <= c < |ns|
      ensures PlaceOk(ns', kids', c)
    {
      assert PlaceOk(ns, kids, c);
      if c != x && ns[c].parent == p && c in l {
        var j :| 0 <= j < |l| && l[j] == c;
        assert kids'[p][if j < i then j else j - 1] == c;
      }
    }
    forall d | 0 <= d < |ns|
      ensures MountOk(ns', kids', d)
    {
      assert MountOk(ns, kids, d);
      if ns[d].mount == x {
        NotOwnParent(ns, kids, rank, p, i);
      }
    }
    forall d | 0 <= d < |kids|
      ensures NamesOk(ns', kids'[d])
    {
      assert NamesOk(ns, kids[d]);
      if d == p {
        RemovedNames(ns, ns', l, i);
      }
    }
    RootAlone(ns, kids, root, p, i);
  }

  lemma RootAlone(ns: Nodes, kids: Kids, root: nat, p: nat, i: nat)
    requires Tree(ns, kids, root) && p < |ns| && i < |kids[p]|
    ensures kids[p][i] != root
  {
    assert ListOk(ns, kids, p);
    assert KidOk(ns, kids[p], p, i);
  }

  lemma RemovedNames(ns: Nodes, after: Nodes, l: seq<nat>, i: nat)
    requires NamesOk(ns, l) && i < |l| && |after| == |ns| && forall c :: 0 <= c < |ns| ==> after[c].name == ns[c].name
    ensures NamesOk(after, l[..i] + l[i + 1..])
  {
  }

  /** new_node: a node that is not in the tree yet. */
  lemma NewNodeKeeps(ns: Nodes, kids: Kids, root: nat, rank: seq<nat>, x: Node)
    requires Tree(ns, kids, root) && Ranked(ns, rank)
    requires x.parent == NULL && x.children == NULL && x.mount == NULL
    ensures Tree(ns + [x], kids + [[]], root) && Ranked(ns + [x], rank + [0])
  {
    var ns', kids', rank' := ns + [x], kids + [[]], rank + [0];
    forall d | 0 <= d < |ns'|
      ensures ListOk(ns', kids', d) && PlaceOk(ns', kids', d) && MountOk(ns', kids', d) && NamesOk(ns', kids'[d])
      ensures RankOk(ns', rank', d)
    {
      if d < |ns| {
        assert ListOk(ns, kids, d) && PlaceOk(ns, kids, d) && MountOk(ns, kids, d);
        assert NamesOk(ns, kids[d]) && RankOk(ns, rank, d);
        forall i | 0 <= i < |kids[d]|
          ensures KidOk(ns', kids'[d], d, i)
        {
          assert KidOk(ns, kids[d], d, i);
        }
      }
    }
  }

  /** c is entry i of the list of d. */
  predicate Sits(kids: Kids, d: int, i: int, c: nat) {
    0 <= d < |kids| && 0 <= i < |kids[d]| && kids[d][i] == c
  }

  /** A node with a parent, other than the root of a mount, is in one child list, once: its parent's. */
  lemma OneList(ns: Nodes, kids: Kids, root: nat, c: nat)
    requires Tree(ns, kids, root) && c < |ns| && ns[c].parent != NULL
    requires !(In(ns, ns[c].parent) && ns[ns[c].parent].mount == c)
    ensures In(ns, ns[c].parent) && exists i :: 0 <= i < |kids[ns[c].parent]| && kids[ns[c].parent][i] == c
    ensures forall d, i, e, j :: Sits(kids, d, i, c) && Sits(kids, e, j, c) ==>
              d == e == ns[c].parent && i == j
  {
    assert PlaceOk(ns, kids, c);
    forall d, i, e, j | Sits(kids, d, i, c) && Sits(kids, e, j, c)
      ensures d == e == ns[c].parent && i == j
    {
      assert ListOk(ns, kids, d) && ListOk(ns, kids, e);
      assert KidOk(ns, kids[d], d, i) && KidOk(ns, kids[e], e, j);
    }
  }

  lemma {:induction false} BelowRank(ns: Nodes, rank: seq<nat>, c: nat, a: nat)
    requires Ranked(ns, rank) && c < |ns| && Below(ns, rank, c, a)
    ensures a < |ns| && rank[a] <= rank[c]
    decreases rank[c]
  {
    assert RankOk(ns, rank, c);
    if c != a {
      BelowRank(ns, rank, ns[c].parent, a);
    }
  }

  /** No node is among its own ancestors. */
  lemma NoCycle(ns: Nodes, rank: seq<nat>, c: nat)
    requires Ranked(ns, rank) && c < |ns| && ns[c].parent != NULL
    ensures In(ns, ns[c].parent) && !Below(ns, rank, ns[c].parent, c)
  {
    assert RankOk(ns, rank, c);
    if Below(ns, rank, ns[c].parent, c) {
      BelowRank(ns, rank, ns[c].parent, c);
    }
  }
}
