/**
 The in-memory file system of src/kernel/vfs.c: look-up, creation, links, removal and renaming keep
 the tree and the inodes in order.
 */
module Vfs {
  import opened Common
  import opened VfsTree
  import opened VfsPaths
  import opened VfsLinks

  const MAX_NODES := 16384

  function Fresh(name: string, kind: Kind, id: nat): Node {
    Node(name, kind, NULL, NULL, NULL, NULL, NULL, 0, 0, 1, id)
  }

  /** A top-level name that takes the spelling it was asked for. */
  predicate System(name: string) {
    Lower(name) == "usr" || Lower(name) == "lib"
  }

  lemma RespellKeeps(ns: Nodes, kids: Kids, root: nat, d: nat, name: string)
    requires Tree(ns, kids, root) && GoodKids(ns, kids) && d < |ns|
    requires Exact(ns, kids[d], name) == NULL && Fold(ns, kids[d], name) != NULL
    ensures var x := Fold(ns, kids[d], name);
            In(ns, x) && Tree(Renamed(ns, x, name), kids, root) && Respelt(ns, Renamed(ns, x, name), kids)
  {
    hide Tree, Find, Exact, Fold;
    var l := kids[d];
    var x := Fold(ns, l, name);
    FoldIs(ns, l, name);
    ExactIs(ns, l, name);
    var k :| 0 <= k < |l| && l[k] == x;
    RespellTree(ns, kids, root, d, name, k);
    RespellLookups(ns, kids, root, d, name, k);
  }

  lemma RespellTree(ns: Nodes, kids: Kids, root: nat, d: nat, name: string, k: nat)
    requires Tree(ns, kids, root) && GoodKids(ns, kids) && d < |ns| && k < |kids[d]|
    requires forall i :: 0 <= i < |kids[d]| ==> ns[kids[d][i]].name != name
    ensures Tree(Renamed(ns, kids[d][k], name), kids, root)
  {
    var l, x := kids[d], kids[d][k];
    var ns' := Renamed(ns, x, name);
    forall c | 0 <= c < |ns|
      ensures ListOk(ns', kids, c) && PlaceOk(ns', kids, c) && MountOk(ns', kids, c) && NamesOk(ns', kids[c])
    {
      assert ListOk(ns, kids, c) && PlaceOk(ns, kids, c) && MountOk(ns, kids, c) && NamesOk(ns, kids[c]);
      forall i | 0 <= i < |kids[c]|
        ensures KidOk(ns', kids[c], c, i) && (c != d ==> kids[c][i] != x)
      {
        assert KidOk(ns, kids[c], c, i);
        if c != d {
          OtherList(ns, kids, d, c, k, i);
        }
      }
      if c == d {
        RespellNames(ns, l, name, k);
      }
    }
  }

  lemma RespellLookups(ns: Nodes, kids: Kids, root: nat, d: nat, name: string, k: nat)
    requires Tree(ns, kids, root) && GoodKids(ns, kids) && d < |ns| && k < |kids[d]|
    requires Exact(ns, kids[d], name) == NULL && Fold(ns, kids[d], name) == kids[d][k]
    ensures Respelt(ns, Renamed(ns, kids[d][k], name), kids)
  {
    hide Exact, Fold;
    var l, x := kids[d], kids[d][k];
    var ns' := Renamed(ns, x, name);
    forall c, m | 0 <= c < |kids|
      ensures Find(ns', kids[c], m) == Find(ns, kids[c], m)
    {
      if c == d {
        assert NamesOk(ns, l);
        RespellFinds(ns, l, name, m);
      } else {
        forall i | 0 <= i < |kids[c]|
          ensures kids[c][i] != x
        {
          OtherList(ns, kids, d, c, k, i);
        }
        UntouchedFinds(ns, ns', kids[c], m);
      }
    }
  }

  /** Spelling matters neither to ranks nor to inodes. */
  lemma RespeltKeeps(ns: Nodes, after: Nodes, kids: Kids, rank: seq<nat>, used: seq<bool>)
    requires GoodKids(ns, kids) && Respelt(ns, after, kids) && Ranked(ns, rank) && Inodes(ns, used)
    ensures Ranked(after, rank) && Inodes(after, used)
  {
    DetachRank(ns, rank, after);
    MovedSlots(ns, after, used);
    if |ns| > 0 {
      MovedLinks(ns, after, 0, 0, NULL);
      NoOwner(after, ns[0].owner, 0);
    }
  }

  lemma RespeltTwice(a: Nodes, b: Nodes, c: Nodes, kids: Kids)
    requires GoodKids(a, kids) && GoodKids(b, kids) && Respelt(a, b, kids) && Respelt(b, c, kids)
    ensures Respelt(a, c, kids)
  {
  }

  /** Inode fields matter neither to the tree nor to ranks. */
  predicate SamePlace(a: Node, b: Node) {
    && a.name == b.name && a.kind == b.kind && a.parent == b.parent
    && a.children == b.children && a.next == b.next && a.mount == b.mount
  }

  lemma InodesMove(ns: Nodes, after: Nodes, kids: Kids, root: nat, rank: seq<nat>)
    requires Tree(ns, kids, root) && Ranked(ns, rank) && |after| == |ns|
    requires forall c :: 0 <= c < |ns| ==> SamePlace(after[c], ns[c])
    ensures Tree(after, kids, root) && Ranked(after, rank)
  {
    forall c | 0 <= c < |ns|
      ensures ListOk(after, kids, c) && PlaceOk(after, kids, c) && MountOk(after, kids, c) && NamesOk(after, kids[c])
      ensures RankOk(after, rank, c)
    {
      assert ListOk(ns, kids, c) && PlaceOk(ns, kids, c) && MountOk(ns, kids, c);
      assert NamesOk(ns, kids[c]) && RankOk(ns, rank, c);
      forall i | 0 <= i < |kids[c]|
        ensures KidOk(after, kids[c], c, i)
      {
        assert KidOk(ns, kids[c], c, i);
      }
    }
  }

  lemma {:induction false} NotBelowNew(ns: Nodes, rank: seq<nat>, c: nat, x: nat)
    requires Ranked(ns, rank) && c < |ns| && c != x && forall d :: 0 <= d < |ns| ==> ns[d].parent != x
    ensures !Below(ns, rank, c, x)
    decreases rank[c]
  {
    assert RankOk(ns, rank, c);
    if ns[c].parent != NULL {
      NotBelowNew(ns, rank, ns[c].parent, x);
    }
  }

  /** A directory that may get a child of this name. */
  ghost predicate TakesName(ns: Nodes, kids: Kids, p: int, name: string)
    requires |kids| == |ns|
  {
    && In(ns, p) && ns[p].kind == Dir && ns[p].mount == NULL
    && forall i :: 0 <= i < |kids[p]| ==> kids[p][i] < |ns| && ns[kids[p][i]].name != name
  }

  /** A node x that was just appended is put into directory p. */
  lemma EnterKeeps(ns: Nodes, kids: Kids, root: nat, rank: seq<nat>, used: seq<bool>, p: nat, x: Node, o: int)
    requires Tree(ns, kids, root) && Ranked(ns, rank) && TakesName(ns, kids, p, x.name)
    requires x.parent == NULL && x.children == NULL && x.mount == NULL && x.owner == o
    requires OwnersOk(ns + [x]) && LinksBut(ns + [x], o, 1) && SlotsOk(ns + [x], used)
    ensures var ns1, kids1, rank1 := ns + [x], kids + [[]], rank + [0];
            && |rank1| == |ns1| && Ranked(ns1, rank1) && Tree(Attached(ns1, p, |ns|), KidAdded(kids1, p, |ns|), root)
            && Ranked(Attached(ns1, p, |ns|), Shifted(ns1, rank1, |ns|, rank1[p] + 1))
            && Inodes(Attached(ns1, p, |ns|), used)
  {
    hide Inodes, SlotsOk, OwnersOk, LinksBut;
    var ns1, kids1, rank1, id := ns + [x], kids + [[]], rank + [0], |ns|;
    NewNodeKeeps(ns, kids, root, rank, x);
    AttachKeeps(ns1, kids1, root, p, id);
    forall d | 0 <= d < |ns1|
      ensures ns1[d].parent != id
    {
      assert d < id ==> RankOk(ns, rank, d);
    }
    NotBelowNew(ns1, rank1, p, id);
    AttachRank(ns1, rank1, Attached(ns1, p, id), p, id);
    EnterInodes(ns1, used, p, id, o);
  }

  lemma EnterInodes(ns: Nodes, used: seq<bool>, p: nat, x: nat, o: int)
    requires p < |ns| && x < |ns| && p != x && ns[x].parent == NULL && ns[x].owner == o
    requires OwnersOk(ns) && LinksBut(ns, o, 1) && SlotsOk(ns, used)
    ensures Inodes(Attached(ns, p, x), used)
  {
    var after := Attached(ns, p, x);
    MovedLinks(ns, after, x, 1, o);
    MovedSlots(ns, after, used);
    assert OwnerOk(ns, x);
    if ns[x].kind == Dir {
      NoOwner(after, o, 1);
    } else {
      NoOwner(after, o, 0);
    }
  }

  /** An entry is taken out of its directory: its owner has one link too many. */
  lemma LeaveKeeps(ns: Nodes, kids: Kids, root: nat, rank: seq<nat>, used: seq<bool>, p: nat, i: nat)
    requires Tree(ns, kids, root) && Ranked(ns, rank) && Inodes(ns, used) && p < |ns| && i < |kids[p]|
    requires kids[p][i] < |ns| ==> ns[kids[p][i]].mount == NULL
    ensures kids[p][i] < |ns| && (i > 0 ==> kids[p][i - 1] < |ns|)
    ensures var x := kids[p][i];
            var ns' := Detached(ns, kids[p], p, i);
            && Tree(ns', KidRemoved(kids, p, i), root) && Ranked(ns', rank)
            && OwnersOk(ns') && SlotsOk(ns', used) && LinksBut(ns', ns[x].owner, if ns[x].kind == Dir then 0 else 1)
            && (forall c :: 0 <= c < |ns| ==>
                  SameInode(ns'[c], ns[c]) && ns'[c].kind == ns[c].kind && ns'[c].mount == ns[c].mount)
            && (forall c :: 0 <= c < |ns| ==> ns'[c].parent == if c == x then NULL else ns[c].parent)
            && (forall c :: 0 <= c < |ns| ==> ns'[c].name == ns[c].name)
  {
    hide SlotsOk, OwnersOk, LinksBut;
    DetachKeeps(ns, kids, root, rank, p, i);
    DetachedIs(ns, kids, rank, p, i);
    NotOwnParent(ns, kids, rank, p, i);
    var x, ns' := kids[p][i], Detached(ns, kids[p], p, i);
    DetachRank(ns, rank, ns');
    MovedLinks(ns, ns', x, 0, NULL);
    MovedSlots(ns, ns', used);
  }

  // ----- What each operation is to do -----

  datatype Fs = Fs(nodes: Nodes, kids: Kids, used: seq<bool>, pool: seq<seq<byte>>, rank: seq<nat>)

  /** An existing file is opened, or a new one made where the path led nowhere. */
  ghost predicate FileCreated(s: Fs, t: Fs, root: nat, parts: seq<string>, truncate: bool, x: int)
    requires GoodKids(s.nodes, s.kids) && GoodKids(t.nodes, t.kids)
  {
    && (var n := Walk(s.nodes, s.kids, root, parts);
          && (n != NULL ==>
                && x == (if s.nodes[n].kind == File then n else NULL)
                && |t.nodes| == |s.nodes| && t.kids == s.kids && t.used == s.used
                && PathsStay(s.nodes, s.kids, t.nodes, t.kids, root))
          && (n == NULL && x != NULL ==>
                && Created(s.nodes, s.kids, root, parts, t.nodes, t.kids, x, File) && t.nodes[x].nlink == 1
                && t.nodes[x].owner == x
                && Walk(t.nodes, t.kids, root, parts) == x && ContentOf(t.nodes, t.pool, x) == []
                && OwnSlot(s.used, t.used, t.nodes, x) && PathsStay(s.nodes, s.kids, t.nodes, t.kids, root)))
    && (x == NULL ==> t.kids == s.kids && t.used == s.used && Respelt(s.nodes, t.nodes, t.kids))
    && (Walk(s.nodes, s.kids, root, parts) == NULL ==>
          (x == NULL <==>
             || (forall q, m :: !Names(s.nodes, s.kids, root, parts, q, m)) || |s.nodes| >= MAX_NODES
             || forall i :: 0 <= i < |s.used| ==> s.used[i]))
    && (x != NULL ==>
          && |s.nodes| <= |t.nodes|
          && forall y :: 0 <= y < |s.nodes| ==>
               ContentOf(t.nodes, t.pool, y) ==
               if truncate && x < |s.nodes| && t.nodes[y].kind == File && t.nodes[y].owner == t.nodes[x].owner then []
               else ContentOf(s.nodes, s.pool, y))
  }

  /** A new directory where the path led nowhere. */
  ghost predicate DirCreated(s: Fs, t: Fs, root: nat, path: seq<string>, x: int)
    requires GoodKids(s.nodes, s.kids) && GoodKids(t.nodes, t.kids)
  {
    && (x != NULL ==>
          && Walk(s.nodes, s.kids, root, CutAll(path)) == NULL
          && Created(s.nodes, s.kids, root, CutAll(path), t.nodes, t.kids, x, Dir) && t.kids[x] == []
          && Walk(t.nodes, t.kids, root, CutAll(path)) == x
          && PathsStay(s.nodes, s.kids, t.nodes, t.kids, root))
    && (x == NULL ==> t.kids == s.kids && Respelt(s.nodes, t.nodes, t.kids))
    && |s.nodes| <= |t.nodes| && t.used == s.used && t.pool == s.pool
    && (forall y :: 0 <= y < |s.nodes| ==> ContentOf(t.nodes, t.pool, y) == ContentOf(s.nodes, s.pool, y))
    && (x == NULL <==>
          || path == [] || Walk(s.nodes, s.kids, root, CutAll(path)) != NULL
          || (forall q, m :: !Names(s.nodes, s.kids, root, CutAll(path), q, m))
          || |s.nodes| >= MAX_NODES)
  }

  /** A new name for the inode of a file. */
  ghost predicate LinkMade(s: Fs, t: Fs, root: nat, oldPath: seq<string>, newPath: seq<string>, rc: int)
    requires GoodKids(s.nodes, s.kids) && GoodKids(t.nodes, t.kids)
  {
    && t.used == s.used && t.pool == s.pool
    && (rc != 0 ==> t.kids == s.kids && Respelt(s.nodes, t.nodes, t.kids))
    && (rc == 0 ==>
          var src := Walk(s.nodes, s.kids, root, oldPath);
          var x := |s.nodes|;
          && In(s.nodes, src) && s.nodes[src].kind == File
          && Walk(s.nodes, s.kids, root, newPath) == NULL
          && Created(s.nodes, s.kids, root, newPath, t.nodes, t.kids, x, File)
          && t.nodes[x].owner == s.nodes[src].owner && Walk(t.nodes, t.kids, root, newPath) == x
          && ContentOf(t.nodes, t.pool, x) == ContentOf(s.nodes, s.pool, src)
          && PathsStay(s.nodes, s.kids, t.nodes, t.kids, root)
          && forall y :: 0 <= y < |s.nodes| ==> ContentOf(t.nodes, t.pool, y) == ContentOf(s.nodes, s.pool, y))
    && (var src := Walk(s.nodes, s.kids, root, oldPath);
        rc == if src == NULL || s.nodes[src].kind != File then -1
              else if forall q, m :: m != "" ==> !Names(s.nodes, s.kids, root, newPath, q, m) then -1
              else if Walk(s.nodes, s.kids, root, newPath) != NULL then -2
              else if |s.nodes| >= MAX_NODES then -3
              else 0)
  }

  /** An entry that is no directory goes. */
  ghost predicate EntryRemoved(s: Fs, t: Fs, root: nat, parts: seq<string>, rc: int, i: nat)
    requires GoodKids(s.nodes, s.kids) && GoodKids(t.nodes, t.kids)
  {
    && t.pool == s.pool
    && (var n := Walk(s.nodes, s.kids, root, parts);
          && (rc == 0 <==> n != NULL && s.nodes[n].kind != Dir)
          && (rc == 0 ==> var p := s.nodes[n].parent;
                          && In(s.nodes, p) && i < |s.kids[p]| && s.kids[p][i] == n
                          && t.kids == KidRemoved(s.kids, p, i)
                          && |t.nodes| == |s.nodes| && Walk(t.nodes, t.kids, root, parts) != n
                          && OthersStay(s.nodes, s.kids, t.nodes, t.kids, root, n)
                          && forall y ::
                               0 <= y < |t.nodes| && (t.nodes[y].owner != t.nodes[n].owner || Survives(t.nodes, n)) ==>
                               ContentOf(t.nodes, t.pool, y) == ContentOf(s.nodes, s.pool, y)))
    && (rc != 0 ==> rc == -1 && t.kids == s.kids && t.used == s.used && Respelt(s.nodes, t.nodes, t.kids))
  }

  /** An empty directory goes. */
  ghost predicate DirRemoved(s: Fs, t: Fs, root: nat, parts: seq<string>, rc: int, i: nat)
    requires GoodKids(s.nodes, s.kids) && GoodKids(t.nodes, t.kids)
  {
    && (var n := Walk(s.nodes, s.kids, root, parts);
          && (rc == 0 <==> n != NULL && n != root && s.nodes[n].kind == Dir && s.kids[n] == []
                           && In(s.nodes, s.nodes[n].parent) && n in s.kids[s.nodes[n].parent])
          && (rc == -2 <==> n != NULL && n != root && s.nodes[n].kind == Dir && s.kids[n] != [])
          && (rc == 0 ==> var p := s.nodes[n].parent;
                          && i < |s.kids[p]| && s.kids[p][i] == n && t.kids == KidRemoved(s.kids, p, i)
                          && OthersStay(s.nodes, s.kids, t.nodes, t.kids, root, n)
                          && forall path :: Walk(t.nodes, t.kids, root, path) != n))
    && |t.nodes| == |s.nodes| && t.used == s.used && t.pool == s.pool
    && (forall y :: 0 <= y < |t.nodes| ==> ContentOf(t.nodes, t.pool, y) == ContentOf(s.nodes, s.pool, y))
    && (rc != 0 ==> (rc == -1 || rc == -2) && t.kids == s.kids && Respelt(s.nodes, t.nodes, t.kids))
  }

  /** Bytes are written through one name of an inode. */
  ghost predicate BytesWritten(s: Fs, t: Fs, root: nat, n: nat, off: nat, src: seq<byte>, w: int)
    requires n < |s.nodes|
  {
    && Resized(s.nodes, t.nodes) && t.kids == s.kids && t.used == s.used
    && (w < 0 ==> t.nodes == s.nodes && t.pool == s.pool)
    && w == (if s.nodes[n].kind != File then -22
             else if off >= Capacity(s.nodes, n) then -28
             else Min(|src|, Capacity(s.nodes, n) - off))
    && (w >= 0 ==>
          forall y :: 0 <= y < |t.nodes| && t.nodes[y].kind == File && t.nodes[y].owner == t.nodes[n].owner ==>
            var was, now := ContentOf(s.nodes, s.pool, y), ContentOf(t.nodes, t.pool, y);
            && |now| == Max(|was|, off + w) && now[off..off + w] == src[..w]
            && forall k :: 0 <= k < |was| && !(off <= k < off + w) ==> now[k] == was[k])
    && (w >= 0 ==>
          forall y :: 0 <= y < |t.nodes| && (t.nodes[y].kind != File || t.nodes[y].owner != t.nodes[n].owner) ==>
            ContentOf(t.nodes, t.pool, y) == ContentOf(s.nodes, s.pool, y))
  }

  /** An inode gets a new length. */
  ghost predicate LengthSet(s: Fs, t: Fs, root: nat, n: nat, len: nat, ok: bool)
    requires n < |s.nodes|
  {
    && Resized(s.nodes, t.nodes) && t.kids == s.kids && t.used == s.used
    && (!ok ==> t.nodes == s.nodes && t.pool == s.pool)
    && (ok <==> s.nodes[n].kind == File && len <= Capacity(s.nodes, n))
    && (ok ==>
          forall y :: 0 <= y < |t.nodes| && t.nodes[y].kind == File && t.nodes[y].owner == t.nodes[n].owner ==>
            var was, now := ContentOf(s.nodes, s.pool, y), ContentOf(t.nodes, t.pool, y);
            |now| == len && forall k :: 0 <= k < len ==> now[k] == if k < |was| then was[k] else 0)
    && (ok ==>
          forall y :: 0 <= y < |t.nodes| && (t.nodes[y].kind != File || t.nodes[y].owner != t.nodes[n].owner) ==>
            ContentOf(t.nodes, t.pool, y) == ContentOf(s.nodes, s.pool, y))
  }

  /** The entry is there, the new path names a directory not below it, and no other directory is in the way. */
  ghost predicate MayMove(s: Fs, root: nat, oldPath: seq<string>, newPath: seq<string>)
    requires GoodKids(s.nodes, s.kids) && Ranked(s.nodes, s.rank)
  {
    var n, existing := Walk(s.nodes, s.kids, root, oldPath), Walk(s.nodes, s.kids, root, newPath);
    && n != NULL && n != root
    && (exists q, m :: m != "" && Names(s.nodes, s.kids, root, newPath, q, m) && !Below(s.nodes, s.rank, q, n))
    && (existing == NULL || existing == n || s.nodes[existing].kind != Dir)
  }

  /** n is the first entry of the named directory, under the new name; what had the name is gone, and no other moved. */
  ghost predicate Moved(s: Fs, t: Fs, root: nat, n: nat, existing: int, newPath: seq<string>, valid: bool)
    requires GoodKids(s.nodes, s.kids) && Ranked(s.nodes, s.rank) && (valid ==> GoodKids(t.nodes, t.kids))
    requires n < |s.nodes| == |t.nodes| && (existing == NULL || In(s.nodes, existing))
  {
    && Names(s.nodes, s.kids, root, newPath, t.nodes[n].parent, t.nodes[n].name)
    && (valid <==> !IsMountRoot(s.nodes, n))
    && (valid ==> t.kids[t.nodes[n].parent] != [] && t.kids[t.nodes[n].parent][0] == n)
    && (existing != NULL ==> t.nodes[existing].parent == NULL)
    && (IsMountRoot(s.nodes, n) ==> forall k :: !Tree(t.nodes, k, root))
    && (valid && Plain(newPath) ==> Walk(t.nodes, t.kids, root, newPath) == n)
    && (valid && Fold(s.nodes, s.kids[t.nodes[n].parent], t.nodes[n].name) == NULL ==>
          AwayStay(s.nodes, s.kids, s.rank, t.nodes, t.kids, root, n, existing))
    && (forall c :: 0 <= c < |t.nodes| && c != n && c != existing ==> t.nodes[c].parent == s.nodes[c].parent)
  }

  /** An entry moves to the named directory and name, in place of a file there. */
  ghost predicate EntryMoved(s: Fs, t: Fs, root: nat, oldPath: seq<string>, newPath: seq<string>, rc: int, valid: bool)
    requires GoodKids(s.nodes, s.kids) && Ranked(s.nodes, s.rank) && (valid ==> GoodKids(t.nodes, t.kids))
  {
    var n, existing := Walk(s.nodes, s.kids, root, oldPath), Walk(s.nodes, s.kids, root, newPath);
    && t.pool == s.pool && |t.nodes| == |s.nodes| && (rc == 0 <==> MayMove(s, root, oldPath, newPath))
    && (rc != 0 ==> rc == -1) && (rc != 0 || existing == n ==> valid && OnlyRespelt(s, t))
    && (rc == 0 ==> In(s.nodes, n))
    && (rc == 0 && existing != n ==> Moved(s, t, root, n, existing, newPath, valid))
    && (forall y :: 0 <= y < |t.nodes| && (rc != 0 || existing == n || Outlives(t.nodes, existing, y)) ==>
          ContentOf(t.nodes, t.pool, y) == ContentOf(s.nodes, s.pool, y))
  }

  /** A new root is mounted on a directory. */
  ghost predicate MountMade(s: Fs, t: Fs, root: nat, name: string, path: seq<string>, rc: int, valid: bool)
    requires GoodKids(s.nodes, s.kids) && Ranked(s.nodes, s.rank) && (valid ==> GoodKids(t.nodes, t.kids))
  {
    && t.used == s.used && t.pool == s.pool
    && (var d := Walk(s.nodes, s.kids, root, path);
          && rc == (if d == NULL || s.nodes[d].kind != Dir then -3 else if |s.nodes| >= MAX_NODES then -5 else 0)
          && (rc == 0 ==>
                && |t.nodes| == |s.nodes| + 1 && t.nodes[d].mount == |s.nodes| && t.nodes[|s.nodes|].parent == d
                && t.nodes[|s.nodes|].name == name && t.nodes[|s.nodes|].kind == Dir
                && forall y :: 0 <= y < |s.nodes| ==> ContentOf(t.nodes, t.pool, y) == ContentOf(s.nodes, s.pool, y))
          && (rc == 0 && Mountable(s.nodes, s.kids, d) ==>
                && valid && t.kids == s.kids + [[]] && Walk(t.nodes, t.kids, root, path) == |s.nodes|
                && forall other :: In(s.nodes, Walk(s.nodes, s.kids, root, other)) ==>
                     Walk(t.nodes, t.kids, root, other) ==
                     if Walk(s.nodes, s.kids, root, other) == d then |s.nodes|
                     else Walk(s.nodes, s.kids, root, other))
          && (rc != 0 ==> valid && t.kids == s.kids && Respelt(s.nodes, t.nodes, t.kids)))
  }

  /** Shaped well enough for the effects to be read. */
  ghost predicate Readable(s: Fs) {
    GoodKids(s.nodes, s.kids) && Ranked(s.nodes, s.rank)
  }

  /** A look-up may have respelt a name; nothing else changed. */
  ghost predicate OnlyRespelt(s: Fs, t: Fs)
    requires GoodKids(s.nodes, s.kids)
  {
    t.kids == s.kids && t.used == s.used && t.pool == s.pool && Respelt(s.nodes, t.nodes, s.kids)
  }

  /** Runs rename anything but the root of a mount. */
  ghost predicate RenameRun(s: Fs, t: Fs, root: nat, from: seq<string>, to: seq<string>, r: int)
    requires Readable(s) && Readable(t)
  {
    var n := Walk(s.nodes, s.kids, root, from);
    if n != NULL && IsMountRoot(s.nodes, n) then t == s else EntryMoved(s, t, root, from, to, r, true)
  }

  /** Runs mount on empty directories in the tree. */
  ghost predicate MountRun(s: Fs, t: Fs, root: nat, name: string, path: seq<string>, r: int)
    requires Readable(s) && Readable(t)
  {
    if Mountable(s.nodes, s.kids, Walk(s.nodes, s.kids, root, path))
    then MountMade(s, t, root, name, path, r, true)
    else t == s
  }

  /** One operation, with its result. */
  ghost predicate Effect(s: Fs, t: Fs, root: nat, op: Op, r: int)
    requires Readable(s) && Readable(t)
  {
    match op
    case DoCreate(path, truncate) => FileCreated(s, t, root, path, truncate, r)
    case DoMkdir(path) => DirCreated(s, t, root, path, r)
    case DoLink(from, to) => LinkMade(s, t, root, from, to, r)
    case DoUnlink(path) => exists i: nat :: EntryRemoved(s, t, root, path, r, i)
    case DoRmdir(path) => exists i: nat :: DirRemoved(s, t, root, path, r, i)
    case DoRename(from, to) => exists m :: OnlyRespelt(s, m) && Readable(m) && RenameRun(m, t, root, from, to, r)
    case DoMount(name, path) => exists m :: OnlyRespelt(s, m) && Readable(m) && MountRun(m, t, root, name, path, r)
    case DoWrite(n, off, src) => if n < |s.nodes| then BytesWritten(s, t, root, n, off, src, r) else t == s
    case DoTruncate(n, len) =>
      (r == 0 || r == -1) && if n < |s.nodes| then LengthSet(s, t, root, n, len, r == 0) else t == s
  }

  class FileSystem {
    const root: nat
    var nodes: Nodes
    var pool: seq<seq<byte>>
    var used: seq<bool>
    ghost var kids: Kids
    ghost var rank: seq<nat>

    ghost function Now(): Fs
      reads this
    {
      Fs(nodes, kids, used, pool, rank)
    }

    ghost predicate Valid()
      reads this
    {
      && Tree(nodes, kids, root) && Ranked(nodes, rank) && Inodes(nodes, used) && GoodKids(nodes, kids)
      && |pool| == SLOTS && (forall s :: 0 <= s < SLOTS ==> |pool[s]| == SLOT_SIZE)
    }

    /** vfs_lookup_child */
    method LookupChild(d: nat, name: string) returns (x: int)
      requires Valid() && d < |nodes|
      modifies this`nodes
      ensures Valid() && Respelt(old(nodes), nodes, kids)
      ensures x == if old(nodes)[d].kind == Dir then Find(old(nodes), kids[d], name) else NULL
      ensures |nodes| == |old(nodes)| && forall c :: 0 <= c < |nodes| ==>
                nodes[c].name == if c == x && nodes[c].parent == root && Lower(name) in {"usr", "lib"} then name
                                 else old(nodes)[c].name
    {
      hide Ranked, Inodes, Tree;
      RespeltSelf(nodes, kids);
      if nodes[d].kind != Dir {
        return NULL;
      }
      x := FirstExact(d, name);
      ExactIs(nodes, kids[d], name);
      if x != NULL {
        return;
      }
      x := FirstFold(d, name);
      if x != NULL {
        RespellKeeps(nodes, kids, root, d, name);
        if nodes[x].parent == root && System(name) {
          RespeltKeeps(nodes, Renamed(nodes, x, name), kids, rank, used);
          nodes := nodes[x := nodes[x].(name := name)];
        }
      }
    }

    /** The first loop: the exact name. */
    method FirstExact(d: nat, name: string) returns (x: int)
      requires Valid() && d < |nodes|
      ensures x == Exact(nodes, kids[d], name)
    {
      hide Ranked, Inodes;
      ghost var l := kids[d];
      assert ListOk(nodes, kids, d);
      ghost var i := 0;
      x := nodes[d].children;
      assert l[0..] == l;
      while x != NULL
        invariant 0 <= i <= |l| && x == At(l, i) && Exact(nodes, l, name) == Exact(nodes, l[i..], name)
        decreases |l| - i
      {
        assert KidOk(nodes, l, d, i);
        if nodes[x].name == name {
          return;
        }
        assert l[i..][1..] == l[i + 1..];
        x := nodes[x].next;
        i := i + 1;
      }
    }

    /** The second loop: a directory whose name differs in case. */
    method FirstFold(d: nat, name: string) returns (x: int)
      requires Valid() && d < |nodes|
      ensures x == Fold(nodes, kids[d], name)
    {
      hide Ranked, Inodes;
      ghost var l := kids[d];
      assert ListOk(nodes, kids, d);
      ghost var i := 0;
      x := nodes[d].children;
      assert l[0..] == l;
      while x != NULL
        invariant 0 <= i <= |l| && x == At(l, i) && Fold(nodes, l, name) == Fold(nodes, l[i..], name)
        decreases |l| - i
      {
        assert KidOk(nodes, l, d, i);
        if nodes[x].kind == Dir && Lower(nodes[x].name) == Lower(name) {
          return;
        }
        assert l[i..][1..] == l[i + 1..];
        x := nodes[x].next;
        i := i + 1;
      }
    }

    /** vfs_lookup */
    method Lookup(parts: seq<string>) returns (cur: int)
      requires Valid()
      modifies this`nodes
      ensures Valid() && Respelt(old(nodes), nodes, kids)
      ensures cur == Walk(old(nodes), kids, root, parts)
    {
      hide Ranked, Inodes, Tree, Respelt, Step;
      ghost var ns := nodes;
      RespeltSelf(nodes, kids);
      RootIn(nodes, kids, root);
      cur := root;
      for i := 0 to |parts|
        invariant Valid() && Respelt(ns, nodes, kids) && In(nodes, cur) && |nodes| == |ns|
        invariant Walk(ns, kids, root, parts) == Walk(ns, kids, cur, parts[i..])
      {
        var part := Cut(parts[i]);
        assert parts[i..][0] == parts[i] && parts[i..][1..] == parts[i + 1..];
        RespeltStep(ns, nodes, kids, cur, part);
        cur := StepTo(cur, part, ns);
        if cur == NULL {
          return;
        }
      }
      assert parts[|parts|..] == [];
    }

    /** One component of a path. */
    method StepTo(cur: nat, part: string, ghost ns: Nodes) returns (x: int)
      requires Valid() && cur < |nodes| && GoodKids(ns, kids) && Respelt(ns, nodes, kids)
      modifies this`nodes
      ensures Valid() && Respelt(ns, nodes, kids) && |nodes| == |old(nodes)|
      ensures x == Step(old(nodes), kids, cur, part) && (x == NULL || In(nodes, x))
    {
      hide Ranked, Inodes, Tree;
      if part == "." {
        return cur;
      }
      if part == ".." {
        return UpFrom(nodes, cur);
      }
      ghost var before := nodes;
      var d := Mr(nodes, cur);
      FindIn(nodes, kids[d], part);
      x := LookupChild(d, part);
      RespeltTwice(ns, before, nodes, kids);
      if x != NULL {
        x := Mr(nodes, x);
      }
    }

    /** vfs_parent_for_create: the directory of the last component, and that component */
    method ParentForCreate(parts: seq<string>) returns (p: int, name: string)
      requires Valid()
      modifies this`nodes
      ensures Valid() && Respelt(old(nodes), nodes, kids)
      ensures p != NULL ==> parts != [] && name == parts[|parts| - 1] && |name| <= NAME_MAX
      ensures p == if parts == [] || |parts[|parts| - 1]| > NAME_MAX then NULL
                   else Walk(old(nodes), kids, root, parts[..|parts| - 1])
    {
      RespeltSelf(nodes, kids);
      if parts == [] || |parts[|parts| - 1]| > NAME_MAX {
        return NULL, "";
      }
      name := parts[|parts| - 1];
      p := Lookup(parts[..|parts| - 1]);
    }

    /** vfs_alloc_file_data */
    method AllocSlot() returns (s: int)
      requires |used| == SLOTS && |pool| == SLOTS && forall i :: 0 <= i < SLOTS ==> |pool[i]| == SLOT_SIZE
      modifies this`used, this`pool
      ensures -1 <= s < SLOTS && |pool| == SLOTS && forall i :: 0 <= i < SLOTS ==> |pool[i]| == SLOT_SIZE
      ensures s == NULL ==> used == old(used) && pool == old(pool) && forall i :: 0 <= i < SLOTS ==> used[i]
      ensures s != NULL ==> !old(used)[s] && used == old(used)[s := true] && pool == old(pool)[s := pool[s]]
                            && forall j :: 0 <= j < SLOT_SIZE ==> pool[s][j] == 0
    {
      for i := 0 to SLOTS
        invariant forall j :: 0 <= j < i ==> used[j]
      {
        if !used[i] {
          used := used[i := true];
          pool := pool[i := seq(SLOT_SIZE, j => 0)];
          return i;
        }
      }
      return NULL;
    }

    /** add, for the node just appended */
    method Enter(p: nat, x: Node, ghost o: int)
      requires Tree(nodes, kids, root) && Ranked(nodes, rank) && GoodKids(nodes, kids)
      requires TakesName(nodes, kids, p, x.name)
      requires |pool| == SLOTS && forall s :: 0 <= s < SLOTS ==> |pool[s]| == SLOT_SIZE
      requires x.parent == NULL && x.children == NULL && x.mount == NULL && x.owner == o
      requires OwnersOk(nodes + [x]) && LinksBut(nodes + [x], o, 1) && SlotsOk(nodes + [x], used)
      modifies this`nodes, this`kids, this`rank
      ensures Valid()
      ensures nodes == Attached(old(nodes) + [x], p, |old(nodes)|)
      ensures kids == KidAdded(old(kids) + [[]], p, |old(nodes)|)
    {
      hide Tree, Ranked, Inodes, OwnersOk, LinksBut, SlotsOk;
      EnterKeeps(nodes, kids, root, rank, used, p, x, o);
      ghost var rank1 := rank + [0];
      rank := Shifted(nodes + [x], rank1, |nodes|, rank1[p] + 1);
      kids := KidAdded(kids + [[]], p, |nodes|);
      var id := |nodes|;
      nodes := nodes + [x];
      nodes := nodes[id := nodes[id].(parent := p, next := nodes[p].children)][p := nodes[p].(children := id)];
      TreeLists(nodes, kids, root);
    }

    /** Opening a file that exists for creation. */
    method Reopen(n: nat, truncate: bool) returns (x: int)
      requires Valid() && n < |nodes|
      modifies this`nodes
      ensures Valid() && x == (if old(nodes)[n].kind == File then n else NULL)
      ensures Resized(old(nodes), nodes) && (x == NULL ==> nodes == old(nodes))
      ensures x != NULL ==> forall y :: 0 <= y < |nodes| ==>
                ContentOf(nodes, pool, y) ==
                if truncate && nodes[y].kind == File && nodes[y].owner == nodes[n].owner then []
                else ContentOf(old(nodes), pool, y)
    {
      hide Tree, Ranked, SlotsOk, LinksBut;
      if nodes[n].kind != File {
        return NULL;
      }
      assert OwnerOk(nodes, n);
      var o := nodes[n].owner;
      var size := if truncate then 0 else nodes[o].size;
      assert ResizeOk(nodes, o, size) by {
        SizeFits(nodes, used, o, size);
      }
      ResizeKeeps(nodes, kids, root, rank, used, pool, o, size, n);
      nodes := nodes[o := nodes[o].(size := size)];
      nodes := nodes[n := nodes[n].(size := nodes[o].size)];
      return n;
    }

    /** vfs_parent_for_create, and the check that it is a directory */
    method NamedDirectory(parts: seq<string>, ghost ns: Nodes) returns (p: int, name: string)
      requires Valid() && GoodKids(ns, kids) && Respelt(ns, nodes, kids)
      modifies this`nodes
      ensures Valid() && Respelt(ns, nodes, kids) && |nodes| == |ns|
      ensures p != NULL ==> Names(ns, kids, root, parts, p, name) && nodes[p].kind == Dir
      ensures p == NULL ==> forall q, m :: !Names(ns, kids, root, parts, q, m)
    {
      hide Tree, Ranked, Inodes, Respelt, Walk;
      ghost var before := nodes;
      RespeltSize(ns, nodes, kids);
      p, name := ParentForCreate(parts);
      RespeltTwice(ns, before, nodes, kids);
      RespeltSize(ns, nodes, kids);
      if parts != [] {
        RespeltWalk(ns, before, kids, root, parts[..|parts| - 1]);
      }
      if p == NULL {
        return;
      }
      RespeltKind(ns, nodes, kids, p);
      if nodes[p].kind != Dir {
        return NULL, name;
      }
    }

    /** The directory a new entry goes into, for a path that leads nowhere yet. */
    method DirectoryFor(parts: seq<string>, ghost ns: Nodes) returns (p: int, name: string)
      requires Valid() && GoodKids(ns, kids) && Respelt(ns, nodes, kids) && Walk(ns, kids, root, parts) == NULL
      modifies this`nodes
      ensures Valid() && Respelt(ns, nodes, kids) && |nodes| == |ns|
      ensures p != NULL ==> TakesName(nodes, kids, p, name) && Names(ns, kids, root, parts, p, name)
      ensures p == NULL ==> forall q, m :: !Names(ns, kids, root, parts, q, m)
    {
      hide Tree, Ranked, Inodes, Respelt, Walk, TakesName;
      p, name := NamedDirectory(parts, ns);
      if p != NULL {
        TakesFresh(ns, nodes, kids, root, parts, name);
      }
    }

    /** Making a file where there is none. */
    method NewFile(parts: seq<string>, ghost ns: Nodes) returns (x: int)
      requires Valid() && GoodKids(ns, kids) && Respelt(ns, nodes, kids) && Walk(ns, kids, root, parts) == NULL
      modifies this
      ensures Valid()
      ensures x == NULL ==> kids == old(kids) && Respelt(ns, nodes, kids) && pool == old(pool) && used == old(used)
      ensures x == NULL <==>
                || (forall q, m :: !Names(ns, old(kids), root, parts, q, m)) || |ns| >= MAX_NODES
                || forall i :: 0 <= i < |old(used)| ==> old(used)[i]
      ensures x != NULL ==>
                Created(ns, old(kids), root, parts, nodes, kids, x, File) && nodes[x].nlink == 1 && nodes[x].owner == x
      ensures x != NULL ==> OwnSlot(old(used), used, nodes, x)
      ensures x != NULL ==> ContentOf(nodes, pool, x) == [] && Walk(nodes, kids, root, parts) == x
      ensures x != NULL ==> PathsStay(ns, old(kids), nodes, kids, root)
      ensures x != NULL ==>
                && |nodes| == |ns| + 1
                && forall y :: 0 <= y < |ns| ==> ContentOf(nodes, pool, y) == ContentOf(ns, old(pool), y)
    {
      hide Tree, Ranked, Inodes, Respelt, Walk, OwnersOk, LinksBut, SlotsOk, ContentOf;
      var p, name := DirectoryFor(parts, ns);
      if p == NULL || |nodes| >= MAX_NODES {
        return NULL;
      }
      ghost var ns1, used1, pool1 := nodes, used, pool;
      UsedSize(nodes, used);
      var s := AllocSlot();
      if s == NULL {
        return NULL;
      }
      var node := Fresh(name, File, |nodes|).(slot := s, capacity := SLOT_SIZE);
      AppendOwner(nodes, used1, node);
      x := |nodes|;
      RespeltContent(ns, ns1, kids, pool1);
      Enter(p, node, x);
      CreatedResolves(ns, ns1, old(kids), root, parts, p, node, nodes, kids);
      NewContent(ns1, used1, pool1, nodes, pool, p, node);
    }

    /** vfs_create_file */
    method CreateFile(parts: seq<string>, truncate: bool) returns (x: int)
      requires Valid()
      modifies this
      ensures Valid() && FileCreated(old(Now()), Now(), root, parts, truncate, x)
    {
      hide Tree, Ranked, Inodes, Respelt, Walk, ContentOf;
      ghost var ns := nodes;
      var n := Lookup(parts);
      RespeltSize(ns, nodes, kids);
      RespeltContent(ns, nodes, kids, pool);
      if n != NULL {
        RespeltKind(ns, nodes, kids, n);
        ghost var ns1 := nodes;
        x := Reopen(n, truncate);
        ResizedPaths(ns1, nodes, kids, root);
        RespeltPaths(ns, ns1, kids, nodes, kids, root);
        return;
      }
      x := NewFile(parts, ns);
    }

    /** vfs_mkdir */
    method Mkdir(path: seq<string>) returns (x: int)
      requires Valid()
      modifies this`nodes, this`kids, this`rank
      ensures Valid() && DirCreated(old(Now()), Now(), root, path, x)
    {
      hide Tree, Ranked, Inodes, Respelt, Walk, OwnersOk, LinksBut, SlotsOk, ContentOf;
      ghost var ns := nodes;
      RespeltSelf(nodes, kids);
      if path == [] {
        return NULL;
      }
      var parts := CutAll(path);
      var n := Lookup(parts);
      RespeltSize(ns, nodes, kids);
      RespeltContent(ns, nodes, kids, pool);
      if n != NULL {
        return NULL;
      }
      var p, name := DirectoryFor(parts, ns);
      RespeltContent(ns, nodes, kids, pool);
      if p == NULL || |nodes| >= MAX_NODES {
        return NULL;
      }
      var node := Fresh(name, Dir, |nodes|);
      AppendOwner(nodes, used, node);
      x := |nodes|;
      ghost var ns1 := nodes;
      RespeltContent(ns, ns1, kids, pool);
      OwnersIn(nodes, used);
      Enter(p, node, x);
      SameContents(ns1, nodes, pool);
      CreatedResolves(ns, ns1, old(kids), root, parts, p, node, nodes, kids);
    }

    /** The second half of vfs_link: a new entry for the inode of src. */
    method Alias(src: nat, p: nat, name: string)
      requires Valid() && src < |nodes| && nodes[src].kind == File && nodes[src].parent != NULL
      requires TakesName(nodes, kids, p, name)
      modifies this`nodes, this`kids, this`rank
      ensures Valid() && |nodes| == |old(nodes)| + 1 && kids == KidAdded(old(kids) + [[]], p, |old(nodes)|)
      ensures var x := |old(nodes)|;
              && nodes[x].kind == File && nodes[x].name == name && nodes[x].parent == p
              && nodes[x].owner == old(nodes)[src].owner
      ensures ContentOf(nodes, pool, |old(nodes)|) == ContentOf(old(nodes), pool, src)
      ensures forall y :: 0 <= y < |old(nodes)| ==> ContentOf(nodes, pool, y) == ContentOf(old(nodes), pool, y)
      ensures nodes[|old(nodes)|].mount == NULL
      ensures forall c :: 0 <= c < |old(nodes)| ==> SamePlace(nodes[c], old(nodes)[c].(children := nodes[c].children))
    {
      hide Tree, Ranked, LinksBut, SlotsOk;
      ghost var ns := nodes;
      HasLink(nodes, used, src);
      assert OwnerOk(nodes, src);
      var o := nodes[src].owner;
      var alias := Node(name, File, NULL, NULL, NULL, NULL, nodes[o].slot, nodes[o].size, nodes[o].capacity, 0, o);
      AppendAlias(nodes, used, o, alias);
      InodesMove(nodes, nodes[o := nodes[o].(nlink := nodes[o].nlink + 1)], kids, root, rank);
      nodes := nodes[o := nodes[o].(nlink := nodes[o].nlink + 1)];
      Enter(p, alias, o);
      SameContents(ns, nodes, pool);
    }

    /** vfs_link */
    method Link(oldPath: seq<string>, newPath: seq<string>) returns (rc: int)
      requires Valid()
      modifies this`nodes, this`kids, this`rank
      ensures Valid() && LinkMade(old(Now()), Now(), root, oldPath, newPath, rc)
    {
      hide Tree, Ranked, Inodes, Respelt, Walk, OwnersOk, LinksBut, SlotsOk, ContentOf;
      ghost var ns := nodes;
      RespeltSelf(nodes, kids);
      var src := Lookup(oldPath);
      RespeltSize(ns, nodes, kids);
      if src == NULL {
        return -1;
      }
      RespeltKind(ns, nodes, kids, src);
      NotMountpoint(ns, kids, root, oldPath);
      RootIn(ns, kids, root);
      if src == root || nodes[src].mount != NULL || nodes[src].kind != File {
        return -1;
      }
      var p, name := NamedDirectory(newPath, ns);
      if p == NULL || name == "" {
        return -1;
      }
      ghost var ns2 := nodes;
      RespeltWalk(ns, nodes, kids, root, newPath);
      var n := Lookup(newPath);
      RespeltTwice(ns, ns2, nodes, kids);
      RespeltSize(ns, nodes, kids);
      if n != NULL {
        return -2;
      }
      if |nodes| >= MAX_NODES {
        return -3;
      }
      TakesFresh(ns, nodes, kids, root, newPath, name);
      ghost var ns3 := nodes;
      RespeltKind(ns, nodes, kids, src);
      Alias(src, p, name);
      RespeltContent(ns, ns3, old(kids), pool);
      RespeltWalk(ns, ns3, old(kids), root, newPath);
      RespeltWalk(ns, ns3, old(kids), root, newPath[..|newPath| - 1]);
      RespeltKind(ns, ns3, old(kids), p);
      CreatedWalk(ns3, old(kids), root, nodes, kids, newPath, File);
      RespeltPaths(ns, ns3, old(kids), nodes, kids, root);
      return 0;
    }

    /** Take n out of the list of its parent, if it is there. */
    method Unchain(n: nat) returns (found: bool, ghost i: nat)
      requires Valid() && n < |nodes| && In(nodes, nodes[n].parent)
      modifies this`nodes, this`kids
      ensures var p := old(nodes)[n].parent;
              && (found <==> n in old(kids)[p])
              && (!found ==> nodes == old(nodes) && kids == old(kids))
              && (found ==> i < |old(kids)[p]| && old(kids)[p][i] == n && (i > 0 ==> old(kids)[p][i - 1] < |old(nodes)|)
                            && nodes == Detached(old(nodes), old(kids)[p], p, i) && kids == KidRemoved(old(kids), p, i))
    {
      hide Inodes;
      var p := nodes[n].parent;
      ghost var l := kids[p];
      assert ListOk(nodes, kids, p);
      i := 0;
      var prev, cur := NULL, nodes[p].children;
      while cur != NULL && cur != n
        invariant i <= |l| && cur == At(l, i) && prev == (if i == 0 then NULL else l[i - 1])
        invariant forall j :: 0 <= j < i ==> l[j] != n
        decreases |l| - i
      {
        assert KidOk(nodes, l, p, i);
        prev, cur := cur, nodes[cur].next;
        i := i + 1;
      }
      found := cur == n;
      if found {
        if i > 0 {
          assert KidOk(nodes, l, p, i - 1);
        }
        if prev == NULL {
          nodes := nodes[p := nodes[p].(children := nodes[n].next)];
        } else {
          nodes := nodes[prev := nodes[prev].(next := nodes[n].next)];
        }
        nodes := nodes[n := nodes[n].(parent := NULL, next := NULL)];
        kids := KidRemoved(kids, p, i);
      }
    }

    /** vfs_free_file_data */
    method FreeSlot(o: nat)
      requires o < |nodes| && |used| == SLOTS && NULL <= nodes[o].slot < SLOTS
      modifies this`nodes, this`used
      ensures nodes == if old(nodes)[o].slot == NULL then old(nodes)
                       else old(nodes)[o := old(nodes)[o].(slot := NULL, capacity := 0)]
      ensures used == if old(nodes)[o].slot != NULL then old(used)[old(nodes)[o].slot := false] else old(used)
    {
      if nodes[o].slot == NULL {
        return;
      }
      for i := 0 to SLOTS
        invariant nodes == old(nodes) && used == old(used) && i <= nodes[o].slot
      {
        if nodes[o].slot == i {
          used := used[i := false];
          nodes := nodes[o := nodes[o].(slot := NULL, capacity := 0)];
          return;
        }
      }
    }

    /** vfs_drop_link */
    method DropLink(n: nat)
      requires n < |nodes| && OwnersOk(nodes) && SlotsOk(nodes, used)
      modifies this`nodes, this`used
      ensures In(old(nodes), old(nodes)[n].owner)
      ensures nodes == LinkDropped(old(nodes), old(nodes)[n].owner)
      ensures used == SlotFreed(old(nodes), old(used), old(nodes)[n].owner)
    {
      assert OwnerOk(nodes, n);
      var o := nodes[n].owner;
      assert OwnerOk(nodes, o);
      if nodes[o].kind == File {
        assert InodeOk(nodes, used, o);
      }
      if nodes[o].nlink > 0 {
        nodes := nodes[o := nodes[o].(nlink := nodes[o].nlink - 1)];
      }
      if nodes[o].nlink == 0 {
        nodes := nodes[o := nodes[o].(size := 0)];
        FreeSlot(o);
      }
    }

    /** An entry that is no directory goes: out of its list, and one link less. */
    method Remove(n: nat) returns (ghost i: nat)
      requires Valid() && n < |nodes| && nodes[n].kind != Dir && nodes[n].parent != NULL
      modifies this`nodes, this`kids, this`used
      ensures Valid() && |nodes| == |old(nodes)|
      ensures In(nodes, old(nodes)[n].parent) && i < |old(kids)[old(nodes)[n].parent]|
      ensures old(kids)[old(nodes)[n].parent][i] == n
      ensures kids == KidRemoved(old(kids), old(nodes)[n].parent, i)
      ensures Gone(old(nodes), nodes, n)
      ensures forall y :: 0 <= y < |nodes| && nodes[y].owner != nodes[n].owner ==>
                ContentOf(nodes, pool, y) == ContentOf(old(nodes), pool, y)
      ensures Survives(nodes, n) ==> forall y :: 0 <= y < |nodes| ==>
                ContentOf(nodes, pool, y) == ContentOf(old(nodes), pool, y)
    {
      hide Tree, Ranked, LinksBut, SlotsOk, KidRemoved;
      EntryListed(nodes, kids, root, n);
      HasLink(nodes, used, n);
      ghost var ns, p := nodes, nodes[n].parent;
      var found;
      found, i := Unchain(n);
      LeaveKeeps(ns, old(kids), root, rank, used, p, i);
      ghost var ns1 := nodes;
      DropLink(n);
      DropKeeps(ns1, kids, root, rank, used, old(used), n);
      TreeLists(nodes, kids, root);
      DroppedContents(ns, nodes, pool, n);
    }

    /** vfs_unlink */
    method Unlink(parts: seq<string>) returns (rc: int, ghost i: nat)
      requires Valid()
      modifies this`nodes, this`kids, this`used
      ensures Valid() && EntryRemoved(old(Now()), Now(), root, parts, rc, i)
    {
      hide Tree, Ranked, Inodes, Respelt, Walk, ContentOf, KidRemoved, Gone;
      i := 0;
      ghost var ns := nodes;
      var n := Lookup(parts);
      RespeltSize(ns, nodes, kids);
      if n == NULL {
        return -1, i;
      }
      RespeltKind(ns, nodes, kids, n);
      NotMountpoint(ns, kids, root, parts);
      RootIn(ns, kids, root);
      if n == root || nodes[n].kind == Dir || nodes[n].mount != NULL {
        return -1, i;
      }
      RespeltContent(ns, nodes, kids, pool);
      ghost var ns1 := nodes;
      i := Remove(n);
      OwnerKept(ns1, nodes, n);
      NotMountpoint(nodes, kids, root, parts);
      GoneSigns(ns1, nodes, n);
      ChildlessFile(ns1, old(kids), root, n);
      RemovedPaths(ns, ns1, old(kids), root, rank, nodes, kids, ns1[n].parent, i);
      return 0, i;
    }

    /** vfs_rmdir */
    method Rmdir(parts: seq<string>) returns (rc: int, ghost i: nat)
      requires Valid()
      modifies this`nodes, this`kids
      ensures Valid() && DirRemoved(old(Now()), Now(), root, parts, rc, i)
    {
      hide Tree, Ranked, Inodes, Respelt, Walk, KidRemoved, LinksBut, SlotsOk, OwnersOk;
      i := 0;
      ghost var ns := nodes;
      var n := Lookup(parts);
      RespeltSize(ns, nodes, kids);
      RespeltContent(ns, nodes, kids, pool);
      if n == NULL {
        return -1, i;
      }
      RespeltKind(ns, nodes, kids, n);
      NotMountpoint(ns, kids, root, parts);
      if n == root || nodes[n].kind != Dir || nodes[n].mount != NULL {
        return -1, i;
      }
      ChildrenNull(nodes, kids, root, n);
      if nodes[n].children != NULL {
        return -2, i;
      }
      if nodes[n].parent == NULL {
        return -1, i;
      }
      ParentIsDir(nodes, kids, root, n);
      ghost var ns1 := nodes;
      var found;
      found, i := Unchain(n);
      if !found {
        return -1, i;
      }
      OwnersIn(ns1, used);
      LeaveKeeps(ns1, old(kids), root, rank, used, ns1[n].parent, i);
      NoOwner(nodes, ns1[n].owner, 0);
      TreeLists(nodes, kids, root);
      MakeInodes(nodes, used);
      SameContents(ns1, nodes, pool);
      StillEmpty(old(kids), ns1[n].parent, i, n);
      NeverMet(nodes, kids, root, n);
      RemovedPaths(ns, ns1, old(kids), root, rank, nodes, kids, ns1[n].parent, i);
      return 0, i;
    }

    /** vfs_is_ancestor */
    method IsAncestor(a: nat, x: nat) returns (b: bool)
      requires Ranked(nodes, rank) && x < |nodes|
      ensures b <==> Below(nodes, rank, x, a)
    {
      var p: int := x;
      while p != NULL
        invariant p == NULL || In(nodes, p)
        invariant Below(nodes, rank, x, a) <==> p != NULL && Below(nodes, rank, p, a)
        decreases if p == NULL then 0 else rank[p] + 1
      {
        if p == a {
          return true;
        }
        assert RankOk(nodes, rank, p);
        p := nodes[p].parent;
      }
      return false;
    }

    /** n leaves the list of its directory, if it is in one. */
    method TakeOut(n: nat, p: nat, name: string) returns (found: bool, ghost i: nat)
      requires Valid() && n < |nodes| && nodes[n].mount == NULL && TakesName(nodes, kids, p, name)
      requires nodes[n].kind == Dir || nodes[n].parent != NULL
      modifies this`nodes, this`kids
      ensures Left(old(nodes), old(kids), n, i, nodes, kids, found)
      ensures OutOf(old(nodes), root, rank, used, n, p, name, nodes, kids)
      ensures IsMountRoot(old(nodes), n) ==> nodes == old(nodes) && kids == old(kids)
    {
      hide Tree, Ranked, Inodes, OutOf, TakesName, Detached, KidRemoved;
      ghost var ns, kids0 := nodes, kids;
      TakesIn(nodes, kids, p, name);
      found, i := false, 0;
      WhereIs(nodes, kids, root, n);
      if nodes[n].parent != NULL {
        found, i := Unchain(n);
      }
      MoveReady(ns, kids0, root, rank, used, n, p, name, i, nodes, kids, found);
    }

    /** The last part of vfs_rename: n leaves its directory and enters p under a new name. */
    method Move(n: nat, p: nat, name: string, ghost pre: seq<string>)
      requires Valid() && n < |nodes| && n != root && n != p && nodes[n].mount == NULL
      requires TakesName(nodes, kids, p, name)
      requires !Below(nodes, rank, p, n) && (nodes[n].kind == Dir || nodes[n].parent != NULL)
      modifies this`nodes, this`kids, this`rank
      ensures |nodes| == |old(nodes)| && nodes[n].name == name && nodes[n].parent == p
      ensures forall c :: 0 <= c < |nodes| && c != n ==> nodes[c].parent == old(nodes)[c].parent
      ensures SameInodes(old(nodes), nodes)
      ensures !IsMountRoot(old(nodes), n) ==> Valid() && p < |kids| && kids[p] != [] && kids[p][0] == n
      ensures && !IsMountRoot(old(nodes), n) && Plain(pre + [name]) && |name| <= NAME_MAX
              && Walk(old(nodes), old(kids), root, pre) == p ==>
                Walk(nodes, kids, root, pre + [name]) == n
      ensures !IsMountRoot(old(nodes), n) && Find(old(nodes), old(kids)[p], name) == NULL ==>
                AwayStay(old(nodes), old(kids), old(rank), nodes, kids, root, n, NULL)
      ensures IsMountRoot(old(nodes), n) ==> forall k :: !Tree(nodes, k, root)
    {
      hide Tree, Ranked, Inodes, LinksBut, SlotsOk, OwnersOk, Below, TakesName, Shifted, Walk, Plain, Left, SameSigns;
      hide Find, AwayStay;
      ghost var ns, kids0 := nodes, kids;
      TakesIn(nodes, kids, p, name);
      var found;
      ghost var i;
      found, i := TakeOut(n, p, name);
      ghost var ns1, kids1, rank0 := nodes, kids, rank;
      nodes := nodes[n := nodes[n].(name := name)];
      nodes := nodes[n := nodes[n].(parent := p, next := nodes[p].children)][p := nodes[p].(children := n)];
      if IsMountRoot(ns, n) {
        MountRootMoved(ns, kids0, root, n, p, nodes);
      } else {
        MoveDone(ns, rank, ns1, kids, root, used, n, p, name);
        rank := Shifted(Renamed(ns1, n, name), rank, n, rank[p] + 1);
        kids := KidAdded(kids, p, n);
        TreeLists(nodes, kids, root);
        if Plain(pre + [name]) && |name| <= NAME_MAX && Walk(ns, kids0, root, pre) == p {
          MovedWalk(ns, kids0, root, rank0, n, i, ns1, kids1, found, p, name, pre);
        }
        if Find(ns, kids0[p], name) == NULL {
          MovedPaths(ns, kids0, root, rank0, n, i, ns1, kids1, found, p, name);
        }
      }
    }

    /** vfs_rename */
    method Rename(oldPath: seq<string>, newPath: seq<string>) returns (rc: int)
      requires Valid()
      modifies this`nodes, this`kids, this`rank, this`used
      ensures EntryMoved(old(Now()), Now(), root, oldPath, newPath, rc, Valid())
    {
      hide Tree, Ranked, Inodes, Respelt, Walk, Below, Gone, TakesName, ContentOf, Plain, AwayStay, Fold, MayMove;
      ghost var ns, s := nodes, Now();
      RespeltSelf(nodes, kids);
      var n := Lookup(oldPath);
      RespeltSize(ns, nodes, kids);
      RespeltContent(ns, nodes, kids, pool);
      if n == NULL {
        NoMove(s, root, oldPath, newPath, NULL, "");
        return -1;
      }
      RespeltKind(ns, nodes, kids, n);
      NotMountpoint(ns, kids, root, oldPath);
      if n == root || nodes[n].mount != NULL {
        NoMove(s, root, oldPath, newPath, NULL, "");
        return -1;
      }
      var p, name := NamedDirectory(newPath, ns);
      RespeltContent(ns, nodes, kids, pool);
      if p == NULL || name == "" {
        NoMove(s, root, oldPath, newPath, p, name);
        return -1;
      }
      RespeltKind(ns, nodes, kids, n);
      RespeltBelow(ns, nodes, kids, rank, p, n);
      if nodes[n].kind == Dir {
        var above := IsAncestor(n, p);
        if above {
          NoMove(s, root, oldPath, newPath, p, name);
          return -1;
        }
      } else {
        FileNotAbove(nodes, kids, root, rank, p, n);
      }
      ghost var ns1 := nodes;
      RespeltWalk(ns, ns1, kids, root, newPath);
      var existing := Lookup(newPath);
      RespeltTwice(ns, ns1, nodes, kids);
      RespeltContent(ns, nodes, kids, pool);
      RespeltBelow(ns, nodes, kids, rank, p, n);
      CanMove(s, root, oldPath, newPath, p, name);
      if existing == n {
        return 0;
      }
      if existing != NULL {
        RespeltKind(ns, nodes, kids, existing);
      }
      RespeltKind(ns, nodes, kids, p);
      RespeltKind(ns, nodes, kids, n);
      RespeltMounts(ns, nodes, kids, n);
      if existing != NULL && (nodes[existing].mount != NULL || nodes[existing].kind == Dir) {
        NotMountpoint(ns, kids, root, newPath);
        NoMove(s, root, oldPath, newPath, p, name);
        return -1;
      }
      RespeltParents(ns, nodes, kids);
      RespeltOwners(ns, nodes, kids);
      Replace(existing, p, name, n, newPath, ns);
      return 0;
    }

    /** The entry in the way goes and n takes its name. */
    method Replace(existing: int, p: nat, name: string, n: nat, path: seq<string>, ghost ns: Nodes)
      requires Valid() && GoodKids(ns, kids) && Respelt(ns, nodes, kids) && Names(ns, kids, root, path, p, name)
      requires existing == Walk(ns, kids, root, path) && existing != n && n < |nodes| && p < |nodes|
      requires n != root && nodes[n].mount == NULL && (nodes[n].kind == Dir || nodes[n].parent != NULL)
      requires existing != NULL ==> nodes[existing].kind != Dir
      requires !Below(nodes, rank, p, n)
      modifies this`nodes, this`kids, this`rank, this`used
      ensures |nodes| == |old(nodes)| && nodes[n].name == name && nodes[n].parent == p
      ensures existing != NULL ==> nodes[existing].parent == NULL
      ensures forall c :: 0 <= c < |nodes| && c != n && c != existing ==> nodes[c].parent == old(nodes)[c].parent
      ensures !IsMountRoot(old(nodes), n) ==> Valid() && kids[p] != [] && kids[p][0] == n
      ensures !IsMountRoot(old(nodes), n) && Plain(path) ==> Walk(nodes, kids, root, path) == n
      ensures !IsMountRoot(old(nodes), n) && Fold(ns, old(kids)[p], name) == NULL && Ranked(ns, old(rank)) ==>
                AwayStay(ns, old(kids), old(rank), nodes, kids, root, n, existing)
      ensures IsMountRoot(old(nodes), n) ==> forall k :: !Tree(nodes, k, root)
      ensures forall y :: 0 <= y < |nodes| && Outlives(nodes, existing, y) ==>
                ContentOf(nodes, pool, y) == ContentOf(old(nodes), pool, y)
    {
      hide Tree, Ranked, Inodes, Respelt, Walk, Below, TakesName, ContentOf, Plain, AwayStay, OthersStay, Fold, Find;
      ClearName(existing, p, name, n, path, ns);
      SelfBelow(nodes, rank, p);
      OwnersIn(nodes, used);
      ghost var ns1, kids1, rank1, pre := nodes, kids, rank, path[..|path| - 1];
      Move(n, p, name, pre);
      SameInodesFields(ns1, nodes);
      SameContents(ns1, nodes, pool);
      assert path == pre + [name];
      if !IsMountRoot(old(nodes), n) && Fold(ns, old(kids)[p], name) == NULL && Ranked(ns, rank1) {
        ReplacedPaths(ns, old(nodes), old(kids), rank1, ns1, kids1, nodes, kids, root, n, existing);
      }
    }

    /** Whatever has the new name goes. */
    method ClearName(existing: int, p: nat, name: string, n: nat, path: seq<string>, ghost ns: Nodes)
      requires Valid() && GoodKids(ns, kids) && Respelt(ns, nodes, kids) && Names(ns, kids, root, path, p, name)
      requires existing == Walk(ns, kids, root, path) && existing != n && n < |nodes| && p < |nodes|
      requires existing != NULL ==> nodes[existing].kind != Dir
      requires !Below(nodes, rank, p, n)
      modifies this`nodes, this`kids, this`used
      ensures Valid() && |nodes| == |old(nodes)| && TakesName(nodes, kids, p, name) && !Below(nodes, rank, p, n)
      ensures nodes[n].parent == old(nodes)[n].parent && nodes[n].kind == old(nodes)[n].kind
      ensures nodes[n].mount == old(nodes)[n].mount
      ensures IsMountRoot(nodes, n) == IsMountRoot(old(nodes), n)
      ensures existing != NULL ==> nodes[existing].parent == NULL && nodes[existing].owner == old(nodes)[existing].owner
      ensures forall c :: 0 <= c < |nodes| && c != existing ==> nodes[c].parent == old(nodes)[c].parent
      ensures Plain(path) ==> Walk(nodes, kids, root, path[..|path| - 1]) == p
      ensures OthersStay(ns, old(kids), nodes, kids, root, existing)
      ensures Fold(ns, old(kids)[p], name) == NULL ==> Find(nodes, kids[p], name) == NULL
      ensures forall q :: 0 <= q < |nodes| && !Below(old(nodes), rank, q, n) ==> !Below(nodes, rank, q, n)
      ensures forall c :: 0 <= c < |nodes| ==> nodes[c].owner == old(nodes)[c].owner
      ensures forall y :: 0 <= y < |nodes| && Outlives(nodes, existing, y) ==>
                ContentOf(nodes, pool, y) == ContentOf(old(nodes), pool, y)
    {
      hide Tree, Ranked, Inodes, Respelt, Walk, Below, TakesName, ContentOf, KidRemoved, Plain;
      RespeltKind(ns, nodes, kids, p);
      ghost var pre := path[..|path| - 1];
      RespeltWalk(ns, nodes, kids, root, pre);
      if existing == NULL {
        TakesFresh(ns, nodes, kids, root, path, name);
        RespeltOthers(ns, nodes, kids, root, existing);
        NothingThere(ns, nodes, kids, root, path, p, name);
        return;
      }
      ghost var ns1, kids1 := nodes, kids;
      RespeltEntry(ns, nodes, kids, root, path, p, name, existing);
      ghost var i := Remove(existing);
      ClearedPaths(ns, ns1, kids1, root, rank, nodes, kids, existing, i);
      ClearedBelow(ns1, rank, nodes, existing, n);
      TakesFreed(ns1, kids1, root, nodes, kids, p, name, existing, i);
      ClearedFinds(ns, ns1, kids1, root, nodes, kids, p, name, existing, i);
      DetachBelow(ns1, rank, nodes, p, n);
      FileNotAbove(ns1, kids1, root, rank, p, existing);
      if Plain(path) {
        assert path == pre + [name];
        PlainParts(pre, name);
        RootClear(ns1, kids1, root);
        RemovedWalk(ns1, kids1, root, rank, nodes, kids, ns1[existing].parent, i, root, pre);
      }
    }

    /** vfs_file_write */
    method Write(n: nat, off: nat, src: seq<byte>) returns (w: int)
      requires Valid() && n < |nodes|
      modifies this`nodes, this`pool
      ensures Valid() && BytesWritten(old(Now()), Now(), root, n, off, src, w)
    {
      hide Tree, Ranked, Inodes, ContentOf, Patched;
      ResizedSelf(nodes);
      if nodes[n].kind != File {
        return -22;
      }
      FileFacts(nodes, used, n);
      var o := nodes[n].owner;
      if off >= nodes[o].capacity {
        return -28;
      }
      var k := Min(|src|, nodes[o].capacity - off);
      ghost var ns, slot := nodes, pool[nodes[o].slot];
      Overwrite(n, o, off, src[..k], Max(nodes[o].size, off + k), true);
      Written(slot, off, src[..k], ns[o].size);
      return k;
    }

    /** Bytes go into the slot of an inode, which gets a new size. */
    method Overwrite(n: nat, o: nat, off: nat, b: seq<byte>, size: nat, noted: bool)
      requires Valid() && n < |nodes| && nodes[n].kind == File && nodes[n].owner == o && ResizeOk(nodes, o, size)
      requires nodes[o].slot != NULL && off + |b| <= SLOT_SIZE
      modifies this`nodes, this`pool
      ensures Valid() && Resized(old(nodes), nodes)
      ensures forall y :: 0 <= y < |nodes| && nodes[y].kind == File && nodes[y].owner == o ==>
                && 0 <= old(nodes)[o].slot < SLOTS && old(nodes)[o].size <= SLOT_SIZE && size <= SLOT_SIZE
                && ContentOf(old(nodes), old(pool), y) == old(pool)[old(nodes)[o].slot][..old(nodes)[o].size]
                && ContentOf(nodes, pool, y) == Patched(old(pool)[old(nodes)[o].slot], off, b)[..size]
      ensures forall y :: 0 <= y < |nodes| && (nodes[y].kind != File || nodes[y].owner != o) ==>
                ContentOf(nodes, pool, y) == ContentOf(old(nodes), old(pool), y)
    {
      hide Tree, Ranked, Inodes, SlotsOk, OwnersOk;
      FileFacts(nodes, used, n);
      FileFacts(nodes, used, o);
      var s := nodes[o].slot;
      ghost var ns, pool0 := nodes, pool;
      pool := pool[s := Patched(pool[s], off, b)];
      var m := if noted then n else o;
      ResizeKeeps(nodes, kids, root, rank, used, pool, o, size, m);
      nodes := nodes[o := nodes[o].(size := size)];
      nodes := nodes[m := nodes[m].(size := size)];
      OtherSlots(ns, used, pool0, pool, o);
    }

    /** vfs_file_truncate */
    method Truncate(n: nat, len: nat) returns (ok: bool)
      requires Valid() && n < |nodes|
      modifies this`nodes, this`pool
      ensures Valid() && LengthSet(old(Now()), Now(), root, n, len, ok)
    {
      hide Tree, Ranked, Inodes, ContentOf;
      ResizedSelf(nodes);
      if nodes[n].kind != File {
        return false;
      }
      FileFacts(nodes, used, n);
      var o := nodes[n].owner;
      if len > nodes[o].capacity {
        return false;
      }
      var size := nodes[o].size;
      if len > size {
        Overwrite(n, o, size, seq(len - size, k => 0), len, false);
      } else {
        Shrink(n, o, len);
      }
      return true;
    }

    method Shrink(n: nat, o: nat, len: nat)
      requires Valid() && n < |nodes| && nodes[n].kind == File && nodes[n].owner == o && ResizeOk(nodes, o, len)
      requires len <= nodes[o].size
      modifies this`nodes
      ensures Valid() && Resized(old(nodes), nodes)
      ensures forall y :: 0 <= y < |nodes| && nodes[y].kind == File && nodes[y].owner == o ==>
                && len <= |ContentOf(old(nodes), pool, y)|
                && ContentOf(nodes, pool, y) == ContentOf(old(nodes), pool, y)[..len]
      ensures forall y :: 0 <= y < |nodes| && (nodes[y].kind != File || nodes[y].owner != o) ==>
                ContentOf(nodes, pool, y) == ContentOf(old(nodes), pool, y)
    {
      hide Tree, Ranked, Inodes;
      FileFacts(nodes, used, n);
      FileFacts(nodes, used, o);
      ResizeKeeps(nodes, kids, root, rank, used, pool, o, len, o);
      nodes := nodes[o := nodes[o].(size := len)];
      assert nodes == nodes[o := nodes[o].(size := len)];
    }

    /** vfs_file_size and vfs_file_data: those of the inode; a boot file has a size only, anything else neither. */
    method Read(n: nat) returns (size: nat, data: seq<byte>)
      requires Valid() && n < |nodes|
      ensures nodes[n].kind != File ==> data == [] && size == if nodes[n].kind == Boot then nodes[n].size else 0
      ensures nodes[n].kind == File && size <= |data| ==> data[..size] == ContentOf(nodes, pool, n)
      ensures nodes[n].kind == File ==>
                if Capacity(nodes, n) > 0 then |data| == SLOT_SIZE && size <= |data| else size == 0
    {
      hide Tree, Ranked, LinksBut;
      if nodes[n].kind != File {
        return if nodes[n].kind == Boot then nodes[n].size else 0, [];
      }
      FileFacts(nodes, used, n);
      var o := nodes[n].owner;
      size := nodes[o].size;
      data := if nodes[o].slot != NULL then pool[nodes[o].slot] else [];
    }

    /** A file system with a root directory and nothing in it. */
    constructor ()
      ensures Valid() && nodes == [Fresh("", Dir, 0)] && root == 0
    {
      root := 0;
      nodes := [Fresh("", Dir, 0)];
      pool := seq(SLOTS, s => seq(SLOT_SIZE, k => 0));
      used := seq(SLOTS, s => false);
      kids, rank := [[]], [0];
      new;
      assert ListOk(nodes, kids, 0) && PlaceOk(nodes, kids, 0) && MountOk(nodes, kids, 0);
      assert NamesOk(nodes, kids[0]) && RankOk(nodes, rank, 0);
      assert OwnerOk(nodes, 0);
    }

    /** vfs_mount, of a file system whose root is a new node */
    method Mount(name: string, path: seq<string>) returns (rc: int)
      requires Valid()
      modifies this`nodes, this`kids, this`rank
      ensures MountMade(old(Now()), Now(), root, name, path, rc, Valid())
    {
      hide Tree, Ranked, Inodes, Respelt, Walk, Step, ContentOf;
      ghost var ns := nodes;
      var d := Lookup(path);
      RespeltSize(ns, nodes, kids);
      RespeltContent(ns, nodes, kids, pool);
      if d == NULL {
        return -3;
      }
      RespeltKind(ns, nodes, kids, d);
      NotMountpoint(ns, kids, root, path);
      if nodes[d].kind != Dir {
        return -3;
      }
      if nodes[d].mount != NULL {
        return -4;
      }
      if |nodes| >= MAX_NODES {
        return -5;
      }
      ghost var ns1, kids0 := nodes, kids;
      var id := |nodes|;
      nodes := nodes + [Fresh(name, Dir, id).(parent := d)];
      nodes := nodes[d := nodes[d].(mount := id)];
      MountContents(ns1, nodes, pool, used, d);
      RespeltMountable(ns, ns1, kids, d);
      if Mountable(ns, kids, d) {
        MountKeeps(ns1, kids, root, rank, used, d, name);
        rank := rank + [rank[d] + 1];
        kids := kids + [[]];
        TreeLists(nodes, kids, root);
        RespeltWalk(ns, ns1, kids0, root, path);
        MountWalk(ns1, kids0, root, nodes, kids, d, path);
        MountPaths(ns, ns1, kids0, root, nodes, kids, d);
      }
      return 0;
    }

    /** One operation; the root of a mount is not renamed. */
    method Do(op: Op) returns (r: int)
      requires Valid()
      modifies this
      ensures Valid() && Effect(old(Now()), Now(), root, op, r)
    {
      hide Tree, Ranked, Inodes, Walk;
      hide FileCreated, DirCreated, LinkMade, EntryRemoved, DirRemoved, EntryMoved, MountMade;
      hide BytesWritten, LengthSet, OnlyRespelt, Mountable, IsMountRoot;
      r := 0;
      match op
      case DoCreate(path, truncate) => r := CreateFile(path, truncate);
      case DoMkdir(path) => r := Mkdir(path);
      case DoLink(from, to) => r := Link(from, to);
      case DoUnlink(path) =>
        ghost var i;
        r, i := Unlink(path);
      case DoRmdir(path) =>
        ghost var i;
        r, i := Rmdir(path);
      case DoRename(from, to) => r := RenameEntry(from, to);
      case DoMount(name, path) => r := MountEntry(name, path);
      case DoWrite(n, off, src) =>
        if n < |nodes| {
          r := Write(n, off, src);
        }
      case DoTruncate(n, len) =>
        if n < |nodes| {
          var ok := Truncate(n, len);
          r := if ok then 0 else -1;
        }
    }

    /** Renaming anything but the root of a mount. */
    method RenameEntry(from: seq<string>, to: seq<string>) returns (rc: int)
      requires Valid()
      modifies this`nodes, this`kids, this`rank, this`used
      ensures Valid() && Effect(old(Now()), Now(), root, DoRename(from, to), rc)
    {
      hide Tree, Ranked, Inodes, Respelt, Walk, Names, Below, EntryMoved;
      ghost var s := Now();
      var n := Lookup(from);
      RespeltWalk(s.nodes, nodes, kids, root, from);
      ghost var m := Now();
      assert OnlyRespelt(s, m) && Readable(m);
      rc := 0;
      if n != NULL && IsMountRoot(nodes, n) {
        assert RenameRun(m, Now(), root, from, to, rc);
        return;
      }
      rc := Rename(from, to);
      MovedValid(m, Now(), root, from, to, rc, Valid());
      assert RenameRun(m, Now(), root, from, to, rc);
    }

    /** Mounting on an empty directory, as at boot. */
    method MountEntry(name: string, path: seq<string>) returns (rc: int)
      requires Valid()
      modifies this`nodes, this`kids, this`rank
      ensures Valid() && Effect(old(Now()), Now(), root, DoMount(name, path), rc)
    {
      hide Tree, Ranked, Inodes, Respelt, Walk, MountMade;
      ghost var s := Now();
      var d := Lookup(path);
      RespeltWalk(s.nodes, nodes, kids, root, path);
      ghost var m := Now();
      assert OnlyRespelt(s, m) && Readable(m);
      rc := 0;
      if d != NULL {
        ChildrenNull(nodes, kids, root, d);
        NotMountpoint(nodes, kids, root, path);
        if && nodes[d].kind == Dir && nodes[d].children == NULL && In(nodes, nodes[d].parent)
           && !IsMountRoot(nodes, d) {
          rc := Mount(name, path);
          MountValid(m, Now(), root, name, path, rc, Valid());
        }
      }
      assert MountRun(m, Now(), root, name, path, rc);
    }

    /**
     Any run: every operation has its effect on the state those before it left, the nodes stay a tree, and
     link counts and slots stay exact.
     */
    method Run(ops: seq<Op>) returns (rs: seq<int>, ghost states: seq<Fs>)
      requires Valid()
      modifies this
      ensures Valid()
      ensures |rs| == |ops| && |states| == |ops| + 1 && states[0] == old(Now()) && states[|ops|] == Now()
      ensures forall i :: 0 <= i <= |ops| ==> Readable(states[i])
      ensures forall i :: 0 <= i < |ops| ==> Effect(states[i], states[i + 1], root, ops[i], rs[i])
      ensures forall o :: IsOwner(nodes, o) ==> nodes[o].nlink == |Entries(nodes, o)|
      ensures forall s :: 0 <= s < SLOTS ==> (used[s] <==> exists o :: Holds(nodes, o, s))
      ensures forall o, q, s :: 0 <= s < SLOTS && Holds(nodes, o, s) && Holds(nodes, q, s) ==> o == q
    {
      hide Effect, Tree, Ranked;
      rs, states := [], [Now()];
      for i := 0 to |ops|
        invariant Valid() && |rs| == i && |states| == i + 1 && states[0] == old(Now()) && states[i] == Now()
        invariant forall j :: 0 <= j <= i ==> Readable(states[j])
        invariant forall j :: 0 <= j < i ==> Effect(states[j], states[j + 1], root, ops[j], rs[j])
      {
        var r := Do(ops[i]);
        rs, states := rs + [r], states + [Now()];
      }
      SlotHolders(nodes, used);
    }
  }

  datatype Op =
    | DoCreate(path: seq<string>, truncate: bool)
    | DoMkdir(path: seq<string>)
    | DoLink(from: seq<string>, to: seq<string>)
    | DoUnlink(path: seq<string>)
    | DoRmdir(path: seq<string>)
    | DoRename(from: seq<string>, to: seq<string>)
    | DoMount(name: string, path: seq<string>)
    | DoWrite(n: nat, off: nat, src: seq<byte>)
    | DoTruncate(n: nat, len: nat)

  /** A slot is used exactly when an owner with a name holds it, and then one alone. */
  lemma SlotHolders(ns: Nodes, used: seq<bool>)
    requires SlotsOk(ns, used)
    ensures forall s :: 0 <= s < SLOTS ==> (used[s] <==> exists o :: Holds(ns, o, s))
    ensures forall o, q, s :: 0 <= s < SLOTS && Holds(ns, o, s) && Holds(ns, q, s) ==> o == q
  {
    forall o, s | 0 <= s < SLOTS && Holds(ns, o, s)
      ensures used[s]
    {
      assert InodeOk(ns, used, o);
    }
    forall o, q, s | 0 <= s < SLOTS && Holds(ns, o, s) && Holds(ns, q, s)
      ensures o == q
    {
      assert SameSlot(ns, o, q);
    }
  }

  /** A directory in its parent's list, with nothing in it. */
  ghost predicate Mountable(ns: Nodes, kids: Kids, d: int)
    requires |kids| == |ns|
  {
    && In(ns, d) && ns[d].kind == Dir && kids[d] == [] && In(ns, ns[d].parent) && !IsMountRoot(ns, d)
    && ns[d].mount == NULL
  }

  lemma RespeltMountable(ns: Nodes, after: Nodes, kids: Kids, d: nat)
    requires GoodKids(ns, kids) && Respelt(ns, after, kids) && d < |ns|
    ensures |after| == |ns| && (Mountable(after, kids, d) <==> Mountable(ns, kids, d))
  {
  }

  /** A new root is mounted on an empty directory. */
  lemma MountKeeps(ns: Nodes, kids: Kids, root: nat, rank: seq<nat>, used: seq<bool>, d: nat, name: string)
    requires Tree(ns, kids, root) && Ranked(ns, rank) && Inodes(ns, used) && |kids| == |ns| && Mountable(ns, kids, d)
    ensures |rank| == |ns|
    ensures var after := (ns + [Fresh(name, Dir, |ns|).(parent := d)])[d := ns[d].(mount := |ns|)];
            Tree(after, kids + [[]], root) && Ranked(after, rank + [rank[d] + 1]) && Inodes(after, used)
  {
    var id := |ns|;
    var x := Fresh(name, Dir, id);
    var after, kids', rank' := (ns + [x.(parent := d)])[d := ns[d].(mount := id)], kids + [[]], rank + [rank[d] + 1];
    forall c | 0 <= c < |after|
      ensures ListOk(after, kids', c) && PlaceOk(after, kids', c) && NamesOk(after, kids'[c]) && RankOk(after, rank', c)
    {
      if c < id {
        assert ListOk(ns, kids, c) && PlaceOk(ns, kids, c) && NamesOk(ns, kids[c]) && RankOk(ns, rank, c);
        forall i | 0 <= i < |kids[c]|
          ensures KidOk(after, kids'[c], c, i)
        {
          assert KidOk(ns, kids[c], c, i);
        }
      }
    }
    MountMounts(ns, kids, root, d, after, kids');
    AppendOwner(ns, used, x);
    MovedLinks(ns + [x], after, id, 1, id);
    NoOwner(after, id, 1);
    MovedSlots(ns + [x], after, used);
  }

  lemma MountMounts(ns: Nodes, kids: Kids, root: nat, d: nat, after: Nodes, kids': Kids)
    requires Tree(ns, kids, root) && |kids| == |ns| && Mountable(ns, kids, d) && |after| == |ns| + 1
    requires kids' == kids + [[]]
    requires after[d] == ns[d].(mount := |ns|) && after[|ns|].parent == d && after[|ns|].kind == Dir
    requires after[|ns|].mount == NULL
    requires forall c :: 0 <= c < |ns| && c != d ==> after[c] == ns[c]
    ensures Mounted(after, kids')
  {
    forall c | 0 <= c < |after|
      ensures MountOk(after, kids', c)
    {
      if c < |ns| {
        assert MountOk(ns, kids, c);
      }
    }
  }

  /** Directory p got a new first child x with a name that no look-up there found. */
  ghost predicate Entered(ns: Nodes, kids: Kids, after: Nodes, kids': Kids, p: nat, name: string)
    requires GoodKids(ns, kids)
  {
    && p < |ns| && ns[p].kind == Dir && ns[p].mount == NULL && Find(ns, kids[p], name) == NULL
    && |after| == |ns| + 1 && kids' == KidAdded(kids + [[]], p, |ns|) && after[|ns|].name == name
    && after[|ns|].mount == NULL
    && forall c :: 0 <= c < |ns| ==> SamePlace(after[c], ns[c].(children := after[c].children))
  }

  lemma NewFinds(ns: Nodes, after: Nodes, l: seq<nat>, x: nat, name: string, m: string)
    requires GoodList(ns, l) && x == |ns| && |after| == |ns| + 1 && after[x].name == name && Find(ns, l, name) == NULL
    requires forall c :: 0 <= c < |ns| ==> after[c].name == ns[c].name && after[c].kind == ns[c].kind
    ensures Find(ns, l, m) != NULL ==> Find(after, [x] + l, m) == Find(ns, l, m)
    ensures Find(after, [x] + l, name) == x
  {
    UntouchedFinds(ns, after, l, m);
    assert ([x] + l)[1..] == l;
    if Lower(m) == Lower(name) {
      FoldSame(ns, ns, l, m, name);
    }
  }

  lemma EnteredStep(ns: Nodes, kids: Kids, root: nat, after: Nodes, kids': Kids, p: nat, name: string, cur: nat,
                    part: string)
    requires Tree(ns, kids, root) && GoodKids(ns, kids) && GoodKids(after, kids')
    requires Entered(ns, kids, after, kids', p, name)
    requires cur < |ns| && ns[cur].mount == NULL && In(ns, Step(ns, kids, cur, part))
    ensures Step(after, kids', cur, part) == Step(ns, kids, cur, part)
  {
    assert PlaceOk(ns, kids, cur);
    if part == ".." {
      if In(ns, ns[cur].parent) {
        assert PlaceOk(ns, kids, ns[cur].parent);
      }
    } else if part != "." {
      var x := Find(ns, kids[cur], part);
      FindIn(ns, kids[cur], part);
      UntouchedFinds(ns, after, kids[cur], part);
      NewFinds(ns, after, kids[p], |ns|, name, part);
      assert In(ns, x) ==> MountOk(ns, kids, x);
    }
  }

  lemma {:induction false} EnteredWalk(ns: Nodes, kids: Kids, root: nat, after: Nodes, kids': Kids, p: nat,
                                       name: string, cur: nat, path: seq<string>)
    requires Tree(ns, kids, root) && GoodKids(ns, kids) && GoodKids(after, kids')
    requires Entered(ns, kids, after, kids', p, name)
    requires cur < |ns| && ns[cur].mount == NULL && In(ns, Walk(ns, kids, cur, path))
    ensures |ns| < |after| && Walk(after, kids', cur, path) == Walk(ns, kids, cur, path)
    decreases |path|
  {
    hide Tree, Step;
    if path != [] {
      var part := Cut(path[0]);
      EnteredStep(ns, kids, root, after, kids', p, name, cur, part);
      StepClear(ns, kids, root, cur, part);
      EnteredWalk(ns, kids, root, after, kids', p, name, Step(ns, kids, cur, part), path[1..]);
    }
  }

  /** The path at which a node was made leads to it. */
  lemma CreatedWalk(ns: Nodes, kids: Kids, root: nat, after: Nodes, kids': Kids, parts: seq<string>, kind: Kind)
    requires Tree(ns, kids, root) && GoodKids(ns, kids) && GoodKids(after, kids')
    requires Created(ns, kids, root, parts, after, kids', |ns|, kind)
    requires Walk(ns, kids, root, parts) == NULL && after[|ns|].mount == NULL
    requires forall c :: 0 <= c < |ns| ==> SamePlace(after[c], ns[c].(children := after[c].children))
    ensures Walk(after, kids', root, parts) == |ns| && PathsStay(ns, kids, after, kids', root)
  {
    hide Tree, Walk, Step;
    var name, pre := parts[|parts| - 1], parts[..|parts| - 1];
    var p := after[|ns|].parent;
    assert parts == pre + [name];
    RootClear(ns, kids, root);
    FreshName(ns, kids, root, pre, name);
    ExactIs(ns, kids[p], name);
    EnteredWalk(ns, kids, root, after, kids', p, name, root, pre);
    WalkLast(after, kids', root, pre, name);
    StepNew(ns, kids, after, kids', p, name);
    forall path | In(ns, Walk(ns, kids, root, path))
      ensures Walk(after, kids', root, path) == Walk(ns, kids, root, path)
    {
      EnteredWalk(ns, kids, root, after, kids', p, name, root, path);
    }
  }

  /** Every path that led somewhere still leads there. */
  ghost predicate PathsStay(ns: Nodes, kids: Kids, after: Nodes, kids': Kids, root: nat)
    requires GoodKids(ns, kids) && GoodKids(after, kids')
  {
    forall path :: In(ns, Walk(ns, kids, root, path)) ==> Walk(after, kids', root, path) == Walk(ns, kids, root, path)
  }

  lemma RespeltPaths(ns: Nodes, ns1: Nodes, kids: Kids, after: Nodes, kids': Kids, root: nat)
    requires GoodKids(ns, kids) && GoodKids(ns1, kids) && GoodKids(after, kids') && Respelt(ns, ns1, kids)
    requires PathsStay(ns1, kids, after, kids', root)
    ensures PathsStay(ns, kids, after, kids', root)
  {
    hide Walk;
    forall path | In(ns, Walk(ns, kids, root, path))
      ensures Walk(after, kids', root, path) == Walk(ns, kids, root, path)
    {
      RespeltWalk(ns, ns1, kids, root, path);
    }
  }

  /** The sizes of files lead nowhere else. */
  lemma {:induction false} ResizedWalk(ns: Nodes, after: Nodes, kids: Kids, cur: int, path: seq<string>)
    requires GoodKids(ns, kids) && GoodKids(after, kids) && Resized(ns, after)
    ensures Walk(after, kids, cur, path) == Walk(ns, kids, cur, path)
    decreases |path|
  {
    hide Exact, Fold;
    if In(ns, cur) && path != [] {
      var part := Cut(path[0]);
      UntouchedFinds(ns, after, kids[Mr(ns, cur)], part);
      assert Step(after, kids, cur, part) == Step(ns, kids, cur, part);
      ResizedWalk(ns, after, kids, Step(ns, kids, cur, part), path[1..]);
    }
  }

  lemma ResizedPaths(ns: Nodes, after: Nodes, kids: Kids, root: nat)
    requires GoodKids(ns, kids) && GoodKids(after, kids) && Resized(ns, after)
    ensures PathsStay(ns, kids, after, kids, root)
  {
    hide Walk;
    forall path
      ensures Walk(after, kids, root, path) == Walk(ns, kids, root, path)
    {
      ResizedWalk(ns, after, kids, root, path);
    }
  }

  /** The same for a table that was respelt before the node was made. */
  lemma CreatedResolves(ns: Nodes, ns1: Nodes, kids: Kids, root: nat, parts: seq<string>, p: nat, x: Node,
                        after: Nodes, kids': Kids)
    requires GoodKids(ns, kids) && Respelt(ns, ns1, kids) && Tree(ns1, kids, root) && |ns1| == |ns|
    requires GoodKids(after, kids')
    requires Names(ns, kids, root, parts, p, x.name) && Walk(ns, kids, root, parts) == NULL && x.mount == NULL
    requires after == Attached(ns1 + [x], p, |ns|) && kids' == KidAdded(kids + [[]], p, |ns|)
    ensures Walk(after, kids', root, parts) == |ns| && PathsStay(ns, kids, after, kids', root)
  {
    hide Tree, Walk;
    TreeLists(ns1, kids, root);
    RespeltWalk(ns, ns1, kids, root, parts);
    RespeltWalk(ns, ns1, kids, root, parts[..|parts| - 1]);
    RespeltKind(ns, ns1, kids, p);
    CreatedWalk(ns1, kids, root, after, kids', parts, x.kind);
    RespeltPaths(ns, ns1, kids, after, kids', root);
  }

  lemma StepNew(ns: Nodes, kids: Kids, after: Nodes, kids': Kids, p: nat, name: string)
    requires GoodKids(ns, kids) && GoodKids(after, kids') && Entered(ns, kids, after, kids', p, name)
    requires name != "." && name != ".."
    ensures Step(after, kids', p, name) == |ns|
  {
    NewFinds(ns, after, kids[p], |ns|, name, name);
  }

  /** The table after something was mounted on d. */
  ghost predicate MountedOn(ns: Nodes, kids: Kids, after: Nodes, kids': Kids, d: nat)
    requires |kids| == |ns|
  {
    && Mountable(ns, kids, d) && |after| == |ns| + 1 && kids' == kids + [[]]
    && after[d] == ns[d].(mount := |ns|) && after[|ns|].parent == d && after[|ns|].mount == NULL
    && after[|ns|].kind == Dir
    && forall c :: 0 <= c < |ns| && c != d ==> after[c] == ns[c]
  }

  /** Where a walk is once the mount covers d. */
  function Covered(ns: Nodes, d: nat, x: int): int {
    if x == d then |ns| else x
  }

  lemma MountStep(ns: Nodes, kids: Kids, root: nat, after: Nodes, kids': Kids, d: nat, cur: nat, part: string)
    requires Tree(ns, kids, root) && GoodKids(ns, kids) && GoodKids(after, kids')
    requires MountedOn(ns, kids, after, kids', d)
    requires cur < |ns| && ns[cur].mount == NULL && In(ns, Step(ns, kids, cur, part))
    ensures Step(after, kids', Covered(ns, d, cur), part) == Covered(ns, d, Step(ns, kids, cur, part))
  {
    assert PlaceOk(ns, kids, cur);
    if part == ".." {
      var p := ns[cur].parent;
      if In(ns, p) {
        assert PlaceOk(ns, kids, p) && MountOk(ns, kids, p);
      }
    } else if part != "." {
      var x := Find(ns, kids[cur], part);
      FindIn(ns, kids[cur], part);
      UntouchedFinds(ns, after, kids[cur], part);
      assert In(ns, x) ==> MountOk(ns, kids, x);
    }
  }

  lemma {:induction false} MountWalkOn(ns: Nodes, kids: Kids, root: nat, after: Nodes, kids': Kids, d: nat, cur: nat,
                                       path: seq<string>)
    requires Tree(ns, kids, root) && GoodKids(ns, kids) && GoodKids(after, kids')
    requires MountedOn(ns, kids, after, kids', d)
    requires cur < |ns| && ns[cur].mount == NULL && In(ns, Walk(ns, kids, cur, path))
    ensures Walk(after, kids', Covered(ns, d, cur), path) == Covered(ns, d, Walk(ns, kids, cur, path))
    decreases |path|
  {
    hide Tree, Step, MountedOn;
    if path != [] {
      var part := Cut(path[0]);
      MountStep(ns, kids, root, after, kids', d, cur, part);
      StepClear(ns, kids, root, cur, part);
      MountSize(ns, kids, after, kids', d);
      MountWalkOn(ns, kids, root, after, kids', d, Step(ns, kids, cur, part), path[1..]);
    } else {
      MountSize(ns, kids, after, kids', d);
    }
  }

  lemma MountSize(ns: Nodes, kids: Kids, after: Nodes, kids': Kids, d: nat)
    requires |kids| == |ns| && MountedOn(ns, kids, after, kids', d)
    ensures |after| == |ns| + 1
  {
  }

  /** Nobody's contents change. */
  lemma MountContents(ns: Nodes, after: Nodes, pool: seq<seq<byte>>, used: seq<bool>, d: nat)
    requires Inodes(ns, used) && d < |ns| && |after| == |ns| + 1
    requires forall c :: 0 <= c < |ns| ==> SameInode(after[c], ns[c])
    ensures forall y :: 0 <= y < |ns| ==> ContentOf(after, pool, y) == ContentOf(ns, pool, y)
  {
    forall y | 0 <= y < |ns|
      ensures ContentOf(after, pool, y) == ContentOf(ns, pool, y)
    {
      assert OwnerOk(ns, y);
    }
  }

  /** No other path notices. */
  lemma MountPaths(ns: Nodes, ns1: Nodes, kids: Kids, root: nat, after: Nodes, kids': Kids, d: nat)
    requires GoodKids(ns, kids) && GoodKids(ns1, kids) && GoodKids(after, kids') && Respelt(ns, ns1, kids)
    requires Tree(ns1, kids, root) && MountedOn(ns1, kids, after, kids', d) && |ns1| == |ns|
    ensures forall path :: In(ns, Walk(ns, kids, root, path)) ==>
              Walk(after, kids', root, path) ==
              if Walk(ns, kids, root, path) == d then |ns| else Walk(ns, kids, root, path)
  {
    hide Tree, Walk, MountedOn;
    forall path | In(ns, Walk(ns, kids, root, path))
      ensures Walk(after, kids', root, path) ==
              if Walk(ns, kids, root, path) == d then |ns| else Walk(ns, kids, root, path)
    {
      RespeltWalk(ns, ns1, kids, root, path);
      RootClear(ns1, kids, root);
      NotRoot(ns1, kids, root, after, kids', d);
      MountWalkOn(ns1, kids, root, after, kids', d, root, path);
    }
  }

  lemma NotRoot(ns: Nodes, kids: Kids, root: nat, after: Nodes, kids': Kids, d: nat)
    requires Tree(ns, kids, root) && |kids| == |ns| && MountedOn(ns, kids, after, kids', d)
    ensures root != d
  {
    assert PlaceOk(ns, kids, d);
  }

  /** The path of the mount point now leads to what is mounted there. */
  lemma MountWalk(ns: Nodes, kids: Kids, root: nat, after: Nodes, kids': Kids, d: nat, path: seq<string>)
    requires Tree(ns, kids, root) && GoodKids(ns, kids) && GoodKids(after, kids')
    requires MountedOn(ns, kids, after, kids', d)
    requires Walk(ns, kids, root, path) == d
    ensures Walk(after, kids', root, path) == |ns|
  {
    RootClear(ns, kids, root);
    assert root != d by {
      assert PlaceOk(ns, kids, d);
    }
    MountWalkOn(ns, kids, root, after, kids', d, root, path);
  }

  /** The room an inode has, reached by any of its names. */
  function Capacity(ns: Nodes, n: nat): nat
    requires n < |ns|
  {
    if In(ns, ns[n].owner) then ns[ns[n].owner].capacity else 0
  }

  /** d with the bytes b at off. */
  function Patched(d: seq<byte>, off: nat, b: seq<byte>): (r: seq<byte>)
    requires off + |b| <= |d|
    ensures |r| == |d| && forall k :: 0 <= k < |d| ==> r[k] == if off <= k < off + |b| then b[k - off] else d[k]
  {
    d[..off] + b + d[off + |b|..]
  }

  /** What bytes written over the contents of a slot, and its new size, make of a file. */
  lemma Written(slot: seq<byte>, off: nat, b: seq<byte>, size: nat)
    requires off + |b| <= |slot| && size <= |slot|
    ensures var was, now := slot[..size], Patched(slot, off, b)[..Max(size, off + |b|)];
            && |now| == Max(size, off + |b|) && now[off..off + |b|] == b
            && forall k :: 0 <= k < size && !(off <= k < off + |b|) ==> now[k] == was[k]
  {
  }

  /** What the inode of a file is like. */
  lemma FileFacts(ns: Nodes, used: seq<bool>, n: nat)
    requires Inodes(ns, used) && n < |ns| && ns[n].kind == File
    ensures var o := ns[n].owner;
            && In(ns, o) && IsOwner(ns, o) && ns[o].kind == File && ns[o].size <= ns[o].capacity && OwnersOk(ns)
            && SlotsOk(ns, used)
            && (ns[o].slot == NULL ==> ns[o].capacity == 0)
            && (ns[o].slot != NULL ==> 0 <= ns[o].slot < SLOTS && ns[o].capacity == SLOT_SIZE)
  {
    assert OwnerOk(ns, n);
    assert InodeOk(ns, used, ns[n].owner);
  }

  lemma ResizedSelf(ns: Nodes)
    ensures Resized(ns, ns)
  {
  }

  /** A slot that changed is seen through the names of its owner only. */
  lemma OtherSlots(ns: Nodes, used: seq<bool>, pool: seq<seq<byte>>, pool': seq<seq<byte>>, o: nat)
    requires OwnersOk(ns) && SlotsOk(ns, used) && IsOwner(ns, o) && ns[o].kind == File && |pool'| == |pool| == SLOTS
    requires forall s :: 0 <= s < SLOTS && s != ns[o].slot ==> pool'[s] == pool[s]
    ensures forall y :: 0 <= y < |ns| && (ns[y].kind != File || ns[y].owner != o) ==>
              ContentOf(ns, pool', y) == ContentOf(ns, pool, y)
  {
    forall y | 0 <= y < |ns| && ns[y].kind == File && ns[y].owner != o
      ensures ContentOf(ns, pool', y) == ContentOf(ns, pool, y)
    {
      assert OwnerOk(ns, y);
      var q := ns[y].owner;
      assert InodeOk(ns, used, q) && InodeOk(ns, used, o);
      assert !SameSlot(ns, q, o);
    }
  }

  lemma {:induction false} BelowSame(ns: Nodes, after: Nodes, rank: seq<nat>, c: nat, a: nat)
    requires Ranked(ns, rank) && Ranked(after, rank) && |after| == |ns| && c < |ns|
    requires forall d :: 0 <= d < |ns| ==> after[d].parent == ns[d].parent
    ensures Below(after, rank, c, a) <==> Below(ns, rank, c, a)
    decreases rank[c]
  {
    assert RankOk(ns, rank, c);
    if c != a && ns[c].parent != NULL {
      BelowSame(ns, after, rank, ns[c].parent, a);
    }
  }

  lemma RespeltBelow(ns: Nodes, after: Nodes, kids: Kids, rank: seq<nat>, c: nat, a: nat)
    requires GoodKids(ns, kids) && Respelt(ns, after, kids) && Ranked(ns, rank) && Ranked(after, rank) && c < |ns|
    ensures |after| == |ns| && (Below(after, rank, c, a) <==> Below(ns, rank, c, a))
  {
    BelowSame(ns, after, rank, c, a);
  }

  lemma RespeltOwners(ns: Nodes, after: Nodes, kids: Kids)
    requires GoodKids(ns, kids) && Respelt(ns, after, kids)
    ensures |after| == |ns| && forall c :: 0 <= c < |ns| ==> after[c].owner == ns[c].owner
  {
  }

  lemma SameInodesFields(ns: Nodes, after: Nodes)
    requires SameInodes(ns, after)
    ensures |after| == |ns|
    ensures forall c :: 0 <= c < |ns| ==>
              && after[c].kind == ns[c].kind && after[c].owner == ns[c].owner && after[c].slot == ns[c].slot
              && after[c].size == ns[c].size && after[c].nlink == ns[c].nlink
  {
  }

  lemma RespeltParents(ns: Nodes, after: Nodes, kids: Kids)
    requires GoodKids(ns, kids) && Respelt(ns, after, kids)
    ensures |after| == |ns| && forall c :: 0 <= c < |ns| ==> after[c].parent == ns[c].parent
  {
  }

  lemma RespeltMounts(ns: Nodes, after: Nodes, kids: Kids, n: nat)
    requires GoodKids(ns, kids) && Respelt(ns, after, kids) && n < |ns|
    ensures |after| == |ns| && (IsMountRoot(after, n) <==> IsMountRoot(ns, n))
  {
  }

  lemma FileNotAbove(ns: Nodes, kids: Kids, root: nat, rank: seq<nat>, p: nat, n: nat)
    requires Tree(ns, kids, root) && Ranked(ns, rank) && p < |ns| && n < |ns| && ns[p].kind == Dir && ns[n].kind != Dir
    ensures !Below(ns, rank, p, n)
  {
    if Below(ns, rank, p, n) {
      OnlyDirs(ns, kids, root, rank, p, n);
    }
  }

  /** What is found at a path and is no directory is the entry the path names. */
  lemma RespeltEntry(ns: Nodes, after: Nodes, kids: Kids, root: nat, path: seq<string>, p: nat, name: string, x: nat)
    requires GoodKids(ns, kids) && Respelt(ns, after, kids) && Tree(after, kids, root)
    requires Names(ns, kids, root, path, p, name)
    requires x == Walk(ns, kids, root, path) && |after| == |ns| && x < |ns| && after[x].kind != Dir
    ensures p < |ns| && after[p].kind == Dir && after[p].mount == NULL && x in kids[p] && after[x].name == name
    ensures after[x].parent != NULL
  {
    hide Tree;
    TreeLists(after, kids, root);
    var pre := path[..|path| - 1];
    assert path == pre + [name];
    RespeltWalk(ns, after, kids, root, pre);
    RespeltWalk(ns, after, kids, root, path);
    LeafName(after, kids, root, pre, name);
    NotMountpoint(after, kids, root, path);
  }

  /** Without its entry of that name a directory takes the name. */
  lemma TakesFreed(ns: Nodes, kids: Kids, root: nat, after: Nodes, kids': Kids, p: nat, name: string, x: nat, i: nat)
    requires Tree(ns, kids, root) && |kids| == |ns| && p < |ns| && ns[p].kind == Dir && ns[p].mount == NULL && x < |ns|
    requires x in kids[p] && ns[x].name == name && Gone(ns, after, x) && |kids'| == |ns|
    requires In(ns, ns[x].parent) && i < |kids[ns[x].parent]| && kids[ns[x].parent][i] == x
    requires kids' == KidRemoved(kids, ns[x].parent, i)
    ensures TakesName(after, kids', p, name)
  {
    assert ListOk(ns, kids, p) && NamesOk(ns, kids[p]);
    var j :| 0 <= j < |kids[p]| && kids[p][j] == x;
    assert KidOk(ns, kids[p], p, j);
    assert i == j;
    forall k | 0 <= k < |kids'[p]|
      ensures kids'[p][k] < |after| && after[kids'[p][k]].name != name
    {
      assert kids'[p][k] == if k < i then kids[p][k] else kids[p][k + 1];
    }
  }

  /** The inode of n has another name. */
  predicate Survives(ns: Nodes, n: nat)
    requires n < |ns|
  {
    In(ns, ns[n].owner) && ns[ns[n].owner].nlink > 0
  }

  /** The contents of y do not go with the entry x, if there is one. */
  predicate Outlives(ns: Nodes, x: int, y: nat)
    requires (x == NULL || In(ns, x)) && y < |ns|
  {
    x == NULL || ns[y].owner != ns[x].owner || Survives(ns, x)
  }

  predicate IsMountRoot(ns: Nodes, x: nat)
    requires x < |ns|
  {
    In(ns, ns[x].parent) && ns[ns[x].parent].mount == x
  }

  ghost predicate SameInodes(ns: Nodes, after: Nodes) {
    |after| == |ns| && forall c :: 0 <= c < |ns| ==> SameInode(after[c], ns[c])
  }

  lemma OwnerKept(ns: Nodes, after: Nodes, n: nat)
    requires Gone(ns, after, n)
    ensures |after| == |ns| && after[n].owner == ns[n].owner && after[n].kind == ns[n].kind && after[n].parent == NULL
  {
  }

  lemma ChildrenNull(ns: Nodes, kids: Kids, root: nat, d: nat)
    requires Tree(ns, kids, root) && d < |ns|
    ensures |kids| == |ns| && (ns[d].children == NULL <==> kids[d] == [])
  {
    assert ListOk(ns, kids, d);
  }

  lemma StillEmpty(kids: Kids, p: nat, i: nat, n: nat)
    requires p < |kids| && i < |kids[p]| && kids[p][i] == n && n < |kids| && kids[n] == []
    ensures KidRemoved(kids, p, i)[n] == []
  {
  }

  /** No walk meets an empty directory that is out of the tree. */
  lemma StepAvoids(ns: Nodes, kids: Kids, root: nat, n: nat, cur: nat, part: string)
    requires Tree(ns, kids, root) && GoodKids(ns, kids) && n < |ns| && ns[n].parent == NULL && kids[n] == []
    requires ns[n].mount == NULL
    requires cur < |ns| && cur != n
    ensures Step(ns, kids, cur, part) != n
  {
    assert PlaceOk(ns, kids, cur) && MountOk(ns, kids, cur);
    if part == ".." {
      if In(ns, ns[cur].parent) {
        assert PlaceOk(ns, kids, ns[cur].parent);
      }
    } else if part != "." {
      var d := Mr(ns, cur);
      var x := Find(ns, kids[d], part);
      FindIn(ns, kids[d], part);
      if In(ns, x) {
        assert MountOk(ns, kids, x) && ListOk(ns, kids, d);
        var i :| 0 <= i < |kids[d]| && kids[d][i] == x;
        assert KidOk(ns, kids[d], d, i);
      }
    }
  }

  lemma {:induction false} WalkAvoids(ns: Nodes, kids: Kids, root: nat, n: nat, cur: int, path: seq<string>)
    requires Tree(ns, kids, root) && GoodKids(ns, kids) && n < |ns| && ns[n].parent == NULL && kids[n] == []
    requires ns[n].mount == NULL
    requires cur != n
    ensures Walk(ns, kids, cur, path) != n
    decreases |path|
  {
    hide Tree, Step;
    if In(ns, cur) && path != [] {
      StepAvoids(ns, kids, root, n, cur, Cut(path[0]));
      WalkAvoids(ns, kids, root, n, Step(ns, kids, cur, Cut(path[0])), path[1..]);
    }
  }

  lemma RespeltOthers(ns: Nodes, ns1: Nodes, kids: Kids, root: nat, n: int)
    requires GoodKids(ns, kids) && GoodKids(ns1, kids) && Respelt(ns, ns1, kids)
    ensures OthersStay(ns, kids, ns1, kids, root, n)
  {
    hide Walk;
    forall path
      ensures Walk(ns1, kids, root, path) == Walk(ns, kids, root, path)
    {
      RespeltWalk(ns, ns1, kids, root, path);
    }
  }

  lemma NothingThere(ns: Nodes, ns1: Nodes, kids: Kids, root: nat, path: seq<string>, p: nat, name: string)
    requires GoodKids(ns, kids) && GoodKids(ns1, kids) && Respelt(ns, ns1, kids) && Tree(ns1, kids, root)
    requires Names(ns, kids, root, path, p, name) && Walk(ns, kids, root, path) == NULL
    ensures Find(ns1, kids[p], name) == NULL
  {
    hide Tree, Walk;
    var pre := path[..|path| - 1];
    assert path == pre + [name];
    RespeltWalk(ns, ns1, kids, root, path);
    RespeltWalk(ns, ns1, kids, root, pre);
    FreshName(ns1, kids, root, pre, name);
    ExactIs(ns1, kids[p], name);
  }

  lemma ClearedPaths(ns: Nodes, ns1: Nodes, kids: Kids, root: nat, rank: seq<nat>, after: Nodes, kids': Kids, x: nat,
                     i: nat)
    requires GoodKids(ns, kids) && GoodKids(ns1, kids) && GoodKids(after, kids') && Respelt(ns, ns1, kids)
    requires Tree(ns1, kids, root) && Ranked(ns1, rank) && x < |ns1| && ns1[x].kind != Dir && Gone(ns1, after, x)
    requires In(ns1, ns1[x].parent) && i < |kids[ns1[x].parent]| && kids[ns1[x].parent][i] == x
    requires kids' == KidRemoved(kids, ns1[x].parent, i)
    ensures OthersStay(ns, kids, after, kids', root, x)
  {
    hide Tree, Ranked, Walk, Gone, Respelt;
    GoneSigns(ns1, after, x);
    ChildlessFile(ns1, kids, root, x);
    RemovedPaths(ns, ns1, kids, root, rank, after, kids', ns1[x].parent, i);
  }

  /** Without a directory of that name up to case, nothing answers to the name once its file is gone. */
  lemma ClearedFinds(ns: Nodes, ns1: Nodes, kids: Kids, root: nat, after: Nodes, kids': Kids, p: nat, name: string,
                     x: nat, i: nat)
    requires GoodKids(ns, kids) && GoodKids(ns1, kids) && GoodKids(after, kids') && Respelt(ns, ns1, kids)
    requires Tree(ns1, kids, root) && x < |ns1| && ns1[x].kind != Dir && Gone(ns1, after, x)
    requires p < |ns1| && x in kids[p] && ns1[x].name == name
    requires In(ns1, ns1[x].parent) && i < |kids[ns1[x].parent]| && kids[ns1[x].parent][i] == x
    requires kids' == KidRemoved(kids, ns1[x].parent, i) && TakesName(after, kids', p, name)
    ensures Fold(ns, kids[p], name) == NULL ==> Find(after, kids'[p], name) == NULL
  {
    assert ListOk(ns1, kids, p);
    var j :| 0 <= j < |kids[p]| && kids[p][j] == x;
    assert KidOk(ns1, kids[p], p, j);
    ExactIs(after, kids'[p], name);
    RespeltFold(ns, ns1, kids, p, name);
    var l := kids'[p];
    UntouchedFinds(ns1, after, l, name);
    assert l == kids[p][..i] + kids[p][i + 1..];
    if Fold(ns1, kids[p], name) == NULL {
      FindRemoved(ns1, kids[p], i, name);
    }
  }

  /** Respelling makes no directory answer to a name it did not answer to. */
  lemma RespeltFold(ns: Nodes, ns1: Nodes, kids: Kids, p: nat, name: string)
    requires GoodKids(ns, kids) && GoodKids(ns1, kids) && Respelt(ns, ns1, kids) && p < |kids| && NamesOk(ns1, kids[p])
    ensures Fold(ns, kids[p], name) == NULL ==> Fold(ns1, kids[p], name) == NULL
  {
    var l, d := kids[p], Fold(ns1, kids[p], name);
    if d != NULL {
      FoldIs(ns1, l, name);
      var m := ns1[d].name;
      ExactIs(ns1, l, m);
      var i :| 0 <= i < |l| && l[i] == d;
      ExactOnly(ns1, l, m, i);
      assert Find(ns1, l, m) == d && Find(ns, l, m) == d;
      ExactIs(ns, l, m);
      FoldSome(ns, l, m, i);
      FoldSame(ns, ns, l, m, name);
    }
  }

  lemma {:induction false} FoldSome(ns: Nodes, l: seq<nat>, m: string, i: nat)
    requires GoodList(ns, l) && i < |l| && ns[l[i]].kind == Dir
    ensures Lower(ns[l[i]].name) == Lower(m) ==> Fold(ns, l, m) != NULL
  {
    if i > 0 {
      FoldSome(ns, l[1..], m, i - 1);
    }
  }

  lemma ClearedBelow(ns: Nodes, rank: seq<nat>, after: Nodes, x: nat, n: nat)
    requires Ranked(ns, rank) && Ranked(after, rank) && Gone(ns, after, x) && n < |ns|
    ensures forall q :: 0 <= q < |ns| && !Below(ns, rank, q, n) ==> !Below(after, rank, q, n)
  {
    hide Ranked, Below;
    forall q | 0 <= q < |ns| && !Below(ns, rank, q, n)
      ensures !Below(after, rank, q, n)
    {
      DetachBelow(ns, rank, after, q, n);
    }
  }

  /** Every path without dots that led to anything but n still leads there. */
  ghost predicate OthersStay(ns: Nodes, kids: Kids, after: Nodes, kids': Kids, root: nat, n: int)
    requires GoodKids(ns, kids) && GoodKids(after, kids')
  {
    forall path :: Plain(path) && In(ns, Walk(ns, kids, root, path)) && Walk(ns, kids, root, path) != n ==>
      Walk(after, kids', root, path) == Walk(ns, kids, root, path)
  }

  lemma GoneSigns(ns: Nodes, after: Nodes, n: nat)
    requires Gone(ns, after, n)
    ensures SameSigns(ns, after)
  {
  }

  /** A file has no children. */
  lemma ChildlessFile(ns: Nodes, kids: Kids, root: nat, n: nat)
    requires Tree(ns, kids, root) && n < |ns| && ns[n].kind != Dir
    ensures |kids| == |ns| && kids[n] == [] && ns[n].mount == NULL
  {
    assert ListOk(ns, kids, n) && MountOk(ns, kids, n);
  }

  /** Nothing is below a node without children. */
  lemma {:induction false} NothingBelow(ns: Nodes, kids: Kids, root: nat, rank: seq<nat>, c: nat, n: nat)
    requires Tree(ns, kids, root) && Ranked(ns, rank) && c < |ns| && n < |ns| && kids[n] == [] && ns[n].mount == NULL
    ensures Below(ns, rank, c, n) ==> c == n
    decreases rank[c]
  {
    assert RankOk(ns, rank, c) && PlaceOk(ns, kids, c);
    if Below(ns, rank, c, n) && c != n {
      NothingBelow(ns, kids, root, rank, ns[c].parent, n);
    }
  }

  /** Taking out an entry without children, after some respelling. */
  lemma RemovedPaths(ns: Nodes, ns1: Nodes, kids: Kids, root: nat, rank: seq<nat>, after: Nodes, kids': Kids, d: nat,
                     i: nat)
    requires GoodKids(ns, kids) && GoodKids(ns1, kids) && GoodKids(after, kids') && Respelt(ns, ns1, kids)
    requires Tree(ns1, kids, root) && Ranked(ns1, rank) && SameSigns(ns1, after)
    requires d < |kids| && i < |kids[d]| && kids' == KidRemoved(kids, d, i)
    requires var n := kids[d][i]; n < |ns1| && kids[n] == [] && ns1[n].mount == NULL
    ensures OthersStay(ns, kids, after, kids', root, kids[d][i])
  {
    hide Tree, Ranked, Walk, Below;
    var n := kids[d][i];
    RootClear(ns1, kids, root);
    RankedSize(ns1, rank);
    forall path | Plain(path) && In(ns, Walk(ns, kids, root, path)) && Walk(ns, kids, root, path) != n
      ensures Walk(after, kids', root, path) == Walk(ns, kids, root, path)
    {
      RespeltWalk(ns, ns1, kids, root, path);
      NothingBelow(ns1, kids, root, rank, Walk(ns, kids, root, path), n);
      RemovedWalk(ns1, kids, root, rank, after, kids', d, i, root, path);
    }
  }

  lemma NeverMet(ns: Nodes, kids: Kids, root: nat, n: nat)
    requires Tree(ns, kids, root) && GoodKids(ns, kids) && n < |ns| && n != root && ns[n].parent == NULL
    requires kids[n] == [] && ns[n].mount == NULL
    ensures forall path :: Walk(ns, kids, root, path) != n
  {
    hide Tree, Walk;
    forall path
      ensures Walk(ns, kids, root, path) != n
    {
      WalkAvoids(ns, kids, root, n, root, path);
    }
  }

  lemma MakeInodes(ns: Nodes, used: seq<bool>)
    requires OwnersOk(ns) && LinksBut(ns, NULL, 0) && SlotsOk(ns, used)
    ensures Inodes(ns, used)
  {
  }

  lemma TakesIn(ns: Nodes, kids: Kids, p: int, name: string)
    requires |kids| == |ns| && TakesName(ns, kids, p, name)
    ensures In(ns, p) && ns[p].mount == NULL && ns[p].kind == Dir
  {
  }

  /** A node with a parent is in its list, or the root of a mount, never both. */
  lemma WhereIs(ns: Nodes, kids: Kids, root: nat, n: nat)
    requires Tree(ns, kids, root) && n < |ns|
    ensures |kids| == |ns|
    ensures ns[n].parent != NULL ==> In(ns, ns[n].parent) && (n in kids[ns[n].parent] <==> !IsMountRoot(ns, n))
  {
    if ns[n].parent != NULL {
      assert PlaceOk(ns, kids, n);
      assert MountOk(ns, kids, ns[n].parent);
    }
  }

  /** A tree with something mounted on /m that is no tree any more once the mount's root is renamed to /x. */
  lemma MountRootExample()
    ensures var ns := [Fresh("", Dir, 0).(children := 1), Fresh("m", Dir, 1).(parent := 0, mount := 2),
                       Fresh("r", Dir, 2).(parent := 1)];
            && Tree(ns, [[1], [], []], 0) && IsMountRoot(ns, 2)
            && forall k :: !Tree(Attached(Renamed(ns, 2, "x"), 0, 2), k, 0)
  {
    var ns := [Fresh("", Dir, 0).(children := 1), Fresh("m", Dir, 1).(parent := 0, mount := 2),
               Fresh("r", Dir, 2).(parent := 1)];
    var kids: Kids := [[1], [], []];
    assert KidOk(ns, kids[0], 0, 0);
    assert ListOk(ns, kids, 0) && ListOk(ns, kids, 1) && ListOk(ns, kids, 2);
    assert 1 in kids[0];
    assert PlaceOk(ns, kids, 0) && PlaceOk(ns, kids, 1) && PlaceOk(ns, kids, 2);
    assert MountOk(ns, kids, 0) && MountOk(ns, kids, 1) && MountOk(ns, kids, 2);
    MountRootMoved(ns, kids, 0, 2, 0, Attached(Renamed(ns, 2, "x"), 0, 2));
  }

  lemma TreeMount(ns: Nodes, kids: Kids, root: nat, d: nat)
    requires d < |ns|
    ensures Tree(ns, kids, root) ==> |kids| == |ns| && MountOk(ns, kids, d)
  {
  }

  /** Renaming the root of a mount leaves the mount point pointing to something that is not below it. */
  lemma MountRootMoved(ns: Nodes, kids: Kids, root: nat, n: nat, p: nat, after: Nodes)
    requires Tree(ns, kids, root) && n < |ns| && IsMountRoot(ns, n) && p < |ns| && ns[p].mount == NULL
    requires |after| == |ns| && after[n].parent == p && after[ns[n].parent].mount == n
    ensures forall k :: !Tree(after, k, root)
  {
    forall k
      ensures !Tree(after, k, root)
    {
      TreeMount(after, k, root, ns[n].parent);
    }
  }

  /** What MoveDone needs of the table after n left its list. */
  ghost predicate Left(ns: Nodes, kids: Kids, n: nat, i: nat, ns1: Nodes, kids1: Kids, found: bool)
    requires n < |ns| && |kids| == |ns|
  {
    if found then
      && In(ns, ns[n].parent) && i < |kids[ns[n].parent]| && kids[ns[n].parent][i] == n
      && (i > 0 ==> kids[ns[n].parent][i - 1] < |ns|)
      && ns1 == Detached(ns, kids[ns[n].parent], ns[n].parent, i) && kids1 == KidRemoved(kids, ns[n].parent, i)
    else ns1 == ns && kids1 == kids
  }

  ghost predicate OutOf(ns: Nodes, root: nat, rank: seq<nat>, used: seq<bool>, n: nat, p: nat, name: string,
                        ns1: Nodes, kids1: Kids)
    requires n < |ns|
  {
    && |ns1| == |ns| && |kids1| == |ns| && |rank| == |ns| && p < |ns| && SameInodes(ns, ns1) && SameSigns(ns, ns1)
    && (forall c :: 0 <= c < |ns| && c != n ==> ns1[c].parent == ns[c].parent)
    && (!IsMountRoot(ns, n) ==>
          && Tree(ns1, kids1, root) && Ranked(ns1, rank) && ns1[n].parent == NULL && ns1[n].mount == ns[n].mount
          && OwnersOk(ns1) && SlotsOk(ns1, used) && LinksBut(ns1, ns1[n].owner, if ns1[n].kind == Dir then 0 else 1)
          && TakesName(ns1, kids1, p, name))
  }

  lemma MoveReady(ns: Nodes, kids: Kids, root: nat, rank: seq<nat>, used: seq<bool>, n: nat, p: nat, name: string,
                  i: nat,
                  ns1: Nodes, kids1: Kids, found: bool)
    requires Tree(ns, kids, root) && Ranked(ns, rank) && Inodes(ns, used) && n < |ns| && ns[n].mount == NULL
    requires p < |ns| && |kids| == |ns| && Left(ns, kids, n, i, ns1, kids1, found) && TakesName(ns, kids, p, name)
    requires (found <==> ns[n].parent != NULL && !IsMountRoot(ns, n)) && (ns[n].kind == Dir || ns[n].parent != NULL)
    ensures OutOf(ns, root, rank, used, n, p, name, ns1, kids1)
  {
    hide Tree, Ranked, LinksBut, SlotsOk, OwnersOk;
    RankedSize(ns, rank);
    if found {
      LeaveKeeps(ns, kids, root, rank, used, ns[n].parent, i);
      TakesLess(ns, kids, ns1, kids1, p, name, ns[n].parent, i);
    } else {
      LinksAnywhere(ns, ns[n].owner);
    }
  }

  lemma LinksAnywhere(ns: Nodes, o: int)
    requires LinksBut(ns, NULL, 0)
    ensures LinksBut(ns, o, 0)
  {
  }

  /** A node outside the tree may have any name. */
  lemma RenameOutside(ns: Nodes, kids: Kids, root: nat, rank: seq<nat>, n: nat, name: string)
    requires Tree(ns, kids, root) && Ranked(ns, rank) && n < |ns| && ns[n].parent == NULL
    ensures Tree(Renamed(ns, n, name), kids, root) && Ranked(Renamed(ns, n, name), rank)
    ensures forall d :: 0 <= d < |kids| ==> n !in kids[d]
  {
    var after := Renamed(ns, n, name);
    forall c | 0 <= c < |ns|
      ensures ListOk(after, kids, c) && PlaceOk(after, kids, c) && MountOk(after, kids, c) && NamesOk(after, kids[c])
      ensures RankOk(after, rank, c)
      ensures n !in kids[c]
    {
      assert ListOk(ns, kids, c) && PlaceOk(ns, kids, c) && MountOk(ns, kids, c);
      assert NamesOk(ns, kids[c]) && RankOk(ns, rank, c);
      forall i | 0 <= i < |kids[c]|
        ensures KidOk(after, kids[c], c, i) && kids[c][i] != n
      {
        assert KidOk(ns, kids[c], c, i);
      }
    }
  }

  /** Down a path to the directory it entered, and then by its name, n is found. */
  lemma MovedWalk(ns: Nodes, kids: Kids, root: nat, rank: seq<nat>, n: nat, i: nat, ns1: Nodes, kids1: Kids,
                  found: bool,
                  p: nat, name: string, pre: seq<string>)
    requires Tree(ns, kids, root) && Ranked(ns, rank) && GoodKids(ns, kids) && n < |ns| && p < |ns| && n != p
    requires Left(ns, kids, n, i, ns1, kids1, found) && |ns1| == |ns| && |kids1| == |ns| && SameSigns(ns, ns1)
    requires Tree(ns1, kids1, root) && Ranked(ns1, rank) && ns1[n].parent == NULL && ns[n].mount == NULL
    requires ns[p].kind == Dir
    requires Plain(pre + [name]) && |name| <= NAME_MAX && Walk(ns, kids, root, pre) == p && !Below(ns, rank, p, n)
    ensures GoodKids(Attached(Renamed(ns1, n, name), p, n), KidAdded(kids1, p, n))
    ensures Walk(Attached(Renamed(ns1, n, name), p, n), KidAdded(kids1, p, n), root, pre + [name]) == n
  {
    hide Tree, Ranked, Walk, Step, Below, Left;
    var ns2 := Renamed(ns1, n, name);
    var ns3, kids3 := Attached(ns2, p, n), KidAdded(kids1, p, n);
    TreeLists(ns1, kids1, root);
    PlainParts(pre, name);
    RootClear(ns, kids, root);
    LeftWalk(ns, kids, root, rank, n, i, ns1, kids1, found, pre);
    RenameOutside(ns1, kids1, root, rank, n, name);
    RenamedOutside(ns1, kids1, n, name);
    RespeltWalk(ns1, ns2, kids1, root, pre);
    RootClear(ns1, kids1, root);
    WalkClear(ns, kids, root, root, pre);
    AttachedWalk(ns2, kids1, root, rank, ns3, kids3, p, n, root, pre);
    WalkLast(ns3, kids3, root, pre, name);
    StepFirst(ns3, kids3, p, n, name);
  }

  /** Why an entry cannot move. */
  lemma NoMove(s: Fs, root: nat, oldPath: seq<string>, newPath: seq<string>, p: int, name: string)
    requires GoodKids(s.nodes, s.kids) && Ranked(s.nodes, s.rank)
    requires var n, existing := Walk(s.nodes, s.kids, root, oldPath), Walk(s.nodes, s.kids, root, newPath);
             || n == NULL || n == root
             || (forall q, m :: m != "" ==> !Names(s.nodes, s.kids, root, newPath, q, m))
             || (Names(s.nodes, s.kids, root, newPath, p, name) && Below(s.nodes, s.rank, p, n))
             || (existing != NULL && existing != n && s.nodes[existing].kind == Dir)
    ensures !MayMove(s, root, oldPath, newPath)
  {
  }

  lemma CanMove(s: Fs, root: nat, oldPath: seq<string>, newPath: seq<string>, p: nat, name: string)
    requires GoodKids(s.nodes, s.kids) && Ranked(s.nodes, s.rank)
    requires Names(s.nodes, s.kids, root, newPath, p, name) && name != ""
    requires var n := Walk(s.nodes, s.kids, root, oldPath); n != NULL && n != root && !Below(s.nodes, s.rank, p, n)
    ensures var n, existing := Walk(s.nodes, s.kids, root, oldPath), Walk(s.nodes, s.kids, root, newPath);
            existing == NULL || existing == n || s.nodes[existing].kind != Dir ==> MayMove(s, root, oldPath, newPath)
  {
  }

  lemma MovedValid(s: Fs, t: Fs, root: nat, from: seq<string>, to: seq<string>, rc: int, valid: bool)
    requires GoodKids(s.nodes, s.kids) && Ranked(s.nodes, s.rank) && (valid ==> GoodKids(t.nodes, t.kids))
    requires EntryMoved(s, t, root, from, to, rc, valid)
    requires var n := Walk(s.nodes, s.kids, root, from); n == NULL || !IsMountRoot(s.nodes, n)
    ensures valid
  {
  }

  lemma MountValid(s: Fs, t: Fs, root: nat, name: string, path: seq<string>, rc: int, valid: bool)
    requires GoodKids(s.nodes, s.kids) && Ranked(s.nodes, s.rank) && (valid ==> GoodKids(t.nodes, t.kids))
    requires MountMade(s, t, root, name, path, rc, valid)
    requires Mountable(s.nodes, s.kids, Walk(s.nodes, s.kids, root, path))
    ensures valid
  {
  }

  /** Every path without dots that led to neither x nor anything below n still leads there. */
  ghost predicate AwayStay(ns: Nodes, kids: Kids, rank: seq<nat>, after: Nodes, kids': Kids, root: nat, n: nat, x: int)
    requires GoodKids(ns, kids) && GoodKids(after, kids') && Ranked(ns, rank)
  {
    forall path ::
      Plain(path) && AwayFrom(ns, rank, Walk(ns, kids, root, path), n) && Walk(ns, kids, root, path) != x ==>
      Walk(after, kids', root, path) == Walk(ns, kids, root, path)
  }

  ghost predicate AwayFrom(ns: Nodes, rank: seq<nat>, q: int, n: nat)
    requires Ranked(ns, rank)
  {
    In(ns, q) && !Below(ns, rank, q, n)
  }

  lemma MovedPaths(ns: Nodes, kids: Kids, root: nat, rank: seq<nat>, n: nat, i: nat, ns1: Nodes, kids1: Kids,
                   found: bool, p: nat, name: string)
    requires Tree(ns, kids, root) && Ranked(ns, rank) && GoodKids(ns, kids) && n < |ns| && p < |ns| && n != p
    requires Left(ns, kids, n, i, ns1, kids1, found) && |ns1| == |ns| && |kids1| == |ns| && SameSigns(ns, ns1)
    requires Tree(ns1, kids1, root) && Ranked(ns1, rank) && ns1[n].parent == NULL && ns[n].mount == NULL
    requires Find(ns, kids[p], name) == NULL
    ensures GoodKids(Attached(Renamed(ns1, n, name), p, n), KidAdded(kids1, p, n))
    ensures AwayStay(ns, kids, rank, Attached(Renamed(ns1, n, name), p, n), KidAdded(kids1, p, n), root, n, NULL)
  {
    hide Tree, Ranked, Walk, Step, Below, Left, Find;
    var ns2 := Renamed(ns1, n, name);
    var ns3, kids3 := Attached(ns2, p, n), KidAdded(kids1, p, n);
    TreeLists(ns1, kids1, root);
    RootClear(ns, kids, root);
    RootClear(ns1, kids1, root);
    RenameOutside(ns1, kids1, root, rank, n, name);
    RenamedOutside(ns1, kids1, n, name);
    LeftFind(ns, kids, n, i, ns1, kids1, found, p, name);
    forall path | Plain(path) && AwayFrom(ns, rank, Walk(ns, kids, root, path), n)
      ensures Walk(ns3, kids3, root, path) == Walk(ns, kids, root, path)
    {
      LeftWalk(ns, kids, root, rank, n, i, ns1, kids1, found, path);
      RespeltWalk(ns1, ns2, kids1, root, path);
      AttachedPaths(ns2, kids1, root, rank, ns3, kids3, p, n, root, path);
    }
  }

  lemma ReplacedPaths(ns: Nodes, ns0: Nodes, kids: Kids, rank: seq<nat>, ns1: Nodes, kids1: Kids, after: Nodes,
                      kids': Kids, root: nat, n: nat, x: int)
    requires GoodKids(ns, kids) && GoodKids(ns1, kids1) && GoodKids(after, kids') && Respelt(ns, ns0, kids)
    requires Ranked(ns, rank) && Ranked(ns0, rank) && Ranked(ns1, rank) && |ns1| == |ns0| && n < |ns0|
    requires OthersStay(ns, kids, ns1, kids1, root, x)
    requires forall q :: 0 <= q < |ns1| && !Below(ns0, rank, q, n) ==> !Below(ns1, rank, q, n)
    requires AwayStay(ns1, kids1, rank, after, kids', root, n, NULL)
    ensures AwayStay(ns, kids, rank, after, kids', root, n, x)
  {
    hide Ranked, Walk, Below, Respelt;
    RespeltSize(ns, ns0, kids);
    forall path | Plain(path) && AwayFrom(ns, rank, Walk(ns, kids, root, path), n) && Walk(ns, kids, root, path) != x
      ensures Walk(after, kids', root, path) == Walk(ns, kids, root, path)
    {
      RespeltBelow(ns, ns0, kids, rank, Walk(ns, kids, root, path), n);
    }
  }

  /** With n out of its list, still nothing answers to the name. */
  lemma LeftFind(ns: Nodes, kids: Kids, n: nat, i: nat, ns1: Nodes, kids1: Kids, found: bool, p: nat, name: string)
    requires GoodKids(ns, kids) && GoodKids(ns1, kids1) && n < |ns| && p < |ns| && SameSigns(ns, ns1)
    requires Left(ns, kids, n, i, ns1, kids1, found) && Find(ns, kids[p], name) == NULL
    ensures Find(ns1, kids1[p], name) == NULL
  {
    hide Exact, Fold;
    UntouchedFinds(ns, ns1, kids1[p], name);
    if found && ns[n].parent == p {
      FindRemoved(ns, kids[p], i, name);
      assert kids1[p] == kids[p][..i] + kids[p][i + 1..];
    }
  }

  lemma PlainParts(pre: seq<string>, name: string)
    requires Plain(pre + [name])
    ensures Plain(pre) && name != "." && name != ".."
  {
    var path := pre + [name];
    assert path[|pre|] == name;
    assert forall i :: 0 <= i < |pre| ==> pre[i] == path[i];
  }

  /** Once n has left its list, the way down to a directory not below it is the same. */
  lemma LeftWalk(ns: Nodes, kids: Kids, root: nat, rank: seq<nat>, n: nat, i: nat, ns1: Nodes, kids1: Kids,
                 found: bool, pre: seq<string>)
    requires Tree(ns, kids, root) && Ranked(ns, rank) && GoodKids(ns, kids) && n < |ns| && root < |ns|
    requires ns[root].mount == NULL
    requires Left(ns, kids, n, i, ns1, kids1, found) && SameSigns(ns, ns1) && GoodKids(ns1, kids1)
    requires Plain(pre) && In(ns, Walk(ns, kids, root, pre)) && !Below(ns, rank, Walk(ns, kids, root, pre), n)
    ensures Walk(ns1, kids1, root, pre) == Walk(ns, kids, root, pre)
  {
    hide Tree, Ranked, Walk, Below;
    if found {
      RemovedWalk(ns, kids, root, rank, ns1, kids1, ns[n].parent, i, root, pre);
    }
  }

  /** The name of a node that is in no list is never looked at. */
  lemma RenamedOutside(ns: Nodes, kids: Kids, n: nat, name: string)
    requires GoodKids(ns, kids) && n < |ns| && forall d :: 0 <= d < |kids| ==> n !in kids[d]
    ensures Respelt(ns, Renamed(ns, n, name), kids)
  {
    forall d, m | 0 <= d < |kids|
      ensures Find(Renamed(ns, n, name), kids[d], m) == Find(ns, kids[d], m)
    {
      UntouchedFinds(ns, Renamed(ns, n, name), kids[d], m);
    }
  }

  lemma StepFirst(ns: Nodes, kids: Kids, p: nat, n: nat, name: string)
    requires GoodKids(ns, kids) && p < |ns| && n < |ns| && ns[p].kind == Dir && ns[p].mount == NULL
    requires ns[n].mount == NULL
    requires kids[p] != [] && kids[p][0] == n && ns[n].name == name && name != "." && name != ".."
    ensures Step(ns, kids, p, name) == n
  {
  }

  /** n, outside the tree, enters p under its new name. */
  lemma MoveDone(ns: Nodes, rank: seq<nat>, ns1: Nodes, kids1: Kids, root: nat, used: seq<bool>, n: nat, p: nat,
                 name: string)
    requires Ranked(ns, rank) && p < |ns| && !Below(ns, rank, p, n) && |ns1| == |ns|
    requires forall c :: 0 <= c < |ns| ==> ns1[c].parent == NULL || ns1[c].parent == ns[c].parent
    requires Tree(ns1, kids1, root) && Ranked(ns1, rank) && n < |ns| && n != root && n != p && ns1[n].parent == NULL
    requires ns1[n].mount == NULL
    requires |kids1| == |ns1| && TakesName(ns1, kids1, p, name)
    requires OwnersOk(ns1) && SlotsOk(ns1, used) && LinksBut(ns1, ns1[n].owner, if ns1[n].kind == Dir then 0 else 1)
    ensures var ns2 := Renamed(ns1, n, name);
            && Ranked(ns2, rank) && Tree(Attached(ns2, p, n), KidAdded(kids1, p, n), root)
            && Ranked(Attached(ns2, p, n), Shifted(ns2, rank, n, rank[p] + 1)) && Inodes(Attached(ns2, p, n), used)
            && SameInodes(ns1, Attached(ns2, p, n))
  {
    hide Tree, Ranked, LinksBut, SlotsOk, OwnersOk, Below;
    var ns2 := Renamed(ns1, n, name);
    RenameOutside(ns1, kids1, root, rank, n, name);
    AttachKeeps(ns2, kids1, root, p, n);
    DetachBelow(ns, rank, ns2, p, n);
    AttachRank(ns2, rank, Attached(ns2, p, n), p, n);
    MovedLinks(ns1, ns2, n, if ns1[n].kind == Dir then 0 else 1, ns1[n].owner);
    MovedSlots(ns1, ns2, used);
    SelfOwned(ns2, n);
    EnterInodes(ns2, used, p, n, ns2[n].owner);
  }

  /** A directory owns no links, so none can be missing. */
  lemma SelfOwned(ns: Nodes, n: nat)
    requires OwnersOk(ns) && n < |ns| && LinksBut(ns, ns[n].owner, if ns[n].kind == Dir then 0 else 1)
    ensures LinksBut(ns, ns[n].owner, 1)
  {
    assert OwnerOk(ns, n);
  }

  lemma TakesLess(ns: Nodes, kids: Kids, ns1: Nodes, kids1: Kids, p: int, name: string, q: nat, i: nat)
    requires |kids| == |ns| && |kids1| == |ns1| == |ns| && TakesName(ns, kids, p, name) && q < |kids| && i < |kids[q]|
    requires kids1 == KidRemoved(kids, q, i)
    requires forall c :: 0 <= c < |ns| ==>
               ns1[c].name == ns[c].name && ns1[c].kind == ns[c].kind && ns1[c].mount == ns[c].mount
    ensures TakesName(ns1, kids1, p, name)
  {
    forall j | 0 <= j < |kids1[p]|
      ensures kids1[p][j] < |ns1| && ns1[kids1[p][j]].name != name
    {
      if p == q {
        assert kids1[p][j] == if j < i then kids[p][j] else kids[p][j + 1];
      }
    }
  }

  /** An entry that is no directory is in the list of its parent. */
  lemma EntryListed(ns: Nodes, kids: Kids, root: nat, x: nat)
    requires Tree(ns, kids, root) && x < |ns| && ns[x].kind != Dir && ns[x].parent != NULL
    ensures In(ns, ns[x].parent) && x in kids[ns[x].parent] && ns[x].mount == NULL
  {
    assert PlaceOk(ns, kids, x) && MountOk(ns, kids, x);
    assert MountOk(ns, kids, ns[x].parent);
  }

  /** Node n has left the tree; otherwise only its owner's inode and list pointers changed. */
  ghost predicate Gone(ns: Nodes, after: Nodes, n: nat) {
    && n < |ns| == |after| && after[n].parent == NULL && In(ns, ns[n].owner)
    && (forall c :: 0 <= c < |ns| && c != n ==> after[c].parent == ns[c].parent)
    && (forall c :: 0 <= c < |ns| ==>
          && after[c].name == ns[c].name && after[c].kind == ns[c].kind
          && after[c].owner == ns[c].owner && after[c].mount == ns[c].mount)
    && (forall c :: 0 <= c < |ns| && c != ns[n].owner ==> SameInode(after[c], ns[c]))
    && after[ns[n].owner].nlink == ns[ns[n].owner].nlink - 1
    && (after[ns[n].owner].nlink > 0 ==>
          after[ns[n].owner].slot == ns[ns[n].owner].slot && after[ns[n].owner].size == ns[ns[n].owner].size)
  }

  lemma DropKeeps(ns: Nodes, kids: Kids, root: nat, rank: seq<nat>, used': seq<bool>, used: seq<bool>, n: nat)
    requires Tree(ns, kids, root) && Ranked(ns, rank) && n < |ns| && ns[n].kind != Dir
    requires OwnersOk(ns) && LinksBut(ns, ns[n].owner, 1) && SlotsOk(ns, used) && In(ns, ns[n].owner)
    requires used' == SlotFreed(ns, used, ns[n].owner)
    ensures var after := LinkDropped(ns, ns[n].owner);
            Tree(after, kids, root) && Ranked(after, rank) && Inodes(after, used')
  {
    hide Tree, Ranked, LinksBut, SlotsOk;
    assert OwnerOk(ns, n);
    var o := ns[n].owner;
    assert OwnerOk(ns, o);
    LinkedOnce(ns, o);
    DropLinks(ns, o);
    DropSlots(ns, used, o);
    InodesMove(ns, LinkDropped(ns, o), kids, root, rank);
  }

  lemma LinkedOnce(ns: Nodes, o: int)
    requires LinksBut(ns, o, 1) && IsOwner(ns, o)
    ensures ns[o].nlink > 0
  {
  }

  lemma DroppedContents(ns: Nodes, after: Nodes, pool: seq<seq<byte>>, n: nat)
    requires OwnersOk(ns) && Gone(ns, after, n)
    ensures forall y :: 0 <= y < |ns| && ns[y].owner != ns[n].owner ==>
              ContentOf(after, pool, y) == ContentOf(ns, pool, y)
    ensures after[ns[n].owner].nlink > 0 ==> forall y :: 0 <= y < |ns| ==>
              ContentOf(after, pool, y) == ContentOf(ns, pool, y)
  {
    forall y | 0 <= y < |ns|
      ensures ns[y].owner != ns[n].owner || after[ns[n].owner].nlink > 0 ==>
                ContentOf(after, pool, y) == ContentOf(ns, pool, y)
    {
      assert OwnerOk(ns, y);
    }
  }

  function CutAll(path: seq<string>): (r: seq<string>)
    ensures |r| == |path| && forall i :: 0 <= i < |path| ==> r[i] == Cut(path[i])
  {
    seq(|path|, i requires 0 <= i < |path| => Cut(path[i]))
  }

  /** A walk stops at no mount point, and at a file only as an entry of a directory. */
  lemma NotMountpoint(ns: Nodes, kids: Kids, root: nat, parts: seq<string>)
    requires Tree(ns, kids, root) && GoodKids(ns, kids)
    ensures var x := Walk(ns, kids, root, parts); In(ns, x) ==>
              ns[x].mount == NULL && (ns[x].kind == Dir || ns[x].parent != NULL)
  {
    RootClear(ns, kids, root);
    WalkClear(ns, kids, root, root, parts);
    WalkEntry(ns, kids, root, root, parts);
  }

  /** Node x has a slot that was unused, and with it room for a slot's bytes. */
  predicate OwnSlot(was: seq<bool>, used: seq<bool>, ns: Nodes, x: int) {
    && In(ns, x) && 0 <= ns[x].slot < |was| && !was[ns[x].slot] && used == was[ns[x].slot := true]
    && ns[x].capacity == SLOT_SIZE && Capacity(ns, x) == SLOT_SIZE
  }

  /** The path names an entry `name` of directory p. */
  ghost predicate Names(ns: Nodes, kids: Kids, root: nat, parts: seq<string>, p: int, name: string)
    requires GoodKids(ns, kids)
  {
    && parts != [] && name == parts[|parts| - 1] && |name| <= NAME_MAX
    && In(ns, p) && ns[p].kind == Dir && p == Walk(ns, kids, root, parts[..|parts| - 1])
  }

  /** What a node made at a path is: the first child of the directory the path names. */
  ghost predicate Created(ns: Nodes, kids0: Kids, root: nat, parts: seq<string>, after: Nodes, kids: Kids, x: int,
                          kind: Kind)
    requires GoodKids(ns, kids0)
  {
    && x == |ns| && |after| == |ns| + 1 && after[x].kind == kind
    && Names(ns, kids0, root, parts, after[x].parent, after[x].name)
    && kids == KidAdded(kids0 + [[]], after[x].parent, x)
  }

  /** What a file holds, under any of its names. */
  ghost function ContentOf(ns: Nodes, pool: seq<seq<byte>>, x: nat): seq<byte>
    requires x < |ns|
  {
    if ns[x].kind == File && In(ns, ns[x].owner) then
      var o := ns[ns[x].owner];
      if 0 <= o.slot < |pool| && o.size <= |pool[o.slot]| then pool[o.slot][..o.size] else []
    else []
  }

  /** Only sizes of files differ. */
  ghost predicate Resized(ns: Nodes, after: Nodes) {
    |after| == |ns| && forall c :: 0 <= c < |ns| ==> after[c] == ns[c].(size := after[c].size)
  }

  predicate ResizeOk(ns: Nodes, o: int, size: nat) {
    IsOwner(ns, o) && ns[o].kind == File && size <= ns[o].capacity
  }

  lemma SizeFits(ns: Nodes, used: seq<bool>, o: int, size: nat)
    requires IsOwner(ns, o) && ns[o].kind == File && SlotsOk(ns, used) && size <= ns[o].size
    ensures ResizeOk(ns, o, size)
  {
    assert InodeOk(ns, used, o);
  }

  /** A new size of an inode, noted also under the name it was reached by. */
  lemma ResizeKeeps(ns: Nodes, kids: Kids, root: nat, rank: seq<nat>, used: seq<bool>, pool: seq<seq<byte>>, o: nat,
                    size: nat, n: nat)
    requires Tree(ns, kids, root) && Ranked(ns, rank) && Inodes(ns, used) && ResizeOk(ns, o, size) && n < |ns|
    requires ns[n].owner == o
    requires |pool| == SLOTS && forall s :: 0 <= s < SLOTS ==> |pool[s]| == SLOT_SIZE
    ensures var after := ns[o := ns[o].(size := size)][n := ns[n].(size := size)];
            && Tree(after, kids, root) && Ranked(after, rank) && Inodes(after, used) && Resized(ns, after)
            && after[o].size == size
            && forall y :: 0 <= y < |ns| && (ns[y].kind != File || ns[y].owner != o) ==>
                 ContentOf(after, pool, y) == ContentOf(ns, pool, y)
  {
    hide Tree, Ranked, SlotsOk, LinksBut;
    var after := ns[o := ns[o].(size := size)][n := ns[n].(size := size)];
    InodesMove(ns, after, kids, root, rank);
    assert OwnerOk(ns, n);
    ResizeLinks(ns, after);
    ResizeSlots(ns, after, used, o, size, n);
    forall y | 0 <= y < |ns| && (ns[y].kind != File || ns[y].owner != o)
      ensures ContentOf(after, pool, y) == ContentOf(ns, pool, y)
    {
      assert OwnerOk(ns, y) && OwnerOk(ns, n);
    }
  }

  lemma ResizeLinks(ns: Nodes, after: Nodes)
    requires Resized(ns, after) && OwnersOk(ns) && LinksBut(ns, NULL, 0)
    ensures OwnersOk(after) && LinksBut(after, NULL, 0)
  {
    forall c | 0 <= c < |ns|
      ensures OwnerOk(after, c)
    {
      assert OwnerOk(ns, c);
    }
    forall q | IsOwner(after, q)
      ensures IsOwner(ns, q) && Entries(after, q) == Entries(ns, q)
    {
    }
  }

  lemma ResizeSlots(ns: Nodes, after: Nodes, used: seq<bool>, o: nat, size: nat, n: nat)
    requires OwnersOk(ns) && SlotsOk(ns, used) && ResizeOk(ns, o, size) && n < |ns| && ns[n].owner == o
    requires after == ns[o := ns[o].(size := size)][n := ns[n].(size := size)]
    ensures SlotsOk(after, used)
  {
    assert OwnerOk(ns, n);
    forall q | IsOwner(after, q) && after[q].kind == File
      ensures InodeOk(after, used, q)
    {
      assert IsOwner(ns, q) && InodeOk(ns, used, q);
      assert q == n ==> q == o;
    }
    forall s | 0 <= s < SLOTS && used[s]
      ensures exists q :: Holds(after, q, s)
    {
      var q :| Holds(ns, q, s);
      assert Holds(after, q, s);
    }
    forall p, q | SameSlot(after, p, q)
      ensures p == q
    {
      assert SameSlot(ns, p, q);
    }
  }

  /** Contents depend on owner, slot and size alone. */
  lemma SameContents(ns: Nodes, after: Nodes, pool: seq<seq<byte>>)
    requires OwnersOk(ns) && |ns| <= |after|
    requires forall c :: 0 <= c < |ns| ==>
               && after[c].kind == ns[c].kind && after[c].owner == ns[c].owner
               && after[c].slot == ns[c].slot && after[c].size == ns[c].size
    ensures forall y :: 0 <= y < |ns| ==> ContentOf(after, pool, y) == ContentOf(ns, pool, y)
  {
    forall y | 0 <= y < |ns|
      ensures ContentOf(after, pool, y) == ContentOf(ns, pool, y)
    {
      assert OwnerOk(ns, y);
    }
  }

  lemma OwnersIn(ns: Nodes, used: seq<bool>)
    requires Inodes(ns, used)
    ensures OwnersOk(ns)
  {
  }

  lemma UsedSize(ns: Nodes, used: seq<bool>)
    requires Inodes(ns, used)
    ensures |used| == SLOTS
  {
  }

  lemma RespeltSize(ns: Nodes, after: Nodes, kids: Kids)
    requires GoodKids(ns, kids) && Respelt(ns, after, kids)
    ensures |after| == |ns|
  {
  }

  lemma RespeltKind(ns: Nodes, after: Nodes, kids: Kids, x: nat)
    requires GoodKids(ns, kids) && Respelt(ns, after, kids) && x < |ns|
    ensures |after| == |ns| && after[x] == ns[x].(name := after[x].name)
  {
  }

  lemma RespeltContent(ns: Nodes, after: Nodes, kids: Kids, pool: seq<seq<byte>>)
    requires GoodKids(ns, kids) && Respelt(ns, after, kids)
    ensures |after| == |ns| && forall y :: 0 <= y < |ns| ==> ContentOf(after, pool, y) == ContentOf(ns, pool, y)
  {
  }

  /** The directory of a path that leads nowhere takes the last name. */
  lemma TakesFresh(ns: Nodes, after: Nodes, kids: Kids, root: nat, parts: seq<string>, name: string)
    requires GoodKids(ns, kids) && Respelt(ns, after, kids) && Tree(after, kids, root)
    requires parts != [] && name == parts[|parts| - 1] && |name| <= NAME_MAX && Walk(ns, kids, root, parts) == NULL
    requires var p := Walk(ns, kids, root, parts[..|parts| - 1]); In(ns, p) && after[p].kind == Dir
    ensures TakesName(after, kids, Walk(ns, kids, root, parts[..|parts| - 1]), name)
  {
    hide Tree, Walk, Respelt, Fold;
    RespeltSize(ns, after, kids);
    TreeLists(after, kids, root);
    var pre := parts[..|parts| - 1];
    assert parts == pre + [name];
    RespeltWalk(ns, after, kids, root, pre);
    RespeltWalk(ns, after, kids, root, parts);
    FreshName(after, kids, root, pre, name);
  }

  /** A new file is empty, and no other file changes. */
  lemma NewContent(ns: Nodes, used: seq<bool>, pool: seq<seq<byte>>, after: Nodes, pool': seq<seq<byte>>, p: nat,
                   x: Node)
    requires Inodes(ns, used) && |pool| == SLOTS && p < |ns| && x.kind == File && x.owner == |ns| && x.size == 0
    requires 0 <= x.slot < SLOTS && !used[x.slot] && |pool'| == SLOTS && pool' == pool[x.slot := pool'[x.slot]]
    requires after == Attached(ns + [x], p, |ns|)
    ensures ContentOf(after, pool', |ns|) == []
    ensures forall y :: 0 <= y < |ns| ==> ContentOf(after, pool', y) == ContentOf(ns, pool, y)
  {
    forall y | 0 <= y < |ns|
      ensures ContentOf(after, pool', y) == ContentOf(ns, pool, y)
    {
      assert OwnerOk(ns, y);
      var o := ns[y].owner;
      if ns[y].kind == File {
        assert InodeOk(ns, used, o);
      }
    }
  }

  lemma RespeltSelf(ns: Nodes, kids: Kids)
    requires GoodKids(ns, kids)
    ensures Respelt(ns, ns, kids)
  {
  }

  lemma RootIn(ns: Nodes, kids: Kids, root: nat)
    requires Tree(ns, kids, root)
    ensures In(ns, root) && ns[root].kind == Dir && ns[root].parent == NULL
  {
  }

  lemma RespeltStep(ns: Nodes, after: Nodes, kids: Kids, cur: nat, part: string)
    requires GoodKids(ns, kids) && Respelt(ns, after, kids) && cur < |ns|
    ensures GoodKids(after, kids) && |after| == |ns| && Step(after, kids, cur, part) == Step(ns, kids, cur, part)
  {
  }
}
