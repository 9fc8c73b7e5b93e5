/**
 Walking a path in src/kernel/vfs.c. A path is the sequence of its components; a directory is also
 found under a name that differs in case, and a top-level `usr` or `lib` then takes the spelling
 it was asked for.
 */
module VfsPaths {
  import opened VfsTree

  function LowerChar(c: char): char {
    if 'A' <= c <= 'Z' then c + (('a' as int - 'A' as int) as char) else c
  }

  function Lower(s: string): (r: string)
    ensures |r| == |s|
  {
    seq(|s|, i requires 0 <= i < |s| => LowerChar(s[i]))
  }

  /** A component is read up to 31 characters. */
  function Cut(part: string): (r: string)
    ensures |r| <= NAME_MAX
  {
    if |part| > NAME_MAX then part[..NAME_MAX] else part
  }

  predicate GoodList(ns: Nodes, l: seq<nat>) {
    forall i :: 0 <= i < |l| ==> l[i] < |ns|
  }

  /** The child of exactly this name. */
  function Exact(ns: Nodes, l: seq<nat>, name: string): int
    requires GoodList(ns, l)
  {
    if l == [] then NULL else if ns[l[0]].name == name then l[0] else Exact(ns, l[1..], name)
  }

  /** The first directory of this name up to case. */
  function Fold(ns: Nodes, l: seq<nat>, name: string): int
    requires GoodList(ns, l)
  {
    if l == [] then NULL
    else if ns[l[0]].kind == Dir && Lower(ns[l[0]].name) == Lower(name) then l[0]
    else Fold(ns, l[1..], name)
  }

  /** What vfs_lookup_child returns. */
  function Find(ns: Nodes, l: seq<nat>, name: string): int
    requires GoodList(ns, l)
  {
    if Exact(ns, l, name) != NULL then Exact(ns, l, name) else Fold(ns, l, name)
  }

  lemma {:induction false} ExactIs(ns: Nodes, l: seq<nat>, name: string)
    requires GoodList(ns, l)
    ensures Exact(ns, l, name) == NULL <==> forall i :: 0 <= i < |l| ==> ns[l[i]].name != name
    ensures Exact(ns, l, name) != NULL ==> Exact(ns, l, name) in l && ns[Exact(ns, l, name)].name == name
  {
    if l != [] {
      ExactIs(ns, l[1..], name);
      assert forall i :: 0 < i < |l| ==> l[i] == l[1..][i - 1];
    }
  }

  /** With distinct names the child of a name is the only one. */
  lemma ExactOnly(ns: Nodes, l: seq<nat>, name: string, i: nat)
    requires NamesOk(ns, l) && i < |l| && ns[l[i]].name == name
    ensures Exact(ns, l, name) == l[i]
  {
    ExactIs(ns, l, name);
    var x := Exact(ns, l, name);
    var j :| 0 <= j < |l| && l[j] == x;
    assert j == i;
  }

  lemma {:induction false} FoldIs(ns: Nodes, l: seq<nat>, name: string)
    requires GoodList(ns, l) && Fold(ns, l, name) != NULL
    ensures var x := Fold(ns, l, name); x in l && ns[x].kind == Dir && Lower(ns[x].name) == Lower(name)
  {
    if !(ns[l[0]].kind == Dir && Lower(ns[l[0]].name) == Lower(name)) {
      FoldIs(ns, l[1..], name);
    }
  }

  /** The first directory of the list that has the name up to case, and none exactly when there is none. */
  lemma {:induction false} FoldFirst(ns: Nodes, l: seq<nat>, name: string, i: nat)
    requires GoodList(ns, l) && i <= |l|
    requires forall j :: 0 <= j < i ==> !(ns[l[j]].kind == Dir && Lower(ns[l[j]].name) == Lower(name))
    requires i < |l| ==> ns[l[i]].kind == Dir && Lower(ns[l[i]].name) == Lower(name)
    ensures Fold(ns, l, name) == if i < |l| then l[i] else NULL
  {
    if i > 0 {
      FoldFirst(ns, l[1..], name, i - 1);
    }
  }

  lemma {:induction false} FoldSame(ns: Nodes, after: Nodes, l: seq<nat>, name: string, other: string)
    requires GoodList(ns, l) && |after| == |ns| && Lower(name) == Lower(other)
    requires forall i :: 0 <= i < |l| ==>
               after[l[i]].kind == ns[l[i]].kind && Lower(after[l[i]].name) == Lower(ns[l[i]].name)
    ensures Fold(after, l, name) == Fold(ns, l, other)
  {
    if l != [] {
      FoldSame(ns, after, l[1..], name, other);
    }
  }

  function Renamed(ns: Nodes, x: nat, name: string): (r: Nodes)
    requires x < |ns|
    ensures |r| == |ns|
  {
    ns[x := ns[x].(name := name)]
  }

  /** Giving a directory the spelling it was found under changes nothing for any look-up. */
  lemma RespellFinds(ns: Nodes, l: seq<nat>, name: string, m: string)
    requires NamesOk(ns, l) && Exact(ns, l, name) == NULL && Fold(ns, l, name) != NULL
    ensures Fold(ns, l, name) in l && Find(Renamed(ns, Fold(ns, l, name), name), l, m) == Find(ns, l, m)
  {
    FoldIs(ns, l, name);
    var x := Fold(ns, l, name);
    var ns' := Renamed(ns, x, name);
    FoldSame(ns, ns', l, m, m);
    ExactIs(ns, l, name);
    ExactIs(ns, l, m);
    ExactIs(ns', l, m);
    var k :| 0 <= k < |l| && l[k] == x;
    RespellNames(ns, l, name, k);
    if m == name {
      ExactOnly(ns', l, m, k);
    } else if Exact(ns, l, m) == x {
      FoldSame(ns, ns, l, m, name);
      assert forall i :: 0 <= i < |l| ==> ns'[l[i]].name != m;
    } else if Exact(ns, l, m) != NULL {
      var i :| 0 <= i < |l| && l[i] == Exact(ns, l, m);
      ExactOnly(ns', l, m, i);
    }
  }

  lemma RespellNames(ns: Nodes, l: seq<nat>, name: string, k: nat)
    requires NamesOk(ns, l) && k < |l| && forall i :: 0 <= i < |l| ==> ns[l[i]].name != name
    ensures NamesOk(Renamed(ns, l[k], name), l)
    ensures forall i :: 0 <= i < |l| && i != k ==> l[i] != l[k]
  {
  }

  lemma {:induction false} UntouchedFinds(ns: Nodes, after: Nodes, l: seq<nat>, m: string)
    requires GoodList(ns, l) && |ns| <= |after|
    requires forall i :: 0 <= i < |l| ==> after[l[i]].name == ns[l[i]].name && after[l[i]].kind == ns[l[i]].kind
    ensures Exact(after, l, m) == Exact(ns, l, m) && Fold(after, l, m) == Fold(ns, l, m)
  {
    if l != [] {
      UntouchedFinds(ns, after, l[1..], m);
    }
  }

  // ----- The walk -----

  /** mr: the root of what is mounted on a directory */
  function Mr(ns: Nodes, x: nat): (r: nat)
    requires x < |ns|
    ensures r < |ns|
  {
    if In(ns, ns[x].mount) then ns[x].mount else x
  }

  /** Where `..` leads. */
  function UpFrom(ns: Nodes, cur: nat): (r: nat)
    requires cur < |ns|
    ensures r < |ns|
  {
    var p := ns[cur].parent;
    if !In(ns, p) then cur
    else if ns[p].mount == cur then (if In(ns, ns[p].parent) then ns[p].parent else p)
    else p
  }

  ghost predicate GoodKids(ns: Nodes, kids: Kids) {
    |kids| == |ns| && forall d :: 0 <= d < |kids| ==> GoodList(ns, kids[d])
  }

  ghost function Step(ns: Nodes, kids: Kids, cur: nat, part: string): int
    requires GoodKids(ns, kids) && cur < |ns|
  {
    if part == "." then cur
    else if part == ".." then UpFrom(ns, cur)
    else
      var d := Mr(ns, cur);
      if ns[d].kind != Dir then NULL else
        var x := Find(ns, kids[d], part);
        if In(ns, x) then Mr(ns, x) else NULL
  }

  /** The node vfs_lookup reaches from cur. */
  ghost function Walk(ns: Nodes, kids: Kids, cur: int, parts: seq<string>): (r: int)
    requires GoodKids(ns, kids)
    ensures r == NULL || In(ns, r)
    decreases |parts|
  {
    if !In(ns, cur) then NULL
    else if parts == [] then cur
    else Walk(ns, kids, Step(ns, kids, cur, Cut(parts[0])), parts[1..])
  }

  lemma {:induction false} WalkLast(ns: Nodes, kids: Kids, cur: int, pre: seq<string>, part: string)
    requires GoodKids(ns, kids)
    ensures Walk(ns, kids, cur, pre + [part]) ==
            var p := Walk(ns, kids, cur, pre);
            if !In(ns, p) then NULL
            else
              var q := Step(ns, kids, p, Cut(part));
              if In(ns, q) then q else NULL
    decreases |pre|
  {
    if In(ns, cur) && pre != [] {
      WalkLast(ns, kids, Step(ns, kids, cur, Cut(pre[0])), pre[1..], part);
      assert (pre + [part])[1..] == pre[1..] + [part];
    } else if In(ns, cur) {
      assert (pre + [part])[1..] == [];
    }
  }

  /** Tables that differ in spelling only. */
  ghost predicate Respelt(ns: Nodes, after: Nodes, kids: Kids)
    requires GoodKids(ns, kids)
  {
    && |after| == |ns| && (forall x :: 0 <= x < |ns| ==> after[x] == ns[x].(name := after[x].name))
    && forall d, m :: 0 <= d < |kids| ==> Find(after, kids[d], m) == Find(ns, kids[d], m)
  }

  lemma {:induction false} RespeltWalk(ns: Nodes, after: Nodes, kids: Kids, cur: int, parts: seq<string>)
    requires GoodKids(ns, kids) && Respelt(ns, after, kids)
    ensures Walk(after, kids, cur, parts) == Walk(ns, kids, cur, parts)
    decreases |parts|
  {
    if In(ns, cur) && parts != [] {
      assert Step(after, kids, cur, Cut(parts[0])) == Step(ns, kids, cur, Cut(parts[0]));
      RespeltWalk(ns, after, kids, Step(ns, kids, cur, Cut(parts[0])), parts[1..]);
    }
  }

  lemma TreeLists(ns: Nodes, kids: Kids, root: nat)
    requires Tree(ns, kids, root)
    ensures GoodKids(ns, kids)
  {
    forall d | 0 <= d < |kids|
      ensures GoodList(ns, kids[d])
    {
      assert NamesOk(ns, kids[d]);
    }
  }

  /** Nothing is mounted on the directories a walk stops at. */
  lemma StepClear(ns: Nodes, kids: Kids, root: nat, cur: nat, part: string)
    requires Tree(ns, kids, root) && GoodKids(ns, kids) && cur < |ns| && ns[cur].mount == NULL
    ensures var q := Step(ns, kids, cur, part); In(ns, q) ==> ns[q].mount == NULL
  {
    assert PlaceOk(ns, kids, cur);
    var p := ns[cur].parent;
    if part == ".." {
      if In(ns, p) {
        assert MountOk(ns, kids, p) && PlaceOk(ns, kids, p);
        if ns[p].mount != NULL {
          ParentIsDir(ns, kids, root, p);
          assert MountOk(ns, kids, ns[p].parent);
        }
      }
    } else if part != "." && ns[cur].kind == Dir {
      var x := Find(ns, kids[cur], part);
      if In(ns, x) {
        assert MountOk(ns, kids, x);
      }
    }
  }

  lemma {:induction false} WalkClear(ns: Nodes, kids: Kids, root: nat, cur: int, parts: seq<string>)
    requires Tree(ns, kids, root) && GoodKids(ns, kids) && (In(ns, cur) ==> ns[cur].mount == NULL)
    ensures var q := Walk(ns, kids, cur, parts); In(ns, q) ==> ns[q].mount == NULL
    decreases |parts|
  {
    if In(ns, cur) && parts != [] {
      StepClear(ns, kids, root, cur, Cut(parts[0]));
      WalkClear(ns, kids, root, Step(ns, kids, cur, Cut(parts[0])), parts[1..]);
    }
  }

  lemma RootClear(ns: Nodes, kids: Kids, root: nat)
    requires Tree(ns, kids, root)
    ensures root < |ns| && ns[root].mount == NULL
  {
    assert MountOk(ns, kids, root);
  }

  /** When a path leads nowhere but its directory is there, that directory has no child of the last name. */
  lemma FreshName(ns: Nodes, kids: Kids, root: nat, pre: seq<string>, name: string)
    requires Tree(ns, kids, root) && GoodKids(ns, kids) && |name| <= NAME_MAX
    requires var p := Walk(ns, kids, root, pre); In(ns, p) && ns[p].kind == Dir
    requires Walk(ns, kids, root, pre + [name]) == NULL
    ensures var p := Walk(ns, kids, root, pre);
            && ns[p].mount == NULL && (forall i :: 0 <= i < |kids[p]| ==> ns[kids[p][i]].name != name)
            && Fold(ns, kids[p], name) == NULL && name != "." && name != ".."
  {
    var p := Walk(ns, kids, root, pre);
    RootClear(ns, kids, root);
    WalkClear(ns, kids, root, root, pre);
    WalkLast(ns, kids, root, pre, name);
    FindIn(ns, kids[p], name);
    ExactIs(ns, kids[p], name);
  }

  lemma FindIn(ns: Nodes, l: seq<nat>, name: string)
    requires GoodList(ns, l)
    ensures Find(ns, l, name) == NULL || (Find(ns, l, name) in l && In(ns, Find(ns, l, name)))
  {
    ExactIs(ns, l, name);
    if Fold(ns, l, name) != NULL {
      FoldIs(ns, l, name);
    }
  }

  /** When a path leads to something that is no directory, that is the child of its last name. */
  lemma LeafName(ns: Nodes, kids: Kids, root: nat, pre: seq<string>, name: string)
    requires Tree(ns, kids, root) && GoodKids(ns, kids) && |name| <= NAME_MAX
    requires var p := Walk(ns, kids, root, pre); In(ns, p) && ns[p].kind == Dir
    requires var x := Walk(ns, kids, root, pre + [name]); In(ns, x) && ns[x].kind != Dir
    ensures var p, x := Walk(ns, kids, root, pre), Walk(ns, kids, root, pre + [name]);
            ns[p].mount == NULL && x in kids[p] && ns[x].name == name
  {
    var p, x := Walk(ns, kids, root, pre), Walk(ns, kids, root, pre + [name]);
    RootClear(ns, kids, root);
    WalkClear(ns, kids, root, root, pre);
    WalkLast(ns, kids, root, pre, name);
    UpIsDir(ns, kids, root, p);
    var y := Find(ns, kids[p], name);
    FindIn(ns, kids[p], name);
    ExactIs(ns, kids[p], name);
    if Exact(ns, kids[p], name) == NULL && y != NULL {
      FoldIs(ns, kids[p], name);
    }
    if In(ns, y) {
      assert MountOk(ns, kids, y);
    }
  }

  lemma UpIsDir(ns: Nodes, kids: Kids, root: nat, cur: nat)
    requires Tree(ns, kids, root) && cur < |ns| && ns[cur].kind == Dir
    ensures ns[UpFrom(ns, cur)].kind == Dir
  {
    assert PlaceOk(ns, kids, cur);
    if ns[cur].parent != NULL {
      ParentIsDir(ns, kids, root, cur);
      assert PlaceOk(ns, kids, ns[cur].parent);
      if ns[ns[cur].parent].parent != NULL {
        ParentIsDir(ns, kids, root, ns[cur].parent);
      }
    }
  }

  /** What a walk finds that is no directory is an entry of one. */
  lemma StepEntry(ns: Nodes, kids: Kids, root: nat, cur: nat, part: string)
    requires Tree(ns, kids, root) && GoodKids(ns, kids) && cur < |ns| && (ns[cur].kind == Dir || ns[cur].parent != NULL)
    ensures var q := Step(ns, kids, cur, part); In(ns, q) && ns[q].kind != Dir ==> ns[q].parent != NULL
  {
    if part == ".." {
      if ns[cur].kind == Dir {
        UpIsDir(ns, kids, root, cur);
      } else {
        ParentIsDir(ns, kids, root, cur);
        UpIsDir(ns, kids, root, ns[cur].parent);
        assert MountOk(ns, kids, ns[cur].parent);
      }
    } else if part != "." {
      var d := Mr(ns, cur);
      if ns[d].kind == Dir {
        var x := Find(ns, kids[d], part);
        FindIn(ns, kids[d], part);
        if In(ns, x) {
          var i :| 0 <= i < |kids[d]| && kids[d][i] == x;
          assert ListOk(ns, kids, d);
          assert KidOk(ns, kids[d], d, i);
          assert MountOk(ns, kids, x);
        }
      }
    }
  }

  lemma {:induction false} WalkEntry(ns: Nodes, kids: Kids, root: nat, cur: int, parts: seq<string>)
    requires Tree(ns, kids, root) && GoodKids(ns, kids)
    requires (In(ns, cur) ==> ns[cur].kind == Dir || ns[cur].parent != NULL)
    ensures var q := Walk(ns, kids, cur, parts); In(ns, q) ==> ns[q].kind == Dir || ns[q].parent != NULL
    decreases |parts|
  {
    if In(ns, cur) && parts != [] {
      StepEntry(ns, kids, root, cur, Cut(parts[0]));
      WalkEntry(ns, kids, root, Step(ns, kids, cur, Cut(parts[0])), parts[1..]);
    }
  }

  // ----- Up and down again -----

  /** A step to a child, or to what is mounted on it, and `..` leads back. */
  lemma StepUp(ns: Nodes, kids: Kids, root: nat, p: nat, part: string)
    requires Tree(ns, kids, root) && GoodKids(ns, kids) && p < |ns| && ns[p].mount == NULL
    requires part != "." && part != ".." && In(ns, Step(ns, kids, p, part))
    ensures Step(ns, kids, Step(ns, kids, p, part), "..") == p
  {
    FindIn(ns, kids[p], part);
    var x := Find(ns, kids[p], part);
    var i :| 0 <= i < |kids[p]| && kids[p][i] == x;
    assert ListOk(ns, kids, p);
    assert KidOk(ns, kids[p], p, i);
    assert MountOk(ns, kids, x);
  }

  /** Down one component and up again, through a mount point too, is where one was. */
  lemma WalkUp(ns: Nodes, kids: Kids, root: nat, path: seq<string>, part: string)
    requires Tree(ns, kids, root) && GoodKids(ns, kids) && Cut(part) != "." && Cut(part) != ".."
    requires In(ns, Walk(ns, kids, root, path + [part]))
    ensures Walk(ns, kids, root, path + [part, ".."]) == Walk(ns, kids, root, path)
  {
    hide Tree, Step;
    RootClear(ns, kids, root);
    WalkClear(ns, kids, root, root, path);
    WalkLast(ns, kids, root, path, part);
    WalkLast(ns, kids, root, path + [part], "..");
    assert path + [part] + [".."] == path + [part, ".."];
    StepUp(ns, kids, root, Walk(ns, kids, root, path), Cut(part));
  }

  /** `..` at the root stays there, and `.` stays anywhere. */
  lemma WalkDots(ns: Nodes, kids: Kids, root: nat, path: seq<string>)
    requires Tree(ns, kids, root) && GoodKids(ns, kids)
    ensures Walk(ns, kids, root, [".."]) == root
    ensures Walk(ns, kids, root, path + ["."]) == Walk(ns, kids, root, path)
  {
    WalkLast(ns, kids, root, path, ".");
    WalkLast(ns, kids, root, [], "..");
    assert [] + [".."] == [".."];
  }

  /** The names on the way from the root down to x; a mount adds none. */
  ghost function PathTo(ns: Nodes, rank: seq<nat>, x: nat): seq<string>
    requires Ranked(ns, rank) && x < |ns|
    decreases rank[x]
  {
    assert RankOk(ns, rank, x);
    var p := ns[x].parent;
    if p == NULL then [] else if ns[p].mount == x then PathTo(ns, rank, p) else PathTo(ns, rank, p) + [ns[x].name]
  }

  /** The names on the way to a node lead to it, or to what is mounted on it. */
  lemma {:induction false} PathLeads(ns: Nodes, kids: Kids, root: nat, rank: seq<nat>, x: nat)
    requires Tree(ns, kids, root) && Ranked(ns, rank) && GoodKids(ns, kids) && x < |ns| && Below(ns, rank, x, root)
    requires Plain(PathTo(ns, rank, x)) && Short(PathTo(ns, rank, x))
    ensures Walk(ns, kids, root, PathTo(ns, rank, x)) == Mr(ns, x)
    decreases rank[x]
  {
    RootClear(ns, kids, root);
    assert RankOk(ns, rank, x) && PlaceOk(ns, kids, x) && MountOk(ns, kids, x);
    var p := ns[x].parent;
    if x != root {
      assert RootOk(ns, root);
      var pre := PathTo(ns, rank, p);
      assert MountOk(ns, kids, p);
      if ns[p].mount == x {
        PathLeads(ns, kids, root, rank, p);
      } else {
        LastOf(pre, ns[x].name);
        PathLeads(ns, kids, root, rank, p);
        WalkLast(ns, kids, root, pre, ns[x].name);
        ChildFound(ns, kids, root, p, x);
      }
    }
  }

  predicate Short(path: seq<string>) {
    forall i :: 0 <= i < |path| ==> |path[i]| <= NAME_MAX
  }

  lemma LastOf(pre: seq<string>, name: string)
    requires Plain(pre + [name]) && Short(pre + [name])
    ensures Plain(pre) && Short(pre) && name != "." && name != ".." && |name| <= NAME_MAX
  {
    var path := pre + [name];
    assert path[|pre|] == name;
    assert forall i :: 0 <= i < |pre| ==> pre[i] == path[i];
  }

  /** An entry of a directory is found under its name. */
  lemma ChildFound(ns: Nodes, kids: Kids, root: nat, p: nat, x: nat)
    requires Tree(ns, kids, root) && GoodKids(ns, kids) && p < |ns| && x < |ns| && x in kids[p]
    ensures Find(ns, kids[p], ns[x].name) == x && ns[p].kind == Dir
  {
    assert ListOk(ns, kids, p) && NamesOk(ns, kids[p]);
    var l, name := kids[p], ns[x].name;
    ExactIs(ns, l, name);
    var i :| 0 <= i < |l| && l[i] == x;
    var y := Exact(ns, l, name);
    var j :| 0 <= j < |l| && l[j] == y;
  }

  /** Only the first 31 characters of a component are looked at. */
  lemma LongNames(ns: Nodes, kids: Kids, cur: int, pre: seq<string>, a: string, b: string)
    requires GoodKids(ns, kids) && |a| >= 31 && |b| >= 31 && a[..31] == b[..31]
    ensures Walk(ns, kids, cur, pre + [a]) == Walk(ns, kids, cur, pre + [b])
  {
    WalkLast(ns, kids, cur, pre, a);
    WalkLast(ns, kids, cur, pre, b);
    assert |a| == 31 ==> a[..31] == a;
    assert |b| == 31 ==> b[..31] == b;
  }

  /** Two names are the same up to case when they differ in ASCII letters at most, and there by 32. */
  lemma CaseOnly(a: string, b: string)
    ensures Lower(a) == Lower(b) <==> |a| == |b| && forall i :: 0 <= i < |a| ==> SameLetter(a[i], b[i])
  {
    if |a| == |b| && forall i :: 0 <= i < |a| ==> SameLetter(a[i], b[i]) {
      forall i | 0 <= i < |a|
        ensures Lower(a)[i] == Lower(b)[i]
      {
        assert SameLetter(a[i], b[i]);
      }
    }
    if Lower(a) == Lower(b) {
      forall i | 0 <= i < |a|
        ensures SameLetter(a[i], b[i])
      {
        assert Lower(a)[i] == Lower(b)[i];
      }
    }
  }

  predicate SameLetter(a: char, b: char) {
    a == b || ('A' <= a <= 'Z' && b as int == a as int + 32) || ('A' <= b <= 'Z' && a as int == b as int + 32)
  }

  // ----- Walking down -----

  /** A path that only goes down. */
  predicate Plain(path: seq<string>) {
    forall i :: 0 <= i < |path| ==> path[i] != "." && path[i] != ".."
  }

  lemma {:induction false} BelowTrans(ns: Nodes, rank: seq<nat>, c: nat, b: nat, a: nat)
    requires Ranked(ns, rank) && c < |ns| && b < |ns| && Below(ns, rank, c, b) && Below(ns, rank, b, a)
    ensures Below(ns, rank, c, a)
    decreases rank[c]
  {
    assert RankOk(ns, rank, c);
    if c != b {
      BelowTrans(ns, rank, ns[c].parent, b, a);
    }
  }

  /** A step down leads to a child, or to what is mounted on it. */
  lemma PlainStep(ns: Nodes, kids: Kids, root: nat, rank: seq<nat>, cur: nat, part: string) returns (x: nat)
    requires Tree(ns, kids, root) && Ranked(ns, rank) && GoodKids(ns, kids) && cur < |ns| && ns[cur].mount == NULL
    requires part != "." && part != ".." && In(ns, Step(ns, kids, cur, part))
    ensures x < |ns| && x == Find(ns, kids[cur], part) && x in kids[cur] && Step(ns, kids, cur, part) == Mr(ns, x)
    ensures Below(ns, rank, x, cur) && Below(ns, rank, Mr(ns, x), x) && rank[cur] < rank[Mr(ns, x)]
    ensures ns[Mr(ns, x)].mount == NULL
  {
    FindIn(ns, kids[cur], part);
    x := Find(ns, kids[cur], part);
    var i :| 0 <= i < |kids[cur]| && kids[cur][i] == x;
    assert ListOk(ns, kids, cur);
    assert KidOk(ns, kids[cur], cur, i);
    assert RankOk(ns, rank, x) && RankOk(ns, rank, Mr(ns, x)) && MountOk(ns, kids, x);
    assert Below(ns, rank, cur, cur) && Below(ns, rank, x, x);
  }

  /** Down a path, ranks rise. */
  lemma {:induction false} PlainBelow(ns: Nodes, kids: Kids, root: nat, rank: seq<nat>, cur: nat, path: seq<string>)
    requires Tree(ns, kids, root) && Ranked(ns, rank) && GoodKids(ns, kids) && cur < |ns| && ns[cur].mount == NULL
    requires Plain(path) && In(ns, Walk(ns, kids, cur, path))
    ensures Below(ns, rank, Walk(ns, kids, cur, path), cur)
    ensures path != [] ==> rank[cur] < rank[Walk(ns, kids, cur, path)]
    decreases |path|
  {
    hide Tree, Ranked, Step;
    RankedSize(ns, rank);
    if path == [] {
      SelfBelow(ns, rank, cur);
    } else {
      var t, part := Walk(ns, kids, cur, path), Cut(path[0]);
      var x := PlainStep(ns, kids, root, rank, cur, part);
      PlainBelow(ns, kids, root, rank, Mr(ns, x), path[1..]);
      BelowTrans(ns, rank, t, Mr(ns, x), x);
      BelowTrans(ns, rank, t, x, cur);
    }
  }

  lemma RankedSize(ns: Nodes, rank: seq<nat>)
    requires Ranked(ns, rank)
    ensures |rank| == |ns|
  {
  }

  lemma SelfBelow(ns: Nodes, rank: seq<nat>, c: nat)
    requires Ranked(ns, rank) && c < |ns|
    ensures Below(ns, rank, c, c)
  {
  }

  lemma {:induction false} FindRemoved(ns: Nodes, l: seq<nat>, i: nat, m: string)
    requires GoodList(ns, l) && i < |l|
    ensures Exact(ns, l, m) != l[i] ==> Exact(ns, l[..i] + l[i + 1..], m) == Exact(ns, l, m)
    ensures Fold(ns, l, m) != l[i] ==> Fold(ns, l[..i] + l[i + 1..], m) == Fold(ns, l, m)
  {
    var less := l[..i] + l[i + 1..];
    if i == 0 {
      assert less == l[1..];
    } else {
      FindRemoved(ns, l[1..], i - 1, m);
      assert less[0] == l[0] && less[1..] == l[1..][..i - 1] + l[1..][i..];
    }
  }

  /** Nothing a walk down looks at has changed but the lists. */
  ghost predicate SameSigns(ns: Nodes, after: Nodes) {
    && |after| == |ns|
    && forall c :: 0 <= c < |ns| ==>
         after[c].name == ns[c].name && after[c].kind == ns[c].kind && after[c].mount == ns[c].mount
  }

  /** Taking out an entry that is not on the way. */
  lemma RemovedStep(ns: Nodes, kids: Kids, after: Nodes, kids': Kids, d: nat, i: nat, cur: nat, part: string)
    requires GoodKids(ns, kids) && GoodKids(after, kids') && SameSigns(ns, after) && d < |kids| && i < |kids[d]|
    requires kids' == KidRemoved(kids, d, i)
    requires cur < |ns| && ns[cur].mount == NULL && part != "." && part != ".."
    requires Find(ns, kids[cur], part) != kids[d][i]
    requires In(ns, Step(ns, kids, cur, part))
    ensures Step(after, kids', cur, part) == Step(ns, kids, cur, part)
  {
    UntouchedFinds(ns, after, kids[cur], part);
    if cur == d {
      ExactOrFold(ns, kids[d], i, part);
      FindRemoved(after, kids[d], i, part);
    }
  }

  /** When the look-up does not find entry i, neither does what it is made of in its turn. */
  lemma ExactOrFold(ns: Nodes, l: seq<nat>, i: nat, m: string)
    requires GoodList(ns, l) && i < |l| && Find(ns, l, m) != l[i]
    ensures Exact(ns, l, m) != l[i] && (Exact(ns, l, m) == NULL ==> Fold(ns, l, m) != l[i])
  {
  }

  lemma {:induction false} RemovedWalk(ns: Nodes, kids: Kids, root: nat, rank: seq<nat>, after: Nodes, kids': Kids,
                                       d: nat, i: nat, cur: nat, path: seq<string>)
    requires Tree(ns, kids, root) && Ranked(ns, rank) && GoodKids(ns, kids) && GoodKids(after, kids')
    requires SameSigns(ns, after)
    requires d < |kids| && i < |kids[d]| && kids' == KidRemoved(kids, d, i) && cur < |ns| && ns[cur].mount == NULL
    requires Plain(path) && In(ns, Walk(ns, kids, cur, path)) && !Below(ns, rank, Walk(ns, kids, cur, path), kids[d][i])
    ensures Walk(after, kids', cur, path) == Walk(ns, kids, cur, path)
    decreases |path|
  {
    hide Tree, Ranked, Step, Below;
    if path != [] {
      var t, part := Walk(ns, kids, cur, path), Cut(path[0]);
      var x := PlainStep(ns, kids, root, rank, cur, part);
      PlainBelow(ns, kids, root, rank, Mr(ns, x), path[1..]);
      BelowTrans(ns, rank, t, Mr(ns, x), x);
      RemovedStep(ns, kids, after, kids', d, i, cur, part);
      RemovedWalk(ns, kids, root, rank, after, kids', d, i, Mr(ns, x), path[1..]);
    }
  }

  /** A new first child of p is not met on the way down to p. */
  lemma {:induction false} AttachedWalk(ns: Nodes, kids: Kids, root: nat, rank: seq<nat>, after: Nodes, kids': Kids,
                                        p: nat, n: nat, cur: nat, path: seq<string>)
    requires Tree(ns, kids, root) && Ranked(ns, rank) && GoodKids(ns, kids) && GoodKids(after, kids')
    requires SameSigns(ns, after)
    requires p < |ns| && kids' == KidAdded(kids, p, n) && cur < |ns| && ns[cur].mount == NULL && Plain(path)
    requires Walk(ns, kids, cur, path) == p
    ensures Walk(after, kids', cur, path) == p
    decreases |path|
  {
    hide Tree, Ranked, Below;
    if path != [] {
      var part := Cut(path[0]);
      PlainBelow(ns, kids, root, rank, cur, path);
      var x := PlainStep(ns, kids, root, rank, cur, part);
      UntouchedFinds(ns, after, kids[cur], part);
      AttachedWalk(ns, kids, root, rank, after, kids', p, n, Mr(ns, x), path[1..]);
    }
  }

  /** A new first child whose name nothing in the list answers to hides none of the others. */
  lemma AttachedFind(ns: Nodes, after: Nodes, l: seq<nat>, n: nat, m: string)
    requires GoodList(ns, l) && n < |ns| && |after| == |ns|
    requires after[n].name == ns[n].name && after[n].kind == ns[n].kind
    requires forall c :: 0 <= c < |ns| ==> after[c].name == ns[c].name && after[c].kind == ns[c].kind
    requires Find(ns, l, ns[n].name) == NULL && Find(ns, l, m) != NULL
    ensures GoodList(after, [n] + l) && Find(after, [n] + l, m) == Find(ns, l, m)
  {
    UntouchedFinds(ns, after, l, m);
    assert ([n] + l)[1..] == l;
    if Lower(m) == Lower(ns[n].name) {
      FoldSame(ns, ns, l, m, ns[n].name);
    }
  }

  /** So every path down that led somewhere still leads there. */
  lemma {:induction false} AttachedPaths(ns: Nodes, kids: Kids, root: nat, rank: seq<nat>, after: Nodes, kids': Kids,
                                         p: nat, n: nat, cur: nat, path: seq<string>)
    requires Tree(ns, kids, root) && Ranked(ns, rank) && GoodKids(ns, kids) && GoodKids(after, kids')
    requires SameSigns(ns, after) && p < |ns| && n < |ns| && kids' == KidAdded(kids, p, n)
    requires Find(ns, kids[p], ns[n].name) == NULL
    requires cur < |ns| && ns[cur].mount == NULL && Plain(path) && In(ns, Walk(ns, kids, cur, path))
    ensures Walk(after, kids', cur, path) == Walk(ns, kids, cur, path)
    decreases |path|
  {
    hide Tree, Ranked, Below;
    if path != [] {
      var part := Cut(path[0]);
      var x := PlainStep(ns, kids, root, rank, cur, part);
      UntouchedFinds(ns, after, kids[cur], part);
      if cur == p {
        AttachedFind(ns, after, kids[p], n, part);
      }
      AttachedPaths(ns, kids, root, rank, after, kids', p, n, Mr(ns, x), path[1..]);
    }
  }
}
