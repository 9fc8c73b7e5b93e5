/**
 Reading files of a FAT32 volume in src/kernel/main.rs: the cluster chain of a file, as the FAT data
 structure section of the Microsoft FAT32 File System Specification 1.03 lays it out, and reads of
 any byte range along it.
 */
module Fat {
  import opened Common

  /** First value that is no usable cluster, and first end-of-chain mark. */
  const BAD_CLUSTER := 0x0FFF_FFF7
  const END_OF_CHAIN := 0x0FFF_FFF8

  datatype Volume = Volume(
    image: seq<byte>, bytesPerSector: nat, sectorsPerCluster: nat, reservedSectors: nat, fatSize: nat, dataStart: nat)

  function ClusterSize(v: Volume): nat {
    v.sectorsPerCluster * v.bytesPerSector
  }

  /** fat_cluster_valid */
  predicate ClusterValid(v: Volume, c: nat) {
    && v.bytesPerSector != 0 && v.sectorsPerCluster != 0 && ClusterSize(v) != 0
    && 2 <= c < BAD_CLUSTER
    && c - 2 < (if |v.image| > v.dataStart then |v.image| - v.dataStart else 0) / ClusterSize(v)
  }

  /** cluster_to_ptr, for a valid cluster */
  function ClusterStart(v: Volume, c: nat): nat
    requires c >= 2
  {
    v.dataStart + (c - 2) * ClusterSize(v)
  }

  /** A valid cluster lies wholly in the image. */
  lemma ClusterInside(v: Volume, c: nat)
    requires ClusterValid(v, c)
    ensures ClusterStart(v, c) + ClusterSize(v) <= |v.image|
  {
    var room, cs := |v.image| - v.dataStart, ClusterSize(v);
    assert room > 0 by {
      assert 0 / cs == 0;
    }
    Multiples(c - 2, room / cs, cs);
    assert room / cs * cs <= room by {
      assert room == room / cs * cs + room % cs;
    }
  }

  function Word(image: seq<byte>, at: nat): nat
    requires at + 4 <= |image|
  {
    image[at] as nat + 0x100 * image[at + 1] as nat + 0x1_0000 * image[at + 2] as nat
      + 0x100_0000 * image[at + 3] as nat
  }

  /** next_cluster */
  function NextCluster(v: Volume, c: nat): (n: nat)
    ensures n < 0x1000_0000
  {
    if v.bytesPerSector == 0 then 0x0FFF_FFFF else
      var at := v.reservedSectors * v.bytesPerSector + c * 4;
      if c * 4 + 4 > v.fatSize * v.bytesPerSector || at + 4 > |v.image| then 0x0FFF_FFFF
      else Word(v.image, at) % 0x1000_0000
  }

  /** All clusters lie on the volume. */
  ghost predicate OnVolume(v: Volume, chain: seq<nat>) {
    forall i :: 0 <= i < |chain| ==> ClusterValid(v, chain[i])
  }

  /** Clusters that follow each other in the table, all of them on the volume. */
  ghost predicate Chain(v: Volume, first: nat, chain: seq<nat>) {
    && chain != [] && chain[0] == first && OnVolume(v, chain)
    && forall i :: 0 <= i < |chain| - 1 ==> NextCluster(v, chain[i]) == chain[i + 1]
  }

  /** The chain ends there. */
  predicate Ends(v: Volume, chain: seq<nat>)
    requires chain != []
  {
    NextCluster(v, chain[|chain| - 1]) >= END_OF_CHAIN
  }

  function ClusterBytes(v: Volume, c: nat): (s: seq<byte>)
    requires ClusterValid(v, c)
    ensures |s| == ClusterSize(v)
  {
    ClusterInside(v, c);
    v.image[ClusterStart(v, c)..ClusterStart(v, c) + ClusterSize(v)]
  }

  /** The bytes of all clusters of a chain, one after another. */
  ghost function ChainBytes(v: Volume, chain: seq<nat>): (s: seq<byte>)
    requires OnVolume(v, chain)
    ensures |s| == |chain| * ClusterSize(v)
  {
    if chain == [] then [] else
      var n := |chain| - 1;
      assert |chain| * ClusterSize(v) == n * ClusterSize(v) + ClusterSize(v);
      ChainBytes(v, chain[..n]) + ClusterBytes(v, chain[n])
  }

  /** The part of a file of `size` bytes that a read of len bytes at offset asks for, as far as s goes. */
  function Part(s: seq<byte>, size: nat, offset: nat, len: nat): (r: seq<byte>) {
    if offset >= size || offset >= |s| then [] else s[offset..Min(Min(offset + len, size), |s|)]
  }

  /** Two reads that meet are one read. */
  lemma AdjacentReads(s: seq<byte>, size: nat, offset: nat, a: nat, b: nat)
    ensures Part(s, size, offset, a) + Part(s, size, offset + a, b) == Part(s, size, offset, a + b)
  {
  }

  /** A read runs into a cluster that is not on the volume, or ends with these bytes. */
  datatype Result = Fault | Bytes(data: seq<byte>)

  /** The clusters met by following the table from `first`, n at most, up to an end mark. */
  function Visited(v: Volume, first: nat, n: nat): (chain: seq<nat>)
    ensures |chain| <= n && (n > 0 ==> chain != [] && chain[0] == first)
    decreases n
  {
    if n == 0 then []
    else if n == 1 || NextCluster(v, first) >= END_OF_CHAIN then [first]
    else [first] + Visited(v, NextCluster(v, first), n - 1)
  }

  /** Each cluster met leads to the next, and the last to an end mark unless n were met. */
  lemma {:induction false} VisitedNext(v: Volume, first: nat, n: nat, i: nat)
    requires i < |Visited(v, first, n)|
    ensures var chain := Visited(v, first, n);
            && (i + 1 < |chain| ==> NextCluster(v, chain[i]) == chain[i + 1] < END_OF_CHAIN)
            && (i + 1 == |chain| < n ==> NextCluster(v, chain[i]) >= END_OF_CHAIN)
    decreases n
  {
    hide NextCluster;
    if n > 1 && NextCluster(v, first) < END_OF_CHAIN && i > 0 {
      VisitedNext(v, NextCluster(v, first), n - 1, i - 1);
    }
  }

  /** On a chain of the volume these are the clusters of the chain. */
  lemma {:induction false} VisitedChain(v: Volume, first: nat, chain: seq<nat>, n: nat)
    requires Chain(v, first, chain) && (n <= |chain| || Ends(v, chain))
    ensures Visited(v, first, n) == chain[..Min(n, |chain|)]
    decreases n
  {
    hide NextCluster, Chain;
    ChainTail(v, first, chain);
    if n > 1 && |chain| > 1 {
      var rest := chain[1..];
      VisitedChain(v, chain[1], rest, n - 1);
      assert [first] + rest[..Min(n - 1, |rest|)] == chain[..Min(n, |chain|)];
    }
  }

  lemma ChainTail(v: Volume, first: nat, chain: seq<nat>)
    requires Chain(v, first, chain)
    ensures chain != [] && chain[0] == first && OnVolume(v, chain)
    ensures |chain| > 1 ==> NextCluster(v, first) == chain[1] < END_OF_CHAIN && Chain(v, chain[1], chain[1..])
    ensures |chain| > 1 && Ends(v, chain) ==> Ends(v, chain[1..])
  {
    hide NextCluster;
    if |chain| > 1 {
      assert ClusterValid(v, chain[1]);
      var rest := chain[1..];
      assert forall i :: 0 <= i < |rest| ==> rest[i] == chain[i + 1];
    }
  }

  /** What the copy loop gathers from the clusters of a chain, from byte `at` of the first on. */
  function Gather(v: Volume, chain: seq<nat>, at: nat, want: nat): (r: Result)
    requires at <= ClusterSize(v)
    decreases |chain|
  {
    if want == 0 || chain == [] then Bytes([])
    else if !ClusterValid(v, chain[0]) then Fault
    else
      var n := Min(ClusterSize(v) - at, want);
      match Gather(v, chain[1..], 0, want - n)
      case Fault => Fault
      case Bytes(rest) => Bytes(ClusterBytes(v, chain[0])[at..at + n] + rest)
  }

  lemma {:induction false} ChainFront(v: Volume, chain: seq<nat>)
    requires chain != [] && OnVolume(v, chain)
    ensures ChainBytes(v, chain) == ClusterBytes(v, chain[0]) + ChainBytes(v, chain[1..])
  {
    var n := |chain| - 1;
    if n > 0 {
      ChainFront(v, chain[..n]);
      assert chain[..n][1..] == chain[1..][..n - 1];
      assert chain[1..][n - 1] == chain[n];
    }
  }

  /** On the volume, gathering is slicing the concatenated clusters. */
  lemma {:induction false} GatherSlice(v: Volume, chain: seq<nat>, at: nat, want: nat)
    requires OnVolume(v, chain) && at <= ClusterSize(v) && (chain == [] ==> at == 0)
    ensures at <= |ChainBytes(v, chain)|
    ensures Gather(v, chain, at, want) == Bytes(ChainBytes(v, chain)[at..Min(at + want, |ChainBytes(v, chain)|)])
    decreases |chain|
  {
    hide ClusterSize, ClusterBytes, ClusterValid, ChainBytes, Gather;
    if chain == [] || want == 0 {
      GatherNone(v, chain, at, want);
      if chain != [] {
        ChainFront(v, chain);
      }
    } else {
      ChainFront(v, chain);
      var c, rest := ClusterBytes(v, chain[0]), ChainBytes(v, chain[1..]);
      var n := Min(ClusterSize(v) - at, want);
      GatherSlice(v, chain[1..], 0, want - n);
      GatherOne(v, chain, at, want);
      Cut(c, rest, at, want);
    }
  }

  lemma GatherNone(v: Volume, chain: seq<nat>, at: nat, want: nat)
    requires at <= ClusterSize(v) && (chain == [] || want == 0)
    ensures Gather(v, chain, at, want) == Bytes([]) && ChainBytes(v, []) == []
  {
  }

  lemma GatherOne(v: Volume, chain: seq<nat>, at: nat, want: nat)
    requires at <= ClusterSize(v) && chain != [] && want > 0 && OnVolume(v, chain)
    requires Gather(v, chain[1..], 0, want - Min(ClusterSize(v) - at, want)).Bytes?
    ensures var n := Min(ClusterSize(v) - at, want);
            && |ClusterBytes(v, chain[0])| == ClusterSize(v)
            && Gather(v, chain, at, want) ==
                 Bytes(ClusterBytes(v, chain[0])[at..at + n] + Gather(v, chain[1..], 0, want - n).data)
  {
  }

  lemma Cut(c: seq<byte>, rest: seq<byte>, at: nat, want: nat)
    requires at <= |c|
    ensures var n := Min(|c| - at, want);
            (c + rest)[at..Min(at + want, |c + rest|)] == c[at..at + n] + rest[..Min(want - n, |rest|)]
  {
  }

  /** A cluster off the volume faults when bytes of it are wanted. */
  lemma {:induction false} GatherFaults(v: Volume, chain: seq<nat>, at: nat, want: nat)
    requires 0 < ClusterSize(v) && at < ClusterSize(v) && want > 0 && !OnVolume(v, chain)
    requires (|chain| - 1) * ClusterSize(v) < at + want
    ensures Gather(v, chain, at, want) == Fault
    decreases |chain|
  {
    var cs := ClusterSize(v);
    if ClusterValid(v, chain[0]) {
      var i :| 0 <= i < |chain| && !ClusterValid(v, chain[i]);
      assert chain[1..][i - 1] == chain[i];
      assert (|chain| - 1) * cs == (|chain| - 2) * cs + cs;
      assert (|chain| - 2) * cs >= 0 by {
        Multiples(0, |chain| - 1, cs);
      }
      GatherFaults(v, chain[1..], 0, want - (cs - at));
    }
  }

  /** The concatenation up to cluster s, and from there on. */
  lemma {:induction false} ChainSplit(v: Volume, chain: seq<nat>, s: nat)
    requires OnVolume(v, chain) && s <= |chain|
    ensures ChainBytes(v, chain) == ChainBytes(v, chain[..s]) + ChainBytes(v, chain[s..])
    decreases |chain|
  {
    var n := |chain| - 1;
    if s == |chain| {
      assert chain[..s] == chain;
    } else {
      ChainSplit(v, chain[..n], s);
      assert chain[..n][..s] == chain[..s];
      assert chain[..n][s..] == chain[s..][..|chain[s..]| - 1];
    }
  }

  /** The cluster of a byte, and its place there. */
  lemma Division(x: nat, cs: nat, n: nat)
    requires cs > 0
    ensures x == x / cs * cs + x % cs && x % cs < cs
    ensures x / cs < n <==> x < n * cs
  {
    assert x == x / cs * cs + x % cs;
    if x / cs < n {
      Multiples(x / cs, n, cs);
    } else if n < x / cs {
      Multiples(n, x / cs, cs);
    }
  }

  /** The loop that skips clusters. */
  method Skip(v: Volume, first: nat, skip: nat, ghost n: nat) returns (ok: bool, cur: nat)
    requires skip < n
    ensures ok <==> skip < |Visited(v, first, n)|
    ensures ok ==> cur == Visited(v, first, n)[skip]
  {
    hide NextCluster, Visited;
    ghost var chain := Visited(v, first, n);
    cur := first;
    var left := skip;
    while left > 0
      invariant 0 <= left <= skip && skip - left < |chain| && cur == chain[skip - left]
    {
      VisitedNext(v, first, n, skip - left);
      var next := NextCluster(v, cur);
      if next >= END_OF_CHAIN {
        return false, cur;
      }
      cur, left := next, left - 1;
    }
    return true, cur;
  }

  /** The loop that copies, from byte `at` of cluster s of those met. */
  method CopyOut(v: Volume, cluster: nat, at: nat, want: nat, ghost first: nat, ghost n: nat,
                 ghost s: nat) returns (r: Result)
    requires at < ClusterSize(v) && s < |Visited(v, first, n)| && cluster == Visited(v, first, n)[s] && want > 0
    requires at + want <= (n - s) * ClusterSize(v)
    ensures r == Gather(v, Visited(v, first, n)[s..], at, want)
  {
    hide NextCluster, Visited, ClusterValid, ClusterBytes, ClusterSize, Gather;
    ghost var chain := Visited(v, first, n);
    var cs := ClusterSize(v);
    ghost var i: nat, left := s, (n - s) * cs;
    var cur, data := cluster, [];
    var inCluster: nat := at;
    while |data| < want
      invariant i < |chain| && cur == chain[i] && inCluster < cs && |data| <= want
      invariant left == (n - i) * cs && (|data| < want ==> inCluster + (want - |data|) <= left)
      invariant Gather(v, chain[s..], at, want) == Prepended(data, Gather(v, chain[i..], inCluster, want - |data|))
      decreases want - |data|
    {
      GatherEnds(v, chain[i..], inCluster, want - |data|);
      if !ClusterValid(v, cur) {
        return Fault;
      }
      var k := Min(cs - inCluster, want - |data|);
      var b := Piece(v, cur, inCluster, k);
      GatherMore(v, chain, i, inCluster, want - |data|, data);
      data := data + b;
      inCluster := 0;
      if |data| < want {
        VisitedNext(v, first, n, i);
        var next := NextCluster(v, cur);
        if next >= END_OF_CHAIN {
          assert chain[i + 1..] == [];
          GatherEnds(v, [], 0, want - |data|);
          return Bytes(data);
        }
        MoreLeft(n, i, cs, left, want - |data|);
        cur, i, left := next, i + 1, left - cs;
      } else {
        GatherEnds(v, chain[i + 1..], 0, 0);
        return Bytes(data);
      }
    }
    GatherEnds(v, chain[i..], inCluster, 0);
    return Bytes(data);
  }

  /** Where gathering stops. */
  lemma GatherEnds(v: Volume, chain: seq<nat>, at: nat, want: nat)
    requires at <= ClusterSize(v)
    ensures want == 0 || chain == [] ==> Gather(v, chain, at, want) == Bytes([])
    ensures want > 0 && chain != [] && !ClusterValid(v, chain[0]) ==> Gather(v, chain, at, want) == Fault
  {
  }

  function Prepended(data: seq<byte>, r: Result): Result {
    match r
    case Fault => Fault
    case Bytes(rest) => Bytes(data + rest)
  }

  /** One turn of the copy loop. */
  lemma GatherMore(v: Volume, chain: seq<nat>, i: nat, at: nat, want: nat, data: seq<byte>)
    requires i < |chain| && at < ClusterSize(v) && want > 0 && ClusterValid(v, chain[i])
    ensures var k := Min(ClusterSize(v) - at, want);
            Prepended(data, Gather(v, chain[i..], at, want)) ==
            Prepended(data + ClusterBytes(v, chain[i])[at..at + k], Gather(v, chain[i + 1..], 0, want - k))
  {
    assert chain[i..][1..] == chain[i + 1..];
    var k := Min(ClusterSize(v) - at, want);
    match Gather(v, chain[i + 1..], 0, want - k) {
      case Fault =>
      case Bytes(rest) =>
        assert data + (ClusterBytes(v, chain[i])[at..at + k] + rest) ==
                 data + ClusterBytes(v, chain[i])[at..at + k] + rest;
    }
  }

  /** As long as bytes are wanted, clusters are left. */
  lemma MoreLeft(n: nat, i: nat, cs: nat, left: int, want: nat)
    requires i < n && left == (n - i) * cs && 0 < want <= left - cs
    ensures i + 1 < n && left - cs == (n - (i + 1)) * cs
  {
    assert (n - i) * cs == (n - i - 1) * cs + cs;
  }

  /** A piece of a cluster, copied out of the image. */
  method Piece(v: Volume, c: nat, at: nat, n: nat) returns (b: seq<byte>)
    requires ClusterValid(v, c) && at + n <= ClusterSize(v)
    ensures b == ClusterBytes(v, c)[at..at + n]
  {
    ClusterInside(v, c);
    var src := ClusterStart(v, c) + at;
    b := v.image[src..src + n];
  }

  /** The number of clusters a read of `want` bytes at offset reaches into. */
  function Reach(cs: nat, offset: nat, want: nat): nat
    requires cs > 0 && want > 0
  {
    (offset + want - 1) / cs + 1
  }

  /** A cluster within reach, and no byte wanted beyond. */
  lemma ReachBound(cs: nat, offset: nat, want: nat)
    requires cs > 0 && want > 0
    ensures var n, q, m := Reach(cs, offset, want), offset / cs, offset % cs;
            && q < n && m < cs && offset == q * cs + m && offset + want <= n * cs
            && m + want <= (n - q) * cs && (n - q - 1) * cs < m + want
  {
    var n, q, m := Reach(cs, offset, want), offset / cs, offset % cs;
    Division(offset, cs, n);
    Division(offset + want - 1, cs, n);
    assert offset < n * cs;
    assert (n - q) * cs == n * cs - q * cs;
    assert (n - q - 1) * cs == (n - 1) * cs - q * cs;
  }

  /** What a read of want bytes at offset gives: the slice of the clusters met, or a fault at one off the volume. */
  ghost predicate Reads(v: Volume, first: nat, offset: nat, want: nat, r: Result)
    requires ClusterSize(v) > 0 && want > 0
  {
    var cs := ClusterSize(v);
    Sliced(v, Visited(v, first, Reach(cs, offset, want)), offset / cs, offset % cs, want, r)
  }

  /** From byte m of cluster q of the clusters met on. */
  ghost predicate Sliced(v: Volume, met: seq<nat>, q: nat, m: nat, want: nat, r: Result) {
    if |met| <= q then r == Bytes([])
    else if !OnVolume(v, met[q..]) then r == Fault
    else
      var all := ChainBytes(v, met[q..]);
      m <= |all| && r == Bytes(all[m..Min(m + want, |all|)])
  }

  /** Skipping and copying. */
  method ReadSome(v: Volume, first: nat, offset: nat, want: nat) returns (r: Result)
    requires ClusterSize(v) > 0 && want > 0
    ensures Reads(v, first, offset, want, r)
  {
    hide Visited, ClusterSize, OnVolume, ChainBytes, Gather;
    var cs := ClusterSize(v);
    ghost var n := Reach(cs, offset, want);
    ReachBound(cs, offset, want);
    var skip, at := offset / cs, offset % cs;
    var ok, cur := Skip(v, first, skip, n);
    if !ok {
      return Bytes([]);
    }
    r := CopyOut(v, cur, at, want, first, n, skip);
    ghost var met := Visited(v, first, n)[skip..];
    if OnVolume(v, met) {
      GatherSlice(v, met, at, want);
    } else {
      Fewer(|met|, n - skip, cs);
      GatherFaults(v, met, at, want);
    }
  }

  lemma Fewer(a: nat, b: nat, cs: nat)
    requires 0 < a <= b
    ensures (a - 1) * cs <= (b - 1) * cs
  {
    if a < b {
      Multiples(a - 1, b - 1, cs);
    }
  }

  /** Reading along a chain of the volume. */
  lemma ReadOfChain(v: Volume, first: nat, chain: seq<nat>, size: nat, offset: nat, len: nat, r: Result)
    requires Chain(v, first, chain) && (size <= |ChainBytes(v, chain)| || Ends(v, chain))
    requires offset < size && len > 0 && ClusterSize(v) > 0 && Reads(v, first, offset, Min(len, size - offset), r)
    ensures r == Bytes(Part(ChainBytes(v, chain), size, offset, len))
  {
    hide Chain, Ends, OnVolume, ChainBytes, ClusterSize, Reads, Sliced, SamePart, Part, NextCluster, ClusterValid;
    ChainTail(v, first, chain);
    var want := Min(len, size - offset);
    var k, q, m := ChainMet(v, first, chain, offset, want, r);
    SlicedPart(v, chain, k, q, m, size, offset, len, r);
  }

  /** The clusters a read meets on a chain, and where it starts in them. */
  lemma ChainMet(v: Volume, first: nat, chain: seq<nat>, offset: nat, want: nat, r: Result)
    returns (k: nat, q: nat, m: nat)
    requires Chain(v, first, chain) && OnVolume(v, chain) && ClusterSize(v) > 0 && want > 0
    requires offset + want <= |ChainBytes(v, chain)| || Ends(v, chain)
    requires Reads(v, first, offset, want, r)
    ensures k <= |chain| && Sliced(v, chain[..k], q, m, want, r) && (k <= q ==> |ChainBytes(v, chain)| <= offset)
    ensures q < k ==> SamePart(v, chain, k, q, m, offset, want)
  {
    hide Visited, ClusterSize, ClusterValid, ChainBytes, NextCluster, Chain, Reach, Ends, OnVolume, Sliced, SamePart;
    var cs := ClusterSize(v);
    var n := Reach(cs, offset, want);
    q, m := offset / cs, offset % cs;
    ReachWithin(cs, offset, want, |chain|, |ChainBytes(v, chain)|);
    VisitedChain(v, first, chain, n);
    k := Min(n, |chain|);
    if q < k {
      PartOfChain(v, chain, k, n, q, m, want, offset);
    }
  }

  /** The slice from byte m of cluster q of the first k clusters is the slice from offset of them all. */
  ghost predicate SamePart(v: Volume, chain: seq<nat>, k: nat, q: nat, m: nat, offset: nat, want: nat)
    requires q < k <= |chain| && OnVolume(v, chain)
  {
    && OnVolume(v, chain[..k][q..])
    && var b, all := ChainBytes(v, chain[..k][q..]), ChainBytes(v, chain);
       m <= |b| && offset <= |all| && b[m..Min(m + want, |b|)] == all[offset..Min(offset + want, |all|)]
  }

  lemma SlicedPart(
      v: Volume, chain: seq<nat>, k: nat, q: nat, m: nat, size: nat, offset: nat, len: nat, r: Result)
    requires k <= |chain| && OnVolume(v, chain) && offset < size
    requires Sliced(v, chain[..k], q, m, Min(len, size - offset), r)
    requires k <= q ==> |ChainBytes(v, chain)| <= offset
    requires q < k ==> SamePart(v, chain, k, q, m, offset, Min(len, size - offset))
    ensures r == Bytes(Part(ChainBytes(v, chain), size, offset, len))
  {
    hide OnVolume, ChainBytes, ClusterSize;
  }

  lemma ReachWithin(cs: nat, offset: nat, want: nat, k: nat, total: nat)
    requires cs > 0 && want > 0 && total == k * cs
    ensures offset / cs < Reach(cs, offset, want) && offset % cs < cs
    ensures offset + want <= total ==> Reach(cs, offset, want) <= k
    ensures offset / cs < k <==> offset < total
  {
    ReachBound(cs, offset, want);
    Division(offset + want - 1, cs, k);
    Division(offset, cs, k);
  }

  /** The slice from the clusters met is the slice from the whole chain. */
  lemma PartOfChain(v: Volume, chain: seq<nat>, k: nat, n: nat, q: nat, m: nat, want: nat, offset: nat)
    requires OnVolume(v, chain) && q < k <= |chain| && (k == n || k == |chain|) && ClusterSize(v) > 0 && want > 0
    requires n == Reach(ClusterSize(v), offset, want) && q == offset / ClusterSize(v) && m == offset % ClusterSize(v)
    ensures SamePart(v, chain, k, q, m, offset, want)
  {
    hide ClusterSize, ClusterValid, ChainBytes, Reach;
    var cs, met := ClusterSize(v), chain[..k];
    ReachBound(cs, offset, want);
    assert OnVolume(v, met) && OnVolume(v, met[..q]) && OnVolume(v, met[q..]);
    ChainSplit(v, chain, k);
    ChainSplit(v, met, q);
    var a, b, c := ChainBytes(v, met[..q]), ChainBytes(v, met[q..]), ChainBytes(v, chain[k..]);
    assert |b| >= cs by {
      Multiples(0, |met[q..]|, cs);
    }
    assert k == |chain| ==> chain[k..] == [] && |c| == 0;
    Middle(a, b, c, m, want);
  }

  lemma Middle(a: seq<byte>, b: seq<byte>, c: seq<byte>, m: nat, want: nat)
    requires m <= |b| && (|a| + m + want <= |a + b| || c == [])
    ensures b[m..Min(m + want, |b|)] == (a + b + c)[|a| + m..Min(|a| + m + want, |a + b + c|)]
  {
  }

  // ----- The file as the disk has it -----

  /** Entry c of the table, low byte first and without its top four bits, is n. */
  ghost predicate Entry(v: Volume, c: nat, n: nat) {
    && 4 * c + 4 <= v.fatSize * v.bytesPerSector
    && var a := v.reservedSectors * v.bytesPerSector + 4 * c;
       && a + 4 <= |v.image|
       && n == v.image[a] as nat + 256 * v.image[a + 1] as nat + 65536 * v.image[a + 2] as nat
               + 16777216 * (v.image[a + 3] as nat % 16)
  }

  /** Cluster c is a data cluster wholly inside the image. */
  ghost predicate Inside(v: Volume, c: nat) {
    var cs := v.sectorsPerCluster * v.bytesPerSector;
    2 <= c < 0x0FFF_FFF7 && v.dataStart + (c - 2) * cs + cs <= |v.image|
  }

  /** Clusters in the image, each of whose entries names the next. */
  ghost predicate Laid(v: Volume, first: nat, chain: seq<nat>) {
    && v.sectorsPerCluster * v.bytesPerSector > 0 && chain != [] && chain[0] == first
    && (forall i :: 0 <= i < |chain| ==> Inside(v, chain[i]))
    && forall i :: 0 <= i < |chain| - 1 ==> Entry(v, chain[i], chain[i + 1])
  }

  /** The last cluster has an end mark for its entry, or no entry in the table and the image. */
  ghost predicate Marked(v: Volume, chain: seq<nat>)
    requires chain != []
  {
    var last := chain[|chain| - 1];
    forall n :: Entry(v, last, n) ==> n >= 0x0FFF_FFF8
  }

  /** Byte p of the file is b: at its place in the cluster that holds it. */
  ghost predicate DiskByte(v: Volume, chain: seq<nat>, cs: nat, p: nat, b: byte)
    requires cs > 0
  {
    && p / cs < |chain|
    && var a := v.dataStart + (chain[p / cs] - 2) * cs + p % cs;
       0 <= a < |v.image| && v.image[a] == b
  }

  /** The bytes of the file from offset to the end wanted, straight from the image. */
  ghost predicate DiskBytes(v: Volume, chain: seq<nat>, cs: nat, offset: nat, end: nat, data: seq<byte>)
    requires cs > 0
  {
    && |data| == (if offset < end then end - offset else 0)
    && forall k :: 0 <= k < |data| ==> DiskByte(v, chain, cs, offset + k, data[k])
  }

  /** What a read of len bytes at offset gets: as far as the file and its clusters go. */
  ghost predicate FromDisk(v: Volume, chain: seq<nat>, size: nat, offset: nat, len: nat, data: seq<byte>) {
    var cs := v.sectorsPerCluster * v.bytesPerSector;
    cs > 0 && DiskBytes(v, chain, cs, offset, Min(Min(offset + len, size), |chain| * cs), data)
  }

  /** The next cluster is the entry of this one; without an entry the chain ends. */
  lemma EntryNext(v: Volume, c: nat)
    requires v.bytesPerSector > 0
    ensures NextCluster(v, c) >= 0x0FFF_FFF8 || Entry(v, c, NextCluster(v, c))
    ensures forall n :: Entry(v, c, n) ==> n == NextCluster(v, c)
  {
    var a := v.reservedSectors * v.bytesPerSector + 4 * c;
    if 4 * c + 4 <= v.fatSize * v.bytesPerSector && a + 4 <= |v.image| {
      LowBits(v.image[a] as nat, v.image[a + 1] as nat, v.image[a + 2] as nat, v.image[a + 3] as nat);
    }
  }

  lemma LowBits(b0: nat, b1: nat, b2: nat, b3: nat)
    requires b0 < 256 && b1 < 256 && b2 < 256 && b3 < 256
    ensures (b0 + 0x100 * b1 + 0x1_0000 * b2 + 0x100_0000 * b3) % 0x1000_0000 ==
            b0 + 256 * b1 + 65536 * b2 + 16777216 * (b3 % 16)
  {
    var low := b0 + 256 * b1 + 65536 * b2 + 16777216 * (b3 % 16);
    assert b3 == 16 * (b3 / 16) + b3 % 16;
    assert b0 + 0x100 * b1 + 0x1_0000 * b2 + 0x100_0000 * b3 == low + 0x1000_0000 * (b3 / 16);
    assert 0 <= low < 0x1000_0000;
  }

  /** The clusters that pass are exactly the data clusters wholly inside the image. */
  lemma InsideValid(v: Volume, c: nat)
    requires v.sectorsPerCluster * v.bytesPerSector > 0
    ensures ClusterValid(v, c) <==> Inside(v, c)
  {
    var cs := ClusterSize(v);
    Factors(v);
    if ClusterValid(v, c) {
      ClusterInside(v, c);
    }
    if Inside(v, c) {
      var room := |v.image| - v.dataStart;
      assert (c - 2) * cs + cs == (c - 1) * cs;
      Division(room, cs, c - 1);
    }
  }

  lemma LaidChain(v: Volume, first: nat, chain: seq<nat>)
    requires Laid(v, first, chain)
    ensures Chain(v, first, chain) && (Marked(v, chain) ==> Ends(v, chain))
  {
    hide ClusterValid, NextCluster, Entry, Inside;
    Factors(v);
    forall i | 0 <= i < |chain|
      ensures ClusterValid(v, chain[i])
    {
      InsideValid(v, chain[i]);
    }
    forall i | 0 <= i < |chain| - 1
      ensures NextCluster(v, chain[i]) == chain[i + 1]
    {
      EntryNext(v, chain[i]);
    }
    EntryNext(v, chain[|chain| - 1]);
  }

  lemma Factors(v: Volume)
    requires v.sectorsPerCluster * v.bytesPerSector > 0
    ensures v.bytesPerSector > 0 && v.sectorsPerCluster > 0
  {
  }

  /** Where each byte of the chain's clusters is. */
  lemma {:induction false} ByteAt(v: Volume, chain: seq<nat>, p: nat)
    requires OnVolume(v, chain) && ClusterSize(v) > 0 && p < |ChainBytes(v, chain)|
    ensures DiskByte(v, chain, ClusterSize(v), p, ChainBytes(v, chain)[p])
    decreases |chain|
  {
    hide ClusterValid, ClusterSize;
    var n, cs := |chain| - 1, ClusterSize(v);
    assert |chain| * cs == n * cs + cs;
    SizeIs(v);
    Division(p, cs, n);
    Division(p, cs, n + 1);
    if p < n * cs {
      ByteAt(v, chain[..n], p);
    } else {
      assert p / cs == n && p % cs == p - n * cs;
      ClusterInside(v, chain[n]);
    }
  }

  lemma SizeIs(v: Volume)
    ensures ClusterSize(v) == v.sectorsPerCluster * v.bytesPerSector
  {
  }

  lemma DiskRead(v: Volume, first: nat, chain: seq<nat>, size: nat, offset: nat, len: nat)
    requires Laid(v, first, chain)
    ensures Chain(v, first, chain)
    ensures FromDisk(v, chain, size, offset, len, Part(ChainBytes(v, chain), size, offset, len))
    ensures |ChainBytes(v, chain)| == |chain| * (v.sectorsPerCluster * v.bytesPerSector)
    ensures Marked(v, chain) ==> Ends(v, chain)
  {
    hide Laid, ClusterValid, Marked, Ends, NextCluster, ClusterSize, DiskBytes, ChainBytes;
    LaidChain(v, first, chain);
    LaidSize(v, first, chain);
    SizeIs(v);
    SliceFromDisk(v, chain, ClusterSize(v), ChainBytes(v, chain), size, offset, len);
  }

  lemma SliceFromDisk(v: Volume, chain: seq<nat>, cs: nat, all: seq<byte>, size: nat, offset: nat, len: nat)
    requires OnVolume(v, chain) && cs == ClusterSize(v) > 0 && all == ChainBytes(v, chain)
    ensures DiskBytes(v, chain, cs, offset, Min(Min(offset + len, size), |all|), Part(all, size, offset, len))
  {
    hide OnVolume, ClusterSize, ChainBytes, DiskByte;
    var data := Part(all, size, offset, len);
    forall k | 0 <= k < |data|
      ensures DiskByte(v, chain, cs, offset + k, data[k])
    {
      ByteAt(v, chain, offset + k);
      assert data[k] == all[offset + k];
    }
  }

  lemma LaidSize(v: Volume, first: nat, chain: seq<nat>)
    requires Laid(v, first, chain)
    ensures v.sectorsPerCluster * v.bytesPerSector > 0
  {
  }

  /**
   read_file_range_by_entry: in general what following the table meets, with a fault exactly when
   that is a cluster off the volume from the offset on; on a chain of the volume that covers the
   file, or ends before it does, that slice of the concatenated clusters.
   */
  method ReadRange(v: Volume, first: nat, size: nat, offset: nat, len: nat) returns (r: Result)
    ensures offset >= size || len == 0 ==> r == Bytes([])
    ensures offset < size && len > 0 && ClusterSize(v) == 0 ==> r == Fault
    ensures offset < size && len > 0 && ClusterSize(v) > 0 ==> Reads(v, first, offset, Min(len, size - offset), r)
    ensures forall chain :: Chain(v, first, chain) && (size <= |ChainBytes(v, chain)| || Ends(v, chain)) ==>
              r == Bytes(Part(ChainBytes(v, chain), size, offset, len))
    ensures forall chain :: Laid(v, first, chain)
                            && (size <= |chain| * (v.sectorsPerCluster * v.bytesPerSector) || Marked(v, chain)) ==>
              r.Bytes? && FromDisk(v, chain, size, offset, len, r.data)
  {
    r := ReadChains(v, first, size, offset, len);
    forall chain | Laid(v, first, chain)
                   && (size <= |chain| * (v.sectorsPerCluster * v.bytesPerSector) || Marked(v, chain))
      ensures r.Bytes? && FromDisk(v, chain, size, offset, len, r.data)
    {
      DiskRead(v, first, chain, size, offset, len);
    }
  }

  method ReadChains(v: Volume, first: nat, size: nat, offset: nat, len: nat) returns (r: Result)
    ensures offset >= size || len == 0 ==> r == Bytes([])
    ensures offset < size && len > 0 && ClusterSize(v) == 0 ==> r == Fault
    ensures offset < size && len > 0 && ClusterSize(v) > 0 ==> Reads(v, first, offset, Min(len, size - offset), r)
    ensures forall chain :: Chain(v, first, chain) && (size <= |ChainBytes(v, chain)| || Ends(v, chain)) ==>
              r == Bytes(Part(ChainBytes(v, chain), size, offset, len))
  {
    hide Reads, ChainBytes, ClusterSize;
    if offset >= size || len == 0 {
      return Bytes([]);
    }
    var want := Min(len, size - offset);
    if ClusterSize(v) == 0 {
      NoChain(v);
      return Fault;
    }
    r := ReadSome(v, first, offset, want);
    forall chain | Chain(v, first, chain) && (size <= |ChainBytes(v, chain)| || Ends(v, chain))
      ensures r == Bytes(Part(ChainBytes(v, chain), size, offset, len))
    {
      ReadOfChain(v, first, chain, size, offset, len, r);
    }
  }

  lemma NoChain(v: Volume)
    requires ClusterSize(v) == 0
    ensures forall first, chain :: !Chain(v, first, chain)
  {
    assert forall c :: !ClusterValid(v, c);
  }
}
