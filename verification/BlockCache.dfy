/**
 The installer of limine-bin/limine.c: a device behind a cache of one block that is written back
 late, and the log of overwritten bytes that undoes an installation.

 A read of a block fails exactly when the block does not lie wholly on the device, and then leaves
 anything in the cache; writes to blocks that were read succeed.
 */
module BlockCache {
  import opened Common
  import opened Undo

  /** cached_block before any block was read */
  const NO_BLOCK := 0xFFFF_FFFF_FFFF_FFFF
  /** The largest file offset */
  const MAX_DEVICE := 0x8000_0000_0000_0000

  /** The bytes of the whole blocks of a device of n bytes. */
  function Whole(bs: nat, n: nat): (w: nat)
    requires bs > 0
    ensures w <= n
  {
    n / bs * bs
  }

  /** How many of the count bytes at loc lie on whole blocks. */
  function Fit(bs: nat, n: nat, loc: nat, count: nat): (k: nat)
    requires bs > 0
    ensures k <= count
  {
    var w := Whole(bs, n);
    if loc + count <= w then count else if loc < w then w - loc else 0
  }

  /** Where byte x lies in its block, and when that block is on a device of n bytes. */
  lemma Block(bs: nat, n: nat, x: nat)
    requires bs > 0
    ensures x / bs * bs <= x < x / bs * bs + bs && x % bs == x - x / bs * bs
    ensures x / bs * bs + bs <= n <==> x < Whole(bs, n)
    ensures x < Whole(bs, n) ==> x / bs * bs + bs <= Whole(bs, n)
  {
    var b, m := x / bs, n / bs;
    assert x == b * bs + x % bs && n == m * bs + n % bs;
    if b < m {
      Multiples(b, m, bs);
    } else if m < b {
      Multiples(m, b, bs);
    }
  }

  predicate AllFit(bs: nat, n: nat, log: seq<Entry>)
    requires bs > 0
  {
    forall i :: 0 <= i < |log| ==> Fit(bs, n, log[i].loc, |log[i].data|) == |log[i].data|
  }

  lemma AllFitMore(bs: nat, n: nat, log: seq<Entry>, i: nat)
    requires bs > 0 && i < |log|
    ensures AllFit(bs, n, log[..i + 1]) <==>
              AllFit(bs, n, log[..i]) && Fit(bs, n, log[i].loc, |log[i].data|) == |log[i].data|
  {
    var a, b := log[..i], log[..i + 1];
    assert forall j :: 0 <= j < i ==> a[j] == b[j];
    assert b[i] == log[i];
  }

  class Installer {
    const bs: nat
    var device: seq<byte>
    var cache: seq<byte>
    var cachedBlock: nat
    var dirty: bool
    var uninstalling: bool
    var log: seq<Entry>

    ghost predicate Valid()
      reads this
    {
      && bs in {512, 2048, 4096} && |cache| == bs && |device| < MAX_DEVICE && |log| <= LOG_MAX
      && (cachedBlock == NO_BLOCK || cachedBlock * bs + bs <= |device|)
      && (dirty ==> cachedBlock != NO_BLOCK)
    }

    /** A clean cache holds what the device holds. A failed read breaks this until the cache is reset. */
    ghost predicate Coherent()
      reads this`device, this`dirty, this`cachedBlock, this`cache
    {
      dirty || cachedBlock == NO_BLOCK || device == Splice(device, cachedBlock * bs, cache)
    }

    /** The disk as its user sees it: the device under the cached block. */
    ghost function Disk(): (d: seq<byte>)
      reads this`device, this`cachedBlock, this`cache
      ensures |d| == |device|
    {
      if cachedBlock == NO_BLOCK then device else Splice(device, cachedBlock * bs, cache)
    }

    /** After device_init: block 0 is cached and clean. */
    constructor (bs: nat, device: seq<byte>)
      requires bs in {512, 2048, 4096} && bs <= |device| < MAX_DEVICE
      ensures Valid() && Coherent() && !dirty && this.device == device && log == [] && !uninstalling && this.bs == bs
    {
      this.bs := bs;
      this.device := device;
      cache, cachedBlock, dirty := device[..bs], 0, false;
      uninstalling, log := false, [];
      new;
      assert device == Splice(device, cachedBlock * bs, cache);
    }

    /** device_flush_cache */
    method Flush()
      requires Valid()
      modifies this`device, this`dirty
      ensures Valid() && !dirty && Disk() == old(Disk())
      ensures device == if old(dirty) then old(Disk()) else old(device)
      ensures old(Coherent()) ==> Coherent() && device == old(Disk())
    {
      if !dirty {
        return;
      }
      device := Splice(device, cachedBlock * bs, cache);
      assert device == Splice(device, cachedBlock * bs, cache);
      dirty := false;
    }

    /** device_cache_block */
    method CacheBlock(block: nat) returns (ok: bool)
      requires Valid() && block < NO_BLOCK
      modifies this`device, this`dirty, this`cache, this`cachedBlock
      ensures Valid()
      ensures ok <==> block * bs + bs <= |device|
      ensures ok ==> cachedBlock == block && (old(Coherent()) ==> Coherent() && Disk() == old(Disk()))
      ensures !ok ==> !dirty && (old(Coherent()) ==> device == old(Disk()))
      ensures device == old(device) || device == old(Disk())
    {
      if cachedBlock == block {
        return true;
      }
      Flush();
      if block * bs + bs > |device| {
        var junk: seq<byte> :| |junk| == bs by { assert |cache| == bs; }
        cache := junk;
        return false;
      }
      cache := device[block * bs..block * bs + bs];
      cachedBlock := block;
      assert Splice(device, cachedBlock * bs, cache) == device;
      return true;
    }

    /** The part of a copy that fits in the block at hand. */
    function Chunk(at: nat, left: nat): (chunk: nat)
      requires bs > 0 && left > 0
      ensures 0 < chunk <= left && chunk <= bs - at % bs
    {
      if left > bs - at % bs then bs - at % bs else left
    }

    /** The memcpy of one turn of the loop of _device_read */
    method CopyOut(at: nat, count: nat) returns (b: seq<byte>)
      requires Valid() && cachedBlock != NO_BLOCK && cachedBlock == at / bs && at % bs + count <= bs
      ensures at + count <= |device| && b == Disk()[at..at + count]
    {
      Block(bs, 0, at);
      var off := at % bs;
      b := cache[off..off + count];
    }

    /** One turn of the loop of _device_read */
    method GetBytes(at: nat, left: nat) returns (ok: bool, b: seq<byte>)
      requires Valid() && at < U64 && left > 0
      modifies this`device, this`dirty, this`cache, this`cachedBlock
      ensures Valid() && |device| == |old(device)|
      ensures ok <==> at < Whole(bs, |device|)
      ensures ok && old(Coherent()) ==> Coherent() && Disk() == old(Disk())
      ensures ok ==> 0 < |b| <= left && at + |b| <= Whole(bs, |device|) && b == Disk()[at..at + |b|]
      ensures !ok ==> !dirty && (old(Coherent()) ==> device == old(Disk()))
      ensures device == old(device) || device == old(Disk())
    {
      hide Coherent, Disk, Whole;
      b := [];
      Block(bs, |device|, at);
      ok := CacheBlock(at / bs);
      if ok {
        b := CopyOut(at, Chunk(at, left));
      }
    }

    /** _device_read */
    method Read(loc: nat, count: nat) returns (ok: bool, buf: seq<byte>)
      requires Valid() && Coherent() && loc < U64
      modifies this`device, this`dirty, this`cache, this`cachedBlock
      ensures Valid() && |device| == |old(device)|
      ensures ok <==> Fit(bs, |device|, loc, count) == count
      ensures ok ==> Coherent() && Disk() == old(Disk()) && (count > 0 ==> loc + count <= |device|)
      ensures ok ==> |buf| == count && forall i :: 0 <= i < count ==> buf[i] == Disk()[loc + i]
      ensures !ok ==> !dirty && device == old(Disk())
      ensures Mixed(device, old(device), old(Disk()), old(Disk()))
    {
      hide Coherent, Whole, Disk, Mixed;
      buf := [];
      ghost var disk := Disk();
      MixedFlush(device, old(device), old(device), disk);
      while |buf| < count
        invariant Valid() && Coherent() && Disk() == disk && |buf| <= count && |device| == |disk|
        invariant |buf| > 0 ==> loc + |buf| <= Whole(bs, |disk|)
        invariant forall i :: 0 <= i < |buf| ==> buf[i] == disk[loc + i]
        invariant Mixed(device, old(device), disk, disk)
      {
        ghost var before := device;
        var b;
        ok, b := GetBytes((loc + |buf|) % U64, count - |buf|);
        MixedFlush(device, before, old(device), disk);
        if !ok {
          return;
        }
        buf := buf + b;
      }
      ok := true;
    }

    /** The memcpy of one turn of the loop of _device_write */
    method FillCache(at: nat, b: seq<byte>)
      requires Valid() && cachedBlock != NO_BLOCK && cachedBlock == at / bs && at % bs + |b| <= bs
      modifies this`cache, this`dirty
      ensures Valid() && Coherent() && Disk() == Splice(old(Disk()), at, b)
    {
      Block(bs, 0, at);
      var off := at % bs;
      cache := cache[..off] + b + cache[off + |b|..];
      dirty := true;
    }

    /** One turn of the loop of _device_write */
    method PutBytes(at: nat, buf: seq<byte>) returns (ok: bool, chunk: nat)
      requires Valid() && at < U64 && buf != []
      modifies this`device, this`dirty, this`cache, this`cachedBlock
      ensures Valid() && |device| == |old(device)|
      ensures ok <==> at < Whole(bs, |device|)
      ensures ok ==> 0 < chunk <= |buf| && at + chunk <= Whole(bs, |device|)
      ensures ok ==> Coherent() && (old(Coherent()) ==> Disk() == Splice(old(Disk()), at, buf[..chunk]))
      ensures !ok ==> !dirty && (old(Coherent()) ==> device == old(Disk()))
      ensures device == old(device) || device == old(Disk())
    {
      hide Coherent, Disk, Whole;
      chunk := 0;
      Block(bs, |device|, at);
      ok := CacheBlock(at / bs);
      if ok {
        chunk := Chunk(at, |buf|);
        FillCache(at, buf[..chunk]);
      }
    }

    /** The copy loop of _device_write */
    method WriteChunks(buf: seq<byte>, loc: nat) returns (ok: bool)
      requires Valid() && loc < U64
      modifies this`device, this`dirty, this`cache, this`cachedBlock
      ensures Valid() && |device| == |old(device)|
      ensures ok <==> Fit(bs, |device|, loc, |buf|) == |buf|
      ensures ok && old(Coherent()) ==> Coherent() && Disk() == Splice(old(Disk()), loc, buf)
      ensures !ok ==> !dirty
      ensures !ok && old(Coherent()) ==> device == Splice(old(Disk()), loc, buf[..Fit(bs, |device|, loc, |buf|)])
      ensures old(Coherent()) ==> Mixed(device, old(device), old(Disk()), Splice(old(Disk()), loc, buf))
    {
      hide Coherent, Whole, Disk, Mixed, Splice;
      var progress := 0;
      ghost var good, disk, n := Coherent(), Disk(), |device|;
      WriteNone(device, disk, loc, buf);
      while progress < |buf|
        invariant Valid() && progress <= |buf| && |device| == n
        invariant progress > 0 ==> loc + progress <= Whole(bs, n)
        invariant good ==> Coherent() && Disk() == Splice(disk, loc, buf[..progress])
        invariant good ==> Mixed(device, old(device), disk, Splice(disk, loc, buf))
      {
        var chunk;
        ghost var before := device;
        ok, chunk := PutBytes((loc + progress) % U64, buf[progress..]);
        if good {
          MixedMore(device, before, old(device), disk, loc, buf, progress);
        }
        if !ok {
          return;
        }
        SpliceMore(disk, loc, buf, progress, chunk);
        progress := progress + chunk;
      }
      assert buf[..progress] == buf;
      ok := true;
    }

    /** _device_write: unless an installation is being undone, the bytes overwritten are logged. */
    method Write(buf: seq<byte>, loc: nat) returns (ok: bool)
      requires Valid() && loc < U64 && (uninstalling || Coherent())
      modifies this`device, this`dirty, this`cache, this`cachedBlock, this`log
      ensures Valid() && |device| == |old(device)|
      ensures ok <==> Fit(bs, |device|, loc, |buf|) == |buf| && (uninstalling || |old(log)| < LOG_MAX)
      ensures ok && old(Coherent()) ==> Coherent() && Disk() == Splice(old(Disk()), loc, buf)
      ensures ok && buf != [] ==> loc + |buf| <= |device|
      ensures !ok || uninstalling ==> log == old(log)
      ensures ok && !uninstalling ==>
                |log| == |old(log)| + 1 && log[..|old(log)|] == old(log)
                && log[|old(log)|].loc == loc && |log[|old(log)|].data| == |buf|
                && forall i :: 0 <= i < |buf| ==> log[|old(log)|].data[i] == old(Disk())[loc + i]
      ensures !ok && !uninstalling ==> Mixed(device, old(device), old(Disk()), old(Disk()))
      ensures old(Coherent()) ==> Mixed(device, old(device), old(Disk()), Splice(old(Disk()), loc, buf))
    {
      hide Coherent, Whole, Disk;
      var data := [];
      if !uninstalling {
        if |log| >= LOG_MAX {
          return false;
        }
        ok, data := Read(loc, |buf|);
        if !ok {
          return;
        }
      }
      ok := WriteChunks(buf, loc);
      if ok && !uninstalling {
        log := log + [Entry(data, loc)];
      }
    }

    /** reverse_uninstall_data */
    method ReverseLog()
      modifies this`log
      ensures log == Reversed(old(log))
    {
      var rev := log;
      var j := |log| - 1;
      for i := 0 to |log|
        invariant j == |log| - 1 - i && |rev| == |log|
        invariant forall k :: j < k < |log| ==> rev[k] == log[|log| - 1 - k]
      {
        rev := rev[j := log[i]];
        j := j - 1;
      }
      log := rev;
    }

    /** The attempts of uninstall to write one entry back. */
    method Restore(e: Entry) returns (ok: bool)
      requires Valid() && uninstalling && e.loc < U64
      modifies this`device, this`dirty, this`cache, this`cachedBlock, this`log
      ensures Valid() && |device| == |old(device)| && log == old(log)
      ensures ok <==> Fit(bs, |device|, e.loc, |e.data|) == |e.data|
      ensures ok && old(Coherent()) ==> Coherent() && Disk() == Splice(old(Disk()), e.loc, e.data)
    {
      hide Coherent, Disk, Whole, Fit;
      var retry := false;
      ok := Write(e.data, e.loc);
      while !ok && !retry
        invariant Valid() && |device| == |old(device)| && log == old(log)
        invariant ok <==> Fit(bs, |device|, e.loc, |e.data|) == |e.data|
        invariant ok && old(Coherent()) ==> Coherent() && Disk() == Splice(old(Disk()), e.loc, e.data)
        decreases !retry
      {
        Flush();
        dirty, cachedBlock := false, NO_BLOCK;
        retry := true;
        ok := Write(e.data, e.loc);
      }
    }

    /** uninstall: forget the cache and write the entries back in the order of the log. */
    method Uninstall() returns (ok: bool)
      requires Valid() && forall i :: 0 <= i < |log| ==> log[i].loc < U64
      modifies this
      ensures Valid() && |device| == |old(device)| && log == old(log)
      ensures ok <==> AllFit(bs, |device|, log)
      ensures ok ==> device == Replay(old(device), log)
    {
      hide Whole, Fit, Splice, Disk, Coherent, AllFit, Replay;
      ResetCache();
      ok := true;
      for i := 0 to |log|
        invariant Valid() && uninstalling && |device| == |old(device)| && log == old(log)
        invariant ok <==> AllFit(bs, |device|, log[..i])
        invariant ok ==> Coherent() && Replay(Disk(), log[i..]) == Replay(old(device), log)
      {
        AllFitMore(bs, |device|, log, i);
        ReplayNext(Disk(), log, i);
        var done := Restore(log[i]);
        ok := ok && done;
      }
      assert log[..|log|] == log && log[|log|..] == [];
      ReplayNone(Disk());
      Flush();
    }

    /** The first steps of uninstall: dirty bytes that never reached the device are dropped. */
    method ResetCache()
      requires Valid()
      modifies this`uninstalling, this`dirty, this`cachedBlock
      ensures Valid() && uninstalling && Coherent() && Disk() == device && AllFit(bs, |device|, log[..0])
      ensures Replay(Disk(), log[0..]) == Replay(device, log)
    {
      uninstalling, dirty, cachedBlock := true, false, NO_BLOCK;
      assert log[0..] == log;
    }

    /** store_uninstall_data: an entry without bytes cannot be written. */
    method Store() returns (ok: bool, file: seq<byte>)
      requires Valid()
      ensures ok <==> forall i :: 0 <= i < |log| ==> log[i].data != []
      ensures ok ==> file == Encode(log)
    {
      hide LittleEndian, EncodeEntries;
      EncodeNone(log);
      file := LittleEndian(|log|, 8);
      for i := 0 to |log|
        invariant file == LittleEndian(|log|, 8) + EncodeEntries(log[..i])
        invariant forall j :: 0 <= j < i ==> log[j].data != []
      {
        file := file + LittleEndian(log[i].loc, 8);
        file := file + LittleEndian(|log[i].data|, 8);
        if log[i].data == [] {
          return false, file;
        }
        file := file + log[i].data;
        EncodeMore(log, i);
      }
      assert log[..|log|] == log;
      return true, file;
    }
  }

  /** One turn of the loop of load_uninstall_data */
  method LoadEntry(rest: seq<byte>) returns (r: Option<(Entry, seq<byte>)>)
    ensures r == DecodeEntry(rest)
  {
    if |rest| < 16 {
      return None;
    }
    var loc := FromLittleEndian(rest[..8]);
    var count := FromLittleEndian(rest[8..16]);
    if count == 0 || |rest| - 16 < count {
      return None;
    }
    return Some((Entry(rest[16..16 + count], loc), rest[16 + count..]));
  }

  lemma LoadsExactly(file: seq<byte>)
    ensures forall log :: Decode(file) == Some(log) <==> Undo.Storable(log) && Encode(log) <= file
  {
    forall log
      ensures Decode(file) == Some(log) <==> Undo.Storable(log) && Encode(log) <= file
    {
      LoadExactly(file, log);
    }
  }

  /** load_uninstall_data */
  method Load(file: seq<byte>) returns (r: Option<seq<Entry>>)
    ensures r == Decode(file)
    ensures forall log :: r == Some(log) <==> Undo.Storable(log) && Encode(log) <= file
  {
    hide DecodeEntry, Encode, Undo.Storable;
    LoadsExactly(file);
    if |file| < 8 {
      return None;
    }
    var n := FromLittleEndian(file[..8]);
    if n > LOG_MAX {
      return None;
    }
    var loaded, rest := [], file[8..];
    ghost var all := DecodeEntries(rest, n);
    assert all.Some? ==> loaded + all.value == all.value;
    for i := 0 to n
      invariant |loaded| == i
      invariant Decode(file) == match DecodeEntries(rest, n - i) case None => None case Some(es) => Some(loaded + es)
    {
      var next := LoadEntry(rest);
      if next.None? {
        return None;
      }
      ghost var was := DecodeEntries(rest, n - i);
      assert was.Some? ==> loaded + was.value == loaded + [next.value.0] + was.value[1..];
      loaded, rest := loaded + [next.value.0], next.value.1;
    }
    assert loaded + [] == loaded;
    return Some(loaded);
  }
}
