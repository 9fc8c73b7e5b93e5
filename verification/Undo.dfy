/**
 Bytes overwritten and put back: what the undo log of limine-bin/limine.c records, how replaying it
 restores the disk, and the file it is kept in.
 */
module Undo {
  import opened Common

  const LOG_MAX := 256

  /** struct uninstall_data: the bytes that were at loc; its count is their number. */
  datatype Entry = Entry(data: seq<byte>, loc: nat)

  /** d with the bytes b at loc; bytes past the end are lost. */
  function Splice(d: seq<byte>, loc: nat, b: seq<byte>): (r: seq<byte>)
    ensures |r| == |d|
    ensures forall x :: 0 <= x < |d| ==> r[x] == if loc <= x < loc + |b| then b[x - loc] else d[x]
  {
    seq(|d|, x requires 0 <= x < |d| => if loc <= x < loc + |b| then b[x - loc] else d[x])
  }

  /** Writing a buffer piece by piece. */
  lemma SpliceMore(d: seq<byte>, loc: nat, buf: seq<byte>, p: nat, k: nat)
    requires p + k <= |buf|
    ensures Splice(Splice(d, loc, buf[..p]), loc + p, buf[p..][..k]) == Splice(d, loc, buf[..p + k])
  {
  }

  predicate Covered(log: seq<Entry>, x: nat) {
    exists i :: 0 <= i < |log| && log[i].loc <= x < log[i].loc + |log[i].data|
  }

  /** The entries written back one after another, first to last. */
  function Replay(d: seq<byte>, log: seq<Entry>): (r: seq<byte>)
    ensures |r| == |d|
    decreases |log|
  {
    if log == [] then d else Replay(Splice(d, log[0].loc, log[0].data), log[1..])
  }

  lemma ReplayNone(d: seq<byte>)
    ensures Replay(d, []) == d
  {
  }

  lemma ReplayNext(d: seq<byte>, log: seq<Entry>, i: nat)
    requires i < |log|
    ensures Replay(d, log[i..]) == Replay(Splice(d, log[i].loc, log[i].data), log[i + 1..])
  {
    assert log[i..][0] == log[i] && log[i..][1..] == log[i + 1..];
  }

  function Reversed(log: seq<Entry>): (r: seq<Entry>)
    ensures |r| == |log| && forall i :: 0 <= i < |log| ==> r[i] == log[|log| - 1 - i]
  {
    seq(|log|, i requires 0 <= i < |log| => log[|log| - 1 - i])
  }

  /** Two disks that agree on the bytes not covered become one disk. */
  lemma {:induction false} ReplayMeets(d: seq<byte>, e: seq<byte>, log: seq<Entry>)
    requires |d| == |e| && forall x: nat :: x < |d| && !Covered(log, x) ==> d[x] == e[x]
    ensures Replay(d, log) == Replay(e, log)
    decreases |log|
  {
    if log == [] {
      assert d == e;
    } else {
      var d1, e1 := Splice(d, log[0].loc, log[0].data), Splice(e, log[0].loc, log[0].data);
      forall x: nat | x < |d| && !Covered(log[1..], x)
        ensures d1[x] == e1[x]
      {
        CoveredFirst(log, x);
      }
      ReplayMeets(d1, e1, log[1..]);
    }
  }

  lemma CoveredFirst(log: seq<Entry>, x: nat)
    requires log != []
    ensures Covered(log, x) <==> log[0].loc <= x < log[0].loc + |log[0].data| || Covered(log[1..], x)
  {
    assert forall i :: 0 < i < |log| ==> log[i] == log[1..][i - 1];
  }

  lemma CoveredReversed(log: seq<Entry>, x: nat)
    ensures Covered(Reversed(log), x) <==> Covered(log, x)
  {
    var r := Reversed(log);
    if Covered(log, x) {
      var i :| 0 <= i < |log| && log[i].loc <= x < log[i].loc + |log[i].data|;
      assert r[|log| - 1 - i] == log[i];
    }
  }

  /** The last entry recorded is the first to be written back. */
  lemma ReplayLast(d: seq<byte>, log: seq<Entry>, e: Entry)
    ensures Replay(d, Reversed(log + [e])) == Replay(Splice(d, e.loc, e.data), Reversed(log))
  {
    var r := Reversed(log + [e]);
    assert r[0] == e;
    assert r[1..] == Reversed(log);
  }

  /**
   The log brings `disk` back to `orig`, and what is on the device differs from it only where the
   log covers it.
   */
  ghost predicate Undoes(log: seq<Entry>, orig: seq<byte>, disk: seq<byte>, device: seq<byte>) {
    && |device| == |disk| && Replay(disk, Reversed(log)) == orig
    && forall x: nat :: x < |disk| && !Covered(log, x) ==> device[x] == disk[x]
  }

  /** Whichever dirty blocks reached the device, replaying the reversed log restores the original. */
  lemma UndoesDevice(log: seq<Entry>, orig: seq<byte>, disk: seq<byte>, device: seq<byte>)
    requires Undoes(log, orig, disk, device)
    ensures Replay(device, Reversed(log)) == orig
  {
    forall x: nat | x < |device| && !Covered(Reversed(log), x)
      ensures device[x] == disk[x]
    {
      CoveredReversed(log, x);
    }
    ReplayMeets(device, disk, Reversed(log));
  }

  /** Each byte of d is that of a, of b or of c at the same place. */
  ghost predicate Mixed(d: seq<byte>, a: seq<byte>, b: seq<byte>, c: seq<byte>) {
    && |d| == |a| == |b| == |c|
    && forall x :: 0 <= x < |d| ==> d[x] == a[x] || d[x] == b[x] || d[x] == c[x]
  }

  lemma MixedFlush(device': seq<byte>, device: seq<byte>, was: seq<byte>, disk: seq<byte>)
    requires |was| == |disk| && (device == was || Mixed(device, was, disk, disk))
    requires (device' == device || device' == disk)
    ensures Mixed(device', was, disk, disk)
  {
  }

  lemma WriteNone(device: seq<byte>, disk: seq<byte>, loc: nat, buf: seq<byte>)
    requires |device| == |disk|
    ensures disk == Splice(disk, loc, buf[..0]) && Mixed(device, device, disk, Splice(disk, loc, buf))
  {
  }

  /** Flushing while a buffer is partly written. */
  lemma MixedMore(device': seq<byte>, device: seq<byte>, was: seq<byte>, disk: seq<byte>, loc: nat, buf: seq<byte>,
                  p: nat)
    requires p <= |buf| && Mixed(device, was, disk, Splice(disk, loc, buf))
    requires device' == device || device' == Splice(disk, loc, buf[..p])
    ensures Mixed(device', was, disk, Splice(disk, loc, buf))
  {
  }

  /** A recorded write keeps the log able to undo everything. */
  lemma RecordedWrite(log: seq<Entry>, orig: seq<byte>, disk: seq<byte>, device: seq<byte>,
                      buf: seq<byte>, e: Entry, device': seq<byte>)
    requires Undoes(log, orig, disk, device)
    requires |e.data| == |buf| && (buf == [] || e.loc + |buf| <= |disk|)
    requires forall i :: 0 <= i < |buf| ==> e.data[i] == disk[e.loc + i]
    requires Mixed(device', device, disk, Splice(disk, e.loc, buf))
    ensures Undoes(log + [e], orig, Splice(disk, e.loc, buf), device')
  {
    var disk' := Splice(disk, e.loc, buf);
    assert Splice(disk', e.loc, e.data) == disk;
    ReplayLast(disk', log, e);
    forall x: nat | x < |disk| && !Covered(log + [e], x)
      ensures device'[x] == disk'[x]
    {
      CoveredMore(log, e, x);
    }
  }

  lemma CoveredMore(log: seq<Entry>, e: Entry, x: nat)
    ensures Covered(log + [e], x) <==> Covered(log, x) || e.loc <= x < e.loc + |e.data|
  {
    var more := log + [e];
    if Covered(log, x) {
      var i :| 0 <= i < |log| && log[i].loc <= x < log[i].loc + |log[i].data|;
      assert more[i] == log[i];
    }
    assert more[|log|] == e;
  }

  /** Reading and flushing only move bytes of the disk to the device. */
  lemma MovedBytes(log: seq<Entry>, orig: seq<byte>, disk: seq<byte>, device: seq<byte>, device': seq<byte>)
    requires Undoes(log, orig, disk, device) && Mixed(device', device, disk, disk)
    ensures Undoes(log, orig, disk, device')
  {
  }

  // ----- The uninstall data file -----

  /** A number in k bytes, least significant first. */
  function LittleEndian(n: nat, k: nat): (s: seq<byte>)
    ensures |s| == k
  {
    if k == 0 then [] else [(n % 256) as byte] + LittleEndian(n / 256, k - 1)
  }

  function FromLittleEndian(s: seq<byte>): nat {
    if s == [] then 0 else s[0] as nat + 256 * FromLittleEndian(s[1..])
  }

  function Power256(k: nat): nat {
    if k == 0 then 1 else 256 * Power256(k - 1)
  }

  lemma {:induction false} NumberRoundTrip(n: nat, k: nat)
    requires n < Power256(k)
    ensures FromLittleEndian(LittleEndian(n, k)) == n
  {
    if k > 0 {
      NumberRoundTrip(n / 256, k - 1);
      assert LittleEndian(n, k)[1..] == LittleEndian(n / 256, k - 1);
    }
  }

  lemma WordRoundTrip(n: nat)
    requires n < U64
    ensures FromLittleEndian(LittleEndian(n, 8)) == n
  {
    assert Power256(8) == U64;
    NumberRoundTrip(n, 8);
  }

  lemma {:induction false} NumberBound(s: seq<byte>)
    ensures FromLittleEndian(s) < Power256(|s|)
  {
    if s != [] {
      NumberBound(s[1..]);
    }
  }

  predicate Storable(log: seq<Entry>) {
    && |log| <= LOG_MAX
    && forall i :: 0 <= i < |log| ==> 0 < |log[i].data| < U64 && log[i].loc < U64
  }

  function EncodeEntry(e: Entry): seq<byte> {
    LittleEndian(e.loc, 8) + LittleEndian(|e.data|, 8) + e.data
  }

  function EncodeEntries(log: seq<Entry>): seq<byte> {
    if log == [] then [] else EncodeEntries(log[..|log| - 1]) + EncodeEntry(log[|log| - 1])
  }

  lemma EncodeNone(log: seq<Entry>)
    ensures EncodeEntries(log[..0]) == []
  {
  }

  lemma EncodeMore(log: seq<Entry>, i: nat)
    requires i < |log|
    ensures EncodeEntries(log[..i + 1]) == EncodeEntries(log[..i]) + EncodeEntry(log[i])
  {
    assert log[..i + 1][..i] == log[..i];
  }

  /** What store_uninstall_data writes. */
  function Encode(log: seq<Entry>): seq<byte> {
    LittleEndian(|log|, 8) + EncodeEntries(log)
  }

  /** The entry at the head of s, and what follows it; a file that ends early or an empty entry is an error. */
  function DecodeEntry(s: seq<byte>): (r: Option<(Entry, seq<byte>)>)
    ensures r.Some? ==> 0 < |r.value.0.data| && |r.value.1| < |s|
  {
    if |s| < 16 then None else
      var loc := FromLittleEndian(s[..8]);
      var count := FromLittleEndian(s[8..16]);
      if count == 0 || |s| - 16 < count then None
      else Some((Entry(s[16..16 + count], loc), s[16 + count..]))
  }

  function DecodeEntries(s: seq<byte>, n: nat): (r: Option<seq<Entry>>)
    ensures r.Some? ==> |r.value| == n
    decreases n
  {
    if n == 0 then Some([]) else
      match DecodeEntry(s)
      case None => None
      case Some((e, rest)) =>
        match DecodeEntries(rest, n - 1)
        case None => None
        case Some(es) => Some([e] + es)
  }

  /** What load_uninstall_data makes of a file. */
  function Decode(s: seq<byte>): (r: Option<seq<Entry>>)
    ensures r.Some? ==> |r.value| <= LOG_MAX
  {
    if |s| < 8 then None else
      var n := FromLittleEndian(s[..8]);
      if n > LOG_MAX then None else DecodeEntries(s[8..], n)
  }

  lemma EntryRoundTrip(e: Entry, rest: seq<byte>)
    requires 0 < |e.data| < U64 && e.loc < U64
    ensures DecodeEntry(EncodeEntry(e) + rest) == Some((e, rest))
  {
    var s := EncodeEntry(e) + rest;
    WordRoundTrip(e.loc);
    WordRoundTrip(|e.data|);
    assert s[..8] == LittleEndian(e.loc, 8);
    assert s[8..16] == LittleEndian(|e.data|, 8);
    assert s[16..16 + |e.data|] == e.data;
    assert s[16 + |e.data|..] == rest;
  }

  lemma EncodeFirst(log: seq<Entry>)
    requires log != []
    ensures EncodeEntries(log) == EncodeEntry(log[0]) + EncodeEntries(log[1..])
    decreases |log|
  {
    var n := |log| - 1;
    if n > 0 {
      EncodeFirst(log[..n]);
      assert log[..n][1..] == log[1..][..n - 1];
      assert log[1..][n - 1] == log[n];
    }
  }

  lemma {:induction false} EntriesRoundTrip(log: seq<Entry>, rest: seq<byte>)
    requires Storable(log)
    ensures DecodeEntries(EncodeEntries(log) + rest, |log|) == Some(log)
    decreases |log|
  {
    if log != [] {
      EncodeFirst(log);
      var tail := EncodeEntries(log[1..]) + rest;
      assert EncodeEntries(log) + rest == EncodeEntry(log[0]) + tail;
      EntryRoundTrip(log[0], tail);
      EntriesRoundTrip(log[1..], rest);
      assert log == [log[0]] + log[1..];
    }
  }

  /** What was stored is what is loaded, whatever follows in the file. */
  lemma FileRoundTrip(log: seq<Entry>, rest: seq<byte>)
    requires Storable(log)
    ensures Decode(Encode(log) + rest) == Some(log)
  {
    var s := Encode(log) + rest;
    WordRoundTrip(|log|);
    assert s[..8] == LittleEndian(|log|, 8);
    assert s[8..] == EncodeEntries(log) + rest;
    EntriesRoundTrip(log, rest);
  }

  lemma {:induction false} DecodedStorable(s: seq<byte>, n: nat)
    requires DecodeEntries(s, n).Some? && n <= LOG_MAX
    ensures Storable(DecodeEntries(s, n).value)
    decreases n
  {
    if n > 0 {
      assert Power256(8) == U64;
      NumberBound(s[..8]);
      NumberBound(s[8..16]);
      DecodedStorable(DecodeEntry(s).value.1, n - 1);
    }
  }

  // ----- The file, both ways -----

  lemma {:induction false} WordOfBytes(s: seq<byte>)
    ensures LittleEndian(FromLittleEndian(s), |s|) == s
  {
    if s != [] {
      WordOfBytes(s[1..]);
      var n := FromLittleEndian(s);
      assert n / 256 == FromLittleEndian(s[1..]) && n % 256 == s[0] as nat;
    }
  }

  lemma EntryBack(s: seq<byte>)
    requires DecodeEntry(s).Some?
    ensures var (e, rest) := DecodeEntry(s).value;
            && s == EncodeEntry(e) + rest && 0 < |e.data| < U64 && e.loc < U64
  {
    var (e, rest) := DecodeEntry(s).value;
    var count := |e.data|;
    WordOfBytes(s[..8]);
    WordOfBytes(s[8..16]);
    assert Power256(8) == U64;
    NumberBound(s[..8]);
    NumberBound(s[8..16]);
    assert s == s[..8] + s[8..16] + s[16..16 + count] + s[16 + count..];
  }

  lemma {:induction false} EntriesBack(s: seq<byte>, n: nat)
    requires DecodeEntries(s, n).Some?
    ensures EncodeEntries(DecodeEntries(s, n).value) <= s
    decreases n
  {
    if n > 0 {
      EntryBack(s);
      var (e, rest) := DecodeEntry(s).value;
      EntriesBack(rest, n - 1);
      var es := DecodeEntries(rest, n - 1).value;
      EncodeFirst([e] + es);
      assert ([e] + es)[1..] == es;
    }
  }

  lemma LoadedBack(s: seq<byte>, log: seq<Entry>)
    requires Decode(s) == Some(log)
    ensures Storable(log) && Encode(log) <= s
  {
    hide DecodeEntries, EncodeEntries, LittleEndian, FromLittleEndian;
    var n := FromLittleEndian(s[..8]);
    WordOfBytes(s[..8]);
    EntriesBack(s[8..], n);
    DecodedStorable(s[8..], n);
    assert s == s[..8] + s[8..];
  }

  /** A file loads as a log exactly when it begins with what storing that log writes. */
  lemma LoadExactly(s: seq<byte>, log: seq<Entry>)
    ensures Decode(s) == Some(log) <==> Storable(log) && Encode(log) <= s
  {
    hide Decode;
    if Decode(s) == Some(log) {
      LoadedBack(s, log);
    }
    if Storable(log) && Encode(log) <= s {
      FileRoundTrip(log, s[|Encode(log)|..]);
      assert s == Encode(log) + s[|Encode(log)|..];
    }
  }

  /** Where entry i of a log begins in the file: after the count, each entry takes 16 bytes and its data. */
  ghost function EntryStart(log: seq<Entry>, i: nat): nat
    requires i <= |log|
  {
    if i == 0 then 8 else EntryStart(log, i - 1) + 16 + |log[i - 1].data|
  }

  /** The number in the eight bytes at a place, low byte first. */
  ghost predicate Number(s: seq<byte>, at: nat, n: nat) {
    && at + 8 <= |s|
    && n == s[at] as nat + 0x100 * s[at + 1] as nat + 0x1_0000 * s[at + 2] as nat + 0x100_0000 * s[at + 3] as nat
            + 0x1_0000_0000 * s[at + 4] as nat + 0x100_0000_0000 * s[at + 5] as nat
            + 0x1_0000_0000_0000 * s[at + 6] as nat + 0x100_0000_0000_0000 * s[at + 7] as nat
  }

  lemma EightBytes(s: seq<byte>)
    requires |s| == 8
    ensures Number(s, 0, FromLittleEndian(s))
  {
    FourBytes(s);
    FourBytes(s[4..]);
    assert s[4..][4..] == [];
  }

  lemma FourBytes(s: seq<byte>)
    requires |s| >= 4
    ensures FromLittleEndian(s) ==
            s[0] as nat + 0x100 * s[1] as nat + 0x1_0000 * s[2] as nat + 0x100_0000 * s[3] as nat
            + 0x1_0000_0000 * FromLittleEndian(s[4..])
  {
    assert s[1..][1..] == s[2..] && s[2..][1..] == s[3..] && s[3..][1..] == s[4..];
    var high := FromLittleEndian(s[4..]);
    assert FromLittleEndian(s[3..]) == s[3] as nat + 0x100 * high;
    assert FromLittleEndian(s[2..]) == s[2] as nat + 0x100 * s[3] as nat + 0x1_0000 * high;
    assert FromLittleEndian(s[1..]) == s[1] as nat + 0x100 * s[2] as nat + 0x1_0000 * s[3] as nat + 0x100_0000 * high;
  }

  /** A word as it stands in a file. */
  lemma WordAt(file: seq<byte>, at: nat, n: nat)
    requires n < U64 && at + 8 <= |file| && file[at..at + 8] == LittleEndian(n, 8)
    ensures Number(file, at, n)
  {
    WordRoundTrip(n);
    var word := file[at..at + 8];
    EightBytes(word);
    assert forall k :: 0 <= k < 8 ==> word[k] == file[at + k];
  }

  /** The file byte by byte: the number of entries, then for each its place, its length and its bytes. */
  lemma FileLayout(log: seq<Entry>, i: nat)
    requires Storable(log) && i < |log|
    ensures var file, at := Encode(log), EntryStart(log, i);
            && Number(file, 0, |log|) && Number(file, at, log[i].loc) && Number(file, at + 8, |log[i].data|)
            && at + 16 + |log[i].data| <= |file| == EntryStart(log, |log|)
            && file[at + 16..at + 16 + |log[i].data|] == log[i].data
  {
    hide Number, Encode, EncodeEntry, EntryStart;
    var file := Encode(log);
    var pre := EntryPlace(log, i);
    CountPlace(log);
    WordAt(file, 0, |log|);
    EntryLayout(file, pre, log[i]);
  }

  lemma CountPlace(log: seq<Entry>)
    requires Storable(log)
    ensures |Encode(log)| == EntryStart(log, |log|) >= 8 && Encode(log)[..8] == LittleEndian(|log|, 8)
  {
    hide LittleEndian, EncodeEntries, EntryStart;
    assert log[..|log|] == log;
    StartIs(log, |log|);
  }

  /** What comes before an entry of the file. */
  lemma EntryPlace(log: seq<Entry>, i: nat) returns (pre: seq<byte>)
    requires Storable(log) && i < |log|
    ensures |pre| == EntryStart(log, i) && pre + EncodeEntry(log[i]) <= Encode(log)
  {
    hide LittleEndian, EncodeEntries, EncodeEntry, EntryStart;
    var count := LittleEndian(|log|, 8);
    pre := count + EncodeEntries(log[..i]);
    StartIs(log, i);
    EncodePrefix(log, i + 1);
    EncodeMore(log, i);
    assert pre + EncodeEntry(log[i]) == count + EncodeEntries(log[..i + 1]);
  }

  lemma EntryLayout(file: seq<byte>, pre: seq<byte>, e: Entry)
    requires pre + EncodeEntry(e) <= file && e.loc < U64 && |e.data| < U64
    ensures var at := |pre|;
            && Number(file, at, e.loc) && Number(file, at + 8, |e.data|) && at + 16 + |e.data| <= |file|
            && file[at + 16..at + 16 + |e.data|] == e.data
  {
    hide Number, LittleEndian;
    var at, a, b := |pre|, LittleEndian(e.loc, 8), LittleEndian(|e.data|, 8);
    assert pre + EncodeEntry(e) == pre + a + b + e.data;
    Inner(file, pre, a, at);
    Inner(file, pre + a, b, at + 8);
    Inner(file, pre + a + b, e.data, at + 16);
    WordAt(file, at, e.loc);
    WordAt(file, at + 8, |e.data|);
  }

  lemma Inner(file: seq<byte>, pre: seq<byte>, here: seq<byte>, at: nat)
    requires pre + here <= file && |pre| == at
    ensures at + |here| <= |file| && file[at..at + |here|] == here
    ensures forall k :: 0 <= k < |here| ==> file[at + k] == here[k]
  {
    var both := pre + here;
    assert file[..|both|] == both;
    assert forall k :: 0 <= k < |here| ==> file[at + k] == both[at + k] == here[k];
  }

  lemma {:induction false} StartIs(log: seq<Entry>, i: nat)
    requires i <= |log|
    ensures 8 + |EncodeEntries(log[..i])| == EntryStart(log, i)
  {
    if i == 0 {
      EncodeNone(log);
    } else {
      StartIs(log, i - 1);
      EncodeMore(log, i - 1);
    }
  }

  lemma {:induction false} EncodePrefix(log: seq<Entry>, i: nat)
    requires i <= |log|
    ensures EncodeEntries(log[..i]) <= EncodeEntries(log)
    decreases |log| - i
  {
    if i == |log| {
      assert log[..i] == log;
    } else {
      EncodePrefix(log, i + 1);
      EncodeMore(log, i);
    }
  }
}
