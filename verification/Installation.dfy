/**
 Whole runs of the BIOS installer of limine-bin/limine.c: any sequence of device accesses, ended by
 success or by the first failure, and what is on the device afterwards.
 */
module Installation {
  import opened Common
  import opened Undo
  import opened BlockCache

  /** What bios_install does to the device, step by step; a Stop is any other reason to give up. */
  datatype Op =
    | ReadAt(loc: nat, count: nat)
    | WriteAt(loc: nat, buf: seq<byte>)
    | FlushNow
    | Stop

  predicate WordSized(op: Op) {
    (op.ReadAt? || op.WriteAt?) ==> op.loc < U64
  }

  /** What the step does to a plain disk. */
  function Effect(d: seq<byte>, op: Op): seq<byte> {
    if op.WriteAt? then Splice(d, op.loc, op.buf) else d
  }

  function Effects(d: seq<byte>, ops: seq<Op>): seq<byte> {
    if ops == [] then d else Effect(Effects(d, ops[..|ops| - 1]), ops[|ops| - 1])
  }

  function Writes(ops: seq<Op>): (n: nat)
    ensures n <= |ops|
  {
    if ops == [] then 0 else Writes(ops[..|ops| - 1]) + if ops[|ops| - 1].WriteAt? then 1 else 0
  }

  /** The step can be done on a device of n bytes. */
  predicate Doable(bs: nat, n: nat, op: Op)
    requires bs > 0
  {
    match op
    case ReadAt(loc, count) => Fit(bs, n, loc, count) == count
    case WriteAt(loc, buf) => Fit(bs, n, loc, |buf|) == |buf|
    case FlushNow => true
    case Stop => false
  }

  predicate AllDoable(bs: nat, n: nat, ops: seq<Op>)
    requires bs > 0
  {
    forall i :: 0 <= i < |ops| ==> Doable(bs, n, ops[i])
  }

  /** Every logged range can be written back. */
  ghost predicate Replayable(m: Installer)
    reads m
  {
    m.bs > 0 && AllFit(m.bs, |m.device|, m.log) && forall i :: 0 <= i < |m.log| ==> m.log[i].loc < U64
  }

  /** Each entry of the log is one of the reversed log, and the other way round. */
  lemma ReversedSame(log: seq<Entry>)
    ensures forall i :: 0 <= i < |log| ==> log[i] in Reversed(log)
    ensures forall i :: 0 <= i < |log| ==> Reversed(log)[i] in log
  {
    var r := Reversed(log);
    forall i | 0 <= i < |log|
      ensures log[i] in r && r[i] in log
    {
      assert log[i] == r[|log| - 1 - i];
    }
  }

  lemma ReversedFits(bs: nat, n: nat, log: seq<Entry>)
    requires bs > 0
    ensures AllFit(bs, n, Reversed(log)) <==> AllFit(bs, n, log)
  {
    ReversedSame(log);
  }

  lemma EffectsMore(d: seq<byte>, ops: seq<Op>, i: nat)
    requires i < |ops|
    ensures Effects(d, ops[..i + 1]) == Effect(Effects(d, ops[..i]), ops[i])
    ensures Writes(ops[..i + 1]) == Writes(ops[..i]) + if ops[i].WriteAt? then 1 else 0
  {
    assert ops[..i + 1][..i] == ops[..i];
  }

  lemma {:induction false} WritesGrow(ops: seq<Op>, i: nat)
    requires i <= |ops|
    ensures Writes(ops[..i]) <= Writes(ops)
    decreases |ops| - i
  {
    if i == |ops| {
      assert ops[..i] == ops;
    } else {
      EffectsMore([], ops, i);
      WritesGrow(ops, i + 1);
    }
  }

  /** One step of an installation that started from orig. */
  method Perform(m: Installer, op: Op, ghost orig: seq<byte>) returns (ok: bool)
    requires m.Valid() && m.Coherent() && !m.uninstalling && WordSized(op)
    requires Replayable(m) && Undoes(m.log, orig, m.Disk(), m.device)
    modifies m`device, m`dirty, m`cache, m`cachedBlock, m`log
    ensures m.Valid() && |m.device| == |old(m.device)| && Replayable(m)
    ensures ok <==> Doable(m.bs, |m.device|, op) && (op.WriteAt? ==> |old(m.log)| < LOG_MAX)
    ensures ok ==> m.Coherent() && m.Disk() == Effect(old(m.Disk()), op) && Undoes(m.log, orig, m.Disk(), m.device)
    ensures ok ==> |m.log| == |old(m.log)| + if op.WriteAt? then 1 else 0
    ensures !ok ==> Replay(m.device, Reversed(m.log)) == orig
    ensures ok && op.WriteAt? ==> |m.log[|m.log| - 1].data| == |op.buf| && m.log[..|m.log| - 1] == old(m.log)
    ensures !(ok && op.WriteAt?) ==> m.log == old(m.log)
  {
    hide Installer.Coherent, Installer.Disk, Undoes, Splice, Fit, Replay;
    ghost var disk, dev, was := m.Disk(), m.device, m.log;
    match op {
      case ReadAt(loc, count) =>
        var done, _ := m.Read(loc, count);
        ok := done;
        MovedBytes(was, orig, disk, dev, m.device);
        UndoesDevice(was, orig, disk, m.device);
      case WriteAt(loc, buf) =>
        ok := m.Write(buf, loc);
        if ok {
          ghost var e := m.log[|was|];
          assert m.log == was + [e];
          RecordedWrite(was, orig, disk, dev, buf, e, m.device);
        } else {
          MovedBytes(was, orig, disk, dev, m.device);
          UndoesDevice(was, orig, disk, m.device);
        }
      case FlushNow =>
        m.Flush();
        MixedSelf(disk, dev);
        MovedBytes(was, orig, disk, dev, m.device);
        ok := true;
      case Stop =>
        UndoesDevice(was, orig, disk, dev);
        ok := false;
    }
  }

  lemma MixedSelf(disk: seq<byte>, dev: seq<byte>)
    requires |disk| == |dev|
    ensures Mixed(disk, dev, disk, disk)
  {
  }

  lemma Fresh(disk: seq<byte>)
    ensures Undoes([], disk, disk, disk)
  {
  }

  /** Entries without bytes were logged exactly when empty buffers were written. */
  predicate NoEmptyWrites(ops: seq<Op>) {
    forall i :: 0 <= i < |ops| && ops[i].WriteAt? ==> ops[i].buf != []
  }

  predicate NoEmptyEntries(log: seq<Entry>) {
    forall i :: 0 <= i < |log| ==> log[i].data != []
  }

  /** The steps of bios_install up to its cleanup label. */
  method Attempt(m: Installer, ops: seq<Op>) returns (ok: bool)
    requires m.Valid() && m.Coherent() && !m.dirty && !m.uninstalling && m.log == []
    requires forall i :: 0 <= i < |ops| ==> WordSized(ops[i])
    modifies m`device, m`dirty, m`cache, m`cachedBlock, m`log
    ensures m.Valid() && |m.device| == |old(m.device)| && Replayable(m)
    ensures ok <==> AllDoable(m.bs, |m.device|, ops) && Writes(ops) <= LOG_MAX
    ensures ok ==> m.device == Effects(old(m.device), ops)
    ensures Replay(m.device, Reversed(m.log)) == old(m.device)
    ensures ok ==> (NoEmptyEntries(m.log) <==> NoEmptyWrites(ops))
  {
    hide Undoes, Splice, Fit, Replay, Effect, Effects, Writes;
    ghost var orig := m.device;
    assert m.Disk() == orig;
    Fresh(orig);
    StartOps(orig, ops);
    ok := true;
    var i := 0;
    while ok && i < |ops|
      invariant 0 <= i <= |ops|
      invariant m.Valid() && |m.device| == |orig| && Replayable(m)
      invariant ok ==> m.Coherent() && AllDoable(m.bs, |m.device|, ops[..i])
      invariant ok ==> Undoes(m.log, orig, m.Disk(), m.device)
      invariant ok ==> |m.log| == Writes(ops[..i]) && m.Disk() == Effects(orig, ops[..i])
      invariant ok ==> (NoEmptyEntries(m.log) <==> NoEmptyWrites(ops[..i]))
      invariant !ok ==> Replay(m.device, Reversed(m.log)) == orig
      invariant !ok ==> !(AllDoable(m.bs, |m.device|, ops) && Writes(ops) <= LOG_MAX)
    {
      ok := Step(m, ops, i, orig);
      i := i + 1;
    }
    if ok {
      assert ops[..i] == ops;
      ghost var disk, dev := m.Disk(), m.device;
      m.Flush();
      MixedSelf(disk, dev);
      MovedBytes(m.log, orig, disk, dev, m.device);
      UndoesDevice(m.log, orig, disk, m.device);
    }
  }

  lemma StartOps(d: seq<byte>, ops: seq<Op>)
    ensures Effects(d, ops[..0]) == d && Writes(ops[..0]) == 0
  {
  }

  /** Step i of an attempt. */
  method Step(m: Installer, ops: seq<Op>, i: nat, ghost orig: seq<byte>) returns (ok: bool)
    requires i < |ops| && WordSized(ops[i])
    requires m.Valid() && |m.device| == |orig| && Replayable(m) && !m.uninstalling
    requires m.Coherent() && AllDoable(m.bs, |m.device|, ops[..i])
    requires Undoes(m.log, orig, m.Disk(), m.device)
    requires |m.log| == Writes(ops[..i]) && m.Disk() == Effects(orig, ops[..i])
    requires NoEmptyEntries(m.log) <==> NoEmptyWrites(ops[..i])
    modifies m`device, m`dirty, m`cache, m`cachedBlock, m`log
    ensures m.Valid() && |m.device| == |orig| && Replayable(m)
    ensures ok ==> m.Coherent() && AllDoable(m.bs, |m.device|, ops[..i + 1])
    ensures ok ==> Undoes(m.log, orig, m.Disk(), m.device)
    ensures ok ==> |m.log| == Writes(ops[..i + 1]) && m.Disk() == Effects(orig, ops[..i + 1])
    ensures ok ==> (NoEmptyEntries(m.log) <==> NoEmptyWrites(ops[..i + 1]))
    ensures !ok ==> Replay(m.device, Reversed(m.log)) == orig
    ensures !ok ==> !(AllDoable(m.bs, |m.device|, ops) && Writes(ops) <= LOG_MAX)
  {
    hide Installer.Coherent, Installer.Disk, Undoes, Splice, Fit, Replay, Effect, Effects, Writes;
    ghost var was := m.log;
    EffectsMore(orig, ops, i);
    WritesGrow(ops, i + 1);
    ok := Perform(m, ops[i], orig);
    if ok {
      StepEmpty(was, m.log, ops, i);
    }
  }

  lemma StepEmpty(was: seq<Entry>, log: seq<Entry>, ops: seq<Op>, i: nat)
    requires i < |ops| && (NoEmptyEntries(was) <==> NoEmptyWrites(ops[..i]))
    requires if ops[i].WriteAt? then log != [] && log[..|log| - 1] == was && |log[|log| - 1].data| == |ops[i].buf|
             else log == was
    ensures NoEmptyEntries(log) <==> NoEmptyWrites(ops[..i + 1])
  {
    var a, b := ops[..i], ops[..i + 1];
    assert forall j :: 0 <= j < i ==> a[j] == b[j];
    assert b[i] == ops[i];
    assert forall j :: 0 <= j < |was| ==> was[j] == log[j];
    if ops[i].WriteAt? && NoEmptyEntries(log) {
      assert log[|was|].data != [];
    }
  }

  /**
   bios_install: a failed installation leaves the device as it was, whatever had been flushed; a
   successful one does exactly its writes, and its stored log undoes them.
   */
  method Install(m: Installer, ops: seq<Op>, keep: bool) returns (ok: bool, file: Option<seq<byte>>)
    requires m.Valid() && m.Coherent() && !m.dirty && !m.uninstalling && m.log == []
    requires forall i :: 0 <= i < |ops| ==> WordSized(ops[i])
    modifies m
    ensures m.Valid() && |m.device| == |old(m.device)|
    ensures ok <==> AllDoable(m.bs, |m.device|, ops) && Writes(ops) <= LOG_MAX
    ensures m.device == if ok then Effects(old(m.device), ops) else old(m.device)
    ensures file.Some? <==> ok && keep && NoEmptyWrites(ops)
    ensures file.Some? ==> Decode(file.value).Some? && AllFit(m.bs, |m.device|, Decode(file.value).value)
                           && Replay(m.device, Decode(file.value).value) == old(m.device)
  {
    hide Installer.Coherent, Installer.Disk, Splice, Fit, Replay, Effect, Effects, Writes, Decode, Encode;
    file := None;
    ok := Attempt(m, ops);
    ghost var n := m.log;
    ReversedFits(m.bs, |m.device|, m.log);
    m.ReverseLog();
    if !ok {
      var _ := m.Uninstall();
    } else if keep {
      var stored, bytes := m.Store();
      ReversedEmpty(n);
      if stored {
        FitsStorable(m.bs, |m.device|, m.log);
        FileRoundTrip(m.log, []);
        assert bytes + [] == bytes;
        file := Some(bytes);
      }
    }
  }

  lemma ReversedEmpty(log: seq<Entry>)
    ensures NoEmptyEntries(Reversed(log)) <==> NoEmptyEntries(log)
  {
    ReversedSame(log);
  }

  lemma FitsStorable(bs: nat, n: nat, log: seq<Entry>)
    requires bs > 0 && n < U64 && AllFit(bs, n, log) && NoEmptyEntries(log) && |log| <= LOG_MAX
    requires forall i :: 0 <= i < |log| ==> log[i].loc < U64
    ensures Undo.Storable(log)
  {
    hide Whole;
    forall i | 0 <= i < |log|
      ensures |log[i].data| < U64
    {
      assert Fit(bs, n, log[i].loc, |log[i].data|) == |log[i].data|;
    }
  }

  /** bios_install --uninstall */
  method UninstallMode(m: Installer, file: seq<byte>) returns (ok: bool)
    requires m.Valid()
    modifies m
    ensures m.Valid() && |m.device| == |old(m.device)|
    ensures ok <==> Decode(file).Some? && AllFit(m.bs, |m.device|, Decode(file).value)
    ensures ok ==> m.device == Replay(old(m.device), Decode(file).value)
    ensures Decode(file).None? ==> m.device == old(m.device)
  {
    hide Splice, Fit, Replay;
    var loaded := Load(file);
    if loaded.None? {
      return false;
    }
    DecodedStorable(file[8..], |loaded.value|);
    m.log := loaded.value;
    ok := m.Uninstall();
  }

  /** Installing, and uninstalling in a later run from the stored file, gives the device back. */
  method InstallAndBack(bs: nat, device: seq<byte>, ops: seq<Op>) returns (installed: bool, after: seq<byte>)
    requires bs in {512, 2048, 4096} && bs <= |device| < MAX_DEVICE
    requires forall i :: 0 <= i < |ops| ==> WordSized(ops[i])
    ensures installed <==> AllDoable(bs, |device|, ops) && Writes(ops) <= LOG_MAX && NoEmptyWrites(ops)
    ensures installed || !(AllDoable(bs, |device|, ops) && Writes(ops) <= LOG_MAX) ==> after == device
    ensures !installed && AllDoable(bs, |device|, ops) && Writes(ops) <= LOG_MAX ==> after == Effects(device, ops)
  {
    hide Splice, Fit, Replay, Decode, Effects, Writes;
    var m := new Installer(bs, device);
    var _, file := Install(m, ops, true);
    after := m.device;
    installed := file.Some?;
    if installed {
      var later := new Installer(bs, after);
      var _ := UninstallMode(later, file.value);
      after := later.device;
    }
  }
}
