/**
 The byte streams of connected sockets in src/kernel/main.c: one ring of 16384 bytes per direction,
 filled and drained by sendto, sendmsg, recvfrom and recvmsg. No copy to or from user memory fails.
 */
module Sockets {
  import opened Common

  const CAP := 16384
  const CHUNK := 256
  const MAX_IOV := 64
  const MAX_IOV_LEN := 0x10_0000
  const MAX_TOTAL := 0x100_0000

  datatype Outcome = Done(n: nat) | NotConnected | BrokenPipe | Again | Invalid | Fault | Blocks

  class Ring {
    const data: array<byte>
    var rpos: nat
    var wpos: nat
    var count: nat
    /** All bytes ever put in, and all ever taken out. */
    ghost var sent: seq<byte>
    ghost var received: seq<byte>

    ghost predicate Valid()
      reads this, data
    {
      && data.Length == CAP && rpos < CAP && wpos < CAP && count <= CAP && wpos == Slot(rpos, count)
      && sent == received + Contents()
    }

    /** The bytes in the ring, oldest first. */
    ghost function Contents(): (s: seq<byte>)
      reads this`rpos, this`count, data
      requires data.Length == CAP
      ensures |s| == count
    {
      Window(data[..], rpos, count)
    }

    constructor ()
      ensures Valid() && sent == [] && received == [] && count == 0 && fresh(data)
    {
      data := new byte[CAP];
      rpos, wpos, count := 0, 0, 0;
      sent, received := [], [];
    }

    method Put(b: byte)
      requires Valid() && count < CAP
      modifies this`wpos, this`count, this`sent, data
      ensures Valid() && sent == old(sent) + [b] && received == old(received) && count == old(count) + 1
    {
      PutWindow(data[..], rpos, count, b);
      ghost var was := data[..];
      data[wpos] := b;
      assert data[..] == was[wpos := b];
      wpos := (wpos + 1) % CAP;
      count := count + 1;
      sent := sent + [b];
    }

    method Get() returns (b: byte)
      requires Valid() && count > 0
      modifies this`rpos, this`count, this`received
      ensures Valid() && received == old(received) + [b] && sent == old(sent) && count == old(count) - 1
    {
      GetWindow(data[..], rpos, count);
      b := data[rpos];
      rpos := (rpos + 1) % CAP;
      count := count - 1;
      received := received + [b];
    }

    /** Copy a buffer in, at most 256 bytes at a time. */
    method PutAll(buf: seq<byte>)
      requires Valid() && count + |buf| <= CAP
      modifies this`wpos, this`count, this`sent, data
      ensures Valid() && sent == old(sent) + buf && received == old(received) && count == old(count) + |buf|
    {
      hide Valid;
      var done := 0;
      while done < |buf|
        invariant done <= |buf| && Valid() && received == old(received)
        invariant sent == old(sent) + buf[..done] && count == old(count) + done
        decreases |buf| - done
      {
        var k := if |buf| - done > CHUNK then CHUNK else |buf| - done;
        var tmp := buf[done..done + k];
        for i := 0 to k
          invariant Valid() && received == old(received)
          invariant sent == old(sent) + buf[..done] + tmp[..i] && count == old(count) + done + i
        {
          Put(tmp[i]);
          assert tmp[..i + 1] == tmp[..i] + [tmp[i]];
        }
        assert buf[..done + k] == buf[..done] + tmp[..k];
        done := done + k;
      }
      assert buf[..done] == buf;
    }

    /** Copy n bytes out, at most 256 at a time. */
    method GetSome(n: nat) returns (out: seq<byte>)
      requires Valid() && n <= count
      modifies this`rpos, this`count, this`received
      ensures Valid() && |out| == n && received == old(received) + out && sent == old(sent) && count == old(count) - n
    {
      hide Valid;
      out := [];
      while |out| < n
        invariant |out| <= n && Valid() && sent == old(sent)
        invariant received == old(received) + out && count == old(count) - |out|
        decreases n - |out|
      {
        var k := if n - |out| > CHUNK then CHUNK else n - |out|;
        var tmp: seq<byte> := [];
        for i := 0 to k
          invariant |tmp| == i && Valid() && sent == old(sent)
          invariant received == old(received) + out + tmp && count == old(count) - |out| - i
        {
          var b := Get();
          tmp := tmp + [b];
        }
        out := out + tmp;
      }
    }
  }

  /** All the bytes of a message. */
  function Joined(iov: seq<seq<byte>>): seq<byte> {
    if iov == [] then [] else Joined(iov[..|iov| - 1]) + iov[|iov| - 1]
  }

  function Total(lens: seq<nat>): nat {
    if lens == [] then 0 else Total(lens[..|lens| - 1]) + lens[|lens| - 1]
  }

  function Lengths(iov: seq<seq<byte>>): (lens: seq<nat>)
    ensures |lens| == |iov| && forall i :: 0 <= i < |iov| ==> lens[i] == |iov[i]|
  {
    seq(|iov|, i requires 0 <= i < |iov| => |iov[i]|)
  }

  lemma {:induction false} JoinedLength(iov: seq<seq<byte>>)
    ensures |Joined(iov)| == Total(Lengths(iov))
  {
    if iov != [] {
      var n := |iov| - 1;
      JoinedLength(iov[..n]);
      assert Lengths(iov)[..n] == Lengths(iov[..n]);
    }
  }

  lemma TotalMore(lens: seq<nat>, i: nat)
    requires i < |lens|
    ensures Total(lens[..i + 1]) == Total(lens[..i]) + lens[i]
  {
    assert lens[..i + 1][..i] == lens[..i];
  }

  lemma {:induction false} TotalGrows(lens: seq<nat>, i: nat)
    requires i <= |lens|
    ensures Total(lens[..i]) <= Total(lens)
    decreases |lens| - i
  {
    if i == |lens| {
      assert lens[..i] == lens;
    } else {
      TotalMore(lens, i);
      TotalGrows(lens, i + 1);
    }
  }

  /** The lengths of a message are acceptable. */
  predicate GoodMessage(lens: seq<nat>) {
    |lens| <= MAX_IOV && (forall i :: 0 <= i < |lens| ==> lens[i] <= MAX_IOV_LEN) && Total(lens) <= MAX_TOTAL
  }

  /** socket_msg_copy_in and the sum that follows it */
  method CheckMessage(lens: seq<nat>) returns (r: Outcome)
    ensures r.Done? <==> GoodMessage(lens)
    ensures r == if |lens| > MAX_IOV then Invalid
                 else if exists i :: 0 <= i < |lens| && lens[i] > MAX_IOV_LEN then Fault
                 else if Total(lens) > MAX_TOTAL then Invalid else Done(Total(lens))
  {
    if |lens| > MAX_IOV {
      return Invalid;
    }
    for i := 0 to |lens|
      invariant forall j :: 0 <= j < i ==> lens[j] <= MAX_IOV_LEN
    {
      if lens[i] > MAX_IOV_LEN {
        return Fault;
      }
    }
    var total := 0;
    for i := 0 to |lens|
      invariant total == Total(lens[..i]) && total <= MAX_TOTAL
    {
      TotalMore(lens, i);
      if total > MAX_TOTAL - lens[i] {
        TotalGrows(lens, i + 1);
        return Invalid;
      }
      total := total + lens[i];
    }
    assert lens[..|lens|] == lens;
    return Done(total);
  }

  // ----- A pair of queues -----

  /** What each end has yet to receive, which ends are closed, and the references. */
  datatype Wire = Wire(q0: seq<byte>, q1: seq<byte>, closed: map<bool, bool>, refs: nat, sideRefs: map<bool, nat>)

  /** The state after a call, what it returns and the bytes it delivers. */
  datatype Reply = Reply(wire: Wire, r: Outcome, out: seq<byte>)

  ghost predicate Proper(w: Wire) {
    w.closed.Keys == {false, true} && w.sideRefs.Keys == {false, true}
  }

  ghost function Queue(w: Wire, side: bool): seq<byte> {
    if side then w.q1 else w.q0
  }

  ghost function WithQueue(w: Wire, side: bool, q: seq<byte>): Wire {
    if side then w.(q1 := q) else w.(q0 := q)
  }

  ghost function Queued(w: Wire, side: bool, bytes: seq<byte>): Reply {
    Reply(WithQueue(w, !side, Queue(w, !side) + bytes), Done(|bytes|), [])
  }

  ghost function Refused(w: Wire, r: Outcome): Reply {
    Reply(w, r, [])
  }

  /** What is wrong with a message of these lengths. */
  ghost function Verdict(lens: seq<nat>): Outcome {
    if |lens| > 64 then Invalid
    else if exists i :: 0 <= i < |lens| && lens[i] > 1024 * 1024 then Fault
    else if Total(lens) > 16 * 1024 * 1024 then Invalid
    else Done(Total(lens))
  }

  /** As many bytes as fit behind those waiting, 16384 in all. */
  ghost function Sending(w: Wire, side: bool, buf: seq<byte>, nonblock: bool): Reply
    requires Proper(w)
  {
    var room := 16384 - |Queue(w, !side)|;
    if w.refs < 2 then Refused(w, NotConnected)
    else if w.closed[!side] then Refused(w, BrokenPipe)
    else if buf == [] then Refused(w, Done(0))
    else if room <= 0 then Refused(w, if nonblock then Again else Blocks)
    else Queued(w, side, if |buf| <= room then buf else buf[..room])
  }

  /** A whole message or nothing. */
  ghost function SendingMessage(w: Wire, side: bool, iov: seq<seq<byte>>, nonblock: bool): Reply
    requires Proper(w)
  {
    if w.refs < 2 then Refused(w, NotConnected)
    else if !Verdict(Lengths(iov)).Done? || Joined(iov) == [] then Refused(w, Verdict(Lengths(iov)))
    else if w.closed[!side] then Refused(w, BrokenPipe)
    else if |Queue(w, !side)| + |Joined(iov)| > 16384 then Refused(w, if nonblock then Again else Blocks)
    else Queued(w, side, Joined(iov))
  }

  /** The oldest bytes, as many as asked for or as there are; nothing at the end of the stream. */
  ghost function Receiving(w: Wire, side: bool, len: nat, nonblock: bool): Reply
    requires Proper(w)
  {
    var q := Queue(w, side);
    var n := if len <= |q| then len else |q|;
    if len == 0 then Refused(w, Done(0))
    else if q != [] then Reply(WithQueue(w, side, q[n..]), Done(n), q[..n])
    else if w.closed[!side] then Refused(w, Done(0))
    else Refused(w, if nonblock then Again else Blocks)
  }

  ghost function ReceivingMessage(w: Wire, side: bool, lens: seq<nat>, nonblock: bool): Reply
    requires Proper(w)
  {
    if !Verdict(lens).Done? then Refused(w, Verdict(lens)) else Receiving(w, side, Total(lens), nonblock)
  }

  /** An end is closed when its last reference goes. */
  ghost function Dropping(w: Wire, side: bool): Wire
    requires Proper(w)
  {
    var left := if w.sideRefs[side] > 0 then w.sideRefs[side] - 1 else 0;
    w.(refs := if w.refs > 0 then w.refs - 1 else 0, sideRefs := w.sideRefs[side := left],
       closed := w.closed[side := w.closed[side] || w.sideRefs[side] == 1])
  }

  /** What each call is to do to the two queues. */
  ghost function Answer(w: Wire, op: Op): (a: Reply)
    requires Proper(w)
    ensures Proper(a.wire)
  {
    match op
    case Send(side, buf, nonblock) => Sending(w, side, buf, nonblock)
    case SendMessage(side, iov, nonblock) => SendingMessage(w, side, iov, nonblock)
    case Recv(side, len, nonblock) => Receiving(w, side, len, nonblock)
    case RecvMessage(side, lens, nonblock) => ReceivingMessage(w, side, lens, nonblock)
    case Drop(side) => Refused(Dropping(w, side), Done(0))
  }

  ghost function AfterAll(w: Wire, ops: seq<Op>): (r: Wire)
    requires Proper(w)
    ensures Proper(r)
    decreases |ops|
  {
    if ops == [] then w else Answer(AfterAll(w, ops[..|ops| - 1]), ops[|ops| - 1]).wire
  }

  /** Call i of a run returns r and delivers out. */
  ghost predicate Returned(w: Wire, ops: seq<Op>, i: nat, r: Outcome, out: seq<byte>)
    requires Proper(w) && i < |ops|
  {
    var a := Answer(AfterAll(w, ops[..i]), ops[i]);
    r == a.r && out == a.out
  }

  lemma ReturnedNow(w: Wire, ops: seq<Op>, i: nat, r: Outcome, out: seq<byte>, now: Wire)
    requires Proper(w) && i < |ops| && Reply(now, r, out) == Answer(AfterAll(w, ops[..i]), ops[i])
    ensures Returned(w, ops, i, r, out)
  {
  }

  /** The bytes calls of the other end have queued for this one. */
  ghost function SentTo(w: Wire, ops: seq<Op>, side: bool): seq<byte>
    requires Proper(w)
    decreases |ops|
  {
    if ops == [] then [] else
      var n := |ops| - 1;
      var r := Answer(AfterAll(w, ops[..n]), ops[n]).r;
      SentTo(w, ops[..n], side) + Accepted(ops[n], r, side)
  }

  /** As many bytes of the buffer or message as the call says. */
  ghost function Accepted(op: Op, r: Outcome, side: bool): seq<byte> {
    if (op.Send? || op.SendMessage?) && op.side == !side && r.Done? then
      var all := if op.Send? then op.buf else Joined(op.iov);
      if r.n <= |all| then all[..r.n] else []
    else []
  }

  /** The bytes delivered to an end. */
  ghost function GotBy(w: Wire, ops: seq<Op>, side: bool): seq<byte>
    requires Proper(w)
    decreases |ops|
  {
    if ops == [] then [] else
      var n := |ops| - 1;
      GotBy(w, ops[..n], side) + if ops[n].side == side then Answer(AfterAll(w, ops[..n]), ops[n]).out else []
  }

  /** Over any run each end has got, in order, a prefix of what was sent to it; the rest, at most 16384 bytes, waits. */
  lemma {:induction false} FirstInFirstOut(w: Wire, ops: seq<Op>, side: bool)
    requires Proper(w) && |Queue(w, side)| <= 16384
    ensures Queue(w, side) + SentTo(w, ops, side) == GotBy(w, ops, side) + Queue(AfterAll(w, ops), side)
    ensures |Queue(AfterAll(w, ops), side)| <= 16384
    decreases |ops|
  {
    if ops != [] {
      var n := |ops| - 1;
      hide Answer, Accepted, Proper, Queue;
      FirstInFirstOut(w, ops[..n], side);
      var before := AfterAll(w, ops[..n]);
      var a := Answer(before, ops[n]);
      OneCall(before, ops[n], side);
      Joins(Queue(w, side), SentTo(w, ops[..n], side), GotBy(w, ops[..n], side), Queue(before, side),
            Accepted(ops[n], a.r, side), if ops[n].side == side then a.out else [], Queue(a.wire, side));
    }
  }

  lemma OneCall(w: Wire, op: Op, side: bool)
    requires Proper(w) && |Queue(w, side)| <= 16384
    ensures var a := Answer(w, op);
            && |Queue(a.wire, side)| <= 16384
            && Queue(w, side) + Accepted(op, a.r, side) == (if op.side == side then a.out else []) + Queue(a.wire, side)
  {
    hide Joined, Total, Verdict, Sending, SendingMessage, Receiving, Dropping;
    match op
    case Send(s, buf, nonblock) =>
      SendQueues(w, s, buf, nonblock, side);
    case SendMessage(s, iov, nonblock) =>
      MessageQueues(w, s, iov, nonblock, side);
    case Recv(s, len, nonblock) => ReceiveQueues(w, s, len, nonblock, side);
    case RecvMessage(s, lens, nonblock) =>
      if Verdict(lens).Done? {
        ReceiveQueues(w, s, Total(lens), nonblock, side);
      }
    case Drop(s) => DropQueues(w, s, side);
  }

  lemma SendQueues(w: Wire, s: bool, buf: seq<byte>, nonblock: bool, side: bool)
    requires Proper(w) && |Queue(w, side)| <= 16384
    ensures var a := Sending(w, s, buf, nonblock);
            && a.out == [] && |Queue(a.wire, side)| <= 16384
            && Queue(a.wire, side) == Queue(w, side) + Accepted(Send(s, buf, nonblock), a.r, side)
  {
    assert buf[..|buf|] == buf;
  }

  lemma MessageQueues(w: Wire, s: bool, iov: seq<seq<byte>>, nonblock: bool, side: bool)
    requires Proper(w) && |Queue(w, side)| <= 16384
    ensures var a := SendingMessage(w, s, iov, nonblock);
            && a.out == [] && |Queue(a.wire, side)| <= 16384
            && Queue(a.wire, side) == Queue(w, side) + Accepted(SendMessage(s, iov, nonblock), a.r, side)
  {
    hide Joined, Total;
    assert Joined(iov)[..|Joined(iov)|] == Joined(iov);
    JoinedLength(iov);
  }

  lemma ReceiveQueues(w: Wire, s: bool, len: nat, nonblock: bool, side: bool)
    requires Proper(w) && |Queue(w, side)| <= 16384
    ensures var a := Receiving(w, s, len, nonblock);
            && |Queue(a.wire, side)| <= 16384
            && Queue(w, side) == (if s == side then a.out else []) + Queue(a.wire, side)
  {
  }

  lemma DroppingIs(w: Wire, side: bool)
    requires Proper(w)
    ensures w.sideRefs[side] == 0 ==> Dropping(w, side) == w.(refs := if w.refs > 0 then w.refs - 1 else 0)
    ensures w.sideRefs[side] > 1 ==>
              Dropping(w, side) == w.(refs := if w.refs > 0 then w.refs - 1 else 0,
                                      sideRefs := w.sideRefs[side := w.sideRefs[side] - 1])
    ensures w.sideRefs[side] == 1 ==>
              Dropping(w, side) == w.(refs := if w.refs > 0 then w.refs - 1 else 0,
                                      sideRefs := w.sideRefs[side := 0], closed := w.closed[side := true])
    ensures w.closed[side := w.closed[side]] == w.closed && w.sideRefs[side := w.sideRefs[side]] == w.sideRefs
  {
    assert w.closed[side := w.closed[side]] == w.closed && w.sideRefs[side := w.sideRefs[side]] == w.sideRefs;
  }

  lemma DropQueues(w: Wire, s: bool, side: bool)
    requires Proper(w)
    ensures Queue(Dropping(w, s), side) == Queue(w, side)
  {
  }

  lemma Joins(a: seq<byte>, s: seq<byte>, g: seq<byte>, q: seq<byte>, x: seq<byte>, o: seq<byte>, r: seq<byte>)
    requires a + s == g + q && q + x == o + r
    ensures a + (s + x) == (g + o) + r
  {
    assert a + (s + x) == (a + s) + x && (g + o) + r == g + (o + r) && (g + q) + x == g + (q + x);
  }

  /** Bytes put in behind, or taken out in front. */
  lemma QueueMoves(sent: seq<byte>, received: seq<byte>, was: seq<byte>, now: seq<byte>, put: seq<byte>, got: seq<byte>)
    requires sent == received + was && sent + put == received + got + now
    ensures was + put == got + now
    ensures |got| <= |was| ==> got == was[..|got|] && now == was[|got|..] + put
  {
    var a, b := was + put, got + now;
    assert received + a == sent + put && received + b == received + got + now;
    assert forall i :: 0 <= i < |a| ==> a[i] == (received + a)[|received| + i];
    assert forall i :: 0 <= i < |b| ==> b[i] == (received + b)[|received| + i];
    assert a == b;
    if |got| <= |was| {
      assert got == a[..|got|] && was[..|got|] == a[..|got|];
      assert now == b[|got|..] && was[|got|..] + put == a[|got|..];
    }
  }

  /** Two connected ends; ring i holds what end i has yet to receive. */
  class Connection {
    const ring0: Ring
    const ring1: Ring
    var closed: map<bool, bool>
    var refs: nat
    var sideRefs: map<bool, nat>

    ghost predicate Valid()
      reads this, ring0, ring1, ring0.data, ring1.data
    {
      && ring0 != ring1 && ring0.data != ring1.data && ring0.Valid() && ring1.Valid()
      && closed.Keys == {false, true} && sideRefs.Keys == {false, true}
    }

    constructor ()
      ensures Valid() && ring0.sent == [] && ring1.sent == [] && refs == 2 && fresh(ring0) && fresh(ring1)
      ensures fresh(ring0.data) && fresh(ring1.data)
      ensures View() == Wire([], [], map[false := false, true := false], 2, map[false := 1, true := 1])
    {
      ring0 := new Ring();
      ring1 := new Ring();
      closed, refs := map[false := false, true := false], 2;
      sideRefs := map[false := 1, true := 1];
    }

    function Inbox(side: bool): Ring {
      if side then ring1 else ring0
    }

    ghost function View(): Wire
      reads this, ring0, ring1, ring0.data, ring1.data
      requires Valid()
    {
      Wire(ring0.Contents(), ring1.Contents(), closed, refs, sideRefs)
    }

    /** sys_sendto: as much as there is room for */
    method SendTo(side: bool, buf: seq<byte>, nonblock: bool) returns (r: Outcome)
      requires Valid()
      modifies Inbox(!side), Inbox(!side).data
      ensures Valid() && Inbox(!side).received == old(Inbox(!side).received)
      ensures r == if refs < 2 then NotConnected else if closed[!side] then BrokenPipe
                   else if buf == [] then Done(0)
                   else if old(Inbox(!side).count) == CAP then (if nonblock then Again else Blocks)
                   else Done(Min(|buf|, CAP - old(Inbox(!side).count)))
      ensures Inbox(!side).sent == old(Inbox(!side).sent) + if r.Done? && r.n <= |buf| then buf[..r.n] else []
      ensures !r.Done? ==> Inbox(!side).count == old(Inbox(!side).count)
      ensures Proper(old(View())) && Reply(View(), r, []) == Sending(old(View()), side, buf, nonblock)
    {
      hide Ring.Valid;
      var ring := Inbox(!side);
      if refs < 2 {
        return NotConnected;
      }
      if closed[!side] {
        return BrokenPipe;
      }
      if buf == [] {
        return Done(0);
      }
      RingBound(ring);
      if CAP - ring.count == 0 {
        return if nonblock then Again else Blocks;
      }
      var n := Min(|buf|, CAP - ring.count);
      ring.PutAll(buf[..n]);
      RingBound(ring);
      QueueMoves(old(ring.sent), ring.received, old(ring.Contents()), ring.Contents(), buf[..n], []);
      return Done(n);
    }

    /** sys_recvfrom: as much as there is */
    method RecvFrom(side: bool, len: nat, nonblock: bool) returns (r: Outcome, out: seq<byte>)
      requires Valid()
      modifies Inbox(side)
      ensures Valid() && Inbox(side).sent == old(Inbox(side).sent)
      ensures r == if len == 0 then Done(0)
                   else if old(Inbox(side).count) == 0 then
                     (if closed[!side] then Done(0) else if nonblock then Again else Blocks)
                   else Done(Min(len, old(Inbox(side).count)))
      ensures |out| == (if r.Done? then r.n else 0) && Inbox(side).received == old(Inbox(side).received) + out
      ensures Proper(old(View())) && Reply(View(), r, out) == Receiving(old(View()), side, len, nonblock)
    {
      hide Ring.Valid;
      var ring := Inbox(side);
      out := [];
      if len == 0 {
        return Done(0), [];
      }
      if ring.count == 0 {
        return if closed[!side] then Done(0) else if nonblock then Again else Blocks, [];
      }
      var n := Min(len, ring.count);
      RingBound(ring);
      out := ring.GetSome(n);
      RingBound(ring);
      QueueMoves(ring.sent, old(ring.received), old(ring.Contents()), ring.Contents(), [], out);
      return Done(n), out;
    }

    /** sys_sendmsg: the whole message or nothing */
    method SendMsg(side: bool, iov: seq<seq<byte>>, nonblock: bool) returns (r: Outcome)
      requires Valid()
      modifies Inbox(!side), Inbox(!side).data
      ensures Valid() && Inbox(!side).received == old(Inbox(!side).received)
      ensures r.Done? ==> r.n == |Joined(iov)| && Inbox(!side).sent == old(Inbox(!side).sent) + Joined(iov)
      ensures !r.Done? ==> Inbox(!side).sent == old(Inbox(!side).sent) && Inbox(!side).count == old(Inbox(!side).count)
      ensures refs < 2 ==> r == NotConnected
      ensures refs >= 2 && !GoodMessage(Lengths(iov)) ==> r == Invalid || r == Fault
      ensures refs >= 2 && GoodMessage(Lengths(iov)) ==>
                r == if Joined(iov) == [] then Done(0) else if closed[!side] then BrokenPipe
                     else if |Joined(iov)| > CAP - old(Inbox(!side).count) then (if nonblock then Again else Blocks)
                     else Done(|Joined(iov)|)
      ensures Proper(old(View())) && Reply(View(), r, []) == SendingMessage(old(View()), side, iov, nonblock)
    {
      hide Ring.Valid;
      if refs < 2 {
        return NotConnected;
      }
      JoinedLength(iov);
      r := CheckMessage(Lengths(iov));
      if !r.Done? || r.n == 0 {
        return;
      }
      var ring, total := Inbox(!side), r.n;
      if closed[!side] {
        return BrokenPipe;
      }
      RingBound(ring);
      if CAP - ring.count < total {
        return if nonblock then Again else Blocks;
      }
      PutMessage(ring, iov);
      RingBound(ring);
      QueueMoves(old(ring.sent), ring.received, old(ring.Contents()), ring.Contents(), Joined(iov), []);
    }

    /** sys_recvmsg: the parts of the message are filled one after another */
    method RecvMsg(side: bool, lens: seq<nat>, nonblock: bool) returns (r: Outcome, parts: seq<seq<byte>>)
      requires Valid()
      modifies Inbox(side)
      ensures Valid() && Inbox(side).sent == old(Inbox(side).sent)
      ensures |Joined(parts)| == (if r.Done? then r.n else 0)
      ensures Inbox(side).received == old(Inbox(side).received) + Joined(parts)
      ensures r.Done? && r.n > 0 ==> FillsInOrder(parts, lens, old(Inbox(side).count))
      ensures !GoodMessage(lens) ==> r == Invalid || r == Fault
      ensures GoodMessage(lens) ==>
                r == if Total(lens) > 0 && old(Inbox(side).count) == 0 && !closed[!side] then
                       (if nonblock then Again else Blocks)
                     else Done(Min(Total(lens), old(Inbox(side).count)))
      ensures Proper(old(View()))
      ensures Reply(View(), r, Joined(parts)) == ReceivingMessage(old(View()), side, lens, nonblock)
    {
      hide Ring.Valid;
      parts := [];
      r := CheckMessage(lens);
      if !r.Done? || r.n == 0 {
        return;
      }
      var ring := Inbox(side);
      if ring.count == 0 {
        return if closed[!side] then Done(0) else if nonblock then Again else Blocks, [];
      }
      RingBound(ring);
      parts := GetMessage(ring, lens);
      RingBound(ring);
      QueueMoves(ring.sent, old(ring.received), old(ring.Contents()), ring.Contents(), [], Joined(parts));
      r := Done(|Joined(parts)|);
    }

    /** socket_fd_drop_ref */
    method DropRef(side: bool)
      requires Valid()
      modifies this`closed, this`refs, this`sideRefs
      ensures Valid() && refs == if old(refs) > 0 then old(refs) - 1 else 0
      ensures sideRefs == old(sideRefs)[side := if old(sideRefs)[side] > 0 then old(sideRefs)[side] - 1 else 0]
      ensures closed == old(closed)[side := old(closed)[side] || old(sideRefs)[side] == 1]
      ensures Proper(old(View())) && View() == Dropping(old(View()), side)
    {
      hide Ring.Valid, Dropping;
      DroppingIs(View(), side);
      if sideRefs[side] > 0 {
        sideRefs := sideRefs[side := sideRefs[side] - 1];
        if sideRefs[side] == 0 {
          closed := closed[side := true];
        }
      }
      if refs > 0 {
        refs := refs - 1;
      }
    }

    /** One call: what it returns and the bytes it delivers. */
    method Do(op: Op) returns (r: Outcome, out: seq<byte>)
      requires Valid()
      modifies this`closed, this`refs, this`sideRefs, ring0, ring1, ring0.data, ring1.data
      ensures Valid() && Proper(old(View())) && Reply(View(), r, out) == Answer(old(View()), op)
    {
      hide Ring.Valid, Joined, Sending, SendingMessage, Receiving, ReceivingMessage, Dropping;
      out := [];
      match op
      case Send(side, buf, nonblock) => r := SendTo(side, buf, nonblock);
      case SendMessage(side, iov, nonblock) => r := SendMsg(side, iov, nonblock);
      case Recv(side, len, nonblock) => r, out := RecvFrom(side, len, nonblock);
      case RecvMessage(side, lens, nonblock) =>
        var parts;
        r, parts := RecvMsg(side, lens, nonblock);
        out := Joined(parts);
      case Drop(side) =>
        DropRef(side);
        r := Done(0);
    }

    /** Over any run the calls return and deliver what the pair of queues would. */
    method Run(ops: seq<Op>) returns (rs: seq<Outcome>, outs: seq<seq<byte>>)
      requires Valid()
      modifies this`closed, this`refs, this`sideRefs, ring0, ring1, ring0.data, ring1.data
      ensures Valid() && Proper(old(View())) && View() == AfterAll(old(View()), ops)
      ensures |rs| == |ops| && |outs| == |ops|
      ensures forall i :: 0 <= i < |ops| ==> Returned(old(View()), ops, i, rs[i], outs[i])
    {
      hide Answer, Returned;
      rs, outs := [], [];
      ghost var w := View();
      for i := 0 to |ops|
        invariant Valid() && |rs| == i && |outs| == i && View() == AfterAll(w, ops[..i])
        invariant forall j :: 0 <= j < i ==> Returned(w, ops, j, rs[j], outs[j])
      {
        assert ops[..i + 1][..i] == ops[..i];
        var r, out := Do(ops[i]);
        ReturnedNow(w, ops, i, r, out, View());
        rs, outs := rs + [r], outs + [out];
      }
      assert ops[..|ops|] == ops;
    }
  }

  datatype Op =
    | Send(side: bool, buf: seq<byte>, nonblock: bool)
    | SendMessage(side: bool, iov: seq<seq<byte>>, nonblock: bool)
    | Recv(side: bool, len: nat, nonblock: bool)
    | RecvMessage(side: bool, lens: seq<nat>, nonblock: bool)
    | Drop(side: bool)

  lemma RingBound(ring: Ring)
    requires ring.Valid()
    ensures ring.count <= CAP && |ring.received| + ring.count == |ring.sent| && ring.received <= ring.sent
    ensures ring.data.Length == CAP && ring.sent == ring.received + ring.Contents()
  {
  }

  /** Queue the parts of a message that fits. */
  method PutMessage(ring: Ring, iov: seq<seq<byte>>)
    requires ring.Valid() && ring.count + |Joined(iov)| <= CAP
    modifies ring, ring.data
    ensures ring.Valid() && ring.sent == old(ring.sent) + Joined(iov) && ring.received == old(ring.received)
  {
    hide Ring.Valid;
    for i := 0 to |iov|
      invariant ring.Valid() && ring.received == old(ring.received)
      invariant ring.sent == old(ring.sent) + Joined(iov[..i]) && ring.count == old(ring.count) + |Joined(iov[..i])|
    {
      JoinedMore(iov, i);
      ring.PutAll(iov[i]);
    }
    assert iov[..|iov|] == iov;
  }

  lemma {:induction false} JoinedGrows(iov: seq<seq<byte>>, i: nat)
    requires i <= |iov|
    ensures |Joined(iov[..i])| <= |Joined(iov)|
    decreases |iov| - i
  {
    if i == |iov| {
      assert iov[..i] == iov;
    } else {
      assert iov[..i + 1][..i] == iov[..i];
      JoinedGrows(iov, i + 1);
    }
  }

  lemma JoinedMore(iov: seq<seq<byte>>, i: nat)
    requires i < |iov|
    ensures Joined(iov[..i + 1]) == Joined(iov[..i]) + iov[i] && |Joined(iov[..i])| + |iov[i]| <= |Joined(iov)|
  {
    assert iov[..i + 1][..i] == iov[..i];
    JoinedGrows(iov, i + 1);
  }

  /** Fill the parts of a message from the ring. */
  method GetMessage(ring: Ring, lens: seq<nat>) returns (parts: seq<seq<byte>>)
    requires ring.Valid()
    modifies ring
    ensures ring.Valid() && ring.sent == old(ring.sent) && ring.received == old(ring.received) + Joined(parts)
    ensures |Joined(parts)| == Min(Total(lens), old(ring.count)) && FillsInOrder(parts, lens, old(ring.count))
  {
    hide Ring.Valid;
    parts := [];
    for i := 0 to |lens|
      invariant ring.Valid() && ring.sent == old(ring.sent) && ring.received == old(ring.received) + Joined(parts)
      invariant |Joined(parts)| == Min(Total(lens[..i]), old(ring.count))
      invariant ring.count == old(ring.count) - |Joined(parts)|
      invariant |parts| == i && forall j :: 0 <= j < i ==> |parts[j]| == Share(lens, j, old(ring.count))
    {
      TotalMore(lens, i);
      var part := ring.GetSome(Min(lens[i], ring.count));
      assert (parts + [part])[..i] == parts;
      parts := parts + [part];
    }
    assert lens[..|lens|] == lens;
  }

  /** How many of n waiting bytes part i gets when the parts before it are filled first. */
  function Share(lens: seq<nat>, i: nat, n: nat): nat
    requires i < |lens|
  {
    Min(lens[i], n - Min(Total(lens[..i]), n))
  }

  /** Every part is filled as far as the bytes go, first to last. */
  ghost predicate FillsInOrder(parts: seq<seq<byte>>, lens: seq<nat>, n: nat) {
    |parts| == |lens| && forall i :: 0 <= i < |lens| ==> |parts[i]| == Share(lens, i, n)
  }

  /** The slot i places after slot r. */
  function Slot(r: nat, i: nat): (s: nat)
    ensures s < CAP
  {
    (r + i) % CAP
  }

  /** The n bytes from slot r on. */
  function Window(d: seq<byte>, r: nat, n: nat): (s: seq<byte>)
    requires |d| == CAP
    ensures |s| == n && forall i :: 0 <= i < n ==> s[i] == d[Slot(r, i)]
  {
    seq(n, i requires 0 <= i => d[Slot(r, i)])
  }

  lemma PutWindow(d: seq<byte>, r: nat, n: nat, b: byte)
    requires |d| == CAP && r < CAP && n < CAP
    ensures Window(d[Slot(r, n) := b], r, n + 1) == Window(d, r, n) + [b]
    ensures (Slot(r, n) + 1) % CAP == Slot(r, n + 1)
  {
    hide Slot;
    forall i | 0 <= i < n
      ensures Slot(r, i) != Slot(r, n)
    {
      SlotsApart(r, i, n);
    }
    NextSlot(r, n);
  }

  lemma SlotsApart(r: nat, i: nat, n: nat)
    requires r < CAP && i < n < CAP
    ensures Slot(r, i) != Slot(r, n)
  {
  }

  lemma NextSlot(r: nat, n: nat)
    requires r < CAP && n < CAP
    ensures (Slot(r, n) + 1) % CAP == Slot(r, n + 1)
  {
  }

  lemma GetWindow(d: seq<byte>, r: nat, n: nat)
    requires |d| == CAP && r < CAP && 0 < n
    ensures Window(d, r, n) == [d[r]] + Window(d, (r + 1) % CAP, n - 1)
    ensures Slot((r + 1) % CAP, n - 1) == Slot(r, n)
  {
    assert Slot(r, 0) == r;
    forall i | 0 < i < n
      ensures Slot(r, i) == Slot((r + 1) % CAP, i - 1)
    {
    }
  }
}
