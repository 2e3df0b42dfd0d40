/** The virtio-blk request queue (virtq_blk_handle_one_request, blk_complete and the drain of
    blkproc_thread in tools/virtio/devices/blk/virtio_blk.c): answers and completion
    accounting. */
module BlkQueue {
  import opened Runs
  import opened Words
  import opened VirtQueues
  import opened Walkers
  import opened Ledger
  import opened Drains

  const BLK_MAX: nat := 512  // VIRTQUEUE_BLK_MAX_SIZE

  const T_IN: nat := 0
  const T_OUT: nat := 1
  const T_FLUSH: nat := 4
  const T_GET_ID: nat := 8

  const HEADER_SIZE: nat := 16  // sizeof(BlkReqHead)
  const ID_SIZE: nat := 14      // the id string with its terminator

  const EIO: nat := 5
  const EOPNOTSUPP: nat := 95

  datatype Status = S_OK | S_IOERR | S_UNSUPP

  function StatusOf(err: nat): Status {
    if err == 0 then S_OK else if err == EOPNOTSUPP then S_UNSUPP else S_IOERR
  }

  /** `kind` is what the header says; `err` is the errno of the I/O, 0 for success, and `bytes`
      how much the image has to read at the sector. */
  datatype BlkIo = BlkIo(kind: nat, err: nat, bytes: nat)

  datatype BlkRequest = BlkRequest(g: Guest, io: BlkIo)

  /** Header first, one status byte last, and the data on the side the operation needs. */
  predicate WellFormed(outs: seq<Iov>, ins: seq<Iov>, kind: nat) {
    && outs != [] && outs[0].len == HEADER_SIZE
    && ins != [] && ins[|ins| - 1].len == 1
    && |outs| + |ins| <= BLK_MAX
    && (if kind == T_OUT then |ins| == 1 else |outs| == 1)
  }

  predicate Supported(kind: nat) { kind in {T_IN, T_OUT, T_FLUSH, T_GET_ID} }

  /** The operation does what it is asked for. */
  predicate Succeeds(io: BlkIo) { Supported(io.kind) && (io.kind == T_GET_ID || io.err == 0) }

  /** The data bytes a request puts into the guest's buffers. */
  function Delivered(ins: seq<Iov>, io: BlkIo): nat
    requires ins != []
  {
    if !Succeeds(io) then 0
    else if io.kind == T_IN then Min(io.bytes, Room(ins[..|ins| - 1]))
    else if io.kind == T_GET_ID then Min(ID_SIZE, ins[0].len)
    else 0
  }

  /** What the driver may conclude from a completion: there is a status byte exactly if the
      chain is well formed, it tells success from failure and from an operation the device
      does not have, and the used length counts the data and one more byte. */
  predicate BlkAnswer(outs: seq<Iov>, ins: seq<Iov>, io: BlkIo, status: Option<Status>, len: nat) {
    && (status.Some? <==> WellFormed(outs, ins, io.kind))
    && (status.Some? ==>
          && (status.value == S_OK <==> Succeeds(io))
          && (status.value == S_UNSUPP <==> !Supported(io.kind) || (io.kind != T_GET_ID && io.err == EOPNOTSUPP))
          && len == Delivered(ins, io) + 1)
    && (status.None? ==> len == 1)
  }

  lemma {:induction false} RoomLast(ins: seq<Iov>)
    requires ins != []
    ensures Room(ins) == Room(ins[..|ins| - 1]) + ins[|ins| - 1].len
    ensures |ins| > 1 ==> Room(ins) >= ins[0].len + ins[|ins| - 1].len
    decreases ins
  {
    if |ins| > 1 {
      var front := ins[..|ins| - 1];
      RoomLast(front);
      assert front[0] == ins[0];
      if |front| == 1 { assert Room(front) == front[0].len; }
    }
  }

  /** The used length is at most the bytes the guest gave to write to (section 2.7.8 of VirtIO
      1.2), except in two cases: a malformed chain without a writable byte is completed with
      length 1, and an id request without a buffer but the status byte with length 2. */
  lemma {:induction false} UsedLengthExact(outs: seq<Iov>, ins: seq<Iov>, io: BlkIo, status: Option<Status>, len: nat)
    requires BlkAnswer(outs, ins, io, status, len)
    ensures len <= Room(ins) <==>
              if WellFormed(outs, ins, io.kind) then io.kind != T_GET_ID || |ins| > 1 else Room(ins) > 0
  {
    if ins != [] {
      RoomLast(ins);
      if |ins| == 1 { assert Room(ins) == ins[0].len && Room(ins[..0]) == 0; }
    }
  }

  /** blk_complete. */
  method BlkComplete(q: VirtQueue, head: u16, hasStatus: bool, err: nat, wlen: nat, ghost h: History)
    returns (status: Option<Status>, ghost h': History)
    requires Tracks(q, h)
    modifies q`usedIdx, q`log, q.used
    ensures Tracks(q, h') && h' == h.(published := h.published + [Elem(head, wlen + 1)])
    ensures status == if hasStatus then Some(StatusOf(err)) else None
  {
    status := None;
    if hasStatus {
      if err == 0 { status := Some(S_OK); }
      else if err == EOPNOTSUPP { status := Some(S_UNSUPP); }
      else { status := Some(S_IOERR); }
    }
    h' := Publish(q, head, wlen + 1, h);
  }

  /** The checks and the dispatch of virtq_blk_handle_one_request after the walk. */
  method BlkServe(ret: int, outs: seq<Iov>, ins: seq<Iov>, io: BlkIo) returns (hasStatus: bool, err: nat, wlen: nat)
    requires ret > 0 ==> |outs| + |ins| == ret
    requires ret <= 0 ==> outs == ins == []
    ensures BlkAnswer(outs, ins, io, if hasStatus then Some(StatusOf(err)) else None, wlen + 1)
  {
    hasStatus, err, wlen := false, EIO, 0;
    if ret < 2 || ret > BLK_MAX || |outs| < 1 || outs[0].len != HEADER_SIZE { return; }
    if |ins| < 1 || ins[|ins| - 1].len != 1 { return; }
    if (if io.kind == T_OUT then |ins| != 1 else |outs| != 1) { return; }
    hasStatus, err := true, 0;
    if io.kind == T_IN {
      err := io.err;
      if err == 0 { wlen := Min(io.bytes, Room(ins[..|ins| - 1])); }
    } else if io.kind == T_OUT || io.kind == T_FLUSH {
      err := io.err;
    } else if io.kind == T_GET_ID {
      wlen := Min(ID_SIZE, ins[0].len);
    } else {
      err := EOPNOTSUPP;
    }
  }

  /** One completed block request: what the walker made of the chain of its head, and an answer
      that fits it. */
  predicate BlkHandled(e: Handled, status: Option<Status>, r: BlkRequest, num: nat) {
    && WalkReturn(Chain(r.g, e.head, num), BLK_MAX, BLK_MAX) == Some(e.ret) && e.adv == Advance(e.ret)
    && |e.out| == 1 && e.out[0].id == e.head
    && BlkAnswer(OutsOf(r.g, e.head, num, e.ret), InsOf(r.g, e.head, num, e.ret), r.io, status, e.out[0].len)
  }

  lemma {:induction false} BlkHandledBy(head: u16, ret: int, outs: seq<Iov>, ins: seq<Iov>, r: BlkRequest,
                                        status: Option<Status>, len: nat, num: nat)
    requires WalkReturn(Chain(r.g, head, num), BLK_MAX, BLK_MAX) == Some(ret)
    requires outs == OutsOf(r.g, head, num, ret) && ins == InsOf(r.g, head, num, ret)
    requires BlkAnswer(outs, ins, r.io, status, len)
    ensures BlkHandled(Handled(head, ret, Advance(ret), [Elem(head, len)]), status, r, num)
  {}

  /** The answer to a request whose chain was taken. */
  method BlkReply(q: VirtQueue, head: u16, ret: int, outs: seq<Iov>, ins: seq<Iov>, r: BlkRequest, ghost h: History)
    returns (status: Option<Status>, ghost h': History, ghost e: Handled)
    requires Tracks(q, h) && WalkReturn(Chain(r.g, head, q.num), BLK_MAX, BLK_MAX) == Some(ret)
    requires outs == OutsOf(r.g, head, q.num, ret) && ins == InsOf(r.g, head, q.num, ret)
    requires ret > 0 ==> |outs| + |ins| == ret
    modifies q`usedIdx, q`log, q.used
    ensures Tracks(q, h') && h' == h.(published := h.published + e.out)
    ensures e.head == head && e.ret == ret && BlkHandled(e, status, r, q.num)
  {
    var hasStatus, err, wlen := BlkServe(ret, outs, ins, r.io);
    status, h' := BlkComplete(q, head, hasStatus, err, wlen, h);
    BlkHandledBy(head, ret, outs, ins, r, status, wlen + 1, q.num);
    e := Handled(head, ret, Advance(ret), [Elem(head, wlen + 1)]);
  }

  /** virtq_blk_handle_one_request: one used entry whatever happens. */
  method BlkHandleOne(q: VirtQueue, r: BlkRequest, ghost h: History)
    returns (ok: bool, status: Option<Status>, ghost h': History, ghost e: Handled)
    requires Tracks(q, h)
    modifies q`lastAvail, q`usedIdx, q`log, q.used
    ensures Tracks(q, h') && e.head == HeadOf(h, q.num)
    ensures ok <==> WalkReturn(Chain(r.g, e.head, q.num), BLK_MAX, BLK_MAX).Some?
    ensures ok ==> BlkHandled(e, status, r, q.num)
    ensures h' == if ok then h.(taken := h.taken + e.adv, published := h.published + e.out) else h
  {
    var ret, head, outs, ins;
    ret, head, outs, ins, h' := TakeChain(q, r.g, BLK_MAX, BLK_MAX, h);
    if ret.None? { return false, None, h', Handled(head, 0, 0, []); }
    if ret.value <= 0 { outs, ins := [], []; }
    status, h', e := BlkReply(q, head, ret.value, outs, ins, r, h');
    ok := true;
  }

  ghost predicate BlkTrace(tr: seq<Handled>, sts: seq<Option<Status>>, reqs: seq<BlkRequest>, num: nat) {
    |tr| == |sts| <= |reqs| && forall i :: 0 <= i < |tr| ==> BlkHandled(tr[i], sts[i], reqs[i], num)
  }

  lemma {:induction false} BlkTraceNext(tr: seq<Handled>, sts: seq<Option<Status>>, e: Handled, status: Option<Status>,
                                        reqs: seq<BlkRequest>, num: nat)
    requires BlkTrace(tr, sts, reqs, num) && |tr| < |reqs| && BlkHandled(e, status, reqs[|tr|], num)
    ensures BlkTrace(tr + [e], sts + [status], reqs, num)
  {
    forall i | 0 <= i < |tr + [e]| ensures BlkHandled((tr + [e])[i], (sts + [status])[i], reqs[i], num) {
      if i < |tr| { assert (tr + [e])[i] == tr[i] && (sts + [status])[i] == sts[i]; }
    }
  }

  /** The walker faults on the chain of request `k`. */
  predicate BlkFaults(reqs: seq<BlkRequest>, k: nat, h: History, num: nat)
    requires |h.avail0| == num > 0
  {
    k < |reqs| && WalkReturn(Chain(reqs[k].g, HeadOf(h, num), num), BLK_MAX, BLK_MAX).None?
  }

  lemma {:induction false} BlkFaultsFrom(reqs: seq<BlkRequest>, k: nat, n: nat, h: History, num: nat)
    requires |h.avail0| == num > 0 && k <= |reqs|
    ensures BlkFaults(reqs[k..], n, h, num) <==> BlkFaults(reqs, k + n, h, num)
  {
    assert k + n < |reqs| ==> reqs[k..][n] == reqs[k + n];
  }

  /** One turn of the inner loop: the test and the request. */
  method BlkTurn(q: VirtQueue, want: seq<u16>, reqs: seq<BlkRequest>, k: nat, ghost h: History, ghost now: History,
                 ghost tr: seq<Handled>, ghost sts: seq<Option<Status>>)
    returns (halt: Option<Halt>, ghost h': History, ghost tr': seq<Handled>, ghost sts': seq<Option<Status>>)
    requires Tracks(q, now) && Draining(h, now, [], tr, q.num) && BlkTrace(tr, sts, reqs, q.num) && |tr| == k
    modifies q`availIdx, q.avail, q`lastAvail, q`usedIdx, q`log, q.used
    ensures Tracks(q, h') && Draining(h, h', [], tr', q.num) && BlkTrace(tr', sts', reqs, q.num)
    ensures |tr'| == if halt.None? then k + 1 else k
    ensures halt == Some(Drained) && want == [] ==> h' == now
    ensures halt.Some? ==> Halted(halt.value, h', k == |reqs|, BlkFaults(reqs, k, h', q.num))
  {
    var empty;
    empty, h' := Test(q, want, h, now, [], tr);
    tr', sts' := tr, sts;
    if empty { return Some(Drained), h', tr', sts'; }
    if k == |reqs| { return Some(Given), h', tr', sts'; }
    ghost var before := h';
    var ok, status;
    ghost var e;
    ok, status, h', e := BlkHandleOne(q, reqs[k], h');
    if !ok { return Some(Faulted), h', tr', sts'; }
    DrainNextNow(h, before, tr, q.num, e);
    BlkTraceNext(tr, sts, e, status, reqs, q.num);
    halt, tr', sts' := None, tr + [e], sts + [status];
  }

  /** The inner loop of blkproc_thread. `t` counts its tests. */
  method BlkBatch(q: VirtQueue, adds: seq<seq<u16>>, reqs: seq<BlkRequest>, ghost h: History)
    returns (halt: Halt, k: nat, t: nat, ghost h': History, ghost tr: seq<Handled>, ghost sts: seq<Option<Status>>)
    requires Tracks(q, h)
    modifies q`availIdx, q.avail, q`lastAvail, q`usedIdx, q`log, q.used
    ensures Tracks(q, h') && Draining(h, h', [], tr, q.num)
    ensures |tr| == k && t > 0 && BlkTrace(tr, sts, reqs, q.num)
    ensures halt == Drained && k == 0 && adds == [] ==> h' == h
    ensures Halted(halt, h', k == |reqs|, BlkFaults(reqs, k, h', q.num))
  {
    k, t, h', tr, sts := 0, 0, h, [], [];
    DrainBegins(h, q.num);
    while true
      invariant |tr| == k <= |reqs|
      invariant Tracks(q, h') && Draining(h, h', [], tr, q.num) && BlkTrace(tr, sts, reqs, q.num)
      invariant k == 0 ==> h' == h
      decreases |reqs| - k
    {
      var stop;
      stop, h', tr, sts := BlkTurn(q, AddsAt(adds, t), reqs, k, h, h', tr, sts);
      t := t + 1;
      if stop.Some? { return stop.value, k, t, h', tr, sts; }
      k := k + 1;
    }
  }

  lemma {:induction false} BlkTraceConcat(a: seq<Handled>, sa: seq<Option<Status>>, b: seq<Handled>,
                                          sb: seq<Option<Status>>, reqs: seq<BlkRequest>, num: nat)
    requires BlkTrace(a, sa, reqs, num) && BlkTrace(b, sb, reqs[|a|..], num)
    ensures BlkTrace(a + b, sa + sb, reqs, num)
  {
    forall i | 0 <= i < |a + b| ensures BlkHandled((a + b)[i], (sa + sb)[i], reqs[i], num) {
      if i >= |a| { assert reqs[i] == reqs[|a|..][i - |a|]; }
    }
  }

  /** One pass of the outer loop. */
  method BlkMore(q: VirtQueue, adds: seq<seq<u16>>, reqs: seq<BlkRequest>, k: nat, ghost h: History,
                 ghost now: History, ghost tr: seq<Handled>, ghost sts: seq<Option<Status>>)
    returns (halt: Halt, n: nat, t: nat, ghost h': History, ghost tr': seq<Handled>, ghost sts': seq<Option<Status>>)
    requires Tracks(q, now) && Draining(h, now, [], tr, q.num) && BlkTrace(tr, sts, reqs, q.num) && |tr| == k
    modifies q`availIdx, q.avail, q`lastAvail, q`usedIdx, q`log, q.used
    ensures Tracks(q, h') && Draining(h, h', [], tr', q.num) && BlkTrace(tr', sts', reqs, q.num)
    ensures |tr'| == k + n && t > 0
    ensures halt == Drained && n == 0 && adds == [] ==> Wrap16(now.taken) == Wrap16(|now.posted|)
    ensures Halted(halt, h', |tr'| == |reqs|, BlkFaults(reqs, |tr'|, h', q.num))
  {
    ghost var more, moreSts;
    halt, n, t, h', more, moreSts := BlkBatch(q, adds, reqs[k..], now);
    DrainConcat(h, now, h', [], tr, more, q.num);
    BlkTraceConcat(tr, sts, more, moreSts, reqs, q.num);
    BlkFaultsFrom(reqs, k, n, h', q.num);
    tr', sts' := tr + more, sts + moreSts;
  }

  /** The drain of blkproc_thread: a test, then batches until the test after re-enabling
      notification finds the queue empty. If it starts in order it ends in order, with
      everything ever made available completed, unless it meets an empty chain. */
  method BlkDrain(q: VirtQueue, adds: seq<seq<u16>>, reqs: seq<BlkRequest>, ghost h: History)
    returns (halt: Halt, ghost h': History, ghost tr: seq<Handled>, ghost sts: seq<Option<Status>>)
    requires Tracks(q, h)
    modifies q`availIdx, q.avail, q`lastAvail, q`usedIdx, q`log, q.used
    ensures Tracks(q, h') && Served(h, h', tr, q.num) && BlkTrace(tr, sts, reqs, q.num)
    ensures Halted(halt, h', |tr| == |reqs|, BlkFaults(reqs, |tr|, h', q.num))
    ensures halt == Drained && Sane(h, q.num) && NoEmpty(tr) ==> IdsOf(h'.published) == h'.posted
  {
    SizeBound(q.num);
    DrainBegins(h, q.num);
    tr, sts := [], [];
    var empty;
    empty, h' := Test(q, AddsAt(adds, 0), h, h, [], []);
    var k, t := 0, 1;
    halt := Drained;
    while !empty
      invariant halt == Drained
      invariant 0 <= k <= |reqs| && |tr| == k
      invariant Tracks(q, h') && Draining(h, h', [], tr, q.num) && BlkTrace(tr, sts, reqs, q.num)
      invariant empty <==> Wrap16(h'.taken) == Wrap16(|h'.posted|)
      decreases |reqs| - k, if t < |adds| then |adds| - t else 0
    {
      var n, tests;
      halt, n, tests, h', tr, sts := BlkMore(q, if t < |adds| then adds[t..] else [], reqs, k, h, h', tr, sts);
      k, t := k + n, t + tests;
      if halt != Drained { break; }
      empty, h' := Test(q, AddsAt(adds, t), h, h', [], tr);
      t := t + 1;
    }
    DrainEnds(h, h', tr, q.num);
  }

  function Memories(reqs: seq<BlkRequest>): (r: seq<Guest>)
    ensures |r| == |reqs| && forall i :: 0 <= i < |reqs| ==> r[i] == reqs[i].g
  {
    seq(|reqs|, i requires 0 <= i < |reqs| => reqs[i].g)
  }

  /** What a drain of blkproc_thread does, from its contract: in order exactly if no ring entry it
      comes to is empty in the memory of its turn. */
  lemma {:induction false} BlkExact(h: History, h': History, tr: seq<Handled>, sts: seq<Option<Status>>,
                                    reqs: seq<BlkRequest>, num: nat)
    requires Sane(h, num) && Served(h, h', tr, num) && BlkTrace(tr, sts, reqs, num)
    ensures InOrder(h') <==> forall i :: 0 <= i < |tr| ==> !DueEmpty(h, h'.posted, i, EmptyIn(Memories(reqs), num))
  {
    var gs := Memories(reqs);
    forall i | 0 <= i < |tr|
      ensures WalkReturn(Chain(gs[i], tr[i].head, num), BLK_MAX, BLK_MAX) == Some(tr[i].ret)
    {
      assert BlkHandled(tr[i], sts[i], reqs[i], num);
    }
    CompletionExact(h, h', tr, gs, num, BLK_MAX, BLK_MAX);
  }

  /** A guest whose every descriptor is an indirect table too short for an entry. */
  const SHORT: Guest :=
    Guest(_ => Desc(0, 0, Flags(false, false, true), 0), (_, _) => Desc(0, 0, Flags(false, false, false), 0), _ => None)

  /** What an empty chain does, on concrete queues: with one entry behind it, that entry is
      skipped and the queue looks empty; with none, the index passes the driver's and the queue
      does not look empty. */
  lemma {:induction false} EmptyChainSkips(num: nat, rings: History, a: u16, b: u16)
    requires num >= 2 && a != b
    ensures WalkReturn(Chain(SHORT, a, num), BLK_MAX, BLK_MAX) == Some(0)
    ensures var two := rings.(posted := [a, b], taken := 0, published := []);
            var now := two.(taken := Advance(0), published := [Elem(a, 1)]);
            && Sane(two, num) && Served(two, now, [Handled(a, 0, Advance(0), [Elem(a, 1)])], num)
            && Wrap16(now.taken) == Wrap16(|now.posted|) && b !in IdsOf(now.published)
    ensures var one := rings.(posted := [a], taken := 0, published := []);
            var now := one.(taken := Advance(0), published := [Elem(a, 1)]);
            && Sane(one, num) && Served(one, now, [Handled(a, 0, Advance(0), [Elem(a, 1)])], num)
            && IdsOf(now.published) == now.posted && Wrap16(now.taken) != Wrap16(|now.posted|)
  {
    assert One(SHORT, SHORT.ring(a)) == Flat([], Done);
    var e := Handled(a, 0, Advance(0), [Elem(a, 1)]);
    assert [e][..0] == [] && [] + e.out == e.out;
    assert Advanced([e]) == 2 && Outputs([e]) == e.out;
  }
}
