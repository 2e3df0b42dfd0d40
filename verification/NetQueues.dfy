/** The two virtio-net queues (virtio_net_event_handler, virtq_tx_handle_one_request and
    virtio_net_txq_notify_handler in tools/virtio/devices/net/virtio_net.c): completion
    accounting with late, batched publication and roll-back. */
module NetQueues {
  import opened Runs
  import opened Words
  import opened VirtQueues
  import opened Walkers
  import opened Ledger
  import opened Drains

  const NET_MAX: nat := 256  // VIRTQUEUE_NET_MAX_SIZE and NET_IOV_MAX

  // ------------------------------------------------------------------ the batch arrays

  /** The batch arrays of the network device and their fill. */
  class Batch {
    const ids: array<u16>
    const lens: array<nat>
    var count: nat

    ghost predicate Valid()
      reads this
    {
      ids.Length == lens.Length == NET_MAX && count <= NET_MAX
    }

    function Contents(): seq<Elem>
      requires Valid()
      reads this, ids, lens
    {
      Pairs(ids[..count], lens[..count])
    }

    constructor ()
      ensures Valid() && Contents() == [] && fresh(ids) && fresh(lens)
    {
      ids := new u16[NET_MAX](_ => 0);
      lens := new nat[NET_MAX](_ => 0);
      count := 0;
    }

    method Add(head: u16, len: nat)
      requires Valid() && count < NET_MAX
      modifies this, ids, lens
      ensures Valid() && count == old(count) + 1 && Contents() == old(Contents()) + [Elem(head, len)]
    {
      ghost var was := Contents();
      ids[count], lens[count] := head, len;
      count := count + 1;
      assert Contents()[..count - 1] == was;
    }
  }

  /** update_used_ring_batch on a tracked queue. */
  method PublishBatch(q: VirtQueue, b: Batch, ghost h: History) returns (ghost h': History)
    requires Tracks(q, h) && b.Valid()
    modifies q`usedIdx, q`log, q.used
    ensures h' == Ahead(h, old(b.Contents())) && Tracks(q, h')
  {
    ghost var es := b.Contents();
    PutAllConcat(Used(h.used0, 0), q.num, h.published, es);
    q.UpdateUsedRingBatch(b.ids, b.lens, b.count);
    h' := Ahead(h, es);
  }

  /** The test of a loop that fills the batch arrays: it may go on if there is an entry, a
      request and room. In order there is always room. */
  method BatchTest(q: VirtQueue, want: seq<u16>, given: nat, b: Batch, ghost h: History, ghost now: History,
                   ghost tr: seq<Handled>) returns (halt: Option<Halt>, ghost h': History)
    requires Tracks(q, now) && q.num <= NET_MAX && b.Valid() && b.ids != q.avail && b.count == |tr| <= given
    requires Draining(h, now, b.Contents(), tr, q.num)
    modifies q`availIdx, q.avail
    ensures Tracks(q, h') && b.Valid() && Draining(h, h', b.Contents(), tr, q.num)
    ensures halt.None? ==> Wrap16(h'.taken) != Wrap16(|h'.posted|) && b.count < NET_MAX && b.count < given
    ensures halt == Some(Drained) ==> Wrap16(h'.taken) == Wrap16(|h'.posted|) && (want == [] ==> h' == now)
    ensures halt == Some(Given) ==> |tr| == given
    ensures halt == Some(Overrun) ==> !(Sane(h, q.num) && NoEmpty(tr))
    ensures halt != Some(Stopped) && halt != Some(Faulted)
  {
    SizeBound(q.num);
    ghost var batch := b.Contents();
    var empty;
    empty, h' := Test(q, want, h, now, batch, tr);
    if empty { return Some(Drained), h'; }
    if b.count == given { return Some(Given), h'; }
    if b.count == NET_MAX {
      if Sane(h, q.num) && NoEmpty(tr) { DrainPlace(h, h', batch, tr, q.num); }
      return Some(Overrun), h';
    }
    halt := None;
  }

  // ------------------------------------------------------------------ receive

  /** `Ready` is a packet of `size` bytes, or end of file if that is 0. */
  datatype Tap = WouldBlock | ReadError | Ready(size: nat)

  datatype RxRequest = RxRequest(g: Guest, tap: Tap)

  predicate Usable(ret: int) { 1 <= ret <= NET_MAX }

  /** The read of a usable entry would block, and the entry is given back. */
  predicate Blocked(ret: int, tap: Tap) { Usable(ret) && tap == WouldBlock }

  /** The bytes received into an entry; without any the loop stops. */
  function Received(ret: int, ins: seq<Iov>, tap: Tap): nat {
    if Usable(ret) && tap.Ready? then Min(tap.size, Room(ins)) else 0
  }

  predicate RxHandled(e: Handled, r: RxRequest, num: nat) {
    && WalkReturn(Chain(r.g, e.head, num), 0, NET_MAX) == Some(e.ret) && e.adv == Advance(e.ret)
    && !Blocked(e.ret, r.tap)
    && e.out == [Elem(e.head, Received(e.ret, InsOf(r.g, e.head, num, e.ret), r.tap))]
  }

  ghost predicate RxTrace(tr: seq<Handled>, reqs: seq<RxRequest>, num: nat) {
    |tr| <= |reqs| && forall i :: 0 <= i < |tr| ==> RxHandled(tr[i], reqs[i], num)
  }

  /** Readiness is lost at end of file: a usable entry into which nothing was read. */
  predicate AtEof(e: Handled, r: RxRequest) {
    Usable(e.ret) && r.tap.Ready? && |e.out| == 1 && e.out[0].len == 0
  }

  /** The body of the receive loop: consume an entry, or give it back. */
  method RxOne(q: VirtQueue, r: RxRequest, ghost h: History)
    returns (ok: bool, taken: bool, head: u16, len: nat, eof: bool, ghost h': History, ghost e: Handled)
    requires Tracks(q, h)
    modifies q`lastAvail
    ensures Tracks(q, h') && e.head == head == HeadOf(h, q.num)
    ensures ok <==> WalkReturn(Chain(r.g, e.head, q.num), 0, NET_MAX).Some?
    ensures ok && taken ==> RxHandled(e, r, q.num) && e.out == [Elem(head, len)] && h' == h.(taken := h.taken + e.adv)
    ensures ok && !taken ==> WalkReturn(Chain(r.g, e.head, q.num), 0, NET_MAX) == Some(e.ret) && Blocked(e.ret, r.tap)
    ensures !(ok && taken) ==> h' == h
    ensures eof <==> ok && taken && AtEof(e, r)
  {
    var ret, outs, ins;
    ret, head, outs, ins, h' := TakeChain(q, r.g, 0, NET_MAX, h);
    if ret.None? { return false, false, head, 0, false, h', Handled(head, 0, 0, []); }
    ok, taken, len, eof := true, true, 0, false;
    if ret.value < 1 || ret.value > NET_MAX {
    } else if r.tap == WouldBlock {
      GiveBack(q, h);
      taken, h' := false, h;
    } else if r.tap.Ready? {
      len := Min(r.tap.size, Room(ins));
      eof := len == 0;
    }
    e := Handled(head, ret.value, Advance(ret.value), [Elem(head, len)]);
  }

  /** What the walker returns for the chain of a head. */
  function WalkOf(r: RxRequest, head: u16, num: nat): int {
    match WalkReturn(Chain(r.g, head, num), 0, NET_MAX) case None => -1 case Some(n) => n
  }

  /** A receive loop that has not stopped: everything so far was a packet. */
  ghost predicate AllPackets(tr: seq<Handled>) {
    forall i :: 0 <= i < |tr| ==> tr[i].ret != 0 && |tr[i].out| == 1 && tr[i].out[0].len > 0
  }

  /** One entry of a queue that did not look empty: into the batch, or back. */
  method RxPass(q: VirtQueue, r: RxRequest, b: Batch, ghost h: History, ghost now: History, ghost tr: seq<Handled>)
    returns (ok: bool, taken: bool, more: bool, eof: bool, ghost h': History, ghost e: Handled)
    requires Tracks(q, now) && b.Valid() && b.count < NET_MAX && b.ids != q.avail
    requires Draining(h, now, b.Contents(), tr, q.num) && Wrap16(now.taken) != Wrap16(|now.posted|)
    modifies q`lastAvail, b, b.ids, b.lens
    ensures Tracks(q, h') && b.Valid()
    ensures ok && taken ==>
              && Draining(h, h', b.Contents(), tr + [e], q.num) && b.count == old(b.count) + 1
              && RxHandled(e, r, q.num) && (more <==> e.out[0].len > 0) && (eof <==> AtEof(e, r))
    ensures !(ok && taken) ==> h' == now && Draining(h, h', b.Contents(), tr, q.num) && b.count == old(b.count)
    ensures ok && !taken ==> Blocked(WalkOf(r, HeadOf(h', q.num), q.num), r.tap)
    ensures !ok ==> WalkReturn(Chain(r.g, HeadOf(h', q.num), q.num), 0, NET_MAX).None?
  {
    var head, len;
    ok, taken, head, len, eof, h', e := RxOne(q, r, now);
    more := len > 0;
    if ok && taken {
      DrainNext(h, now, b.Contents(), tr, q.num, e);
      b.Add(head, len);
    }
  }

  /** Why the receive loop stopped of itself: the next entry would block, or the last one was
      left empty. */
  ghost predicate RxStop(tr: seq<Handled>, reqs: seq<RxRequest>, h: History, num: nat)
    requires |tr| <= |reqs| && |h.avail0| == num > 0
  {
    || (|tr| < |reqs| && Blocked(WalkOf(reqs[|tr|], HeadOf(h, num), num), reqs[|tr|].tap))
    || (|tr| > 0 && |tr[|tr| - 1].out| == 1 && tr[|tr| - 1].out[0].len == 0)
  }

  /** A receive loop that goes on. */
  ghost predicate RxGoing(tr: seq<Handled>, reqs: seq<RxRequest>, num: nat) {
    RxTrace(tr, reqs, num) && AllPackets(tr)
  }

  /** The walker faults on the chain of request `k`. */
  predicate RxFaults(reqs: seq<RxRequest>, k: nat, h: History, num: nat)
    requires |h.avail0| == num > 0
  {
    k < |reqs| && WalkReturn(Chain(reqs[k].g, HeadOf(h, num), num), 0, NET_MAX).None?
  }

  /** How the receive loop ends. Its batch arrays overrun only if it did not start in order. */
  ghost predicate RxResult(halt: Halt, ready: bool, h: History, h': History, tr: seq<Handled>, reqs: seq<RxRequest>,
                           num: nat)
    requires |h'.avail0| == num > 0
  {
    && RxTrace(tr, reqs, num) && (tr != [] ==> AllPackets(tr[..|tr| - 1]))
    && (halt == Drained ==> Wrap16(h'.taken) == Wrap16(|h'.posted|))
    && (halt == Given ==> |tr| == |reqs|)
    && (halt == Overrun ==> !Sane(h, num))
    && (halt == Faulted ==> RxFaults(reqs, |tr|, h', num))
    && (halt == Stopped ==> RxStop(tr, reqs, h', num))
    && (ready <==> !(|tr| > 0 && AtEof(tr[|tr| - 1], reqs[|tr| - 1])))
  }

  lemma {:induction false} RxUnchanged(halt: Halt, h: History, h': History, tr: seq<Handled>, reqs: seq<RxRequest>,
                                       num: nat)
    requires RxGoing(tr, reqs, num) && |h'.avail0| == num > 0
    requires halt == Drained ==> Wrap16(h'.taken) == Wrap16(|h'.posted|)
    requires halt == Given ==> |tr| == |reqs|
    requires halt == Overrun ==> !Sane(h, num)
    requires halt == Faulted ==> RxFaults(reqs, |tr|, h', num)
    requires halt == Stopped ==> RxStop(tr, reqs, h', num)
    ensures RxResult(halt, true, h, h', tr, reqs, num)
  {
    if tr != [] {
      var front := tr[..|tr| - 1];
      assert forall i :: 0 <= i < |front| ==> front[i] == tr[i];
    }
  }

  lemma {:induction false} RxTraceNext(tr: seq<Handled>, e: Handled, reqs: seq<RxRequest>, num: nat)
    requires RxTrace(tr, reqs, num) && |tr| < |reqs| && RxHandled(e, reqs[|tr|], num)
    ensures RxTrace(tr + [e], reqs, num)
  {
    forall i | 0 <= i < |tr + [e]| ensures RxHandled((tr + [e])[i], reqs[i], num) {
      if i < |tr| { assert (tr + [e])[i] == tr[i]; }
    }
  }

  lemma {:induction false} RxTaken(h: History, h': History, tr: seq<Handled>, e: Handled, reqs: seq<RxRequest>,
                                   num: nat)
    requires RxGoing(tr, reqs, num) && |tr| < |reqs| && RxHandled(e, reqs[|tr|], num) && |h'.avail0| == num > 0
    ensures e.out[0].len > 0 ==> RxGoing(tr + [e], reqs, num)
    ensures e.out[0].len == 0 ==> RxResult(Stopped, !AtEof(e, reqs[|tr|]), h, h', tr + [e], reqs, num)
  {
    RxTraceNext(tr, e, reqs, num);
    assert (tr + [e])[..|tr|] == tr && (tr + [e])[|tr|] == e;
  }

  /** The body of the receive loop. */
  method RxServe(q: VirtQueue, reqs: seq<RxRequest>, b: Batch, ghost h: History, ghost now: History,
                 ghost tr: seq<Handled>)
    returns (halt: Option<Halt>, ready: bool, ghost h': History, ghost tr': seq<Handled>)
    requires Tracks(q, now) && b.Valid() && b.ids != q.avail && b.count == |tr| < |reqs| && b.count < NET_MAX
    requires Draining(h, now, b.Contents(), tr, q.num) && RxGoing(tr, reqs, q.num)
    requires Wrap16(now.taken) != Wrap16(|now.posted|)
    modifies q`lastAvail, b, b.ids, b.lens
    ensures Tracks(q, h') && b.Valid() && b.count == |tr'| && Draining(h, h', b.Contents(), tr', q.num)
    ensures halt.None? ==> |tr'| == |tr| + 1 && RxGoing(tr', reqs, q.num)
    ensures halt.Some? ==> RxResult(halt.value, ready, h, h', tr', reqs, q.num)
  {
    var ok, taken, more, eof;
    ghost var e;
    ok, taken, more, eof, h', e := RxPass(q, reqs[b.count], b, h, now, tr);
    if !(ok && taken) {
      halt, ready, tr' := Some(if ok then Stopped else Faulted), true, tr;
      RxUnchanged(halt.value, h, h', tr, reqs, q.num);
    } else {
      RxTaken(h, h', tr, e, reqs, q.num);
      halt, ready, tr' := if more then None else Some(Stopped), !eof, tr + [e];
    }
  }

  /** One turn of the receive loop: the test and the body. */
  method RxTurn(q: VirtQueue, want: seq<u16>, reqs: seq<RxRequest>, b: Batch, ghost h: History, ghost now: History,
                ghost tr: seq<Handled>)
    returns (halt: Option<Halt>, ready: bool, ghost h': History, ghost tr': seq<Handled>)
    requires Tracks(q, now) && q.num <= NET_MAX && b.Valid() && b.ids != q.avail && b.count == |tr|
    requires Draining(h, now, b.Contents(), tr, q.num) && RxGoing(tr, reqs, q.num)
    modifies q`availIdx, q.avail, q`lastAvail, b, b.ids, b.lens
    ensures Tracks(q, h') && b.Valid() && b.count == |tr'| && Draining(h, h', b.Contents(), tr', q.num)
    ensures halt.None? ==> |tr'| == |tr| + 1 && RxGoing(tr', reqs, q.num)
    ensures halt.Some? ==> RxResult(halt.value, ready, h, h', tr', reqs, q.num)
  {
    halt, h' := BatchTest(q, want, |reqs|, b, h, now, tr);
    if halt.Some? {
      ready, tr' := true, tr;
      PacketsNotEmpty(tr);
      RxUnchanged(halt.value, h, h', tr, reqs, q.num);
      return;
    }
    halt, ready, h', tr' := RxServe(q, reqs, b, h, h', tr);
  }

  lemma {:induction false} PacketsNotEmpty(tr: seq<Handled>)
    requires AllPackets(tr)
    ensures NoEmpty(tr)
  {}

  /** The receive loop. */
  method RxCollect(q: VirtQueue, adds: seq<seq<u16>>, reqs: seq<RxRequest>, b: Batch, ghost h: History)
    returns (halt: Halt, ready: bool, ghost h': History, ghost tr: seq<Handled>)
    requires Tracks(q, h) && q.num <= NET_MAX && b.Valid() && b.Contents() == [] && b.ids != q.avail
    modifies q`availIdx, q.avail, q`lastAvail, b, b.ids, b.lens
    ensures Tracks(q, h') && b.Valid() && Draining(h, h', b.Contents(), tr, q.num)
    ensures RxResult(halt, ready, h, h', tr, reqs, q.num)
  {
    h', tr := h, [];
    DrainBegins(h, q.num);
    while true
      invariant b.Valid() && b.count == |tr| <= |reqs|
      invariant Tracks(q, h') && Draining(h, h', b.Contents(), tr, q.num) && RxGoing(tr, reqs, q.num)
      decreases |reqs| - |tr|
    {
      var stop;
      stop, ready, h', tr := RxTurn(q, AddsAt(adds, b.count), reqs, b, h, h', tr);
      if stop.Some? { return stop.value, ready, h', tr; }
    }
  }

  lemma {:induction false} RxPublished(halt: Halt, ready: bool, h: History, now: History, batch: seq<Elem>,
                                       tr: seq<Handled>, reqs: seq<RxRequest>, num: nat)
    requires |now.avail0| == num > 0 && RxResult(halt, ready, h, now, tr, reqs, num)
    ensures RxResult(halt, ready, h, Ahead(now, batch), tr, reqs, num)
  {
    assert HeadOf(Ahead(now, batch), num) == HeadOf(now, num);
  }

  /** The receive loop and the publication of its batch. */
  method RxRun(q: VirtQueue, adds: seq<seq<u16>>, reqs: seq<RxRequest>, ghost h: History)
    returns (halt: Halt, ready: bool, ghost h': History, ghost tr: seq<Handled>)
    requires Tracks(q, h) && q.num <= NET_MAX
    modifies q`availIdx, q.avail, q`lastAvail, q`usedIdx, q`log, q.used
    ensures Tracks(q, h') && RxResult(halt, ready, h, h', tr, reqs, q.num)
    ensures halt == Drained || halt == Stopped ==> Draining(h, h', [], tr, q.num)
  {
    var b := new Batch();
    halt, ready, h', tr := RxCollect(q, adds, reqs, b, h);
    if halt == Drained || halt == Stopped {
      ghost var now, batch := h', b.Contents();
      h' := PublishBatch(q, b, h');
      DrainPublish(h, now, batch, tr, q.num);
      RxPublished(halt, ready, h, now, batch, tr, reqs, q.num);
    }
  }

  /** A drain that has done nothing yet passes its start on. */
  lemma {:induction false} RxSameStart(halt: Halt, ready: bool, h: History, m: History, h': History, tr: seq<Handled>,
                                       reqs: seq<RxRequest>, num: nat)
    requires |h'.avail0| == num > 0 && RxResult(halt, ready, m, h', tr, reqs, num)
    requires Draining(h, m, [], [], num)
    ensures RxResult(halt, ready, h, h', tr, reqs, num)
  {
    assert Ahead(m, []) == m;
    if Sane(h, num) { ServedExact(h, m, [], num); }
  }

  /** The same after a test that found entries. */
  method RxFrom(q: VirtQueue, adds: seq<seq<u16>>, reqs: seq<RxRequest>, ghost h: History, ghost now: History)
    returns (halt: Halt, ready: bool, ghost h': History, ghost tr: seq<Handled>)
    requires Tracks(q, now) && q.num <= NET_MAX && Draining(h, now, [], [], q.num)
    modifies q`availIdx, q.avail, q`lastAvail, q`usedIdx, q`log, q.used
    ensures Tracks(q, h') && RxResult(halt, ready, h, h', tr, reqs, q.num)
    ensures halt == Drained || halt == Stopped ==> Draining(h, h', [], tr, q.num)
  {
    halt, ready, h', tr := RxRun(q, adds, reqs, now);
    RxSameStart(halt, ready, h, now, h', tr, reqs, q.num);
    assert [] + tr == tr;
    if halt == Drained || halt == Stopped { DrainConcat(h, now, h', [], [], tr, q.num); }
  }

  /** virtio_net_event_handler on a ready queue: the index is rolled back when the tap has no
      more packets, and one batch is published at the end. */
  method NetReceive(q: VirtQueue, adds: seq<seq<u16>>, reqs: seq<RxRequest>, ghost h: History)
    returns (halt: Halt, ready: bool, ghost h': History, ghost tr: seq<Handled>)
    requires Tracks(q, h) && q.num <= NET_MAX
    modifies q`availIdx, q.avail, q`lastAvail, q`usedIdx, q`log, q.used
    ensures Tracks(q, h') && RxResult(halt, ready, h, h', tr, reqs, q.num)
    ensures halt == Drained || halt == Stopped ==> Served(h, h', tr, q.num)
    ensures halt == Drained && Sane(h, q.num) && NoEmpty(tr) ==> IdsOf(h'.published) == h'.posted
  {
    SizeBound(q.num);
    DrainBegins(h, q.num);
    var empty;
    empty, h' := Test(q, AddsAt(adds, 0), h, h, [], []);
    if empty {
      halt, ready, tr := Drained, true, [];
    } else {
      halt, ready, h', tr := RxFrom(q, if adds == [] then [] else adds[1..], reqs, h, h');
    }
    if halt == Drained || halt == Stopped { DrainEnds(h, h', tr, q.num); }
  }

  // ------------------------------------------------------------------ transmit

  const MIN_PACKET: nat := 64

  /** `pad` is the address of 64 zero bytes, `written` says whether the tap takes the packet. */
  datatype TxRequest = TxRequest(g: Guest, pad: nat, written: bool)

  /** What is given to the tap for a chain, if anything. */
  type Frame = Option<seq<Iov>>

  /** The length reported for a transmitted chain: all of it, or nothing. */
  function Transmitted(ret: int, outs: seq<Iov>, headerLen: nat, written: bool): nat {
    if ret >= 1 && outs != [] && outs[0].len >= headerLen && written then Room(outs) else 0
  }

  /** The buffers, and at most one more, which lies at `pad`. */
  predicate Padded(frame: seq<Iov>, outs: seq<Iov>, pad: nat) {
    outs <= frame && |frame| <= |outs| + 1 && (|frame| > |outs| ==> frame[|outs|].base == pad)
  }

  /** A chain whose first buffer holds the header is written, all of it and in one piece, with as
      many zero bytes behind it as bring the packet behind the header to 64. */
  predicate Framed(frame: Frame, ret: int, outs: seq<Iov>, headerLen: nat, pad: nat) {
    && (frame.Some? <==> ret >= 1 && outs != [] && outs[0].len >= headerLen)
    && (frame.Some? ==>
          && Padded(frame.value, outs, pad) && |frame.value| <= NET_MAX
          && Room(frame.value) == if Room(outs) < headerLen + MIN_PACKET then headerLen + MIN_PACKET else Room(outs))
  }

  predicate TxHandled(e: Handled, frame: Frame, r: TxRequest, headerLen: nat, num: nat) {
    && Framed(frame, e.ret, OutsOf(r.g, e.head, num, e.ret), headerLen, r.pad)
    && WalkReturn(Chain(r.g, e.head, num), NET_MAX - 1, 0) == Some(e.ret) && e.adv == Advance(e.ret)
    && e.out == [Elem(e.head, Transmitted(e.ret, OutsOf(r.g, e.head, num, e.ret), headerLen, r.written))]
  }

  ghost predicate TxTrace(tr: seq<Handled>, frames: seq<Frame>, reqs: seq<TxRequest>, headerLen: nat, num: nat) {
    |tr| == |frames| <= |reqs| && forall i :: 0 <= i < |tr| ==> TxHandled(tr[i], frames[i], reqs[i], headerLen, num)
  }

  lemma {:induction false} RoomFirst(iov: seq<Iov>)
    requires iov != []
    ensures Room(iov) >= iov[0].len
    decreases iov
  {
    if |iov| > 1 { RoomFirst(iov[..|iov| - 1]); }
  }

  /** The frame given to the tap: a short packet is padded to 64 bytes behind its header, in the
      element of the array that the walker had to leave free. */
  method PadFrame(outs: seq<Iov>, headerLen: nat, pad: nat) returns (frame: seq<Iov>)
    requires outs != [] && outs[0].len >= headerLen && |outs| <= NET_MAX - 1
    ensures Padded(frame, outs, pad) && |frame| <= NET_MAX
    ensures Room(frame) == if Room(outs) < headerLen + MIN_PACKET then headerLen + MIN_PACKET else Room(outs)
  {
    RoomFirst(outs);
    var packetLen := Room(outs) - headerLen;
    frame := outs;
    if packetLen < MIN_PACKET {
      frame := outs + [Iov(pad, MIN_PACKET - packetLen)];
      assert frame[..|frame| - 1] == outs;
    }
  }

  /** The part of virtq_tx_handle_one_request between the walk and the batch. */
  method TxFrame(ret: int, outs: seq<Iov>, r: TxRequest, headerLen: nat) returns (frame: Frame, len: nat)
    requires ret >= 1 ==> outs != [] && |outs| <= NET_MAX - 1
    ensures Framed(frame, ret, outs, headerLen, r.pad) && len == Transmitted(ret, outs, headerLen, r.written)
  {
    if ret < 1 || outs[0].len < headerLen { return None, 0; }
    var padded := PadFrame(outs, headerLen, r.pad);
    frame, len := Some(padded), if r.written then Room(outs) else 0;
  }

  /** virtq_tx_handle_one_request of the network device: one batch entry whatever happens. */
  method TxHandleOne(q: VirtQueue, r: TxRequest, headerLen: nat, b: Batch, ghost h: History)
    returns (ok: bool, frame: Frame, ghost h': History, ghost e: Handled)
    requires Tracks(q, h) && b.Valid() && b.count < NET_MAX && b.ids != q.avail
    modifies q`lastAvail, b, b.ids, b.lens
    ensures Tracks(q, h') && b.Valid() && e.head == HeadOf(h, q.num)
    ensures ok <==> WalkReturn(Chain(r.g, e.head, q.num), NET_MAX - 1, 0).Some?
    ensures !ok ==> h' == h && b.count == old(b.count) && b.Contents() == old(b.Contents())
    ensures ok ==> TxHandled(e, frame, r, headerLen, q.num) && h' == h.(taken := h.taken + e.adv)
    ensures ok ==> b.count == old(b.count) + 1 && b.Contents() == old(b.Contents()) + e.out
  {
    var ret, head, outs, ins;
    ret, head, outs, ins, h' := TakeChain(q, r.g, NET_MAX - 1, 0, h);
    if ret.None? { return false, None, h', Handled(head, 0, 0, []); }
    if ret.value <= 0 { outs := []; }
    var len;
    frame, len := TxFrame(ret.value, outs, r, headerLen);
    b.Add(head, len);
    ok, e := true, Handled(head, ret.value, Advance(ret.value), [Elem(head, len)]);
  }

  lemma {:induction false} TxTraceNext(tr: seq<Handled>, frames: seq<Frame>, e: Handled, frame: Frame,
                                       reqs: seq<TxRequest>, headerLen: nat, num: nat)
    requires TxTrace(tr, frames, reqs, headerLen, num)
    requires |tr| < |reqs| && TxHandled(e, frame, reqs[|tr|], headerLen, num)
    ensures TxTrace(tr + [e], frames + [frame], reqs, headerLen, num)
  {
    forall i | 0 <= i < |tr + [e]| ensures TxHandled((tr + [e])[i], (frames + [frame])[i], reqs[i], headerLen, num) {
      if i < |tr| { assert (tr + [e])[i] == tr[i] && (frames + [frame])[i] == frames[i]; }
    }
  }

  /** The walker faults on the chain of request `k`. */
  predicate TxFaults(reqs: seq<TxRequest>, k: nat, h: History, num: nat)
    requires |h.avail0| == num > 0
  {
    k < |reqs| && WalkReturn(Chain(reqs[k].g, HeadOf(h, num), num), NET_MAX - 1, 0).None?
  }

  /** How a transmit loop ends; the batch arrays are not overrun while the queue is in order. */
  ghost predicate TxEnd(halt: Halt, h: History, h': History, tr: seq<Handled>, reqs: seq<TxRequest>, num: nat)
    requires |h'.avail0| == num > 0
  {
    if halt == Overrun then !(Sane(h, num) && NoEmpty(tr))
    else Halted(halt, h', |tr| == |reqs|, TxFaults(reqs, |tr|, h', num))
  }

  lemma {:induction false} TxFaultsFrom(reqs: seq<TxRequest>, k: nat, n: nat, h: History, num: nat)
    requires |h.avail0| == num > 0 && k <= |reqs|
    ensures TxFaults(reqs[k..], n, h, num) <==> TxFaults(reqs, k + n, h, num)
  {
    assert k + n < |reqs| ==> reqs[k..][n] == reqs[k + n];
  }

  /** One turn of the inner loop. The batch arrays overrun only if an empty chain was met. */
  method TxTurn(q: VirtQueue, want: seq<u16>, reqs: seq<TxRequest>, headerLen: nat, b: Batch, ghost h: History,
                ghost now: History, ghost tr: seq<Handled>, ghost fs: seq<Frame>)
    returns (halt: Option<Halt>, ghost h': History, ghost tr': seq<Handled>, ghost fs': seq<Frame>)
    requires Tracks(q, now) && q.num <= NET_MAX && b.Valid() && b.ids != q.avail && b.count == |tr|
    requires Draining(h, now, b.Contents(), tr, q.num) && TxTrace(tr, fs, reqs, headerLen, q.num)
    modifies q`availIdx, q.avail, q`lastAvail, b, b.ids, b.lens
    ensures Tracks(q, h') && b.Valid() && b.count == |tr'| && Draining(h, h', b.Contents(), tr', q.num)
    ensures TxTrace(tr', fs', reqs, headerLen, q.num) && |tr'| == if halt.None? then |tr| + 1 else |tr|
    ensures halt == Some(Drained) && want == [] ==> h' == now
    ensures halt.Some? ==> TxEnd(halt.value, h, h', tr', reqs, q.num)
  {
    halt, h' := BatchTest(q, want, |reqs|, b, h, now, tr);
    tr', fs' := tr, fs;
    if halt.Some? { return; }
    ghost var before, batch := h', b.Contents();
    var ok, frame;
    ghost var e;
    ok, frame, h', e := TxHandleOne(q, reqs[b.count], headerLen, b, h');
    if !ok { return Some(Faulted), h', tr', fs'; }
    DrainNext(h, before, batch, tr, q.num, e);
    TxTraceNext(tr, fs, e, frame, reqs, headerLen, q.num);
    halt, tr', fs' := None, tr + [e], fs + [frame];
  }

  /** The inner loop of virtio_net_txq_notify_handler. `t` counts its tests. */
  method TxCollect(q: VirtQueue, adds: seq<seq<u16>>, reqs: seq<TxRequest>, headerLen: nat, b: Batch, ghost h: History)
    returns (halt: Halt, t: nat, ghost h': History, ghost tr: seq<Handled>, ghost fs: seq<Frame>)
    requires Tracks(q, h) && q.num <= NET_MAX && b.Valid() && b.Contents() == [] && b.ids != q.avail
    modifies q`availIdx, q.avail, q`lastAvail, b, b.ids, b.lens
    ensures Tracks(q, h') && b.Valid() && b.count == |tr| && t > 0
    ensures Draining(h, h', b.Contents(), tr, q.num) && TxTrace(tr, fs, reqs, headerLen, q.num)
    ensures halt == Drained && tr == [] && adds == [] ==> h' == h
    ensures TxEnd(halt, h, h', tr, reqs, q.num)
  {
    t, h', tr, fs := 0, h, [], [];
    DrainBegins(h, q.num);
    while true
      invariant b.Valid() && b.count == |tr| <= |reqs|
      invariant Tracks(q, h') && Draining(h, h', b.Contents(), tr, q.num)
      invariant TxTrace(tr, fs, reqs, headerLen, q.num)
      invariant tr == [] ==> h' == h
      decreases |reqs| - |tr|
    {
      var stop;
      stop, h', tr, fs := TxTurn(q, AddsAt(adds, t), reqs, headerLen, b, h, h', tr, fs);
      t := t + 1;
      if stop.Some? { return stop.value, t, h', tr, fs; }
    }
  }

  /** One round: drain into the batch arrays, then publish them. */
  method TxRound(q: VirtQueue, adds: seq<seq<u16>>, reqs: seq<TxRequest>, headerLen: nat, ghost h: History)
    returns (halt: Halt, k: nat, t: nat, ghost h': History, ghost tr: seq<Handled>, ghost fs: seq<Frame>,
             ghost batch: seq<Elem>)
    requires Tracks(q, h) && q.num <= NET_MAX
    modifies q`availIdx, q.avail, q`lastAvail, q`usedIdx, q`log, q.used
    ensures Tracks(q, h') && Draining(h, h', batch, tr, q.num) && TxTrace(tr, fs, reqs, headerLen, q.num)
    ensures |tr| == k && t > 0
    ensures halt == Drained ==> batch == []
    ensures halt == Drained && tr == [] && adds == [] ==> h' == h
    ensures TxEnd(halt, h, h', tr, reqs, q.num)
  {
    var b := new Batch();
    halt, t, h', tr, fs := TxCollect(q, adds, reqs, headerLen, b, h);
    k, batch := b.count, b.Contents();
    if halt == Drained {
      DrainPublish(h, h', batch, tr, q.num);
      if tr == [] && adds == [] { assert Ahead(h, []) == h; }
      h' := PublishBatch(q, b, h');
      batch := [];
    }
  }

  lemma {:induction false} TxTraceConcat(a: seq<Handled>, fa: seq<Frame>, b: seq<Handled>, fb: seq<Frame>,
                                         reqs: seq<TxRequest>, headerLen: nat, num: nat)
    requires TxTrace(a, fa, reqs, headerLen, num) && TxTrace(b, fb, reqs[|a|..], headerLen, num)
    ensures TxTrace(a + b, fa + fb, reqs, headerLen, num)
  {
    forall i | 0 <= i < |a + b| ensures TxHandled((a + b)[i], (fa + fb)[i], reqs[i], headerLen, num) {
      if i >= |a| { assert reqs[i] == reqs[|a|..][i - |a|]; }
    }
  }

  lemma {:induction false} TxEndConcat(halt: Halt, h: History, m: History, h': History, tr: seq<Handled>,
                                       more: seq<Handled>, reqs: seq<TxRequest>, num: nat)
    requires |h'.avail0| == num > 0 && |tr| <= |reqs| && (Sane(h, num) && NoEmpty(tr) ==> Sane(m, num))
    requires TxEnd(halt, m, h', more, reqs[|tr|..], num)
    ensures TxEnd(halt, h, h', tr + more, reqs, num)
  {
    TxFaultsFrom(reqs, |tr|, |more|, h', num);
    NoEmptyConcat(tr, more);
  }

  /** One more round. */
  method TxMore(q: VirtQueue, adds: seq<seq<u16>>, reqs: seq<TxRequest>, headerLen: nat, k: nat, ghost h: History,
                ghost now: History, ghost tr: seq<Handled>, ghost fs: seq<Frame>)
    returns (halt: Halt, n: nat, t: nat, ghost h': History, ghost tr': seq<Handled>, ghost fs': seq<Frame>,
             ghost batch: seq<Elem>)
    requires Tracks(q, now) && q.num <= NET_MAX && Draining(h, now, [], tr, q.num)
    requires TxTrace(tr, fs, reqs, headerLen, q.num) && |tr| == k
    modifies q`availIdx, q.avail, q`lastAvail, q`usedIdx, q`log, q.used
    ensures Tracks(q, h') && Draining(h, h', batch, tr', q.num) && TxTrace(tr', fs', reqs, headerLen, q.num)
    ensures |tr'| == k + n && t > 0
    ensures halt == Drained ==> batch == []
    ensures halt == Drained && n == 0 && adds == [] ==> Wrap16(now.taken) == Wrap16(|now.posted|)
    ensures TxEnd(halt, h, h', tr', reqs, q.num)
  {
    ghost var more, moreFs;
    halt, n, t, h', more, moreFs, batch := TxRound(q, adds, reqs[k..], headerLen, now);
    DrainConcat(h, now, h', batch, tr, more, q.num);
    TxTraceConcat(tr, fs, more, moreFs, reqs, headerLen, q.num);
    TxEndConcat(halt, h, now, h', tr, more, reqs, q.num);
    tr', fs' := tr + more, fs + moreFs;
  }

  /** virtio_net_txq_notify_handler: rounds of drain and publish until the re-check after
      re-enabling notification finds the queue empty. `batch` is what a round that did not end
      holds back. */
  method NetTransmit(q: VirtQueue, adds: seq<seq<u16>>, reqs: seq<TxRequest>, headerLen: nat, ghost h: History)
    returns (halt: Halt, ghost h': History, ghost tr: seq<Handled>, ghost fs: seq<Frame>, ghost batch: seq<Elem>)
    requires Tracks(q, h) && q.num <= NET_MAX
    modifies q`availIdx, q.avail, q`lastAvail, q`usedIdx, q`log, q.used
    ensures Tracks(q, h') && Served(h, Ahead(h', batch), tr, q.num) && TxTrace(tr, fs, reqs, headerLen, q.num)
    ensures halt == Drained ==> batch == []
    ensures TxEnd(halt, h, h', tr, reqs, q.num)
    ensures halt == Drained && Sane(h, q.num) && NoEmpty(tr) ==> IdsOf(h'.published) == h'.posted
  {
    SizeBound(q.num);
    DrainBegins(h, q.num);
    h', tr, fs, batch := h, [], [], [];
    var k, t, empty := 0, 0, false;
    while !empty
      invariant 0 <= k <= |reqs| && |tr| == k
      invariant Tracks(q, h') && Draining(h, h', [], tr, q.num) && TxTrace(tr, fs, reqs, headerLen, q.num)
      invariant batch == []
      invariant empty ==> Wrap16(h'.taken) == Wrap16(|h'.posted|)
      invariant !empty && t > 0 ==> Wrap16(h'.taken) != Wrap16(|h'.posted|)
      decreases |reqs| - k, (if t < |adds| then |adds| - t else 0) + (if t == 0 then 1 else 0), if empty then 0 else 1
    {
      var n, tests;
      halt, n, tests, h', tr, fs, batch
        := TxMore(q, if t < |adds| then adds[t..] else [], reqs, headerLen, k, h, h', tr, fs);
      k, t := k + n, t + tests;
      if halt != Drained { return; }
      empty, h' := Test(q, AddsAt(adds, t), h, h', [], tr);
      t := t + 1;
    }
    halt := Drained;
    DrainEnds(h, h', tr, q.num);
  }

  // ------------------------------------------------------------------ what breaks the order

  /** Reception stays in order exactly if no ring entry it comes to is empty. */
  lemma {:induction false} ReceiveExact(h: History, h': History, tr: seq<Handled>, reqs: seq<RxRequest>, num: nat)
    requires Sane(h, num) && Served(h, h', tr, num) && RxTrace(tr, reqs, num)
    ensures var gs := seq(|reqs|, i requires 0 <= i < |reqs| => reqs[i].g);
            InOrder(h') <==> forall i :: 0 <= i < |tr| ==> !DueEmpty(h, h'.posted, i, EmptyIn(gs, num))
  {
    var gs := seq(|reqs|, i requires 0 <= i < |reqs| => reqs[i].g);
    forall i | 0 <= i < |tr| ensures WalkReturn(Chain(gs[i], tr[i].head, num), 0, NET_MAX) == Some(tr[i].ret) {
      assert RxHandled(tr[i], reqs[i], num);
    }
    CompletionExact(h, h', tr, gs, num, 0, NET_MAX);
  }

  /** So does transmission, with what it holds back counted as completed. */
  lemma {:induction false} TransmitExact(h: History, h': History, tr: seq<Handled>, frames: seq<Frame>,
                                         reqs: seq<TxRequest>, headerLen: nat, num: nat)
    requires Sane(h, num) && Served(h, h', tr, num) && TxTrace(tr, frames, reqs, headerLen, num)
    ensures var gs := seq(|reqs|, i requires 0 <= i < |reqs| => reqs[i].g);
            InOrder(h') <==> forall i :: 0 <= i < |tr| ==> !DueEmpty(h, h'.posted, i, EmptyIn(gs, num))
  {
    var gs := seq(|reqs|, i requires 0 <= i < |reqs| => reqs[i].g);
    forall i | 0 <= i < |tr| ensures WalkReturn(Chain(gs[i], tr[i].head, num), NET_MAX - 1, 0) == Some(tr[i].ret) {
      assert TxHandled(tr[i], frames[i], reqs[i], headerLen, num);
    }
    CompletionExact(h, h', tr, gs, num, NET_MAX - 1, 0);
  }
}
