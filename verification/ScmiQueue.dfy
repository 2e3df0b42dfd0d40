/** The virtio-scmi command queue (virtq_tx_handle_one_request and virtio_scmi_txq_notify_handler
    in tools/virtio/devices/scmi/virtio_scmi.c): completion accounting. */
module ScmiQueue {
  import opened Runs
  import opened Words
  import opened VirtQueues
  import opened Walkers
  import opened Ledger
  import opened Drains

  const SCMI_MAX_BUFFER_SIZE: nat := 1048576
  const SCMI_BUFS: nat := 2

  /** What the header says and what the protocol handler does: whether it succeeds, and the
      length of its response. */
  datatype ScmiRequest = ScmiRequest(g: Guest, isCommand: bool, handled: bool, written: nat)

  /** A request the device answers: one readable and one writable buffer, a request of the
      right size, and a handler that succeeds. */
  predicate ScmiAnswered(outs: seq<Iov>, ins: seq<Iov>, r: ScmiRequest) {
    && |outs| == 1 && |ins| == 1
    && 4 <= outs[0].len <= SCMI_MAX_BUFFER_SIZE && outs[0].base != 0
    && r.isCommand && r.handled
  }

  predicate Answers(e: Handled, r: ScmiRequest, num: nat) {
    ScmiAnswered(OutsOf(r.g, e.head, num, e.ret), InsOf(r.g, e.head, num, e.ret), r)
  }

  predicate ScmiHandled(e: Handled, r: ScmiRequest, num: nat) {
    && WalkReturn(Chain(r.g, e.head, num), SCMI_BUFS, SCMI_BUFS) == Some(e.ret) && e.adv == Advance(e.ret)
    && e.out == [Elem(e.head, if Answers(e, r, num) then r.written else 0)]
  }

  ghost predicate ScmiTrace(tr: seq<Handled>, reqs: seq<ScmiRequest>, num: nat) {
    |tr| <= |reqs| && forall i :: 0 <= i < |tr| ==> ScmiHandled(tr[i], reqs[i], num)
  }

  /** virtq_tx_handle_one_request of the SCMI device. */
  method ScmiHandleOne(q: VirtQueue, r: ScmiRequest, ghost h: History)
    returns (ok: bool, answered: bool, ghost h': History, ghost e: Handled)
    requires Tracks(q, h)
    modifies q`lastAvail, q`usedIdx, q`log, q.used
    ensures Tracks(q, h') && e.head == HeadOf(h, q.num)
    ensures ok <==> WalkReturn(Chain(r.g, e.head, q.num), SCMI_BUFS, SCMI_BUFS).Some?
    ensures ok ==> ScmiHandled(e, r, q.num) && (answered <==> Answers(e, r, q.num))
    ensures h' == if ok then h.(taken := h.taken + e.adv, published := h.published + e.out) else h
  {
    var ret, head, outs, ins;
    ret, head, outs, ins, h' := TakeChain(q, r.g, SCMI_BUFS, SCMI_BUFS, h);
    if ret.None? { return false, false, h', Handled(head, 0, 0, []); }
    answered := false;
    var len := 0;
    if ret.value <= 0 {
    } else if |outs| != 1 || |ins| != 1 {
    } else if outs[0].len < 4 || outs[0].base == 0 || outs[0].len > SCMI_MAX_BUFFER_SIZE {
    } else if !r.isCommand {
    } else if r.handled {
      answered, len := true, r.written;
    }
    h' := Publish(q, head, len, h');
    ok, e := true, Handled(head, ret.value, Advance(ret.value), [Elem(head, len)]);
  }

  ghost predicate AllAnswered(tr: seq<Handled>, reqs: seq<ScmiRequest>, num: nat) {
    |tr| <= |reqs| && forall i :: 0 <= i < |tr| ==> Answers(tr[i], reqs[i], num)
  }

  /** A batch ends after its first request that is not answered, and only there. */
  ghost predicate ScmiEnd(halt: Halt, tr: seq<Handled>, reqs: seq<ScmiRequest>, num: nat) {
    if halt == Stopped then
      0 < |tr| <= |reqs| && AllAnswered(tr[..|tr| - 1], reqs, num) && !Answers(tr[|tr| - 1], reqs[|tr| - 1], num)
    else AllAnswered(tr, reqs, num)
  }

  lemma {:induction false} ScmiTraceNext(tr: seq<Handled>, e: Handled, reqs: seq<ScmiRequest>, num: nat)
    requires ScmiTrace(tr, reqs, num) && |tr| < |reqs| && ScmiHandled(e, reqs[|tr|], num)
    ensures ScmiTrace(tr + [e], reqs, num)
  {
    forall i | 0 <= i < |tr + [e]| ensures ScmiHandled((tr + [e])[i], reqs[i], num) {
      if i < |tr| { assert (tr + [e])[i] == tr[i]; }
    }
  }

  lemma {:induction false} AnsweredNext(tr: seq<Handled>, e: Handled, reqs: seq<ScmiRequest>, num: nat)
    requires AllAnswered(tr, reqs, num) && |tr| < |reqs|
    ensures Answers(e, reqs[|tr|], num) ==> AllAnswered(tr + [e], reqs, num)
    ensures !Answers(e, reqs[|tr|], num) ==> ScmiEnd(Stopped, tr + [e], reqs, num)
  {
    if Answers(e, reqs[|tr|], num) {
      forall i | 0 <= i < |tr + [e]| ensures Answers((tr + [e])[i], reqs[i], num) {
        if i < |tr| { assert (tr + [e])[i] == tr[i]; }
      }
    } else {
      assert (tr + [e])[..|tr|] == tr && (tr + [e])[|tr|] == e;
    }
  }

  /** The walker faults on the chain of request `k`. */
  predicate ScmiFaults(reqs: seq<ScmiRequest>, k: nat, h: History, num: nat)
    requires |h.avail0| == num > 0
  {
    k < |reqs| && WalkReturn(Chain(reqs[k].g, HeadOf(h, num), num), SCMI_BUFS, SCMI_BUFS).None?
  }

  lemma {:induction false} ScmiFaultsFrom(reqs: seq<ScmiRequest>, k: nat, n: nat, h: History, num: nat)
    requires |h.avail0| == num > 0 && k <= |reqs|
    ensures ScmiFaults(reqs[k..], n, h, num) <==> ScmiFaults(reqs, k + n, h, num)
  {
    assert k + n < |reqs| ==> reqs[k..][n] == reqs[k + n];
  }

  /** One turn of the inner loop, which stops after a request that is not answered. */
  method ScmiTurn(q: VirtQueue, want: seq<u16>, reqs: seq<ScmiRequest>, k: nat, ghost h: History, ghost now: History,
                  ghost tr: seq<Handled>) returns (halt: Option<Halt>, ghost h': History, ghost tr': seq<Handled>)
    requires Tracks(q, now) && Draining(h, now, [], tr, q.num) && |tr| == k
    requires ScmiTrace(tr, reqs, q.num) && AllAnswered(tr, reqs, q.num)
    modifies q`availIdx, q.avail, q`lastAvail, q`usedIdx, q`log, q.used
    ensures Tracks(q, h') && Draining(h, h', [], tr', q.num) && ScmiTrace(tr', reqs, q.num)
    ensures |tr'| == if halt.None? || halt == Some(Stopped) then k + 1 else k
    ensures halt == Some(Drained) && want == [] ==> h' == now
    ensures halt.Some? && halt != Some(Stopped) ==>
              Halted(halt.value, h', k == |reqs|, ScmiFaults(reqs, k, h', q.num))
    ensures if halt.None? then AllAnswered(tr', reqs, q.num) else ScmiEnd(halt.value, tr', reqs, q.num)
  {
    var empty;
    empty, h' := Test(q, want, h, now, [], tr);
    tr' := tr;
    if empty { return Some(Drained), h', tr'; }
    if k == |reqs| { return Some(Given), h', tr'; }
    ghost var before := h';
    var ok, answered;
    ghost var e;
    ok, answered, h', e := ScmiHandleOne(q, reqs[k], h');
    if !ok { return Some(Faulted), h', tr'; }
    DrainNextNow(h, before, tr, q.num, e);
    ScmiTraceNext(tr, e, reqs, q.num);
    AnsweredNext(tr, e, reqs, q.num);
    halt, tr' := if answered then None else Some(Stopped), tr + [e];
  }

  /** The inner loop of virtio_scmi_txq_notify_handler. */
  method ScmiBatch(q: VirtQueue, adds: seq<seq<u16>>, reqs: seq<ScmiRequest>, ghost h: History)
    returns (halt: Halt, k: nat, t: nat, ghost h': History, ghost tr: seq<Handled>)
    requires Tracks(q, h)
    modifies q`availIdx, q.avail, q`lastAvail, q`usedIdx, q`log, q.used
    ensures Tracks(q, h') && Draining(h, h', [], tr, q.num) && |tr| == k && t > 0
    ensures ScmiTrace(tr, reqs, q.num) && ScmiEnd(halt, tr, reqs, q.num)
    ensures halt == Drained && k == 0 && adds == [] ==> Wrap16(h.taken) == Wrap16(|h.posted|)
    ensures halt != Stopped ==> Halted(halt, h', k == |reqs|, ScmiFaults(reqs, k, h', q.num))
  {
    k, t, h', tr := 0, 0, h, [];
    DrainBegins(h, q.num);
    while true
      invariant |tr| == k <= |reqs|
      invariant Tracks(q, h') && Draining(h, h', [], tr, q.num)
      invariant ScmiTrace(tr, reqs, q.num) && AllAnswered(tr, reqs, q.num)
      invariant k == 0 ==> h' == h
      decreases |reqs| - k
    {
      var stop;
      stop, h', tr := ScmiTurn(q, AddsAt(adds, t), reqs, k, h, h', tr);
      t := t + 1;
      if stop.Some? { return stop.value, if stop.value == Stopped then k + 1 else k, t, h', tr; }
      k := k + 1;
    }
  }

  lemma {:induction false} ScmiTraceConcat(a: seq<Handled>, b: seq<Handled>, reqs: seq<ScmiRequest>, num: nat)
    requires ScmiTrace(a, reqs, num) && ScmiTrace(b, reqs[|a|..], num)
    ensures ScmiTrace(a + b, reqs, num)
  {
    forall i | 0 <= i < |a + b| ensures ScmiHandled((a + b)[i], reqs[i], num) {
      if i >= |a| { assert reqs[i] == reqs[|a|..][i - |a|]; }
    }
  }

  /** One batch more. */
  method ScmiMore(q: VirtQueue, adds: seq<seq<u16>>, reqs: seq<ScmiRequest>, k: nat, ghost h: History,
                  ghost now: History, ghost tr: seq<Handled>)
    returns (halt: Halt, n: nat, t: nat, ghost h': History, ghost tr': seq<Handled>)
    requires Tracks(q, now) && Draining(h, now, [], tr, q.num) && ScmiTrace(tr, reqs, q.num) && |tr| == k
    modifies q`availIdx, q.avail, q`lastAvail, q`usedIdx, q`log, q.used
    ensures Tracks(q, h') && Draining(h, h', [], tr', q.num) && ScmiTrace(tr', reqs, q.num) && |tr'| == k + n && t > 0
    ensures halt == Drained && n == 0 && adds == [] ==> Wrap16(now.taken) == Wrap16(|now.posted|)
    ensures if halt == Stopped then n > 0
            else Halted(halt, h', |tr'| == |reqs|, ScmiFaults(reqs, |tr'|, h', q.num))
  {
    ghost var more;
    halt, n, t, h', more := ScmiBatch(q, adds, reqs[k..], now);
    DrainConcat(h, now, h', [], tr, more, q.num);
    ScmiTraceConcat(tr, more, reqs, q.num);
    ScmiFaultsFrom(reqs, k, n, h', q.num);
    tr' := tr + more;
  }

  /** virtio_scmi_txq_notify_handler: a failed request ends a batch, and the outer loop goes on
      until the queue is empty. */
  method ScmiDrain(q: VirtQueue, adds: seq<seq<u16>>, reqs: seq<ScmiRequest>, ghost h: History)
    returns (halt: Halt, ghost h': History, ghost tr: seq<Handled>)
    requires Tracks(q, h)
    modifies q`availIdx, q.avail, q`lastAvail, q`usedIdx, q`log, q.used
    ensures Tracks(q, h') && Served(h, h', tr, q.num) && ScmiTrace(tr, reqs, q.num)
    ensures Halted(halt, h', |tr| == |reqs|, ScmiFaults(reqs, |tr|, h', q.num))
    ensures halt == Drained && Sane(h, q.num) && NoEmpty(tr) ==> IdsOf(h'.published) == h'.posted
  {
    SizeBound(q.num);
    DrainBegins(h, q.num);
    tr := [];
    var empty;
    empty, h' := Test(q, AddsAt(adds, 0), h, h, [], []);
    var k, t := 0, 1;
    halt := Drained;
    while !empty
      invariant halt == Drained
      invariant 0 <= k <= |reqs| && |tr| == k
      invariant Tracks(q, h') && Draining(h, h', [], tr, q.num) && ScmiTrace(tr, reqs, q.num)
      invariant empty <==> Wrap16(h'.taken) == Wrap16(|h'.posted|)
      decreases |reqs| - k, if t < |adds| then |adds| - t else 0
    {
      var n, tests;
      halt, n, tests, h', tr := ScmiMore(q, if t < |adds| then adds[t..] else [], reqs, k, h, h', tr);
      k, t := k + n, t + tests;
      if halt == Given || halt == Faulted { break; }
      halt := Drained;
      empty, h' := Test(q, AddsAt(adds, t), h, h', [], tr);
      t := t + 1;
    }
    DrainEnds(h, h', tr, q.num);
  }

  function Memories(reqs: seq<ScmiRequest>): (r: seq<Guest>)
    ensures |r| == |reqs| && forall i :: 0 <= i < |reqs| ==> r[i] == reqs[i].g
  {
    seq(|reqs|, i requires 0 <= i < |reqs| => reqs[i].g)
  }

  /** A drain stays in order exactly if no ring entry it comes to is empty. */
  lemma {:induction false} ScmiExact(h: History, h': History, tr: seq<Handled>, reqs: seq<ScmiRequest>, num: nat)
    requires Sane(h, num) && Served(h, h', tr, num) && ScmiTrace(tr, reqs, num)
    ensures InOrder(h') <==> forall i :: 0 <= i < |tr| ==> !DueEmpty(h, h'.posted, i, EmptyIn(Memories(reqs), num))
  {
    var gs := Memories(reqs);
    forall i | 0 <= i < |tr|
      ensures WalkReturn(Chain(gs[i], tr[i].head, num), SCMI_BUFS, SCMI_BUFS) == Some(tr[i].ret)
    {
      assert ScmiHandled(tr[i], reqs[i], num);
    }
    CompletionExact(h, h', tr, gs, num, SCMI_BUFS, SCMI_BUFS);
  }
}
