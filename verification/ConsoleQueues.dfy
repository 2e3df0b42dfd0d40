/** The two virtio-console queues (virtio_console_event_handler, virtq_tx_handle_one_request and
    virtio_console_txq_notify_handler in tools/virtio/devices/console/virtio_console.c):
    completion accounting with the allocating walker. */
module ConsoleQueues {
  import opened Runs
  import opened Words
  import opened VirtQueues
  import opened Walkers
  import opened Ledger
  import opened Drains

  /** `len` is the result of the read or write, negative when it fails for any reason. */
  datatype ConsoleRequest = ConsoleRequest(g: Guest, len: int)

  /** What the allocating walker returns for the chain of a head. */
  function AllocReturn(g: Guest, head: u16, num: nat): Option<nat> {
    match AllocChain(g, head, num) case None => None case Some(a) => Some(a.n)
  }

  /** One console entry that was consumed for good: completed if it has a chain, else dropped. */
  predicate ConsoleHandled(e: Handled, g: Guest, len: nat, num: nat) {
    && e.ret >= 0 && AllocReturn(g, e.head, num) == Some(e.ret) && e.adv == 1
    && e.out == if e.ret < 1 then [] else [Elem(e.head, len)]
  }

  /** The head and the chain of the next entry; the allocating walker steps over the entry. */
  method ConsoleWalk(q: VirtQueue, g: Guest, ghost h: History) returns (n: Option<nat>, head: u16, ghost h': History)
    requires Tracks(q, h) && Wrap16(h.taken) != Wrap16(|h.posted|)
    modifies q`lastAvail
    ensures head == HeadOf(h, q.num) && n == AllocReturn(g, head, q.num)
    ensures Tracks(q, h') && h' == if n.Some? then h.(taken := h.taken + 1) else h
  {
    head := q.avail[Slot(q.lastAvail, q.num)];
    if AllocChain(g, head, q.num).None? { return None, head, h; }
    WrapNext(h.taken);
    var count, iov, flags;
    count, head, iov, flags := ProcessDescriptorChain(q, g, 0, false);
    n, h' := Some(count), h.(taken := h.taken + 1);
  }

  predicate ReadHandled(e: Handled, r: ConsoleRequest, num: nat) {
    ConsoleHandled(e, r.g, if r.len < 0 then 0 else r.len, num) && (e.ret > 0 ==> r.len >= 0)
  }

  ghost predicate ConsoleReads(tr: seq<Handled>, reqs: seq<ConsoleRequest>, num: nat) {
    |tr| <= |reqs| && forall i :: 0 <= i < |tr| ==> ReadHandled(tr[i], reqs[i], num)
  }

  /** The body of the console receive loop: complete an entry, drop it, or give it back. */
  method ConsoleReadOne(q: VirtQueue, r: ConsoleRequest, ghost h: History)
    returns (ok: bool, taken: bool, dropped: bool, ghost h': History, ghost e: Handled)
    requires Tracks(q, h) && Wrap16(h.taken) != Wrap16(|h.posted|)
    modifies q`lastAvail, q`usedIdx, q`log, q.used
    ensures Tracks(q, h') && e.head == HeadOf(h, q.num)
    ensures ok <==> AllocReturn(r.g, e.head, q.num).Some?
    ensures ok ==> e.ret >= 0 && AllocReturn(r.g, e.head, q.num) == Some(e.ret) && (taken <==> e.ret == 0 || r.len >= 0)
    ensures ok && taken ==> ConsoleHandled(e, r.g, if r.len < 0 then 0 else r.len, q.num)
    ensures dropped <==> ok && e.ret == 0
    ensures h' == if ok && taken then h.(taken := h.taken + e.adv, published := h.published + e.out) else h
  {
    var n, head;
    n, head, h' := ConsoleWalk(q, r.g, h);
    if n.None? { return false, false, false, h', Handled(head, 0, 0, []); }
    ok, taken, dropped, e := true, true, n.value < 1, Handled(head, n.value, 1, []);
    if dropped {
      assert h.published + [] == h.published;
    } else if r.len < 0 {
      GiveBack(q, h);
      taken, h' := false, h;
    } else {
      h' := Publish(q, head, r.len, h');
      e := Handled(head, n.value, 1, [Elem(head, r.len)]);
    }
  }

  lemma {:induction false} ConsoleReadsNext(tr: seq<Handled>, e: Handled, reqs: seq<ConsoleRequest>, num: nat)
    requires ConsoleReads(tr, reqs, num) && |tr| < |reqs| && ReadHandled(e, reqs[|tr|], num)
    ensures ConsoleReads(tr + [e], reqs, num)
  {
    forall i | 0 <= i < |tr + [e]| ensures ReadHandled((tr + [e])[i], reqs[i], num) {
      if i < |tr| { assert (tr + [e])[i] == tr[i]; }
    }
  }

  /** The walker faults on the chain of request `k`. */
  predicate ConsoleFaults(reqs: seq<ConsoleRequest>, k: nat, h: History, num: nat)
    requires |h.avail0| == num > 0
  {
    k < |reqs| && AllocReturn(reqs[k].g, HeadOf(h, num), num).None?
  }

  /** How console reception ends: it stops only on an entry it drops or gives back. */
  ghost predicate ConsoleEnd(halt: Halt, tr: seq<Handled>, reqs: seq<ConsoleRequest>, h: History, num: nat)
    requires |h.avail0| == num > 0
  {
    if halt == Stopped then NoEmpty(tr) ==> |tr| < |reqs| && reqs[|tr|].len < 0
    else NoEmpty(tr) && Halted(halt, h, |tr| == |reqs|, ConsoleFaults(reqs, |tr|, h, num))
  }

  /** One turn of the console receive loop. It stops on an entry it gives back and on one it
      drops. */
  method ConsoleTurn(q: VirtQueue, want: seq<u16>, reqs: seq<ConsoleRequest>, k: nat, ghost h: History,
                     ghost now: History,
                     ghost tr: seq<Handled>) returns (halt: Option<Halt>, ghost h': History, ghost tr': seq<Handled>)
    requires Tracks(q, now) && Draining(h, now, [], tr, q.num) && |tr| == k && NoEmpty(tr)
    requires ConsoleReads(tr, reqs, q.num)
    modifies q`availIdx, q.avail, q`lastAvail, q`usedIdx, q`log, q.used
    ensures Tracks(q, h') && Draining(h, h', [], tr', q.num) && ConsoleReads(tr', reqs, q.num)
    ensures halt.None? ==> |tr'| == k + 1 && NoEmpty(tr')
    ensures halt.Some? ==> ConsoleEnd(halt.value, tr', reqs, h', q.num)
  {
    var empty;
    empty, h' := Test(q, want, h, now, [], tr);
    tr' := tr;
    if empty { return Some(Drained), h', tr'; }
    if k == |reqs| { return Some(Given), h', tr'; }
    ghost var before := h';
    var ok, taken, dropped;
    ghost var e;
    ok, taken, dropped, h', e := ConsoleReadOne(q, reqs[k], h');
    if !ok { return Some(Faulted), h', tr'; }
    if !taken { return Some(Stopped), h', tr'; }
    DrainNextNow(h, before, tr, q.num, e);
    ConsoleReadsNext(tr, e, reqs, q.num);
    TraceNext(tr, e);
    halt, tr' := if dropped then Some(Stopped) else None, tr + [e];
  }

  /** The console receive loop. */
  method ConsoleCollect(q: VirtQueue, adds: seq<seq<u16>>, reqs: seq<ConsoleRequest>, ghost h: History,
                        ghost now: History)
    returns (halt: Halt, ghost h': History, ghost tr: seq<Handled>)
    requires Tracks(q, now) && Draining(h, now, [], [], q.num)
    modifies q`availIdx, q.avail, q`lastAvail, q`usedIdx, q`log, q.used
    ensures Tracks(q, h') && Draining(h, h', [], tr, q.num) && ConsoleReads(tr, reqs, q.num)
    ensures ConsoleEnd(halt, tr, reqs, h', q.num)
  {
    h', tr := now, [];
    var k := 0;
    while true
      invariant |tr| == k <= |reqs| && NoEmpty(tr)
      invariant Tracks(q, h') && Draining(h, h', [], tr, q.num) && ConsoleReads(tr, reqs, q.num)
      decreases |reqs| - k
    {
      var stop;
      stop, h', tr := ConsoleTurn(q, AddsAt(adds, k), reqs, k, h, h', tr);
      if stop.Some? { return stop.value, h', tr; }
      k := k + 1;
    }
  }

  /** virtio_console_event_handler on a ready queue: a failed read gives the entry back, but a
      chain the walker finds empty has already been consumed and is dropped. */
  method ConsoleReceive(q: VirtQueue, adds: seq<seq<u16>>, reqs: seq<ConsoleRequest>, ghost h: History)
    returns (halt: Halt, ghost h': History, ghost tr: seq<Handled>)
    requires Tracks(q, h)
    modifies q`availIdx, q.avail, q`lastAvail, q`usedIdx, q`log, q.used
    ensures Tracks(q, h') && Served(h, h', tr, q.num) && ConsoleReads(tr, reqs, q.num)
    ensures ConsoleEnd(halt, tr, reqs, h', q.num)
    ensures halt == Drained && Sane(h, q.num) ==> IdsOf(h'.published) == h'.posted
  {
    SizeBound(q.num);
    DrainBegins(h, q.num);
    tr := [];
    var empty;
    empty, h' := Test(q, AddsAt(adds, 0), h, h, [], []);
    if empty {
      halt := Drained;
    } else {
      halt, h', tr := ConsoleCollect(q, if adds == [] then [] else adds[1..], reqs, h, h');
    }
    DrainEnds(h, h', tr, q.num);
  }

  ghost predicate ConsoleWrites(tr: seq<Handled>, reqs: seq<ConsoleRequest>, num: nat) {
    |tr| <= |reqs| && forall i :: 0 <= i < |tr| ==> ConsoleHandled(tr[i], reqs[i].g, 0, num)
  }

  lemma {:induction false} ConsoleWritesNext(tr: seq<Handled>, e: Handled, reqs: seq<ConsoleRequest>, num: nat)
    requires ConsoleWrites(tr, reqs, num) && |tr| < |reqs| && ConsoleHandled(e, reqs[|tr|].g, 0, num)
    ensures ConsoleWrites(tr + [e], reqs, num)
  {
    forall i | 0 <= i < |tr + [e]| ensures ConsoleHandled((tr + [e])[i], reqs[i].g, 0, num) {
      if i < |tr| { assert (tr + [e])[i] == tr[i]; }
    }
  }

  /** virtq_tx_handle_one_request of the console: a chain is completed with length 0 whatever
      the write returns. */
  method ConsoleHandleOne(q: VirtQueue, g: Guest, ghost h: History)
    returns (ok: bool, ghost h': History, ghost e: Handled)
    requires Tracks(q, h) && Wrap16(h.taken) != Wrap16(|h.posted|)
    modifies q`lastAvail, q`usedIdx, q`log, q.used
    ensures Tracks(q, h') && e.head == HeadOf(h, q.num)
    ensures ok <==> AllocReturn(g, e.head, q.num).Some?
    ensures ok ==> ConsoleHandled(e, g, 0, q.num)
    ensures h' == if ok then h.(taken := h.taken + e.adv, published := h.published + e.out) else h
  {
    var n, head;
    n, head, h' := ConsoleWalk(q, g, h);
    if n.None? { return false, h', Handled(head, 0, 0, []); }
    ok, e := true, Handled(head, n.value, 1, []);
    if n.value < 1 {
      assert h.published + [] == h.published;
      return;
    }
    h' := Publish(q, head, 0, h');
    e := e.(out := [Elem(head, 0)]);
  }

  lemma {:induction false} ConsoleFaultsFrom(reqs: seq<ConsoleRequest>, k: nat, n: nat, h: History, num: nat)
    requires |h.avail0| == num > 0 && k <= |reqs|
    ensures ConsoleFaults(reqs[k..], n, h, num) <==> ConsoleFaults(reqs, k + n, h, num)
  {
    assert k + n < |reqs| ==> reqs[k..][n] == reqs[k + n];
  }

  /** One turn of the inner loop of the console's transmit handler. */
  method ConsoleSend(q: VirtQueue, want: seq<u16>, reqs: seq<ConsoleRequest>, k: nat, ghost h: History,
                     ghost now: History,
                     ghost tr: seq<Handled>) returns (halt: Option<Halt>, ghost h': History, ghost tr': seq<Handled>)
    requires Tracks(q, now) && Draining(h, now, [], tr, q.num) && |tr| == k && ConsoleWrites(tr, reqs, q.num)
    modifies q`availIdx, q.avail, q`lastAvail, q`usedIdx, q`log, q.used
    ensures Tracks(q, h') && Draining(h, h', [], tr', q.num) && ConsoleWrites(tr', reqs, q.num)
    ensures |tr'| == if halt.None? then k + 1 else k
    ensures halt == Some(Drained) && want == [] ==> h' == now
    ensures halt.Some? ==> Halted(halt.value, h', k == |reqs|, ConsoleFaults(reqs, k, h', q.num))
  {
    var empty;
    empty, h' := Test(q, want, h, now, [], tr);
    tr' := tr;
    if empty { return Some(Drained), h', tr'; }
    if k == |reqs| { return Some(Given), h', tr'; }
    ghost var before := h';
    var ok;
    ghost var e;
    ok, h', e := ConsoleHandleOne(q, reqs[k].g, h');
    if !ok { return Some(Faulted), h', tr'; }
    DrainNextNow(h, before, tr, q.num, e);
    ConsoleWritesNext(tr, e, reqs, q.num);
    halt, tr' := None, tr + [e];
  }

  /** The inner loop. `t` counts its tests. */
  method ConsoleBatch(q: VirtQueue, adds: seq<seq<u16>>, reqs: seq<ConsoleRequest>, ghost h: History)
    returns (halt: Halt, k: nat, t: nat, ghost h': History, ghost tr: seq<Handled>)
    requires Tracks(q, h)
    modifies q`availIdx, q.avail, q`lastAvail, q`usedIdx, q`log, q.used
    ensures Tracks(q, h') && Draining(h, h', [], tr, q.num)
    ensures |tr| == k && t > 0 && ConsoleWrites(tr, reqs, q.num)
    ensures halt == Drained && k == 0 && adds == [] ==> Wrap16(h.taken) == Wrap16(|h.posted|)
    ensures Halted(halt, h', k == |reqs|, ConsoleFaults(reqs, k, h', q.num))
  {
    k, t, h', tr := 0, 0, h, [];
    DrainBegins(h, q.num);
    while true
      invariant |tr| == k <= |reqs|
      invariant Tracks(q, h') && Draining(h, h', [], tr, q.num) && ConsoleWrites(tr, reqs, q.num)
      invariant k == 0 ==> h' == h
      decreases |reqs| - k
    {
      var stop;
      stop, h', tr := ConsoleSend(q, AddsAt(adds, t), reqs, k, h, h', tr);
      t := t + 1;
      if stop.Some? { return stop.value, k, t, h', tr; }
      k := k + 1;
    }
  }

  lemma {:induction false} ConsoleWritesConcat(a: seq<Handled>, b: seq<Handled>, reqs: seq<ConsoleRequest>, num: nat)
    requires ConsoleWrites(a, reqs, num) && ConsoleWrites(b, reqs[|a|..], num)
    ensures ConsoleWrites(a + b, reqs, num)
  {
    forall i | 0 <= i < |a + b| ensures ConsoleHandled((a + b)[i], reqs[i].g, 0, num) {
      if i >= |a| { assert reqs[i] == reqs[|a|..][i - |a|]; }
    }
  }

  /** One pass of the outer loop. */
  method ConsoleMore(q: VirtQueue, adds: seq<seq<u16>>, reqs: seq<ConsoleRequest>, k: nat, ghost h: History,
                     ghost now: History, ghost tr: seq<Handled>)
    returns (halt: Halt, n: nat, t: nat, ghost h': History, ghost tr': seq<Handled>)
    requires Tracks(q, now) && Draining(h, now, [], tr, q.num) && ConsoleWrites(tr, reqs, q.num) && |tr| == k
    modifies q`availIdx, q.avail, q`lastAvail, q`usedIdx, q`log, q.used
    ensures Tracks(q, h') && Draining(h, h', [], tr', q.num) && ConsoleWrites(tr', reqs, q.num)
    ensures |tr'| == k + n && t > 0
    ensures halt == Drained && n == 0 && adds == [] ==> Wrap16(now.taken) == Wrap16(|now.posted|)
    ensures Halted(halt, h', |tr'| == |reqs|, ConsoleFaults(reqs, |tr'|, h', q.num))
  {
    ghost var more;
    halt, n, t, h', more := ConsoleBatch(q, adds, reqs[k..], now);
    DrainConcat(h, now, h', [], tr, more, q.num);
    ConsoleWritesConcat(tr, more, reqs, q.num);
    ConsoleFaultsFrom(reqs, k, n, h', q.num);
    tr' := tr + more;
  }

  /** virtio_console_txq_notify_handler: every entry is consumed; one without a chain is dropped. */
  method ConsoleTransmit(q: VirtQueue, adds: seq<seq<u16>>, reqs: seq<ConsoleRequest>, ghost h: History)
    returns (halt: Halt, ghost h': History, ghost tr: seq<Handled>)
    requires Tracks(q, h)
    modifies q`availIdx, q.avail, q`lastAvail, q`usedIdx, q`log, q.used
    ensures Tracks(q, h') && Served(h, h', tr, q.num) && ConsoleWrites(tr, reqs, q.num)
    ensures Halted(halt, h', |tr| == |reqs|, ConsoleFaults(reqs, |tr|, h', q.num))
    ensures halt == Drained && Sane(h, q.num) && NoEmpty(tr) ==> IdsOf(h'.published) == h'.posted
  {
    SizeBound(q.num);
    DrainBegins(h, q.num);
    tr := [];
    var empty;
    empty, h' := Test(q, AddsAt(adds, 0), h, h, [], []);
    var k, t := 0, 1;
    halt := Drained;
    while !empty
      invariant halt == Drained
      invariant 0 <= k <= |reqs| && |tr| == k
      invariant Tracks(q, h') && Draining(h, h', [], tr, q.num) && ConsoleWrites(tr, reqs, q.num)
      invariant empty <==> Wrap16(h'.taken) == Wrap16(|h'.posted|)
      decreases |reqs| - k, if t < |adds| then |adds| - t else 0
    {
      var n, tests;
      halt, n, tests, h', tr := ConsoleMore(q, if t < |adds| then adds[t..] else [], reqs, k, h, h', tr);
      k, t := k + n, t + tests;
      if halt != Drained { break; }
      empty, h' := Test(q, AddsAt(adds, t), h, h', [], tr);
      t := t + 1;
    }
    DrainEnds(h, h', tr, q.num);
  }

  /** The heads whose chain the allocating walker finds empty, turn by turn. */
  function ShortIn(gs: seq<Guest>): (nat, u16) -> bool {
    (i: nat, head: u16) => i < |gs| && ShortTable(gs[i])(head)
  }

  /** The console: likewise, for chains that are one such table. */
  lemma {:induction false} AllocatedExact(h: History, h': History, tr: seq<Handled>, gs: seq<Guest>, num: nat)
    requires Sane(h, num) && Served(h, h', tr, num) && |tr| <= |gs|
    requires forall i :: 0 <= i < |tr| ==> tr[i].ret >= 0 && AllocReturn(gs[i], tr[i].head, num) == Some(tr[i].ret)
    ensures InOrder(h') <==> forall i :: 0 <= i < |tr| ==> !DueEmpty(h, h'.posted, i, ShortIn(gs))
  {
    forall i | 0 <= i < |tr| ensures tr[i].ret == 0 <==> ShortIn(gs)(i, tr[i].head) {
      AllocEmptyExact(gs[i], tr[i].head, num);
    }
    OrderExact(h, h', tr, num, ShortIn(gs));
  }

  function Memories(reqs: seq<ConsoleRequest>): (r: seq<Guest>)
    ensures |r| == |reqs| && forall i :: 0 <= i < |reqs| ==> r[i] == reqs[i].g
  {
    seq(|reqs|, i requires 0 <= i < |reqs| => reqs[i].g)
  }

  /** Both console drains, reads and writes, stay in order exactly if no ring entry they come to is
      an indirect table shorter than one descriptor. */
  lemma {:induction false} ConsoleExact(h: History, h': History, tr: seq<Handled>, reqs: seq<ConsoleRequest>, num: nat)
    requires Sane(h, num) && Served(h, h', tr, num) && (ConsoleReads(tr, reqs, num) || ConsoleWrites(tr, reqs, num))
    ensures InOrder(h') <==> forall i :: 0 <= i < |tr| ==> !DueEmpty(h, h'.posted, i, ShortIn(Memories(reqs)))
  {
    var gs := Memories(reqs);
    forall i | 0 <= i < |tr| ensures tr[i].ret >= 0 && AllocReturn(gs[i], tr[i].head, num) == Some(tr[i].ret) {
      if ConsoleReads(tr, reqs, num) {
        assert ReadHandled(tr[i], reqs[i], num);
      } else {
        assert ConsoleHandled(tr[i], reqs[i].g, 0, num);
      }
    }
    AllocatedExact(h, h', tr, gs, num);
  }
}
