/** Completion accounting, the part all devices share: the test of a drain loop, taking an entry
    from the available ring, publishing it, and what makes a drain lose its place.

    A drain reads heads from the available ring until the indices meet. Before every test
    for emptiness the driver may add entries (`adds`, one list per test). `reqs` gives, for
    each request in turn, the guest memory its chain lies in and the results of its I/O; a
    drain is followed for as many requests as that, or up to a chain the walker faults on. */
module Drains {
  import opened Runs
  import opened Words
  import opened VirtQueues
  import opened Walkers
  import opened Ledger

  /** Bytes in a list of buffers. */
  function Room(iov: seq<Iov>): nat {
    if iov == [] then 0 else Room(iov[..|iov| - 1]) + iov[|iov| - 1].len
  }

  function AddsAt(adds: seq<seq<u16>>, t: nat): seq<u16> { if t < |adds| then adds[t] else [] }

  // ------------------------------------------------------------------ what all devices share

  /** The test of a drain loop: the driver runs, then the indices are compared. */
  method Test(q: VirtQueue, want: seq<u16>, ghost h0: History, ghost h: History, ghost batch: seq<Elem>,
              ghost tr: seq<Handled>) returns (empty: bool, ghost h': History)
    requires Tracks(q, h) && Draining(h0, h, batch, tr, q.num)
    modifies q`availIdx, q.avail
    ensures Tracks(q, h') && Draining(h0, h', batch, tr, q.num)
    ensures h' == Grown(h, want, q.num) && (want == [] ==> h' == h)
    ensures empty <==> Wrap16(h'.taken) == Wrap16(|h'.posted|)
  {
    SizeBound(q.num);
    if Outstanding(h, q.num) { GrownKeeps(h, want, q.num); }
    assert h.posted + [] == h.posted;
    h' := Driver(q, want, h);
    DrainDriver(h0, h, batch, tr, q.num, h');
    empty := q.lastAvail == q.availIdx;
  }

  /** The two arrays hold the split of the chain and keep their bounds. */
  predicate Halves(bufs: seq<Buf>, ret: int, outs: seq<Iov>, ins: seq<Iov>, maxOut: nat, maxIn: nat) {
    outs == Outs(bufs) && ins == Ins(bufs) && |outs| <= maxOut && |ins| <= maxIn && |outs| + |ins| == ret
  }

  /** How a drain loop ended: it found the queue empty, it stopped of itself, the requests given
      were used up, the walker faulted, or the batch arrays were full. */
  datatype Halt = Drained | Stopped | Given | Faulted | Overrun

  /** A loop that neither stops of itself nor fills arrays ended for the reason it gives. */
  predicate Halted(halt: Halt, h: History, given: bool, faulted: bool) {
    match halt
    case Drained => Wrap16(h.taken) == Wrap16(|h.posted|)
    case Given => given
    case Faulted => faulted
    case Stopped => false
    case Overrun => false
  }

  /** Walk a chain into two arrays of the given sizes. */
  method Walk(q: VirtQueue, g: Guest, head: u16, maxOut: nat, maxIn: nat)
    returns (ret: Option<int>, outs: seq<Iov>, ins: seq<Iov>)
    requires q.Valid()
    modifies q`lastAvail
    ensures ret == WalkReturn(Chain(g, head, q.num), maxOut, maxIn)
    ensures q.lastAvail == match ret case None => old(q.lastAvail) case Some(n) => AfterWalk(old(q.lastAvail), n)
    ensures ret.Some? && ret.value >= 0 ==> Halves(Chain(g, head, q.num).bufs, ret.value, outs, ins, maxOut, maxIn)
  {
    var out := new Iov[maxOut](_ => Iov(0, 0));
    var inn := new Iov[maxIn](_ => Iov(0, 0));
    var cfg := new BufConfig(out, maxOut, inn, maxIn);
    ret := ProcessDescriptorChainBuf(q, g, head, cfg);
    outs, ins := [], [];
    if ret.Some? && ret.value >= 0 {
      SplitCounts(Chain(g, head, q.num).bufs);
      outs, ins := cfg.outs[..cfg.outCount], cfg.ins[..cfg.inCount];
    }
  }

  /** How far one request moves the index: the walker and its caller both count a chain that
      flattens to nothing. */
  function Advance(ret: int): nat { if ret == 0 then 2 else 1 }

  lemma {:induction false} AdvanceTaken(taken: nat, ret: int)
    ensures var last := AfterWalk(Wrap16(taken), ret);
            Wrap16(taken + Advance(ret)) == if ret <= 0 then Wrap16(last + 1) else last
  {
    WrapNext(taken);
    WrapNext(taken + 1);
  }

  /** Step over a chain the walker refuses or finds empty; the others it has stepped over. */
  method StepOver(q: VirtQueue, ret: int, ghost h: History) returns (ghost h': History)
    requires Rings(q, h) && q.lastAvail == AfterWalk(Wrap16(h.taken), ret)
    modifies q`lastAvail
    ensures Tracks(q, h') && h' == h.(taken := h.taken + Advance(ret))
  {
    AdvanceTaken(h.taken, ret);
    if ret <= 0 { q.lastAvail := Wrap16(q.lastAvail + 1); }
    h' := h.(taken := h.taken + Advance(ret));
  }

  /** What blk, net and scmi do first: read the head, walk its chain, and step over a chain the
      walker refuses or finds empty. */
  method TakeChain(q: VirtQueue, g: Guest, maxOut: nat, maxIn: nat, ghost h: History)
    returns (ret: Option<int>, head: u16, outs: seq<Iov>, ins: seq<Iov>, ghost h': History)
    requires Tracks(q, h)
    modifies q`lastAvail
    ensures head == HeadOf(h, q.num) && ret == WalkReturn(Chain(g, head, q.num), maxOut, maxIn)
    ensures h' == if ret.Some? then h.(taken := h.taken + Advance(ret.value)) else h
    ensures Tracks(q, h')
    ensures ret.Some? && ret.value >= 0 ==> Halves(Chain(g, head, q.num).bufs, ret.value, outs, ins, maxOut, maxIn)
  {
    head := q.avail[Slot(q.lastAvail, q.num)];
    ret, outs, ins := Walk(q, g, head, maxOut, maxIn);
    h' := h;
    if ret.Some? { h' := StepOver(q, ret.value, h); }
  }

  /** update_used_ring on a tracked queue. */
  method Publish(q: VirtQueue, head: u16, len: nat, ghost h: History) returns (ghost h': History)
    requires Tracks(q, h)
    modifies q`usedIdx, q`log, q.used
    ensures h' == h.(published := h.published + [Elem(head, len)]) && Tracks(q, h')
  {
    PutAllOne(Used(h.used0, 0), q.num, h.published, Elem(head, len));
    q.UpdateUsedRing(head, len);
    h' := h.(published := h.published + [Elem(head, len)]);
  }

  function OutsOf(g: Guest, head: u16, num: nat, ret: int): seq<Iov> {
    if ret > 0 then Outs(Chain(g, head, num).bufs) else []
  }

  function InsOf(g: Guest, head: u16, num: nat, ret: int): seq<Iov> {
    if ret > 0 then Ins(Chain(g, head, num).bufs) else []
  }

  lemma {:induction false} StepBack(taken: nat)
    ensures Wrap16(Wrap16(taken + 1) - 1) == Wrap16(taken)
  {
    WrapAdd(taken + 1, -1);
  }

  /** Step back over the entry just consumed. */
  method GiveBack(q: VirtQueue, ghost h: History)
    requires Tracks(q, h.(taken := h.taken + 1))
    modifies q`lastAvail
    ensures Tracks(q, h)
  {
    StepBack(h.taken);
    q.lastAvail := Wrap16(q.lastAvail - 1);
  }

  // ------------------------------------------------------------------ what breaks the order

  /** A chain in which the buffer-based walker finds no buffer. */
  ghost predicate ShortChain(g: Guest, head: u16, num: nat) {
    Along(g.ring, head, PathLen(g.ring, head, num), ShortTable(g))
  }

  lemma {:induction false} ZeroExact(g: Guest, head: u16, num: nat, maxOut: nat, maxIn: nat)
    ensures WalkReturn(Chain(g, head, num), maxOut, maxIn) == Some(0) <==> ShortChain(g, head, num)
  {
    EmptyExact(g, head, num);
    var f := Chain(g, head, num);
    assert [] + f.bufs == f.bufs;
    if f.end == Done && |f.bufs| == 0 { assert f == Flat([], Done); }
  }

  /** The guest memories of a drain, and what the walker returned in each. */
  ghost predicate Walked(tr: seq<Handled>, gs: seq<Guest>, num: nat, maxOut: nat, maxIn: nat) {
    |tr| <= |gs| && forall i :: 0 <= i < |tr| ==>
        WalkReturn(Chain(gs[i], tr[i].head, num), maxOut, maxIn) == Some(tr[i].ret)
  }

  /** The heads whose chain the buffer-based walker finds empty, turn by turn. */
  ghost function EmptyIn(gs: seq<Guest>, num: nat): (nat, u16) -> bool {
    (i: nat, head: u16) => i < |gs| && ShortChain(gs[i], head, num)
  }

  /** Blk, net and scmi: whatever the requests and the I/O results, every entry consumed is
      completed once, in order and under its id if and only if no ring entry the drain comes to
      has a chain made only of indirect tables shorter than one descriptor. */
  lemma {:induction false} CompletionExact(h: History, h': History, tr: seq<Handled>, gs: seq<Guest>, num: nat,
                                           maxOut: nat, maxIn: nat)
    requires Sane(h, num) && Served(h, h', tr, num) && Walked(tr, gs, num, maxOut, maxIn)
    ensures InOrder(h') <==> forall i :: 0 <= i < |tr| ==> !DueEmpty(h, h'.posted, i, EmptyIn(gs, num))
  {
    forall i | 0 <= i < |tr| ensures tr[i].ret == 0 <==> EmptyIn(gs, num)(i, tr[i].head) {
      ZeroExact(gs[i], tr[i].head, num, maxOut, maxIn);
    }
    OrderExact(h, h', tr, num, EmptyIn(gs, num));
  }
}
