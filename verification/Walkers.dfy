/** The two descriptor-chain walkers of tools/virtio/virtio.c: push_descriptor and
    process_descriptor_chain_buf (caller-provided arrays), and process_descriptor_chain
    (allocating). Section 2.7.5 of VirtIO 1.2 describes the chains.

    Guest memory is fixed during one walk and is given by functions, so that every
    descriptor table, malformed and cyclic ones included, is an input. */
module Walkers {
  import opened Runs
  import opened Words
  import opened VirtQueues

  const DESC_SIZE: nat := 16

  datatype Flags = Flags(next: bool, write: bool, indirect: bool)

  datatype Desc = Desc(addr: nat, len: nat, flags: Flags, next: u16)

  datatype Iov = Iov(base: nat, len: nat)

  /** A buffer of a chain, with the flags of its descriptor. */
  datatype Buf = Buf(iov: Iov, flags: Flags)

  /** `ring(i)` is entry `i` of the queue's table, `table(h, i)` entry `i` of the indirect
      table at host address `h`, and `translate` is get_virt_addr (None for NULL). */
  datatype Guest = Guest(ring: u16 -> Desc, table: (nat, u16) -> Desc, translate: nat -> Option<nat>)

  // ------------------------------------------------------------------ bounded flattening

  /** How a walk ends; Fault is the read of an indirect table at a NULL address. */
  datatype End = Done | Bad | Fault

  datatype Flat = Flat(bufs: seq<Buf>, end: End)

  function BufOf(host: nat, d: Desc): Buf { Buf(Iov(host, d.len), d.flags) }

  /** At most `left` entries of an indirect table of `count`, from entry `i`. */
  function Indirect(g: Guest, host: nat, count: nat, i: u16, left: nat): Flat
    decreases left
  {
    if left == 0 then Flat([], Done)
    else if i >= count then Flat([], Bad)
    else
      var d := g.table(host, i);
      match g.translate(d.addr)
      case None => Flat([], Bad)
      case Some(a) =>
        var rest := if d.flags.next then Indirect(g, host, count, d.next, left - 1) else Flat([], Done);
        Flat([BufOf(a, d)] + rest.bufs, rest.end)
  }

  /** The buffers behind one entry of the queue's table. */
  function One(g: Guest, d: Desc): Flat {
    match g.translate(d.addr)
    case None => Flat([], if !d.flags.indirect then Bad else if d.len / DESC_SIZE == 0 then Done else Fault)
    case Some(a) =>
      if d.flags.indirect then Indirect(g, a, d.len / DESC_SIZE, 0, d.len / DESC_SIZE)
      else Flat([BufOf(a, d)], Done)
  }

  /** At most `left` entries of the queue's table, from entry `i`. */
  function Chain(g: Guest, i: u16, left: nat): Flat
    decreases left
  {
    if left == 0 then Flat([], Done)
    else
      var d := g.ring(i);
      var f := One(g, d);
      if f.end != Done || !d.flags.next then f
      else
        var rest := Chain(g, d.next, left - 1);
        Flat(f.bufs + rest.bufs, rest.end)
  }

  function Outs(bufs: seq<Buf>): seq<Iov> {
    if bufs == [] then []
    else Outs(bufs[..|bufs| - 1]) + if bufs[|bufs| - 1].flags.write then [] else [bufs[|bufs| - 1].iov]
  }

  function Ins(bufs: seq<Buf>): seq<Iov> {
    if bufs == [] then []
    else Ins(bufs[..|bufs| - 1]) + if bufs[|bufs| - 1].flags.write then [bufs[|bufs| - 1].iov] else []
  }

  predicate Fits(bufs: seq<Buf>, maxOut: nat, maxIn: nat) {
    |Outs(bufs)| <= maxOut && |Ins(bufs)| <= maxIn
  }

  lemma {:induction false} SplitNext(bufs: seq<Buf>, b: Buf)
    ensures Outs(bufs + [b]) == Outs(bufs) + if b.flags.write then [] else [b.iov]
    ensures Ins(bufs + [b]) == Ins(bufs) + if b.flags.write then [b.iov] else []
  {
    assert (bufs + [b])[..|bufs|] == bufs;
  }

  /** The split loses and invents nothing. */
  lemma {:induction false} SplitCounts(bufs: seq<Buf>)
    ensures |Outs(bufs)| + |Ins(bufs)| == |bufs|
    decreases bufs
  {
    if bufs != [] { SplitCounts(bufs[..|bufs| - 1]); }
  }

  lemma {:induction false} FitsPrefix(a: seq<Buf>, b: seq<Buf>, maxOut: nat, maxIn: nat)
    requires Fits(a + b, maxOut, maxIn)
    ensures Fits(a, maxOut, maxIn)
    decreases b
  {
    if b == [] {
      assert a + b == a;
    } else {
      var n := |b| - 1;
      SplitNext(a + b[..n], b[n]);
      assert a + b == a + b[..n] + [b[n]];
      FitsPrefix(a, b[..n], maxOut, maxIn);
    }
  }

  // ------------------------------------------------------------------ meaning of the flattening

  /** The `k`th entry that following NEXT from entry `i` of a table leads to. */
  function Visit(at: u16 -> Desc, i: u16, k: nat): u16
    decreases k
  {
    if k == 0 then i else Visit(at, at(i).next, k - 1)
  }

  /** The number of entries visited: up to and including the first without NEXT, at most `left`. */
  function PathLen(at: u16 -> Desc, i: u16, left: nat): nat
    decreases left
  {
    if left == 0 then 0 else if at(i).flags.next then 1 + PathLen(at, at(i).next, left - 1) else 1
  }

  /** Where the path ends: an entry without NEXT, or after `left` entries, all with NEXT. */
  lemma {:induction false} PathEnds(at: u16 -> Desc, i: u16, left: nat)
    ensures var n := PathLen(at, i, left);
            && n <= left && (left > 0 ==> n > 0)
            && (forall k :: 0 <= k < n - 1 ==> at(Visit(at, i, k)).flags.next)
            && (0 < n < left ==> !at(Visit(at, i, n - 1)).flags.next)
    decreases left
  {
    if left > 0 && at(i).flags.next {
      var next := at(i).next;
      PathEnds(at, next, left - 1);
      var n := PathLen(at, i, left);
      forall k | 0 <= k < n - 1 ensures at(Visit(at, i, k)).flags.next {
        if k > 0 { assert Visit(at, i, k) == Visit(at, next, k - 1); }
      }
      if 0 < n < left { assert Visit(at, i, n - 1) == Visit(at, next, n - 2); }
    }
  }

  /** `p` holds of the first `n` entries visited. */
  ghost predicate Along(at: u16 -> Desc, i: u16, n: nat, p: u16 -> bool) {
    forall k: nat :: k < n ==> p(Visit(at, i, k))
  }

  lemma {:induction false} AlongShift(at: u16 -> Desc, i: u16, n: nat, p: u16 -> bool)
    requires n > 0
    ensures Along(at, i, n, p) <==> p(i) && Along(at, at(i).next, n - 1, p)
  {
    var next := at(i).next;
    assert Visit(at, i, 0) == i;
    if Along(at, i, n, p) {
      forall k: nat | k < n - 1 ensures p(Visit(at, next, k)) {
        assert Visit(at, i, k + 1) == Visit(at, next, k);
      }
    }
    if p(i) && Along(at, next, n - 1, p) {
      forall k: nat | k < n ensures p(Visit(at, i, k)) {
        if k > 0 { assert Visit(at, i, k) == Visit(at, next, k - 1); }
      }
    }
  }

  function Table(g: Guest, host: nat): u16 -> Desc { (k: u16) => g.table(host, k) }

  /** The descriptors of a path. */
  function Path(at: u16 -> Desc, i: u16, n: nat): seq<Desc> {
    seq(n, k requires 0 <= k < n => at(Visit(at, i, k)))
  }

  lemma {:induction false} PathShift(at: u16 -> Desc, i: u16, n: nat)
    requires n > 0
    ensures Path(at, i, n) == [at(i)] + Path(at, at(i).next, n - 1)
  {
    var shifted := [at(i)] + Path(at, at(i).next, n - 1);
    forall k | 0 <= k < n ensures Path(at, i, n)[k] == shifted[k] {
      if k == 0 {
        assert Visit(at, i, 0) == i;
      } else {
        assert Visit(at, i, k) == Visit(at, at(i).next, k - 1);
        assert shifted[k] == Path(at, at(i).next, n - 1)[k - 1];
      }
    }
  }

  /** The data descriptors behind one entry of the queue's table: itself, or the path through
      its indirect table from entry 0. */
  function Data(g: Guest, d: Desc): seq<Desc> {
    if !d.flags.indirect then [d]
    else match g.translate(d.addr)
      case None => []
      case Some(host) => Path(Table(g, host), 0, PathLen(Table(g, host), 0, d.len / DESC_SIZE))
  }

  /** The data descriptors behind the first `n` entries visited, in order. */
  function DataAlong(g: Guest, head: u16, n: nat): seq<Desc> {
    if n == 0 then [] else DataAlong(g, head, n - 1) + Data(g, g.ring(Visit(g.ring, head, n - 1)))
  }

  /** The data descriptors of a whole chain. */
  function Visited(g: Guest, head: u16, num: nat): seq<Desc> {
    DataAlong(g, head, PathLen(g.ring, head, num))
  }

  lemma {:induction false} DataShift(g: Guest, head: u16, n: nat)
    ensures DataAlong(g, head, n + 1) == Data(g, g.ring(head)) + DataAlong(g, g.ring(head).next, n)
    decreases n
  {
    if n == 0 {
      assert DataAlong(g, head, 0) == [];
    } else {
      DataShift(g, head, n - 1);
      var a, b := Data(g, g.ring(head)), DataAlong(g, g.ring(head).next, n - 1);
      var c := Data(g, g.ring(Visit(g.ring, head, n)));
      assert (a + b) + c == a + (b + c);
    }
  }

  /** Entries of an indirect table that lie inside it and have an address. */
  function Listed(g: Guest, host: nat, count: nat): u16 -> bool {
    (k: u16) => k < count && g.translate(g.table(host, k).addr).Some?
  }

  /** Entries of the queue's table that the walk gets over: a direct one with an address, and an
      indirect one whose table is too short for any entry, or all of whose entries on the path
      lie inside it and have an address. */
  ghost function Good(g: Guest): u16 -> bool {
    (i: u16) =>
      var d := g.ring(i);
      var count := d.len / DESC_SIZE;
      if !d.flags.indirect then g.translate(d.addr).Some?
      else if g.translate(d.addr).None? then count == 0
      else
        var host := g.translate(d.addr).value;
        Along(Table(g, host), 0, PathLen(Table(g, host), 0, count), Listed(g, host, count))
  }

  ghost predicate AllGood(g: Guest, head: u16, num: nat) {
    Along(g.ring, head, PathLen(g.ring, head, num), Good(g))
  }

  /** Indirect tables with entries at a NULL address. */
  function NullTable(g: Guest): u16 -> bool {
    (i: u16) => g.ring(i).flags.indirect && g.translate(g.ring(i).addr).None? && g.ring(i).len >= DESC_SIZE
  }

  function HostOf(g: Guest, addr: nat): nat {
    match g.translate(addr) case None => 0 case Some(a) => a
  }

  /** The buffers are those of the first descriptors, one by one. */
  predicate Mirrors(g: Guest, bufs: seq<Buf>, ds: seq<Desc>) {
    && |bufs| <= |ds|
    && forall k :: 0 <= k < |bufs| ==>
         bufs[k].iov == Iov(HostOf(g, ds[k].addr), ds[k].len) && bufs[k].flags == ds[k].flags
  }

  lemma {:induction false} MirrorsConcat(g: Guest, a: seq<Buf>, b: seq<Buf>, c: seq<Desc>, d: seq<Desc>)
    requires Mirrors(g, a, c) && |a| == |c| && Mirrors(g, b, d)
    ensures Mirrors(g, a + b, c + d)
  {}

  lemma {:induction false} MirrorsPrefix(g: Guest, a: seq<Buf>, c: seq<Desc>, d: seq<Desc>)
    requires Mirrors(g, a, c)
    ensures Mirrors(g, a, c + d)
  {}

  /** A flattening against the descriptors it stands for. */
  ghost predicate OnPath(g: Guest, f: Flat, ds: seq<Desc>, good: bool) {
    Mirrors(g, f.bufs, ds) && (f.end == Done <==> good) && (good ==> |f.bufs| == |ds|)
  }

  lemma {:induction false} IndirectIsPath(g: Guest, host: nat, count: nat, i: u16, left: nat)
    ensures var at, n := Table(g, host), PathLen(Table(g, host), i, left);
            OnPath(g, Indirect(g, host, count, i, left), Path(at, i, n), Along(at, i, n, Listed(g, host, count)))
    ensures Indirect(g, host, count, i, left).end != Fault
    decreases left
  {
    var at, n := Table(g, host), PathLen(Table(g, host), i, left);
    if left > 0 {
      var d := at(i);
      PathShift(at, i, n);
      AlongShift(at, i, n, Listed(g, host, count));
      if d.flags.next {
        IndirectIsPath(g, host, count, d.next, left - 1);
        if Listed(g, host, count)(i) {
          MirrorsConcat(g, Indirect(g, host, count, i, left).bufs[..1], Indirect(g, host, count, d.next, left - 1).bufs,
                        [d], Path(at, d.next, n - 1));
        }
      } else {
        assert Path(at, d.next, 0) == [];
      }
    }
  }

  lemma {:induction false} OneIsData(g: Guest, i: u16)
    ensures OnPath(g, One(g, g.ring(i)), Data(g, g.ring(i)), Good(g)(i))
    ensures One(g, g.ring(i)).end == Fault <==> NullTable(g)(i)
    ensures NullTable(g)(i) ==> One(g, g.ring(i)).bufs == []
  {
    var d := g.ring(i);
    var count := d.len / DESC_SIZE;
    assert count == 0 <==> d.len < DESC_SIZE;
    if d.flags.indirect && g.translate(d.addr).Some? {
      IndirectIsPath(g, g.translate(d.addr).value, count, 0, count);
    }
  }

  lemma {:induction false} OnPathNext(g: Guest, f: Flat, rest: Flat, c: seq<Desc>, d: seq<Desc>, good: bool,
                                      more: bool)
    requires OnPath(g, f, c, good) && OnPath(g, rest, d, more)
    ensures OnPath(g, if f.end != Done then f else Flat(f.bufs + rest.bufs, rest.end), c + d, good && more)
  {
    if f.end == Done { MirrorsConcat(g, f.bufs, rest.bufs, c, d); } else { MirrorsPrefix(g, f.bufs, c, d); }
  }

  lemma {:induction false} VisitedShift(g: Guest, head: u16, num: nat)
    requires num > 0
    ensures var d := g.ring(head);
            && Visited(g, head, num) == Data(g, d) + (if d.flags.next then Visited(g, d.next, num - 1) else [])
            && (AllGood(g, head, num) <==> Good(g)(head) && (d.flags.next ==> AllGood(g, d.next, num - 1)))
  {
    var n := PathLen(g.ring, head, num);
    DataShift(g, head, n - 1);
    AlongShift(g.ring, head, n, Good(g));
    if !g.ring(head).flags.next { assert DataAlong(g, g.ring(head).next, 0) == []; }
  }

  /** A walk succeeds exactly when every entry visited is good, and then yields the buffers of
      the data descriptors visited, in order and nothing else, each with the address, the length
      and the flags of its descriptor; otherwise it yields the buffers of the first of them. */
  lemma {:induction false} ChainIsPath(g: Guest, head: u16, num: nat)
    ensures OnPath(g, Chain(g, head, num), Visited(g, head, num), AllGood(g, head, num))
    decreases num
  {
    if num > 0 {
      var d := g.ring(head);
      OneIsData(g, head);
      VisitedShift(g, head, num);
      if d.flags.next {
        ChainIsPath(g, d.next, num - 1);
        OnPathNext(g, One(g, d), Chain(g, d.next, num - 1), Data(g, d), Visited(g, d.next, num - 1), Good(g)(head),
                   AllGood(g, d.next, num - 1));
      } else {
        assert Data(g, d) + [] == Data(g, d);
      }
    }
  }

  /** Entry `k` of the chain is the first that is not good, and is an indirect table at NULL. */
  ghost predicate NullAt(g: Guest, head: u16, num: nat, k: nat) {
    k < PathLen(g.ring, head, num) && NullTable(g)(Visit(g.ring, head, k)) && Along(g.ring, head, k, Good(g))
  }

  lemma {:induction false} NullShift(g: Guest, head: u16, num: nat, k: nat)
    requires num > 0 && k > 0
    ensures NullAt(g, head, num, k) <==>
              g.ring(head).flags.next && Good(g)(head) && NullAt(g, g.ring(head).next, num - 1, k - 1)
  {
    AlongShift(g.ring, head, k, Good(g));
  }

  lemma {:induction false} FaultFrom(g: Guest, head: u16, num: nat, k: nat)
    requires NullAt(g, head, num, k)
    ensures Chain(g, head, num).end == Fault && |Chain(g, head, num).bufs| == |DataAlong(g, head, k)|
    decreases num
  {
    OneIsData(g, head);
    if k > 0 {
      NullShift(g, head, num, k);
      FaultFrom(g, g.ring(head).next, num - 1, k - 1);
      DataShift(g, head, k - 1);
    }
  }

  lemma {:induction false} FaultTo(g: Guest, head: u16, num: nat) returns (k: nat)
    requires Chain(g, head, num).end == Fault
    ensures NullAt(g, head, num, k)
    decreases num
  {
    OneIsData(g, head);
    if One(g, g.ring(head)).end == Fault {
      k := 0;
    } else {
      var rest := FaultTo(g, g.ring(head).next, num - 1);
      k := rest + 1;
      NullShift(g, head, num, k);
    }
  }

  /** A chain that never ends, cyclic ones among them, is accepted and cut after `num` entries. */
  lemma {:induction false} EndlessIsCut(g: Guest, head: u16, num: nat)
    requires forall k: nat :: g.ring(Visit(g.ring, head, k)).flags.next && Good(g)(Visit(g.ring, head, k))
    ensures PathLen(g.ring, head, num) == num && Chain(g, head, num).end == Done
    ensures Mirrors(g, Chain(g, head, num).bufs, DataAlong(g, head, num))
    ensures |Chain(g, head, num).bufs| == |DataAlong(g, head, num)|
  {
    PathEnds(g.ring, head, num);
    ChainIsPath(g, head, num);
  }

  /** The readable, or the writable, ones of the descriptors, as the device sees them. */
  function Part(g: Guest, ds: seq<Desc>, write: bool): seq<Iov> {
    if ds == [] then []
    else
      var d := ds[|ds| - 1];
      Part(g, ds[..|ds| - 1], write) + if d.flags.write == write then [Iov(HostOf(g, d.addr), d.len)] else []
  }

  lemma {:induction false} SplitMirrors(g: Guest, bufs: seq<Buf>, ds: seq<Desc>)
    requires Mirrors(g, bufs, ds) && |bufs| == |ds|
    ensures Outs(bufs) == Part(g, ds, false) && Ins(bufs) == Part(g, ds, true)
    decreases bufs
  {
    if bufs != [] { SplitMirrors(g, bufs[..|bufs| - 1], ds[..|ds| - 1]); }
  }

  predicate PartsFit(g: Guest, ds: seq<Desc>, maxOut: nat, maxIn: nat) {
    |Part(g, ds, false)| <= maxOut && |Part(g, ds, true)| <= maxIn
  }

  /** Indirect tables shorter than one descriptor. */
  function ShortTable(g: Guest): u16 -> bool {
    (i: u16) => g.ring(i).flags.indirect && g.ring(i).len < DESC_SIZE
  }

  lemma {:induction false} OneEmptyExact(g: Guest, i: u16)
    ensures One(g, g.ring(i)) == Flat([], Done) <==> ShortTable(g)(i)
  {
    assert g.ring(i).len / DESC_SIZE == 0 <==> g.ring(i).len < DESC_SIZE;
  }

  /** A chain is accepted as empty exactly when every entry visited is a short indirect table. */
  lemma {:induction false} EmptyExact(g: Guest, head: u16, num: nat)
    ensures Chain(g, head, num) == Flat([], Done) <==> Along(g.ring, head, PathLen(g.ring, head, num), ShortTable(g))
    decreases num
  {
    if num > 0 {
      OneEmptyExact(g, head);
      AlongShift(g.ring, head, PathLen(g.ring, head, num), ShortTable(g));
      if g.ring(head).flags.next {
        EmptyExact(g, g.ring(head).next, num - 1);
        assert |Chain(g, head, num).bufs| == 0 <==> Chain(g, head, num).bufs == [];
      }
    }
  }

  // ------------------------------------------------------------------ caller-provided arrays

  /** VirtioBufConfig with the two running counts. */
  class BufConfig {
    const outs: array<Iov>
    const ins: array<Iov>
    const maxOut: nat
    const maxIn: nat
    var outCount: nat
    var inCount: nat

    ghost predicate Valid() {
      outs != ins && maxOut <= outs.Length && maxIn <= ins.Length
    }

    /** The arrays hold exactly the split of `bufs`. */
    ghost predicate Holds(bufs: seq<Buf>)
      reads this, outs, ins
    {
      && Valid() && outCount <= maxOut && inCount <= maxIn
      && outs[..outCount] == Outs(bufs) && ins[..inCount] == Ins(bufs)
    }

    /** What lies beyond the bounds. */
    ghost function Beyond(): (seq<Iov>, seq<Iov>)
      requires Valid()
      reads outs, ins
    {
      (outs[maxOut..], ins[maxIn..])
    }

    constructor (outs: array<Iov>, maxOut: nat, ins: array<Iov>, maxIn: nat)
      requires outs != ins && maxOut <= outs.Length && maxIn <= ins.Length
      ensures this.outs == outs && this.ins == ins && this.maxOut == maxOut && this.maxIn == maxIn
      ensures Holds([])
    {
      this.outs, this.ins, this.maxOut, this.maxIn := outs, ins, maxOut, maxIn;
      outCount, inCount := 0, 0;
    }

    /** push_descriptor. */
    method Push(b: Buf, ghost bufs: seq<Buf>) returns (ok: bool)
      requires Holds(bufs)
      modifies this`outCount, this`inCount, outs, ins
      ensures ok <==> Fits(bufs + [b], maxOut, maxIn)
      ensures Holds(if ok then bufs + [b] else bufs)
      ensures Beyond() == old(Beyond())
    {
      SplitNext(bufs, b);
      if b.flags.write {
        ok := inCount < maxIn;
        if ok {
          ins[inCount] := b.iov;
          inCount := inCount + 1;
        }
      } else {
        ok := outCount < maxOut;
        if ok {
          outs[outCount] := b.iov;
          outCount := outCount + 1;
        }
      }
    }
  }

  /** How a bounded walk over `f` ends once the buffers before it are `done`: the array bound
      is met before anything later in the chain. */
  function Result(done: seq<Buf>, f: Flat, maxOut: nat, maxIn: nat): End {
    if Fits(done + f.bufs, maxOut, maxIn) then f.end else Bad
  }

  /** `rest` is what is left of `f` after the buffers up to `seen` have been stored. */
  ghost predicate Pending(done: seq<Buf>, f: Flat, seen: seq<Buf>, rest: Flat) {
    done + f.bufs == seen + rest.bufs && f.end == rest.end
  }

  lemma {:induction false} PendingNext(done: seq<Buf>, f: Flat, seen: seq<Buf>, b: Buf, rest: Flat, maxOut: nat,
                                       maxIn: nat)
    requires Pending(done, f, seen, Flat([b] + rest.bufs, rest.end))
    ensures Pending(done, f, seen + [b], rest)
    ensures !Fits(seen + [b], maxOut, maxIn) ==> Result(done, f, maxOut, maxIn) == Bad
  {
    assert seen + ([b] + rest.bufs) == (seen + [b]) + rest.bufs;
    if Fits((seen + [b]) + rest.bufs, maxOut, maxIn) { FitsPrefix(seen + [b], rest.bufs, maxOut, maxIn); }
  }

  /** The inner loop of process_descriptor_chain_buf. */
  method WalkIndirect(g: Guest, host: nat, count: nat, cfg: BufConfig, ghost done: seq<Buf>) returns (end: End)
    requires cfg.Holds(done)
    modifies cfg`outCount, cfg`inCount, cfg.outs, cfg.ins
    ensures end == Result(done, Indirect(g, host, count, 0, count), cfg.maxOut, cfg.maxIn)
    ensures end == Done ==> cfg.Holds(done + Indirect(g, host, count, 0, count).bufs)
    ensures cfg.Beyond() == old(cfg.Beyond())
  {
    ghost var f := Indirect(g, host, count, 0, count);
    ghost var seen, rest := done, f;
    var next: u16 := 0;
    var j := 0;
    while j < count
      invariant 0 <= j <= count && cfg.Holds(seen) && cfg.Beyond() == old(cfg.Beyond())
      invariant rest == Indirect(g, host, count, next, count - j)
      invariant Pending(done, f, seen, rest)
    {
      if next >= count { return Bad; }
      var d := g.table(host, next);
      var address := g.translate(d.addr);
      if address.None? { return Bad; }
      var b := BufOf(address.value, d);
      rest := if d.flags.next then Indirect(g, host, count, d.next, count - j - 1) else Flat([], Done);
      PendingNext(done, f, seen, b, rest, cfg.maxOut, cfg.maxIn);
      var ok := cfg.Push(b, seen);
      if !ok { return Bad; }
      seen := seen + [b];
      if !d.flags.next { break; }
      next := d.next;
      j := j + 1;
    }
    assert rest == Flat([], Done) && seen + rest.bufs == seen;
    end := Done;
  }

  /** One entry of the queue's table: a direct buffer or an indirect table. */
  method WalkOne(g: Guest, d: Desc, cfg: BufConfig, ghost done: seq<Buf>) returns (end: End)
    requires cfg.Holds(done)
    modifies cfg`outCount, cfg`inCount, cfg.outs, cfg.ins
    ensures end == Result(done, One(g, d), cfg.maxOut, cfg.maxIn)
    ensures end == Done ==> cfg.Holds(done + One(g, d).bufs)
    ensures cfg.Beyond() == old(cfg.Beyond())
  {
    var address := g.translate(d.addr);
    if d.flags.indirect {
      var count := d.len / DESC_SIZE;
      if address.Some? {
        end := WalkIndirect(g, address.value, count, cfg, done);
      } else {
        assert done + [] == done;
        end := if count == 0 then Done else Fault;
      }
    } else if address.None? {
      end := Bad;
    } else {
      var ok := cfg.Push(BufOf(address.value, d), done);
      end := if ok then Done else Bad;
    }
  }

  lemma {:induction false} PendingBlock(f: Flat, seen: seq<Buf>, block: seq<Buf>, rest: Flat, maxOut: nat, maxIn: nat)
    requires Pending([], f, seen, Flat(block + rest.bufs, rest.end))
    ensures Pending([], f, seen + block, rest)
    ensures !Fits(seen + block, maxOut, maxIn) ==> Result([], f, maxOut, maxIn) == Bad
  {
    assert seen + (block + rest.bufs) == (seen + block) + rest.bufs;
    if Fits((seen + block) + rest.bufs, maxOut, maxIn) { FitsPrefix(seen + block, rest.bufs, maxOut, maxIn); }
  }

  /** The outer loop of process_descriptor_chain_buf. */
  method WalkChain(g: Guest, head: u16, num: nat, cfg: BufConfig) returns (end: End)
    requires cfg.Holds([])
    modifies cfg`outCount, cfg`inCount, cfg.outs, cfg.ins
    ensures end == Result([], Chain(g, head, num), cfg.maxOut, cfg.maxIn)
    ensures end == Done ==> cfg.Holds(Chain(g, head, num).bufs)
    ensures cfg.Beyond() == old(cfg.Beyond())
  {
    ghost var f := Chain(g, head, num);
    ghost var seen: seq<Buf>, rest := [], f;
    var next := head;
    var iter := 0;
    while iter < num
      invariant 0 <= iter <= num && cfg.Holds(seen) && cfg.Beyond() == old(cfg.Beyond())
      invariant rest == Chain(g, next, num - iter) && Pending([], f, seen, rest)
    {
      var d := g.ring(next);
      ghost var block := One(g, d);
      ghost var left :=
        if block.end != Done || !d.flags.next then Flat([], block.end) else Chain(g, d.next, num - iter - 1);
      assert rest.bufs == block.bufs + left.bufs && rest.end == left.end;
      PendingBlock(f, seen, block.bufs, left, cfg.maxOut, cfg.maxIn);
      end := WalkOne(g, d, cfg, seen);
      seen, rest := seen + block.bufs, left;
      if end != Done { return; }
      if !d.flags.next { break; }
      next := d.next;
      iter := iter + 1;
    }
    assert rest == Flat([], Done) && seen + rest.bufs == seen && [] + f.bufs == f.bufs;
    end := Done;
  }

  /** What the walker returns: None when it faults, -1 on a bad chain or a full array. */
  function WalkReturn(f: Flat, maxOut: nat, maxIn: nat): Option<int> {
    match Result([], f, maxOut, maxIn)
    case Fault => None
    case Bad => Some(-1)
    case Done => Some(|f.bufs|)
  }

  lemma {:induction false} DataPrefix(g: Guest, head: u16, k: nat, n: nat)
    requires k <= n
    ensures DataAlong(g, head, k) <= DataAlong(g, head, n)
    decreases n
  {
    if k < n { DataPrefix(g, head, k, n - 1); }
  }

  lemma {:induction false} FaultFits(g: Guest, head: u16, num: nat, maxOut: nat, maxIn: nat, k: nat)
    requires NullAt(g, head, num, k)
    ensures WalkReturn(Chain(g, head, num), maxOut, maxIn).None? <==>
              PartsFit(g, DataAlong(g, head, k), maxOut, maxIn)
  {
    var bufs := Chain(g, head, num).bufs;
    FaultFrom(g, head, num, k);
    ChainIsPath(g, head, num);
    DataPrefix(g, head, k, PathLen(g.ring, head, num));
    SplitMirrors(g, bufs, DataAlong(g, head, k));
    assert [] + bufs == bufs;
  }

  lemma {:induction false} WalkDone(g: Guest, head: u16, num: nat, maxOut: nat, maxIn: nat)
    requires Result([], Chain(g, head, num), maxOut, maxIn) == Done
    ensures var bufs, ds := Chain(g, head, num).bufs, Visited(g, head, num);
            && Outs(bufs) == Part(g, ds, false) && Ins(bufs) == Part(g, ds, true) && |Outs(bufs)| + |Ins(bufs)| == |ds|
            && WalkReturn(Chain(g, head, num), maxOut, maxIn) == Some(|ds|)
  {
    ChainIsPath(g, head, num);
    SplitMirrors(g, Chain(g, head, num).bufs, Visited(g, head, num));
    SplitCounts(Chain(g, head, num).bufs);
  }

  /** The walker against the guest's descriptors. It succeeds exactly when every entry visited is
      good and the readable and the writable descriptors fit the two arrays; these then hold
      exactly them, in order. It faults exactly when it comes to an indirect table at NULL with
      only good entries before it that fit. */
  lemma {:induction false} WalkExact(g: Guest, head: u16, num: nat, maxOut: nat, maxIn: nat)
    ensures var ret, ds := WalkReturn(Chain(g, head, num), maxOut, maxIn), Visited(g, head, num);
            && (ret.Some? && ret.value >= 0 <==> AllGood(g, head, num) && PartsFit(g, ds, maxOut, maxIn))
            && (ret.Some? && ret.value >= 0 ==>
                  && ret.value == |ds|
                  && Outs(Chain(g, head, num).bufs) == Part(g, ds, false)
                  && Ins(Chain(g, head, num).bufs) == Part(g, ds, true))
            && (ret.Some? && ret.value < 0 ==> ret.value == -1)
            && (ret.None? <==>
                  exists k: nat :: NullAt(g, head, num, k) && PartsFit(g, DataAlong(g, head, k), maxOut, maxIn))
  {
    var f := Chain(g, head, num);
    ChainIsPath(g, head, num);
    assert [] + f.bufs == f.bufs;
    if f.end == Done { SplitMirrors(g, f.bufs, Visited(g, head, num)); }
    if f.end == Fault {
      var k := FaultTo(g, head, num);
      FaultFits(g, head, num, maxOut, maxIn, k);
    }
    forall k: nat | NullAt(g, head, num, k)
      ensures WalkReturn(f, maxOut, maxIn).None? <==> PartsFit(g, DataAlong(g, head, k), maxOut, maxIn)
    {
      FaultFits(g, head, num, maxOut, maxIn, k);
    }
  }

  /** process_descriptor_chain_buf. */
  method ProcessDescriptorChainBuf(q: VirtQueue, g: Guest, head: u16, cfg: BufConfig) returns (ret: Option<int>)
    requires cfg.Holds([])
    modifies q`lastAvail, cfg`outCount, cfg`inCount, cfg.outs, cfg.ins
    ensures ret == WalkReturn(Chain(g, head, q.num), cfg.maxOut, cfg.maxIn)
    ensures ret.Some? && ret.value >= 0 ==> cfg.Holds(Chain(g, head, q.num).bufs)
    ensures ret.Some? && ret.value >= 0 ==>
              && ret.value == |Visited(g, head, q.num)|
              && cfg.outs[..cfg.outCount] == Part(g, Visited(g, head, q.num), false)
              && cfg.ins[..cfg.inCount] == Part(g, Visited(g, head, q.num), true)
    ensures cfg.Beyond() == old(cfg.Beyond())
    ensures q.lastAvail == match ret case None => old(q.lastAvail) case Some(n) => AfterWalk(old(q.lastAvail), n)
  {
    var end := WalkChain(g, head, q.num, cfg);
    if end == Fault { return None; }
    if end == Bad { return Some(-1); }
    WalkDone(g, head, q.num, cfg.maxOut, cfg.maxIn);
    assert cfg.outCount == |cfg.outs[..cfg.outCount]| && cfg.inCount == |cfg.ins[..cfg.inCount]|;
    ret := Some(cfg.outCount + cfg.inCount);
    assert ret.value == |Visited(g, head, q.num)|;
    q.lastAvail := Wrap16(q.lastAvail + 1);
  }

  // ------------------------------------------------------------------ allocating walker

  /** An indirect table whose chain, from entry `i`, uses exactly `left` entries, all inside. */
  ghost predicate FullTable(g: Guest, host: nat, count: nat, i: u16, left: nat)
    decreases left
  {
    && left > 0 && i < count && g.translate(g.table(host, i).addr).Some?
    && if g.table(host, i).flags.next then FullTable(g, host, count, g.table(host, i).next, left - 1) else left == 1
  }

  /** A chain sections 2.7.5.1 and 2.7.5.3.1 of VirtIO 1.2 allow: it ends within `left`
      entries, an indirect descriptor comes only last, and its table is fully used. */
  ghost predicate Conforming(g: Guest, i: u16, left: nat)
    decreases left
  {
    var d := g.ring(i);
    && left > 0 && g.translate(d.addr).Some?
    && (d.flags.indirect ==>
          !d.flags.next && FullTable(g, g.translate(d.addr).value, d.len / DESC_SIZE, 0, d.len / DESC_SIZE))
    && (d.flags.next ==> Conforming(g, d.next, left - 1))
  }

  lemma {:induction false} FullTableFlat(g: Guest, host: nat, count: nat, i: u16, left: nat)
    requires FullTable(g, host, count, i, left)
    ensures Indirect(g, host, count, i, left).end == Done && |Indirect(g, host, count, i, left).bufs| == left
    decreases left
  {
    var d := g.table(host, i);
    if d.flags.next { FullTableFlat(g, host, count, d.next, left - 1); }
  }

  lemma {:induction false} ConformingOne(g: Guest, i: u16, left: nat)
    requires Conforming(g, i, left)
    ensures var d := g.ring(i); var f := One(g, d);
            f.end == Done && |f.bufs| == if d.flags.indirect then d.len / DESC_SIZE else 1
    ensures |One(g, g.ring(i)).bufs| > 0
  {
    var d := g.ring(i);
    if d.flags.indirect { FullTableFlat(g, g.translate(d.addr).value, d.len / DESC_SIZE, 0, d.len / DESC_SIZE); }
  }

  /** The walk of a conforming chain meets nothing bad and at least one buffer. */
  lemma {:induction false} ConformingFlat(g: Guest, i: u16, left: nat)
    requires Conforming(g, i, left)
    ensures Chain(g, i, left).end == Done && |Chain(g, i, left).bufs| > 0
    decreases left
  {
    ConformingOne(g, i, left);
    if g.ring(i).flags.next { ConformingFlat(g, g.ring(i).next, left - 1); }
  }

  /** The chain of an indirect table from entry `i`, if it ends within `left` entries; the code
      checks neither the entry numbers nor the addresses. */
  function TablePath(g: Guest, host: nat, i: u16, left: nat): (r: Option<seq<Buf>>)
    ensures r.Some? ==> 0 < |r.value| <= left
    decreases left
  {
    if left == 0 then None
    else
      var d := g.table(host, i);
      var b := BufOf(HostOf(g, d.addr), d);
      if !d.flags.next then Some([b])
      else match TablePath(g, host, d.next, left - 1)
        case None => None
        case Some(rest) => Some([b] + rest)
  }

  /** What the allocating walker makes of a chain: the buffers it stores and the number it
      returns, which is larger if an indirect table is not fully used. */
  datatype Alloc = Alloc(bufs: seq<Buf>, n: nat)

  /** The chain from entry `i`, when the counting pass may go on for `left` more entries; the
      filling pass goes one entry further. None where VirtIO forbids the chain and the walker
      leaves its array, reads a NULL table or skips an array element: an indirect descriptor
      with NEXT or in the entry beyond the count, a NULL table, a table chain that does not end
      within the table. */
  function AllocChain(g: Guest, i: u16, left: nat): (r: Option<Alloc>)
    ensures r.Some? ==> |r.value.bufs| <= r.value.n
    decreases left
  {
    var d := g.ring(i);
    var b := BufOf(HostOf(g, d.addr), d);
    if d.flags.indirect then
      if d.flags.next || left == 0 then None
      else if d.len / DESC_SIZE == 0 then Some(Alloc([], 0))
      else if g.translate(d.addr).None? then None
      else match TablePath(g, HostOf(g, d.addr), 0, d.len / DESC_SIZE)
        case None => None
        case Some(bufs) => Some(Alloc(bufs, d.len / DESC_SIZE))
    else if !d.flags.next || left == 0 then Some(Alloc([b], 1))
    else match AllocChain(g, d.next, left - 1)
      case None => None
      case Some(rest) => Some(Alloc([b] + rest.bufs, 1 + rest.n))
  }

  /** The allocating walker finds nothing exactly when the chain is one short indirect table. */
  lemma {:induction false} AllocEmptyExact(g: Guest, head: u16, num: nat)
    requires AllocChain(g, head, num).Some?
    ensures AllocChain(g, head, num).value.n == 0 <==> ShortTable(g)(head)
  {
    assert g.ring(head).len / DESC_SIZE == 0 <==> g.ring(head).len < DESC_SIZE;
  }

  /** A chain of direct descriptors without end is cut after one entry more than the other
      walker takes. */
  lemma {:induction false} AllocEndlessIsCut(g: Guest, head: u16, num: nat)
    requires forall k: nat :: var d := g.ring(Visit(g.ring, head, k)); d.flags.next && !d.flags.indirect
    ensures AllocChain(g, head, num).Some? && AllocChain(g, head, num).value.n == num + 1
    decreases num
  {
    assert Visit(g.ring, head, 0) == head;
    if num > 0 {
      var next := g.ring(head).next;
      forall k: nat ensures Visit(g.ring, next, k) == Visit(g.ring, head, k + 1) {}
      AllocEndlessIsCut(g, next, num - 1);
    }
  }

  lemma {:induction false} FullTablePath(g: Guest, host: nat, count: nat, i: u16, left: nat)
    requires FullTable(g, host, count, i, left)
    ensures TablePath(g, host, i, left) == Some(Indirect(g, host, count, i, left).bufs)
    decreases left
  {
    var d := g.table(host, i);
    var b := BufOf(HostOf(g, d.addr), d);
    if d.flags.next {
      FullTablePath(g, host, count, d.next, left - 1);
    } else {
      assert [b] + [] == [b];
    }
  }

  /** On a conforming chain nothing is left out: the walker stores exactly the flattening. */
  lemma {:induction false} ConformingAlloc(g: Guest, i: u16, left: nat)
    requires Conforming(g, i, left)
    ensures var bufs := Chain(g, i, left).bufs; AllocChain(g, i, left) == Some(Alloc(bufs, |bufs|))
    decreases left
  {
    var d := g.ring(i);
    ConformingOne(g, i, left);
    if d.flags.indirect {
      FullTablePath(g, g.translate(d.addr).value, d.len / DESC_SIZE, 0, d.len / DESC_SIZE);
    } else if d.flags.next {
      ConformingAlloc(g, d.next, left - 1);
      ConformingFlat(g, d.next, left - 1);
    }
  }

  lemma {:induction false} TableIsPath(g: Guest, host: nat, i: u16, left: nat)
    ensures var at, n := Table(g, host), PathLen(Table(g, host), i, left);
            && (TablePath(g, host, i, left).Some? <==> n > 0 && !at(Visit(at, i, n - 1)).flags.next)
            && (TablePath(g, host, i, left).Some? ==>
                  Mirrors(g, TablePath(g, host, i, left).value, Path(at, i, n))
                  && |TablePath(g, host, i, left).value| == n)
    decreases left
  {
    var at, n := Table(g, host), PathLen(Table(g, host), i, left);
    if left > 0 {
      var d := at(i);
      PathShift(at, i, n);
      assert Visit(at, i, 0) == i;
      if d.flags.next {
        TableIsPath(g, host, d.next, left - 1);
        assert n > 1 ==> Visit(at, i, n - 1) == Visit(at, d.next, n - 2);
        var r := TablePath(g, host, d.next, left - 1);
        if r.Some? {
          var whole := TablePath(g, host, i, left).value;
          MirrorsConcat(g, whole[..1], r.value, [d], Path(at, d.next, n - 1));
          assert whole == whole[..1] + r.value;
        }
      }
    }
  }

  /** Entries that the allocating walker gets over: an indirect one comes without NEXT, and its
      table is too short for any entry, or has an address and a path that ends within it. */
  function Fillable(g: Guest): u16 -> bool {
    (i: u16) =>
      var d := g.ring(i);
      var count := d.len / DESC_SIZE;
      d.flags.indirect ==>
        && !d.flags.next
        && (count == 0 ||
            (g.translate(d.addr).Some? &&
             var at := Table(g, g.translate(d.addr).value);
             var n := PathLen(at, 0, count);
             n > 0 && !at(Visit(at, 0, n - 1)).flags.next))
  }

  /** How many array elements the walker counts for an entry. */
  function Size(d: Desc): nat { if d.flags.indirect then d.len / DESC_SIZE else 1 }

  function Sizes(g: Guest, head: u16, n: nat): nat {
    if n == 0 then 0 else Sizes(g, head, n - 1) + Size(g.ring(Visit(g.ring, head, n - 1)))
  }

  lemma {:induction false} SizesShift(g: Guest, head: u16, n: nat)
    ensures Sizes(g, head, n + 1) == Size(g.ring(head)) + Sizes(g, g.ring(head).next, n)
    decreases n
  {
    if n == 0 { assert Sizes(g, head, 0) == 0; } else { SizesShift(g, head, n - 1); }
  }

  /** What the allocating walker stores and returns for a path of one entry. */
  lemma {:induction false} AllocLast(g: Guest, i: u16, left: nat)
    requires AllocChain(g, i, left).Some? && PathLen(g.ring, i, left + 1) == 1
    ensures var a := AllocChain(g, i, left).value;
            Mirrors(g, a.bufs, Data(g, g.ring(i))) && |a.bufs| == |Data(g, g.ring(i))| && a.n == Size(g.ring(i))
  {
    var d := g.ring(i);
    if d.flags.indirect && g.translate(d.addr).Some? {
      var host := g.translate(d.addr).value;
      TableIsPath(g, host, 0, d.len / DESC_SIZE);
    }
  }

  lemma {:induction false} VisitedNone(g: Guest, i: u16)
    ensures Visited(g, i, 0) == []
  {}

  lemma {:induction false} AllocNext(g: Guest, i: u16, left: nat, ds: seq<Desc>)
    requires AllocChain(g, i, left).Some? && g.ring(i).flags.next && left > 0
    requires AllocChain(g, g.ring(i).next, left - 1).Some? ==>
               Mirrors(g, AllocChain(g, g.ring(i).next, left - 1).value.bufs, ds)
    ensures !g.ring(i).flags.indirect && AllocChain(g, g.ring(i).next, left - 1).Some?
    ensures var a, rest := AllocChain(g, i, left).value, AllocChain(g, g.ring(i).next, left - 1).value;
            a.n == 1 + rest.n && |a.bufs| == 1 + |rest.bufs| && Mirrors(g, a.bufs, [g.ring(i)] + ds)
  {
    var d := g.ring(i);
    var a, rest := AllocChain(g, i, left).value, AllocChain(g, d.next, left - 1).value;
    var b := a.bufs[..1];
    assert a.bufs == b + rest.bufs && Mirrors(g, b, [d]);
    MirrorsConcat(g, b, rest.bufs, [d], ds);
  }

  /** The allocating walker against the guest's descriptors: it follows the path for `left` + 1
      entries and stores the buffers of its data descriptors, in order and nothing else. */
  lemma {:induction false} AllocIsPath(g: Guest, i: u16, left: nat)
    requires AllocChain(g, i, left).Some?
    ensures var a := AllocChain(g, i, left).value;
            Mirrors(g, a.bufs, Visited(g, i, left + 1)) && |a.bufs| == |Visited(g, i, left + 1)|
    decreases left
  {
    var d := g.ring(i);
    VisitedShift(g, i, left + 1);
    if d.flags.next && left > 0 {
      AllocIsPath(g, d.next, left - 1);
      AllocNext(g, i, left, Visited(g, d.next, left));
      assert Data(g, d) == [d];
    } else {
      if d.flags.next { VisitedNone(g, d.next); }
      AllocLast(g, i, left);
      assert Data(g, d) + [] == Data(g, d);
    }
  }

  /** It counts one for a direct entry and the whole table for an indirect one. */
  lemma {:induction false} AllocCounts(g: Guest, i: u16, left: nat)
    requires AllocChain(g, i, left).Some?
    ensures AllocChain(g, i, left).value.n == Sizes(g, i, PathLen(g.ring, i, left + 1))
    decreases left
  {
    var d := g.ring(i);
    SizesShift(g, i, PathLen(g.ring, i, left + 1) - 1);
    if d.flags.next && left > 0 {
      AllocCounts(g, d.next, left - 1);
    } else {
      AllocLast(g, i, left);
    }
  }

  /** The chains it can walk: all entries fillable, and no indirect one beyond the count. */
  lemma {:induction false} AllocExact(g: Guest, i: u16, left: nat)
    ensures var n := PathLen(g.ring, i, left + 1);
            AllocChain(g, i, left).Some? <==>
              && Along(g.ring, i, n, Fillable(g))
              && (n == left + 1 ==> !g.ring(Visit(g.ring, i, left)).flags.indirect)
    decreases left
  {
    var d := g.ring(i);
    var n := PathLen(g.ring, i, left + 1);
    AlongShift(g.ring, i, n, Fillable(g));
    assert Visit(g.ring, i, 0) == i;
    if d.flags.indirect && g.translate(d.addr).Some? {
      TableIsPath(g, g.translate(d.addr).value, 0, d.len / DESC_SIZE);
    }
    if d.flags.next && left > 0 && !d.flags.indirect { AllocExact(g, d.next, left - 1); }
  }

  /** The counting pass. */
  method CountChain(g: Guest, head: u16, num: nat) returns (chainLen: nat)
    requires AllocChain(g, head, num).Some?
    ensures chainLen == AllocChain(g, head, num).value.n
  {
    var length := 0;
    var next := head;
    var i := 0;
    while i < num
      invariant 0 <= i <= num && length == 0 && AllocChain(g, next, num - i).Some?
      invariant AllocChain(g, head, num).value.n == i + AllocChain(g, next, num - i).value.n
    {
      var d := g.ring(next);
      if d.flags.indirect {
        length := length + d.len / DESC_SIZE;
        i := i - 1;
      }
      if !d.flags.next { break; }
      i := i + 1;
      next := d.next;
    }
    chainLen := length + i + 1;
  }

  /** The first `i` buffers are in the arrays. */
  ghost predicate Filled(iov: seq<Iov>, flags: seq<Flags>, copyFlags: bool, bufs: seq<Buf>, i: nat) {
    && i <= |bufs| <= |iov| == |flags|
    && (forall k :: 0 <= k < i ==> iov[k] == bufs[k].iov)
    && (copyFlags ==> forall k :: 0 <= k < i ==> flags[k] == bufs[k].flags)
  }

  /** descriptor2iov. */
  method Descriptor2Iov(g: Guest, i: nat, d: Desc, iov: array<Iov>, flags: array<Flags>, copyFlags: bool,
                        ghost bufs: seq<Buf>)
    requires Filled(iov[..], flags[..], copyFlags, bufs, i)
    requires i < |bufs| && bufs[i] == BufOf(HostOf(g, d.addr), d)
    modifies iov, flags
    ensures Filled(iov[..], flags[..], copyFlags, bufs, i + 1)
  {
    iov[i] := Iov(HostOf(g, d.addr), d.len);
    if copyFlags { flags[i] := d.flags; }
  }

  /** The inner loop of the filling pass, with what it leaves of `table_len`. */
  method FillIndirect(g: Guest, host: nat, count: nat, start: nat, iov: array<Iov>, flags: array<Flags>,
                      copyFlags: bool, ghost bufs: seq<Buf>) returns (i: nat, tableLen: int)
    requires Filled(iov[..], flags[..], copyFlags, bufs, start) && TablePath(g, host, 0, count) == Some(bufs[start..])
    modifies iov, flags
    ensures i == |bufs| && tableLen == count - (|bufs| - start)
    ensures Filled(iov[..], flags[..], copyFlags, bufs, i)
  {
    i, tableLen := start, count;
    var next: u16 := 0;
    while true
      invariant start <= i <= |bufs| && tableLen == count - (i - start) >= 0
      invariant Filled(iov[..], flags[..], copyFlags, bufs, i)
      invariant TablePath(g, host, next, tableLen) == Some(bufs[i..])
      decreases tableLen
    {
      var d := g.table(host, next);
      assert bufs[i] == bufs[i..][0];
      Descriptor2Iov(g, i, d, iov, flags, copyFlags, bufs);
      assert bufs[i + 1..] == bufs[i..][1..];
      tableLen := tableLen - 1;
      i := i + 1;
      if !d.flags.next { break; }
      next := d.next;
    }
  }

  /** The filling pass. */
  method FillChain(g: Guest, head: u16, num: nat, chainLen: nat, iov: array<Iov>, flags: array<Flags>, copyFlags: bool)
    requires AllocChain(g, head, num).Some? && chainLen == AllocChain(g, head, num).value.n
    requires chainLen <= iov.Length == flags.Length
    modifies iov, flags
    ensures var bufs := AllocChain(g, head, num).value.bufs;
            Filled(iov[..], flags[..], copyFlags, bufs, |bufs|)
  {
    ghost var bufs := AllocChain(g, head, num).value.bufs;
    ghost var left: nat := num;
    var next := head;
    var i := 0;
    while i < chainLen
      invariant i < chainLen ==> left <= num && AllocChain(g, next, left).Some?
      invariant i < chainLen ==> Filled(iov[..], flags[..], copyFlags, bufs, i)
      invariant i < chainLen ==> AllocChain(g, next, left).value == Alloc(bufs[i..], chainLen - i)
      invariant i >= chainLen ==> Filled(iov[..], flags[..], copyFlags, bufs, |bufs|)
      decreases chainLen - i
    {
      var d := g.ring(next);
      assert bufs[i..] != [];
      assert bufs[i] == bufs[i..][0];
      if d.flags.indirect {
        var tableLen;
        i, tableLen := FillIndirect(g, HostOf(g, d.addr), d.len / DESC_SIZE, i, iov, flags, copyFlags, bufs);
        if tableLen != 0 { break; }
      } else {
        Descriptor2Iov(g, i, d, iov, flags, copyFlags, bufs);
        assert bufs[i + 1..] == bufs[i..][1..];
      }
      i := i + 1;
      next := d.next;
      left := if left == 0 then 0 else left - 1;
    }
  }

  /** The arrays begin with the descriptors, translated. */
  ghost predicate Stored(g: Guest, iov: seq<Iov>, flags: seq<Flags>, copyFlags: bool, ds: seq<Desc>) {
    && |ds| <= |iov| == |flags|
    && (forall k :: 0 <= k < |ds| ==> iov[k] == Iov(HostOf(g, ds[k].addr), ds[k].len))
    && (copyFlags ==> forall k :: 0 <= k < |ds| ==> flags[k] == ds[k].flags)
  }

  lemma {:induction false} FilledStored(g: Guest, head: u16, num: nat, iov: seq<Iov>, flags: seq<Flags>,
                                        copyFlags: bool, alloc: Alloc)
    requires AllocChain(g, head, num) == Some(alloc) && Filled(iov, flags, copyFlags, alloc.bufs, |alloc.bufs|)
    ensures Stored(g, iov, flags, copyFlags, Visited(g, head, num + 1))
    ensures alloc.n == Sizes(g, head, PathLen(g.ring, head, num + 1))
  {
    AllocIsPath(g, head, num);
    AllocCounts(g, head, num);
  }

  /** process_descriptor_chain. */
  method ProcessDescriptorChain(q: VirtQueue, g: Guest, append: nat, copyFlags: bool)
    returns (n: nat, head: u16, iov: array<Iov>, flags: array<Flags>)
    requires q.Valid()
    requires !q.Empty() ==> AllocChain(g, q.avail[Slot(q.lastAvail, q.num)], q.num).Some?
    modifies q`lastAvail
    ensures old(q.Empty()) ==> n == 0 && q.lastAvail == old(q.lastAvail)
    ensures !old(q.Empty()) ==>
              && q.lastAvail == Wrap16(old(q.lastAvail) + 1) && head == q.avail[Slot(old(q.lastAvail), q.num)]
              && AllocChain(g, head, q.num).Some? && n == AllocChain(g, head, q.num).value.n
              && n == Sizes(g, head, PathLen(g.ring, head, q.num + 1))
              && fresh(iov) && iov.Length == flags.Length == n + append
              && Stored(g, iov[..], flags[..], copyFlags, Visited(g, head, q.num + 1))
              && var bufs := AllocChain(g, head, q.num).value.bufs;
                 Filled(iov[..], flags[..], copyFlags, bufs, |bufs|)
  {
    if q.lastAvail == q.availIdx {
      n, head := 0, 0;
      iov, flags := new Iov[0], new Flags[0];
      return;
    }
    head := q.avail[Slot(q.lastAvail, q.num)];
    q.lastAvail := Wrap16(q.lastAvail + 1);
    n := CountChain(g, head, q.num);
    iov := new Iov[n + append](_ => Iov(0, 0));
    flags := new Flags[n + append](_ => Flags(false, false, false));
    FillChain(g, head, q.num, n, iov, flags, copyFlags);
    FilledStored(g, head, q.num, iov[..], flags[..], copyFlags, AllocChain(g, head, q.num).value);
  }

  // ------------------------------------------------------------------ the walkers agree

  /** Section 2.7.4.2 of VirtIO 1.2: device-readable buffers come first. */
  ghost predicate ReadableFirst(ds: seq<Desc>) {
    forall i, j :: 0 <= i < j < |ds| && ds[i].flags.write ==> ds[j].flags.write
  }

  /** The descriptors as the device sees them. */
  function Translated(g: Guest, ds: seq<Desc>): (r: seq<Iov>)
    ensures |r| == |ds|
  {
    seq(|ds|, i requires 0 <= i < |ds| => Iov(HostOf(g, ds[i].addr), ds[i].len))
  }

  /** In the order the standard asks for, the two parts concatenate to the original. */
  lemma {:induction false} SplitOrdered(g: Guest, ds: seq<Desc>)
    requires ReadableFirst(ds)
    ensures Part(g, ds, false) + Part(g, ds, true) == Translated(g, ds)
    ensures (exists i :: 0 <= i < |ds| && ds[i].flags.write) || Part(g, ds, true) == []
    decreases ds
  {
    if ds != [] {
      var n := |ds| - 1;
      var front, d := ds[..n], ds[n];
      SplitOrdered(g, front);
      assert Translated(g, ds) == Translated(g, front) + [Iov(HostOf(g, d.addr), d.len)];
      if !d.flags.write {
        assert Part(g, front, true) == [] by {
          if i :| 0 <= i < |front| && front[i].flags.write { assert ds[i].flags.write; }
        }
      }
    }
  }

  lemma {:induction false} FilledTranslated(g: Guest, iov: seq<Iov>, flags: seq<Flags>, copyFlags: bool, bufs: seq<Buf>,
                                            ds: seq<Desc>)
    requires Filled(iov, flags, copyFlags, bufs, |bufs|) && Mirrors(g, bufs, ds) && |bufs| == |ds|
    ensures iov[..|bufs|] == Translated(g, ds)
  {}

  /** A chain without bad descriptors is refused exactly when it does not fit. */
  lemma {:induction false} CleanReturn(f: Flat, maxOut: nat, maxIn: nat)
    requires f.end == Done
    ensures WalkReturn(f, maxOut, maxIn) == Some(if Fits(f.bufs, maxOut, maxIn) then |f.bufs| else -1)
  {
    assert [] + f.bufs == f.bufs;
  }

  /** On a conforming chain both walkers deliver the same buffers: the array filled by the
      allocating one is complete and is the two arrays of the other in turn, and that one
      refuses the chain exactly when its arrays are too small. */
  lemma {:induction false} WalkersAgree(g: Guest, head: u16, num: nat, maxOut: nat, maxIn: nat, iov: seq<Iov>,
                                        flags: seq<Flags>, copyFlags: bool, alloc: Alloc)
    requires Conforming(g, head, num) && ReadableFirst(Visited(g, head, num))
    requires AllocChain(g, head, num) == Some(alloc) && Filled(iov, flags, copyFlags, alloc.bufs, |alloc.bufs|)
    ensures var ds := Visited(g, head, num);
            && WalkReturn(Chain(g, head, num), maxOut, maxIn)
               == Some(if PartsFit(g, ds, maxOut, maxIn) then |ds| else -1)
            && alloc.n == |ds| <= |iov| && iov[..alloc.n] == Part(g, ds, false) + Part(g, ds, true)
  {
    var f, ds := Chain(g, head, num), Visited(g, head, num);
    ConformingFlat(g, head, num);
    ConformingAlloc(g, head, num);
    ChainIsPath(g, head, num);
    SplitMirrors(g, f.bufs, ds);
    SplitOrdered(g, ds);
    CleanReturn(f, maxOut, maxIn);
    FilledTranslated(g, iov, flags, copyFlags, f.bufs, ds);
  }
}
