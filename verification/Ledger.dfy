/** The history of one virtqueue and what it means for requests to be completed: the entries
    the driver has made available, how many of them the device has consumed, and the used
    entries it has published (section 2.7 of VirtIO 1.2). The rings hold windows of these
    unbounded histories; the indices count them modulo 2^16. The driver may add entries at
    any time while fewer than `num` are outstanding. */
module Ledger {
  import opened Words
  import opened VirtQueues

  /** `avail0` and `used0` are the rings at set-up, when all indices are 0. */
  datatype History = History(
    avail0: seq<u16>, used0: seq<Elem>, posted: seq<u16>, taken: nat, published: seq<Elem>)

  // ------------------------------------------------------------------ rings as histories

  /** The available ring after the driver has added `heads`. */
  function Posted(ring: seq<u16>, num: nat, heads: seq<u16>): (r: seq<u16>)
    requires |ring| == num > 0
    ensures |r| == num
  {
    if heads == [] then ring
    else
      var n := |heads| - 1;
      Posted(ring, num, heads[..n])[Slot(n, num) := heads[n]]
  }

  lemma {:induction false} PostedNext(ring: seq<u16>, num: nat, heads: seq<u16>, head: u16)
    requires |ring| == num > 0
    ensures Posted(ring, num, heads + [head]) == Posted(ring, num, heads)[Slot(|heads|, num) := head]
  {
    assert (heads + [head])[..|heads|] == heads;
  }

  /** The newest `num` entries are in the ring. */
  lemma {:induction false} PostedHolds(ring: seq<u16>, num: nat, heads: seq<u16>, k: nat)
    requires |ring| == num > 0 && k < |heads| <= k + num
    ensures Posted(ring, num, heads)[Slot(k, num)] == heads[k]
    decreases heads
  {
    var n := |heads| - 1;
    if k < n {
      PostedHolds(ring, num, heads[..n], k);
      SlotsDistinct(k, n, num);
    }
  }

  lemma {:induction false} PutAllConcat(u: Used, num: nat, a: seq<Elem>, b: seq<Elem>)
    requires ValidUsed(u, num)
    ensures PutAll(PutAll(u, num, a), num, b) == PutAll(u, num, a + b)
    decreases b
  {
    if b == [] {
      assert a + b == a;
    } else {
      var n := |b| - 1;
      PutAllConcat(u, num, a, b[..n]);
      assert (a + b)[..|a + b| - 1] == a + b[..n];
    }
  }

  lemma {:induction false} PutAllOne(u: Used, num: nat, es: seq<Elem>, e: Elem)
    requires ValidUsed(u, num)
    ensures Put(PutAll(u, num, es), num, e) == PutAll(u, num, es + [e])
  {
    assert (es + [e])[..|es|] == es;
  }

  lemma {:induction false} PutAllIndex(u: Used, num: nat, es: seq<Elem>)
    requires ValidUsed(u, num)
    ensures PutAll(u, num, es).idx == Wrap16(u.idx + |es|)
    decreases es
  {
    if es == [] {
      WrapSame(u.idx);
    } else {
      PutAllIndex(u, num, es[..|es| - 1]);
      WrapNext(u.idx + |es| - 1);
    }
  }

  /** The two rings and their indices are the current window of the history. */
  ghost predicate Rings(q: VirtQueue, h: History)
    reads q`availIdx, q`usedIdx, q.avail, q.used
  {
    && q.Valid() && |h.avail0| == |h.used0| == q.num
    && q.avail[..] == Posted(h.avail0, q.num, h.posted) && q.availIdx == Wrap16(|h.posted|)
    && q.UsedState() == PutAll(Used(h.used0, 0), q.num, h.published)
  }

  /** And so is the device's own index. */
  ghost predicate Tracks(q: VirtQueue, h: History)
    reads q`availIdx, q`lastAvail, q`usedIdx, q.avail, q.used
  {
    Rings(q, h) && q.lastAvail == Wrap16(h.taken)
  }

  // ------------------------------------------------------------------ completion in order

  function IdsOf(es: seq<Elem>): (r: seq<u16>)
    ensures |r| == |es|
  {
    seq(|es|, i requires 0 <= i < |es| => es[i].id)
  }

  lemma {:induction false} HeadsConcat(a: seq<Elem>, b: seq<Elem>)
    ensures IdsOf(a + b) == IdsOf(a) + IdsOf(b)
  {}

  /** Every entry consumed has been completed once, under its own id, in order. */
  ghost predicate InOrder(h: History) {
    h.taken <= |h.posted| && IdsOf(h.published) == h.posted[..h.taken]
  }

  /** The driver has at most `num` entries outstanding. */
  predicate Outstanding(h: History, num: nat) {
    |h.published| <= |h.posted| <= |h.published| + num
  }

  /** Entries consumed and not completed. */
  function Slack(h: History): int { h.taken - |h.published| }

  /** One request as the device handled it: the head it met, what the walker returned, how far
      the index moved and what was published. */
  datatype Handled = Handled(head: u16, ret: int, adv: nat, out: seq<Elem>)

  /** A request with a chain is consumed and completed once. One whose chain is empty leaves
      one entry more consumed than completed, whatever the device. */
  predicate Sound(e: Handled) {
    if e.ret == 0 then e.adv == |e.out| + 1
    else e.adv == 1 && |e.out| == 1 && e.out[0].id == e.head
  }

  function Advanced(tr: seq<Handled>): nat {
    if tr == [] then 0 else Advanced(tr[..|tr| - 1]) + tr[|tr| - 1].adv
  }

  function Outputs(tr: seq<Handled>): seq<Elem> {
    if tr == [] then [] else Outputs(tr[..|tr| - 1]) + tr[|tr| - 1].out
  }

  function Empties(tr: seq<Handled>): nat {
    if tr == [] then 0 else Empties(tr[..|tr| - 1]) + if tr[|tr| - 1].ret == 0 then 1 else 0
  }

  ghost predicate NoEmpty(tr: seq<Handled>) {
    forall i :: 0 <= i < |tr| ==> tr[i].ret != 0
  }

  /** As long as nothing empty was met, the heads met are the ring's entries, one after the other. */
  ghost predicate Follows(h: History, posted: seq<u16>, tr: seq<Handled>) {
    forall i :: 0 <= i < |tr| && NoEmpty(tr[..i]) ==> h.taken + i < |posted| && tr[i].head == posted[h.taken + i]
  }

  /** In order, and with a driver that keeps its bound. */
  ghost predicate Sane(h: History, num: nat) { InOrder(h) && Outstanding(h, num) }

  /** The device went from `h` to `h'` by handling the requests of `tr`. */
  ghost predicate Served(h: History, h': History, tr: seq<Handled>, num: nat) {
    && h'.avail0 == h.avail0 && h'.used0 == h.used0 && h.posted <= h'.posted
    && (forall i :: 0 <= i < |tr| ==> Sound(tr[i]))
    && h'.taken == h.taken + Advanced(tr) && h'.published == h.published + Outputs(tr)
    && (Sane(h, num) ==> Follows(h, h'.posted, tr))
    && (Sane(h, num) && NoEmpty(tr) ==> Outstanding(h', num))
  }

  lemma {:induction false} ServedNone(h: History, num: nat)
    ensures Served(h, h, [], num)
  {
    assert h.published + [] == h.published;
  }

  /** Consumed minus published grows by the empty chains. */
  lemma {:induction false} SlackGrows(tr: seq<Handled>)
    requires forall i :: 0 <= i < |tr| ==> Sound(tr[i])
    ensures Advanced(tr) == |Outputs(tr)| + Empties(tr)
    ensures Empties(tr) == 0 <==> NoEmpty(tr)
    ensures NoEmpty(tr) ==> |Outputs(tr)| == |tr| && forall i :: 0 <= i < |tr| ==> Outputs(tr)[i].id == tr[i].head
    decreases tr
  {
    if tr != [] {
      var n := |tr| - 1;
      var front := tr[..n];
      SlackGrows(front);
      assert forall i :: 0 <= i < n ==> front[i] == tr[i];
      if NoEmpty(tr) { assert NoEmpty(front); }
    }
  }

  lemma {:induction false} Appended(h: History, posted: seq<u16>, tr: seq<Handled>)
    requires h.taken <= |h.posted| && h.posted <= posted && NoEmpty(tr) && Follows(h, posted, tr)
    requires |Outputs(tr)| == |tr| && forall i :: 0 <= i < |tr| ==> Outputs(tr)[i].id == tr[i].head
    ensures h.taken + |tr| <= |posted|
    ensures h.posted[..h.taken] + IdsOf(Outputs(tr)) == posted[..h.taken + |tr|]
  {
    forall i | 0 <= i < |tr| ensures h.taken + i < |posted| && IdsOf(Outputs(tr))[i] == posted[h.taken + i] {
      assert NoEmpty(tr[..i]);
    }
    if tr != [] { assert h.taken + (|tr| - 1) < |posted|; }
  }

  /** Starting in order, the device stays in order exactly as long as it meets no empty chain. */
  lemma {:induction false} ServedExact(h: History, h': History, tr: seq<Handled>, num: nat)
    requires Sane(h, num) && Served(h, h', tr, num)
    ensures InOrder(h') <==> NoEmpty(tr)
    ensures Slack(h') == Empties(tr)
    ensures NoEmpty(tr) ==> h'.taken == h.taken + |tr|
  {
    SlackGrows(tr);
    HeadsConcat(h.published, Outputs(tr));
    assert |h.published| == |IdsOf(h.published)| == h.taken;
    if NoEmpty(tr) {
      Appended(h, h'.posted, tr);
    } else {
      assert |IdsOf(h'.published)| < h'.taken;
    }
  }

  lemma {:induction false} WrapShift(x: int, n: nat)
    ensures Wrap16(x + n) == Wrap16(x) <==> Wrap16(n) == 0
  {
    WrapDiff(x + n, x);
  }

  /** Conservation: the difference of the two indices grows by the number of empty chains, so
      modulo 2^16 it is constant exactly when that number is a multiple of 2^16. */
  lemma {:induction false} Conserved(h: History, h': History, tr: seq<Handled>, num: nat)
    requires Served(h, h', tr, num)
    ensures Slack(h') == Slack(h) + Empties(tr)
    ensures Wrap16(Wrap16(h'.taken) - Wrap16(|h'.published|)) == Wrap16(Wrap16(h.taken) - Wrap16(|h.published|))
            <==> Wrap16(Empties(tr)) == 0
  {
    SlackGrows(tr);
    WrapDiff(h'.taken, |h'.published|);
    WrapDiff(h.taken, |h.published|);
    WrapShift(Slack(h), Empties(tr));
  }

  lemma {:induction false} TraceNext(tr: seq<Handled>, e: Handled)
    ensures Advanced(tr + [e]) == Advanced(tr) + e.adv && Outputs(tr + [e]) == Outputs(tr) + e.out
    ensures NoEmpty(tr + [e]) <==> NoEmpty(tr) && e.ret != 0
  {
    assert (tr + [e])[..|tr|] == tr;
    if NoEmpty(tr + [e]) {
      forall i | 0 <= i < |tr| ensures tr[i].ret != 0 { assert (tr + [e])[i] == tr[i]; }
      assert (tr + [e])[|tr|] == e;
    }
  }

  lemma {:induction false} FollowsNext(h: History, posted: seq<u16>, tr: seq<Handled>, e: Handled)
    requires Follows(h, posted, tr)
    requires NoEmpty(tr) ==> h.taken + |tr| < |posted| && e.head == posted[h.taken + |tr|]
    ensures Follows(h, posted, tr + [e])
  {
    forall i | 0 <= i <= |tr| && NoEmpty((tr + [e])[..i])
      ensures h.taken + i < |posted| && (tr + [e])[i].head == posted[h.taken + i]
    {
      assert (tr + [e])[..i] == tr[..i];
      if i == |tr| { assert tr[..i] == tr; }
    }
  }

  lemma {:induction false} NoEmptyConcat(a: seq<Handled>, b: seq<Handled>)
    ensures NoEmpty(a + b) <==> NoEmpty(a) && NoEmpty(b)
  {
    if NoEmpty(a + b) {
      forall i | 0 <= i < |a| ensures a[i].ret != 0 { assert (a + b)[i] == a[i]; }
      forall i | 0 <= i < |b| ensures b[i].ret != 0 { assert (a + b)[|a| + i] == b[i]; }
    }
  }

  lemma {:induction false} TraceConcat(a: seq<Handled>, b: seq<Handled>)
    ensures Advanced(a + b) == Advanced(a) + Advanced(b) && Outputs(a + b) == Outputs(a) + Outputs(b)
    decreases b
  {
    if b == [] {
      assert a + b == a;
      assert Outputs(a) + [] == Outputs(a);
    } else {
      var n := |b| - 1;
      TraceConcat(a, b[..n]);
      assert (a + b)[..|a + b| - 1] == a + b[..n];
      assert (Outputs(a) + Outputs(b[..n])) + b[n].out == Outputs(a) + (Outputs(b[..n]) + b[n].out);
    }
  }

  lemma {:induction false} FollowsConcat(h: History, m: History, posted: seq<u16>, a: seq<Handled>, b: seq<Handled>)
    requires m.posted <= posted && Follows(h, m.posted, a)
    requires NoEmpty(a) ==> m.taken == h.taken + |a| && Follows(m, posted, b)
    ensures Follows(h, posted, a + b)
  {
    forall i | 0 <= i < |a + b| && NoEmpty((a + b)[..i])
      ensures h.taken + i < |posted| && (a + b)[i].head == posted[h.taken + i]
    {
      if i < |a| {
        assert (a + b)[..i] == a[..i];
      } else {
        assert (a + b)[..i] == a + b[..i - |a|];
        NoEmptyConcat(a, b[..i - |a|]);
      }
    }
  }

  lemma {:induction false} SoundConcat(a: seq<Handled>, b: seq<Handled>)
    requires forall i :: 0 <= i < |a| ==> Sound(a[i])
    requires forall i :: 0 <= i < |b| ==> Sound(b[i])
    ensures forall i :: 0 <= i < |a + b| ==> Sound((a + b)[i])
  {}

  /** Two stretches of work add up. */
  lemma {:induction false} ServedConcat(h: History, m: History, h': History, a: seq<Handled>, b: seq<Handled>, num: nat)
    requires Served(h, m, a, num) && Served(m, h', b, num)
    ensures Served(h, h', a + b, num)
  {
    TraceConcat(a, b);
    NoEmptyConcat(a, b);
    SoundConcat(a, b);
    assert (h.published + Outputs(a)) + Outputs(b) == h.published + (Outputs(a) + Outputs(b));
    if Sane(h, num) {
      ServedExact(h, m, a, num);
      FollowsConcat(h, m, h'.posted, a, b);
    }
  }

  /** The entry due at turn `i` has an empty chain. */
  predicate DueEmpty(h: History, posted: seq<u16>, i: nat, empty: (nat, u16) -> bool) {
    h.taken + i < |posted| && empty(i, posted[h.taken + i])
  }

  /** The first empty chain of a trace is met at the ring's own entry. */
  lemma {:induction false} NoneEmpty(h: History, posted: seq<u16>, tr: seq<Handled>, empty: (nat, u16) -> bool, k: nat)
    requires Follows(h, posted, tr) && k <= |tr| && NoEmpty(tr[..k])
    requires forall i :: 0 <= i < |tr| ==> (tr[i].ret == 0 <==> empty(i, tr[i].head))
    requires forall i :: 0 <= i < |tr| ==> !DueEmpty(h, posted, i, empty)
    ensures NoEmpty(tr)
    decreases |tr| - k
  {
    if k < |tr| {
      assert tr[k].head == posted[h.taken + k] && !DueEmpty(h, posted, k, empty);
      assert tr[..k + 1] == tr[..k] + [tr[k]];
      NoneEmpty(h, posted, tr, empty, k + 1);
    } else {
      assert tr[..k] == tr;
    }
  }

  /** A drain stays in order exactly if none of the ring entries it comes to is empty; what it
      meets once it has lost its place does not matter. `empty` says of each turn which heads
      have an empty chain. */
  lemma {:induction false} OrderExact(h: History, h': History, tr: seq<Handled>, num: nat, empty: (nat, u16) -> bool)
    requires Sane(h, num) && Served(h, h', tr, num)
    requires forall i :: 0 <= i < |tr| ==> (tr[i].ret == 0 <==> empty(i, tr[i].head))
    ensures InOrder(h') <==> forall i :: 0 <= i < |tr| ==> !DueEmpty(h, h'.posted, i, empty)
  {
    ServedExact(h, h', tr, num);
    if NoEmpty(tr) {
      forall i | 0 <= i < |tr| ensures !DueEmpty(h, h'.posted, i, empty) {
        assert NoEmpty(tr[..i]);
      }
    } else if forall i :: 0 <= i < |tr| ==> !DueEmpty(h, h'.posted, i, empty) {
      NoneEmpty(h, h'.posted, tr, empty, 0);
    }
  }

  /** A queue that is in order and looks empty has completed everything ever made available. */
  lemma {:induction false} EmptyMeansDone(h: History, num: nat)
    requires InOrder(h) && Outstanding(h, num) && num <= 0x8000 && Wrap16(h.taken) == Wrap16(|h.posted|)
    ensures IdsOf(h.published) == h.posted
  {
    assert |IdsOf(h.published)| == h.taken;
    WrapInjective(h.taken, |h.posted|);
    assert h.posted[..h.taken] == h.posted;
  }

  /** What the ring offers next: in order, the oldest entry not consumed. */
  lemma {:induction false} HeadIs(h: History, num: nat)
    requires ValidSize(num) && |h.avail0| == num && |h.published| <= h.taken < |h.posted| <= |h.published| + num
    ensures num > 0 && Posted(h.avail0, num, h.posted)[Slot(Wrap16(h.taken), num)] == h.posted[h.taken]
  {
    SizeBound(num);
    SlotWrap(h.taken, num);
    PostedHolds(h.avail0, num, h.posted, h.taken);
  }

  // ------------------------------------------------------------------ a drain in progress

  /** The head the device reads next. */
  function HeadOf(h: History, num: nat): u16
    requires |h.avail0| == num > 0
  {
    Posted(h.avail0, num, h.posted)[Slot(Wrap16(h.taken), num)]
  }

  /** The history as if the batch that is still being collected were published. */
  function Ahead(h: History, batch: seq<Elem>): History { h.(published := h.published + batch) }

  /** A drain that began at `h0` stands at `h`, has handled `tr` and holds `batch` back. */
  ghost predicate Draining(h0: History, h: History, batch: seq<Elem>, tr: seq<Handled>, num: nat) {
    && Served(h0, Ahead(h, batch), tr, num)
    && (Sane(h0, num) && NoEmpty(tr) ==> Outstanding(h, num))
  }

  lemma {:induction false} DrainBegins(h: History, num: nat)
    ensures Draining(h, h, [], [], num)
  {
    ServedNone(h, num);
    assert Ahead(h, []) == h;
  }

  /** The driver adds entries. */
  lemma {:induction false} DrainDriver(h0: History, h: History, batch: seq<Elem>, tr: seq<Handled>, num: nat,
                                       h': History)
    requires Draining(h0, h, batch, tr, num) && h' == h.(posted := h'.posted) && h.posted <= h'.posted
    requires Outstanding(h, num) ==> Outstanding(h', num)
    ensures Draining(h0, h', batch, tr, num)
  {
    if Sane(h0, num) {
      forall i | 0 <= i < |tr| && NoEmpty(tr[..i])
        ensures h0.taken + i < |h'.posted| && tr[i].head == h'.posted[h0.taken + i]
      {
        assert h'.posted[h0.taken + i] == h.posted[h0.taken + i];
      }
    }
  }

  /** While the drain is in order, its place in the ring is known, and so is its batch. */
  lemma {:induction false} DrainPlace(h0: History, h: History, batch: seq<Elem>, tr: seq<Handled>, num: nat)
    requires Draining(h0, h, batch, tr, num) && Sane(h0, num) && NoEmpty(tr) && num <= 0x8000
    ensures InOrder(Ahead(h, batch)) && h.taken == h0.taken + |tr| == |h.published| + |batch| <= |h.posted|
    ensures |h.posted| <= |h.published| + num
    ensures Wrap16(h.taken) != Wrap16(|h.posted|) ==> h.taken < |h.posted| && |batch| < num
  {
    ServedExact(h0, Ahead(h, batch), tr, num);
    assert |IdsOf(h.published + batch)| == h.taken;
  }

  lemma {:induction false} DrainHead(h0: History, h: History, batch: seq<Elem>, tr: seq<Handled>, num: nat)
    requires Draining(h0, h, batch, tr, num) && Sane(h0, num) && NoEmpty(tr)
    requires ValidSize(num) && |h.avail0| == num && Wrap16(h.taken) != Wrap16(|h.posted|)
    ensures num > 0 && h0.taken + |tr| < |h.posted| && HeadOf(h, num) == h.posted[h0.taken + |tr|]
  {
    SizeBound(num);
    DrainPlace(h0, h, batch, tr, num);
    HeadIs(h, num);
  }

  lemma {:induction false} OutputsNext(published: seq<Elem>, batch: seq<Elem>, before: seq<Elem>, tr: seq<Handled>,
                                       e: Handled)
    requires published + batch == before + Outputs(tr)
    ensures published + (batch + e.out) == before + Outputs(tr + [e])
  {
    TraceNext(tr, e);
    assert published + (batch + e.out) == (published + batch) + e.out;
    assert before + (Outputs(tr) + e.out) == (before + Outputs(tr)) + e.out;
  }

  lemma {:induction false} FollowsNextHead(h0: History, h: History, batch: seq<Elem>, tr: seq<Handled>, num: nat,
                                           e: Handled)
    requires Draining(h0, h, batch, tr, num) && Sane(h0, num) && ValidSize(num) && |h.avail0| == num > 0
    requires e.head == HeadOf(h, num) && Wrap16(h.taken) != Wrap16(|h.posted|)
    ensures Follows(h0, h.posted, tr + [e])
  {
    if NoEmpty(tr) { DrainHead(h0, h, batch, tr, num); }
    FollowsNext(h0, h.posted, tr, e);
  }

  /** What the driver has outstanding does not change by a request, held back or not. */
  lemma {:induction false} OutstandingNext(h0: History, h: History, batch: seq<Elem>, tr: seq<Handled>, num: nat,
                                           e: Handled)
    requires Draining(h0, h, batch, tr, num) && Sane(h0, num) && ValidSize(num) && Sound(e)
    requires Wrap16(h.taken) != Wrap16(|h.posted|) && NoEmpty(tr) && e.ret != 0
    ensures Outstanding(h, num) && Outstanding(Ahead(h, batch + e.out), num)
  {
    SizeBound(num);
    DrainPlace(h0, h, batch, tr, num);
  }

  /** One more request, read from a ring that did not look empty. */
  lemma {:induction false} DrainNext(h0: History, h: History, batch: seq<Elem>, tr: seq<Handled>, num: nat, e: Handled)
    requires Draining(h0, h, batch, tr, num) && Sound(e) && ValidSize(num) && |h.avail0| == num > 0
    requires e.head == HeadOf(h, num) && Wrap16(h.taken) != Wrap16(|h.posted|)
    ensures Draining(h0, h.(taken := h.taken + e.adv), batch + e.out, tr + [e], num)
  {
    TraceNext(tr, e);
    SoundConcat(tr, [e]);
    OutputsNext(h.published, batch, h0.published, tr, e);
    if Sane(h0, num) {
      FollowsNextHead(h0, h, batch, tr, num, e);
      if NoEmpty(tr + [e]) { OutstandingNext(h0, h, batch, tr, num, e); }
    }
  }

  /** The batch is published. */
  lemma {:induction false} DrainPublish(h0: History, h: History, batch: seq<Elem>, tr: seq<Handled>, num: nat)
    requires Draining(h0, h, batch, tr, num)
    ensures Draining(h0, Ahead(h, batch), [], tr, num)
  {
    assert Ahead(Ahead(h, batch), []) == Ahead(h, batch);
  }

  /** A request that is completed at once. */
  lemma {:induction false} DrainNextNow(h0: History, h: History, tr: seq<Handled>, num: nat, e: Handled)
    requires Draining(h0, h, [], tr, num) && Sound(e) && ValidSize(num) && |h.avail0| == num > 0
    requires e.head == HeadOf(h, num) && Wrap16(h.taken) != Wrap16(|h.posted|)
    ensures Draining(h0, h.(taken := h.taken + e.adv, published := h.published + e.out), [], tr + [e], num)
  {
    DrainNext(h0, h, [], tr, num, e);
    assert [] + e.out == e.out;
    DrainPublish(h0, h.(taken := h.taken + e.adv), e.out, tr + [e], num);
  }

  lemma {:induction false} DrainConcat(h0: History, m: History, h: History, batch: seq<Elem>, a: seq<Handled>,
                                       b: seq<Handled>, num: nat)
    requires Draining(h0, m, [], a, num) && Draining(m, h, batch, b, num)
    ensures Draining(h0, h, batch, a + b, num)
    ensures NoEmpty(a + b) <==> NoEmpty(a) && NoEmpty(b)
    ensures Sane(h0, num) && NoEmpty(a) ==> Sane(m, num)
  {
    assert Ahead(m, []) == m;
    ServedConcat(h0, m, Ahead(h, batch), a, b, num);
    NoEmptyConcat(a, b);
    if Sane(h0, num) && NoEmpty(a) { ServedExact(h0, m, a, num); }
  }

  /** A drain with nothing held back that finds the queue empty has completed every entry the
      driver has ever made available, once, in order and under its id. */
  lemma {:induction false} DrainEnds(h0: History, h: History, tr: seq<Handled>, num: nat)
    requires Draining(h0, h, [], tr, num) && num <= 0x8000
    ensures Served(h0, h, tr, num)
    ensures Sane(h0, num) && NoEmpty(tr) && Wrap16(h.taken) == Wrap16(|h.posted|) ==> IdsOf(h.published) == h.posted
  {
    assert Ahead(h, []) == h;
    if Sane(h0, num) && NoEmpty(tr) && Wrap16(h.taken) == Wrap16(|h.posted|) {
      DrainPlace(h0, h, [], tr, num);
      EmptyMeansDone(h, num);
    }
  }

  /** A queue that has just been set up is in order. */
  lemma {:induction false} FreshQueue(q: VirtQueue)
    requires q.Valid() && q.availIdx == q.lastAvail == q.usedIdx == 0
    ensures var h := History(q.avail[..], q.used[..], [], 0, []); Tracks(q, h) && Sane(h, q.num)
  {}

  // ------------------------------------------------------------------ the driver

  /** The driver adds one entry: it fills the slot and then moves its index. */
  method DriverAdd(q: VirtQueue, head: u16, ghost h: History) returns (ghost h': History)
    requires Tracks(q, h)
    modifies q`availIdx, q.avail
    ensures h' == h.(posted := h.posted + [head]) && Tracks(q, h')
  {
    PostedNext(h.avail0, q.num, h.posted, head);
    SlotWrap(|h.posted|, q.num);
    WrapNext(|h.posted|);
    q.avail[Slot(q.availIdx, q.num)] := head;
    q.availIdx := Wrap16(q.availIdx + 1);
    h' := h.(posted := h.posted + [head]);
  }

  /** How many more entries a driver may add, by the indices it sees. */
  function Free(h: History, num: nat): nat {
    var seen := Wrap16(Wrap16(|h.posted|) - Wrap16(|h.published|));
    if seen < num then num - seen else 0
  }

  /** The history after a driver that wants to add `want` has run. */
  function Grown(h: History, want: seq<u16>, num: nat): History {
    h.(posted := h.posted + want[..Min(|want|, Free(h, num))])
  }

  lemma {:induction false} FreeNext(h: History, num: nat, head: u16)
    requires num <= 0x8000 && Free(h, num) > 0
    ensures Free(h.(posted := h.posted + [head]), num) == Free(h, num) - 1
  {
    WrapDiff(|h.posted|, |h.published|);
    WrapDiff(|h.posted + [head]|, |h.published|);
    WrapStep(|h.posted| - |h.published|);
  }

  /** `now` is `h` after the first `i` entries of `want` were added. */
  predicate Adding(h: History, now: History, want: seq<u16>, i: nat, num: nat) {
    && i <= |want| && now == h.(posted := h.posted + want[..i])
    && i <= Free(h, num) && Free(now, num) == Free(h, num) - i
  }

  lemma {:induction false} AddingBegins(h: History, want: seq<u16>, num: nat)
    ensures Adding(h, h, want, 0, num)
  {
    assert h.posted + want[..0] == h.posted;
  }

  lemma {:induction false} AddingNext(h: History, now: History, want: seq<u16>, i: nat, num: nat)
    requires Adding(h, now, want, i, num) && i < |want| && Free(now, num) > 0 && num <= 0x8000
    ensures Adding(h, now.(posted := now.posted + [want[i]]), want, i + 1, num)
  {
    FreeNext(now, num, want[i]);
    assert want[..i] + [want[i]] == want[..i + 1];
    assert h.posted + want[..i] + [want[i]] == h.posted + (want[..i] + [want[i]]);
  }

  lemma {:induction false} AddingEnds(h: History, now: History, want: seq<u16>, i: nat, num: nat)
    requires Adding(h, now, want, i, num) && (i == |want| || Free(now, num) == 0)
    ensures now == Grown(h, want, num)
  {}

  /** A driver keeps at most `num` entries outstanding. */
  lemma {:induction false} GrownKeeps(h: History, want: seq<u16>, num: nat)
    requires Outstanding(h, num) && num <= 0x8000
    ensures Outstanding(Grown(h, want, num), num)
  {
    WrapDiff(|h.posted|, |h.published|);
  }

  lemma {:induction false} UsedIndex(q: VirtQueue, h: History)
    requires Tracks(q, h)
    ensures q.usedIdx == Wrap16(|h.published|)
  {
    PutAllIndex(Used(h.used0, 0), q.num, h.published);
  }

  /** One entry, if the driver sees room for it. */
  method DriverTry(q: VirtQueue, head: u16, ghost h: History) returns (added: bool, ghost h': History)
    requires Tracks(q, h)
    modifies q`availIdx, q.avail
    ensures added <==> Free(h, q.num) > 0
    ensures Tracks(q, h') && h' == if added then h.(posted := h.posted + [head]) else h
  {
    UsedIndex(q, h);
    if Wrap16(q.availIdx - q.usedIdx) >= q.num { return false, h; }
    h' := DriverAdd(q, head, h);
    added := true;
  }

  /** What a driver that wants to add the entries `want` does whenever it runs: it adds them as
      long as fewer than `num` are outstanding by the indices it sees. */
  method Driver(q: VirtQueue, want: seq<u16>, ghost h: History) returns (ghost h': History)
    requires Tracks(q, h)
    modifies q`availIdx, q.avail
    ensures Tracks(q, h') && h' == Grown(h, want, q.num)
  {
    SizeBound(q.num);
    h' := h;
    AddingBegins(h, want, q.num);
    var i := 0;
    while i < |want|
      invariant 0 <= i <= |want| && Tracks(q, h') && Adding(h, h', want, i, q.num)
    {
      ghost var now := h';
      var added;
      added, h' := DriverTry(q, want[i], h');
      if !added { break; }
      AddingNext(h, now, want, i, q.num);
      i := i + 1;
    }
    AddingEnds(h, h', want, i, q.num);
  }
}
