/** The event-index test of interrupt injection (virtio_inject_irq in
    tools/virtio/virtio.c) over a sequence of calls with a fixed used_event.
    Counts are unbounded; the code sees them modulo 2^16. */
module EventIndex {
  import opened Words

  /** The test one call makes when the used count went from `old_` to `new_`. */
  predicate Fires(event: u16, old_: nat, new_: nat) {
    Wrap16(new_) != Wrap16(old_) && NeedEvent(event, Wrap16(new_), Wrap16(old_))
  }

  /** Successive used counts at the calls, the first being the count of the last call before. */
  predicate Progress(counts: seq<nat>) {
    |counts| > 0 && forall i :: 0 < i < |counts| ==> counts[i - 1] <= counts[i] < counts[i - 1] + TWO16
  }

  /** How many of the calls pass the test. */
  function Interrupts(event: u16, counts: seq<nat>): nat
    requires |counts| > 0
  {
    if |counts| == 1 then 0
    else
      var n := |counts| - 1;
      Interrupts(event, counts[..n]) + if Fires(event, counts[n - 1], counts[n]) then 1 else 0
  }

  /** How many counts in [lo, hi) have the index `event`: how often the event was crossed. */
  function Crossings(event: u16, lo: nat, hi: nat): nat
    requires lo <= hi
    decreases hi - lo
  {
    if lo == hi then 0 else Crossings(event, lo, hi - 1) + if Wrap16(hi - 1) == event then 1 else 0
  }

  lemma {:induction false} CrossingsSplit(event: u16, lo: nat, mid: nat, hi: nat)
    requires lo <= mid <= hi
    ensures Crossings(event, lo, hi) == Crossings(event, lo, mid) + Crossings(event, mid, hi)
    decreases hi - mid
  {
    if mid < hi { CrossingsSplit(event, lo, mid, hi - 1); }
  }

  lemma {:induction false} NoCrossing(event: u16, lo: nat, hi: nat)
    requires lo <= hi
    requires forall c: int :: lo <= c < hi ==> Wrap16(c) != event
    ensures Crossings(event, lo, hi) == 0
    decreases hi - lo
  {
    if lo < hi { NoCrossing(event, lo, hi - 1); }
  }

  /** A step of fewer than 2^16 crosses an event at most once. */
  lemma {:induction false} OneCrossing(event: u16, lo: nat, hi: nat)
    requires lo <= hi < lo + TWO16
    ensures Crossings(event, lo, hi) == if exists c: int :: lo <= c < hi && Wrap16(c) == event then 1 else 0
  {
    if c: int :| lo <= c < hi && Wrap16(c) == event {
      forall d: int | lo <= d < hi && d != c ensures Wrap16(d) != event {
        if d < c { WrapInjective(d, c); } else { WrapInjective(c, d); }
      }
      NoCrossing(event, lo, c);
      NoCrossing(event, c + 1, hi);
      CrossingsSplit(event, lo, c + 1, hi);
    } else {
      NoCrossing(event, lo, hi);
    }
  }

  /** One call fires exactly when the event was crossed since the call before. */
  lemma {:induction false} FiresExact(event: u16, old_: nat, new_: nat)
    requires old_ <= new_ < old_ + TWO16
    ensures Crossings(event, old_, new_) == if Fires(event, old_, new_) then 1 else 0
  {
    OneCrossing(event, old_, new_);
    NeedEventExact(event, new_, old_);
    WrapInjective(old_, new_);
  }

  /** Any sequence of calls interrupts exactly once per crossing: the intervals between calls
      tile the progress without gap or overlap, across any number of index wraps. */
  lemma {:induction false} OncePerCrossing(event: u16, counts: seq<nat>)
    requires Progress(counts)
    ensures counts[0] <= counts[|counts| - 1]
    ensures Interrupts(event, counts) == Crossings(event, counts[0], counts[|counts| - 1])
  {
    CrossingsAccounted(event, counts);
  }

  /** With total progress of at most 2^16: one interrupt if the event was crossed, else none. */
  lemma {:induction false} AtMostOnce(event: u16, counts: seq<nat>)
    requires Progress(counts) && counts[|counts| - 1] <= counts[0] + TWO16
    ensures Interrupts(event, counts) <= 1
    ensures Interrupts(event, counts) == 1 <==>
              exists c: int :: counts[0] <= c < counts[|counts| - 1] && Wrap16(c) == event
  {
    OncePerCrossing(event, counts);
    var lo, hi := counts[0], counts[|counts| - 1];
    if hi < lo + TWO16 {
      OneCrossing(event, lo, hi);
    } else {
      OneCrossing(event, lo, hi - 1);
      WrapOnce(event, lo, hi);
    }
  }

  /** A full turn of the index crosses every event exactly once. */
  lemma {:induction false} WrapOnce(event: u16, lo: nat, hi: nat)
    requires hi == lo + TWO16
    ensures Crossings(event, lo, hi) == 1
    ensures exists c: int :: lo <= c < hi && Wrap16(c) == event
  {
    NewestBelow(event, hi);
    var c := hi - 1 - Wrap16(Wrap16(hi) - event - 1);
    assert lo <= c < hi && Wrap16(c) == event;
    if c == hi - 1 {
      if d: int :| lo <= d < hi - 1 && Wrap16(d) == event { WrapInjective(d, hi - 1); }
      OneCrossing(event, lo, hi - 1);
    } else {
      WrapInjective(c, hi - 1);
      OneCrossing(event, lo, hi - 1);
    }
  }

  /** The bound on one call is needed and exact: a call after a full turn of the index takes
      it for no progress at all and stays silent, whatever the event. */
  lemma {:induction false} FullTurnIsSilent(event: u16, old_: nat, new_: nat)
    requires new_ == old_ + TWO16
    ensures !Fires(event, old_, new_) && Crossings(event, old_, new_) == 1
  {
    ModShift(old_, 1);
    WrapOnce(event, old_, new_);
  }

  /** Any calls that do not go back, each at most one full turn after the one before. */
  predicate Advances(counts: seq<nat>) {
    |counts| > 0 && forall i :: 0 < i < |counts| ==> counts[i - 1] <= counts[i] <= counts[i - 1] + TWO16
  }

  /** How many calls come exactly one full turn after the one before. */
  function Turns(counts: seq<nat>): nat
    requires |counts| > 0
  {
    if |counts| == 1 then 0
    else Turns(counts[..|counts| - 1]) + if counts[|counts| - 1] == counts[|counts| - 2] + TWO16 then 1 else 0
  }

  /** Every crossing is an interrupt or lies in a full turn that the code cannot see. */
  lemma {:induction false} CrossingsAccounted(event: u16, counts: seq<nat>)
    requires Advances(counts)
    ensures counts[0] <= counts[|counts| - 1]
    ensures Interrupts(event, counts) + Turns(counts) == Crossings(event, counts[0], counts[|counts| - 1])
    ensures Turns(counts) == 0 <==> Progress(counts)
    decreases |counts|
  {
    if |counts| > 1 {
      var n := |counts| - 1;
      var before := counts[..n];
      CrossingsAccounted(event, before);
      if counts[n] == counts[n - 1] + TWO16 {
        FullTurnIsSilent(event, counts[n - 1], counts[n]);
      } else {
        FiresExact(event, counts[n - 1], counts[n]);
      }
      CrossingsSplit(event, counts[0], counts[n - 1], counts[n]);
      TurnsLast(counts);
    }
  }

  lemma {:induction false} TurnsLast(counts: seq<nat>)
    requires Advances(counts) && |counts| > 1
    ensures Progress(counts) <==>
              Progress(counts[..|counts| - 1]) && counts[|counts| - 1] != counts[|counts| - 2] + TWO16
  {
    var before := counts[..|counts| - 1];
    assert forall i :: 0 <= i < |before| ==> before[i] == counts[i];
  }

  /** With any progress in steps of at most 2^16, there is one interrupt per crossing exactly
      when no call comes a full turn after the one before. */
  lemma {:induction false} OncePerCrossingExact(event: u16, counts: seq<nat>)
    requires Advances(counts)
    ensures counts[0] <= counts[|counts| - 1]
    ensures Interrupts(event, counts) == Crossings(event, counts[0], counts[|counts| - 1])
            <==> forall i :: 0 < i < |counts| ==> counts[i] != counts[i - 1] + TWO16
  {
    CrossingsAccounted(event, counts);
  }
}
