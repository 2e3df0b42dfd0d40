/** Suppression of queue notifications (virtqueue_disable_notify and
    virtqueue_enable_notify in tools/virtio/virtio.c) around the drain loops of
    the devices, against an interleaved driver (section 2.7.10 of VirtIO 1.2).

    The device's stores to the notification word go through a store buffer. The
    word is the NO_NOTIFY flag (1 suppresses) or, with the event index, the
    available index at which the driver shall kick. Available entries are
    counted without bound; the rings hold the counts modulo 2^16. */
module Notification {
  import opened Runs
  import opened Words

  /** `recheck`: the device looks at the queue again after enabling notifications. `drains`: the
      barrier that ends virtqueue_enable_notify also orders the store before later loads.
      `testFirst`: an empty queue is left alone without touching the notification word. `look`:
      before it waits the device takes a lock, which drains its stores, and looks once more.
      `size` is the queue size. */
  datatype Config = Config(eventIdx: bool, recheck: bool, drains: bool, testFirst: bool, look: bool, size: nat)

  /** virtio-blk: the worker tests the queue under its mutex before every condition wait. */
  function Blk(eventIdx: bool, drains: bool, size: nat): Config { Config(eventIdx, true, drains, true, true, size) }

  function NetTransmit(eventIdx: bool, drains: bool, size: nat): Config {
    Config(eventIdx, true, drains, false, false, size)
  }

  /** virtio-scmi and virtio-console transmit: the outer loop is the second look. */
  function Looped(eventIdx: bool, drains: bool, size: nat): Config { Config(eventIdx, true, drains, true, false, size) }

  function GpuControl(eventIdx: bool, drains: bool, size: nat): Config {
    Config(eventIdx, false, drains, false, false, size)
  }

  predicate ValidConfig(c: Config) { 0 < c.size <= 0x8000 }

  /** The device. `Waiting` is where only a kick (or a spurious wakeup) makes it look again. */
  datatype Pc = Waiting | Entry | Disable | Test | Handle | EnableLoad | EnableStore | Barrier | Recheck | Lock | Look

  datatype State = State(
    pc: Pc, consumed: nat, armed: nat, buffer: seq<u16>, // device: last_avail_idx, the loaded index, pending stores
    word: u16,                                           // notification word in memory
    avail: nat, checked: nat,                            // driver: entries available; those covered by its last check
    kick: bool)                                          // a kick has been sent and not been served

  /** `Stop` is a drain loop left before the queue is empty (scmi on an error). */
  datatype Step = Device | Stop | Drain | Spurious | Deliver | Add | CheckKick

  predicate Empty(s: State) { Wrap16(s.avail) == Wrap16(s.consumed) }

  function Suppress(c: Config, s: State): u16 {
    if c.eventIdx then Wrap16(s.consumed - 1) else 1
  }

  function Allow(c: Config, s: State): u16 {
    if c.eventIdx then Wrap16(s.armed) else 0
  }

  /** Where the device goes when it has found nothing to do. */
  function Rest(c: Config): Pc { if c.look then Lock else Waiting }

  function DeviceStep(c: Config, s: State): Option<State> {
    match s.pc
    case Waiting => None
    case Entry => Some(s.(pc := if c.testFirst && Empty(s) then Rest(c) else Disable))
    case Disable => Some(s.(pc := Test, buffer := s.buffer + [Suppress(c, s)]))
    case Test => Some(s.(pc := if Empty(s) then EnableLoad else Handle))
    case Handle => Some(s.(pc := Test, consumed := s.consumed + 1))
    case EnableLoad => Some(s.(pc := EnableStore, armed := s.avail))
    case EnableStore => Some(s.(pc := Barrier, buffer := s.buffer + [Allow(c, s)]))
    case Barrier =>
      if c.drains && s.buffer != [] then None
      else Some(s.(pc := if c.recheck then Recheck else Rest(c)))
    case Recheck => Some(s.(pc := if Empty(s) then Rest(c) else Disable))
    case Lock => if s.buffer != [] then None else Some(s.(pc := Look))
    case Look => Some(s.(pc := if Empty(s) then Waiting else Entry))
  }

  /** The driver's decision after adding the entries from `checked` to `avail`. */
  predicate WantsKick(c: Config, s: State) {
    if c.eventIdx then NeedEvent(s.word, Wrap16(s.avail), Wrap16(s.checked)) else s.word == 0
  }

  function StepOf(c: Config, s: State, step: Step): Option<State> {
    match step
    case Device => DeviceStep(c, s)
    case Stop => if s.pc == Test then Some(s.(pc := EnableLoad)) else None
    case Drain => if s.buffer == [] then None else Some(s.(word := s.buffer[0], buffer := s.buffer[1..]))
    case Spurious => if s.pc == Waiting then Some(s.(pc := Entry)) else None
    case Deliver => if s.pc == Waiting && s.kick then Some(s.(pc := Entry, kick := false)) else None
    // at most `size` entries outstanding, and a check at the latest before the index comes round
    case Add =>
      if s.avail < s.consumed + c.size && s.avail + 1 < s.checked + TWO16 then Some(s.(avail := s.avail + 1)) else None
    case CheckKick =>
      if s.checked < s.avail then Some(s.(checked := s.avail, kick := s.kick || WantsKick(c, s))) else None
  }

  function System(c: Config): (State, Step) -> Option<State> {
    (s, step) => StepOf(c, s, step)
  }

  const INIT: State := State(Waiting, 0, 0, [], 0, 0, 0, false)

  /** A device that waits has nothing to do, or a kick is on its way, or the driver has still
      to check and will decide to kick. */
  predicate NoLostKick(c: Config, s: State) {
    s.pc == Waiting && s.avail != s.consumed ==> s.kick || (s.checked < s.avail && WantsKick(c, s))
  }

  ghost predicate NeverLoses(c: Config) {
    forall t :: Reach(System(c), INIT, t) ==> NoLostKick(c, t)
  }

  // ------------------------------------------------------------------ invariant

  /** The value the notification word will have when the buffer is empty. */
  function Seen(s: State): u16 { if s.buffer == [] then s.word else s.buffer[|s.buffer| - 1] }

  predicate Bounds(c: Config, s: State) {
    s.consumed <= s.avail <= s.consumed + c.size && s.checked <= s.avail < s.checked + TWO16
  }

  /** The device looks again after its stores are in memory. */
  predicate Careful(c: Config) { c.look || (c.recheck && c.drains) }

  predicate Inv(c: Config, s: State) {
    && Bounds(c, s)
    && (s.pc == Handle ==> s.consumed < s.avail)
    && (s.pc !in {Disable, Test, Handle, EnableLoad} ==> s.consumed <= s.armed <= s.avail)
    && (s.pc in {Barrier, Recheck, Lock} ==> Seen(s) == Allow(c, s))
    && (s.pc == Recheck && c.drains ==> s.buffer == [])
    && (s.pc == Lock ==> c.look)
    && (s.pc in {Look, Waiting, Entry} ==> s.buffer == [] && s.word == Allow(c, s))
    && (s.pc == Waiting ==> s.armed == s.consumed && (s.kick || s.avail == s.consumed || s.checked <= s.consumed))
  }

  lemma {:induction false} EmptyExact(c: Config, s: State)
    requires ValidConfig(c) && Bounds(c, s)
    ensures Empty(s) <==> s.avail == s.consumed
  {
    WrapInjective(s.consumed, s.avail);
  }

  lemma {:induction false} DrainKeeps(c: Config, s: State)
    requires ValidConfig(c) && Careful(c) && Inv(c, s) && DeviceStep(c, s).Some?
    requires s.pc in {Entry, Disable, Test, Handle, EnableLoad, EnableStore}
    ensures Inv(c, DeviceStep(c, s).value)
  {
    EmptyExact(c, s);
    match s.pc
    case Entry =>
    case Disable =>
    case Test =>
    case Handle =>
    case EnableLoad =>
    case EnableStore =>
  }

  lemma {:induction false} RestKeeps(c: Config, s: State)
    requires ValidConfig(c) && Careful(c) && Inv(c, s) && DeviceStep(c, s).Some?
    requires s.pc in {Barrier, Recheck, Lock, Look}
    ensures Inv(c, DeviceStep(c, s).value)
  {
    EmptyExact(c, s);
    match s.pc
    case Barrier =>
    case Recheck =>
    case Lock =>
    case Look =>
  }

  lemma {:induction false} DeviceKeeps(c: Config, s: State)
    requires ValidConfig(c) && Careful(c) && Inv(c, s) && DeviceStep(c, s).Some?
    ensures Inv(c, DeviceStep(c, s).value)
  {
    if s.pc in {Barrier, Recheck, Lock, Look} { RestKeeps(c, s); } else { DrainKeeps(c, s); }
  }

  /** With the event armed at the consumed count, a driver that added beyond it decides to kick. */
  lemma {:induction false} ArmedKicks(c: Config, s: State)
    requires Bounds(c, s) && s.checked <= s.consumed < s.avail
    requires s.word == if c.eventIdx then Wrap16(s.consumed) else 0
    ensures WantsKick(c, s)
  {
    if c.eventIdx {
      NeedEventExact(s.word, s.avail, s.checked);
      assert s.checked <= s.consumed < s.avail && Wrap16(s.consumed) == s.word;
    }
  }

  lemma {:induction false} StepKeeps(c: Config, s: State, step: Step)
    requires ValidConfig(c) && Careful(c) && Inv(c, s) && StepOf(c, s, step).Some?
    ensures Inv(c, StepOf(c, s, step).value)
  {
    match step
    case Device => DeviceKeeps(c, s);
    case CheckKick =>
      if s.pc == Waiting && !s.kick && s.avail != s.consumed { ArmedKicks(c, s); }
    case _ =>
  }

  /** Flag and event index alike: a device that looks again behind a draining barrier or lock
      never misses an entry. */
  lemma {:induction false} NeverLosesKick(c: Config)
    requires ValidConfig(c) && Careful(c)
    ensures NeverLoses(c)
  {
    var sys := System(c);
    var inv := s => Inv(c, s);
    forall t, step | inv(t) && sys(t, step).Some? ensures inv(sys(t, step).value) {
      StepKeeps(c, t, step);
    }
    forall t | Reach(sys, INIT, t) ensures NoLostKick(c, t) {
      var run: seq<Step> :| Exec(sys, INIT, run) == Some(t);
      Invariant(sys, inv, INIT, run);
      if t.pc == Waiting && t.avail != t.consumed && !t.kick { ArmedKicks(c, t); }
    }
  }

  // ------------------------------------------------------------------ what goes wrong otherwise

  lemma {:induction false} Go(c: Config, s: State, step: Step) returns (t: State)
    requires Reach(System(c), INIT, s) && StepOf(c, s, step).Some?
    ensures t == StepOf(c, s, step).value && Reach(System(c), INIT, t)
  {
    ReachStep(System(c), INIT, s, step);
    t := StepOf(c, s, step).value;
  }

  /** The first entry is kicked, and the device starts to drain with notifications suppressed. */
  lemma {:induction false} FirstEntry(c: Config) returns (t: State)
    requires ValidConfig(c)
    ensures Reach(System(c), INIT, t)
    ensures t == State(Test, 0, 0, [], if c.eventIdx then 0xFFFF else 1, 1, 1, false)
  {
    ReachSelf<State, Step>(System(c), INIT);
    var s1 := Go(c, INIT, Add);
    NeedEventExact(0, 1, 0);
    assert Wrap16(0) == 0;
    var s2 := Go(c, s1, CheckKick);
    assert s2.kick;
    var s3 := Go(c, s2, Deliver);
    var s4 := Go(c, s3, Device);
    assert s4.pc == Disable;
    var s5 := Go(c, s4, Device);
    assert s5.buffer == [if c.eventIdx then 0xFFFF else 1];
    t := Go(c, s5, Drain);
    assert t.buffer == [];
  }

  /** The entry is consumed; the device is about to publish that it wants kicks again. */
  lemma {:induction false} DrainedOnce(c: Config) returns (t: State)
    requires ValidConfig(c)
    ensures Reach(System(c), INIT, t)
    ensures t == State(EnableStore, 1, 1, [], if c.eventIdx then 0xFFFF else 1, 1, 1, false)
  {
    var s6 := FirstEntry(c);
    var s7 := Go(c, s6, Device);
    var s8 := Go(c, s7, Device);
    var s9 := Go(c, s8, Device);
    t := Go(c, s9, Device);
  }

  /** The driver adds an entry and, notifications being suppressed, does not kick. */
  lemma {:induction false} AddsSilently(c: Config, s: State) returns (t: State)
    requires ValidConfig(c) && Reach(System(c), INIT, s)
    requires s.consumed == s.avail == s.checked == 1 && s.word == (if c.eventIdx then 0xFFFF else 1) && !s.kick
    ensures Reach(System(c), INIT, t)
    ensures t == s.(avail := 2, checked := 2)
  {
    var s1 := Go(c, s, Add);
    assert !WantsKick(c, s1);
    t := Go(c, s1, CheckKick);
  }

  /** No recheck: an entry added between the last look and the enabling is missed, under any
      memory order. */
  lemma {:induction false} RecheckNeeded(c: Config)
    requires ValidConfig(c) && !c.recheck && !c.look
    ensures !NeverLoses(c)
  {
    var s1 := DrainedOnce(c);
    var s2 := AddsSilently(c, s1);
    var s3 := Go(c, s2, Device);
    var s4 := Go(c, s3, Drain);
    var s5 := Go(c, s4, Device);
    assert !NoLostKick(c, s5);
  }

  /** A barrier that only orders stores: the recheck may read the queue before the driver can
      see that kicks are wanted. */
  lemma {:induction false} DrainNeeded(c: Config)
    requires ValidConfig(c) && c.recheck && !c.drains && !c.look
    ensures !NeverLoses(c)
  {
    var s1 := DrainedOnce(c);
    var s2 := Go(c, s1, Device);
    var s3 := Go(c, s2, Device);
    var s4 := Go(c, s3, Device);
    assert s4.pc == Waiting && s4.consumed == 1 && s4.avail == 1;
    var s5 := AddsSilently(c, s4);
    assert !NoLostKick(c, s5);
  }

  /** No kick is ever lost exactly when the device looks again after enabling, behind a barrier
      that orders the store before the load or behind a lock; for the flag and for the event
      index. */
  lemma {:induction false} KickExact(c: Config)
    requires ValidConfig(c)
    ensures NeverLoses(c) <==> c.look || (c.recheck && c.drains)
  {
    if Careful(c) { NeverLosesKick(c); }
    else if !c.recheck { RecheckNeeded(c); }
    else { DrainNeeded(c); }
  }

  /** Device by device: blk never loses a kick, whatever the barrier does; net transmit, scmi and
      console transmit never do exactly if the barrier drains; the GPU control queue can. */
  lemma {:induction false} DevicesExact(eventIdx: bool, drains: bool, size: nat)
    requires 0 < size <= 0x8000
    ensures NeverLoses(Blk(eventIdx, drains, size))
    ensures NeverLoses(NetTransmit(eventIdx, drains, size)) <==> drains
    ensures NeverLoses(Looped(eventIdx, drains, size)) <==> drains
    ensures !NeverLoses(GpuControl(eventIdx, drains, size))
  {
    KickExact(Blk(eventIdx, drains, size));
    KickExact(NetTransmit(eventIdx, drains, size));
    KickExact(Looped(eventIdx, drains, size));
    KickExact(GpuControl(eventIdx, drains, size));
  }

  // ------------------------------------------------------------------ the drain ends

  /** A bound on the steps from a location to the next entry handled or to the wait. */
  function Distance(pc: Pc, idle: bool): nat {
    match pc
    case Waiting => 0
    case Look => if idle then 1 else 5
    case Lock => if idle then 2 else 6
    case Recheck => if idle then 3 else 4
    case Barrier => if idle then 4 else 7
    case EnableStore => if idle then 6 else 9
    case EnableLoad => if idle then 7 else 10
    case Test => if idle then 8 else 1
    case Handle => 0
    case Disable => if idle then 10 else 3
    case Entry => if idle then 11 else 4
  }

  /** And to the wait with nothing left. */
  function Work(s: State): int {
    (s.avail - s.consumed) * 20 + |s.buffer| + Distance(s.pc, s.avail == s.consumed)
  }

  /** A device at work: when it comes to wait, nothing is left. */
  predicate Busy(c: Config, s: State) { Inv(c, s) && (s.pc == Waiting ==> s.consumed == s.avail) }

  lemma {:induction false} WorkFalls(c: Config, s: State)
    requires Careful(c) && DeviceStep(c, s).Some? && s.consumed <= s.avail && (Empty(s) <==> s.avail == s.consumed)
    requires s.pc == Handle ==> s.consumed < s.avail
    ensures var t := DeviceStep(c, s).value;
            Work(t) < Work(s) && t.avail == s.avail && (t.pc == Waiting ==> t.consumed == t.avail)
  {
    match s.pc
    case Entry =>
    case Handle =>
    case Recheck =>
    case _ =>
  }

  lemma {:induction false} BusyDevice(c: Config, s: State)
    requires ValidConfig(c) && Careful(c) && Busy(c, s) && DeviceStep(c, s).Some?
    ensures var t := DeviceStep(c, s).value; Busy(c, t) && Work(t) < Work(s) && t.avail == s.avail
  {
    DeviceKeeps(c, s);
    EmptyExact(c, s);
    WorkFalls(c, s);
  }

  lemma {:induction false} BusyDrain(c: Config, s: State)
    requires ValidConfig(c) && Careful(c) && Busy(c, s) && StepOf(c, s, Drain).Some?
    ensures var t := StepOf(c, s, Drain).value; Busy(c, t) && Work(t) < Work(s) && t.avail == s.avail
  {
    StepKeeps(c, s, Drain);
  }

  /** A device that looks again handles everything: with no new entry, in any order of its steps
      and of its stores reaching memory, a device that has been woken comes to wait within a
      bound, and then it has consumed every entry available and wants to be notified. */
  lemma {:induction false} EverythingConsumed(c: Config, s: State, run: seq<Step>)
    requires ValidConfig(c) && Careful(c) && Busy(c, s) && Exec(System(c), s, run).Some?
    requires forall i :: 0 <= i < |run| ==> run[i] == Device || run[i] == Drain
    ensures var t := Exec(System(c), s, run).value;
            && |run| + Work(t) <= Work(s) && t.avail == s.avail
            && (StepOf(c, t, Device).None? && StepOf(c, t, Drain).None? ==>
                  && t.pc == Waiting && t.consumed == s.avail && t.buffer == []
                  && t.word == if c.eventIdx then Wrap16(s.avail) else 0)
    decreases |run|
  {
    if run != [] {
      if run[0] == Device { BusyDevice(c, s); } else { BusyDrain(c, s); }
      EverythingConsumed(c, StepOf(c, s, run[0]).value, run[1..]);
    }
  }
}
