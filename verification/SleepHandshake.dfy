/** The sleep handshake of the request bridge (consume_pending_requests and
    handle_virtio_requests in tools/virtio/virtio.c) on a memory with store
    buffers (total store order): the daemon thread, any number of hypervisor
    CPUs that fill the request ring, the wakeup interrupt and the eventfd, all
    interleaved at the level of single memory accesses.

    A store enters the buffer of its thread and reaches memory later, in order;
    a load reads the own buffer first; a full fence waits for the own buffer to
    be empty. Sequential consistency is the special case in which every buffer
    is flushed at once. `Fences` says which side executes its full fence; the
    code has the daemon's fence and assumes the hypervisor's.
 */
module SleepHandshake {
  import opened Runs
  import opened BridgeRing

  const MAX_POLL_COUNT: nat := 10000000

  datatype Fences = Fences(consumer: bool, producer: bool)

  /** Where the daemon thread stands. `Entry` is the entry of the event loop on
      architectures other than LoongArch; LoongArch enters at `LoadFront`. */
  datatype Pc =
    | Entry | LoadFront | ClearFlag | Poll | Consume | StoreFront
    | SetFlag | Fence | Recheck | ClearAgain | Sleep

  datatype Store = FlagStore(on: bool) | FrontStore(front: nat)

  datatype ProducerPc = Idle | Writing | Published | Signalling

  /** A hypervisor CPU; `pending` is its rear-index store while still buffered. */
  datatype Producer = Producer(pc: ProducerPc, pending: Option<nat>)

  datatype State = State(
    pc: Pc, front: nat, polls: nat, buffer: seq<Store>,   // daemon thread
    memFront: nat, memRear: nat, memFlag: bool,           // shared bridge page
    producers: seq<Producer>,
    irq: bool, eventfd: nat)

  /** `Daemon` runs the daemon's next access; `Drain` flushes its oldest buffered store. */
  datatype Step =
    | Daemon | Drain
    | Write(cpu: nat) | Publish(cpu: nat) | Flush(cpu: nat) | Check(cpu: nat) | Signal(cpu: nat)
    | Interrupt

  /** The value the daemon's own loads see for the shared front index. */
  function SeenFront(front: nat, buffer: seq<Store>): nat
    decreases buffer
  {
    if buffer == [] then front
    else SeenFront(if buffer[0].FrontStore? then buffer[0].front else front, buffer[1..])
  }

  function DaemonStep(f: Fences, s: State): Option<State> {
    match s.pc
    case Entry => Some(s.(pc := Sleep, buffer := s.buffer + [FlagStore(true)]))
    case LoadFront => Some(s.(pc := ClearFlag, front := SeenFront(s.memFront, s.buffer), polls := 0))
    case ClearFlag => Some(s.(pc := Poll, buffer := s.buffer + [FlagStore(false)]))
    case Poll =>
      if s.front != s.memRear then Some(s.(pc := Consume, polls := 0))
      else if s.polls + 1 < MAX_POLL_COUNT then Some(s.(polls := s.polls + 1))
      else Some(s.(pc := SetFlag, polls := 0))
    case Consume => Some(s.(pc := StoreFront, front := Next(s.front)))
    case StoreFront => Some(s.(pc := Poll, buffer := s.buffer + [FrontStore(s.front)]))
    case SetFlag => Some(s.(pc := Fence, buffer := s.buffer + [FlagStore(true)]))
    case Fence => if f.consumer && s.buffer != [] then None else Some(s.(pc := Recheck))
    case Recheck => Some(s.(pc := if s.front == s.memRear then Sleep else ClearAgain))
    case ClearAgain => Some(s.(pc := Poll, buffer := s.buffer + [FlagStore(false)]))
    // epoll_wait returns because of the eventfd, and reading it clears the counter
    case Sleep => if s.eventfd == 0 then None else Some(s.(pc := LoadFront, eventfd := 0))
  }

  function DrainStep(s: State): Option<State> {
    if s.buffer == [] then None
    else match s.buffer[0]
      case FlagStore(on) => Some(s.(buffer := s.buffer[1..], memFlag := on))
      case FrontStore(front) => Some(s.(buffer := s.buffer[1..], memFront := front))
  }

  /** The ring lock is held until the new rear index is in memory. */
  predicate HoldsLock(p: Producer) {
    p.pc == Writing || p.pending.Some?
  }

  predicate LockFree(s: State) {
    forall p :: p in s.producers ==> !HoldsLock(p)
  }

  function WithProducer(s: State, cpu: nat, p: Producer): State
    requires cpu < |s.producers|
  {
    s.(producers := s.producers[cpu := p])
  }

  function ProducerStep(f: Fences, s: State, step: Step): Option<State>
    requires step.Write? || step.Publish? || step.Flush? || step.Check? || step.Signal?
  {
    if step.cpu >= |s.producers| then None
    else
      var p := s.producers[step.cpu];
      match step
      // take the ring lock, find the ring not full, write the slot
      case Write(cpu) =>
        if p.pc == Idle && LockFree(s) && Next(s.memRear) != s.memFront
        then Some(WithProducer(s, cpu, p.(pc := Writing))) else None
      case Publish(cpu) =>
        if p.pc == Writing
        then Some(WithProducer(s, cpu, Producer(Published, Some(Next(s.memRear))))) else None
      case Flush(cpu) =>
        if p.pending.Some?
        then Some(WithProducer(s, cpu, p.(pending := None)).(memRear := p.pending.value)) else None
      case Check(cpu) =>
        if p.pc == Published && (f.producer ==> p.pending == None)
        then Some(WithProducer(s, cpu, p.(pc := if s.memFlag then Signalling else Idle))) else None
      case Signal(cpu) =>
        if p.pc == Signalling
        then Some(WithProducer(s, cpu, p.(pc := Idle)).(irq := true)) else None
  }

  function StepOf(f: Fences, s: State, step: Step): Option<State> {
    match step
    case Daemon => DaemonStep(f, s)
    case Drain => DrainStep(s)
    case Interrupt => if s.irq then Some(s.(irq := false, eventfd := s.eventfd + 1)) else None
    case _ => ProducerStep(f, s, step)
  }

  function System(f: Fences): (State, Step) -> Option<State> {
    (s, step) => StepOf(f, s, step)
  }

  // ------------------------------------------------------------------ the property

  /** A signal that nothing can take back any more. */
  predicate SignalOnItsWay(s: State) {
    s.eventfd > 0 || s.irq || exists p :: p in s.producers && p.pc == Signalling
  }

  predicate SomePublished(s: State) {
    exists p :: p in s.producers && p.pc == Published
  }

  /** The daemon does not sleep on a non-empty ring unless a wakeup is on its way, or a
      CPU still has to check the flag and will find it set. */
  predicate NoLostWakeup(s: State) {
    s.pc == Sleep && s.memFront != s.memRear ==> SignalOnItsWay(s) || (s.memFlag && SomePublished(s))
  }

  /** Facts true of the machine in every start state below. */
  predicate WellFormed(s: State) {
    && s.front < MAX_REQ && s.memFront < MAX_REQ && s.memRear < MAX_REQ
    && (forall w :: w in s.buffer && w.FrontStore? ==> w.front < MAX_REQ)
    && (forall p :: p in s.producers && p.pending.Some? ==> p.pc == Published && p.pending.value == Next(s.memRear))
    && (forall i, j :: 0 <= i < j < |s.producers| ==> !(HoldsLock(s.producers[i]) && HoldsLock(s.producers[j])))
  }

  /** LoongArch: any ring, flag, producer and signal state. */
  predicate LoongArchStart(s: State) {
    s.pc == LoadFront && s.buffer == [] && WellFormed(s)
  }

  /** Other architectures: the same, entering with the unconditional store of the flag. */
  predicate OtherStart(s: State) {
    s.pc == Entry && s.buffer == [] && s.front == s.memFront && WellFormed(s)
  }

  ghost predicate NeverLoses(f: Fences, s: State) {
    forall t :: Reach(System(f), s, t) ==> NoLostWakeup(t)
  }

  // ------------------------------------------------------------------ the invariant

  function SeenFlag(flag: bool, buffer: seq<Store>): bool
    decreases buffer
  {
    if buffer == [] then flag
    else SeenFlag(if buffer[0].FlagStore? then buffer[0].on else flag, buffer[1..])
  }

  predicate OnlySets(buffer: seq<Store>) {
    forall w :: w in buffer ==> w == FlagStore(true)
  }

  /** A daemon that sleeps, or is about to without looking, is covered. */
  predicate Covered(s: State) {
    || SignalOnItsWay(s)
    || (s.memFlag && OnlySets(s.buffer) && (s.memFront == s.memRear || SomePublished(s)))
  }

  /** The daemon's copy of the front index is the shared one with its own buffered stores, and
      one slot ahead of that from the end of a request to the store. */
  predicate Aligned(s: State) {
    var shared := SeenFront(s.memFront, s.buffer);
    s.pc != LoadFront ==> s.front == if s.pc == StoreFront then Next(shared) else shared
  }

  /** The flag is down while the daemon works and up from its decision to sleep. */
  predicate FlagKnown(s: State) {
    var flag := SeenFlag(s.memFlag, s.buffer);
    && (s.pc in {Poll, Consume, StoreFront, SetFlag} ==> !flag)
    && (s.pc in {Fence, Recheck, ClearAgain, Sleep} ==> flag)
  }

  predicate Inv(s: State) {
    && WellFormed(s) && Aligned(s) && FlagKnown(s)
    && (s.pc in {Entry, Sleep} ==> Covered(s))
    && (s.pc == Recheck ==> s.buffer == [])
  }

  lemma {:induction false} SeenAppend(front: nat, flag: bool, buffer: seq<Store>, w: Store)
    ensures SeenFlag(flag, buffer + [w]) == if w.FlagStore? then w.on else SeenFlag(flag, buffer)
    ensures SeenFront(front, buffer + [w]) == if w.FrontStore? then w.front else SeenFront(front, buffer)
    decreases buffer
  {
    if buffer == [] {
      assert buffer + [w] == [w] && [w][1..] == [];
    } else {
      SeenAppend(if buffer[0].FrontStore? then buffer[0].front else front,
                 if buffer[0].FlagStore? then buffer[0].on else flag, buffer[1..], w);
      assert (buffer + [w])[1..] == buffer[1..] + [w];
    }
  }

  lemma {:induction false} LocalsDaemon(f: Fences, s: State)
    requires Aligned(s) && FlagKnown(s) && DaemonStep(f, s).Some?
    ensures Aligned(DaemonStep(f, s).value) && FlagKnown(DaemonStep(f, s).value)
  {
    match s.pc
    case Entry => SeenAppend(s.memFront, s.memFlag, s.buffer, FlagStore(true));
    case ClearFlag => SeenAppend(s.memFront, s.memFlag, s.buffer, FlagStore(false));
    case StoreFront => SeenAppend(s.memFront, s.memFlag, s.buffer, FrontStore(s.front));
    case SetFlag => SeenAppend(s.memFront, s.memFlag, s.buffer, FlagStore(true));
    case ClearAgain => SeenAppend(s.memFront, s.memFlag, s.buffer, FlagStore(false));
    case _ => assert DaemonStep(f, s).value.buffer == s.buffer;
  }

  /** Any step of any party, with or without fences, keeps the two. */
  lemma {:induction false} LocalsKept(f: Fences, s: State, step: Step)
    requires Aligned(s) && FlagKnown(s) && StepOf(f, s, step).Some?
    ensures Aligned(StepOf(f, s, step).value) && FlagKnown(StepOf(f, s, step).value)
  {
    if step == Daemon { LocalsDaemon(f, s); }
  }

  lemma {:induction false} SeenFrontBounded(front: nat, buffer: seq<Store>)
    requires front < MAX_REQ
    requires forall w :: w in buffer && w.FrontStore? ==> w.front < MAX_REQ
    ensures SeenFront(front, buffer) < MAX_REQ
    decreases buffer
  {
    if buffer != [] {
      SeenFrontBounded(if buffer[0].FrontStore? then buffer[0].front else front, buffer[1..]);
    }
  }

  /** The daemon's steps leave the other parties alone. */
  lemma {:induction false} DaemonFrame(s: State)
    requires WellFormed(s) && DaemonStep(Fences(true, true), s).Some?
    ensures var t := DaemonStep(Fences(true, true), s).value;
            && WellFormed(t) && t.producers == s.producers && t.irq == s.irq
            && t.memRear == s.memRear && t.memFlag == s.memFlag
            && (t.eventfd == s.eventfd || s.pc == Sleep)
  {
    SeenFrontBounded(s.memFront, s.buffer);
    match s.pc
    case LoadFront =>
    case Consume =>
    case StoreFront =>
    case _ =>
  }

  lemma {:induction false} DaemonKeeps(s: State)
    requires Inv(s)
    requires DaemonStep(Fences(true, true), s).Some?
    ensures Inv(DaemonStep(Fences(true, true), s).value)
  {
    DaemonFrame(s);
    LocalsKept(Fences(true, true), s, Daemon);
    var t := DaemonStep(Fences(true, true), s).value;
    match s.pc
    case Entry => assert SignalOnItsWay(s) == SignalOnItsWay(t) && SomePublished(s) == SomePublished(t);
    case Recheck => assert s.memFlag && t.buffer == [];
    case _ =>
  }

  /** A change of one CPU keeps what is known of the others. */
  lemma {:induction false} ProducersFrame(s: State, cpu: nat, p: Producer)
    requires cpu < |s.producers|
    ensures forall q :: q in WithProducer(s, cpu, p).producers ==> q in s.producers || q == p
    ensures forall q :: q in s.producers && q != s.producers[cpu] ==> q in WithProducer(s, cpu, p).producers
    ensures p in WithProducer(s, cpu, p).producers
  {
    var t := s.producers[cpu := p];
    assert t[cpu] == p;
    forall q | q in s.producers && q != s.producers[cpu] ensures q in t {
      var i :| 0 <= i < |s.producers| && s.producers[i] == q;
      assert t[i] == q;
    }
  }

  lemma {:induction false} ProducerWellFormed(s: State, step: Step)
    requires WellFormed(s)
    requires step.Write? || step.Publish? || step.Flush? || step.Check? || step.Signal?
    requires ProducerStep(Fences(true, true), s, step).Some?
    ensures WellFormed(ProducerStep(Fences(true, true), s, step).value)
  {
    var t := ProducerStep(Fences(true, true), s, step).value;
    ProducersFrame(s, step.cpu, t.producers[step.cpu]);
    forall i, j | 0 <= i < j < |t.producers| ensures !(HoldsLock(t.producers[i]) && HoldsLock(t.producers[j])) {
      assert s.producers[i] in s.producers && s.producers[j] in s.producers;
    }
  }

  lemma {:induction false} ProducerKeeps(s: State, step: Step)
    requires Inv(s)
    requires step.Write? || step.Publish? || step.Flush? || step.Check? || step.Signal?
    requires ProducerStep(Fences(true, true), s, step).Some?
    ensures Inv(ProducerStep(Fences(true, true), s, step).value)
  {
    var t := ProducerStep(Fences(true, true), s, step).value;
    var p := t.producers[step.cpu];
    ProducersFrame(s, step.cpu, p);
    ProducerWellFormed(s, step);
    LocalsKept(Fences(true, true), s, step);
  }

  lemma {:induction false} DrainKeeps(s: State)
    requires Inv(s)
    requires DrainStep(s).Some?
    ensures Inv(DrainStep(s).value)
  {
    var t := DrainStep(s).value;
    LocalsKept(Fences(true, true), s, Drain);
    assert s.buffer[0] in s.buffer;
    assert forall w :: w in t.buffer ==> w in s.buffer;
    assert SignalOnItsWay(s) ==> SignalOnItsWay(t);
    assert SomePublished(s) ==> SomePublished(t);
  }

  lemma {:induction false} StepKeeps(s: State, step: Step)
    requires Inv(s)
    requires StepOf(Fences(true, true), s, step).Some?
    ensures Inv(StepOf(Fences(true, true), s, step).value)
  {
    match step
    case Daemon => DaemonKeeps(s);
    case Drain => DrainKeeps(s);
    case Interrupt =>
    case _ => ProducerKeeps(s, step);
  }

  /** With both fences, no run from a state that satisfies the invariant loses a wakeup. */
  lemma {:induction false} InvNeverLoses(s: State)
    requires Inv(s)
    ensures NeverLoses(Fences(true, true), s)
  {
    var sys := System(Fences(true, true));
    forall t, step | Inv(t) && sys(t, step).Some? ensures Inv(sys(t, step).value) {
      StepKeeps(t, step);
    }
    forall t | Reach(sys, s, t) ensures NoLostWakeup(t) {
      var run: seq<Step> :| Exec(sys, s, run) == Some(t);
      Invariant(sys, Inv, s, run);
    }
  }

  // ------------------------------------------------------------------ why the fences are needed

  ghost predicate Loses(f: Fences, s: State) {
    exists t :: Reach(System(f), s, t) && !NoLostWakeup(t)
  }

  /** An idle daemon polls until the poll budget is used up and then starts to go to sleep. */
  lemma {:induction false} PollsOut(f: Fences, s0: State, s: State)
    requires Reach(System(f), s0, s)
    requires s.pc == Poll && s.front == s.memRear && s.polls < MAX_POLL_COUNT
    ensures Reach(System(f), s0, s.(pc := SetFlag, polls := 0))
    decreases MAX_POLL_COUNT - s.polls
  {
    ReachStep(System(f), s0, s, Daemon);
    if s.polls + 1 < MAX_POLL_COUNT {
      PollsOut(f, s0, s.(polls := s.polls + 1));
    }
  }

  /** Take one more step of a run from `s0`. */
  lemma {:induction false} Go(f: Fences, s0: State, s: State, step: Step) returns (t: State)
    requires Reach(System(f), s0, s)
    requires StepOf(f, s, step).Some?
    ensures t == StepOf(f, s, step).value && Reach(System(f), s0, t)
  {
    ReachStep(System(f), s0, s, step);
    t := StepOf(f, s, step).value;
  }

  lemma {:induction false} Goes(f: Fences, s0: State, s: State, step: Step, t: State)
    requires Reach(System(f), s0, s) && StepOf(f, s, step) == Some(t)
    ensures Reach(System(f), s0, t)
  {
    ReachStep(System(f), s0, s, step);
  }

  /** The quiet start used by the two counterexamples: empty ring, flag clear, one idle CPU. */
  const QUIET: State := State(LoadFront, 0, 0, [], 0, 0, false, [Producer(Idle, None)], false, 0)

  /** One CPU puts a request into an empty ring while the flag in memory is clear. */
  lemma {:induction false} PublishesUnseen(f: Fences, s0: State, s: State) returns (t: State)
    requires Reach(System(f), s0, s)
    requires s.producers == [Producer(Idle, None)] && !s.memFlag && s.memRear == 0 && s.memFront == 0
    ensures Reach(System(f), s0, t)
    ensures t == s.(memRear := 1)
  {
    var s1 := Go(f, s0, s, Write(0));
    assert s1.producers == [Producer(Writing, None)];
    var s2 := Go(f, s0, s1, Publish(0));
    assert s2.producers == [Producer(Published, Some(1))];
    var s3 := Go(f, s0, s2, Flush(0));
    assert s3.producers == [Producer(Published, None)];
    t := Go(f, s0, s3, Check(0));
    assert t.producers == s.producers;
  }

  /** Without its fence the daemon can fall asleep with the flag stores still buffered. */
  lemma {:induction false} SleepsUnfenced(f: Fences) returns (t: State)
    requires !f.consumer
    ensures Reach(System(f), QUIET, t)
    ensures t == QUIET.(pc := Sleep, buffer := t.buffer)
  {
    ReachSelf<State, Step>(System(f), QUIET);
    var s1 := Go(f, QUIET, QUIET, Daemon);
    var s2 := Go(f, QUIET, s1, Daemon);
    PollsOut(f, QUIET, s2);
    var s3 := Go(f, QUIET, s2.(pc := SetFlag, polls := 0), Daemon);
    var s4 := Go(f, QUIET, s3, Daemon);
    t := Go(f, QUIET, s4, Daemon);
  }

  /** Without the daemon's fence its flag store may still be buffered when it re-reads the
      rear index: a CPU publishes and finds the flag clear after that read. */
  lemma {:induction false} ConsumerFenceNeeded(f: Fences)
    requires !f.consumer
    ensures LoongArchStart(QUIET) && Loses(f, QUIET)
  {
    var asleep := SleepsUnfenced(f);
    var t := PublishesUnseen(f, QUIET, asleep);
    assert !NoLostWakeup(t);
  }

  /** Without its fence a CPU can find the flag clear with its rear-index store still buffered. */
  lemma {:induction false} ChecksUnfenced(f: Fences) returns (t: State)
    requires !f.producer
    ensures Reach(System(f), QUIET, t)
    ensures t == QUIET.(producers := [Producer(Idle, Some(1))])
  {
    ReachSelf<State, Step>(System(f), QUIET);
    var s1 := Go(f, QUIET, QUIET, Write(0));
    var s2 := Go(f, QUIET, s1, Publish(0));
    t := Go(f, QUIET, s2, Check(0));
    assert t.producers == [Producer(Idle, Some(1))];
  }

  /** Without the hypervisor's fence the rear-index store may still be buffered when it reads
      the flag: the daemon sees an empty ring and sleeps. */
  lemma {:induction false} ProducerFenceNeeded(f: Fences)
    requires !f.producer
    ensures LoongArchStart(QUIET) && Loses(f, QUIET)
  {
    var checked := ChecksUnfenced(f);
    var asleep := FallsAsleep(f, QUIET, checked);
    var t := Go(f, QUIET, asleep, Flush(0));
    assert t.producers == [Producer(Idle, None)];
    assert !NoLostWakeup(t);
  }

  /** An idle daemon with an empty store buffer reaches the end of its polling. */
  lemma {:induction false} StartsPolling(f: Fences, s0: State, s: State) returns (t: State)
    requires Reach(System(f), s0, s)
    requires s.pc == LoadFront && s.buffer == [] && s.memFront == s.memRear
    ensures Reach(System(f), s0, t)
    ensures t == s.(pc := SetFlag, front := s.memFront, polls := 0, memFlag := false)
  {
    assert s.buffer + [FlagStore(false)] == [FlagStore(false)] && [FlagStore(false)][1..] == [];
    var s1 := s.(pc := ClearFlag, front := s.memFront, polls := 0);
    var s2 := s1.(pc := Poll, buffer := [FlagStore(false)]);
    var s3 := s1.(pc := Poll, memFlag := false);
    Goes(f, s0, s, Daemon, s1);
    Goes(f, s0, s1, Daemon, s2);
    Goes(f, s0, s2, Drain, s3);
    PollsOut(f, s0, s3);
    t := s3.(pc := SetFlag);
  }

  /** A daemon that has decided to sleep and finds the ring still empty. */
  lemma {:induction false} GoesToSleep(f: Fences, s0: State, s: State) returns (t: State)
    requires Reach(System(f), s0, s)
    requires s.pc == SetFlag && s.buffer == [] && s.front == s.memRear
    ensures Reach(System(f), s0, t)
    ensures t == s.(pc := Sleep, memFlag := true)
  {
    assert s.buffer + [FlagStore(true)] == [FlagStore(true)] && [FlagStore(true)][1..] == [];
    var s1 := s.(pc := Fence, buffer := [FlagStore(true)]);
    var s2 := s.(pc := Fence, memFlag := true);
    Goes(f, s0, s, Daemon, s1);
    Goes(f, s0, s1, Drain, s2);
    Goes(f, s0, s2, Daemon, s2.(pc := Recheck));
    t := s2.(pc := Sleep);
    Goes(f, s0, s2.(pc := Recheck), Daemon, t);
  }

  /** With an empty ring the daemon's own steps take it to sleep. */
  lemma {:induction false} FallsAsleep(f: Fences, s0: State, s: State) returns (t: State)
    requires Reach(System(f), s0, s)
    requires s.pc == LoadFront && s.buffer == [] && s.memFront == s.memRear
    ensures Reach(System(f), s0, t)
    ensures t == s.(pc := Sleep, front := s.memFront, polls := 0, memFlag := true)
  {
    var mid := StartsPolling(f, s0, s);
    t := GoesToSleep(f, s0, mid);
  }

  /** The LoongArch entry path: no run from any ring state loses a wakeup, exactly when both
      sides execute their full fence. */
  lemma {:induction false} FencesExact(f: Fences)
    ensures (forall s :: LoongArchStart(s) ==> NeverLoses(f, s)) <==> f.consumer && f.producer
  {
    if f.consumer && f.producer {
      forall s | LoongArchStart(s) ensures NeverLoses(f, s) {
        InvNeverLoses(s);
      }
    } else {
      if !f.consumer { ConsumerFenceNeeded(f); } else { ProducerFenceNeeded(f); }
      assert LoongArchStart(QUIET) && !NeverLoses(f, QUIET);
    }
  }

  // ------------------------------------------------------------------ the other entry path

  /** The condition on the machine at entry: a signal is on its way, or the flag is set and the
      ring is empty or a CPU has still to check the flag. A caller sees the flag, the ring and
      the eventfd, but not the CPUs; to it, a set flag and an empty ring are enough. */
  predicate SafeToEnter(s: State) {
    SignalOnItsWay(s) || (s.memFlag && (s.memFront == s.memRear || SomePublished(s)))
  }

  /** Entering with the flag clear and a request in the ring. */
  lemma {:induction false} EntersTooLate(s0: State, s: State)
    requires Reach(System(Fences(true, true)), s0, s)
    requires s.pc == Entry && s.memFront != s.memRear && !SignalOnItsWay(s)
    requires !s.memFlag || !SomePublished(s)
    ensures Loses(Fences(true, true), s0)
  {
    ReachStep(System(Fences(true, true)), s0, s, Daemon);
    var t := s.(pc := Sleep, buffer := s.buffer + [FlagStore(true)]);
    assert !SignalOnItsWay(t) && !NoLostWakeup(t);
  }

  /** A CPU that has taken the ring lock makes its request visible before the flag is set. */
  lemma {:induction false} LosesWhileLocked(s0: State, s: State, cpu: nat)
    requires Reach(System(Fences(true, true)), s0, s)
    requires OtherStart(s) && s.memFront == s.memRear && !s.memFlag && !SignalOnItsWay(s)
    requires cpu < |s.producers| && HoldsLock(s.producers[cpu])
    ensures Loses(Fences(true, true), s0)
  {
    var sys := System(Fences(true, true));
    var r := Next(s.memRear);
    var mid := s;
    if s.producers[cpu].pc == Writing {
      ReachStep(sys, s0, s, Publish(cpu));
      mid := WithProducer(s, cpu, Producer(Published, Some(r)));
      ProducersFrame(s, cpu, Producer(Published, Some(r)));
    }
    assert mid.producers[cpu] == Producer(Published, Some(r)) && !SignalOnItsWay(mid);
    ReachStep(sys, s0, mid, Flush(cpu));
    ProducersFrame(mid, cpu, Producer(Published, None));
    var t := WithProducer(mid, cpu, Producer(Published, None)).(memRear := r);
    EntersTooLate(s0, t);
  }

  /** Even on an empty ring: a CPU publishes and checks the still clear flag first. */
  lemma {:induction false} LosesOnEmptyRing(s: State)
    requires OtherStart(s) && s.producers != []
    requires s.memFront == s.memRear && !s.memFlag && !SignalOnItsWay(s)
    ensures Loses(Fences(true, true), s)
  {
    var sys := System(Fences(true, true));
    ReachSelf<State, Step>(sys, s);
    if i :| 0 <= i < |s.producers| && HoldsLock(s.producers[i]) {
      LosesWhileLocked(s, s, i);
    } else {
      assert LockFree(s);
      var idle := s;
      assert s.producers[0] in s.producers && s.producers[0].pending == None;
      if s.producers[0].pc == Published {
        ReachStep(sys, s, s, Check(0));
        idle := WithProducer(s, 0, Producer(Idle, None));
        ProducersFrame(s, 0, Producer(Idle, None));
      }
      assert idle.producers[0] == Producer(Idle, None);
      assert !SignalOnItsWay(idle) && LockFree(idle);
      ReachStep(sys, s, idle, Write(0));
      var t := WithProducer(idle, 0, Producer(Writing, None));
      ProducersFrame(idle, 0, Producer(Writing, None));
      assert forall j :: 0 < j < |t.producers| ==>
               t.producers[j] == idle.producers[j] && idle.producers[j] in idle.producers;
      LosesWhileLocked(s, t, 0);
    }
  }

  /** Architectures other than LoongArch: entering the event loop from `s` never loses a
      wakeup exactly when a signal is already on its way, or the flag is already set and the
      ring is empty or a CPU has yet to check the flag. An empty ring alone is not enough. */
  lemma {:induction false} OtherEntryExact(s: State)
    requires OtherStart(s) && s.producers != []
    ensures NeverLoses(Fences(true, true), s) <==> SafeToEnter(s)
  {
    if SafeToEnter(s) {
      InvNeverLoses(s);
    } else {
      if s.memFront != s.memRear {
        ReachSelf<State, Step>(System(Fences(true, true)), s);
        EntersTooLate(s, s);
      } else {
        LosesOnEmptyRing(s);
      }
    }
  }

  // ------------------------------------------------------------------ lost for good

  /** The daemon sleeps on a non-empty ring, everything is in memory, and no signal is on its way
      or still to be decided. */
  predicate Stuck(s: State) {
    s.pc == Sleep && s.memFront != s.memRear && s.buffer == [] && !SignalOnItsWay(s) && !SomePublished(s)
  }

  /** Only a new request can end this: no other step is enabled, and preparing one is not enough. */
  lemma {:induction false} StuckUntilRequest(s: State, step: Step)
    requires Stuck(s) && WellFormed(s) && StepOf(Fences(true, true), s, step).Some?
    ensures step.Write? || step.Publish?
    ensures step.Write? ==> Stuck(StepOf(Fences(true, true), s, step).value)
  {
    if step.Flush? || step.Check? || step.Signal? || step.Write? {
      assert s.producers[step.cpu] in s.producers;
      if step.Write? { ProducersFrame(s, step.cpu, s.producers[step.cpu].(pc := Writing)); }
    }
  }

  ghost predicate GetsStuck(s: State) {
    exists t :: Reach(System(Fences(true, true)), s, t) && Stuck(t)
  }

  /** A CPU that holds the ring lock has found the ring not full. */
  predicate RingRoom(s: State) {
    forall p :: p in s.producers && HoldsLock(p) ==> Next(s.memRear) != s.memFront
  }

  lemma {:induction false} EntersStuck(s0: State, s: State)
    requires Reach(System(Fences(true, true)), s0, s)
    requires s.pc == Entry && s.buffer == [] && s.memFront != s.memRear && !SignalOnItsWay(s) && !SomePublished(s)
    ensures GetsStuck(s0)
  {
    var f := Fences(true, true);
    var t := Go(f, s0, s, Daemon);
    assert t.buffer == [FlagStore(true)];
    var u := Go(f, s0, t, Drain);
    assert u.buffer == [] && u.producers == s.producers;
    assert Stuck(u);
  }

  /** A machine about to enter with the flag clear, all stores of the CPUs in memory. */
  predicate Settled(s: State) {
    && s.pc == Entry && s.buffer == [] && !s.memFlag && !SignalOnItsWay(s)
    && (forall p :: p in s.producers ==> p.pending == None)
  }

  /** The CPUs that have published check the clear flag, one after the other. */
  lemma {:induction false} ChecksOff(s0: State, s: State, k: nat)
    requires Reach(System(Fences(true, true)), s0, s) && Settled(s) && s.memFront != s.memRear
    requires k <= |s.producers| && forall i :: 0 <= i < k ==> s.producers[i].pc != Published
    ensures GetsStuck(s0)
    decreases |s.producers| - k
  {
    if k == |s.producers| {
      EntersStuck(s0, s);
    } else if s.producers[k].pc != Published {
      ChecksOff(s0, s, k + 1);
    } else {
      assert s.producers[k] in s.producers;
      var t := Go(Fences(true, true), s0, s, Check(k));
      ProducersFrame(s, k, t.producers[k]);
      ChecksOff(s0, t, k + 1);
    }
  }

  /** A CPU whose request is on its way to memory. */
  lemma {:induction false} FlushThenStuck(s0: State, s: State, cpu: nat)
    requires Reach(System(Fences(true, true)), s0, s) && WellFormed(s)
    requires s.pc == Entry && s.buffer == [] && !s.memFlag && !SignalOnItsWay(s)
    requires cpu < |s.producers| && s.producers[cpu].pending.Some? && s.memFront != Next(s.memRear)
    ensures GetsStuck(s0)
  {
    assert s.producers[cpu] in s.producers && HoldsLock(s.producers[cpu]);
    var t := Go(Fences(true, true), s0, s, Flush(cpu));
    ProducersFrame(s, cpu, t.producers[cpu]);
    forall p | p in t.producers ensures p.pending == None {
      var i :| 0 <= i < |t.producers| && t.producers[i] == p;
      assert i != cpu ==> !HoldsLock(s.producers[i]);
    }
    ChecksOff(s0, t, 0);
  }

  /** A CPU that writes its request. */
  lemma {:induction false} WriteThenStuck(s0: State, s: State, cpu: nat)
    requires Reach(System(Fences(true, true)), s0, s) && WellFormed(s)
    requires s.pc == Entry && s.buffer == [] && !s.memFlag && !SignalOnItsWay(s)
    requires cpu < |s.producers| && s.producers[cpu].pc == Writing && s.memFront != Next(s.memRear)
    ensures GetsStuck(s0)
  {
    var t := Go(Fences(true, true), s0, s, Publish(cpu));
    ProducerWellFormed(s, Publish(cpu));
    ProducersFrame(s, cpu, t.producers[cpu]);
    FlushThenStuck(s0, t, cpu);
  }

  /** From an empty ring with no CPU in the lock, one puts a request in. */
  lemma {:induction false} EmptyThenStuck(s: State)
    requires OtherStart(s) && s.producers != [] && LockFree(s)
    requires s.memFront == s.memRear && !s.memFlag && !SignalOnItsWay(s)
    ensures GetsStuck(s)
  {
    var f := Fences(true, true);
    ReachSelf<State, Step>(System(f), s);
    assert s.producers[0] in s.producers;
    var idle := s;
    if s.producers[0].pc == Published {
      idle := Go(f, s, s, Check(0));
      ProducerWellFormed(s, Check(0));
      ProducersFrame(s, 0, idle.producers[0]);
    }
    var t := Go(f, s, idle, Write(0));
    ProducerWellFormed(idle, Write(0));
    ProducersFrame(idle, 0, t.producers[0]);
    WriteThenStuck(s, t, 0);
  }

  /** The other architectures once more: entering from `s` can leave the daemon asleep for good,
      until a new request comes, exactly when the entry state is not safe. */
  lemma {:induction false} StuckExact(s: State)
    requires OtherStart(s) && s.producers != [] && RingRoom(s)
    ensures GetsStuck(s) <==> !SafeToEnter(s)
  {
    if SafeToEnter(s) {
      InvNeverLoses(s);
    } else {
      ReachSelf<State, Step>(System(Fences(true, true)), s);
      if s.memFlag {
        EntersStuck(s, s);
      } else if i :| 0 <= i < |s.producers| && s.producers[i].pending.Some? {
        assert s.producers[i] in s.producers;
        FlushThenStuck(s, s, i);
      } else if s.memFront != s.memRear {
        ChecksOff(s, s, 0);
      } else if i :| 0 <= i < |s.producers| && s.producers[i].pc == Writing {
        WriteThenStuck(s, s, i);
      } else {
        EmptyThenStuck(s);
      }
    }
  }

  // ------------------------------------------------------------------ the wakeup arrives

  /** A wakeup is on its way, or a CPU has still to check the flag and will find it set. */
  predicate Owed(s: State) {
    SignalOnItsWay(s) || (s.memFlag && OnlySets(s.buffer) && SomePublished(s))
  }

  /** Steps a CPU has left until its signal, if any, has arrived. */
  function Weight(p: Producer): nat {
    match p.pc
    case Idle => 0
    case Writing => 5
    case Published => if p.pending.Some? then 4 else 3
    case Signalling => 2
  }

  function Weights(ps: seq<Producer>): nat {
    if ps == [] then 0 else Weights(ps[..|ps| - 1]) + Weight(ps[|ps| - 1])
  }

  lemma {:induction false} WeightsUpdate(ps: seq<Producer>, i: nat, p: Producer)
    requires i < |ps|
    ensures Weights(ps[i := p]) + Weight(ps[i]) == Weights(ps) + Weight(p)
    decreases ps
  {
    var n := |ps| - 1;
    if i < n {
      WeightsUpdate(ps[..n], i, p);
      assert ps[i := p][..n] == ps[..n][i := p];
    } else {
      assert ps[i := p][..n] == ps[..n];
    }
  }

  function Rank(s: State): nat {
    |s.buffer| + Weights(s.producers) + if s.irq then 1 else 0
  }

  /** What each step of another party costs or adds. */
  lemma {:induction false} RankOneStep(s: State, step: Step)
    requires step != Daemon && StepOf(Fences(true, true), s, step).Some?
    requires forall p :: p in s.producers && p.pending.Some? ==> p.pc == Published
    ensures var t := StepOf(Fences(true, true), s, step).value;
            if step.Write? then Rank(t) <= Rank(s) + 5 else Rank(t) < Rank(s)
  {
    if !step.Drain? && !step.Interrupt? {
      var p := s.producers[step.cpu];
      assert p in s.producers;
      WeightsUpdate(s.producers, step.cpu, StepOf(Fences(true, true), s, step).value.producers[step.cpu]);
    }
  }

  lemma {:induction false} OwedKept(s: State, step: Step)
    requires Owed(s) && step != Daemon && StepOf(Fences(true, true), s, step).Some?
    ensures Owed(StepOf(Fences(true, true), s, step).value)
  {
    var t := StepOf(Fences(true, true), s, step).value;
    if step.Drain? {
      assert s.buffer[0] in s.buffer;
      assert forall w :: w in t.buffer ==> w in s.buffer;
    } else if !step.Interrupt? {
      ProducersFrame(s, step.cpu, t.producers[step.cpu]);
    }
  }

  /** While the wakeup is owed and has not arrived, some step brings it nearer. */
  lemma {:induction false} OwedMoves(s: State)
    requires Owed(s) && s.eventfd == 0
    ensures exists step: Step :: step != Daemon && !step.Write? && StepOf(Fences(true, true), s, step).Some?
  {
    var f := Fences(true, true);
    if s.irq {
      assert StepOf(f, s, Interrupt).Some?;
    } else if p :| p in s.producers && p.pc == Signalling {
      var i: nat :| i < |s.producers| && s.producers[i] == p;
      assert StepOf(f, s, Signal(i)).Some?;
    } else {
      var p :| p in s.producers && p.pc == Published;
      var i: nat :| i < |s.producers| && s.producers[i] == p;
      if p.pending.Some? {
        assert StepOf(f, s, Flush(i)).Some?;
      } else {
        assert StepOf(f, s, Check(i)).Some?;
      }
    }
  }

  function Writes(run: seq<Step>): nat {
    if run == [] then 0 else (if run[0].Write? then 1 else 0) + Writes(run[1..])
  }

  /** The wakeup arrives whatever the other parties do: from every state of a run with both
      fences in which the daemon sleeps on a non-empty ring, in any order of their steps, at
      most `Rank(s)` of them, and five more for each new request they begin, pass before the
      eventfd is signalled; until then some such step is enabled. */
  lemma {:induction false} WakeupArrives(s: State, run: seq<Step>)
    requires WellFormed(s) && Owed(s) && forall i :: 0 <= i < |run| ==> run[i] != Daemon
    requires Exec(System(Fences(true, true)), s, run).Some?
    ensures var t := Exec(System(Fences(true, true)), s, run).value;
            && |run| - Writes(run) + Rank(t) <= Rank(s) + 5 * Writes(run)
            && (t.eventfd > 0 ||
                exists step: Step :: step != Daemon && !step.Write? && StepOf(Fences(true, true), t, step).Some?)
    decreases |run|
  {
    if run == [] {
      if s.eventfd == 0 { OwedMoves(s); }
    } else {
      var t := StepOf(Fences(true, true), s, run[0]).value;
      RankOneStep(s, run[0]);
      OwedKept(s, run[0]);
      OthersWellFormed(s, run[0]);
      WakeupArrives(t, run[1..]);
    }
  }

  lemma {:induction false} OthersWellFormed(s: State, step: Step)
    requires WellFormed(s) && step != Daemon && StepOf(Fences(true, true), s, step).Some?
    ensures WellFormed(StepOf(Fences(true, true), s, step).value)
  {
    match step
    case Drain => assert s.buffer[0] in s.buffer;
    case Interrupt =>
    case _ => ProducerWellFormed(s, step);
  }

  /** Such a sleep is owed its wakeup, and an arrived signal wakes the daemon. */
  lemma {:induction false} SleepIsOwed(s: State)
    requires Inv(s) && s.pc == Sleep && s.memFront != s.memRear
    ensures WellFormed(s) && Owed(s)
    ensures s.eventfd > 0 ==> StepOf(Fences(true, true), s, Daemon) == Some(s.(pc := LoadFront, eventfd := 0))
  {
  }

  // ------------------------------------------------------------------ the requests

  const BOTH: Fences := Fences(true, true)

  function Fronts(buffer: seq<Store>): nat {
    if buffer == [] then 0 else (if buffer[0].FrontStore? then 1 else 0) + Fronts(buffer[1..])
  }

  /** The buffered front stores are those of the slots after the first `released`, in order. */
  predicate FrontsFrom(buffer: seq<Store>, released: nat) {
    if buffer == [] then true
    else if buffer[0].FlagStore? then FrontsFrom(buffer[1..], released)
    else buffer[0].front == (released + 1) % MAX_REQ && FrontsFrom(buffer[1..], released + 1)
  }

  lemma {:induction false} FrontsAppend(buffer: seq<Store>, w: Store, released: nat)
    requires FrontsFrom(buffer, released)
    ensures Fronts(buffer + [w]) == Fronts(buffer) + if w.FrontStore? then 1 else 0
    ensures w.FlagStore? || w.front == (released + Fronts(buffer) + 1) % MAX_REQ ==> FrontsFrom(buffer + [w], released)
    decreases buffer
  {
    if buffer == [] {
      assert buffer + [w] == [w] && [w][1..] == [];
    } else {
      FrontsAppend(buffer[1..], w, if buffer[0].FrontStore? then released + 1 else released);
      assert (buffer + [w])[1..] == buffer[1..] + [w];
    }
  }

  lemma {:induction false} SeenFrontIs(buffer: seq<Store>, released: nat)
    requires FrontsFrom(buffer, released)
    ensures SeenFront(released % MAX_REQ, buffer) == (released + Fronts(buffer)) % MAX_REQ
    decreases buffer
  {
    if buffer != [] {
      SeenFrontIs(buffer[1..], if buffer[0].FrontStore? then released + 1 else released);
    }
  }

  /** How many requests memory shows as released, when the daemon has handled `handled`. */
  function InMemory(s: State, handled: nat): int {
    handled - Fronts(s.buffer) - if s.pc == StoreFront then 1 else 0
  }

  /** The indices as unbounded counts of the requests handled and published so far. */
  predicate Counted(s: State, handled: nat, published: nat) {
    var released := InMemory(s, handled);
    && 0 <= released && s.memFront == released % MAX_REQ && FrontsFrom(s.buffer, released)
    && s.memRear == published % MAX_REQ && handled <= published < released + MAX_REQ
    && (s.pc == Consume ==> handled < published)
    && (s.pc != LoadFront ==> s.front == handled % MAX_REQ)
  }

  /** The request the next step handles, if it does. */
  predicate Handles(s: State, step: Step) { step == Daemon && s.pc == Consume }

  /** A store that enters the buffer. */
  lemma {:induction false} CountedStore(s: State, t: State, w: Store, handled: nat, published: nat)
    requires Counted(s, handled, published) && s.pc != Consume && s.pc != LoadFront && t.pc !in {Consume, StoreFront}
    requires t == s.(pc := t.pc, buffer := s.buffer + [w])
    requires if s.pc == StoreFront then w == FrontStore(s.front) else w.FlagStore?
    ensures Counted(t, handled, published)
  {
    FrontsAppend(s.buffer, w, InMemory(s, handled));
  }

  lemma {:induction false} CountedLoad(s: State, handled: nat, published: nat)
    requires Counted(s, handled, published) && s.pc == LoadFront
    ensures Counted(DaemonStep(BOTH, s).value, handled, published)
  {
    SeenFrontIs(s.buffer, InMemory(s, handled));
  }

  lemma {:induction false} CountedConsume(s: State, handled: nat, published: nat)
    requires Counted(s, handled, published) && s.pc == Consume
    ensures Counted(DaemonStep(BOTH, s).value, handled + 1, published)
  {
    ModNext(handled);
  }

  lemma {:induction false} CountedQuiet(s: State, handled: nat, published: nat)
    requires Counted(s, handled, published) && s.pc in {Poll, Fence, Recheck, Sleep} && DaemonStep(BOTH, s).Some?
    ensures Counted(DaemonStep(BOTH, s).value, handled, published)
  {
    var t := DaemonStep(BOTH, s).value;
    assert InMemory(t, handled) == InMemory(s, handled);
  }

  lemma {:induction false} CountedDaemon(s: State, handled: nat, published: nat)
    requires Counted(s, handled, published) && DaemonStep(BOTH, s).Some?
    ensures Counted(DaemonStep(BOTH, s).value, handled + (if s.pc == Consume then 1 else 0), published)
  {
    match s.pc
    case LoadFront => CountedLoad(s, handled, published);
    case Consume => CountedConsume(s, handled, published);
    case Poll => CountedQuiet(s, handled, published);
    case Fence => CountedQuiet(s, handled, published);
    case Recheck => CountedQuiet(s, handled, published);
    case Sleep => CountedQuiet(s, handled, published);
    case _ =>
      var t := DaemonStep(BOTH, s).value;
      CountedStore(s, t, t.buffer[|s.buffer|], handled, published);
  }

  lemma {:induction false} CountedDrain(s: State, handled: nat, published: nat)
    requires Counted(s, handled, published) && DrainStep(s).Some?
    ensures Counted(DrainStep(s).value, handled, published)
  {
  }

  lemma {:induction false} CountedProducer(s: State, step: Step, handled: nat, published: nat)
    requires Counted(s, handled, published) && WellFormed(s) && RingRoom(s)
    requires step.Write? || step.Publish? || step.Flush? || step.Check? || step.Signal?
    requires ProducerStep(BOTH, s, step).Some?
    ensures var t := ProducerStep(BOTH, s, step).value;
            Counted(t, handled, published + if step.Flush? then 1 else 0) && RingRoom(t)
  {
    var t := ProducerStep(BOTH, s, step).value;
    assert s.producers[step.cpu] in s.producers;
    ProducersFrame(s, step.cpu, t.producers[step.cpu]);
    if step.Flush? {
      FullExact(published, InMemory(s, handled));
      ModNext(published);
      forall p | p in t.producers ensures !HoldsLock(p) {
        var i :| 0 <= i < |t.producers| && t.producers[i] == p;
        assert i != step.cpu ==> !HoldsLock(s.producers[i]);
      }
    }
  }

  /** A request freed in memory keeps the room a CPU has found. */
  lemma {:induction false} RoomKept(s: State, step: Step, handled: nat, published: nat)
    requires Counted(s, handled, published) && RingRoom(s) && (step == Daemon || step == Drain || step == Interrupt)
    requires StepOf(BOTH, s, step).Some?
    ensures RingRoom(StepOf(BOTH, s, step).value)
  {
    if step == Drain && s.buffer[0].FrontStore? {
      var released := InMemory(s, handled);
      CountedDrain(s, handled, published);
      FullExact(published, released);
      FullExact(published, released + 1);
    }
  }

  lemma {:induction false} CountedStep(s: State, step: Step, handled: nat, published: nat)
    requires Counted(s, handled, published) && WellFormed(s) && RingRoom(s) && StepOf(BOTH, s, step).Some?
    ensures var t := StepOf(BOTH, s, step).value;
            && Counted(t, handled + (if Handles(s, step) then 1 else 0), published + if step.Flush? then 1 else 0)
            && RingRoom(t)
  {
    match step
    case Daemon =>
      CountedDaemon(s, handled, published);
      RoomKept(s, step, handled, published);
    case Drain =>
      CountedDrain(s, handled, published);
      RoomKept(s, step, handled, published);
    case Interrupt =>
    case _ => CountedProducer(s, step, handled, published);
  }

  lemma {:induction false} WellFormedStep(s: State, step: Step)
    requires WellFormed(s) && StepOf(BOTH, s, step).Some?
    ensures WellFormed(StepOf(BOTH, s, step).value)
  {
    if step == Daemon { DaemonFrame(s); } else { OthersWellFormed(s, step); }
  }

  /** What a run does: the slots the daemon handles, in order, the requests that become visible,
      and the number of steps. */
  datatype Tally = Tally(slots: seq<nat>, flushed: nat, steps: nat)

  function Note(k: Tally, s: State, step: Step): Tally {
    Tally(if Handles(s, step) then k.slots + [s.front] else k.slots,
          if step.Flush? then k.flushed + 1 else k.flushed, k.steps + 1)
  }

  function Notes(): (Tally, State, Step) -> Tally { (k, s, step) => Note(k, s, step) }

  function TallyOf(s: State, run: seq<Step>): Tally {
    Fold(System(BOTH), Notes(), Tally([], 0, 0), s, run)
  }

  predicate Consecutive(slots: seq<nat>, first: nat) {
    forall k :: 0 <= k < |slots| ==> slots[k] == (first + k) % MAX_REQ
  }

  lemma {:induction false} ConsecutiveNext(slots: seq<nat>, first: nat, slot: nat)
    requires Consecutive(slots, first)
    ensures slot == (first + |slots|) % MAX_REQ ==> Consecutive(slots + [slot], first)
  {}

  /** The indices of a state against what the run from a start did. */
  predicate Tallied(s: State, k: Tally, first: nat, published: nat) {
    && Counted(s, first + |k.slots|, published + k.flushed) && WellFormed(s) && RingRoom(s)
    && Consecutive(k.slots, first)
  }

  lemma {:induction false} TalliedStep(s: State, step: Step, k: Tally, first: nat, published: nat)
    requires Tallied(s, k, first, published) && StepOf(BOTH, s, step).Some?
    ensures Tallied(StepOf(BOTH, s, step).value, Note(k, s, step), first, published)
  {
    CountedStep(s, step, first + |k.slots|, published + k.flushed);
    WellFormedStep(s, step);
    ConsecutiveNext(k.slots, first, s.front);
  }

  lemma {:induction false} TalliedRun(s: State, run: seq<Step>)
    requires Start(s) && RingRoom(s) && Exec(System(BOTH), s, run).Some?
    ensures Tallied(Exec(System(BOTH), s, run).value, TallyOf(s, run), s.memFront, s.memFront + Waiting(s))
  {
    var first, published := s.memFront, s.memFront + Waiting(s);
    StartCounted(s);
    forall t, step, k | Tallied(t, k, first, published) && StepOf(BOTH, t, step).Some?
      ensures Tallied(StepOf(BOTH, t, step).value, Note(k, t, step), first, published)
    {
      TalliedStep(t, step, k, first, published);
    }
    assert Tallied(s, Tally([], 0, 0), first, published);
    FoldInvariant(System(BOTH), Notes(), _ => true, (t, k) => Tallied(t, k, first, published),
                  s, Tally([], 0, 0), run);
  }

  /** Requests in the ring. */
  function Waiting(s: State): nat { (s.memRear + MAX_REQ - s.memFront) % MAX_REQ }

  predicate Start(s: State) { LoongArchStart(s) || OtherStart(s) }

  lemma {:induction false} StartCounted(s: State)
    requires Start(s)
    ensures Counted(s, s.memFront, s.memFront + Waiting(s))
  {
  }

  lemma {:induction false} ModSame(a: nat, gap: nat)
    requires gap < MAX_REQ && a % MAX_REQ == (a + gap) % MAX_REQ
    ensures gap == 0
  {
  }

  /** Over every run of all parties, the daemon handles the slots after the shared front index it
      found, in order and each once, and never one that is not published; when the two shared
      indices meet, it has handled everything published. */
  lemma {:induction false} HandledInOrder(s: State, run: seq<Step>)
    requires Start(s) && RingRoom(s) && Exec(System(BOTH), s, run).Some?
    ensures var t, k := Exec(System(BOTH), s, run).value, TallyOf(s, run);
            && Consecutive(k.slots, s.memFront)
            && |k.slots| <= Waiting(s) + k.flushed
            && (t.pc != LoadFront ==> t.front == (s.memFront + |k.slots|) % MAX_REQ)
            && (t.memFront == t.memRear ==> |k.slots| == Waiting(s) + k.flushed)
  {
    TalliedRun(s, run);
    var t, k := Exec(System(BOTH), s, run).value, TallyOf(s, run);
    var released := InMemory(t, s.memFront + |k.slots|);
    if t.memFront == t.memRear { ModSame(released, s.memFront + Waiting(s) + k.flushed - released); }
  }

  /** A daemon that sleeps has handled every request published, or its wakeup is on its way. */
  lemma {:induction false} AsleepMeansHandled(s: State, run: seq<Step>)
    requires LoongArchStart(s) && RingRoom(s) && Exec(System(BOTH), s, run).Some?
    ensures var t, k := Exec(System(BOTH), s, run).value, TallyOf(s, run);
            t.pc == Sleep ==>
              || |k.slots| == Waiting(s) + k.flushed
              || SignalOnItsWay(t) || (t.memFlag && SomePublished(t))
  {
    HandledInOrder(s, run);
    InvNeverLoses(s);
    assert Reach(System(BOTH), s, Exec(System(BOTH), s, run).value);
  }

  // ------------------------------------------------------------------ and all of them are handled

  function PollsLeft(s: State): nat { if s.polls < MAX_POLL_COUNT then MAX_POLL_COUNT - s.polls else 0 }

  /** A bound on the steps the daemon and its store buffer take from its location to the next
      request or to sleep. */
  function Distance(s: State, idle: bool): nat {
    match s.pc
    case Entry => 2
    case LoadFront => MAX_POLL_COUNT + 13
    case ClearFlag => PollsLeft(s) + 12
    case Poll => PollsLeft(s) + 10
    case Consume => 0
    case StoreFront => PollsLeft(s) + 12
    case SetFlag => if idle then 4 else MAX_POLL_COUNT + 16
    case Fence => if idle then 2 else MAX_POLL_COUNT + 14
    case Recheck => if idle then 1 else MAX_POLL_COUNT + 13
    case ClearAgain => PollsLeft(s) + 12
    case Sleep => 0
  }

  /** And to the end of everything, when `left` requests wait. */
  function Work(s: State, left: nat): nat {
    var again := if s.eventfd > 0 then MAX_POLL_COUNT + 14 else 0;
    left * (MAX_POLL_COUNT + 20) + |s.buffer| + Distance(s, left == 0) + again
  }

  lemma {:induction false} WorkDaemon(s: State, handled: nat, published: nat)
    requires Counted(s, handled, published) && DaemonStep(BOTH, s).Some?
    ensures var t, left := DaemonStep(BOTH, s).value, published - handled;
            if s.pc == Consume then Work(t, left - 1) < Work(s, left) else Work(t, left) < Work(s, left)
  {
    if s.pc != LoadFront && s.front == s.memRear { ModSame(handled, published - handled); }
  }

  lemma {:induction false} WorkDrain(s: State, left: nat)
    requires DrainStep(s).Some?
    ensures Work(DrainStep(s).value, left) < Work(s, left)
  {
  }

  /** The daemon does not fall asleep while requests wait. */
  lemma {:induction false} SleepsIdle(s: State, handled: nat, published: nat)
    requires Counted(s, handled, published) && DaemonStep(BOTH, s).Some? && s.pc != Entry
    ensures DaemonStep(BOTH, s).value.pc == Sleep ==> handled == published
  {
    if s.pc == Recheck && s.front == s.memRear { ModSame(handled, published - handled); }
  }

  predicate Quiet(s: State, handled: nat, published: nat) {
    Counted(s, handled, published) && s.pc != Entry && (s.pc == Sleep ==> handled == published)
  }

  lemma {:induction false} QuietDaemon(s: State, handled: nat, published: nat)
    requires Quiet(s, handled, published) && DaemonStep(BOTH, s).Some?
    ensures var t, now := DaemonStep(BOTH, s).value, handled + if s.pc == Consume then 1 else 0;
            Quiet(t, now, published) && Work(t, published - now) < Work(s, published - handled)
  {
    CountedDaemon(s, handled, published);
    WorkDaemon(s, handled, published);
    SleepsIdle(s, handled, published);
  }

  lemma {:induction false} QuietDrain(s: State, handled: nat, published: nat)
    requires Quiet(s, handled, published) && DrainStep(s).Some?
    ensures Quiet(DrainStep(s).value, handled, published)
    ensures Work(DrainStep(s).value, published - handled) < Work(s, published - handled)
  {
    CountedDrain(s, handled, published);
    WorkDrain(s, published - handled);
  }

  lemma {:induction false} QuietEnds(s: State, handled: nat, published: nat)
    requires Quiet(s, handled, published) && DaemonStep(BOTH, s).None? && DrainStep(s).None?
    ensures s.pc == Sleep && s.memFront == s.memRear == published % MAX_REQ && handled == published
  {
  }

  /** A daemon that runs alone, `k` being what it has done. */
  predicate Alone(s: State, k: Tally, first: nat, published: nat, work: nat) {
    var now := first + |k.slots|;
    Quiet(s, now, published) && k.steps + Work(s, published - now) <= work
  }

  lemma {:induction false} AloneStep(s: State, step: Step, k: Tally, first: nat, published: nat, work: nat)
    requires Alone(s, k, first, published, work) && (step == Daemon || step == Drain) && StepOf(BOTH, s, step).Some?
    ensures Alone(StepOf(BOTH, s, step).value, Note(k, s, step), first, published, work)
  {
    var now := first + |k.slots|;
    if step == Daemon { QuietDaemon(s, now, published); } else { QuietDrain(s, now, published); }
    assert |Note(k, s, step).slots| == |k.slots| + if Handles(s, step) then 1 else 0;
  }

  lemma {:induction false} StepsCounted(s: State, run: seq<Step>, k: Tally)
    requires Exec(System(BOTH), s, run).Some?
    ensures Fold(System(BOTH), Notes(), k, s, run).steps == k.steps + |run|
    decreases |run|
  {
    if run != [] { StepsCounted(System(BOTH)(s, run[0]).value, run[1..], Note(k, s, run[0])); }
  }

  lemma {:induction false} AloneRun(s: State, run: seq<Step>)
    requires LoongArchStart(s) && Exec(System(BOTH), s, run).Some?
    requires forall i :: 0 <= i < |run| ==> run[i] == Daemon || run[i] == Drain
    ensures Alone(Exec(System(BOTH), s, run).value, TallyOf(s, run), s.memFront, s.memFront + Waiting(s),
                  Work(s, Waiting(s)))
  {
    var first, published, work := s.memFront, s.memFront + Waiting(s), Work(s, Waiting(s));
    StartCounted(s);
    forall t, step, k | Alone(t, k, first, published, work) && (step == Daemon || step == Drain)
                        && StepOf(BOTH, t, step).Some?
      ensures Alone(StepOf(BOTH, t, step).value, Note(k, t, step), first, published, work)
    {
      AloneStep(t, step, k, first, published, work);
    }
    FoldInvariant(System(BOTH), Notes(), step => step == Daemon || step == Drain,
                  (t, k) => Alone(t, k, first, published, work), s, Tally([], 0, 0), run);
  }

  /** With no new request, whatever the order of the daemon's steps and of its stores reaching
      memory: from every LoongArch start they come to an end, and then every request in the ring
      was handled, the shared front index has passed it, and the daemon sleeps. */
  lemma {:induction false} AllHandled(s: State, run: seq<Step>)
    requires LoongArchStart(s) && Exec(System(BOTH), s, run).Some?
    requires forall i :: 0 <= i < |run| ==> run[i] == Daemon || run[i] == Drain
    ensures var t, n := Exec(System(BOTH), s, run).value, |TallyOf(s, run).slots|;
            && n <= Waiting(s) && |run| + Work(t, Waiting(s) - n) <= Work(s, Waiting(s))
            && (StepOf(BOTH, t, Daemon).None? && StepOf(BOTH, t, Drain).None? ==>
                  t.pc == Sleep && t.memFront == t.memRear == s.memRear && n == Waiting(s))
  {
    AloneRun(s, run);
    StepsCounted(s, run, Tally([], 0, 0));
    var t, k := Exec(System(BOTH), s, run).value, TallyOf(s, run);
    if StepOf(BOTH, t, Daemon).None? && StepOf(BOTH, t, Drain).None? {
      QuietEnds(t, s.memFront + |k.slots|, s.memFront + Waiting(s));
    }
  }

  // ------------------------------------------------------------------ polling

  /** The looks at an empty ring since the daemon last had something to do. */
  function Looks(k: nat, s: State, step: Step): nat {
    if step != Daemon then k
    else match s.pc
      case Poll => if s.front == s.memRear then k + 1 else 0
      case LoadFront => 0
      case ClearAgain => 0
      case _ => k
  }

  predicate Polled(s: State, k: nat) {
    && (s.pc in {ClearFlag, Poll} ==> s.polls == k < MAX_POLL_COUNT)
    && (s.pc in {Consume, StoreFront, ClearAgain} ==> s.polls == 0 && (s.pc != ClearAgain ==> k == 0))
    && (s.pc in {SetFlag, Fence, Recheck} ==> s.polls == 0 && k == MAX_POLL_COUNT)
  }

  lemma {:induction false} PolledStep(f: Fences, s: State, step: Step, k: nat)
    requires Polled(s, k) && StepOf(f, s, step).Some?
    ensures Polled(StepOf(f, s, step).value, Looks(k, s, step))
  {
    if step == Daemon {
      match s.pc
      case Poll =>
      case Recheck =>
      case _ =>
    }
  }

  /** Over every run, with or without fences: the daemon decides to sleep after exactly as many
      looks at an empty ring as the limit says, all since its last request. */
  lemma {:induction false} SleepsAfterPolling(f: Fences, s: State, run: seq<Step>)
    requires Start(s) && Exec(System(f), s, run).Some?
    ensures var t, k := Exec(System(f), s, run).value, Fold(System(f), LooksOf(), 0, s, run);
            (t.pc == SetFlag ==> k == MAX_POLL_COUNT) && (t.pc == Poll ==> k < MAX_POLL_COUNT)
  {
    forall t, step, k | Polled(t, k) && StepOf(f, t, step).Some?
      ensures Polled(StepOf(f, t, step).value, Looks(k, t, step))
    {
      PolledStep(f, t, step, k);
    }
    FoldInvariant(System(f), LooksOf(), _ => true, (t, k) => Polled(t, k), s, 0, run);
  }

  function LooksOf(): (nat, State, Step) -> nat { (k, s, step) => Looks(k, s, step) }
}
