/** The level-like interrupt line of each device and the result ring they share
    (virtio_inject_irq after its suppression tests, the INTERRUPT_ACK register
    and virtio_dev_reset in tools/virtio/virtio.c). Any number of devices run
    interleaved with the hypervisor that consumes results; every ioctl may fail.
    A device that is not `Idle` holds its interrupt lock. */
module InterruptLine {
  import opened Runs
  import opened BridgeRing
  import opened Words

  /** A register as the set of its one bits. */
  type Bits = set<nat>

  const INT_VRING: Bits := {0}
  const INT_CONFIG: Bits := {1}

  /** `NeedsSlot` waits for room in the result ring; `Posted` is about to issue the ioctl. */
  datatype Pc = Idle | NeedsSlot | Posted

  datatype Result = Result(zone: nat, irq: nat)

  datatype Device = Device(
    result: Result, status: Bits, line: bool, pc: Pc,
    rises: nat, falls: nat,                            // successful assert and deassert ioctls
    lowers: nat,                                       // deassert ioctls issued
    injected: nat, merged: nat, posted: nat)           // history of unsuppressed injections

  datatype State = State(
    devs: seq<Device>,
    front: nat, rear: nat, slots: seq<Result>,
    results: seq<nat>, taken: nat)                     // history: devices that posted; results consumed

  /** `ret` is the result of the ioctl the step issues, if it issues one. */
  datatype Step =
    | Inject(d: nat) | Post(d: nat) | Assert(d: nat, ret: int)
    | Ack(d: nat, value: Bits, ret: int) | Reset(d: nat, ret: int)
    | Consume

  function InjectOn(v: Device): Device {
    var w := v.(status := v.status + INT_VRING, injected := v.injected + 1);
    if v.line then w.(merged := v.merged + 1) else w.(pc := NeedsSlot)
  }

  function AssertOn(v: Device, ret: int): Device {
    if ret == 0 then v.(pc := Idle, line := true, rises := v.rises + 1) else v.(pc := Idle)
  }

  function AckOn(v: Device, value: Bits, ret: int): Device {
    var after := v.status - value * (INT_VRING + INT_CONFIG);
    var deassert := v.status != {} && after == {} && v.line;
    var w := v.(lowers := v.lowers + if deassert then 1 else 0);
    if deassert && ret != 0 then w
    else w.(status := after, line := v.line && after != {}, falls := v.falls + if deassert then 1 else 0)
  }

  function ResetOn(v: Device, ret: int): Device {
    var line := v.line && ret != 0;
    v.(line := line, status := if line then v.status else {},
       falls := v.falls + (if v.line && !line then 1 else 0), lowers := v.lowers + (if v.line then 1 else 0))
  }

  function StepOf(s: State, step: Step): Option<State> {
    if step.Consume? then
      if s.front != s.rear then Some(s.(front := Next(s.front), taken := s.taken + 1)) else None
    else if step.d >= |s.devs| then None
    else
      var v := s.devs[step.d];
      match step
      case Inject(d) => if v.pc == Idle then Some(s.(devs := s.devs[d := InjectOn(v)])) else None
      case Post(d) =>
        if v.pc == NeedsSlot && Next(s.rear) != s.front && s.rear < |s.slots|
        then Some(s.(devs := s.devs[d := v.(pc := Posted, posted := v.posted + 1)],
                     slots := s.slots[s.rear := v.result], rear := Next(s.rear), results := s.results + [d]))
        else None
      case Assert(d, ret) => if v.pc == Posted then Some(s.(devs := s.devs[d := AssertOn(v, ret)])) else None
      case Ack(d, value, ret) => if v.pc == Idle then Some(s.(devs := s.devs[d := AckOn(v, value, ret)])) else None
      case Reset(d, ret) => if v.pc == Idle then Some(s.(devs := s.devs[d := ResetOn(v, ret)])) else None
  }

  function System(): (State, Step) -> Option<State> {
    (s, step) => StepOf(s, step)
  }

  predicate FreshDevice(v: Device) {
    && v.status == {} && !v.line && v.pc == Idle
    && v.rises == v.falls == v.lowers == 0 && v.injected == v.merged == v.posted == 0
  }

  predicate Init(s: State) {
    && (forall i :: 0 <= i < |s.devs| ==> FreshDevice(s.devs[i]))
    && s.front == s.rear == 0 && |s.slots| == MAX_REQ && s.results == [] && s.taken == 0
  }

  // ------------------------------------------------------------------ invariant

  predicate DeviceInv(v: Device) {
    && (v.line ==> v.status != {} && v.pc == Idle)
    && (v.pc != Idle ==> v.status != {})
    && v.rises == v.falls + (if v.line then 1 else 0)
    && v.injected == v.merged + v.posted + (if v.pc == NeedsSlot then 1 else 0)
  }

  /** Every unconsumed result is still in its slot, and each device posted as often as it says. */
  predicate RingInv(s: State) {
    && |s.slots| == MAX_REQ
    && s.taken <= |s.results| < s.taken + MAX_REQ
    && s.front == s.taken % MAX_REQ && s.rear == |s.results| % MAX_REQ
    && (forall i :: 0 <= i < |s.results| ==> s.results[i] < |s.devs|)
    && (forall i :: s.taken <= i < |s.results| ==> s.slots[i % MAX_REQ] == s.devs[s.results[i]].result)
    && (forall d :: 0 <= d < |s.devs| ==> multiset(s.results)[d] == s.devs[d].posted)
  }

  predicate Inv(s: State) {
    RingInv(s) && forall i :: 0 <= i < |s.devs| ==> DeviceInv(s.devs[i])
  }

  lemma {:induction false} DevicesKeep(v: Device, value: Bits, ret: int)
    requires DeviceInv(v)
    ensures v.pc == Idle ==> DeviceInv(InjectOn(v)) && DeviceInv(AckOn(v, value, ret)) && DeviceInv(ResetOn(v, ret))
    ensures v.pc == Posted ==> DeviceInv(AssertOn(v, ret))
  {
    assert 0 in v.status + INT_VRING;
  }

  lemma {:induction false} PostKeeps(s: State, d: nat)
    requires Inv(s) && StepOf(s, Post(d)).Some?
    ensures Inv(StepOf(s, Post(d)).value)
  {
    var t := StepOf(s, Post(d)).value;
    var n := |s.results|;
    FullExact(n, s.taken);
    ModNext(n);
    forall i | t.taken <= i < |t.results| ensures t.slots[i % MAX_REQ] == t.devs[t.results[i]].result {
      if i < n { ModDistinct(i, n, MAX_REQ); }
    }
  }

  /** A device may change as long as its results stay what they were. */
  lemma {:induction false} DeviceChange(s: State, d: nat, w: Device)
    requires Inv(s) && d < |s.devs| && DeviceInv(w) && w.result == s.devs[d].result && w.posted == s.devs[d].posted
    ensures Inv(s.(devs := s.devs[d := w]))
  {}

  lemma {:induction false} StepKeeps(s: State, step: Step)
    requires Inv(s) && StepOf(s, step).Some?
    ensures Inv(StepOf(s, step).value)
  {
    match step
    case Consume => ModNext(s.taken);
    case Post(d) => PostKeeps(s, d);
    case Ack(d, value, ret) =>
      DevicesKeep(s.devs[d], value, ret);
      DeviceChange(s, d, AckOn(s.devs[d], value, ret));
    case Inject(d) =>
      DevicesKeep(s.devs[d], {}, 0);
      DeviceChange(s, d, InjectOn(s.devs[d]));
    case Assert(d, ret) =>
      DevicesKeep(s.devs[d], {}, ret);
      DeviceChange(s, d, AssertOn(s.devs[d], ret));
    case Reset(d, ret) =>
      DevicesKeep(s.devs[d], {}, ret);
      DeviceChange(s, d, ResetOn(s.devs[d], ret));
  }

  lemma {:induction false} InvAlways(s: State, run: seq<Step>)
    requires Init(s) && Exec(System(), s, run).Some?
    ensures Inv(Exec(System(), s, run).value)
  {
    forall t, step | Inv(t) && System()(t, step).Some? ensures Inv(System()(t, step).value) {
      StepKeeps(t, step);
    }
    Invariant(System(), Inv, s, run);
  }

  // ------------------------------------------------------------------ what it is for

  /** Over every run, for every device: an asserted line has a pending status bit, the
      successful asserts exceed the successful deasserts by exactly the line, and every
      injection was merged, or posted one result, or is waiting to. */
  lemma {:induction false} LineOverAllRuns(s: State, run: seq<Step>, d: nat)
    requires Init(s) && Exec(System(), s, run).Some? && d < |Exec(System(), s, run).value.devs|
    ensures var t := Exec(System(), s, run).value;
            var v := t.devs[d];
            && (v.line ==> v.status != {})
            && v.rises - v.falls == (if v.line then 1 else 0)
            && v.injected == v.merged + multiset(t.results)[d] + (if v.pc == NeedsSlot then 1 else 0)
  {
    InvAlways(s, run);
  }

  /** The injections into a device, by how they found its line. */
  datatype Injections = Injections(up: nat, low: nat)

  function Note(k: Injections, s: State, step: Step, d: nat): Injections {
    if step != Inject(d) || d >= |s.devs| then k
    else if s.devs[d].line then k.(up := k.up + 1)
    else k.(low := k.low + 1)
  }

  function InjectionsOf(s: State, run: seq<Step>, d: nat): Injections {
    Fold(System(), (k, t, step) => Note(k, t, step, d), Injections(0, 0), s, run)
  }

  predicate Noted(s: State, k: Injections, d: nat) {
    Inv(s) && d < |s.devs| && s.devs[d].merged == k.up && s.devs[d].injected == k.up + k.low
  }

  lemma {:induction false} NotedStep(s: State, step: Step, k: Injections, d: nat)
    requires Noted(s, k, d) && StepOf(s, step).Some?
    ensures Noted(StepOf(s, step).value, Note(k, s, step, d), d)
  {
    StepKeeps(s, step);
  }

  /** Over every run, for every device: the injections merged are exactly those that found its
      line up, and those that found it low have posted one result each, or wait for a slot. */
  lemma {:induction false} MergedOverAllRuns(s: State, run: seq<Step>, d: nat)
    requires Init(s) && Exec(System(), s, run).Some? && d < |s.devs|
    ensures var t, k := Exec(System(), s, run).value, InjectionsOf(s, run, d);
            && d < |t.devs| && t.devs[d].merged == k.up
            && multiset(t.results)[d] + (if t.devs[d].pc == NeedsSlot then 1 else 0) == k.low
  {
    forall t, step, k | Noted(t, k, d) && StepOf(t, step).Some?
      ensures Noted(StepOf(t, step).value, Note(k, t, step, d), d)
    {
      NotedStep(t, step, k, d);
    }
    FoldInvariant(System(), (k, t, step) => Note(k, t, step, d), _ => true, (t, k) => Noted(t, k, d),
                  s, Injections(0, 0), run);
    InvAlways(s, run);
  }

  /** A device that waits for a slot can post exactly while fewer than 31 results are unconsumed;
      otherwise the hypervisor can consume one, and then it can. */
  lemma {:induction false} PostExact(s: State, d: nat)
    requires Inv(s) && d < |s.devs| && s.devs[d].pc == NeedsSlot
    ensures StepOf(s, Post(d)).Some? <==> |s.results| - s.taken < MAX_REQ - 1
    ensures StepOf(s, Post(d)).None? ==>
              StepOf(s, Consume).Some? && StepOf(StepOf(s, Consume).value, Post(d)).Some?
  {
    FullExact(|s.results|, s.taken);
    if StepOf(s, Post(d)).None? {
      assert s.front != s.rear by { ModDistinct(s.taken, |s.results|, MAX_REQ); }
      StepKeeps(s, Consume);
      FullExact(|s.results|, s.taken + 1);
    }
  }

  /** An injection that finds the line low raises it: with room in the result ring the device
      posts one result and asserts, and the guest sees the line and the status bit. */
  lemma {:induction false} InjectionRaises(s: State, d: nat)
    requires Inv(s) && d < |s.devs| && s.devs[d].pc == Idle && !s.devs[d].line
    requires |s.results| - s.taken < MAX_REQ - 1
    ensures var t := Exec(System(), s, [Inject(d), Post(d), Assert(d, 0)]);
            && t.Some? && t.value.results == s.results + [d] && |t.value.devs| == |s.devs| && |t.value.slots| == MAX_REQ
            && t.value.slots[|s.results| % MAX_REQ] == s.devs[d].result
            && t.value.devs[d].line && 0 in t.value.devs[d].status && t.value.devs[d].pc == Idle
  {
    var s1 := StepOf(s, Inject(d)).value;
    StepKeeps(s, Inject(d));
    PostExact(s1, d);
    var s2 := StepOf(s1, Post(d)).value;
    var s3 := StepOf(s2, Assert(d, 0)).value;
    assert 0 in s3.devs[d].status;
    var run := [Inject(d), Post(d), Assert(d, 0)];
    assert run[1..] == [Post(d), Assert(d, 0)] && run[1..][1..] == [Assert(d, 0)] && run[1..][1..][1..] == [];
    assert Exec(System(), s2, [Assert(d, 0)]) == Some(s3);
    assert Exec(System(), s1, [Post(d), Assert(d, 0)]) == Some(s3);
  }

  /** How many of the assert ioctls of a device in a run succeeded. */
  function Asserted(run: seq<Step>, d: nat): nat {
    if run == [] then 0 else (if run[0] == Assert(d, 0) then 1 else 0) + Asserted(run[1..], d)
  }

  lemma {:induction false} RisesOneStep(s: State, step: Step, d: nat)
    requires StepOf(s, step).Some? && d < |s.devs|
    ensures var t := StepOf(s, step).value;
            |t.devs| == |s.devs| && t.devs[d].rises == s.devs[d].rises + if step == Assert(d, 0) then 1 else 0
  {
  }

  /** The history counts the ioctls that succeeded. */
  lemma {:induction false} RisesCounted(s: State, run: seq<Step>, d: nat)
    requires Exec(System(), s, run).Some? && d < |s.devs|
    ensures var t := Exec(System(), s, run).value;
            |t.devs| == |s.devs| && t.devs[d].rises == s.devs[d].rises + Asserted(run, d)
    decreases |run|
  {
    if run != [] {
      RisesOneStep(s, run[0], d);
      RisesCounted(StepOf(s, run[0]).value, run[1..], d);
    }
  }

  /** The line rises exactly by an assert ioctl that succeeds. It falls only when no status bit
      remains, and only by a deassert ioctl that succeeds. */
  lemma {:induction false} LineFallsOnlyWhenClear(s: State, run: seq<Step>, step: Step, d: nat)
    requires Init(s) && Exec(System(), s, run).Some?
    requires StepOf(Exec(System(), s, run).value, step).Some? && d < |Exec(System(), s, run).value.devs|
    ensures var t := Exec(System(), s, run).value;
            var u := StepOf(t, step).value;
            && |u.devs| == |t.devs|
            && (t.devs[d].line && !u.devs[d].line ==>
                  && u.devs[d].status == {} && u.devs[d].falls == t.devs[d].falls + 1
                  && (step.Ack? || step.Reset?) && step.d == d && step.ret == 0)
            && (!t.devs[d].line && u.devs[d].line <==> step == Assert(d, 0))
            && (!t.devs[d].line && u.devs[d].line ==> u.devs[d].status != {})
  {
    InvAlways(s, run);
    var t := Exec(System(), s, run).value;
    StepKeeps(t, step);
  }

  /** The step asks device `d` to forget its pending interrupt. */
  predicate Clears(step: Step, d: nat) {
    (step.Ack? && step.d == d && 0 in step.value) || (step.Reset? && step.d == d)
  }

  /** Whether an interrupt of device `d` is pending after a run: it was injected, and since then
      nothing cleared it, except that with the line up only a deassert that succeeds counts. */
  function Pending(s: State, run: seq<Step>, d: nat): bool {
    if run == [] then false
    else
      var n := |run| - 1;
      match Exec(System(), s, run[..n])
      case None => false
      case Some(t) =>
        if run[n] == Inject(d) then true
        else if Clears(run[n], d) && d < |t.devs| && (!t.devs[d].line || run[n].ret == 0) then false
        else Pending(s, run[..n], d)
  }

  /** How many deassert ioctls a run issues for device `d`: one for each clearing step that finds
      its line up. */
  function Lowerings(s: State, run: seq<Step>, d: nat): nat {
    if run == [] then 0
    else
      var n := |run| - 1;
      match Exec(System(), s, run[..n])
      case None => 0
      case Some(t) =>
        Lowerings(s, run[..n], d) + if Clears(run[n], d) && d < |t.devs| && t.devs[d].line then 1 else 0
  }

  lemma {:induction false} RunLast(s: State, run: seq<Step>)
    requires run != [] && Exec(System(), s, run).Some?
    ensures var n := |run| - 1;
            && Exec(System(), s, run[..n]).Some?
            && StepOf(Exec(System(), s, run[..n]).value, run[n]) == Exec(System(), s, run)
    decreases run
  {
    var n := |run| - 1;
    if n > 0 {
      RunLast(StepOf(s, run[0]).value, run[1..]);
      assert run[1..][..n - 1] == run[..n][1..];
    } else {
      assert run[..0] == [] && run[1..] == [];
    }
  }

  lemma {:induction false} StatusOneStep(s: State, step: Step, d: nat)
    requires Inv(s) && StepOf(s, step).Some? && d < |s.devs| && s.devs[d].status <= INT_VRING
    ensures var v, w := s.devs[d], StepOf(s, step).value.devs[d];
            && w.status == (if step == Inject(d) then INT_VRING
                            else if Clears(step, d) && (!v.line || step.ret == 0) then {} else v.status)
            && w.lowers == v.lowers + if Clears(step, d) && v.line then 1 else 0
  {
    var v := s.devs[d];
    match step
    case Inject(e) => if e == d { assert v.status + INT_VRING == INT_VRING; }
    case Ack(e, value, ret) =>
      if e == d {
        var after := v.status - value * (INT_VRING + INT_CONFIG);
        if 0 in value { assert after == {}; } else { assert after == v.status; }
      }
    case _ =>
  }

  /** Over every run: the status register is exactly the pending interrupt, and the deassert
      ioctls are exactly those that clearing a raised line takes. */
  lemma {:induction false} StatusOverAllRuns(s: State, run: seq<Step>, d: nat)
    requires Init(s) && Exec(System(), s, run).Some? && d < |s.devs|
    ensures var t := Exec(System(), s, run).value;
            && |t.devs| == |s.devs|
            && t.devs[d].status == (if Pending(s, run, d) then INT_VRING else {})
            && t.devs[d].lowers == Lowerings(s, run, d)
    decreases run
  {
    if run != [] {
      var n := |run| - 1;
      RunLast(s, run);
      StatusOverAllRuns(s, run[..n], d);
      InvAlways(s, run[..n]);
      StatusOneStep(Exec(System(), s, run[..n]).value, run[n], d);
    }
  }

  /** A reset clears the status and the line unless the line is up and cannot be lowered. */
  lemma {:induction false} ResetExact(v: Device, ret: int)
    requires DeviceInv(v)
    ensures var w := ResetOn(v, ret);
            && (w.line <==> v.line && ret != 0)
            && (w.status == {} <==> !v.line || ret == 0) && (w.status != {} ==> w == v.(lowers := v.lowers + 1))
  {
  }

  /** No step overwrites a result that the hypervisor has not consumed. */
  lemma {:induction false} ResultsAreSafe(s: State, run: seq<Step>, step: Step)
    requires Init(s) && Exec(System(), s, run).Some?
    requires StepOf(Exec(System(), s, run).value, step).Some?
    ensures var t := Exec(System(), s, run).value;
            var u := StepOf(t, step).value;
            && |t.slots| == |u.slots| == MAX_REQ && |t.results| < t.taken + MAX_REQ
            && t.results <= u.results && |u.results| <= |t.results| + 1
            && forall i: nat :: t.taken <= i < |t.results| ==> u.slots[i % MAX_REQ] == t.slots[i % MAX_REQ]
  {
    InvAlways(s, run);
    var t := Exec(System(), s, run).value;
    var u := StepOf(t, step).value;
    forall i: nat | t.taken <= i < |t.results| ensures u.slots[i % MAX_REQ] == t.slots[i % MAX_REQ] {
      if step.Post? { ModDistinct(i, |t.results|, MAX_REQ); }
    }
  }
}
