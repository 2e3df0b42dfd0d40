/** The 32-slot request ring between the hypervisor and the daemon
    (consume_pending_requests, virtio_handle_req and virtio_finish_cfg_req in
    tools/virtio/virtio.c), as interleaved steps of a producer, the daemon and a
    device table that may grow meanwhile. */
module RequestRing {
  import opened Runs
  import opened Ranges
  import opened BridgeRing
  import opened Words
  import opened DeviceTable

  const MAX_CPUS: nat := 32

  datatype Access = Access(cpu: nat, zone: nat, address: u64, isWrite: bool, needInterrupt: bool)

  /** One handled request: whether a device matched and the value read (0 for a write or
      when no device matched). */
  datatype Handled = Handled(access: Access, matched: bool, value: u64)

  /** The daemon: about to look at the ring; inside virtio_finish_cfg_req before the value
      and before the flag store; about to release the slot. */
  datatype Pc = Fetch | StoreValue(h: Handled) | BumpFlag(h: Handled) | Release

  datatype State = State(
    pc: Pc,
    front: nat, rear: nat, slots: seq<Access>,   // shared ring; the daemon's copy of front agrees outside Release
    written: bool,                               // the producer has filled slots[rear] but not published it
    cfgFlags: seq<u64>, cfgValues: seq<u64>,
    table: seq<Device>,
    produced: seq<Access>, handled: seq<Handled>) // history

  datatype Step =
    | Write(access: Access) | Publish
    | Take(value: u64)      // read the slot, route it, run the device access that yields `value`
    | PutValue | PutFlag | Free
    | Grow(devices: seq<Device>)

  predicate Routed(table: seq<Device>, a: Access) {
    exists d :: d in table && Matches(d, a.zone, a.address)
  }

  /** Control requests, and requests that match no device, are answered through the flags. */
  predicate Answered(h: Handled) {
    !h.matched || !h.access.needInterrupt
  }

  /** What virtio_handle_req does to the request: the outcome of routing and access. */
  function Outcome(table: seq<Device>, a: Access, value: u64): Handled {
    if !Routed(table, a) then Handled(a, false, 0)
    else Handled(a, true, if a.isWrite then 0 else value)
  }

  function StepOf(s: State, step: Step): Option<State> {
    match step
    case Write(a) =>
      if !s.written && Next(s.rear) != s.front && a.cpu < MAX_CPUS && s.rear < |s.slots|
      then Some(s.(slots := s.slots[s.rear := a], written := true)) else None
    case Publish =>
      if s.written && s.rear < |s.slots|
      then Some(s.(rear := Next(s.rear), written := false, produced := s.produced + [s.slots[s.rear]])) else None
    case Take(value) =>
      if s.pc == Fetch && s.front != s.rear && s.front < |s.slots|
      then
        var h := Outcome(s.table, s.slots[s.front], value);
        if Answered(h) then Some(s.(pc := StoreValue(h)))
        else Some(s.(pc := Release, handled := s.handled + [h]))
      else None
    case PutValue =>
      if s.pc.StoreValue? && s.pc.h.access.cpu < |s.cfgValues|
      then Some(s.(pc := BumpFlag(s.pc.h), cfgValues := s.cfgValues[s.pc.h.access.cpu := s.pc.h.value])) else None
    case PutFlag =>
      if s.pc.BumpFlag? && s.pc.h.access.cpu < |s.cfgFlags|
      then
        var cpu := s.pc.h.access.cpu;
        Some(s.(pc := Release, handled := s.handled + [s.pc.h],
                cfgFlags := s.cfgFlags[cpu := (s.cfgFlags[cpu] + 1) % TWO64]))
      else None
    case Free =>
      if s.pc == Release then Some(s.(pc := Fetch, front := Next(s.front))) else None
    case Grow(devices) => Some(s.(table := s.table + devices))
  }

  function System(): (State, Step) -> Option<State> {
    (s, step) => StepOf(s, step)
  }

  predicate Init(s: State) {
    && s.pc == Fetch && s.front == 0 && s.rear == 0 && |s.slots| == MAX_REQ && !s.written
    && |s.cfgFlags| == MAX_CPUS && |s.cfgValues| == MAX_CPUS
    && (forall c :: 0 <= c < MAX_CPUS ==> s.cfgFlags[c] == 0 && s.cfgValues[c] == 0)
    && s.produced == [] && s.handled == []
  }

  // ------------------------------------------------------------------ specification

  /** How many answers the CPU has got. */
  function Answers(handled: seq<Handled>, cpu: nat): nat {
    if handled == [] then 0
    else
      var h := handled[|handled| - 1];
      Answers(handled[..|handled| - 1], cpu) + if Answered(h) && h.access.cpu == cpu then 1 else 0
  }

  /** The value of the CPU's newest answer. */
  function NewestAnswer(handled: seq<Handled>, cpu: nat): u64 {
    if handled == [] then 0
    else
      var h := handled[|handled| - 1];
      if Answered(h) && h.access.cpu == cpu then h.value else NewestAnswer(handled[..|handled| - 1], cpu)
  }

  /** Requests whose slot the daemon has given back. */
  function Released(s: State): int {
    if s.pc == Release then |s.handled| - 1 else |s.handled|
  }

  /** Everything published and not released is in its slot, and the slot being filled is
      none of those. */
  predicate RingInv(s: State) {
    && |s.slots| == MAX_REQ
    && 0 <= Released(s) <= |s.handled| <= |s.produced|
    && s.front == Released(s) % MAX_REQ && s.rear == |s.produced| % MAX_REQ
    && |s.produced| - Released(s) <= (if s.written then MAX_REQ - 2 else MAX_REQ - 1)
    && (forall i :: Released(s) <= i < |s.produced| ==> s.slots[i % MAX_REQ] == s.produced[i])
    && (s.written ==> s.slots[s.rear].cpu < MAX_CPUS)
    && (forall i :: 0 <= i < |s.produced| ==> s.produced[i].cpu < MAX_CPUS)
  }

  predicate HistoryInv(s: State) {
    && |s.handled| <= |s.produced|
    && (forall i :: 0 <= i < |s.handled| ==> s.handled[i].access == s.produced[i])
    && (s.pc.StoreValue? || s.pc.BumpFlag? ==>
          && |s.handled| < |s.produced| && s.pc.h.access == s.produced[|s.handled|] && Answered(s.pc.h))
  }

  predicate AnswerInv(s: State) {
    && |s.cfgFlags| == MAX_CPUS && |s.cfgValues| == MAX_CPUS
    && (forall c :: 0 <= c < MAX_CPUS ==> s.cfgFlags[c] == Answers(s.handled, c) % TWO64)
    && (forall c :: 0 <= c < MAX_CPUS ==>
          s.cfgValues[c]
          == if s.pc.BumpFlag? && s.pc.h.access.cpu == c then s.pc.h.value else NewestAnswer(s.handled, c))
  }

  predicate Inv(s: State) {
    RingInv(s) && HistoryInv(s) && AnswerInv(s)
  }

  // ------------------------------------------------------------------ proofs

  lemma {:induction false} WriteKeepsRing(s: State, a: Access)
    requires RingInv(s) && StepOf(s, Write(a)).Some?
    ensures RingInv(StepOf(s, Write(a)).value)
  {
    var t := StepOf(s, Write(a)).value;
    var n := |s.produced|;
    FullExact(n, Released(s));
    forall i | Released(s) <= i < n ensures t.slots[i % MAX_REQ] == t.produced[i] {
      ModDistinct(i, n, MAX_REQ);
    }
  }

  lemma {:induction false} PublishKeepsRing(s: State)
    requires RingInv(s) && StepOf(s, Publish).Some?
    ensures RingInv(StepOf(s, Publish).value)
  {
    ModNext(|s.produced|);
    var t := StepOf(s, Publish).value;
    forall i | Released(t) <= i < |t.produced| ensures t.slots[i % MAX_REQ] == t.produced[i] {
      assert i < |s.produced| ==> t.produced[i] == s.produced[i];
    }
  }

  lemma {:induction false} DaemonKeepsRing(s: State, step: Step)
    requires Inv(s) && StepOf(s, step).Some? && !step.Write? && !step.Publish?
    ensures RingInv(StepOf(s, step).value)
  {
    if step.Free? { ModNext(Released(s)); }
    if step.Take? { assert Released(s) != |s.produced|; }
    var t := StepOf(s, step).value;
    assert t.slots == s.slots && t.produced == s.produced && Released(t) >= Released(s);
    forall i | Released(t) <= i < |t.produced| ensures t.slots[i % MAX_REQ] == t.produced[i] {
      assert s.slots[i % MAX_REQ] == s.produced[i];
    }
  }

  lemma {:induction false} RingKeeps(s: State, step: Step)
    requires Inv(s) && StepOf(s, step).Some?
    ensures RingInv(StepOf(s, step).value)
  {
    match step
    case Write(a) => WriteKeepsRing(s, a);
    case Publish => PublishKeepsRing(s);
    case _ => DaemonKeepsRing(s, step);
  }

  lemma {:induction false} HistoryKeeps(s: State, step: Step)
    requires Inv(s) && StepOf(s, step).Some?
    ensures HistoryInv(StepOf(s, step).value)
  {
    if step.Take? {
      assert Released(s) < |s.produced|;
    }
  }

  lemma {:induction false} AnswersAppend(handled: seq<Handled>, h: Handled, cpu: nat)
    ensures Answers(handled + [h], cpu) == Answers(handled, cpu) + if Answered(h) && h.access.cpu == cpu then 1 else 0
    ensures NewestAnswer(handled + [h], cpu)
            == if Answered(h) && h.access.cpu == cpu then h.value else NewestAnswer(handled, cpu)
  {
    assert (handled + [h])[..|handled|] == handled;
  }

  lemma {:induction false} TakeKeepsAnswers(s: State, value: u64)
    requires AnswerInv(s) && StepOf(s, Take(value)).Some?
    ensures AnswerInv(StepOf(s, Take(value)).value)
  {
    var t := StepOf(s, Take(value)).value;
    if t.pc == Release {
      var h := t.handled[|s.handled|];
      forall c | 0 <= c < MAX_CPUS
        ensures Answers(t.handled, c) == Answers(s.handled, c)
                && NewestAnswer(t.handled, c) == NewestAnswer(s.handled, c)
      {
        AnswersAppend(s.handled, h, c);
      }
    }
  }

  lemma {:induction false} CountNext(n: nat)
    ensures (n % TWO64 + 1) % TWO64 == (n + 1) % TWO64
  {}

  lemma {:induction false} FlagKeepsAnswers(s: State)
    requires AnswerInv(s) && HistoryInv(s) && StepOf(s, PutFlag).Some?
    ensures AnswerInv(StepOf(s, PutFlag).value)
  {
    var t := StepOf(s, PutFlag).value;
    forall c | 0 <= c < MAX_CPUS
      ensures t.cfgFlags[c] == Answers(t.handled, c) % TWO64 && t.cfgValues[c] == NewestAnswer(t.handled, c)
    {
      AnswersAppend(s.handled, s.pc.h, c);
      CountNext(Answers(s.handled, c));
    }
  }

  lemma {:induction false} AnswerKeeps(s: State, step: Step)
    requires Inv(s) && StepOf(s, step).Some?
    ensures AnswerInv(StepOf(s, step).value)
  {
    match step
    case Take(value) => TakeKeepsAnswers(s, value);
    case PutFlag => FlagKeepsAnswers(s);
    case _ =>
      var t := StepOf(s, step).value;
      assert t.handled == s.handled && t.cfgFlags == s.cfgFlags;
  }

  lemma {:induction false} InvAlways(s: State, run: seq<Step>)
    requires Init(s) && Exec(System(), s, run).Some?
    ensures Inv(Exec(System(), s, run).value)
  {
    forall t, step | Inv(t) && System()(t, step).Some? ensures Inv(System()(t, step).value) {
      RingKeeps(t, step);
      HistoryKeeps(t, step);
      AnswerKeeps(t, step);
    }
    Invariant(System(), Inv, s, run);
  }

  // ------------------------------------------------------------------ what it is for

  function Accesses(handled: seq<Handled>): (r: seq<Access>)
    ensures |r| == |handled|
  {
    seq(|handled|, i requires 0 <= i < |handled| => handled[i].access)
  }

  /** Over every run the requests handled are a prefix of those produced (first in first out,
      each exactly once), and the flag of every CPU counts its answers modulo 2^64. */
  lemma {:induction false} FifoExactlyOnce(s: State, run: seq<Step>)
    requires Init(s) && Exec(System(), s, run).Some?
    ensures var t := Exec(System(), s, run).value;
            && Accesses(t.handled) <= t.produced
            && |t.cfgFlags| == MAX_CPUS
            && forall c :: 0 <= c < MAX_CPUS ==> t.cfgFlags[c] == Answers(t.handled, c) % TWO64
  {
    InvAlways(s, run);
    var t := Exec(System(), s, run).value;
    assert forall i :: 0 <= i < |t.handled| ==> Accesses(t.handled)[i] == t.produced[i];
  }

  /** No step, of either side, changes a slot that still holds an unreleased request, and the
      front index moves only past handled requests. */
  lemma {:induction false} SlotsAreSafe(s: State, run: seq<Step>, step: Step)
    requires Init(s) && Exec(System(), s, run).Some?
    requires StepOf(Exec(System(), s, run).value, step).Some?
    ensures var t := Exec(System(), s, run).value;
            var u := StepOf(t, step).value;
            && |t.slots| == |u.slots| == MAX_REQ
            && (forall i :: 0 <= Released(t) <= i < |t.produced| ==>
                  u.slots[i % MAX_REQ] == t.slots[i % MAX_REQ] == t.produced[i])
            && Released(u) <= |t.handled|
  {
    InvAlways(s, run);
    var t := Exec(System(), s, run).value;
    var u := StepOf(t, step).value;
    RingKeeps(t, step);
    forall i | 0 <= Released(t) <= i < |t.produced| ensures u.slots[i % MAX_REQ] == t.slots[i % MAX_REQ] {
      if step.Write? { ModDistinct(i, |t.produced|, MAX_REQ); }
    }
  }

  /** When the flag of a CPU changes, exactly one answer to it was added and its value was
      already in place before the flag. */
  lemma {:induction false} ValueBeforeFlag(s: State, run: seq<Step>, step: Step, cpu: nat)
    requires Init(s) && Exec(System(), s, run).Some? && cpu < MAX_CPUS
    requires StepOf(Exec(System(), s, run).value, step).Some?
    ensures var t := Exec(System(), s, run).value;
            var u := StepOf(t, step).value;
            && |t.cfgFlags| == |u.cfgFlags| == |t.cfgValues| == |u.cfgValues| == MAX_CPUS
            && (t.cfgFlags[cpu] != u.cfgFlags[cpu] ==>
                  && Answers(u.handled, cpu) == Answers(t.handled, cpu) + 1
                  && t.cfgValues[cpu] == u.cfgValues[cpu] == NewestAnswer(u.handled, cpu))
  {
    InvAlways(s, run);
    var t := Exec(System(), s, run).value;
    AnswerKeeps(t, step);
    if step.PutFlag? { AnswersAppend(t.handled, t.pc.h, cpu); }
  }

  // ------------------------------------------------------------------ who gets which answer

  /** One request as the daemon took it: the access, the device table of that moment, and what
      the device at that address yields to a read, if there is one. */
  datatype Taken = Taken(access: Access, table: seq<Device>, value: u64)

  /** A device of the zone has the address inside its range, and the range does not wrap. */
  predicate Held(x: Taken) {
    exists d :: d in x.table && d.zone == x.access.zone && d.base <= x.access.address < d.base + d.len < TWO64
  }

  /** Data requests that a device holds are answered by an interrupt, all others through the flags. */
  predicate ThroughFlag(x: Taken) { !x.access.needInterrupt || !Held(x) }

  /** A read that a device holds yields what the device has, everything else 0. */
  function Yield(x: Taken): u64 { if Held(x) && !x.access.isWrite then x.value else 0 }

  function FlagCount(xs: seq<Taken>, cpu: nat): nat {
    if xs == [] then 0
    else
      var x := xs[|xs| - 1];
      FlagCount(xs[..|xs| - 1], cpu) + if ThroughFlag(x) && x.access.cpu == cpu then 1 else 0
  }

  function NewestValue(xs: seq<Taken>, cpu: nat): u64 {
    if xs == [] then 0
    else
      var x := xs[|xs| - 1];
      if ThroughFlag(x) && x.access.cpu == cpu then Yield(x) else NewestValue(xs[..|xs| - 1], cpu)
  }

  function Note(xs: seq<Taken>, s: State, step: Step): seq<Taken> {
    if step.Take? && s.front < |s.slots| then xs + [Taken(s.slots[s.front], s.table, step.value)] else xs
  }

  /** The requests the daemon takes in a run, in order. */
  function TakenIn(s: State, run: seq<Step>): seq<Taken> {
    Fold(System(), (xs, t, step) => Note(xs, t, step), [], s, run)
  }

  /** The daemon's record of a request says what the request got. */
  predicate Agrees(h: Handled, x: Taken) {
    h.access == x.access && (Answered(h) <==> ThroughFlag(x)) && (Answered(h) ==> h.value == Yield(x))
  }

  lemma {:induction false} RoutedIsHeld(x: Taken)
    ensures Routed(x.table, x.access) <==> Held(x)
  {
    forall d: Device ensures Matches(d, x.access.zone, x.access.address) <==>
                       d.zone == x.access.zone && d.base <= x.access.address < d.base + d.len < TWO64
    {
      InRangeExact(x.access.address, d.base, d.len);
    }
  }

  lemma {:induction false} OutcomeAgrees(x: Taken)
    ensures Agrees(Outcome(x.table, x.access, x.value), x)
  {
    RoutedIsHeld(x);
  }

  /** The answer to the newest request taken is still being stored. */
  predicate Answering(s: State) { s.pc.StoreValue? || s.pc.BumpFlag? }

  predicate Noted(s: State, xs: seq<Taken>) {
    && |xs| == |s.handled| + (if Answering(s) then 1 else 0)
    && (forall k :: 0 <= k < |s.handled| ==> Agrees(s.handled[k], xs[k]))
    && (Answering(s) ==> Agrees(s.pc.h, xs[|s.handled|]))
  }

  lemma {:induction false} NotedStep(s: State, step: Step, xs: seq<Taken>)
    requires Noted(s, xs) && StepOf(s, step).Some?
    ensures Noted(StepOf(s, step).value, Note(xs, s, step))
  {
    if step.Take? { OutcomeAgrees(Taken(s.slots[s.front], s.table, step.value)); }
  }

  lemma {:induction false} NotedRun(s: State, run: seq<Step>)
    requires Init(s) && Exec(System(), s, run).Some?
    ensures Noted(Exec(System(), s, run).value, TakenIn(s, run))
  {
    forall t, step, xs | Noted(t, xs) && StepOf(t, step).Some? ensures Noted(StepOf(t, step).value, Note(xs, t, step)) {
      NotedStep(t, step, xs);
    }
    FoldInvariant(System(), (xs, t, step) => Note(xs, t, step), _ => true, (t, xs) => Noted(t, xs), s, [], run);
  }

  lemma {:induction false} CountsAgree(handled: seq<Handled>, xs: seq<Taken>, cpu: nat)
    requires |handled| == |xs| && forall k :: 0 <= k < |xs| ==> Agrees(handled[k], xs[k])
    ensures Answers(handled, cpu) == FlagCount(xs, cpu) && NewestAnswer(handled, cpu) == NewestValue(xs, cpu)
    decreases xs
  {
    if xs != [] { CountsAgree(handled[..|xs| - 1], xs[..|xs| - 1], cpu); }
  }

  /** Over every run: the daemon takes the requests in the order they were produced; the flag of
      every CPU counts exactly those of its requests taken so far that are no data requests or
      that no device of the table of that moment holds, except the one whose answer is still being
      stored; and its value is what the newest of them yields, in place before the flag counts it. */
  lemma {:induction false} AnswersOverAllRuns(s: State, run: seq<Step>, cpu: nat)
    requires Init(s) && Exec(System(), s, run).Some? && cpu < MAX_CPUS
    ensures var t, xs := Exec(System(), s, run).value, TakenIn(s, run);
            && |xs| <= |t.produced| && (forall k :: 0 <= k < |xs| ==> xs[k].access == t.produced[k])
            && |t.cfgFlags| == |t.cfgValues| == MAX_CPUS && (Answering(t) ==> xs != [])
            && var done := if Answering(t) then xs[..|xs| - 1] else xs;
            && t.cfgFlags[cpu] == FlagCount(done, cpu) % TWO64
            && t.cfgValues[cpu] == NewestValue(if t.pc.BumpFlag? then xs else done, cpu)
  {
    NotedRun(s, run);
    InvAlways(s, run);
    var t, xs := Exec(System(), s, run).value, TakenIn(s, run);
    CountsAgree(t.handled, if Answering(t) then xs[..|xs| - 1] else xs, cpu);
  }

  /** A CPU can put a request into the ring exactly while fewer than 31 are unreleased, and then
      publish it. */
  lemma {:induction false} RequestGoesIn(s: State, run: seq<Step>, a: Access)
    requires Init(s) && Exec(System(), s, run).Some? && a.cpu < MAX_CPUS
    ensures var t := Exec(System(), s, run).value;
            !t.written ==>
              && (StepOf(t, Write(a)).Some? <==> |t.produced| - Released(t) < MAX_REQ - 1)
              && (StepOf(t, Write(a)).Some? ==>
                    var u := StepOf(StepOf(t, Write(a)).value, Publish);
                    u.Some? && u.value.produced == t.produced + [a] && Released(u.value) == Released(t))
  {
    InvAlways(s, run);
    var t := Exec(System(), s, run).value;
    FullExact(|t.produced|, Released(t));
  }

  /** The daemon is never stuck: over every run, while a request is published and not released,
      its next step is enabled, whatever the access yields. */
  lemma {:induction false} DaemonMoves(s: State, run: seq<Step>, value: u64)
    requires Init(s) && Exec(System(), s, run).Some?
    ensures var t := Exec(System(), s, run).value;
            Released(t) < |t.produced| ==>
              StepOf(t, match t.pc
                        case Fetch => Take(value)
                        case StoreValue(_) => PutValue
                        case BumpFlag(_) => PutFlag
                        case Release => Free).Some?
  {
    InvAlways(s, run);
    var t := Exec(System(), s, run).value;
    if t.pc == Fetch && Released(t) < |t.produced| { ModDistinct(Released(t), |t.produced|, MAX_REQ); }
  }
}
