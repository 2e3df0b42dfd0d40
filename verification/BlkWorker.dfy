/** The virtio-blk worker, reset and close protocol (blkproc_thread,
    virtio_blk_notify_handler, virtio_blk_reset and virtio_blk_close in
    tools/virtio/devices/blk/virtio_blk.c, and the queue re-initialisation of
    virtio_dev_reset in tools/virtio/virtio.c): two threads, one mutex, one
    condition variable, interleaved at lock and wait granularity, with spurious
    wakeups and a guest that adds requests at any time. */
module BlkWorker {
  import opened Runs
  import opened Words

  /** The worker. It holds the mutex in `Check` and `ResetCheck` and when it is about to wait
      (`IdleEnter`, `PauseEnter`); the two waits have released it and carry whether they have
      been signalled. */
  datatype WorkerPc =
    | Top | Check | IdleEnter | IdleWait(woken: bool) | Branch
    | ResetLock | ResetCheck | PauseEnter | ResetWait(woken: bool)
    | DrainTest | Disable | Test | Handle | Enable | Recheck | Inject | LoopEnd
    | Exited

  /** The main thread. It holds the mutex in `ResetHold` and, about to wait, in `PausedEnter`;
      `VqReset(i)` is about to re-initialise queue `i`. */
  datatype MainPc =
    | Free | ResetEnter | ResetHold | PausedEnter | PausedWait(woken: bool) | VqReset(i: nat)
    | KickEnter | CloseEnter | Join | Closed

  datatype State = State(
    worker: WorkerPc, closing: bool, resetting: bool,    // with its local variables
    main: MainPc,
    close: bool, reset: bool, paused: bool,              // BlkDev flags
    queues: nat,                                         // vqs_len
    avail: nat,                                          // available entries not yet consumed
    budget: nat,                                         // entries the guest will still add
    owed: nat)                                           // history: available entries added since the last kick

  /** `Worker` and `Main` are the threads' own steps; the `...Spurious` ones are condition
      waits that return unsignalled. The `Start...` steps are guest accesses. */
  datatype Step =
    | Worker | WorkerSpurious | Main | MainSpurious
    | StartReset | StartKick | StartClose | GuestAdds

  predicate WorkerHolds(w: WorkerPc) { w == Check || w == IdleEnter || w == ResetCheck || w == PauseEnter }

  predicate MainHolds(m: MainPc) { m == ResetHold || m == PausedEnter }

  predicate MutexFree(s: State) { !WorkerHolds(s.worker) && !MainHolds(s.main) }

  /** pthread_cond_signal or _broadcast: the caller is not waiting, so both wake the other. */
  function Wake(s: State): State {
    s.(worker := match s.worker
                 case IdleWait(_) => IdleWait(true)
                 case ResetWait(_) => ResetWait(true)
                 case w => w,
       main := match s.main
               case PausedWait(_) => PausedWait(true)
               case m => m)
  }

  /** The lock, the two waits and the branch. */
  function ProtocolStep(s: State): Option<State> {
    match s.worker
    case Top => if MutexFree(s) then Some(s.(worker := Check)) else None
    case Check =>
      if s.avail == 0 && !s.close && !s.reset then Some(s.(worker := IdleEnter))
      else Some(s.(worker := Branch, closing := s.close, resetting := s.reset))
    case IdleEnter => Some(s.(worker := IdleWait(false)))
    case IdleWait(woken) => if woken && MutexFree(s) then Some(s.(worker := Check)) else None
    case Branch => Some(s.(worker := if s.resetting && !s.closing then ResetLock else DrainTest))
    case ResetLock => if MutexFree(s) then Some(s.(worker := ResetCheck)) else None
    case ResetCheck =>
      if s.reset && !s.close then Some(Wake(s.(paused := true)).(worker := PauseEnter))
      else Some(s.(worker := Top, paused := false))
    case PauseEnter => Some(s.(worker := ResetWait(false)))
    case ResetWait(woken) => if woken && MutexFree(s) then Some(s.(worker := ResetCheck)) else None
    case LoopEnd => Some(s.(worker := if s.closing then Exited else Top))
    case _ => None
  }

  predicate InDrain(w: WorkerPc) {
    w.DrainTest? || w.Disable? || w.Test? || w.Handle? || w.Enable? || w.Recheck? || w.Inject?
  }

  function NextInDrain(w: WorkerPc, avail: nat): WorkerPc
    requires InDrain(w)
  {
    match w
    case DrainTest => if avail != 0 then Disable else LoopEnd
    case Disable => Test
    case Test => if avail != 0 then Handle else Enable
    case Handle => Test
    case Enable => Recheck
    case Recheck => if avail != 0 then Disable else Inject
    case Inject => LoopEnd
  }

  /** Entries left after the worker's next step in the drain. */
  function LeftInDrain(w: WorkerPc, avail: nat): nat { if w.Handle? && avail > 0 then avail - 1 else avail }

  function DrainStep(s: State): Option<State> {
    if !InDrain(s.worker) || (s.worker.Handle? && s.avail == 0) then None
    else
      var left := LeftInDrain(s.worker, s.avail);
      Some(s.(worker := NextInDrain(s.worker, s.avail), avail := left, owed := Min(s.owed, left)))
  }

  function WorkerStep(s: State): Option<State> {
    if InDrain(s.worker) then DrainStep(s) else ProtocolStep(s)
  }

  function MainStep(s: State): Option<State> {
    match s.main
    case Free => None
    case ResetEnter => if MutexFree(s) then Some(Wake(s.(reset := true)).(main := ResetHold)) else None
    case ResetHold => Some(s.(main := if s.paused then VqReset(0) else PausedEnter))
    case PausedEnter => Some(s.(main := PausedWait(false)))
    case PausedWait(woken) => if woken && MutexFree(s) then Some(s.(main := ResetHold)) else None
    case VqReset(i) =>
      if i < s.queues then
        Some(s.(main := VqReset(i + 1), avail := if i == 0 then 0 else s.avail, owed := if i == 0 then 0 else s.owed))
      else Some(s.(main := Free))
    case KickEnter => if MutexFree(s) then Some(Wake(s.(reset := false, owed := 0)).(main := Free)) else None
    case CloseEnter => if MutexFree(s) then Some(Wake(s.(close := true)).(main := Join)) else None
    case Join => if s.worker == Exited then Some(s.(main := Closed)) else None
    case Closed => None
  }

  function StepOf(s: State, step: Step): Option<State> {
    match step
    case Worker => WorkerStep(s)
    case WorkerSpurious =>
      if s.worker == IdleWait(false) && MutexFree(s) then Some(s.(worker := Check))
      else if s.worker == ResetWait(false) && MutexFree(s) then Some(s.(worker := ResetCheck))
      else None
    case Main => MainStep(s)
    case MainSpurious => if s.main == PausedWait(false) && MutexFree(s) then Some(s.(main := ResetHold)) else None
    case StartReset => if s.main == Free then Some(s.(main := ResetEnter)) else None
    case StartKick => if s.main == Free then Some(s.(main := KickEnter)) else None
    case StartClose => if s.main == Free then Some(s.(main := CloseEnter)) else None
    case GuestAdds =>
      if s.budget == 0 then None else Some(s.(avail := s.avail + 1, budget := s.budget - 1, owed := s.owed + 1))
  }

  function System(): (State, Step) -> Option<State> {
    (s, step) => StepOf(s, step)
  }

  /** A freshly started device; the guest may have requests in the queue already. */
  predicate Init(s: State) {
    && s.owed <= s.avail
    && s.worker == Top && s.main == Free && !s.close && !s.reset && !s.paused && !s.closing && !s.resetting
  }

  // ------------------------------------------------------------------ invariant

  predicate InReset(m: MainPc) { m == ResetHold || m == PausedEnter || m.PausedWait? }

  predicate Parked(w: WorkerPc) { w.ResetWait? || w == ResetCheck || w == PauseEnter }

  predicate Inv(s: State) {
    && !(WorkerHolds(s.worker) && MainHolds(s.main))
    && (s.close <==> s.main == Join || s.main == Closed)
    && (s.closing ==> s.close)
    && (s.worker == Exited ==> s.closing)
    && (s.paused ==> Parked(s.worker))
    && (s.worker.ResetWait? || s.worker == PauseEnter ==> s.paused)
    && (InReset(s.main) || s.main.VqReset? ==> s.reset)
    // from the return of the reset operation until the next kick or close
    && (s.reset && !s.close && !InReset(s.main) ==> s.paused)
    // no missed wakeups
    && (s.reset || s.close ==> s.worker != IdleEnter && s.worker != IdleWait(false))
    && (s.worker == PauseEnter || s.worker == ResetWait(false) ==> s.reset && !s.close)
    && (s.main == PausedEnter || s.main == PausedWait(false) ==> !s.paused)
    && (s.worker == Handle ==> s.avail > 0)
    && s.owed <= s.avail
    && (s.worker == IdleEnter || s.worker == IdleWait(false) ==> s.owed == s.avail)
  }

  lemma {:induction false} ProtocolKeeps(s: State)
    requires Inv(s) && ProtocolStep(s).Some?
    ensures Inv(ProtocolStep(s).value)
  {
    match s.worker
    case Check =>
    case ResetCheck =>
    case _ =>
  }

  /** The drain stays in the drain and touches nothing but the queue. */
  lemma {:induction false} DrainMeans(s: State)
    requires DrainStep(s).Some?
    ensures var t := DrainStep(s).value;
            && t == s.(worker := t.worker, avail := t.avail, owed := t.owed)
            && (InDrain(t.worker) || t.worker == LoopEnd)
            && (s.owed <= s.avail ==> t.owed <= t.avail) && (t.worker == Handle ==> t.avail > 0)
  {
  }

  lemma {:induction false} WorkerKeeps(s: State)
    requires Inv(s) && WorkerStep(s).Some?
    ensures Inv(WorkerStep(s).value)
  {
    if InDrain(s.worker) {
      DrainMeans(s);
      var t := DrainStep(s).value;
      assert Inv(t);
    } else {
      ProtocolKeeps(s);
    }
  }

  /** The operations begin and end: reset, kick and close take the mutex and wake the worker. */
  lemma {:induction false} OperationKeeps(s: State)
    requires Inv(s) && MainStep(s).Some? && (s.main == ResetEnter || s.main == KickEnter || s.main == CloseEnter)
    ensures Inv(MainStep(s).value)
  {
    match s.main
    case ResetEnter =>
    case KickEnter =>
    case CloseEnter =>
  }

  lemma {:induction false} WaitKeeps(s: State)
    requires Inv(s) && MainStep(s).Some? && s.main != ResetEnter && s.main != KickEnter && s.main != CloseEnter
    ensures Inv(MainStep(s).value)
  {
    match s.main
    case VqReset(i) => assert Parked(s.worker);
    case _ =>
  }

  lemma {:induction false} MainKeeps(s: State)
    requires Inv(s) && MainStep(s).Some?
    ensures Inv(MainStep(s).value)
  {
    if s.main == ResetEnter || s.main == KickEnter || s.main == CloseEnter { OperationKeeps(s); } else { WaitKeeps(s); }
  }

  lemma {:induction false} StepKeeps(s: State, step: Step)
    requires Inv(s) && StepOf(s, step).Some?
    ensures Inv(StepOf(s, step).value)
  {
    match step
    case Worker => WorkerKeeps(s);
    case Main => MainKeeps(s);
    case _ =>
  }

  lemma {:induction false} InvAlways(s: State, run: seq<Step>)
    requires Init(s) && Exec(System(), s, run).Some?
    ensures Inv(Exec(System(), s, run).value)
  {
    forall t, step | Inv(t) && System()(t, step).Some? ensures Inv(System()(t, step).value) {
      StepKeeps(t, step);
    }
    Invariant(System(), Inv, s, run);
  }

  // ------------------------------------------------------------------ quiescence

  /** Locations whose next step reads or writes the virtqueue. */
  predicate TouchesQueue(w: WorkerPc) {
    w.Check? || InDrain(w)
  }

  /** In every run, while the main thread re-initialises the queues the worker is inside its
      reset wait and touches no queue. */
  lemma {:induction false} ResetQuiescence(s: State, run: seq<Step>)
    requires Init(s) && Exec(System(), s, run).Some?
    ensures var t := Exec(System(), s, run).value;
            && (t.paused ==> Parked(t.worker))
            && (t.main.VqReset? ==> t.paused && Parked(t.worker) && !TouchesQueue(t.worker))
  {
    InvAlways(s, run);
  }

  /** The same holds for as long as no kick or close follows a completed reset, which covers
      the guest's whole queue setup. */
  lemma {:induction false} ParkedUntilKick(s: State, run: seq<Step>)
    requires Init(s) && Exec(System(), s, run).Some?
    ensures var t := Exec(System(), s, run).value;
            t.reset && !t.close && !InReset(t.main) ==> t.paused && !TouchesQueue(t.worker)
  {
    InvAlways(s, run);
  }

  /** No kicked request is forgotten: while the worker sleeps unsignalled, every available
      entry was added after the last kick. */
  lemma {:induction false} KickedNeverForgotten(s: State, run: seq<Step>)
    requires Init(s) && Exec(System(), s, run).Some?
    ensures var t := Exec(System(), s, run).value;
            t.owed <= t.avail && (t.worker == IdleWait(false) ==> t.avail == t.owed)
  {
    InvAlways(s, run);
  }

  /** A kick ends a reset and leaves nobody asleep: a parked worker is back at its loop two
      steps later. */
  lemma {:induction false} KickResumes(s: State)
    requires Inv(s) && s.main == KickEnter && MainStep(s).Some?
    ensures var t := MainStep(s).value;
            && !t.reset && t.owed == 0 && t.worker != IdleWait(false) && t.worker != ResetWait(false)
            && (s.worker.ResetWait? ==> Exec(System(), t, [Worker, Worker]) == Some(t.(worker := Top, paused := false)))
  {
    var t := MainStep(s).value;
    if s.worker.ResetWait? {
      assert t.worker == ResetWait(true) && MutexFree(t);
      var u := t.(worker := ResetCheck);
      assert StepOf(t, Worker) == Some(u) && StepOf(u, Worker) == Some(t.(worker := Top, paused := false));
      assert [Worker, Worker][1..] == [Worker] && [Worker][1..] == [];
    }
  }

  // ------------------------------------------------------------------ announcing

  /** What the worker has done to the guest: the entries handled since its last interrupt, and
      whether notifications are switched off. */
  datatype Outbox = Outbox(unannounced: nat, suppressed: bool)

  function Note(k: Outbox, s: State, step: Step): Outbox {
    if step != Worker then k
    else match s.worker
      case Handle => k.(unannounced := k.unannounced + 1)
      case Inject => k.(unannounced := 0)
      case Disable => k.(suppressed := true)
      case Enable => k.(suppressed := false)
      case _ => k
  }

  function Notes(): (Outbox, State, Step) -> Outbox { (k, s, step) => Note(k, s, step) }

  /** Between switching notifications off and on again. */
  predicate Suppressing(w: WorkerPc) { w.Test? || w.Handle? || w.Enable? }

  predicate Announced(w: WorkerPc, k: Outbox) {
    (k.suppressed <==> Suppressing(w)) && (k.unannounced > 0 ==> InDrain(w) && !w.DrainTest?)
  }

  lemma {:induction false} AnnouncedDrain(s: State, k: Outbox)
    requires Announced(s.worker, k) && DrainStep(s).Some?
    ensures Announced(DrainStep(s).value.worker, Note(k, s, Worker))
  {
    match s.worker
    case DrainTest =>
    case Test =>
    case Recheck =>
    case _ =>
  }

  /** Outside the drain, the worker's next step enters it at its test or not at all. */
  lemma {:induction false} ProtocolOnWorker(s: State)
    requires ProtocolStep(s).Some?
    ensures !InDrain(s.worker)
    ensures var w := ProtocolStep(s).value.worker; !InDrain(w) || w.DrainTest?
  {
    match s.worker
    case Check =>
    case ResetCheck =>
    case _ =>
  }

  /** The step of another party leaves a worker in the drain where it is, and one outside it outside. */
  predicate KeepsOut(w: WorkerPc, u: WorkerPc) { if InDrain(w) then u == w else !InDrain(u) }

  lemma {:induction false} WakeOnWorker(s: State)
    ensures KeepsOut(s.worker, Wake(s).worker)
  {
    match s.worker
    case IdleWait(_) =>
    case ResetWait(_) =>
    case _ =>
  }

  lemma {:induction false} MainOnWorker(s: State)
    requires MainStep(s).Some?
    ensures KeepsOut(s.worker, MainStep(s).value.worker)
  {
    match s.main
    case ResetEnter => WakeOnWorker(s.(reset := true));
    case KickEnter => WakeOnWorker(s.(reset := false, owed := 0));
    case CloseEnter => WakeOnWorker(s.(close := true));
    case _ =>
  }

  lemma {:induction false} OthersOnWorker(s: State, step: Step)
    requires step != Worker && StepOf(s, step).Some?
    ensures KeepsOut(s.worker, StepOf(s, step).value.worker)
  {
    match step
    case Main => MainOnWorker(s);
    case WorkerSpurious =>
    case _ =>
  }

  lemma {:induction false} AnnouncedStep(s: State, step: Step, k: Outbox)
    requires Announced(s.worker, k) && StepOf(s, step).Some?
    ensures Announced(StepOf(s, step).value.worker, Note(k, s, step))
  {
    if step != Worker {
      OthersOnWorker(s, step);
    } else if InDrain(s.worker) {
      AnnouncedDrain(s, k);
    } else {
      ProtocolOnWorker(s);
    }
  }

  /** Over every run, the guest has been interrupted for everything handled, and notifications
      are on again, whenever the worker is not inside a drain. */
  lemma {:induction false} EverythingAnnounced(s: State, run: seq<Step>)
    requires Init(s) && Exec(System(), s, run).Some?
    ensures var t, k := Exec(System(), s, run).value, Fold(System(), Notes(), Outbox(0, false), s, run);
            && (k.suppressed <==> Suppressing(t.worker))
            && (!InDrain(t.worker) || t.worker == DrainTest ==> k.unannounced == 0)
  {
    forall t: State, step, k | Announced(t.worker, k) && StepOf(t, step).Some?
      ensures Announced(StepOf(t, step).value.worker, Note(k, t, step))
    {
      AnnouncedStep(t, step, k);
    }
    FoldInvariant(System(), Notes(), _ => true, (t: State, k) => Announced(t.worker, k), s, Outbox(0, false), run);
  }

  // ------------------------------------------------------------------ waiting

  /** Whether each thread has been signalled since its current or last wait began. */
  datatype Signals = Signals(worker: bool, main: bool)

  function Signalled(k: Signals, s: State, step: Step): Signals {
    if step == Worker && (s.worker == IdleEnter || s.worker == PauseEnter) then k.(worker := false)
    else if step == Worker && s.worker == ResetCheck && s.reset && !s.close then k.(main := true)
    else if step == Main && s.main == PausedEnter then k.(main := false)
    else if step == Main && s.main in {ResetEnter, KickEnter, CloseEnter} then k.(worker := true)
    else k
  }

  function SignalsOf(): (Signals, State, Step) -> Signals { (k, s, step) => Signalled(k, s, step) }

  predicate WorkerWaits(w: WorkerPc, k: Signals) { w.IdleWait? || w.ResetWait? ==> (w.woken <==> k.worker) }

  predicate MainWaits(m: MainPc, k: Signals) { m.PausedWait? ==> (m.woken <==> k.main) }

  lemma {:induction false} WaitsOnWorker(s: State, k: Signals)
    requires WorkerWaits(s.worker, k) && ProtocolStep(s).Some?
    ensures WorkerWaits(ProtocolStep(s).value.worker, Signalled(k, s, Worker))
  {
    var w := ProtocolStep(s).value.worker;
    if s.worker != IdleEnter && s.worker != PauseEnter { assert !w.IdleWait? && !w.ResetWait?; }
  }

  lemma {:induction false} WaitsOnMain(s: State, k: Signals)
    requires MainWaits(s.main, k) && ProtocolStep(s).Some?
    ensures MainWaits(ProtocolStep(s).value.main, Signalled(k, s, Worker))
  {
    if s.worker != ResetCheck { assert ProtocolStep(s).value.main == s.main; }
  }

  lemma {:induction false} WaitsInDrain(s: State, k: Signals)
    requires DrainStep(s).Some?
    ensures var t := DrainStep(s).value;
            t.main == s.main && !t.worker.IdleWait? && !t.worker.ResetWait? && Signalled(k, s, Worker) == k
  {
    DrainMeans(s);
  }

  /** A signal wakes a worker that waits. */
  lemma {:induction false} WakeWaits(s: State, k: Signals)
    requires k.worker
    ensures WorkerWaits(Wake(s).worker, k)
  {
  }

  lemma {:induction false} MainOnWorkerWait(s: State, k: Signals)
    requires WorkerWaits(s.worker, k) && MainStep(s).Some?
    ensures WorkerWaits(MainStep(s).value.worker, Signalled(k, s, Main))
  {
    match s.main
    case ResetEnter => WakeWaits(s.(reset := true), k.(worker := true));
    case KickEnter => WakeWaits(s.(reset := false, owed := 0), k.(worker := true));
    case CloseEnter => WakeWaits(s.(close := true), k.(worker := true));
    case _ =>
  }

  lemma {:induction false} MainOnMainWait(s: State, k: Signals)
    requires MainWaits(s.main, k) && MainStep(s).Some?
    ensures MainWaits(MainStep(s).value.main, Signalled(k, s, Main))
  {
    if s.main != PausedEnter { assert !MainStep(s).value.main.PausedWait?; }
  }

  predicate WaitsFor(s: State, k: Signals) { WorkerWaits(s.worker, k) && MainWaits(s.main, k) }

  lemma {:induction false} WaitsStep(s: State, step: Step, k: Signals)
    requires WaitsFor(s, k) && StepOf(s, step).Some?
    ensures WaitsFor(StepOf(s, step).value, Signalled(k, s, step))
  {
    match step
    case Worker =>
      if InDrain(s.worker) {
        WaitsInDrain(s, k);
      } else {
        WaitsOnWorker(s, k);
        WaitsOnMain(s, k);
      }
    case Main =>
      MainOnWorkerWait(s, k);
      MainOnMainWait(s, k);
    case _ =>
  }

  /** Over every run, a thread in a condition wait is woken exactly if the other has signalled it
      since the wait began: the worker by a reset, a kick or a close, the main thread by a worker
      that has paused. */
  lemma {:induction false} WokenBySignal(s: State, run: seq<Step>)
    requires Init(s) && Exec(System(), s, run).Some?
    ensures var t, k := Exec(System(), s, run).value, Fold(System(), SignalsOf(), Signals(false, false), s, run);
            && (t.worker.IdleWait? || t.worker.ResetWait? ==> (t.worker.woken <==> k.worker))
            && (t.main.PausedWait? ==> (t.main.woken <==> k.main))
  {
    forall t, step, k | WaitsFor(t, k) && StepOf(t, step).Some?
      ensures WaitsFor(StepOf(t, step).value, Signalled(k, t, step))
    {
      WaitsStep(t, step, k);
    }
    FoldInvariant(System(), SignalsOf(), _ => true, (t, k) => WaitsFor(t, k), s, Signals(false, false), run);
  }

  /** What a worker step does to the main thread: nothing, or a signal. */
  lemma {:induction false} WorkerOnMain(s: State)
    requires WorkerStep(s).Some?
    ensures var t := WorkerStep(s).value;
            t.main == s.main || (s.main.PausedWait? && t.main == PausedWait(true))
  {
  }

  function Repeat(n: nat): seq<Step> { if n == 0 then [] else [Main] + Repeat(n - 1) }

  /** The queue reset loop visits every queue once and leaves the request queue empty. */
  lemma {:induction false} QueuesReset(s: State, i: nat)
    requires s.main == VqReset(i) && i <= s.queues
    ensures Exec(System(), s, Repeat(s.queues - i + 1))
            == Some(if i == 0 < s.queues then s.(main := Free, avail := 0, owed := 0) else s.(main := Free))
    decreases s.queues - i
  {
    var t := MainStep(s).value;
    var rest := Repeat(s.queues - i);
    assert Repeat(s.queues - i + 1)[1..] == rest;
    if i < s.queues {
      QueuesReset(t, i + 1);
    } else {
      assert Exec(System(), t, rest) == Some(t);
    }
  }

  // ------------------------------------------------------------------ no deadlock

  /** The main thread waits for the worker: for its pause, or for its exit. */
  predicate Blocked(s: State) {
    InReset(s.main) || (s.main == Join && s.worker != Exited)
  }

  /** Steps from the end of the drain to the reset wait (`toExit` false) or the exit. */
  function Tail(s: State, toExit: bool): (r: nat)
    ensures 2 <= r <= 12
  {
    if !toExit then 8 else if s.closing then 2 else 12
  }

  /** Steps left in the drain to the next `Handle`, or to its end and on. */
  function DrainDistance(w: WorkerPc, avail: nat, tail: nat): nat
    requires InDrain(w)
  {
    match w
    case Handle => 1
    case Test => if avail != 0 then 2 else tail + 3
    case Disable => if avail != 0 then 3 else tail + 4
    case DrainTest => if avail != 0 then 4 else tail + 5
    case Recheck => if avail != 0 then 4 else tail + 1
    case Enable => if avail != 0 then 5 else tail + 2
    case Inject => tail
  }

  /** Steps left to the next `Handle`, or to the reset wait or the exit. */
  function Distance(s: State, toExit: bool): nat {
    var tail := Tail(s, toExit);
    if InDrain(s.worker) then DrainDistance(s.worker, s.avail, tail)
    else match s.worker
      case ResetCheck => if toExit then 11 else 2
      case ResetLock => if toExit then 12 else 3
      case PauseEnter => if toExit then 13 else 1
      case ResetWait(woken) => if toExit then 12 else if woken then 3 else 0
      case Check => if toExit then 9 else 5
      case IdleEnter => if toExit then 11 else 7
      case IdleWait(_) => if toExit then 10 else 6
      case Top => if toExit then 10 else 6
      case LoopEnd => tail - 1
      case Branch => if s.resetting && !s.closing then (if toExit then 13 else 4) else tail + 6
      case _ => 0
  }

  /** A bound on the steps of worker and guest until the main thread is released. */
  function Rank(s: State): nat {
    (2 * s.budget + s.avail) * 20 + Distance(s, s.main == Join)
  }

  /** A blocked main thread never waits for a step that cannot happen: the worker has one, or
      the main thread itself. */
  lemma {:induction false} BlockedProgress(s: State)
    requires Inv(s) && Blocked(s)
    ensures WorkerStep(s).Some? || MainStep(s).Some?
    ensures s.main == PausedWait(false) || s.main == Join ==> WorkerStep(s).Some?
  {
  }

  lemma {:induction false} DrainDrops(w: WorkerPc, avail: nat, tail: nat)
    requires InDrain(w) && tail <= 12 && (w.Handle? ==> avail > 0)
    ensures var next, left := NextInDrain(w, avail), LeftInDrain(w, avail);
            && (next == LoopEnd ==> left * 20 + tail - 1 < avail * 20 + DrainDistance(w, avail, tail))
            && (next != LoopEnd ==>
                  && InDrain(next)
                  && left * 20 + DrainDistance(next, left, tail) < avail * 20 + DrainDistance(w, avail, tail))
  {
  }

  lemma {:induction false} DrainNearer(s: State, toExit: bool)
    requires DrainStep(s).Some?
    ensures var t := DrainStep(s).value;
            t.avail * 20 + Distance(t, toExit) < s.avail * 20 + Distance(s, toExit)
  {
    DrainDrops(s.worker, s.avail, Tail(s, toExit));
    var t := DrainStep(s).value;
    assert Tail(t, toExit) == Tail(s, toExit);
  }

  lemma {:induction false} PauseNearer(s: State)
    requires Inv(s) && InReset(s.main) && ProtocolStep(s).Some?
    ensures ProtocolStep(s).value.avail == s.avail && Distance(ProtocolStep(s).value, false) < Distance(s, false)
  {
    match s.worker
    case Check =>
    case ResetCheck =>
    case Branch =>
    case _ =>
  }

  lemma {:induction false} ExitNearer(s: State)
    requires Inv(s) && s.main == Join && ProtocolStep(s).Some?
    ensures var t := ProtocolStep(s).value;
            t.avail == s.avail && (t.worker != Exited ==> Distance(t, true) < Distance(s, true))
  {
    match s.worker
    case Check =>
    case ResetCheck =>
    case Branch =>
    case _ =>
  }

  /** The steps that bring the release nearer. */
  predicate Helps(step: Step) { step == Worker || step == GuestAdds }

  /** And those of the main thread itself, its spurious wakeups included. */
  predicate Allowed(step: Step) { Helps(step) || step == Main || step == MainSpurious }

  lemma {:induction false} WorkerDecreases(s: State)
    requires Inv(s) && Blocked(s) && WorkerStep(s).Some?
    ensures Blocked(WorkerStep(s).value) ==> Rank(WorkerStep(s).value) < Rank(s)
  {
    WorkerOnMain(s);
    if InDrain(s.worker) {
      DrainMeans(s);
      DrainNearer(s, s.main == Join);
    } else if s.main == Join {
      ExitNearer(s);
    } else {
      PauseNearer(s);
    }
  }

  /** The main thread's own steps take nothing away from the worker's progress. */
  lemma {:induction false} MainNeutral(s: State, step: Step)
    requires Inv(s) && Blocked(s) && (step == Main || step == MainSpurious) && StepOf(s, step).Some?
    ensures var t := StepOf(s, step).value; Blocked(t) ==> Rank(t) == Rank(s)
  {
    match s.main
    case ResetHold =>
    case PausedEnter =>
    case PausedWait(_) =>
    case Join =>
  }

  lemma {:induction false} GuestDecreases(s: State)
    requires StepOf(s, GuestAdds).Some?
    ensures Rank(StepOf(s, GuestAdds).value) < Rank(s)
  {
    var t := StepOf(s, GuestAdds).value;
    assert Distance(t, s.main == Join) < Distance(s, s.main == Join) + 20;
  }

  lemma {:induction false} ProgressDecreases(s: State, step: Step)
    requires Inv(s) && Blocked(s) && Allowed(step) && StepOf(s, step).Some?
    ensures var t := StepOf(s, step).value; Blocked(t) ==> Rank(t) + (if Helps(step) then 1 else 0) <= Rank(s)
  {
    match step
    case Worker => WorkerDecreases(s);
    case GuestAdds => GuestDecreases(s);
    case _ => MainNeutral(s, step);
  }

  lemma {:induction false} StaysReleased(s: State, step: Step)
    requires Allowed(step) && StepOf(s, step).Some? && !Blocked(s) && s.main != ResetEnter && s.main != CloseEnter
    ensures var t := StepOf(s, step).value; !Blocked(t) && t.main != ResetEnter && t.main != CloseEnter
  {
    if step == Worker { WorkerOnMain(s); }
  }

  /** How many steps of worker and guest a run has. */
  function HelpingSteps(run: seq<Step>): nat {
    if run == [] then 0 else (if Helps(run[0]) then 1 else 0) + HelpingSteps(run[1..])
  }

  /** From any state in which the main thread is inside a reset or a join: whatever worker,
      guest and main thread do, spurious wakeups of the main thread included, after `Rank(s)`
      steps of worker and guest it is released, and until then there is always a next step. */
  lemma {:induction false} Released(s: State, run: seq<Step>)
    requires Inv(s) && Blocked(s)
    requires forall i :: 0 <= i < |run| ==> Allowed(run[i])
    requires Exec(System(), s, run).Some? && Blocked(Exec(System(), s, run).value)
    ensures var t := Exec(System(), s, run).value;
            && HelpingSteps(run) + Rank(t) <= Rank(s)
            && (StepOf(t, Worker).Some? || StepOf(t, Main).Some?)
    decreases |run|
  {
    if run == [] {
      BlockedProgress(s);
    } else {
      var t := StepOf(s, run[0]).value;
      StepKeeps(s, run[0]);
      if Blocked(t) {
        Released(t, run[1..]);
        ProgressDecreases(s, run[0]);
      } else {
        LeavesFor(s, run[0]);
        NeverBack(t, run[1..]);
      }
    }
  }

  lemma {:induction false} LeavesFor(s: State, step: Step)
    requires Inv(s) && Blocked(s) && Allowed(step) && StepOf(s, step).Some? && !Blocked(StepOf(s, step).value)
    ensures StepOf(s, step).value.main != ResetEnter && StepOf(s, step).value.main != CloseEnter
  {
    if step == Worker { WorkerOnMain(s); }
  }

  /** Without a new operation a released main thread is not blocked again. */
  lemma {:induction false} NeverBack(s: State, run: seq<Step>)
    requires !Blocked(s) && s.main != ResetEnter && s.main != CloseEnter
    requires forall i :: 0 <= i < |run| ==> Allowed(run[i])
    requires Exec(System(), s, run).Some?
    ensures !Blocked(Exec(System(), s, run).value)
    decreases |run|
  {
    if run != [] {
      StaysReleased(s, run[0]);
      NeverBack(StepOf(s, run[0]).value, run[1..]);
    }
  }

  /** Whenever the main thread is inside an operation, some step that needs no spurious
      wakeup is enabled. */
  lemma {:induction false} NoDeadlock(s: State, run: seq<Step>)
    requires Init(s) && Exec(System(), s, run).Some?
    ensures var t := Exec(System(), s, run).value;
            t.main != Free && t.main != Closed ==> StepOf(t, Main).Some? || StepOf(t, Worker).Some?
  {
    InvAlways(s, run);
  }

  /** Once close is set the worker never enters a wait again. */
  lemma {:induction false} CloseNeverWaits(s: State, run: seq<Step>, step: Step)
    requires Init(s) && Exec(System(), s, run).Some?
    requires StepOf(Exec(System(), s, run).value, step).Some?
    ensures var t := Exec(System(), s, run).value;
            var u := StepOf(t, step).value;
            t.close && (u.worker.IdleWait? || u.worker.ResetWait?) ==> u.worker == t.worker && u.worker.woken
  {
    InvAlways(s, run);
    var t := Exec(System(), s, run).value;
    match step
    case Worker => if t.close { ClosedWorker(t); }
    case Main =>
    case _ =>
  }

  lemma {:induction false} ClosedWorker(s: State)
    requires Inv(s) && s.close && WorkerStep(s).Some?
    ensures !WorkerStep(s).value.worker.IdleWait? && !WorkerStep(s).value.worker.ResetWait?
  {
    if InDrain(s.worker) { DrainMeans(s); }
  }
}
