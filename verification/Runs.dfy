/** Runs of a step function: every protocol of this project is a deterministic
    function from a state and a step label to the next state, undefined (`None`)
    where the step is not enabled, and a run is a sequence of labels.
 */
module Runs {

  datatype Option<+T> = None | Some(value: T)

  /** The state that `run` leads to from `s`; `None` if a step of it is not enabled. */
  function Exec<S, L>(step: (S, L) -> Option<S>, s: S, run: seq<L>): Option<S> {
    if run == [] then Some(s)
    else match step(s, run[0])
      case None => None
      case Some(t) => Exec(step, t, run[1..])
  }

  /** `t` can be reached from `s`. */
  ghost predicate Reach<S, L(!new)>(step: (S, L) -> Option<S>, s: S, t: S) {
    exists run: seq<L> :: Exec(step, s, run) == Some(t)
  }

  lemma {:induction false} ExecConcat<S, L>(step: (S, L) -> Option<S>, s: S, a: seq<L>, b: seq<L>)
    requires Exec(step, s, a).Some?
    ensures Exec(step, s, a + b) == Exec(step, Exec(step, s, a).value, b)
  {
    if a == [] {
      assert a + b == b;
    } else {
      ExecConcat(step, step(s, a[0]).value, a[1..], b);
      assert (a + b)[0] == a[0] && (a + b)[1..] == a[1..] + b;
    }
  }

  lemma {:induction false} ReachSelf<S, L(!new)>(step: (S, L) -> Option<S>, s: S)
    ensures Reach(step, s, s)
  {
    assert Exec(step, s, []) == Some(s);
  }

  /** One more enabled step at the end of a reachable path. */
  lemma {:induction false} ReachStep<S, L(!new)>(step: (S, L) -> Option<S>, s: S, t: S, l: L)
    requires Reach(step, s, t)
    requires step(t, l).Some?
    ensures Reach(step, s, step(t, l).value)
  {
    var run: seq<L> :| Exec(step, s, run) == Some(t);
    ExecConcat(step, s, run, [l]);
    assert Exec(step, t, [l]) == Exec(step, step(t, l).value, []);
  }

  /** A property that every enabled step keeps holds wherever a run leads. */
  lemma {:induction false} Invariant<S(!new), L(!new)>(step: (S, L) -> Option<S>, inv: S -> bool, s: S, run: seq<L>)
    requires inv(s)
    requires forall t, l :: inv(t) && step(t, l).Some? ==> inv(step(t, l).value)
    ensures Exec(step, s, run).Some? ==> inv(Exec(step, s, run).value)
  {
    if run != [] && step(s, run[0]).Some? {
      Invariant(step, inv, step(s, run[0]).value, run[1..]);
    }
  }

  /** What an observer who starts from `h` has noted at the end of a run; a note is about the
      step and the state it is taken in. */
  function Fold<S, L, H>(step: (S, L) -> Option<S>, note: (H, S, L) -> H, h: H, s: S, run: seq<L>): H
    decreases |run|
  {
    if run == [] then h
    else match step(s, run[0])
      case None => h
      case Some(t) => Fold(step, note, note(h, s, run[0]), t, run[1..])
  }

  /** A relation of states and notes that every step among `among` keeps holds at the end of
      every run of such steps. */
  lemma {:induction false} FoldInvariant<S(!new), L(!new), H(!new)>(
      step: (S, L) -> Option<S>, note: (H, S, L) -> H, among: L -> bool, inv: (S, H) -> bool, s: S, h: H, run: seq<L>)
    requires inv(s, h) && Exec(step, s, run).Some? && forall i :: 0 <= i < |run| ==> among(run[i])
    requires forall t, l, k :: inv(t, k) && among(l) && step(t, l).Some? ==> inv(step(t, l).value, note(k, t, l))
    ensures inv(Exec(step, s, run).value, Fold(step, note, h, s, run))
    decreases |run|
  {
    if run != [] {
      FoldInvariant(step, note, among, inv, step(s, run[0]).value, note(h, s, run[0]), run[1..]);
    }
  }
}
