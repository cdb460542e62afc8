/** Runs of a transition system, given by the partial function that takes one step. */
module Runs {
  import opened Basics

  /** The actions, taken in order, lead from `st` to `end`. */
  ghost predicate Reaches<S, A>(step: (S, A) -> Option<S>, st: S, acts: seq<A>, end: S)
    decreases |acts|
  {
    if acts == [] then st == end
    else step(st, acts[0]).Some? && Reaches(step, step(st, acts[0]).value, acts[1..], end)
  }

  /** Some run leads from an initial state to `end`. */
  ghost predicate Reachable<S(!new), A(!new)>(init: S -> bool, step: (S, A) -> Option<S>, end: S) {
    exists st, acts :: init(st) && Reaches(step, st, acts, end)
  }

  lemma {:induction false} Extend<S, A>(step: (S, A) -> Option<S>, st: S, acts: seq<A>, mid: S, a: A)
    requires Reaches(step, st, acts, mid) && step(mid, a).Some?
    ensures Reaches(step, st, acts + [a], step(mid, a).value)
    decreases |acts|
  {
    if acts == [] {
      assert (acts + [a])[1..] == [];
    } else {
      Extend(step, step(st, acts[0]).value, acts[1..], mid, a);
      assert (acts + [a])[1..] == acts[1..] + [a];
    }
  }

  lemma Then<S(!new), A(!new)>(init: S -> bool, step: (S, A) -> Option<S>, mid: S, a: A, next: S)
    requires Reachable(init, step, mid) && step(mid, a) == Some(next)
    ensures Reachable(init, step, next)
  {
    var st, acts :| init(st) && Reaches(step, st, acts, mid);
    Extend(step, st, acts, mid, a);
  }

  /** What every step keeps, every run keeps. */
  lemma {:induction false} RunKeeps<S(!new), A(!new)>(inv: S -> bool, step: (S, A) -> Option<S>,
                                                      st: S, acts: seq<A>, end: S)
    requires forall s, a :: inv(s) && step(s, a).Some? ==> inv(step(s, a).value)
    requires inv(st) && Reaches(step, st, acts, end)
    ensures inv(end)
    decreases |acts|
  {
    if acts != [] {
      RunKeeps(inv, step, step(st, acts[0]).value, acts[1..], end);
    }
  }

  /** A run that keeps `inv` is also a run of another system that takes the same steps from such states. */
  lemma {:induction false} RunRefines<S(!new), A(!new)>(inv: S -> bool, step: (S, A) -> Option<S>,
                                                        other: (S, A) -> Option<S>, st: S, acts: seq<A>, end: S)
    requires forall s, a :: inv(s) && step(s, a).Some? ==> inv(step(s, a).value) && other(s, a) == step(s, a)
    requires inv(st) && Reaches(step, st, acts, end)
    ensures Reaches(other, st, acts, end)
    decreases |acts|
  {
    if acts != [] {
      RunRefines(inv, step, other, step(st, acts[0]).value, acts[1..], end);
    }
  }
}
