// Runs of a protocol: what a list of labelled steps makes of a state.
module Runs {
  import opened Text

  // The state after the steps, or None when one of them cannot be taken.
  function RunAll<S, T>(apply: (S, T) -> Option<S>, s: S, steps: seq<T>): Option<S>
    decreases |steps|
  {
    if steps == [] then Some(s)
    else
      match apply(s, steps[0])
      case None => None
      case Some(next) => RunAll(apply, next, steps[1..])
  }

  lemma {:induction false} RunAppend<S, T>(apply: (S, T) -> Option<S>, s: S, a: seq<T>, b: seq<T>)
    ensures RunAll(apply, s, a + b) ==
              match RunAll(apply, s, a) case None => None case Some(x) => RunAll(apply, x, b)
    decreases |a|
  {
    if a == [] {
      assert a + b == b;
    } else {
      assert (a + b)[1..] == a[1..] + b;
      if apply(s, a[0]).Some? {
        RunAppend(apply, apply(s, a[0]).value, a[1..], b);
      }
    }
  }

  // One step more.
  lemma RunOneMore<S, T>(apply: (S, T) -> Option<S>, s: S, steps: seq<T>, x: S, step: T)
    requires RunAll(apply, s, steps) == Some(x)
    ensures RunAll(apply, s, steps + [step]) == apply(x, step)
  {
    assert [step][1..] == [];
    RunAppend(apply, s, steps, [step]);
    if apply(x, step).Some? {
      assert RunAll(apply, apply(x, step).value, []) == apply(x, step);
    }
  }

  // Some list of allowed steps leads from s to x.
  ghost predicate Reaches<S(!new), T(!new)>(apply: (S, T) -> Option<S>, allowed: T -> bool, s: S, x: S) {
    exists steps: seq<T> :: (forall step <- steps :: allowed(step)) && RunAll(apply, s, steps) == Some(x)
  }

  lemma ReachesItself<S(!new), T(!new)>(apply: (S, T) -> Option<S>, allowed: T -> bool, s: S)
    ensures Reaches(apply, allowed, s, s)
  {
    var none: seq<T> := [];
    assert RunAll(apply, s, none) == Some(s);
  }

  lemma ReachesOneMore<S(!new), T(!new)>(apply: (S, T) -> Option<S>, allowed: T -> bool, s: S, x: S, step: T, y: S)
    requires Reaches(apply, allowed, s, x) && allowed(step) && apply(x, step) == Some(y)
    ensures Reaches(apply, allowed, s, y)
  {
    var steps: seq<T> :| (forall t <- steps :: allowed(t)) && RunAll(apply, s, steps) == Some(x);
    RunOneMore(apply, s, steps, x, step);
    assert RunAll(apply, s, steps + [step]) == Some(y);
  }

  // How many of the steps count.
  function Counted<T>(counts: T -> bool, steps: seq<T>): nat
    decreases |steps|
  {
    if steps == [] then 0 else (if counts(steps[0]) then 1 else 0) + Counted(counts, steps[1..])
  }

  // No allowed step raises `left`, and those that count lower it.
  ghost predicate CountsDown<S(!new), T(!new)>(apply: (S, T) -> Option<S>, inv: S -> bool, allowed: T -> bool,
                                               counts: T -> bool, left: S -> nat)
  {
    forall s, t :: inv(s) && allowed(t) && apply(s, t).Some? ==>
      inv(apply(s, t).value) && left(apply(s, t).value) + (if counts(t) then 1 else 0) <= left(s)
  }

  lemma {:induction false} StepsAreBounded<S(!new), T(!new)>(apply: (S, T) -> Option<S>, inv: S -> bool,
                                                            allowed: T -> bool, counts: T -> bool, left: S -> nat,
                                                            s: S, steps: seq<T>)
    requires CountsDown(apply, inv, allowed, counts, left)
    requires inv(s) && (forall t <- steps :: allowed(t)) && RunAll(apply, s, steps).Some?
    ensures inv(RunAll(apply, s, steps).value)
    ensures Counted(counts, steps) + left(RunAll(apply, s, steps).value) <= left(s)
    decreases |steps|
  {
    if steps != [] {
      assert allowed(steps[0]);
      StepsAreBounded(apply, inv, allowed, counts, left, apply(s, steps[0]).value, steps[1..]);
    }
  }
}
