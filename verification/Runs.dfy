/** Finite runs of a step system.

    A system is a total function `next` that takes a state and an action (which thread moves, and
    what the environment decides) and answers None when that action cannot be taken in that state. */
module Runs {

  datatype Option<+T> = None | Some(value: T)

  /** The state after the actions in order, or None if one of them could not be taken. */
  function Run<S, A>(next: (S, A) -> Option<S>, s: S, acts: seq<A>): Option<S>
    decreases |acts|
  {
    if |acts| == 0 then Some(s)
    else
      match next(s, acts[0])
      case None => None
      case Some(s') => Run(next, s', acts[1..])
  }

  /** The events `emit` attaches to the steps of a run, in order. */
  function Trace<S, A, E>(next: (S, A) -> Option<S>, emit: (S, A) -> seq<E>, s: S, acts: seq<A>): seq<E>
    decreases |acts|
  {
    if |acts| == 0 then []
    else
      match next(s, acts[0])
      case None => []
      case Some(s') => emit(s, acts[0]) + Trace(next, emit, s', acts[1..])
  }

  ghost predicate Reachable<S, A(!new)>(next: (S, A) -> Option<S>, init: S, s: S) {
    exists acts :: Run(next, init, acts) == Some(s)
  }

  /** `inv` is kept by every action. */
  ghost predicate Inductive<S(!new), A(!new)>(next: (S, A) -> Option<S>, inv: S -> bool) {
    forall s, a :: inv(s) && next(s, a).Some? ==> inv(next(s, a).value)
  }

  lemma {:induction false} RunKeeps<S(!new), A(!new)>(
      next: (S, A) -> Option<S>, inv: S -> bool, s: S, acts: seq<A>)
    requires Inductive(next, inv) && inv(s)
    ensures Run(next, s, acts).Some? ==> inv(Run(next, s, acts).value)
    decreases |acts|
  {
    if |acts| > 0 && next(s, acts[0]).Some? {
      RunKeeps(next, inv, next(s, acts[0]).value, acts[1..]);
    }
  }

  lemma ReachableKeeps<S(!new), A(!new)>(next: (S, A) -> Option<S>, inv: S -> bool, init: S, s: S)
    requires Inductive(next, inv) && inv(init) && Reachable(next, init, s)
    ensures inv(s)
  {
    var acts :| Run(next, init, acts) == Some(s);
    RunKeeps(next, inv, init, acts);
  }

  /** Running `acts1 + acts2` is running `acts1` and then `acts2`. */
  lemma {:induction false} RunConcat<S, A>(
      next: (S, A) -> Option<S>, s: S, acts1: seq<A>, mid: S, acts2: seq<A>)
    requires Run(next, s, acts1) == Some(mid)
    ensures Run(next, s, acts1 + acts2) == Run(next, mid, acts2)
    decreases |acts1|
  {
    if |acts1| == 0 {
      assert acts1 + acts2 == acts2;
    } else {
      assert (acts1 + acts2)[1..] == acts1[1..] + acts2;
      RunConcat(next, next(s, acts1[0]).value, acts1[1..], mid, acts2);
    }
  }

  lemma RunOne<S, A>(next: (S, A) -> Option<S>, s: S, a: A)
    requires next(s, a).Some?
    ensures Run(next, s, [a]) == next(s, a)
  {
    assert [a][1..] == [];
    assert Run(next, next(s, a).value, []) == next(s, a);
  }

  /** Every concrete step from a state satisfying `inv` is matched by the abstract actions it emits. */
  ghost predicate Simulates<S(!new), A(!new), T(!new), E(!new)>(
      next: (S, A) -> Option<S>, inv: S -> bool, emit: (S, A) -> seq<E>, abs: S -> T, anext: (T, E) -> Option<T>)
  {
    forall s, a :: inv(s) && next(s, a).Some? ==>
      Run(anext, abs(s), emit(s, a)) == Some(abs(next(s, a).value))
  }

  /** Forward simulation: the events of a whole concrete run are a run of the abstract system, and
      it ends in the abstraction of the concrete end state. */
  lemma {:induction false} SimulationRun<S(!new), A(!new), T(!new), E(!new)>(
      next: (S, A) -> Option<S>, inv: S -> bool, emit: (S, A) -> seq<E>, abs: S -> T, anext: (T, E) -> Option<T>,
      s: S, acts: seq<A>)
    requires Inductive(next, inv) && inv(s)
    requires Simulates(next, inv, emit, abs, anext)
    requires Run(next, s, acts).Some?
    ensures Run(anext, abs(s), Trace(next, emit, s, acts)) == Some(abs(Run(next, s, acts).value))
    decreases |acts|
  {
    if |acts| > 0 {
      var s' := next(s, acts[0]).value;
      SimulationRun(next, inv, emit, abs, anext, s', acts[1..]);
      RunConcat(anext, abs(s), emit(s, acts[0]), abs(s'), Trace(next, emit, s', acts[1..]));
    }
  }

  /** Two steps that pass values through in order, one after the other: what was there and came in first
      is what went out first and is left. */
  lemma Splice<T>(
      q0: seq<T>, in0: seq<T>, out0: seq<T>, q1: seq<T>, in1: seq<T>, out1: seq<T>, q2: seq<T>)
    requires q0 + in0 == out0 + q1 && q1 + in1 == out1 + q2
    ensures q0 + (in0 + in1) == (out0 + out1) + q2
  {
    assert q0 + (in0 + in1) == (q0 + in0) + in1;
    assert (out0 + q1) + in1 == out0 + (q1 + in1);
    assert out0 + (out1 + q2) == (out0 + out1) + q2;
  }

  /** The part of a trace that `part` picks out, step by step. */
  lemma {:induction false} TracePart<S(!new), A(!new), E(!new), T(!new)>(
      next: (S, A) -> Option<S>, emit: (S, A) -> seq<E>, part: seq<E> -> seq<T>, parts: (S, A) -> seq<T>, s: S, acts: seq<A>)
    requires part([]) == [] && forall t1, t2 :: part(t1 + t2) == part(t1) + part(t2)
    requires forall s, a :: next(s, a).Some? ==> parts(s, a) == part(emit(s, a))
    ensures part(Trace(next, emit, s, acts)) == Trace(next, parts, s, acts)
    decreases |acts|
  {
    if |acts| > 0 && next(s, acts[0]).Some? {
      TracePart(next, emit, part, parts, next(s, acts[0]).value, acts[1..]);
    }
  }

  /** If every step hands on what it gets, in order, and keeps the rest in `held`, then so does every run. */
  lemma {:induction false} PassesThrough<S(!new), A(!new), T(!new)>(
      next: (S, A) -> Option<S>, inv: S -> bool, ins: (S, A) -> seq<T>, outs: (S, A) -> seq<T>, held: S -> seq<T>,
      s: S, acts: seq<A>)
    requires Inductive(next, inv) && inv(s)
    requires forall s, a :: inv(s) && next(s, a).Some? ==> held(s) + ins(s, a) == outs(s, a) + held(next(s, a).value)
    requires Run(next, s, acts).Some?
    ensures held(s) + Trace(next, ins, s, acts) == Trace(next, outs, s, acts) + held(Run(next, s, acts).value)
    decreases |acts|
  {
    if |acts| > 0 {
      var a, s1 := acts[0], next(s, acts[0]).value;
      PassesThrough(next, inv, ins, outs, held, s1, acts[1..]);
      Splice(held(s), ins(s, a), outs(s, a), held(s1), Trace(next, ins, s1, acts[1..]), Trace(next, outs, s1, acts[1..]),
             held(Run(next, s, acts).value));
    }
  }

  /** Each step lowers a measure, except that an action of the `free` kind may raise it by up to `slack`.
      Then a run with few free actions is short. */
  ghost predicate Lowers<S(!new), A(!new)>(
      next: (S, A) -> Option<S>, inv: S -> bool, measure: S -> nat, free: A -> bool, slack: nat)
  {
    forall s, a :: inv(s) && next(s, a).Some? ==>
      measure(next(s, a).value) < measure(s) + (if free(a) then slack + 1 else 0)
  }

  function HowMany<A>(kind: A -> bool, acts: seq<A>): nat {
    if |acts| == 0 then 0 else (if kind(acts[0]) then 1 else 0) + HowMany(kind, acts[1..])
  }

  lemma OneMore(k: nat, n: nat)
    ensures k * (1 + n) == k + k * n
  {
  }

  lemma {:induction false} RunBounded<S(!new), A(!new)>(
      next: (S, A) -> Option<S>, inv: S -> bool, measure: S -> nat, free: A -> bool, slack: nat, s: S, acts: seq<A>)
    requires Inductive(next, inv) && inv(s)
    requires Lowers(next, inv, measure, free, slack)
    requires Run(next, s, acts).Some?
    ensures |acts| + measure(Run(next, s, acts).value) <= measure(s) + (slack + 1) * HowMany(free, acts)
    decreases |acts|
  {
    if |acts| > 0 {
      var rest := HowMany(free, acts[1..]);
      RunBounded(next, inv, measure, free, slack, next(s, acts[0]).value, acts[1..]);
      OneMore(slack + 1, rest);
    }
  }

  predicate Never<A>(a: A) { false }

  /** If every step lowers the measure, no run is longer than the measure of its start. */
  lemma {:induction false} RunBoundedStrictly<S(!new), A(!new)>(
      next: (S, A) -> Option<S>, inv: S -> bool, measure: S -> nat, s: S, acts: seq<A>)
    requires Inductive(next, inv) && inv(s)
    requires forall s, a :: inv(s) && next(s, a).Some? ==> measure(next(s, a).value) < measure(s)
    requires Run(next, s, acts).Some?
    ensures |acts| + measure(Run(next, s, acts).value) <= measure(s)
  {
    RunBounded(next, inv, measure, Never, 0, s, acts);
    NeverFree(acts);
  }

  lemma {:induction false} NeverFree<A>(acts: seq<A>)
    ensures HowMany(Never<A>, acts) == 0
  {
    if |acts| > 0 {
      NeverFree(acts[1..]);
    }
  }

  /** Steps paid for by events: an action of the `counted` kind costs one; the credit comes from the start,
      from `perEvent` for each event and `perFree` for each action of the `free` kind. */
  lemma {:induction false} Amortized<S(!new), A(!new), E(!new)>(
      next: (S, A) -> Option<S>, inv: S -> bool, emit: (S, A) -> seq<E>, measure: S -> nat,
      counted: A -> bool, free: A -> bool, perEvent: nat, perFree: nat, s: S, acts: seq<A>)
    requires Inductive(next, inv) && inv(s)
    requires forall s, a :: inv(s) && next(s, a).Some? ==>
               (if counted(a) then 1 else 0) + measure(next(s, a).value)
               <= measure(s) + perEvent * |emit(s, a)| + (if free(a) then perFree else 0)
    requires Run(next, s, acts).Some?
    ensures HowMany(counted, acts) + measure(Run(next, s, acts).value)
         <= measure(s) + perEvent * |Trace(next, emit, s, acts)| + perFree * HowMany(free, acts)
    decreases |acts|
  {
    if |acts| > 0 {
      var s1 := next(s, acts[0]).value;
      Amortized(next, inv, emit, measure, counted, free, perEvent, perFree, s1, acts[1..]);
      var rest := Trace(next, emit, s1, acts[1..]);
      Distribute(perEvent, |emit(s, acts[0])|, |rest|);
      OneMore(perFree, HowMany(free, acts[1..]));
    }
  }

  lemma Distribute(k: nat, m: nat, n: nat)
    ensures k * (m + n) == k * m + k * n
  {
  }

  predicate Always<A>(a: A) { true }

  lemma {:induction false} AlwaysAll<A>(acts: seq<A>)
    ensures HowMany(Always<A>, acts) == |acts|
  {
    if |acts| > 0 {
      AlwaysAll(acts[1..]);
    }
  }
}
