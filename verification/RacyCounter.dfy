/** Threads that add to a shared counter without a lock: `val = counter; counter = val + 1`, the load
    and the store being separate steps. */
module RacyCounter {
  import opened Runs

  /** `i` stores done so far; between the load and the store `loaded` holds and `val` is what was read. */
  datatype Thread = Thread(i: nat, loaded: bool, val: int)

  datatype State = State(loops: nat, counter: int, threads: seq<Thread>)

  /** One step of the loop body: the load, or the store that ends the iteration. */
  function DoitStatement(loops: nat, counter: int, me: Thread): Option<(int, Thread)> {
    if me.i >= loops then None
    else if !me.loaded then Some((counter, Thread(me.i, true, counter)))
    else Some((me.val + 1, Thread(me.i + 1, false, me.val)))
  }

  /** The global variable, and the step of whichever thread is scheduled. */
  class Shared {
    var counter: int

    constructor ()
      ensures counter == 0
    {
      counter := 0;
    }

    method DoitStep(loops: nat, me: Thread) returns (exited: bool, next: Thread)
      modifies this
      ensures exited <==> DoitStatement(loops, old(counter), me) == None
      ensures exited ==> counter == old(counter) && next == me
      ensures !exited ==> DoitStatement(loops, old(counter), me) == Some((counter, next))
    {
      exited, next := false, me;
      if me.i < loops {
        if !me.loaded {
          next := Thread(me.i, true, counter);
        } else {
          counter := me.val + 1;
          next := Thread(me.i + 1, false, me.val);
        }
      } else {
        exited := true;
      }
    }
  }

  /** Thread `t` takes its next step. */
  function Step(s: State, t: nat): Option<State> {
    if t >= |s.threads| then None
    else
      match DoitStatement(s.loops, s.counter, s.threads[t])
      case None => None
      case Some((counter, me)) => Some(State(s.loops, counter, s.threads[t := me]))
  }

  const FRESH: Thread := Thread(0, false, 0)

  function Init(loops: nat): State { State(loops, 0, [FRESH, FRESH]) }

  ghost predicate Done(s: State) {
    forall t :: 0 <= t < |s.threads| ==> s.threads[t].i == s.loops
  }

  /** `v` is the counter at the end of some complete run of two threads. */
  ghost predicate Final(loops: nat, v: int) {
    exists s :: Reachable(Step, Init(loops), s) && Done(s) && s.counter == v
  }

  /* ---------- no complete run ends outside the range ---------- */

  /** Once a thread has stored, the counter is never 0 again, so what that thread loads next is not 0 either. */
  ghost predicate Inv(s: State) {
    && |s.threads| == 2
    && (forall t :: 0 <= t < 2 ==> s.threads[t].i <= s.loops && (s.threads[t].i == s.loops ==> !s.threads[t].loaded))
    && 0 <= s.counter <= s.threads[0].i + s.threads[1].i
    && (forall t :: 0 <= t < 2 && s.threads[t].loaded ==> 0 <= s.threads[t].val <= s.threads[0].i + s.threads[1].i)
    && (s.threads[0].i + s.threads[1].i > 0 ==> s.counter >= 1)
    && (forall t :: 0 <= t < 2 && s.threads[t].loaded && s.threads[t].i > 0 ==> s.threads[t].val >= 1)
    && (s.loops >= 2 && s.threads[0].i == s.loops && s.threads[1].i == s.loops ==> s.counter >= 2)
  }

  lemma StepKeeps(s: State, t: nat)
    requires Inv(s) && Step(s, t).Some?
    ensures Inv(Step(s, t).value) && Step(s, t).value.loops == s.loops
  {
  }

  lemma FinalBounds(loops: nat, v: int)
    requires Final(loops, v)
    ensures (if loops < 2 then loops else 2) <= v <= 2 * loops
  {
    hide Step;
    var s :| Reachable(Step, Init(loops), s) && Done(s) && s.counter == v;
    var inv := (s: State) => Inv(s) && s.loops == loops;
    assert Inductive(Step, inv) by {
      forall s: State, t: nat | inv(s) && Step(s, t).Some? ensures inv(Step(s, t).value) {
        StepKeeps(s, t);
      }
    }
    ReachableKeeps(Step, inv, Init(loops), s);
  }

  /* ---------- every value in the range is the end of a run ---------- */

  function Repeat(t: nat, k: nat): seq<nat> {
    if k == 0 then [] else [t, t] + Repeat(t, k - 1)
  }

  /** The state after thread `t` has run `k` whole iterations by itself. */
  function AfterSolo(s: State, t: nat, k: nat): State
    requires t < |s.threads|
  {
    if k == 0 then s
    else State(s.loops, s.counter + k, s.threads[t := Thread(s.threads[t].i + k, false, s.counter + k - 1)])
  }

  lemma {:induction false} Solo(s: State, t: nat, k: nat)
    requires t < |s.threads| && !s.threads[t].loaded && s.threads[t].i + k <= s.loops
    ensures Run(Step, s, Repeat(t, k)) == Some(AfterSolo(s, t, k))
    decreases k
  {
    if k > 0 {
      var s1 := Step(s, t).value;
      var s2 := Step(s1, t).value;
      assert s2 == AfterSolo(s, t, 1);
      var acts := Repeat(t, k);
      assert acts[1..] == [t] + Repeat(t, k - 1);
      assert acts[1..][1..] == Repeat(t, k - 1);
      Solo(s2, t, k - 1);
      assert AfterSolo(s2, t, k - 1) == AfterSolo(s, t, k);
    }
  }

  function LockstepActs(r: nat): seq<nat> {
    if r == 0 then [] else [0, 1, 0, 1] + LockstepActs(r - 1)
  }

  /** Two threads that load together and store together lose one of the two increments. */
  lemma OneRound(s: State) returns (s': State)
    requires |s.threads| == 2 && !s.threads[0].loaded && !s.threads[1].loaded
    requires s.threads[0].i < s.loops && s.threads[1].i < s.loops
    ensures Run(Step, s, [0, 1, 0, 1]) == Some(s')
    ensures s'.loops == s.loops && s'.counter == s.counter + 1 && |s'.threads| == 2
    ensures forall t :: 0 <= t < 2 ==> s'.threads[t].i == s.threads[t].i + 1 && !s'.threads[t].loaded
  {
    var s1 := Step(s, 0).value;
    var s2 := Step(s1, 1).value;
    var s3 := Step(s2, 0).value;
    s' := Step(s3, 1).value;
    RunOne(Step, s, 0);
    RunOne(Step, s1, 1);
    RunOne(Step, s2, 0);
    RunOne(Step, s3, 1);
    RunConcat(Step, s, [0], s1, [1]);
    RunConcat(Step, s, [0, 1], s2, [0]);
    RunConcat(Step, s, [0, 1, 0], s3, [1]);
    assert [0] + [1] == [0, 1] && [0, 1] + [0] == [0, 1, 0] && [0, 1, 0] + [1] == [0, 1, 0, 1];
  }

  lemma {:induction false} Lockstep(s: State, r: nat) returns (s': State)
    requires |s.threads| == 2 && !s.threads[0].loaded && !s.threads[1].loaded
    requires s.threads[0].i + r <= s.loops && s.threads[1].i + r <= s.loops
    ensures Run(Step, s, LockstepActs(r)) == Some(s')
    ensures s'.loops == s.loops && s'.counter == s.counter + r && |s'.threads| == 2
    ensures forall t :: 0 <= t < 2 ==> s'.threads[t].i == s.threads[t].i + r && !s'.threads[t].loaded
    decreases r
  {
    if r == 0 {
      s' := s;
    } else {
      var mid := OneRound(s);
      s' := Lockstep(mid, r - 1);
      RunConcat(Step, s, [0, 1, 0, 1], mid, LockstepActs(r - 1));
    }
  }

  /** `2 * loops - r`: `r` rounds in lockstep, the rest one thread after the other. */
  lemma HighValues(loops: nat, v: int)
    requires loops <= v <= 2 * loops
    ensures Final(loops, v)
  {
    hide Run;
    var r := 2 * loops - v;
    var mid := Lockstep(Init(loops), r);
    Solo(mid, 0, loops - r);
    var mid2 := AfterSolo(mid, 0, loops - r);
    Solo(mid2, 1, loops - r);
    var end := AfterSolo(mid2, 1, loops - r);
    RunConcat(Step, Init(loops), LockstepActs(r), mid, Repeat(0, loops - r));
    RunConcat(Step, Init(loops), LockstepActs(r) + Repeat(0, loops - r), mid2, Repeat(1, loops - r));
    assert Done(end);
  }

  /** Small values: thread 0 loads 0 and holds on to it while thread 1 does all but one iteration;
      thread 0 stores 1 and does `v - 2` more; thread 1 loads `v - 1`; thread 0 finishes; thread 1 stores `v`. */
  lemma LowValues(loops: nat, v: int)
    requires loops >= 2 && 2 <= v <= loops + 1
    ensures Final(loops, v)
  {
    hide Run;
    var s0 := Init(loops);
    var s1 := Step(s0, 0).value;
    RunOne(Step, s0, 0);
    Solo(s1, 1, loops - 1);
    var s2 := AfterSolo(s1, 1, loops - 1);
    RunConcat(Step, s0, [0], s1, Repeat(1, loops - 1));
    var acts := [0] + Repeat(1, loops - 1);
    var s3 := Step(s2, 0).value;
    RunOne(Step, s2, 0);
    RunConcat(Step, s0, acts, s2, [0]);
    acts := acts + [0];
    Solo(s3, 0, v - 2);
    var s4 := AfterSolo(s3, 0, v - 2);
    RunConcat(Step, s0, acts, s3, Repeat(0, v - 2));
    acts := acts + Repeat(0, v - 2);
    var s5 := Step(s4, 1).value;
    RunOne(Step, s4, 1);
    RunConcat(Step, s0, acts, s4, [1]);
    acts := acts + [1];
    Solo(s5, 0, loops - (v - 1));
    var s6 := AfterSolo(s5, 0, loops - (v - 1));
    RunConcat(Step, s0, acts, s5, Repeat(0, loops - (v - 1)));
    acts := acts + Repeat(0, loops - (v - 1));
    var s7 := Step(s6, 1).value;
    RunOne(Step, s6, 1);
    RunConcat(Step, s0, acts, s6, [1]);
    assert Run(Step, s0, acts + [1]) == Some(s7);
    assert Done(s7) && s7.counter == v;
  }

  /** Two unlocked threads of `loops` iterations end with exactly the values from 2 (or `loops`, if that
      is less) to `2 * loops`. */
  lemma FinalValues(loops: nat, v: int)
    ensures Final(loops, v) <==> (if loops < 2 then loops else 2) <= v <= 2 * loops
  {
    if Final(loops, v) {
      FinalBounds(loops, v);
    }
    if loops <= v <= 2 * loops {
      HighValues(loops, v);
    } else if loops >= 2 && 2 <= v <= 2 * loops {
      LowValues(loops, v);
    }
  }
}
