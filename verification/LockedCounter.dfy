/** The same counter with each iteration under a mutex, for any number of threads. */
module LockedCounter {
  import opened Runs
  import opened Counting

  datatype Pc = Lock | Load | Store | Unlock
  datatype Thread = Thread(pc: Pc, i: nat, val: int)
  datatype State = State(loops: nat, counter: int, locked: bool, threads: seq<Thread>)

  function DoitStatement(loops: nat, counter: int, locked: bool, me: Thread): Option<(int, bool, Thread)> {
    match me.pc
    case Lock => if me.i >= loops || locked then None else Some((counter, true, me.(pc := Load)))
    case Load => Some((counter, locked, Thread(Store, me.i, counter)))
    case Store => Some((me.val + 1, locked, me.(pc := Unlock)))
    case Unlock => Some((counter, false, Thread(Lock, me.i + 1, me.val)))
  }

  /** The globals, and the step of whichever thread is scheduled. */
  class Shared {
    var counter: int
    var locked: bool

    constructor ()
      ensures counter == 0 && !locked
    {
      counter, locked := 0, false;
    }

    method DoitStep(loops: nat, me: Thread) returns (blocked: bool, next: Thread)
      modifies this
      ensures blocked <==> DoitStatement(loops, old(counter), old(locked), me) == None
      ensures blocked ==> counter == old(counter) && locked == old(locked) && next == me
      ensures !blocked ==> DoitStatement(loops, old(counter), old(locked), me) == Some((counter, locked, next))
    {
      blocked, next := false, me;
      match me.pc {
        case Lock =>
          if me.i >= loops || locked { return true, me; }
          locked := true;
          next := me.(pc := Load);
        case Load =>
          next := Thread(Store, me.i, counter);
        case Store =>
          counter := me.val + 1;
          next := me.(pc := Unlock);
        case Unlock =>
          locked := false;
          next := Thread(Lock, me.i + 1, me.val);
      }
    }
  }

  function Step(s: State, t: nat): Option<State> {
    if t >= |s.threads| then None
    else
      match DoitStatement(s.loops, s.counter, s.locked, s.threads[t])
      case None => None
      case Some((counter, locked, me)) => Some(State(s.loops, counter, locked, s.threads[t := me]))
  }

  function Init(loops: nat, threads: nat): State {
    State(loops, 0, false, seq(threads, _ => Thread(Lock, 0, 0)))
  }

  predicate InLock(t: Thread) { !t.pc.Lock? }

  function Stores(t: Thread): nat { t.i + (if t.pc.Unlock? then 1 else 0) }

  /** The steps a thread still has to take. */
  function Left(loops: nat): Thread -> nat {
    (t: Thread) => LeftOf(loops, t)
  }

  function LeftOf(loops: nat, t: Thread): nat {
    if t.i >= loops then 0
    else 4 * (loops - t.i) - (match t.pc case Lock => 0 case Load => 1 case Store => 2 case Unlock => 3)
  }

  function Cost(s: State): nat { Sum(s.threads, Left(s.loops)) }

  ghost predicate Inv(s: State) {
    && Count(s.threads, InLock) == (if s.locked then 1 else 0)
    && s.counter == Sum(s.threads, Stores)
    && (forall t :: 0 <= t < |s.threads| && s.threads[t].pc.Store? ==> s.threads[t].val == s.counter)
    && (forall t :: 0 <= t < |s.threads| ==> s.threads[t].i <= s.loops && (InLock(s.threads[t]) ==> s.threads[t].i < s.loops))
  }

  lemma StepKeeps(s: State, t: nat)
    requires Inv(s) && Step(s, t).Some?
    ensures Inv(Step(s, t).value)
  {
    var me' := Step(s, t).value.threads[t];
    CountUpdate(s.threads, InLock, t, me');
    SumUpdate(s.threads, Stores, t, me');
    if InLock(s.threads[t]) {
      CountMember(s.threads, InLock, t);
    }
  }

  lemma StepCosts(s: State, t: nat)
    requires Inv(s) && Step(s, t).Some?
    ensures Cost(Step(s, t).value) < Cost(s)
  {
    var me' := Step(s, t).value.threads[t];
    SumUpdate(s.threads, Left(s.loops), t, me');
    assert LeftOf(s.loops, me') < LeftOf(s.loops, s.threads[t]);
  }

  lemma StepsKeep()
    ensures Inductive(Step, Inv)
    ensures forall s: State, t: nat :: Inv(s) && Step(s, t).Some? ==> Cost(Step(s, t).value) < Cost(s)
  {
    forall s: State, t: nat | Inv(s) && Step(s, t).Some?
      ensures Inv(Step(s, t).value)
      ensures Cost(Step(s, t).value) < Cost(s)
    {
      StepKeeps(s, t);
      StepCosts(s, t);
    }
  }

  lemma {:induction false} NothingElseChanges(s: State, acts: seq<nat>)
    requires Run(Step, s, acts).Some?
    ensures Run(Step, s, acts).value.loops == s.loops
    ensures |Run(Step, s, acts).value.threads| == |s.threads|
    decreases |acts|
  {
    if |acts| > 0 {
      NothingElseChanges(Step(s, acts[0]).value, acts[1..]);
    }
  }

  /** However `threads` threads interleave, a run that cannot go on has counted every iteration, and
      no run is longer than four steps for each. */
  lemma CountsEverything(loops: nat, threads: nat, acts: seq<nat>, s: State)
    requires Run(Step, Init(loops, threads), acts) == Some(s)
    ensures |acts| <= threads * (4 * loops)
    ensures (forall t :: Step(s, t) == None) ==> s.counter == threads * loops
  {
    Setup(loops, threads);
    StepsKeep();
    RunKeeps(Step, Inv, Init(loops, threads), acts);
    RunBoundedStrictly(Step, Inv, Cost, Init(loops, threads), acts);
    NothingElseChanges(Init(loops, threads), acts);
    if forall t :: Step(s, t) == None {
      Stuck(s);
      SumConstant(s.threads, Stores, loops);
    }
  }

  lemma Setup(loops: nat, threads: nat)
    ensures Inv(Init(loops, threads))
    ensures Cost(Init(loops, threads)) == threads * (4 * loops)
  {
    var ts := Init(loops, threads).threads;
    CountBounds(ts, InLock);
    SumConstant(ts, Stores, 0);
    SumConstant(ts, Left(loops), 4 * loops);
  }

  lemma Stuck(s: State)
    requires Inv(s) && forall t :: Step(s, t) == None
    ensures forall t :: 0 <= t < |s.threads| ==> Stores(s.threads[t]) == s.loops
  {
    CountBounds(s.threads, InLock);
    forall t | 0 <= t < |s.threads| ensures !InLock(s.threads[t]) {
      assert Step(s, t) == None;
    }
    forall t | 0 <= t < |s.threads| ensures Stores(s.threads[t]) == s.loops {
      assert Step(s, t) == None;
    }
  }
}
