/** The ticket sale: every thread tests `tickets > 0` outside the mutex and prints and decrements inside it. */
module Tickets {
  import opened Runs
  import opened Counting

  /** Test: the unlocked test.  Lock, Print, Dec, Unlock: the sale.  Exited: pthread_exit. */
  datatype Pc = Test | Lock | Print | Dec | Unlock | Exited

  datatype State = State(tickets: int, locked: bool, threads: seq<Pc>)

  function SellStatement(tickets: int, locked: bool, pc: Pc): Option<(int, bool, Pc)> {
    match pc
    case Test => Some((tickets, locked, if tickets > 0 then Lock else Exited))
    case Lock => if locked then None else Some((tickets, true, Print))
    case Print => Some((tickets, locked, Dec))
    case Dec => Some((tickets - 1, locked, Unlock))
    case Unlock => Some((tickets, false, Test))
    case Exited => None
  }

  /** The globals, and the step of whichever thread is scheduled. */
  class Shared {
    var tickets: int
    var locked: bool

    constructor (tickets: int)
      ensures this.tickets == tickets && !locked
    {
      this.tickets, locked := tickets, false;
    }

    method SellStep(pc: Pc) returns (blocked: bool, next: Pc)
      modifies this
      ensures blocked <==> SellStatement(old(tickets), old(locked), pc) == None
      ensures blocked ==> tickets == old(tickets) && locked == old(locked) && next == pc
      ensures !blocked ==> SellStatement(old(tickets), old(locked), pc) == Some((tickets, locked, next))
    {
      blocked, next := false, pc;
      match pc {
        case Test =>
          if tickets > 0 {
            next := Lock;
          } else {
            next := Exited;
          }
        case Lock =>
          if locked { return true, pc; }
          locked := true;
          next := Print;
        case Print =>
          next := Dec;
        case Dec =>
          tickets := tickets - 1;
          next := Unlock;
        case Unlock =>
          locked := false;
          next := Test;
        case Exited =>
          blocked := true;
      }
    }
  }

  function Step(s: State, t: nat): Option<State> {
    if t >= |s.threads| then None
    else
      match SellStatement(s.tickets, s.locked, s.threads[t])
      case None => None
      case Some((tickets, locked, pc)) => Some(State(tickets, locked, s.threads[t := pc]))
  }

  /** The ticket number a Print shows. */
  function Emit(s: State, t: nat): seq<int> {
    if t < |s.threads| && s.threads[t] == Print then [s.tickets] else []
  }

  function Init(tickets: int, threads: nat): State {
    State(tickets, false, seq(threads, _ => Test))
  }

  ghost predicate AllExited(s: State) {
    forall t :: 0 <= t < |s.threads| ==> s.threads[t] == Exited
  }

  /** `v` is what is left at the end of some complete run. */
  ghost predicate Final(tickets: int, threads: nat, v: int) {
    exists s :: Reachable(Step, Init(tickets, threads), s) && AllExited(s) && s.tickets == v
  }

  /* ---------- the invariant ---------- */

  predicate InLock(pc: Pc) { pc == Print || pc == Dec || pc == Unlock }
  predicate Committed(pc: Pc) { pc == Lock || pc == Print || pc == Dec }
  predicate AtDec(pc: Pc) { pc == Dec }

  ghost predicate Inv(s: State) {
    && Count(s.threads, InLock) == (if s.locked then 1 else 0)
    && (s.tickets <= 0 ==> s.tickets - Count(s.threads, Committed) >= 1 - |s.threads|)
    && (forall t :: 0 <= t < |s.threads| && s.threads[t] == Exited ==> s.tickets <= 0)
  }

  lemma StepKeeps(s: State, t: nat)
    requires Inv(s) && Step(s, t).Some?
    ensures Inv(Step(s, t).value)
  {
    var pc := Step(s, t).value.threads[t];
    CountUpdate(s.threads, InLock, t, pc);
    CountUpdate(s.threads, Committed, t, pc);
    CountBounds(s.threads, Committed);
  }

  function PcCost(pc: Pc): nat {
    match pc case Test => 6 case Lock => 5 case Print => 4 case Dec => 3 case Unlock => 7 case Exited => 0
  }

  function Cost(s: State): nat {
    (if s.tickets + |s.threads| <= 0 then 0 else 10 * (s.tickets + |s.threads|)) + Sum(s.threads, PcCost)
  }

  lemma StepCosts(s: State, t: nat)
    requires Inv(s) && Step(s, t).Some?
    ensures Cost(Step(s, t).value) < Cost(s)
  {
    StepKeeps(s, t);
    SumUpdate(s.threads, PcCost, t, Step(s, t).value.threads[t]);
    if s.threads[t] == Dec {
      CountMember(s.threads, Committed, t);
      CountBounds(s.threads, Committed);
    }
  }

  lemma StepsKeep()
    ensures Inductive(Step, Inv)
    ensures forall s: State, t: nat :: Inv(s) && Step(s, t).Some? ==> Cost(Step(s, t).value) < Cost(s)
  {
    forall s: State, t: nat | Inv(s) && Step(s, t).Some?
      ensures Inv(Step(s, t).value)
      ensures Cost(Step(s, t).value) < Cost(s)
    {
      StepKeeps(s, t);
      StepCosts(s, t);
    }
  }

  lemma InitHolds(tickets: int, threads: nat)
    requires tickets >= 1
    ensures Inv(Init(tickets, threads))
    ensures Cost(Init(tickets, threads)) == 10 * (tickets + threads) + threads * 6
  {
    var pcs := Init(tickets, threads).threads;
    CountBounds(pcs, InLock);
    SumConstant(pcs, PcCost, 6);
  }

  lemma {:induction false} ThreadsStay(s: State, acts: seq<nat>)
    requires Run(Step, s, acts).Some?
    ensures |Run(Step, s, acts).value.threads| == |s.threads|
    decreases |acts|
  {
    if |acts| > 0 {
      ThreadsStay(Step(s, acts[0]).value, acts[1..]);
    }
  }

  lemma Stuck(s: State)
    requires Inv(s) && forall t :: Step(s, t) == None
    ensures AllExited(s)
  {
    CountBounds(s.threads, InLock);
    forall t | 0 <= t < |s.threads| ensures !InLock(s.threads[t]) {
      assert Step(s, t) == None;
    }
    forall t | 0 <= t < |s.threads| ensures s.threads[t] == Exited {
      assert Step(s, t) == None;
    }
  }

  /* ---------- every run ---------- */

  /** `tickets` never falls below 1 minus the number of threads, no run is longer than a fixed bound,
      and one that cannot go on has every thread exited and at most 0 tickets left. */
  lemma EveryRun(tickets: int, threads: nat, acts: seq<nat>, s: State)
    requires tickets >= 1 && threads >= 1 && Run(Step, Init(tickets, threads), acts) == Some(s)
    ensures s.tickets >= 1 - threads
    ensures |acts| <= 10 * (tickets + threads) + threads * 6
    ensures (forall t :: Step(s, t) == None) ==> AllExited(s)
    ensures AllExited(s) ==> s.tickets <= 0
  {
    InitHolds(tickets, threads);
    StepsKeep();
    RunKeeps(Step, Inv, Init(tickets, threads), acts);
    RunBoundedStrictly(Step, Inv, Cost, Init(tickets, threads), acts);
    ThreadsStay(Init(tickets, threads), acts);
    if forall t :: Step(s, t) == None {
      Stuck(s);
    }
    assert AllExited(s) ==> s.threads[0] == Exited;
  }

  /** `hi, hi - 1, ..., lo + 1` */
  function Down(hi: int, lo: int): seq<int>
    requires lo <= hi
  {
    seq(hi - lo, i => hi - i)
  }

  /** The next number to be printed. */
  function NextNumber(s: State): int { s.tickets - Count(s.threads, AtDec) }

  lemma PrintStep(s: State, t: nat)
    requires Inv(s) && Step(s, t).Some?
    ensures NextNumber(Step(s, t).value) <= NextNumber(s)
    ensures Emit(s, t) == Down(NextNumber(s), NextNumber(Step(s, t).value))
  {
    CountUpdate(s.threads, AtDec, t, Step(s, t).value.threads[t]);
    if s.threads[t] == Print {
      CountMember(s.threads, InLock, t);
      CountBounds(s.threads, AtDec);
    }
  }

  lemma {:induction false} PrintsFrom(s: State, acts: seq<nat>, s': State)
    requires Inv(s) && Run(Step, s, acts) == Some(s')
    ensures NextNumber(s') <= NextNumber(s)
    ensures Trace(Step, Emit, s, acts) == Down(NextNumber(s), NextNumber(s'))
    decreases |acts|
  {
    if |acts| > 0 {
      var s1 := Step(s, acts[0]).value;
      StepKeeps(s, acts[0]);
      PrintStep(s, acts[0]);
      PrintsFrom(s1, acts[1..], s');
      assert Down(NextNumber(s), NextNumber(s1)) + Down(NextNumber(s1), NextNumber(s')) == Down(NextNumber(s), NextNumber(s'));
    }
  }

  /** The numbers printed are K, K-1, K-2, ... without gap or repeat, whoever prints them; all of
      them are accounted for by the tickets left and at most one decrement still to come. */
  lemma PrintedNumbers(tickets: int, threads: nat, acts: seq<nat>, s: State)
    requires tickets >= 1 && Run(Step, Init(tickets, threads), acts) == Some(s)
    ensures NextNumber(s) <= tickets
    ensures Trace(Step, Emit, Init(tickets, threads), acts) == Down(tickets, NextNumber(s))
    ensures s.tickets - 1 <= NextNumber(s) <= s.tickets
  {
    var init := Init(tickets, threads);
    InitHolds(tickets, threads);
    CountBounds(init.threads, AtDec);
    PrintsFrom(init, acts, s);
    StepsKeep();
    RunKeeps(Step, Inv, init, acts);
    DecInLock(s.threads);
  }

  lemma {:induction false} DecInLock(pcs: seq<Pc>)
    ensures Count(pcs, AtDec) <= Count(pcs, InLock)
  {
    if |pcs| > 0 {
      DecInLock(pcs[1..]);
    }
  }

  /* ---------- runs that oversell ---------- */

  /** The first `m` threads at `a`, the others at `b`. */
  function Mix(threads: nat, m: nat, a: Pc, b: Pc): seq<Pc> {
    seq(threads, i => if i < m then a else b)
  }

  /** Lock, print, decrement, unlock without interruption. */
  lemma Sell(s: State, t: nat) returns (acts: seq<nat>)
    requires t < |s.threads| && s.threads[t] == Lock && !s.locked
    ensures Run(Step, s, acts) == Some(s.(tickets := s.tickets - 1, threads := s.threads[t := Test]))
  {
    var s1 := Step(s, t).value;
    var s2 := Step(s1, t).value;
    var s3 := Step(s2, t).value;
    var s4 := Step(s3, t).value;
    RunOne(Step, s, t);
    RunOne(Step, s1, t);
    RunOne(Step, s2, t);
    RunOne(Step, s3, t);
    RunConcat(Step, s, [t], s1, [t]);
    RunConcat(Step, s, [t] + [t], s2, [t]);
    RunConcat(Step, s, [t] + [t] + [t], s3, [t]);
    acts := [t] + [t] + [t] + [t];
    assert s4.threads == s.threads[t := Test];
  }

  /** Thread 0 alone sells all tickets but one. */
  lemma {:induction false} SellDown(k: nat, threads: nat) returns (acts: seq<nat>)
    requires threads >= 1
    ensures Run(Step, Init(k + 1, threads), acts) == Some(Init(1, threads))
  {
    if k == 0 {
      acts := [];
    } else {
      var s := Init(k + 1, threads);
      RunOne(Step, s, 0);
      var s1 := Step(s, 0).value;
      var sale := Sell(s1, 0);
      assert s1.threads[0 := Test] == s.threads;
      RunConcat(Step, s, [0], s1, sale);
      var rest := SellDown(k - 1, threads);
      RunConcat(Step, s, [0] + sale, Init(k, threads), rest);
      acts := [0] + sale + rest;
    }
  }

  /** With one ticket left the first `m` threads all pass the test. */
  lemma {:induction false} AllPass(m: nat, threads: nat) returns (acts: seq<nat>)
    requires m <= threads
    ensures Run(Step, Init(1, threads), acts) == Some(State(1, false, Mix(threads, m, Lock, Test)))
  {
    if m == 0 {
      acts := [];
      assert Mix(threads, 0, Lock, Test) == Init(1, threads).threads;
    } else {
      var t: nat := m - 1;
      var before := AllPass(m - 1, threads);
      var s := State(1, false, Mix(threads, m - 1, Lock, Test));
      RunOne(Step, s, t);
      assert s.threads[t := Lock] == Mix(threads, m, Lock, Test);
      RunConcat(Step, Init(1, threads), before, s, [t]);
      acts := before + [t];
    }
  }

  /** Then each of them sells, though nothing is left. */
  lemma {:induction false} AllSell(tickets: int, m: nat, threads: nat) returns (acts: seq<nat>)
    requires m <= threads
    ensures Run(Step, State(tickets, false, Mix(threads, m, Lock, Test)), acts) == Some(Init(tickets - m, threads))
    decreases m
  {
    if m == 0 {
      acts := [];
      assert Mix(threads, 0, Lock, Test) == Init(tickets, threads).threads;
    } else {
      var s := State(tickets, false, Mix(threads, m, Lock, Test));
      var sale := Sell(s, m - 1);
      assert s.threads[m - 1 := Test] == Mix(threads, m - 1, Lock, Test);
      var rest := AllSell(tickets - 1, m - 1, threads);
      RunConcat(Step, s, sale, State(tickets - 1, false, Mix(threads, m - 1, Lock, Test)), rest);
      acts := sale + rest;
    }
  }

  /** And every thread finds no ticket and exits. */
  lemma {:induction false} AllLeave(tickets: int, m: nat, threads: nat) returns (acts: seq<nat>)
    requires m <= threads && tickets <= 0
    ensures Run(Step, Init(tickets, threads), acts) == Some(State(tickets, false, Mix(threads, m, Exited, Test)))
  {
    if m == 0 {
      acts := [];
      assert Mix(threads, 0, Exited, Test) == Init(tickets, threads).threads;
    } else {
      var t: nat := m - 1;
      var before := AllLeave(tickets, m - 1, threads);
      var s := State(tickets, false, Mix(threads, m - 1, Exited, Test));
      RunOne(Step, s, t);
      assert s.threads[t := Exited] == Mix(threads, m, Exited, Test);
      RunConcat(Step, Init(tickets, threads), before, s, [t]);
      acts := before + [t];
    }
  }

  lemma Oversell(tickets: int, threads: nat, v: int)
    requires tickets >= 1 && 1 - threads <= v <= 0
    ensures Final(tickets, threads, v)
  {
    var m := 1 - v;
    var a1 := SellDown(tickets - 1, threads);
    var a2 := AllPass(m, threads);
    RunConcat(Step, Init(tickets, threads), a1, Init(1, threads), a2);
    var a3 := AllSell(1, m, threads);
    RunConcat(Step, Init(tickets, threads), a1 + a2, State(1, false, Mix(threads, m, Lock, Test)), a3);
    var a4 := AllLeave(v, threads, threads);
    var end := State(v, false, Mix(threads, threads, Exited, Test));
    RunConcat(Step, Init(tickets, threads), a1 + a2 + a3, Init(v, threads), a4);
    assert AllExited(end);
  }

  /** With at least one ticket and one thread, the possible final values are exactly 1 - threads to 0. */
  lemma FinalValues(tickets: int, threads: nat, v: int)
    requires tickets >= 1 && threads >= 1
    ensures Final(tickets, threads, v) <==> 1 - threads <= v <= 0
  {
    if Final(tickets, threads, v) {
      var s :| Reachable(Step, Init(tickets, threads), s) && AllExited(s) && s.tickets == v;
      var acts :| Run(Step, Init(tickets, threads), acts) == Some(s);
      EveryRun(tickets, threads, acts, s);
    }
    if 1 - threads <= v <= 0 {
      Oversell(tickets, threads, v);
    }
  }
}
