/** Philosophers on a ring, each taking its own chopstick and then the next one. */
module Philosophers {
  import opened Runs
  import Cyclic

  /** LockOwn: about to take its own chopstick.  LockNext: holds it, about to take the next.
      UnlockNext: holds both, about to put the next one down.  UnlockOwn: about to put its own down. */
  datatype Pc = LockOwn | LockNext | UnlockNext | UnlockOwn

  /** `taken[c]`: the mutex of chopstick `c` is locked. */
  datatype RawState = State(pcs: seq<Pc>, taken: seq<bool>)
  type State = s: RawState | |s.pcs| == |s.taken| >= 2 witness State([LockOwn, LockOwn], [false, false])

  function Next(i: nat, n: nat): (r: nat)
    requires i < n
    ensures r < n
  {
    if i + 1 == n then 0 else i + 1
  }

  lemma NextIsModulo(i: nat, n: nat)
    requires i < n
    ensures Next(i, n) == (i + 1) % n
  {
  }

  function Previous(i: nat, n: nat): (r: nat)
    requires i < n
    ensures r < n && Next(r, n) == i
  {
    if i == 0 then n - 1 else i - 1
  }

  /** Philosopher `i`'s next statement. */
  function Statement(i: nat, pc: Pc, taken: seq<bool>): Option<(Pc, seq<bool>)>
    requires i < |taken|
  {
    var next := Next(i, |taken|);
    match pc
    case LockOwn => if taken[i] then None else Some((LockNext, taken[i := true]))
    case LockNext => if taken[next] then None else Some((UnlockNext, taken[next := true]))
    case UnlockNext => Some((UnlockOwn, taken[next := false]))
    case UnlockOwn => Some((LockOwn, taken[i := false]))
  }

  /** The array of mutexes, and the step of whichever philosopher is scheduled. */
  class Table {
    const chops: array<bool>

    constructor (n: nat)
      ensures fresh(chops) && chops[..] == seq(n, _ => false)
    {
      chops := new bool[n](_ => false);
    }

    method PhilosopherStep(no: nat, pc: Pc) returns (blocked: bool, next: Pc)
      requires no < chops.Length
      modifies chops
      ensures blocked <==> Statement(no, pc, old(chops[..])) == None
      ensures blocked ==> chops[..] == old(chops[..]) && next == pc
      ensures !blocked ==> Statement(no, pc, old(chops[..])) == Some((next, chops[..]))
    {
      NextIsModulo(no, chops.Length);
      blocked, next := false, pc;
      match pc {
        case LockOwn =>
          if chops[no] { return true, pc; }
          chops[no] := true;
          next := LockNext;
        case LockNext =>
          if chops[(no + 1) % chops.Length] { return true, pc; }
          chops[(no + 1) % chops.Length] := true;
          next := UnlockNext;
        case UnlockNext =>
          chops[(no + 1) % chops.Length] := false;
          next := UnlockOwn;
        case UnlockOwn =>
          chops[no] := false;
          next := LockOwn;
      }
    }
  }

  function Step(s: State, i: nat): Option<State> {
    if i >= |s.pcs| then None
    else
      match Statement(i, s.pcs[i], s.taken)
      case None => None
      case Some((pc, taken)) => Some(State(s.pcs[i := pc], taken))
  }

  function Init(n: nat): State
    requires n >= 2
  {
    State(seq(n, _ => LockOwn), seq(n, _ => false))
  }

  predicate HoldsOwn(pc: Pc) { pc != LockOwn }
  predicate HoldsNext(pc: Pc) { pc == UnlockNext }

  /** Chopstick `c` is locked exactly when one of its two neighbours holds it, and not by both. */
  ghost predicate Accounted(s: State, c: nat)
    requires c < |s.pcs|
  {
    var left := Previous(c, |s.pcs|);
    && (s.taken[c] <==> HoldsOwn(s.pcs[c]) || HoldsNext(s.pcs[left]))
    && !(HoldsOwn(s.pcs[c]) && HoldsNext(s.pcs[left]))
  }

  ghost predicate Inv(s: State) {
    forall c :: 0 <= c < |s.pcs| ==> Accounted(s, c)
  }

  lemma StepKeeps(s: State, i: nat)
    requires Inv(s) && Step(s, i).Some?
    ensures Inv(Step(s, i).value)
  {
    var s', n := Step(s, i).value, |s.pcs|;
    var next := Next(i, n);
    assert Previous(next, n) == i;
    assert Accounted(s, i) && Accounted(s, next);
    forall c | 0 <= c < n ensures Accounted(s', c) {
      assert Accounted(s, c);
      assert c != next ==> Previous(c, n) != i;
    }
  }

  lemma InitHolds(n: nat)
    requires n >= 2
    ensures Inv(Init(n))
  {
    assert forall c :: 0 <= c < n ==> Accounted(Init(n), c);
  }

  lemma ReachableInv(n: nat, s: State)
    requires n >= 2 && Reachable(Step, Init(n), s)
    ensures Inv(s) && |s.pcs| == n
  {
    var inv := (s: State) => Inv(s) && |s.pcs| == n;
    assert Inductive(Step, inv) by {
      forall s: State, i: nat | inv(s) && Step(s, i).Some? ensures inv(Step(s, i).value) {
        StepKeeps(s, i);
      }
    }
    InitHolds(n);
    ReachableKeeps(Step, inv, Init(n), s);
  }

  /** Neighbours never eat at the same time, and no chopstick is in two hands. */
  lemma NeighboursExclude(n: nat, s: State, i: nat)
    requires n >= 2 && Reachable(Step, Init(n), s) && i < n
    ensures |s.pcs| == n
    ensures HoldsNext(s.pcs[i]) ==> !HoldsOwn(s.pcs[Next(i, n)])
    ensures !(HoldsNext(s.pcs[i]) && HoldsNext(s.pcs[Next(i, n)]))
  {
    ReachableInv(n, s);
    assert Previous(Next(i, n), n) == i;
    assert Accounted(s, Next(i, n));
  }

  /** A property handed on to the next place holds all the way round. */
  lemma RoundTheRing(s: State, i: nat)
    requires i < |s.pcs| && s.pcs[i] == LockNext
    requires forall j :: 0 <= j < |s.pcs| && s.pcs[j] == LockNext ==> s.pcs[Next(j, |s.pcs|)] == LockNext
    ensures forall j :: 0 <= j < |s.pcs| ==> s.pcs[j] == LockNext
  {
    var n := |s.pcs|;
    var k := i;
    while k < n - 1
      invariant i <= k < n && s.pcs[k] == LockNext
    {
      assert Next(k, n) == k + 1;
      k := k + 1;
    }
    assert Next(n - 1, n) == 0;
    k := 0;
    while k < n - 1
      invariant 0 <= k < n && forall j :: 0 <= j <= k ==> s.pcs[j] == LockNext
    {
      assert Next(k, n) == k + 1;
      k := k + 1;
    }
  }

  /** None of the philosophers in `active` can move. */
  ghost predicate Stuck(s: State, active: set<nat>) {
    forall i :: i in active ==> Step(s, i) == None
  }

  lemma {:induction false} InactiveStay(s: State, acts: seq<nat>, active: set<nat>)
    requires forall k :: 0 <= k < |acts| ==> acts[k] in active
    requires Run(Step, s, acts).Some?
    ensures |Run(Step, s, acts).value.pcs| == |s.pcs|
    ensures forall i :: 0 <= i < |s.pcs| && i !in active ==> Run(Step, s, acts).value.pcs[i] == s.pcs[i]
    decreases |acts|
  {
    if |acts| > 0 {
      InactiveStay(Step(s, acts[0]).value, acts[1..], active);
    }
  }

  /** Let any non-empty set of the `n` philosophers run. A reachable state is stuck if and only if all
      `n` hold their own chopstick and wait for the next; so it takes all of them, and with at most
      `n - 1` running no reachable state is stuck. */
  lemma DeadlockExactly(n: nat, active: set<nat>, acts: seq<nat>, s: State)
    requires n >= 2 && active != {} && forall i :: i in active ==> i < n
    requires forall k :: 0 <= k < |acts| ==> acts[k] in active
    requires Run(Step, Init(n), acts) == Some(s)
    ensures Stuck(s, active) <==> forall i :: 0 <= i < |s.pcs| ==> s.pcs[i] == LockNext
    ensures (exists i :: 0 <= i < n && i !in active) ==> !Stuck(s, active)
  {
    hide Step, Accounted;
    ReachableInv(n, s);
    InactiveStay(Init(n), acts, active);
    if Stuck(s, active) {
      var i :| i in active;
      StuckWaits(s, active, i);
      forall j | 0 <= j < n && s.pcs[j] == LockNext ensures s.pcs[Next(j, n)] == LockNext {
        StuckHandsOn(s, active, j);
      }
      RoundTheRing(s, i);
    }
    if forall i :: 0 <= i < |s.pcs| ==> s.pcs[i] == LockNext {
      AllWait(s, active);
    }
  }

  lemma AllWait(s: State, active: set<nat>)
    requires Inv(s) && forall i :: i in active ==> i < |s.pcs|
    requires forall i :: 0 <= i < |s.pcs| ==> s.pcs[i] == LockNext
    ensures Stuck(s, active)
  {
    forall i | i in active ensures Step(s, i) == None {
      assert Accounted(s, Next(i, |s.pcs|));
    }
  }

  lemma StuckWaits(s: State, active: set<nat>, i: nat)
    requires Inv(s) && Stuck(s, active) && forall j :: j in active ==> j < |s.pcs|
    requires forall j :: 0 <= j < |s.pcs| && j !in active ==> s.pcs[j] == LockOwn
    requires i in active
    ensures s.pcs[i] == LockNext
  {
    var left: nat := Previous(i, |s.pcs|);
    assert Step(s, i) == None && Accounted(s, i);
    assert left in active ==> Step(s, left) == None;
  }

  lemma StuckHandsOn(s: State, active: set<nat>, j: nat)
    requires Inv(s) && Stuck(s, active) && forall j :: j in active ==> j < |s.pcs|
    requires forall j :: 0 <= j < |s.pcs| && j !in active ==> s.pcs[j] == LockOwn
    requires j < |s.pcs| && s.pcs[j] == LockNext
    ensures s.pcs[Next(j, |s.pcs|)] == LockNext
  {
    var next := Next(j, |s.pcs|);
    assert Step(s, j) == None;
    assert Previous(next, |s.pcs|) == j && Accounted(s, next);
    StuckWaits(s, active, next);
  }

  /** The first `m` philosophers hold their own chopstick. */
  function FirstHold(n: nat, m: nat): State
    requires n >= 2
  {
    State(seq(n, i => if i < m then LockNext else LockOwn), seq(n, i => i < m))
  }

  function Upto(m: nat): seq<nat> { seq(m, i => i) }

  lemma {:induction false} EachTakesOwn(n: nat, m: nat)
    requires n >= 2 && m <= n
    ensures Run(Step, Init(n), Upto(m)) == Some(FirstHold(n, m))
  {
    if m == 0 {
      assert FirstHold(n, 0) == Init(n);
    } else {
      var t: nat := m - 1;
      EachTakesOwn(n, t);
      RunOne(Step, FirstHold(n, t), t);
      assert FirstHold(n, t).pcs[t := LockNext] == FirstHold(n, m).pcs;
      assert FirstHold(n, t).taken[t := true] == FirstHold(n, m).taken;
      RunConcat(Step, Init(n), Upto(t), FirstHold(n, t), [t]);
      assert Upto(t) + [t] == Upto(m);
    }
  }

  /** The deadlock really is reachable, for every ring size. */
  lemma DeadlockReachable(n: nat)
    requires n >= 2
    ensures Reachable(Step, Init(n), FirstHold(n, n))
    ensures forall i :: Step(FirstHold(n, n), i) == None
    ensures forall i :: 0 <= i < n ==> FirstHold(n, n).pcs[i] == LockNext
  {
    EachTakesOwn(n, n);
  }

  /* ---------- what a philosopher does with the chopsticks ---------- */

  datatype Operation = Lock(chop: nat) | Unlock(chop: nat)

  function Change(was: seq<bool>, now: seq<bool>, c: nat): seq<Operation>
    requires c < |was| == |now|
  {
    if was[c] == now[c] then [] else if now[c] then [Lock(c)] else [Unlock(c)]
  }

  /** The mutexes that change hands when philosopher `i` moves. */
  function Operations(i: nat): (State, nat) -> seq<Operation> {
    (s: State, mover: nat) =>
      if mover == i < |s.pcs| && Step(s, i).Some? then
        Change(s.taken, Step(s, i).value.taken, i) + Change(s.taken, Step(s, i).value.taken, Next(i, |s.pcs|))
      else []
  }

  /** The `k`-th operation of a round: take the own chopstick, take the next, put the next back, put the own back. */
  function Round(i: nat, n: nat, k: nat): Operation
    requires i < n
  {
    match k % 4
    case 0 => Lock(i)
    case 1 => Lock(Next(i, n))
    case 2 => Unlock(Next(i, n))
    case _ => Unlock(i)
  }

  function Phase(pc: Pc): nat {
    match pc case LockOwn => 0 case LockNext => 1 case UnlockNext => 2 case UnlockOwn => 3
  }

  lemma OneOperation(s: State, i: nat)
    requires Inv(s) && Step(s, i).Some?
    ensures Operations(i)(s, i) == [Round(i, |s.pcs|, Phase(s.pcs[i]))]
    ensures Phase(Step(s, i).value.pcs[i]) == (Phase(s.pcs[i]) + 1) % 4
    ensures forall c :: 0 <= c < |s.taken| && c != i && c != Next(i, |s.pcs|) ==> Step(s, i).value.taken[c] == s.taken[c]
  {
    var next := Next(i, |s.pcs|);
    assert Previous(next, |s.pcs|) == i;
    assert Accounted(s, i) && Accounted(s, next);
    var now := Step(s, i).value.taken;
    assert Operations(i)(s, i) == Change(s.taken, now, i) + Change(s.taken, now, next);
    assert Change(s.taken, now, i) == if s.pcs[i] == LockOwn || s.pcs[i] == UnlockOwn then [Round(i, |s.pcs|, Phase(s.pcs[i]))] else [];
    assert Change(s.taken, now, next) == if s.pcs[i] == LockOwn || s.pcs[i] == UnlockOwn then [] else [Round(i, |s.pcs|, Phase(s.pcs[i]))];
  }

  lemma {:induction false} KeepsRound(s: State, i: nat, acts: seq<nat>)
    requires Inv(s) && i < |s.pcs| && Run(Step, s, acts).Some?
    ensures forall j :: 0 <= j < |Trace(Step, Operations(i), s, acts)| ==>
              Trace(Step, Operations(i), s, acts)[j] == Round(i, |s.pcs|, Phase(s.pcs[i]) + j)
    decreases |acts|
  {
    hide Inv, Step, Round;
    if |acts| > 0 {
      var a, s1 := acts[0], Step(s, acts[0]).value;
      StepKeeps(s, a);
      SizeStays(s, a);
      KeepsRound(s1, i, acts[1..]);
      var rest := Trace(Step, Operations(i), s1, acts[1..]);
      if a == i {
        OneOperation(s, i);
        forall j | 0 <= j < |rest| ensures rest[j] == Round(i, |s.pcs|, Phase(s.pcs[i]) + j + 1) {
          Cyclic.Fold(Phase(s.pcs[i]) + 1, j, 4);
          SameRound(i, |s.pcs|, Phase(s1.pcs[i]) + j, Phase(s.pcs[i]) + j + 1);
        }
      } else {
        assert Operations(i)(s, a) == [];
        assert [] + rest == rest;
      }
    }
  }

  lemma SameRound(i: nat, n: nat, k: nat, k': nat)
    requires i < n && k % 4 == k' % 4
    ensures Round(i, n, k) == Round(i, n, k')
  {
  }

  lemma SizeStays(s: State, a: nat)
    requires Step(s, a).Some?
    ensures |Step(s, a).value.pcs| == |s.pcs|
    ensures forall i :: 0 <= i < |s.pcs| && i != a ==> Step(s, a).value.pcs[i] == s.pcs[i]
  {
  }

  /** In every run each philosopher's operations on the mutexes, in order, are rounds of these four, the last
      one perhaps unfinished: both chopsticks taken are put back before either is taken again. */
  lemma RoundsOfFour(n: nat, acts: seq<nat>, i: nat)
    requires n >= 2 && i < n && Run(Step, Init(n), acts).Some?
    ensures
      var ops := Trace(Step, Operations(i), Init(n), acts);
      forall j :: 0 <= j < |ops| ==> ops[j] == Round(i, n, j)
  {
    hide Inv, Step, Round;
    InitHolds(n);
    KeepsRound(Init(n), i, acts);
    assert Phase(Init(n).pcs[i]) == 0;
  }
}
