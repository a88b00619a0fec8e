/** Gourmets and chiefs sharing one place for a dish: the capacity-1 case of BlockQueue, with a
    counter in place of the queue. */
module Delicacy {
  import opened Runs
  import opened BQ = BlockQueue

  datatype Kitchen = Kitchen(have: int, locked: bool, chiefs: seq<Pc>, gourmets: seq<Pc>)

  /** The two loops, statement by statement. Action Producer moves a chief, Consumer a gourmet. */
  function ChiefStatement(have: int, locked: bool, pc: Pc): Option<(int, bool, Pc)> {
    match pc
    case Lock => if locked then None else Some((have, true, Check))
    case Check => if have == 1 then Some((have, false, Waiting)) else Some((have, locked, Update))
    case Waiting => None
    case Update => Some((have + 1, locked, Unlock))
    case Unlock => Some((have, false, Signal))
    case Signal => Some((have, locked, Lock))
  }

  function GourmetStatement(have: int, locked: bool, pc: Pc): Option<(int, bool, Pc)> {
    match pc
    case Lock => if locked then None else Some((have, true, Check))
    case Check => if have == 0 then Some((have, false, Waiting)) else Some((have, locked, Update))
    case Waiting => None
    case Update => Some((have - 1, locked, Unlock))
    case Unlock => Some((have, false, Signal))
    case Signal => Some((have, locked, Lock))
  }

  /** The globals, and the steps of the two kinds of thread. */
  class Counter {
    var haveDelicacy: int
    var locked: bool

    constructor ()
      ensures haveDelicacy == 0 && !locked
    {
      haveDelicacy, locked := 0, false;
    }

    method ChiefStep(pc: Pc) returns (blocked: bool, next: Pc)
      modifies this
      ensures blocked <==> ChiefStatement(old(haveDelicacy), old(locked), pc) == None
      ensures blocked ==> haveDelicacy == old(haveDelicacy) && locked == old(locked) && next == pc
      ensures !blocked ==> ChiefStatement(old(haveDelicacy), old(locked), pc) == Some((haveDelicacy, locked, next))
    {
      blocked, next := false, pc;
      match pc {
        case Lock =>
          if locked { return true, pc; }
          locked := true;
          next := Check;
        case Check =>
          if haveDelicacy == 1 {
            locked := false;
            next := Waiting;
          } else {
            next := Update;
          }
        case Waiting =>
          blocked := true;
        case Update =>
          haveDelicacy := haveDelicacy + 1;
          next := Unlock;
        case Unlock =>
          locked := false;
          next := Signal;
        case Signal =>
          next := Lock;
      }
    }

    method GourmetStep(pc: Pc) returns (blocked: bool, next: Pc)
      modifies this
      ensures blocked <==> GourmetStatement(old(haveDelicacy), old(locked), pc) == None
      ensures blocked ==> haveDelicacy == old(haveDelicacy) && locked == old(locked) && next == pc
      ensures !blocked ==> GourmetStatement(old(haveDelicacy), old(locked), pc) == Some((haveDelicacy, locked, next))
    {
      blocked, next := false, pc;
      match pc {
        case Lock =>
          if locked { return true, pc; }
          locked := true;
          next := Check;
        case Check =>
          if haveDelicacy == 0 {
            locked := false;
            next := Waiting;
          } else {
            next := Update;
          }
        case Waiting =>
          blocked := true;
        case Update =>
          haveDelicacy := haveDelicacy - 1;
          next := Unlock;
        case Unlock =>
          locked := false;
          next := Signal;
        case Signal =>
          next := Lock;
      }
    }
  }

  function Wake(pcs: seq<Pc>, wake: nat): Option<seq<Pc>> {
    if forall i :: 0 <= i < |pcs| ==> pcs[i] != Waiting then Some(pcs)
    else if wake < |pcs| && pcs[wake] == Waiting then Some(pcs[wake := Lock])
    else None
  }

  function KitchenStep(k: Kitchen, a: Action): Option<Kitchen> {
    match a
    case Producer(p, wake) =>
      if p >= |k.chiefs| then None
      else (match ChiefStatement(k.have, k.locked, k.chiefs[p])
            case None => None
            case Some((have, locked, pc)) =>
              if k.chiefs[p] == Signal then
                (match Wake(k.gourmets, wake)
                 case None => None
                 case Some(gs) => Some(Kitchen(have, locked, k.chiefs[p := pc], gs)))
              else Some(Kitchen(have, locked, k.chiefs[p := pc], k.gourmets)))
    case Consumer(c, wake) =>
      if c >= |k.gourmets| then None
      else (match GourmetStatement(k.have, k.locked, k.gourmets[c])
            case None => None
            case Some((have, locked, pc)) =>
              if k.gourmets[c] == Signal then
                (match Wake(k.chiefs, wake)
                 case None => None
                 case Some(cs) => Some(Kitchen(have, locked, cs, k.gourmets[c := pc])))
              else Some(Kitchen(have, locked, k.chiefs, k.gourmets[c := pc])))
    case SpuriousProducer(p) =>
      if p < |k.chiefs| && k.chiefs[p] == Waiting then Some(k.(chiefs := k.chiefs[p := Lock])) else None
    case SpuriousConsumer(c) =>
      if c < |k.gourmets| && k.gourmets[c] == Waiting then Some(k.(gourmets := k.gourmets[c := Lock])) else None
  }

  function Open(chiefs: nat, gourmets: nat): Kitchen {
    Kitchen(0, false, seq(chiefs, _ => Lock), seq(gourmets, _ => Lock))
  }

  ghost predicate SamePcs(pcs: seq<Pc>, ts: seq<Thread>) {
    |pcs| == |ts| && forall i :: 0 <= i < |pcs| ==> ts[i].pc == pcs[i]
  }

  /** The kitchen is the queue of capacity 1 with its contents forgotten. */
  ghost predicate Forgets(k: Kitchen, b: State) {
    && b.q.capacity == 1
    && k.have == |b.q.items|
    && k.locked == b.q.locked
    && SamePcs(k.chiefs, b.producers)
    && SamePcs(k.gourmets, b.consumers)
  }

  lemma WakesTheSame(pcs: seq<Pc>, ts: seq<Thread>, wake: nat)
    requires SamePcs(pcs, ts)
    ensures Wake(pcs, wake).Some? <==> WakeOne(ts, wake).Some?
    ensures Wake(pcs, wake).Some? ==> SamePcs(Wake(pcs, wake).value, WakeOne(ts, wake).value)
  {
    assert AnyWaiting(ts) <==> exists i :: 0 <= i < |pcs| && pcs[i] == Waiting;
  }

  lemma ChiefsAgree(have: int, locked: bool, pc: Pc, q: Queue, t: Thread)
    requires q.capacity == 1 && have == |q.items| <= 1 && locked == q.locked && t.pc == pc
    requires pc == Update ==> have == 0
    ensures match (ChiefStatement(have, locked, pc), PushStatement(q, t))
            case (None, None) => true
            case (Some((have', locked', pc')), Some((q', t'))) =>
              q'.capacity == 1 && have' == |q'.items| && locked' == q'.locked && t'.pc == pc'
            case _ => false
  {
  }

  lemma GourmetsAgree(have: int, locked: bool, pc: Pc, q: Queue, t: Thread)
    requires q.capacity == 1 && have == |q.items| <= 1 && locked == q.locked && t.pc == pc
    requires pc == Update ==> have == 1
    ensures match (GourmetStatement(have, locked, pc), PopStatement(q, t))
            case (None, None) => true
            case (Some((have', locked', pc')), Some((q', t'))) =>
              q'.capacity == 1 && have' == |q'.items| && locked' == q'.locked && t'.pc == pc'
            case _ => false
  {
  }

  lemma ChiefLockstep(k: Kitchen, b: State, p: nat, wake: nat)
    requires Forgets(k, b) && Inv(b)
    ensures KitchenStep(k, Producer(p, wake)).Some? <==> Step(b, Producer(p, wake)).Some?
    ensures Step(b, Producer(p, wake)).Some? ==>
              Forgets(KitchenStep(k, Producer(p, wake)).value, Step(b, Producer(p, wake)).value)
  {
    if p < |k.chiefs| {
      ChiefsAgree(k.have, k.locked, k.chiefs[p], b.q, b.producers[p]);
      WakesTheSame(k.gourmets, b.consumers, wake);
    }
  }

  lemma GourmetLockstep(k: Kitchen, b: State, c: nat, wake: nat)
    requires Forgets(k, b) && Inv(b)
    ensures KitchenStep(k, Consumer(c, wake)).Some? <==> Step(b, Consumer(c, wake)).Some?
    ensures Step(b, Consumer(c, wake)).Some? ==>
              Forgets(KitchenStep(k, Consumer(c, wake)).value, Step(b, Consumer(c, wake)).value)
  {
    if c < |k.gourmets| {
      GourmetsAgree(k.have, k.locked, k.gourmets[c], b.q, b.consumers[c]);
      WakesTheSame(k.chiefs, b.producers, wake);
    }
  }

  /** The same action is possible on both sides, and leads to related states. */
  lemma Lockstep(k: Kitchen, b: State, a: Action)
    requires Forgets(k, b) && Inv(b)
    ensures KitchenStep(k, a).Some? <==> Step(b, a).Some?
    ensures Step(b, a).Some? ==> Forgets(KitchenStep(k, a).value, Step(b, a).value)
  {
    match a {
      case Producer(p, wake) => ChiefLockstep(k, b, p, wake);
      case Consumer(c, wake) => GourmetLockstep(k, b, c, wake);
      case _ =>
    }
  }

  /** Every run of the kitchen is a run of the capacity-1 queue, action by action. */
  lemma {:induction false} RunsAgree(k: Kitchen, b: State, acts: seq<Action>)
    requires Forgets(k, b) && Inv(b)
    ensures Run(KitchenStep, k, acts).Some? <==> Run(Step, b, acts).Some?
    ensures Run(Step, b, acts).Some? ==> Forgets(Run(KitchenStep, k, acts).value, Run(Step, b, acts).value)
    decreases |acts|
  {
    if |acts| > 0 {
      Lockstep(k, b, acts[0]);
      if Step(b, acts[0]).Some? {
        BQ.StepKeeps(b, acts[0]);
        RunsAgree(KitchenStep(k, acts[0]).value, Step(b, acts[0]).value, acts[1..]);
      }
    }
  }

  lemma KitchenIsQueue(chiefs: nat, gourmets: nat, acts: seq<Action>)
    ensures Run(KitchenStep, Open(chiefs, gourmets), acts).Some? <==> Run(Step, Init(1, chiefs, gourmets), acts).Some?
    ensures Run(Step, Init(1, chiefs, gourmets), acts).Some? ==>
              Forgets(Run(KitchenStep, Open(chiefs, gourmets), acts).value, Run(Step, Init(1, chiefs, gourmets), acts).value)
  {
    BQ.InitHolds(1, chiefs, gourmets);
    RunsAgree(Open(chiefs, gourmets), Init(1, chiefs, gourmets), acts);
  }

  /** There is never a negative dish or a second one, and with a chief and a gourmet the kitchen never
      comes to a halt, spurious wakeups or not. */
  lemma OneDishNoDeadlock(chiefs: nat, gourmets: nat, k: Kitchen)
    requires Reachable(KitchenStep, Open(chiefs, gourmets), k)
    ensures 0 <= k.have <= 1
    ensures chiefs >= 1 && gourmets >= 1 ==>
              exists a: Action :: (a.Producer? || a.Consumer?) && KitchenStep(k, a).Some?
  {
    var acts :| Run(KitchenStep, Open(chiefs, gourmets), acts) == Some(k);
    KitchenIsQueue(chiefs, gourmets, acts);
    var b := Run(Step, Init(1, chiefs, gourmets), acts).value;
    BQ.ReachableInv(1, chiefs, gourmets, b);
    if chiefs >= 1 && gourmets >= 1 {
      BQ.DeadlockFree(1, chiefs, gourmets, b);
      var a: Action :| (a.Producer? || a.Consumer?) && Step(b, a).Some?;
      Lockstep(k, b, a);
    }
  }
}
