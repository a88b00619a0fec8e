/** The mutex-and-condition-variable queue: any number of producers in Push and consumers in Pop,
    interleaved statement by statement. The signal comes after the unlock. */
module BlockQueue {
  import opened Runs
  import opened Counting
  import BoundedFifo

  /** Where a thread stands; Push and Pop have the same statements in the same order.
      Lock: take the mutex, at the start or after being woken inside the wait.
      Check: test the loop condition; wait (unlock and fall asleep in one step) or go on.
      Waiting: asleep on the condition variable.
      Update: push, or front and pop (under the mutex).
      Unlock: release the mutex.
      Signal: signal the other side's condition variable, return, and go round the thread's loop. */
  datatype Pc = Lock | Check | Waiting | Update | Unlock | Signal

  /** `data` is a producer's next value `i`, or the cell a consumer reads into. */
  datatype Thread = Thread(pc: Pc, data: int)

  datatype Queue = Queue(items: seq<int>, capacity: nat, locked: bool)

  datatype State = State(q: Queue, producers: seq<Thread>, consumers: seq<Thread>)

  /** `wake` is the waiter a signal picks; it matters only at a Signal. The spurious wakeups also
      cover a signal that wakes more than one. */
  datatype Action = Producer(p: nat, wake: nat) | Consumer(c: nat, wake: nat)
                  | SpuriousProducer(p: nat) | SpuriousConsumer(c: nat)

  function PushStatement(q: Queue, me: Thread): Option<(Queue, Thread)> {
    match me.pc
    case Lock => if q.locked then None else Some((q.(locked := true), me.(pc := Check)))
    case Check =>
      if |q.items| == q.capacity then Some((q.(locked := false), me.(pc := Waiting)))
      else Some((q, me.(pc := Update)))
    case Waiting => None
    case Update => Some((q.(items := q.items + [me.data]), me.(pc := Unlock)))
    case Unlock => Some((q.(locked := false), me.(pc := Signal)))
    case Signal => Some((q, Thread(Lock, me.data + 1)))
  }

  function PopStatement(q: Queue, me: Thread): Option<(Queue, Thread)> {
    match me.pc
    case Lock => if q.locked then None else Some((q.(locked := true), me.(pc := Check)))
    case Check =>
      if |q.items| == 0 then Some((q.(locked := false), me.(pc := Waiting)))
      else Some((q, me.(pc := Update)))
    case Waiting => None
    case Update =>
      if |q.items| == 0 then None else Some((q.(items := q.items[1..]), Thread(Unlock, q.items[0])))
    case Unlock => Some((q.(locked := false), me.(pc := Signal)))
    case Signal => Some((q, me.(pc := Lock)))
  }

  /** The queue object, one method per call that executes the calling thread's next statement.
      Which sleeper a signal wakes is decided by `Step`, since sleepers are threads, not fields. */
  class BlockQueue {
    const capacity: nat
    var queue: seq<int>
    var locked: bool

    function Fields(): Queue
      reads this
    {
      Queue(queue, capacity, locked)
    }

    constructor (qmax: nat)
      ensures Fields() == Queue([], qmax, false)
    {
      capacity := qmax;
      queue := [];
      locked := false;
    }

    method PushStep(me: Thread) returns (blocked: bool, next: Thread)
      modifies this
      ensures blocked <==> PushStatement(old(Fields()), me) == None
      ensures blocked ==> Fields() == old(Fields()) && next == me
      ensures !blocked ==> PushStatement(old(Fields()), me) == Some((Fields(), next))
    {
      blocked, next := false, me;
      match me.pc {
        case Lock =>
          if locked { return true, me; }
          locked := true;
          next := me.(pc := Check);
        case Check =>
          if |queue| == capacity {
            locked := false;
            next := me.(pc := Waiting);
          } else {
            next := me.(pc := Update);
          }
        case Waiting =>
          blocked := true;
        case Update =>
          queue := queue + [me.data];
          next := me.(pc := Unlock);
        case Unlock =>
          locked := false;
          next := me.(pc := Signal);
        case Signal =>
          next := Thread(Lock, me.data + 1);
      }
    }

    method PopStep(me: Thread) returns (blocked: bool, next: Thread)
      requires me.pc.Update? ==> queue != []
      modifies this
      ensures blocked <==> PopStatement(old(Fields()), me) == None
      ensures blocked ==> Fields() == old(Fields()) && next == me
      ensures !blocked ==> PopStatement(old(Fields()), me) == Some((Fields(), next))
    {
      blocked, next := false, me;
      match me.pc {
        case Lock =>
          if locked { return true, me; }
          locked := true;
          next := me.(pc := Check);
        case Check =>
          if |queue| == 0 {
            locked := false;
            next := me.(pc := Waiting);
          } else {
            next := me.(pc := Update);
          }
        case Waiting =>
          blocked := true;
        case Update =>
          next := Thread(Unlock, queue[0]);
          queue := queue[1..];
        case Unlock =>
          locked := false;
          next := me.(pc := Signal);
        case Signal =>
          next := me.(pc := Lock);
      }
    }
  }

  /* ---------- the whole program ---------- */

  function Init(capacity: nat, producers: nat, consumers: nat): State {
    State(Queue([], capacity, false), seq(producers, _ => Thread(Lock, 0)), seq(consumers, _ => Thread(Lock, 0)))
  }

  predicate AnyWaiting(ts: seq<Thread>) {
    exists i :: 0 <= i < |ts| && ts[i].pc.Waiting?
  }

  /** A signal wakes the chosen waiter if there is any waiter, and is lost if there is none. */
  function WakeOne(ts: seq<Thread>, wake: nat): Option<seq<Thread>> {
    if !AnyWaiting(ts) then Some(ts)
    else if wake < |ts| && ts[wake].pc.Waiting? then Some(ts[wake := ts[wake].(pc := Lock)])
    else None
  }

  function Step(s: State, a: Action): Option<State> {
    match a
    case Producer(p, wake) =>
      if p >= |s.producers| then None
      else (match PushStatement(s.q, s.producers[p])
            case None => None
            case Some((q, t)) =>
              if s.producers[p].pc.Signal? then
                (match WakeOne(s.consumers, wake)
                 case None => None
                 case Some(cs) => Some(State(q, s.producers[p := t], cs)))
              else Some(State(q, s.producers[p := t], s.consumers)))
    case Consumer(c, wake) =>
      if c >= |s.consumers| then None
      else (match PopStatement(s.q, s.consumers[c])
            case None => None
            case Some((q, t)) =>
              if s.consumers[c].pc.Signal? then
                (match WakeOne(s.producers, wake)
                 case None => None
                 case Some(ps) => Some(State(q, ps, s.consumers[c := t])))
              else Some(State(q, s.producers, s.consumers[c := t])))
    case SpuriousProducer(p) =>
      if p < |s.producers| && s.producers[p].pc.Waiting?
      then Some(s.(producers := s.producers[p := s.producers[p].(pc := Lock)])) else None
    case SpuriousConsumer(c) =>
      if c < |s.consumers| && s.consumers[c].pc.Waiting?
      then Some(s.(consumers := s.consumers[c := s.consumers[c].(pc := Lock)])) else None
  }

  function Emit(s: State, a: Action): seq<BoundedFifo.Event> {
    match a
    case Producer(p, _) =>
      if p < |s.producers| && s.producers[p].pc.Update? then [BoundedFifo.Put(p, s.producers[p].data)] else []
    case Consumer(c, _) =>
      if c < |s.consumers| && s.consumers[c].pc.Update? && |s.q.items| > 0
      then [BoundedFifo.Take(c, s.q.items[0])] else []
    case _ => []
  }

  function Abs(s: State): BoundedFifo.Fifo {
    BoundedFifo.Fifo(s.q.capacity, s.q.items)
  }

  /* ---------- the invariant ---------- */

  predicate InLock(t: Thread) { t.pc.Check? || t.pc.Update? || t.pc.Unlock? }
  predicate Announcing(t: Thread) { t.pc.Unlock? || t.pc.Signal? }
  predicate Awake(t: Thread) { !t.pc.Waiting? }

  ghost predicate MutexHeldOnce(s: State) {
    Count(s.producers, InLock) + Count(s.consumers, InLock) == (if s.q.locked then 1 else 0)
  }

  ghost predicate Guarded(s: State) {
    && |s.q.items| <= s.q.capacity
    && (forall p :: 0 <= p < |s.producers| && s.producers[p].pc.Update? ==> |s.q.items| < s.q.capacity)
    && (forall c :: 0 <= c < |s.consumers| && s.consumers[c].pc.Update? ==> |s.q.items| > 0)
  }

  /** If a consumer sleeps, every stored value is accounted for by a producer that has still to
      signal or by a consumer that is awake; and the same for producers and free places. */
  ghost predicate NoLostWakeup(s: State) {
    && (AnyWaiting(s.consumers) ==> |s.q.items| <= Count(s.producers, Announcing) + Count(s.consumers, Awake))
    && (AnyWaiting(s.producers) ==> s.q.capacity - |s.q.items| <= Count(s.consumers, Announcing) + Count(s.producers, Awake))
  }

  ghost predicate Inv(s: State) { MutexHeldOnce(s) && Guarded(s) && NoLostWakeup(s) }

  lemma LockIsExclusive(s: State)
    requires MutexHeldOnce(s)
    ensures forall p, c :: 0 <= p < |s.producers| && 0 <= c < |s.consumers| && InLock(s.producers[p]) ==> !InLock(s.consumers[c])
    ensures forall p, p' :: 0 <= p < p' < |s.producers| && InLock(s.producers[p]) ==> !InLock(s.producers[p'])
    ensures forall c, c' :: 0 <= c < c' < |s.consumers| && InLock(s.consumers[c]) ==> !InLock(s.consumers[c'])
  {
    forall p | 0 <= p < |s.producers| && InLock(s.producers[p])
      ensures Count(s.producers, InLock) >= 1
      ensures forall p' :: 0 <= p' < |s.producers| && p' != p ==> !InLock(s.producers[p'])
    {
      CountMember(s.producers, InLock, p);
    }
    forall c | 0 <= c < |s.consumers| && InLock(s.consumers[c])
      ensures Count(s.consumers, InLock) >= 1
      ensures forall c' :: 0 <= c' < |s.consumers| && c' != c ==> !InLock(s.consumers[c'])
    {
      CountMember(s.consumers, InLock, c);
    }
  }

  lemma CountsMove(ts: seq<Thread>, i: nat, t: Thread)
    requires i < |ts|
    ensures Count(ts[i := t], InLock) == Count(ts, InLock) - (if InLock(ts[i]) then 1 else 0) + (if InLock(t) then 1 else 0)
    ensures Count(ts[i := t], Announcing) == Count(ts, Announcing) - (if Announcing(ts[i]) then 1 else 0) + (if Announcing(t) then 1 else 0)
    ensures Count(ts[i := t], Awake) == Count(ts, Awake) - (if Awake(ts[i]) then 1 else 0) + (if Awake(t) then 1 else 0)
    ensures AnyWaiting(ts[i := t]) ==> AnyWaiting(ts) || t.pc.Waiting?
  {
    CountUpdate(ts, InLock, i, t);
    CountUpdate(ts, Announcing, i, t);
    CountUpdate(ts, Awake, i, t);
  }

  ghost predicate Changed(ts: seq<Thread>, ts': seq<Thread>, i: nat) {
    && i < |ts| == |ts'|
    && ts' == ts[i := ts'[i]]
    && Count(ts', InLock) == Count(ts, InLock) - (if InLock(ts[i]) then 1 else 0) + (if InLock(ts'[i]) then 1 else 0)
    && Count(ts', Announcing) == Count(ts, Announcing) - (if Announcing(ts[i]) then 1 else 0) + (if Announcing(ts'[i]) then 1 else 0)
    && Count(ts', Awake) == Count(ts, Awake) - (if Awake(ts[i]) then 1 else 0) + (if Awake(ts'[i]) then 1 else 0)
    && (AnyWaiting(ts') ==> AnyWaiting(ts) || ts'[i].pc.Waiting?)
  }

  lemma Moved(ts: seq<Thread>, ts': seq<Thread>, i: nat)
    requires i < |ts| == |ts'| && ts' == ts[i := ts'[i]]
    ensures Changed(ts, ts', i)
  {
    CountsMove(ts, i, ts'[i]);
  }

  /** How a step changes the counts: only the mover's entry and, at a signal, the woken thread's. */
  lemma CountsAfter(s: State, a: Action)
    requires Step(s, a).Some?
    ensures
      var s' := Step(s, a).value;
      match a
      case Producer(p, wake) =>
        && Changed(s.producers, s'.producers, p)
        && (if s.producers[p].pc.Signal? && AnyWaiting(s.consumers) then Changed(s.consumers, s'.consumers, wake)
            else s'.consumers == s.consumers)
      case Consumer(c, wake) =>
        && Changed(s.consumers, s'.consumers, c)
        && (if s.consumers[c].pc.Signal? && AnyWaiting(s.producers) then Changed(s.producers, s'.producers, wake)
            else s'.producers == s.producers)
      case SpuriousProducer(p) => Changed(s.producers, s'.producers, p)
      case SpuriousConsumer(c) => Changed(s.consumers, s'.consumers, c)
  {
    hide Changed;
    var s' := Step(s, a).value;
    match a {
      case Producer(p, wake) =>
        Moved(s.producers, s'.producers, p);
        if s.producers[p].pc.Signal? && AnyWaiting(s.consumers) {
          Moved(s.consumers, s'.consumers, wake);
        }
      case Consumer(c, wake) =>
        Moved(s.consumers, s'.consumers, c);
        if s.consumers[c].pc.Signal? && AnyWaiting(s.producers) {
          Moved(s.producers, s'.producers, wake);
        }
      case SpuriousProducer(p) => Moved(s.producers, s'.producers, p);
      case SpuriousConsumer(c) => Moved(s.consumers, s'.consumers, c);
    }
  }

  lemma MutexKept(s: State, a: Action)
    requires MutexHeldOnce(s) && Step(s, a).Some?
    ensures MutexHeldOnce(Step(s, a).value)
  {
    hide Count;
    CountsAfter(s, a);
    LockIsExclusive(s);
  }

  lemma GuardedKept(s: State, a: Action)
    requires MutexHeldOnce(s) && Guarded(s) && Step(s, a).Some?
    ensures Guarded(Step(s, a).value)
  {
    LockIsExclusive(s);
  }

  lemma WakeupKept(s: State, a: Action)
    requires Guarded(s) && NoLostWakeup(s) && Step(s, a).Some?
    ensures NoLostWakeup(Step(s, a).value)
  {
    hide Count;
    CountsAfter(s, a);
  }

  lemma StepKeeps(s: State, a: Action)
    requires Inv(s) && Step(s, a).Some?
    ensures Inv(Step(s, a).value)
  {
    MutexKept(s, a);
    GuardedKept(s, a);
    WakeupKept(s, a);
  }

  lemma InitHolds(capacity: nat, producers: nat, consumers: nat)
    ensures Inv(Init(capacity, producers, consumers))
  {
    var s := Init(capacity, producers, consumers);
    CountBounds(s.producers, InLock);
    CountBounds(s.consumers, InLock);
  }

  lemma StepsKeep()
    ensures Inductive(Step, Inv)
    ensures Simulates(Step, Inv, Emit, Abs, BoundedFifo.Step)
  {
    forall s: State, a: Action | Inv(s) && Step(s, a).Some?
      ensures Inv(Step(s, a).value)
      ensures Run(BoundedFifo.Step, Abs(s), Emit(s, a)) == Some(Abs(Step(s, a).value))
    {
      StepKeeps(s, a);
    }
  }

  lemma ReachableInv(capacity: nat, producers: nat, consumers: nat, s: State)
    requires Reachable(Step, Init(capacity, producers, consumers), s)
    ensures Inv(s)
  {
    InitHolds(capacity, producers, consumers);
    StepsKeep();
    ReachableKeeps(Step, Inv, Init(capacity, producers, consumers), s);
  }

  /* ---------- the main results ---------- */

  /** Every interleaving, with any choice of woken waiters and any spurious wakeups, behaves as the bounded FIFO. */
  lemma RefinesFifo(capacity: nat, producers: nat, consumers: nat, acts: seq<Action>)
    requires Run(Step, Init(capacity, producers, consumers), acts).Some?
    ensures
      var init := Init(capacity, producers, consumers);
      var s := Run(Step, init, acts).value;
      var trace := Trace(Step, Emit, init, acts);
      && Run(BoundedFifo.Step, BoundedFifo.Empty(capacity), trace) == Some(Abs(s))
      && BoundedFifo.Values(BoundedFifo.Puts(trace)) == BoundedFifo.Values(BoundedFifo.Takes(trace)) + s.q.items
      && |s.q.items| <= s.q.capacity == capacity
  {
    var init := Init(capacity, producers, consumers);
    InitHolds(capacity, producers, consumers);
    StepsKeep();
    SimulationRun(Step, Inv, Emit, Abs, BoundedFifo.Step, init, acts);
    BoundedFifo.FifoOrder(BoundedFifo.Empty(capacity), Trace(Step, Emit, init, acts), Abs(Run(Step, init, acts).value));
  }

  /** No wakeup is lost although the signal is sent after the mutex is released. */
  lemma WakeupsAreNotLost(capacity: nat, producers: nat, consumers: nat, s: State)
    requires Reachable(Step, Init(capacity, producers, consumers), s)
    ensures AnyWaiting(s.consumers) ==> |s.q.items| <= Count(s.producers, Announcing) + Count(s.consumers, Awake)
    ensures AnyWaiting(s.producers) ==> s.q.capacity - |s.q.items| <= Count(s.consumers, Announcing) + Count(s.producers, Awake)
    ensures Count(s.producers, InLock) + Count(s.consumers, InLock) == (if s.q.locked then 1 else 0)
  {
    ReachableInv(capacity, producers, consumers, s);
  }

  lemma ThreadCounts(capacity: nat, producers: nat, consumers: nat, s: State)
    requires Reachable(Step, Init(capacity, producers, consumers), s)
    ensures |s.producers| == producers && |s.consumers| == consumers && s.q.capacity == capacity
  {
    var inv := (s: State) => |s.producers| == producers && |s.consumers| == consumers && s.q.capacity == capacity;
    assert Inductive(Step, inv);
    ReachableKeeps(Step, inv, Init(capacity, producers, consumers), s);
  }

  /** A step some thread takes by itself, not a spurious wakeup. */
  ghost predicate CanMove(s: State) {
    exists a: Action :: (a.Producer? || a.Consumer?) && Step(s, a).Some?
  }

  lemma AwakeThreadMoves(s: State)
    requires Inv(s)
    requires (exists p :: 0 <= p < |s.producers| && Awake(s.producers[p]))
          || (exists c :: 0 <= c < |s.consumers| && Awake(s.consumers[c]))
    ensures CanMove(s)
  {
    var wakeC := if AnyWaiting(s.consumers) then var i :| 0 <= i < |s.consumers| && s.consumers[i].pc.Waiting?; i else 0;
    var wakeP := if AnyWaiting(s.producers) then var i :| 0 <= i < |s.producers| && s.producers[i].pc.Waiting?; i else 0;
    if Count(s.producers, InLock) > 0 {
      var p := CountWitness(s.producers, InLock);
      assert Step(s, Producer(p, 0)).Some?;
    } else if Count(s.consumers, InLock) > 0 {
      var c := CountWitness(s.consumers, InLock);
      assert Step(s, Consumer(c, 0)).Some?;
    } else {
      CountBounds(s.producers, InLock);
      CountBounds(s.consumers, InLock);
      if p :| 0 <= p < |s.producers| && Awake(s.producers[p]) {
        assert Step(s, Producer(p, wakeC)).Some?;
      } else {
        var c :| 0 <= c < |s.consumers| && Awake(s.consumers[c]);
        assert Step(s, Consumer(c, wakeP)).Some?;
      }
    }
  }

  /** If everybody slept, nothing would be stored and nothing would be free. */
  lemma NotAllAsleep(s: State)
    requires Inv(s) && s.q.capacity >= 1 && |s.producers| >= 1 && |s.consumers| >= 1
    ensures (exists p :: 0 <= p < |s.producers| && Awake(s.producers[p]))
         || (exists c :: 0 <= c < |s.consumers| && Awake(s.consumers[c]))
  {
    CountBounds(s.producers, Awake);
    CountBounds(s.consumers, Awake);
    CountBounds(s.producers, Announcing);
    CountBounds(s.consumers, Announcing);
    assert Awake(s.producers[0]) || AnyWaiting(s.producers);
    assert Awake(s.consumers[0]) || AnyWaiting(s.consumers);
  }

  /** With capacity at least 1 and at least one thread on each side, some thread can always move
      without the help of a spurious wakeup. */
  lemma DeadlockFree(capacity: nat, producers: nat, consumers: nat, s: State)
    requires capacity >= 1 && producers >= 1 && consumers >= 1
    requires Reachable(Step, Init(capacity, producers, consumers), s)
    ensures CanMove(s)
  {
    ReachableInv(capacity, producers, consumers, s);
    ThreadCounts(capacity, producers, consumers, s);
    NotAllAsleep(s);
    AwakeThreadMoves(s);
  }

  /** The next value producer `p` will put in. */
  function NextValue(s: State, p: nat): int {
    if p < |s.producers| then s.producers[p].data + (if Announcing(s.producers[p]) then 1 else 0) else 0
  }

  lemma PutByStep(s: State, a: Action, p: nat)
    requires Step(s, a).Some?
    ensures NextValue(s, p) <= NextValue(Step(s, a).value, p)
    ensures BoundedFifo.By(BoundedFifo.Puts(Emit(s, a)), p) == BoundedFifo.Range(NextValue(s, p), NextValue(Step(s, a).value, p))
  {
    if |Emit(s, a)| > 0 {
      assert Emit(s, a)[1..] == [];
    }
  }

  /** Whichever consumers take them, the values taken from one producer are 0, 1, 2, ... in order. */
  lemma PerProducerOrder(capacity: nat, producers: nat, consumers: nat, acts: seq<Action>, p: nat)
    requires p < producers && Run(Step, Init(capacity, producers, consumers), acts).Some?
    ensures
      var trace := Trace(Step, Emit, Init(capacity, producers, consumers), acts);
      && |BoundedFifo.Takes(trace)| <= |BoundedFifo.Puts(trace)|
      && (forall j :: 0 <= j < |BoundedFifo.Takes(trace)| ==>
            BoundedFifo.Takes(trace)[j].value == BoundedFifo.Puts(trace)[j].value)
      && BoundedFifo.TakenFrom(trace, p) == BoundedFifo.Range(0, |BoundedFifo.TakenFrom(trace, p)|)
  {
    var init := Init(capacity, producers, consumers);
    RefinesFifo(capacity, producers, consumers, acts);
    var s := Run(Step, init, acts).value;
    forall s: State, a: Action | Step(s, a).Some?
      ensures NextValue(s, p) <= NextValue(Step(s, a).value, p)
      ensures BoundedFifo.By(BoundedFifo.Puts(Emit(s, a)), p) == BoundedFifo.Range(NextValue(s, p), NextValue(Step(s, a).value, p))
    {
      PutByStep(s, a, p);
    }
    BoundedFifo.PutsInOrder(Step, Emit, (s: State) => NextValue(s, p), p, init, acts, s);
    BoundedFifo.PerProducerOrder(capacity, Trace(Step, Emit, init, acts), p, NextValue(s, p));
  }

  /* ---------- what the consumers get ---------- */

  /** What consumer `c` prints: when Pop returns, the cell it handed to Pop. */
  function Printed(c: nat): (State, Action) -> seq<int> {
    (s: State, a: Action) =>
      if a.Consumer? && a.c == c < |s.consumers| && s.consumers[c].pc.Signal? then [s.consumers[c].data] else []
  }

  /** A value it has taken and not yet printed. */
  function InHand(c: nat): State -> seq<int> {
    (s: State) => if c < |s.consumers| && Announcing(s.consumers[c]) then [s.consumers[c].data] else []
  }

  function Taken(c: nat): (State, Action) -> seq<int> {
    (s: State, a: Action) => BoundedFifo.TakenBy(Emit(s, a), c)
  }

  lemma TakenByStep(s: State, a: Action, c: nat)
    ensures Taken(c)(s, a) == if a.Consumer? && a.c == c < |s.consumers| && s.consumers[c].pc.Update? && |s.q.items| > 0 then [s.q.items[0]] else []
  {
    var e := Emit(s, a);
    if |e| > 0 {
      assert e == [e[0]];
      BoundedFifo.TakenByOne(e[0], c);
    }
  }

  lemma HandStep(s: State, a: Action, c: nat)
    requires Step(s, a).Some?
    ensures InHand(c)(s) + Taken(c)(s, a) == Printed(c)(s, a) + InHand(c)(Step(s, a).value)
  {
    TakenByStep(s, a, c);
  }

  /** Each consumer gets what it took: the values it prints are those of its own Takes, in order, less the
      one it may have in hand. */
  lemma PrintsWhatItTakes(capacity: nat, producers: nat, consumers: nat, acts: seq<Action>, c: nat)
    requires Run(Step, Init(capacity, producers, consumers), acts).Some?
    ensures
      var init := Init(capacity, producers, consumers);
      BoundedFifo.TakenBy(Trace(Step, Emit, init, acts), c)
      == Trace(Step, Printed(c), init, acts) + InHand(c)(Run(Step, init, acts).value)
  {
    hide Inv, Step;
    var init := Init(capacity, producers, consumers);
    InitHolds(capacity, producers, consumers);
    StepsKeep();
    forall s: State, a: Action | Inv(s) && Step(s, a).Some?
      ensures InHand(c)(s) + Taken(c)(s, a) == Printed(c)(s, a) + InHand(c)(Step(s, a).value)
    {
      HandStep(s, a, c);
    }
    PassesThrough(Step, Inv, Taken(c), Printed(c), InHand(c), init, acts);
    BoundedFifo.TakenByTrace(Step, Emit, Taken(c), c, init, acts);
    assert InHand(c)(init) == [];
  }

  /** At every moment, a consumer that has taken something holds the
      value of its own last Take. */
  lemma HoldsLastTaken(capacity: nat, producers: nat, consumers: nat, acts: seq<Action>, c: nat)
    requires Run(Step, Init(capacity, producers, consumers), acts).Some? && c < consumers
    ensures
      var s := Run(Step, Init(capacity, producers, consumers), acts).value;
      var got := BoundedFifo.TakenBy(Trace(Step, Emit, Init(capacity, producers, consumers), acts), c);
      c < |s.consumers| && (got != [] ==> s.consumers[c].data == got[|got| - 1])
  {
    var init := Init(capacity, producers, consumers);
    var settled := (s: State) => c < |s.consumers|;
    var cell := (s: State) => if c < |s.consumers| then s.consumers[c].data else 0;
    forall s: State, a: Action | Step(s, a).Some? && settled(Step(s, a).value)
      ensures
        var got := BoundedFifo.TakenBy(Emit(s, a), c);
        if got == [] then settled(s) && cell(Step(s, a).value) == cell(s) else cell(Step(s, a).value) == got[|got| - 1]
    {
      TakenByStep(s, a, c);
    }
    BoundedFifo.KeepsLast(Step, Emit, settled, cell, c, init, acts, []);
    ThreadCounts(capacity, producers, consumers, Run(Step, init, acts).value);
    var got := BoundedFifo.TakenBy(Trace(Step, Emit, init, acts), c);
    assert [] + got == got;
  }

  /* ---------- nobody waits busily ---------- */

  function ThreadCost(t: Thread): nat {
    match t.pc case Lock => 2 case Check => 1 case Waiting => 0 case Update => 0 case Unlock => 6 case Signal => 5
  }

  function Cost(s: State): nat { Sum(s.producers, ThreadCost) + Sum(s.consumers, ThreadCost) }

  predicate IsSpurious(a: Action) { a.SpuriousProducer? || a.SpuriousConsumer? }

  lemma ProducerCosts(s: State, p: nat, wake: nat)
    requires Step(s, Producer(p, wake)).Some?
    ensures 1 + Cost(Step(s, Producer(p, wake)).value) <= Cost(s) + 7 * |Emit(s, Producer(p, wake))|
  {
    var s' := Step(s, Producer(p, wake)).value;
    SumUpdate(s.producers, ThreadCost, p, s'.producers[p]);
    if s.producers[p].pc.Signal? && AnyWaiting(s.consumers) {
      SumUpdate(s.consumers, ThreadCost, wake, s'.consumers[wake]);
    }
  }

  lemma ConsumerCosts(s: State, c: nat, wake: nat)
    requires Step(s, Consumer(c, wake)).Some?
    ensures 1 + Cost(Step(s, Consumer(c, wake)).value) <= Cost(s) + 7 * |Emit(s, Consumer(c, wake))|
  {
    var s' := Step(s, Consumer(c, wake)).value;
    SumUpdate(s.consumers, ThreadCost, c, s'.consumers[c]);
    if s.consumers[c].pc.Signal? && AnyWaiting(s.producers) {
      SumUpdate(s.producers, ThreadCost, wake, s'.producers[wake]);
    }
  }

  lemma StepCosts(s: State, a: Action)
    requires Step(s, a).Some?
    ensures 1 + Cost(Step(s, a).value) <= Cost(s) + 7 * |Emit(s, a)| + (if IsSpurious(a) then 3 else 0)
  {
    match a {
      case Producer(p, wake) => ProducerCosts(s, p, wake);
      case Consumer(c, wake) => ConsumerCosts(s, c, wake);
      case SpuriousProducer(p) => SumUpdate(s.producers, ThreadCost, p, Step(s, a).value.producers[p]);
      case SpuriousConsumer(c) => SumUpdate(s.consumers, ThreadCost, c, Step(s, a).value.consumers[c]);
    }
  }

  /** A thread that cannot go on sleeps instead of trying again: a run in which `k` values were put or taken
      and `f` wakeups were spurious has at most 7k + 3f steps more than two for each thread. So, with
      DeadlockFree, values keep moving however the run is continued. */
  lemma NoBusyWaiting(capacity: nat, producers: nat, consumers: nat, acts: seq<Action>)
    requires Run(Step, Init(capacity, producers, consumers), acts).Some?
    ensures |acts| <= 2 * (producers + consumers) + 7 * |Trace(Step, Emit, Init(capacity, producers, consumers), acts)|
                      + 3 * HowMany(IsSpurious, acts)
  {
    var init := Init(capacity, producers, consumers);
    InitHolds(capacity, producers, consumers);
    StepsKeep();
    forall s: State, a: Action | Inv(s) && Step(s, a).Some?
      ensures 1 + Cost(Step(s, a).value) <= Cost(s) + 7 * |Emit(s, a)| + (if IsSpurious(a) then 3 else 0)
    {
      StepCosts(s, a);
    }
    Amortized(Step, Inv, Emit, Cost, Always, IsSpurious, 7, 3, init, acts);
    AlwaysAll(acts);
    SumConstant(init.producers, ThreadCost, 2);
    SumConstant(init.consumers, ThreadCost, 2);
  }
}
