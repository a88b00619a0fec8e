/** The semaphore ring queue: any number of producers in Push and consumers in Pop, interleaved
    statement by statement. */
module RingQueue {
  import opened Runs
  import opened Counting
  import BoundedFifo
  import Cyclic

  /** Where a thread stands; Push and Pop have the same six statements in the same order.
      WaitToken: sem_wait on the space (Push) or data (Pop) semaphore.  WaitLock: sem_wait on the lock.
      Access: write or read the slot.  Advance: move the index on.  Unlock: post the lock.
      Post: post the other semaphore, return, and go round the thread's loop. */
  datatype Pc = WaitToken | WaitLock | Access | Advance | Unlock | Post

  /** `data` is a producer's next value `i`, or the cell a consumer reads into. */
  datatype Thread = Thread(pc: Pc, data: int)

  /** The fields of the queue object. */
  datatype Ring = Ring(cells: seq<int>, posWrite: nat, posRead: nat, semSpace: nat, semData: nat, semLock: nat)
  {
    predicate InBounds() { posWrite < |cells| && posRead < |cells| }
  }

  datatype RawState = State(q: Ring, producers: seq<Thread>, consumers: seq<Thread>)
  type State = s: RawState | s.q.InBounds() witness State(Ring([0], 0, 0, 1, 0, 1), [], [])

  datatype Action = Producer(p: nat) | Consumer(c: nat)

  /** One statement of Push by a producer; None when a semaphore blocks it. */
  function PushStatement(q: Ring, me: Thread): Option<(Ring, Thread)>
    requires q.InBounds()
  {
    match me.pc
    case WaitToken =>
      if q.semSpace == 0 then None else Some((q.(semSpace := q.semSpace - 1), me.(pc := WaitLock)))
    case WaitLock =>
      if q.semLock == 0 then None else Some((q.(semLock := q.semLock - 1), me.(pc := Access)))
    case Access => Some((q.(cells := q.cells[q.posWrite := me.data]), me.(pc := Advance)))
    case Advance => Some((q.(posWrite := (q.posWrite + 1) % |q.cells|), me.(pc := Unlock)))
    case Unlock => Some((q.(semLock := q.semLock + 1), me.(pc := Post)))
    case Post => Some((q.(semData := q.semData + 1), Thread(WaitToken, me.data + 1)))
  }

  /** One statement of Pop by a consumer. */
  function PopStatement(q: Ring, me: Thread): Option<(Ring, Thread)>
    requires q.InBounds()
  {
    match me.pc
    case WaitToken =>
      if q.semData == 0 then None else Some((q.(semData := q.semData - 1), me.(pc := WaitLock)))
    case WaitLock =>
      if q.semLock == 0 then None else Some((q.(semLock := q.semLock - 1), me.(pc := Access)))
    case Access => Some((q, Thread(Advance, q.cells[q.posRead])))
    case Advance => Some((q.(posRead := (q.posRead + 1) % |q.cells|), me.(pc := Unlock)))
    case Unlock => Some((q.(semLock := q.semLock + 1), me.(pc := Post)))
    case Post => Some((q.(semSpace := q.semSpace + 1), me.(pc := WaitToken)))
  }

  /** The queue object itself, one method per call that executes the calling thread's next statement. */
  class RingQueue {
    const capacity: nat
    var cells: array<int>
    var posWrite: nat
    var posRead: nat
    var semSpace: nat
    var semData: nat
    var semLock: nat

    ghost function Fields(): Ring
      reads this, cells
    {
      Ring(cells[..], posWrite, posRead, semSpace, semData, semLock)
    }

    ghost predicate Valid()
      reads this, cells
    {
      cells.Length == capacity && Fields().InBounds()
    }

    constructor (maxq: nat)
      requires maxq >= 1
      ensures Valid() && fresh(cells) && capacity == maxq
      ensures Fields() == InitRing(maxq)
    {
      capacity := maxq;
      cells := new int[maxq](_ => 0);
      posWrite, posRead, semSpace, semData, semLock := 0, 0, maxq, 0, 1;
    }

    method PushStep(me: Thread) returns (blocked: bool, next: Thread)
      requires Valid()
      modifies this, cells
      ensures Valid() && cells == old(cells)
      ensures blocked <==> PushStatement(old(Fields()), me) == None
      ensures blocked ==> Fields() == old(Fields()) && next == me
      ensures !blocked ==> PushStatement(old(Fields()), me) == Some((Fields(), next))
    {
      blocked, next := false, me;
      match me.pc {
        case WaitToken =>
          if semSpace == 0 { return true, me; }
          semSpace := semSpace - 1;
          next := me.(pc := WaitLock);
        case WaitLock =>
          if semLock == 0 { return true, me; }
          semLock := semLock - 1;
          next := me.(pc := Access);
        case Access =>
          cells[posWrite] := me.data;
          next := me.(pc := Advance);
        case Advance =>
          posWrite := (posWrite + 1) % capacity;
          next := me.(pc := Unlock);
        case Unlock =>
          semLock := semLock + 1;
          next := me.(pc := Post);
        case Post =>
          semData := semData + 1;
          next := Thread(WaitToken, me.data + 1);
      }
    }

    method PopStep(me: Thread) returns (blocked: bool, next: Thread)
      requires Valid()
      modifies this
      ensures Valid() && cells == old(cells)
      ensures blocked <==> PopStatement(old(Fields()), me) == None
      ensures blocked ==> Fields() == old(Fields()) && next == me
      ensures !blocked ==> PopStatement(old(Fields()), me) == Some((Fields(), next))
    {
      blocked, next := false, me;
      match me.pc {
        case WaitToken =>
          if semData == 0 { return true, me; }
          semData := semData - 1;
          next := me.(pc := WaitLock);
        case WaitLock =>
          if semLock == 0 { return true, me; }
          semLock := semLock - 1;
          next := me.(pc := Access);
        case Access =>
          next := Thread(Advance, cells[posRead]);
        case Advance =>
          posRead := (posRead + 1) % capacity;
          next := me.(pc := Unlock);
        case Unlock =>
          semLock := semLock + 1;
          next := me.(pc := Post);
        case Post =>
          semSpace := semSpace + 1;
          next := me.(pc := WaitToken);
      }
    }
  }

  /* ---------- the whole program ---------- */

  function InitRing(capacity: nat): Ring {
    Ring(seq(capacity, _ => 0), 0, 0, capacity, 0, 1)
  }

  function Init(capacity: nat, producers: nat, consumers: nat): State
    requires capacity >= 1
  {
    State(InitRing(capacity), seq(producers, _ => Thread(WaitToken, 0)), seq(consumers, _ => Thread(WaitToken, 0)))
  }

  function Step(s: State, a: Action): Option<State> {
    match a
    case Producer(p) =>
      if p >= |s.producers| then None
      else (match PushStatement(s.q, s.producers[p])
            case None => None
            case Some((q, t)) => Some(State(q, s.producers[p := t], s.consumers)))
    case Consumer(c) =>
      if c >= |s.consumers| then None
      else (match PopStatement(s.q, s.consumers[c])
            case None => None
            case Some((q, t)) => Some(State(q, s.producers, s.consumers[c := t])))
  }

  /** A value is in when its producer has moved the write index, and out when its consumer has
      moved the read index. */
  function Emit(s: State, a: Action): seq<BoundedFifo.Event> {
    match a
    case Producer(p) =>
      if p < |s.producers| && s.producers[p].pc.Advance? then [BoundedFifo.Put(p, s.producers[p].data)] else []
    case Consumer(c) =>
      if c < |s.consumers| && s.consumers[c].pc.Advance? then [BoundedFifo.Take(c, s.consumers[c].data)] else []
  }

  /* ---------- the invariant ---------- */

  predicate HoldsToken(t: Thread) { !t.pc.WaitToken? }
  predicate InLock(t: Thread) { t.pc.Access? || t.pc.Advance? || t.pc.Unlock? }
  predicate TokenUnused(t: Thread) { t.pc.WaitLock? || t.pc.Access? || t.pc.Advance? }
  predicate IndexMoved(t: Thread) { t.pc.Unlock? || t.pc.Post? }

  /** How many values are stored, computed from the semaphore and the threads in flight. */
  function Stored(s: State): nat {
    s.q.semData + Count(s.consumers, TokenUnused) + Count(s.producers, IndexMoved)
  }

  function Abs(s: State): BoundedFifo.Fifo {
    BoundedFifo.Fifo(|s.q.cells|, Cyclic.ReadFrom(s.q.cells, s.q.posRead, Stored(s)))
  }

  ghost predicate TokensConserved(s: State) {
    s.q.semSpace + s.q.semData + Count(s.producers, HoldsToken) + Count(s.consumers, HoldsToken) == |s.q.cells|
  }

  ghost predicate LockConserved(s: State) {
    s.q.semLock + Count(s.producers, InLock) + Count(s.consumers, InLock) == 1
  }

  ghost predicate SlotsMatch(s: State) {
    && (forall p :: 0 <= p < |s.producers| && s.producers[p].pc.Advance? ==>
          s.q.cells[s.q.posWrite] == s.producers[p].data)
    && (forall c :: 0 <= c < |s.consumers| && s.consumers[c].pc.Advance? ==>
          s.q.cells[s.q.posRead] == s.consumers[c].data)
  }

  ghost predicate Inv(s: State) {
    && TokensConserved(s)
    && LockConserved(s)
    && s.q.posWrite == (s.q.posRead + Stored(s)) % |s.q.cells|
    && SlotsMatch(s)
  }

  lemma {:induction false} CountSplit(ts: seq<Thread>)
    ensures Count(ts, HoldsToken) == Count(ts, TokenUnused) + Count(ts, IndexMoved)
  {
    if |ts| > 0 {
      CountSplit(ts[1..]);
    }
  }

  /** A thread inside the lock is there alone. */
  lemma LockIsExclusive(s: State)
    requires LockConserved(s)
    ensures forall p, c :: 0 <= p < |s.producers| && 0 <= c < |s.consumers| && InLock(s.producers[p]) ==> !InLock(s.consumers[c])
    ensures forall p, p' :: 0 <= p < p' < |s.producers| && InLock(s.producers[p]) ==> !InLock(s.producers[p'])
    ensures forall c, c' :: 0 <= c < c' < |s.consumers| && InLock(s.consumers[c]) ==> !InLock(s.consumers[c'])
    ensures s.q.semLock > 0 ==> (forall p :: 0 <= p < |s.producers| ==> !InLock(s.producers[p]))
    ensures s.q.semLock > 0 ==> (forall c :: 0 <= c < |s.consumers| ==> !InLock(s.consumers[c]))
  {
    forall p | 0 <= p < |s.producers| && InLock(s.producers[p])
      ensures Count(s.producers, InLock) >= 1
      ensures forall p' :: 0 <= p' < |s.producers| && p' != p ==> !InLock(s.producers[p'])
    {
      CountMember(s.producers, InLock, p);
    }
    forall c | 0 <= c < |s.consumers| && InLock(s.consumers[c])
      ensures Count(s.consumers, InLock) >= 1
      ensures forall c' :: 0 <= c' < |s.consumers| && c' != c ==> !InLock(s.consumers[c'])
    {
      CountMember(s.consumers, InLock, c);
    }
  }

  /** There is never more stored than fits; and while a producer still has to move the index there is a free slot. */
  lemma StoredBounds(s: State)
    requires TokensConserved(s)
    ensures Stored(s) <= |s.q.cells|
    ensures forall p :: 0 <= p < |s.producers| && TokenUnused(s.producers[p]) ==> Stored(s) < |s.q.cells|
    ensures forall c :: 0 <= c < |s.consumers| && TokenUnused(s.consumers[c]) ==> Stored(s) > 0
  {
    CountSplit(s.producers);
    CountSplit(s.consumers);
    forall p | 0 <= p < |s.producers| && TokenUnused(s.producers[p]) ensures Count(s.producers, TokenUnused) > 0 {
      CountMember(s.producers, TokenUnused, p);
    }
    forall c | 0 <= c < |s.consumers| && TokenUnused(s.consumers[c]) ensures Count(s.consumers, TokenUnused) > 0 {
      CountMember(s.consumers, TokenUnused, c);
    }
  }

  lemma CountsMove(ts: seq<Thread>, i: nat, t: Thread)
    requires i < |ts|
    ensures Count(ts[i := t], HoldsToken) == Count(ts, HoldsToken) - (if HoldsToken(ts[i]) then 1 else 0) + (if HoldsToken(t) then 1 else 0)
    ensures Count(ts[i := t], InLock) == Count(ts, InLock) - (if InLock(ts[i]) then 1 else 0) + (if InLock(t) then 1 else 0)
    ensures Count(ts[i := t], TokenUnused) == Count(ts, TokenUnused) - (if TokenUnused(ts[i]) then 1 else 0) + (if TokenUnused(t) then 1 else 0)
    ensures Count(ts[i := t], IndexMoved) == Count(ts, IndexMoved) - (if IndexMoved(ts[i]) then 1 else 0) + (if IndexMoved(t) then 1 else 0)
  {
    CountUpdate(ts, HoldsToken, i, t);
    CountUpdate(ts, InLock, i, t);
    CountUpdate(ts, TokenUnused, i, t);
    CountUpdate(ts, IndexMoved, i, t);
  }

  /** What the statement of thread `i` does to the number of stored values. */
  lemma PushStored(s: State, p: nat)
    requires p < |s.producers| && PushStatement(s.q, s.producers[p]).Some?
    ensures Stored(Step(s, Producer(p)).value) == Stored(s) + (if s.producers[p].pc.Advance? then 1 else 0)
  {
    CountsMove(s.producers, p, Step(s, Producer(p)).value.producers[p]);
  }

  lemma PopStored(s: State, c: nat)
    requires c < |s.consumers| && PopStatement(s.q, s.consumers[c]).Some?
    ensures Stored(Step(s, Consumer(c)).value) == Stored(s) - (if s.consumers[c].pc.Advance? then 1 else 0)
  {
    CountsMove(s.consumers, c, Step(s, Consumer(c)).value.consumers[c]);
  }

  lemma TokensKept(s: State, a: Action)
    requires TokensConserved(s) && LockConserved(s) && Step(s, a).Some?
    ensures TokensConserved(Step(s, a).value) && LockConserved(Step(s, a).value)
  {
    var s' := Step(s, a).value;
    match a {
      case Producer(p) => CountsMove(s.producers, p, s'.producers[p]);
      case Consumer(c) => CountsMove(s.consumers, c, s'.consumers[c]);
    }
  }

  lemma SlotsKept(s: State, a: Action)
    requires LockConserved(s) && SlotsMatch(s) && Step(s, a).Some?
    ensures SlotsMatch(Step(s, a).value)
  {
    LockIsExclusive(s);
  }

  /** A producer's statement keeps the invariant and does to the stored values what it announces. */
  lemma PushKeeps(s: State, p: nat)
    requires Inv(s) && p < |s.producers| && PushStatement(s.q, s.producers[p]).Some?
    ensures Inv(Step(s, Producer(p)).value)
    ensures Run(BoundedFifo.Step, Abs(s), Emit(s, Producer(p))) == Some(Abs(Step(s, Producer(p)).value))
  {
    hide Stored, TokensConserved, LockConserved;
    var n := Stored(s);
    PushStored(s, p);
    TokensKept(s, Producer(p));
    SlotsKept(s, Producer(p));
    StoredBounds(s);
    match s.producers[p].pc {
      case Access => Cyclic.WriteBehind(s.q.cells, s.q.posRead, n, n, s.producers[p].data);
      case Advance =>
        Cyclic.WriteIndexMoves(s.q.posRead, n, |s.q.cells|);
        Cyclic.ReadOneMore(s.q.cells, s.q.posRead, n);
      case _ =>
    }
  }

  lemma PopKeeps(s: State, c: nat)
    requires Inv(s) && c < |s.consumers| && PopStatement(s.q, s.consumers[c]).Some?
    ensures Inv(Step(s, Consumer(c)).value)
    ensures Run(BoundedFifo.Step, Abs(s), Emit(s, Consumer(c))) == Some(Abs(Step(s, Consumer(c)).value))
  {
    hide Stored, TokensConserved, LockConserved;
    var n := Stored(s);
    PopStored(s, c);
    TokensKept(s, Consumer(c));
    SlotsKept(s, Consumer(c));
    StoredBounds(s);
    if s.consumers[c].pc.Advance? {
      Cyclic.ReadIndexMoves(s.q.posRead, n, |s.q.cells|);
      Cyclic.ReadOneLess(s.q.cells, s.q.posRead, (s.q.posRead + 1) % |s.q.cells|, n);
    }
  }

  lemma {:induction false} CountNone(n: nat)
    ensures Count(seq(n, _ => Thread(WaitToken, 0)), HoldsToken) == 0
    ensures Count(seq(n, _ => Thread(WaitToken, 0)), InLock) == 0
    ensures Count(seq(n, _ => Thread(WaitToken, 0)), TokenUnused) == 0
    ensures Count(seq(n, _ => Thread(WaitToken, 0)), IndexMoved) == 0
  {
    var ts := seq(n, _ => Thread(WaitToken, 0));
    CountBounds(ts, HoldsToken);
    CountBounds(ts, InLock);
    CountBounds(ts, TokenUnused);
    CountBounds(ts, IndexMoved);
  }

  lemma InitHolds(capacity: nat, producers: nat, consumers: nat)
    requires capacity >= 1
    ensures Inv(Init(capacity, producers, consumers))
    ensures Abs(Init(capacity, producers, consumers)) == BoundedFifo.Empty(capacity)
  {
    CountNone(producers);
    CountNone(consumers);
  }

  lemma StepsKeep()
    ensures Inductive(Step, Inv)
    ensures Simulates(Step, Inv, Emit, Abs, BoundedFifo.Step)
  {
    forall s: State, a: Action | Inv(s) && Step(s, a).Some?
      ensures Inv(Step(s, a).value)
      ensures Run(BoundedFifo.Step, Abs(s), Emit(s, a)) == Some(Abs(Step(s, a).value))
    {
      match a {
        case Producer(p) => PushKeeps(s, p);
        case Consumer(c) => PopKeeps(s, c);
      }
    }
  }

  lemma ReachableInv(capacity: nat, producers: nat, consumers: nat, s: State)
    requires capacity >= 1 && Reachable(Step, Init(capacity, producers, consumers), s)
    ensures Inv(s)
  {
    InitHolds(capacity, producers, consumers);
    StepsKeep();
    ReachableKeeps(Step, Inv, Init(capacity, producers, consumers), s);
  }

  /* ---------- the main results ---------- */

  /** Tokens are neither made nor lost: the two semaphores and the threads holding a token always
      add up to the capacity, and at most one thread is inside the lock. */
  lemma TokenConservation(capacity: nat, producers: nat, consumers: nat, s: State)
    requires capacity >= 1 && Reachable(Step, Init(capacity, producers, consumers), s)
    ensures s.q.semSpace + s.q.semData + Count(s.producers, HoldsToken) + Count(s.consumers, HoldsToken) == |s.q.cells|
    ensures s.q.semLock + Count(s.producers, InLock) + Count(s.consumers, InLock) == 1
  {
    ReachableInv(capacity, producers, consumers, s);
  }

  /** Every interleaving behaves as the bounded FIFO: the values taken are a prefix of the values put,
      and the rest is what the array holds, read cyclically from the read index. */
  lemma RefinesFifo(capacity: nat, producers: nat, consumers: nat, acts: seq<Action>)
    requires capacity >= 1 && Run(Step, Init(capacity, producers, consumers), acts).Some?
    ensures
      var init := Init(capacity, producers, consumers);
      var s := Run(Step, init, acts).value;
      var trace := Trace(Step, Emit, init, acts);
      && Run(BoundedFifo.Step, BoundedFifo.Empty(capacity), trace) == Some(Abs(s))
      && BoundedFifo.Values(BoundedFifo.Puts(trace))
         == BoundedFifo.Values(BoundedFifo.Takes(trace)) + Cyclic.ReadFrom(s.q.cells, s.q.posRead, Stored(s))
      && Stored(s) <= |s.q.cells| == capacity
  {
    var init := Init(capacity, producers, consumers);
    InitHolds(capacity, producers, consumers);
    StepsKeep();
    SimulationRun(Step, Inv, Emit, Abs, BoundedFifo.Step, init, acts);
    BoundedFifo.FifoOrder(BoundedFifo.Empty(capacity), Trace(Step, Emit, init, acts), Abs(Run(Step, init, acts).value));
  }

  /** The slot a producer is about to write is none of those that hold an unread value. */
  lemma NeverOverwrites(capacity: nat, producers: nat, consumers: nat, s: State, p: nat, k: nat)
    requires capacity >= 1 && Reachable(Step, Init(capacity, producers, consumers), s)
    requires p < |s.producers| && s.producers[p].pc.Access? && k < Stored(s)
    ensures s.q.posWrite != (s.q.posRead + k) % |s.q.cells|
  {
    ReachableInv(capacity, producers, consumers, s);
    StoredBounds(s);
    Cyclic.Distinct(s.q.posRead, k, Stored(s), |s.q.cells|);
  }

  /** A consumer about to read finds a written slot, and it is the oldest unread value. */
  lemma ReadsOldest(capacity: nat, producers: nat, consumers: nat, s: State, c: nat)
    requires capacity >= 1 && Reachable(Step, Init(capacity, producers, consumers), s)
    requires c < |s.consumers| && s.consumers[c].pc.Access?
    ensures Stored(s) > 0
    ensures Step(s, Consumer(c)).value.consumers[c].data == Abs(s).items[0]
  {
    ReachableInv(capacity, producers, consumers, s);
    StoredBounds(s);
    Cyclic.CellHere(s.q.cells, s.q.posRead);
  }

  /** With at least one producer and one consumer some thread can always take a step. */
  lemma DeadlockFree(capacity: nat, producers: nat, consumers: nat, s: State)
    requires capacity >= 1 && producers >= 1 && consumers >= 1
    requires Reachable(Step, Init(capacity, producers, consumers), s)
    ensures exists a :: Step(s, a).Some?
  {
    ReachableInv(capacity, producers, consumers, s);
    ThreadCounts(capacity, producers, consumers, s);
    if Count(s.producers, InLock) > 0 {
      var p := CountWitness(s.producers, InLock);
      assert Step(s, Producer(p)).Some?;
    } else if Count(s.consumers, InLock) > 0 {
      var c := CountWitness(s.consumers, InLock);
      assert Step(s, Consumer(c)).Some?;
    } else if Count(s.producers, HoldsToken) > 0 {
      var p := CountWitness(s.producers, HoldsToken);
      assert Step(s, Producer(p)).Some?;
    } else if Count(s.consumers, HoldsToken) > 0 {
      var c := CountWitness(s.consumers, HoldsToken);
      assert Step(s, Consumer(c)).Some?;
    } else {
      CountBounds(s.producers, HoldsToken);
      CountBounds(s.consumers, HoldsToken);
      assert Step(s, if s.q.semSpace > 0 then Producer(0) else Consumer(0)).Some?;
    }
  }

  /** No thread is created or lost. */
  lemma ThreadCounts(capacity: nat, producers: nat, consumers: nat, s: State)
    requires capacity >= 1 && Reachable(Step, Init(capacity, producers, consumers), s)
    ensures |s.producers| == producers && |s.consumers| == consumers && |s.q.cells| == capacity
  {
    var inv := (s: State) => |s.producers| == producers && |s.consumers| == consumers && |s.q.cells| == capacity;
    assert Inductive(Step, inv);
    ReachableKeeps(Step, inv, Init(capacity, producers, consumers), s);
  }

  /** The next value producer `p` will put in. */
  function NextValue(s: State, p: nat): int {
    if p < |s.producers| then s.producers[p].data + (if IndexMoved(s.producers[p]) then 1 else 0) else 0
  }

  lemma PutByStep(s: State, a: Action, p: nat)
    requires Step(s, a).Some?
    ensures NextValue(s, p) <= NextValue(Step(s, a).value, p)
    ensures BoundedFifo.By(BoundedFifo.Puts(Emit(s, a)), p) == BoundedFifo.Range(NextValue(s, p), NextValue(Step(s, a).value, p))
  {
    if |Emit(s, a)| > 0 {
      assert Emit(s, a)[1..] == [];
    }
  }

  /** Whichever consumers take them, the values taken from one producer are 0, 1, 2, ... in order. */
  lemma PerProducerOrder(capacity: nat, producers: nat, consumers: nat, acts: seq<Action>, p: nat)
    requires capacity >= 1 && p < producers && Run(Step, Init(capacity, producers, consumers), acts).Some?
    ensures
      var trace := Trace(Step, Emit, Init(capacity, producers, consumers), acts);
      && |BoundedFifo.Takes(trace)| <= |BoundedFifo.Puts(trace)|
      && (forall j :: 0 <= j < |BoundedFifo.Takes(trace)| ==>
            BoundedFifo.Takes(trace)[j].value == BoundedFifo.Puts(trace)[j].value)
      && BoundedFifo.TakenFrom(trace, p) == BoundedFifo.Range(0, |BoundedFifo.TakenFrom(trace, p)|)
  {
    var init := Init(capacity, producers, consumers);
    RefinesFifo(capacity, producers, consumers, acts);
    var s := Run(Step, init, acts).value;
    forall s: State, a: Action | Step(s, a).Some?
      ensures NextValue(s, p) <= NextValue(Step(s, a).value, p)
      ensures BoundedFifo.By(BoundedFifo.Puts(Emit(s, a)), p) == BoundedFifo.Range(NextValue(s, p), NextValue(Step(s, a).value, p))
    {
      PutByStep(s, a, p);
    }
    BoundedFifo.PutsInOrder(Step, Emit, (s: State) => NextValue(s, p), p, init, acts, s);
    BoundedFifo.PerProducerOrder(capacity, Trace(Step, Emit, init, acts), p, NextValue(s, p));
  }

  /* ---------- what the consumers get ---------- */

  /** What consumer `c` prints: when Pop returns, the cell it handed to Pop. */
  function Printed(c: nat): (State, Action) -> seq<int> {
    (s: State, a: Action) =>
      if a.Consumer? && a.c == c < |s.consumers| && s.consumers[c].pc.Post? then [s.consumers[c].data] else []
  }

  /** A value it has taken and not yet printed. */
  function InHand(c: nat): State -> seq<int> {
    (s: State) => if c < |s.consumers| && IndexMoved(s.consumers[c]) then [s.consumers[c].data] else []
  }

  function Taken(c: nat): (State, Action) -> seq<int> {
    (s: State, a: Action) => BoundedFifo.TakenBy(Emit(s, a), c)
  }

  lemma TakenByStep(s: State, a: Action, c: nat)
    ensures Taken(c)(s, a) == if a.Consumer? && a.c == c < |s.consumers| && s.consumers[c].pc.Advance? then [s.consumers[c].data] else []
  {
    var e := Emit(s, a);
    if |e| > 0 {
      assert e == [e[0]];
      BoundedFifo.TakenByOne(e[0], c);
    }
  }

  lemma HandStep(s: State, a: Action, c: nat)
    requires Step(s, a).Some?
    ensures InHand(c)(s) + Taken(c)(s, a) == Printed(c)(s, a) + InHand(c)(Step(s, a).value)
  {
    TakenByStep(s, a, c);
  }

  /** Each consumer gets what it took: the values it prints are those of its own Takes, in order, less the
      one it may have in hand. */
  lemma PrintsWhatItTakes(capacity: nat, producers: nat, consumers: nat, acts: seq<Action>, c: nat)
    requires capacity >= 1 && Run(Step, Init(capacity, producers, consumers), acts).Some?
    ensures
      var init := Init(capacity, producers, consumers);
      BoundedFifo.TakenBy(Trace(Step, Emit, init, acts), c)
      == Trace(Step, Printed(c), init, acts) + InHand(c)(Run(Step, init, acts).value)
  {
    hide Inv, Step;
    var init := Init(capacity, producers, consumers);
    InitHolds(capacity, producers, consumers);
    StepsKeep();
    forall s: State, a: Action | Inv(s) && Step(s, a).Some?
      ensures InHand(c)(s) + Taken(c)(s, a) == Printed(c)(s, a) + InHand(c)(Step(s, a).value)
    {
      HandStep(s, a, c);
    }
    PassesThrough(Step, Inv, Taken(c), Printed(c), InHand(c), init, acts);
    BoundedFifo.TakenByTrace(Step, Emit, Taken(c), c, init, acts);
    assert InHand(c)(init) == [];
  }

  /** Except between reading the slot and moving the index, a consumer that has taken something holds the
      value of its own last Take. */
  lemma HoldsLastTaken(capacity: nat, producers: nat, consumers: nat, acts: seq<Action>, c: nat)
    requires capacity >= 1 && Run(Step, Init(capacity, producers, consumers), acts).Some? && c < consumers
    ensures
      var s := Run(Step, Init(capacity, producers, consumers), acts).value;
      var got := BoundedFifo.TakenBy(Trace(Step, Emit, Init(capacity, producers, consumers), acts), c);
      c < |s.consumers| && (!s.consumers[c].pc.Advance? && got != [] ==> s.consumers[c].data == got[|got| - 1])
  {
    var init := Init(capacity, producers, consumers);
    var settled := (s: State) => c < |s.consumers| && !s.consumers[c].pc.Advance?;
    var cell := (s: State) => if c < |s.consumers| then s.consumers[c].data else 0;
    forall s: State, a: Action | Step(s, a).Some? && settled(Step(s, a).value)
      ensures
        var got := BoundedFifo.TakenBy(Emit(s, a), c);
        if got == [] then settled(s) && cell(Step(s, a).value) == cell(s) else cell(Step(s, a).value) == got[|got| - 1]
    {
      TakenByStep(s, a, c);
    }
    BoundedFifo.KeepsLast(Step, Emit, settled, cell, c, init, acts, []);
    ThreadCounts(capacity, producers, consumers, Run(Step, init, acts).value);
    var got := BoundedFifo.TakenBy(Trace(Step, Emit, init, acts), c);
    assert [] + got == got;
  }
}
