/** The linked lists two threads share: one allocates and links nodes, the other unlinks and frees
    them. `Append` is the program that walks to the tail, `Prepend` the one that pushes at the head.
    The heap is explicit: a dereference of, or a free of, a cell that is not allocated is a Fault. */
module MsgList {
  import opened Runs

  datatype Discipline = Append | Prepend

  /** struct msg; pointer 0 is NULL. */
  datatype Cell = Cell(num: int, next: nat)

  /** Malloc: allocate.  Fill: set `num` (and, when appending, `next` to NULL).  Lock.
      Append: Test `head != NULL`; Walk `cur` to the tail; Link behind it; or SetHead.
      Prepend: Test sets `mp->next = head`; SetHead.  Unlock.  Signal, and round the loop. */
  datatype ProducerPc = Malloc | Fill | Lock | Test | Walk | Link | SetHead | Unlock | Signal

  /** CLock: take the mutex, also after a wakeup.  Check `head == NULL`.  Waiting.
      Take: `tmp = head`.  Advance: `head = head->next`.  CUnlock.  Show: print `tmp->num`.  Free. */
  datatype ConsumerPc = CLock | Check | Waiting | Take | Advance | CUnlock | Show | Free

  /** `chain` is an auxiliary variable: the addresses the list is meant to visit, in order. No
      branch looks at it; the invariant says that following `next` from `head` visits exactly these. */
  datatype State =
    | Fault
    | State(kind: Discipline, heap: map<nat, Cell>, head: nat, locked: bool,
            producer: ProducerPc, tmp: nat, cur: nat,
            consumer: ConsumerPc, ctmp: nat, chain: seq<nat>)

  /** `a` is the address malloc returns, `junk` what it holds, `v` the number drawn; each matters at one statement only. */
  datatype Action = Produce(a: nat, junk: Cell, v: int) | Consume | SpuriousWake

  function ProducerStep(s: State, a: nat, junk: Cell, v: int): Option<State>
    requires s.State?
  {
    match s.producer
    case Malloc =>
      if a == 0 || a in s.heap then None else Some(s.(heap := s.heap[a := junk], tmp := a, producer := Fill))
    case Fill =>
      if s.tmp !in s.heap then Some(Fault)
      else
        var next := if s.kind.Append? then 0 else s.heap[s.tmp].next;
        Some(s.(heap := s.heap[s.tmp := Cell(v, next)], producer := Lock))
    case Lock => if s.locked then None else Some(s.(locked := true, producer := Test))
    case Test =>
      if s.kind.Append? then
        if s.head != 0 then Some(s.(cur := s.head, producer := Walk)) else Some(s.(producer := SetHead))
      else if s.tmp !in s.heap then Some(Fault)
      else Some(s.(heap := s.heap[s.tmp := s.heap[s.tmp].(next := s.head)], producer := SetHead))
    case Walk =>
      if s.cur !in s.heap then Some(Fault)
      else if s.heap[s.cur].next != 0 then Some(s.(cur := s.heap[s.cur].next))
      else Some(s.(producer := Link))
    case Link =>
      if s.cur !in s.heap then Some(Fault)
      else Some(s.(heap := s.heap[s.cur := s.heap[s.cur].(next := s.tmp)], producer := Unlock, chain := s.chain + [s.tmp]))
    case SetHead => Some(s.(head := s.tmp, producer := Unlock, chain := [s.tmp] + s.chain))
    case Unlock => Some(s.(locked := false, producer := Signal))
    case Signal => Some(s.(producer := Malloc, consumer := if s.consumer.Waiting? then CLock else s.consumer))
  }

  function ConsumerStep(s: State): Option<State>
    requires s.State?
  {
    match s.consumer
    case CLock => if s.locked then None else Some(s.(locked := true, consumer := Check))
    case Check =>
      if s.head == 0 then Some(s.(locked := false, consumer := Waiting)) else Some(s.(consumer := Take))
    case Waiting => None
    case Take => Some(s.(ctmp := s.head, consumer := Advance))
    case Advance =>
      var p := if s.kind.Append? then s.head else s.ctmp;
      if p !in s.heap then Some(Fault)
      else Some(s.(head := s.heap[p].next, consumer := CUnlock, chain := if |s.chain| > 0 then s.chain[1..] else []))
    case CUnlock => Some(s.(locked := false, consumer := Show))
    case Show => if s.ctmp !in s.heap then Some(Fault) else Some(s.(consumer := Free))
    case Free => if s.ctmp !in s.heap then Some(Fault) else Some(s.(heap := s.heap - {s.ctmp}, consumer := CLock))
  }

  function Step(s: State, a: Action): Option<State> {
    if s.Fault? then None
    else
      match a
      case Produce(at, junk, v) => ProducerStep(s, at, junk, v)
      case Consume => ConsumerStep(s)
      case SpuriousWake => if s.consumer.Waiting? then Some(s.(consumer := CLock)) else None
  }

  function Init(kind: Discipline): State {
    State(kind, map[], 0, false, Malloc, 0, 0, CLock, 0, [])
  }

  /* ---------- what it should do ---------- */

  /** The numbers in the list from the head on, and the one the consumer has in hand but not shown. */
  datatype Shelf = Shelf(kind: Discipline, items: seq<int>, hand: seq<int>)

  datatype Event = Put(v: int) | Remove | Shown(v: int)

  function ShelfStep(f: Shelf, e: Event): Option<Shelf> {
    match e
    case Put(v) => Some(f.(items := if f.kind.Append? then f.items + [v] else [v] + f.items))
    case Remove => if f.items == [] || f.hand != [] then None else Some(f.(items := f.items[1..], hand := [f.items[0]]))
    case Shown(v) => if f.hand == [v] then Some(f.(hand := [])) else None
  }

  function Emit(s: State, a: Action): seq<Event> {
    if s.Fault? then []
    else
      match a
      case Produce(_, _, _) =>
        if (s.producer.Link? || s.producer.SetHead?) && s.tmp in s.heap then [Put(s.heap[s.tmp].num)] else []
      case Consume =>
        if s.consumer.Advance? then [Remove]
        else if s.consumer.Show? && s.ctmp in s.heap then [Shown(s.heap[s.ctmp].num)]
        else []
      case SpuriousWake => []
  }

  /* ---------- the invariant ---------- */

  predicate ProducerInLock(s: State)
    requires s.State?
  {
    s.producer.Test? || s.producer.Walk? || s.producer.Link? || s.producer.SetHead? || s.producer.Unlock?
  }

  predicate ConsumerInLock(s: State)
    requires s.State?
  {
    s.consumer.Check? || s.consumer.Take? || s.consumer.Advance? || s.consumer.CUnlock?
  }

  /** The node `tmp` (respectively `ctmp`) belongs to that thread alone. */
  predicate ProducerOwns(s: State)
    requires s.State?
  {
    s.producer.Fill? || s.producer.Lock? || s.producer.Test? || s.producer.Walk? || s.producer.Link? || s.producer.SetHead?
  }

  predicate ConsumerOwns(s: State)
    requires s.State?
  {
    s.consumer.CUnlock? || s.consumer.Show? || s.consumer.Free?
  }

  predicate ConsumerHolds(s: State)
    requires s.State?
  {
    s.consumer.CUnlock? || s.consumer.Show?
  }

  function After(chain: seq<nat>, i: nat): nat { if i + 1 < |chain| then chain[i + 1] else 0 }

  /** Following `next` from `head` visits exactly `chain`, each address once, and ends. */
  ghost predicate IsList(heap: map<nat, Cell>, head: nat, chain: seq<nat>) {
    && head == (if chain == [] then 0 else chain[0])
    && (forall i :: 0 <= i < |chain| ==>
          chain[i] != 0 && chain[i] in heap && heap[chain[i]].next == After(chain, i))
    && (forall i, j :: 0 <= i < j < |chain| ==> chain[i] != chain[j])
  }

  ghost predicate Owned(s: State)
    requires s.State?
  {
    && (ProducerOwns(s) ==> s.tmp != 0 && s.tmp in s.heap && s.tmp !in s.chain)
    && (ConsumerOwns(s) ==> s.ctmp != 0 && s.ctmp in s.heap && s.ctmp !in s.chain)
    && (ProducerOwns(s) && ConsumerOwns(s) ==> s.tmp != s.ctmp)
    && (forall a :: a in s.heap ==> a in s.chain || (ProducerOwns(s) && a == s.tmp) || (ConsumerOwns(s) && a == s.ctmp))
  }

  ghost predicate Guarded(s: State)
    requires s.State?
  {
    && !(ProducerInLock(s) && ConsumerInLock(s))
    && (s.locked <==> ProducerInLock(s) || ConsumerInLock(s))
    && (s.kind.Append? && ProducerOwns(s) && !s.producer.Fill? ==> s.tmp in s.heap && s.heap[s.tmp].next == 0)
    && (s.kind.Prepend? && s.producer.SetHead? ==> s.tmp in s.heap && s.heap[s.tmp].next == s.head)
    && (s.kind.Append? && s.producer.SetHead? ==> s.chain == [])
    && (s.kind.Prepend? ==> !s.producer.Walk? && !s.producer.Link?)
    && (s.producer.Walk? ==> s.cur in s.chain)
    && (s.producer.Link? ==> s.chain != [] && s.cur == s.chain[|s.chain| - 1])
    && (s.consumer.Take? || s.consumer.Advance? ==> s.chain != [])
    && (s.consumer.Advance? ==> s.ctmp == s.head)
    && (s.consumer.Waiting? ==> s.chain == [] || s.producer.Unlock? || s.producer.Signal?)
  }

  ghost predicate Inv(s: State) {
    s.State? && IsList(s.heap, s.head, s.chain) && Owned(s) && Guarded(s)
  }

  function Nums(heap: map<nat, Cell>, chain: seq<nat>): seq<int> {
    seq(|chain|, i requires 0 <= i < |chain| => if chain[i] in heap then heap[chain[i]].num else 0)
  }

  function Abs(s: State): Shelf {
    if s.Fault? then Shelf(Append, [], [])
    else Shelf(s.kind, Nums(s.heap, s.chain),
               if ConsumerHolds(s) && s.ctmp in s.heap then [s.heap[s.ctmp].num] else [])
  }

  /* ---------- the three pointer operations ---------- */

  lemma ListUntouched(heap: map<nat, Cell>, heap': map<nat, Cell>, head: nat, chain: seq<nat>)
    requires IsList(heap, head, chain)
    requires forall i :: 0 <= i < |chain| ==> chain[i] in heap' && heap'[chain[i]] == heap[chain[i]]
    ensures IsList(heap', head, chain)
    ensures Nums(heap', chain) == Nums(heap, chain)
  {
  }

  lemma ListAppend(heap: map<nat, Cell>, head: nat, chain: seq<nat>, tmp: nat)
    requires IsList(heap, head, chain) && chain != []
    requires tmp != 0 && tmp in heap && tmp !in chain && heap[tmp].next == 0
    ensures
      var last := chain[|chain| - 1];
      var heap' := heap[last := heap[last].(next := tmp)];
      && IsList(heap', head, chain + [tmp])
      && Nums(heap', chain + [tmp]) == Nums(heap, chain) + [heap[tmp].num]
  {
    var last := chain[|chain| - 1];
    var heap' := heap[last := heap[last].(next := tmp)];
    var chain' := chain + [tmp];
    forall i | 0 <= i < |chain'|
      ensures chain'[i] != 0 && chain'[i] in heap'
      ensures heap'[chain'[i]].next == After(chain', i)
      ensures heap'[chain'[i]].num == heap[chain'[i]].num
    {
    }
  }

  lemma ListPush(heap: map<nat, Cell>, head: nat, chain: seq<nat>, tmp: nat)
    requires IsList(heap, head, chain)
    requires tmp != 0 && tmp in heap && tmp !in chain && heap[tmp].next == head
    ensures IsList(heap, tmp, [tmp] + chain)
    ensures Nums(heap, [tmp] + chain) == [heap[tmp].num] + Nums(heap, chain)
  {
    var chain' := [tmp] + chain;
    forall i | 0 <= i < |chain'|
      ensures chain'[i] != 0 && chain'[i] in heap
      ensures heap[chain'[i]].next == After(chain', i)
    {
      if i > 0 {
        assert chain'[i] == chain[i - 1];
      }
    }
  }

  lemma ListPop(heap: map<nat, Cell>, head: nat, chain: seq<nat>)
    requires IsList(heap, head, chain) && chain != []
    ensures IsList(heap, heap[head].next, chain[1..])
    ensures Nums(heap, chain) == [heap[head].num] + Nums(heap, chain[1..])
    ensures head !in chain[1..]
  {
    assert heap[chain[0]].next == After(chain, 0);
    forall i | 0 <= i < |chain| - 1
      ensures chain[1..][i] == chain[i + 1] && After(chain[1..], i) == After(chain, i + 1)
    {
    }
  }

  /* ---------- every statement keeps the invariant ---------- */

  lemma ProduceLinks(s: State, a: nat, junk: Cell, v: int)
    requires Inv(s) && ProducerStep(s, a, junk, v).Some?
    ensures
      var s' := ProducerStep(s, a, junk, v).value;
      && s'.State?
      && IsList(s'.heap, s'.head, s'.chain)
      && Nums(s'.heap, s'.chain) == ShelfAfter(Shelf(s.kind, Nums(s.heap, s.chain), []), Emit(s, Produce(a, junk, v))).items
  {
    hide After;
    var s' := ProducerStep(s, a, junk, v).value;
    match s.producer {
      case Link => ListAppend(s.heap, s.head, s.chain, s.tmp);
      case SetHead => ListPush(s.heap, s.head, s.chain, s.tmp);
      case _ => ListUntouched(s.heap, s'.heap, s.head, s.chain);
    }
  }

  /** The shelf after at most one Put. */
  function ShelfAfter(f: Shelf, events: seq<Event>): Shelf {
    if |events| == 1 && events[0].Put? then ShelfStep(f, events[0]).value else f
  }

  lemma ProduceOwns(s: State, a: nat, junk: Cell, v: int)
    requires Inv(s) && ProducerStep(s, a, junk, v).Some?
    requires ProducerStep(s, a, junk, v).value.State?
    ensures Owned(ProducerStep(s, a, junk, v).value)
  {
    hide After;
    var s' := ProducerStep(s, a, junk, v).value;
    match s.producer {
      case Malloc =>
        assert forall x :: x in s.chain ==> x in s.heap;
      case Link =>
        assert forall x :: x in s'.chain <==> x in s.chain || x == s.tmp;
        assert s'.heap.Keys == s.heap.Keys;
      case SetHead =>
        assert forall x :: x in s'.chain <==> x in s.chain || x == s.tmp;
      case _ =>
        assert s'.heap.Keys == s.heap.Keys && s'.chain == s.chain;
    }
  }

  lemma ProduceGuards(s: State, a: nat, junk: Cell, v: int)
    requires Inv(s) && ProducerStep(s, a, junk, v).Some?
    requires ProducerStep(s, a, junk, v).value.State?
    ensures Guarded(ProducerStep(s, a, junk, v).value)
  {
    if s.producer.Walk? {
      var i :| 0 <= i < |s.chain| && s.chain[i] == s.cur;
    }
  }

  lemma FreeLinks(heap: map<nat, Cell>, head: nat, chain: seq<nat>, a: nat)
    requires IsList(heap, head, chain) && a !in chain
    ensures IsList(heap - {a}, head, chain)
    ensures Nums(heap - {a}, chain) == Nums(heap, chain)
  {
    forall i | 0 <= i < |chain| ensures chain[i] in heap - {a} && (heap - {a})[chain[i]] == heap[chain[i]] {
      assert chain[i] in chain;
    }
    ListUntouched(heap, heap - {a}, head, chain);
  }

  /** What the consumer's statement does to the heap and the list. */
  lemma ConsumerEffect(s: State)
    requires Inv(s) && ConsumerStep(s).Some?
    ensures
      var s' := ConsumerStep(s).value;
      && s'.State? && s'.kind == s.kind
      && s'.heap == (if s.consumer.Free? then s.heap - {s.ctmp} else s.heap)
      && (s.consumer.Free? ==> s.ctmp !in s.chain)
      && (s.consumer.Advance? ==> s.chain != [] && s.head in s.heap && s'.head == s.heap[s.head].next && s'.chain == s.chain[1..])
      && (!s.consumer.Advance? ==> s'.head == s.head && s'.chain == s.chain)
  {
    if s.consumer.Advance? {
      assert s.chain[0] in s.heap;
    }
  }

  lemma ConsumeLinks(s: State)
    requires Inv(s) && ConsumerStep(s).Some?
    ensures
      var s' := ConsumerStep(s).value;
      && s'.State?
      && IsList(s'.heap, s'.head, s'.chain)
      && (if s.consumer.Advance? then s.head in s.heap && Nums(s.heap, s.chain) == [s.heap[s.head].num] + Nums(s'.heap, s'.chain)
          else Nums(s'.heap, s'.chain) == Nums(s.heap, s.chain))
  {
    ConsumerEffect(s);
    if s.consumer.Advance? {
      ListPop(s.heap, s.head, s.chain);
    } else if s.consumer.Free? {
      FreeLinks(s.heap, s.head, s.chain, s.ctmp);
    }
  }

  lemma ConsumeOwns(s: State)
    requires Inv(s) && ConsumerStep(s).Some?
    requires ConsumerStep(s).value.State?
    ensures Owned(ConsumerStep(s).value)
  {
    ConsumerEffect(s);
    if s.consumer.Advance? {
      ListPop(s.heap, s.head, s.chain);
      PoppedAddresses(s.chain);
    }
  }

  lemma PoppedAddresses(chain: seq<nat>)
    requires chain != []
    ensures forall a :: a in chain <==> a == chain[0] || a in chain[1..]
  {
    assert chain == [chain[0]] + chain[1..];
  }

  lemma ConsumeGuards(s: State)
    requires Inv(s) && ConsumerStep(s).Some?
    requires ConsumerStep(s).value.State?
    ensures Guarded(ConsumerStep(s).value)
  {
  }

  lemma HandAfterProduce(s: State, a: nat, junk: Cell, v: int)
    requires Inv(s) && ProducerStep(s, a, junk, v).Some?
    requires ProducerStep(s, a, junk, v).value.State?
    ensures Abs(ProducerStep(s, a, junk, v).value).hand == Abs(s).hand
  {
    hide IsList, Nums;
    if s.producer.Link? {
      assert s.cur in s.chain;
    }
  }

  lemma ProduceKeeps(s: State, a: nat, junk: Cell, v: int)
    requires Inv(s) && ProducerStep(s, a, junk, v).Some?
    ensures Inv(ProducerStep(s, a, junk, v).value)
  {
    ProduceLinks(s, a, junk, v);
    ProduceOwns(s, a, junk, v);
    ProduceGuards(s, a, junk, v);
  }

  /** The shelf makes the moves it is given. */
  lemma ShelfMoves(f: Shelf, f': Shelf, events: seq<Event>)
    requires |events| <= 1 && f'.kind == f.kind
    requires events == [] ==> f' == f
    requires |events| == 1 ==> ShelfStep(f, events[0]) == Some(f')
    ensures Run(ShelfStep, f, events) == Some(f')
  {
    if |events| == 1 {
      assert events == [events[0]];
      RunOne(ShelfStep, f, events[0]);
    }
  }

  lemma ProduceShelf(s: State, a: nat, junk: Cell, v: int)
    requires Inv(s) && ProducerStep(s, a, junk, v).Some?
    ensures Run(ShelfStep, Abs(s), Emit(s, Produce(a, junk, v))) == Some(Abs(ProducerStep(s, a, junk, v).value))
  {
    ProduceLinks(s, a, junk, v);
    HandAfterProduce(s, a, junk, v);
    ShelfMoves(Abs(s), Abs(ProducerStep(s, a, junk, v).value), Emit(s, Produce(a, junk, v)));
  }

  lemma HandAfterConsume(s: State)
    requires Inv(s) && ConsumerStep(s).Some?
    requires ConsumerStep(s).value.State?
    ensures Abs(ConsumerStep(s).value).hand
         == if s.consumer.Advance? then [s.heap[s.head].num] else if s.consumer.Show? then [] else Abs(s).hand
    ensures s.consumer.Advance? ==> Abs(s).hand == []
    ensures s.consumer.Show? ==> Abs(s).hand == [s.heap[s.ctmp].num]
  {
  }

  lemma ConsumeKeeps(s: State)
    requires Inv(s) && ConsumerStep(s).Some?
    ensures Inv(ConsumerStep(s).value)
  {
    ConsumeLinks(s);
    ConsumeOwns(s);
    ConsumeGuards(s);
  }

  lemma ConsumeShelf(s: State)
    requires Inv(s) && ConsumerStep(s).Some?
    ensures Run(ShelfStep, Abs(s), Emit(s, Consume)) == Some(Abs(ConsumerStep(s).value))
  {
    ConsumerEffect(s);
    ConsumeLinks(s);
    HandAfterConsume(s);
    var f, f' := Abs(s), Abs(ConsumerStep(s).value);
    assert s.consumer.Advance? ==> f.items[1..] == f'.items;
    ShelfMoves(f, f', Emit(s, Consume));
  }

  lemma StepKeeps(s: State, a: Action)
    requires Inv(s) && Step(s, a).Some?
    ensures Inv(Step(s, a).value)
    ensures Run(ShelfStep, Abs(s), Emit(s, a)) == Some(Abs(Step(s, a).value))
  {
    match a {
      case Produce(at, junk, v) =>
        ProduceKeeps(s, at, junk, v);
        ProduceShelf(s, at, junk, v);
      case Consume =>
        ConsumeKeeps(s);
        ConsumeShelf(s);
      case SpuriousWake =>
    }
  }

  lemma StepsKeep()
    ensures Inductive(Step, Inv)
    ensures Simulates(Step, Inv, Emit, Abs, ShelfStep)
  {
    forall s: State, a: Action | Inv(s) && Step(s, a).Some?
      ensures Inv(Step(s, a).value)
      ensures Run(ShelfStep, Abs(s), Emit(s, a)) == Some(Abs(Step(s, a).value))
    {
      StepKeeps(s, a);
    }
  }

  lemma InitHolds(kind: Discipline)
    ensures Inv(Init(kind))
  {
  }

  lemma ReachableInv(kind: Discipline, s: State)
    requires Reachable(Step, Init(kind), s)
    ensures Inv(s)
  {
    StepsKeep();
    ReachableKeeps(Step, Inv, Init(kind), s);
  }

  /* ---------- the main results ---------- */

  /** In every interleaving, with malloc free to reuse freed addresses: no dangling pointer is ever
      followed and nothing is freed twice; the list is acyclic and ends; every allocated node is in
      the list or belongs to one thread, to exactly one of these three. */
  lemma MemorySafe(kind: Discipline, s: State)
    requires Reachable(Step, Init(kind), s)
    ensures s.State?
    ensures IsList(s.heap, s.head, s.chain)
    ensures forall a :: a in s.heap <==>
              a in s.chain || (ProducerOwns(s) && a == s.tmp) || (ConsumerOwns(s) && a == s.ctmp)
    ensures ProducerOwns(s) ==> s.tmp !in s.chain
    ensures ConsumerOwns(s) ==> s.ctmp !in s.chain
    ensures ProducerOwns(s) && ConsumerOwns(s) ==> s.tmp != s.ctmp
  {
    ReachableInv(kind, s);
    forall a | a in s.chain ensures a in s.heap {
      var i :| 0 <= i < |s.chain| && s.chain[i] == a;
    }
  }

  /** The list behaves as the shelf: appended at the far end or pushed at the near one, removed at the
      near end, and the number shown is that of the node removed. */
  lemma RefinesShelf(kind: Discipline, acts: seq<Action>, s: State)
    requires Run(Step, Init(kind), acts) == Some(s)
    ensures Run(ShelfStep, Shelf(kind, [], []), Trace(Step, Emit, Init(kind), acts)) == Some(Abs(s))
  {
    StepsKeep();
    assert Abs(Init(kind)) == Shelf(kind, [], []);
    SimulationRun(Step, Inv, Emit, Abs, ShelfStep, Init(kind), acts);
  }

  function Puts(trace: seq<Event>): seq<int> {
    if |trace| == 0 then [] else if trace[0].Put? then [trace[0].v] + Puts(trace[1..]) else Puts(trace[1..])
  }

  function Shows(trace: seq<Event>): seq<int> {
    if |trace| == 0 then [] else if trace[0].Shown? then [trace[0].v] + Shows(trace[1..]) else Shows(trace[1..])
  }

  /** What is on the shelf and in the hand after one event, against before. */
  lemma ShelfFifoStep(f: Shelf, e: Event)
    requires f.kind.Append? && ShelfStep(f, e).Some?
    ensures
      var f1 := ShelfStep(f, e).value;
      f.hand + f.items + (if e.Put? then [e.v] else []) == (if e.Shown? then [e.v] else []) + (f1.hand + f1.items)
  {
    if e.Remove? {
      assert f.items == [f.items[0]] + f.items[1..];
    }
  }

  lemma {:induction false} ShelfFifo(f: Shelf, trace: seq<Event>, f': Shelf)
    requires f.kind.Append? && Run(ShelfStep, f, trace) == Some(f')
    ensures f.hand + f.items + Puts(trace) == Shows(trace) + (f'.hand + f'.items)
    decreases |trace|
  {
    if |trace| > 0 {
      var e, f1, rest := trace[0], ShelfStep(f, trace[0]).value, trace[1..];
      ShelfFifo(f1, rest, f');
      ShelfFifoStep(f, e);
      var i, o := (if e.Put? then [e.v] else []), (if e.Shown? then [e.v] else []);
      assert Puts(trace) == i + Puts(rest) && Shows(trace) == o + Shows(rest);
      Splice(f.hand + f.items, i, o, f1.hand + f1.items, Puts(rest), Shows(rest), f'.hand + f'.items);
    }
  }

  function OnShelf(f: Shelf): multiset<int> { multiset(f.hand) + multiset(f.items) }

  lemma ShelfAccountStep(f: Shelf, e: Event)
    requires ShelfStep(f, e).Some?
    ensures
      var f1 := ShelfStep(f, e).value;
      OnShelf(f) + (if e.Put? then multiset{e.v} else multiset{}) == (if e.Shown? then multiset{e.v} else multiset{}) + OnShelf(f1)
  {
    if e.Remove? {
      assert f.items == [f.items[0]] + f.items[1..];
    }
  }

  lemma {:induction false} ShelfAccount(f: Shelf, trace: seq<Event>, f': Shelf)
    requires Run(ShelfStep, f, trace) == Some(f')
    ensures OnShelf(f) + multiset(Puts(trace)) == multiset(Shows(trace)) + OnShelf(f')
    decreases |trace|
  {
    if |trace| > 0 {
      var e, f1, rest := trace[0], ShelfStep(f, trace[0]).value, trace[1..];
      ShelfAccount(f1, rest, f');
      ShelfAccountStep(f, e);
      var i, o := (if e.Put? then multiset{e.v} else multiset{}), (if e.Shown? then multiset{e.v} else multiset{});
      assert multiset(Puts(trace)) == i + multiset(Puts(rest));
      assert multiset(Shows(trace)) == o + multiset(Shows(rest));
      SpliceBags(OnShelf(f), i, o, OnShelf(f1), multiset(Puts(rest)), multiset(Shows(rest)), OnShelf(f'));
    }
  }

  lemma SpliceBags(q0: multiset<int>, in0: multiset<int>, out0: multiset<int>, q1: multiset<int>,
                   in1: multiset<int>, out1: multiset<int>, q2: multiset<int>)
    requires q0 + in0 == out0 + q1 && q1 + in1 == out1 + q2
    ensures q0 + (in0 + in1) == (out0 + out1) + q2
  {
    assert q0 + (in0 + in1) == (q0 + in0) + in1;
    assert (out0 + q1) + in1 == out0 + (q1 + in1);
    assert out0 + (out1 + q2) == (out0 + out1) + q2;
  }

  /** Appending: the numbers shown are those produced, in order, and the rest is in the consumer's hand
      and then in the list. Pushing: the same numbers, none lost or repeated. */
  lemma ShownNumbers(kind: Discipline, acts: seq<Action>, s: State)
    requires Run(Step, Init(kind), acts) == Some(s)
    ensures
      var trace := Trace(Step, Emit, Init(kind), acts);
      && (kind.Append? ==> Puts(trace) == Shows(trace) + (Abs(s).hand + Abs(s).items))
      && multiset(Puts(trace)) == multiset(Shows(trace)) + OnShelf(Abs(s))
  {
    RefinesShelf(kind, acts, s);
    var trace := Trace(Step, Emit, Init(kind), acts);
    ShelfAccount(Shelf(kind, [], []), trace, Abs(s));
    assert OnShelf(Shelf(kind, [], [])) + multiset(Puts(trace)) == multiset(Puts(trace));
    if kind.Append? {
      ShelfFifo(Shelf(kind, [], []), trace, Abs(s));
      assert [] + [] + Puts(trace) == Puts(trace);
    }
  }

  /** The number the producer draws, and announces before it takes the lock. */
  function Drawn(s: State, a: Action): seq<int> {
    if s.State? && a.Produce? && s.producer.Fill? then [a.v] else []
  }

  /** What a step puts into the list. */
  function PutNow(s: State, a: Action): seq<int> { Puts(Emit(s, a)) }

  /** The number of the node that is filled and not yet in the list. */
  function Filled(s: State): seq<int> {
    if s.State? && ProducerOwns(s) && !s.producer.Fill? && s.tmp in s.heap then [s.heap[s.tmp].num] else []
  }

  lemma PutNowIs(s: State, a: Action)
    ensures PutNow(s, a) == if s.State? && a.Produce? && (s.producer.Link? || s.producer.SetHead?) && s.tmp in s.heap
                            then [s.heap[s.tmp].num] else []
  {
    var e := Emit(s, a);
    if |e| > 0 {
      assert e[1..] == [];
      assert Puts(e) == if e[0].Put? then [e[0].v] else [];
    }
  }

  lemma FilledStep(s: State, a: Action)
    requires Inv(s) && Step(s, a).Some?
    ensures Filled(s) + Drawn(s, a) == PutNow(s, a) + Filled(Step(s, a).value)
  {
    hide IsList, Nums, Abs;
    StepKeeps(s, a);
    PutNowIs(s, a);
  }

  lemma {:induction false} PutsConcat(t1: seq<Event>, t2: seq<Event>)
    ensures Puts(t1 + t2) == Puts(t1) + Puts(t2)
  {
    if |t1| == 0 {
      assert t1 + t2 == t2;
    } else {
      assert (t1 + t2)[1..] == t1[1..] + t2;
      PutsConcat(t1[1..], t2);
      if t1[0].Put? {
        assert [t1[0].v] + (Puts(t1[1..]) + Puts(t2)) == ([t1[0].v] + Puts(t1[1..])) + Puts(t2);
      }
    }
  }

  lemma PutsByStep(s: State, acts: seq<Action>)
    ensures Puts(Trace(Step, Emit, s, acts)) == Trace(Step, PutNow, s, acts)
  {
    hide Step, Emit;
    forall t1: seq<Event>, t2: seq<Event> ensures Puts(t1 + t2) == Puts(t1) + Puts(t2) {
      PutsConcat(t1, t2);
    }
    TracePart(Step, Emit, Puts, PutNow, s, acts);
  }

  /** The numbers put into the list are those drawn, in order, less the one in a node not yet linked. */
  lemma PutsWhatItDraws(kind: Discipline, acts: seq<Action>, s: State)
    requires Run(Step, Init(kind), acts) == Some(s)
    ensures Trace(Step, Drawn, Init(kind), acts) == Puts(Trace(Step, Emit, Init(kind), acts)) + Filled(s)
  {
    hide Inv, Step, Drawn, PutNow, Emit;
    var init := Init(kind);
    InitHolds(kind);
    StepsKeep();
    forall s: State, a: Action | Inv(s) && Step(s, a).Some?
      ensures Filled(s) + Drawn(s, a) == PutNow(s, a) + Filled(Step(s, a).value)
    {
      FilledStep(s, a);
    }
    PassesThrough(Step, Inv, Drawn, PutNow, Filled, init, acts);
    PutsByStep(init, acts);
    assert Filled(init) == [];
  }

  /** From the draw to the print. Appending: the numbers shown, then the one in the consumer's hand, then the
      list, then the node not yet linked, are the numbers drawn, in order. Pushing: the same numbers. */
  lemma ShownAreDrawn(kind: Discipline, acts: seq<Action>, s: State)
    requires Run(Step, Init(kind), acts) == Some(s)
    ensures
      var drawn, shown := Trace(Step, Drawn, Init(kind), acts), Shows(Trace(Step, Emit, Init(kind), acts));
      && (kind.Append? ==> drawn == (shown + (Abs(s).hand + Abs(s).items)) + Filled(s))
      && multiset(drawn) == multiset(shown) + OnShelf(Abs(s)) + multiset(Filled(s))
  {
    hide Abs, Filled, OnShelf;
    PutsWhatItDraws(kind, acts, s);
    ShownNumbers(kind, acts, s);
    var puts := Puts(Trace(Step, Emit, Init(kind), acts));
    assert multiset(puts + Filled(s)) == multiset(puts) + multiset(Filled(s));
  }

  /** The consumer never sleeps through a delivery: if it sleeps and the list is not empty, the
      producer is about to signal. And some thread can always move. */
  lemma NoLostWakeup(kind: Discipline, s: State)
    requires Reachable(Step, Init(kind), s)
    ensures s.State?
    ensures s.consumer.Waiting? && s.head != 0 ==> s.producer.Unlock? || s.producer.Signal?
    ensures exists a: Action :: !a.SpuriousWake? && Step(s, a).Some?
  {
    hide Owned, After;
    ReachableInv(kind, s);
    var unused := FreshAddress(s.heap.Keys);
    if s.producer.Lock? && s.locked {
      assert Step(s, Consume).Some?;
    } else {
      assert Step(s, Produce(unused, Cell(0, 0), 0)).Some?;
    }
  }

  lemma {:induction false} FreshAddress(used: set<nat>) returns (a: nat)
    ensures a != 0 && a !in used && forall x :: x in used ==> x < a
    decreases |used|
  {
    if used == {} {
      a := 1;
    } else {
      var x :| x in used;
      var b := FreshAddress(used - {x});
      a := if b <= x then x + 1 else b;
      assert used == (used - {x}) + {x};
    }
  }

  /* ---------- the consumer does not wait busily ---------- */

  function ConsumerCost(pc: ConsumerPc): nat {
    match pc case CLock => 4 case Check => 3 case Waiting => 0 case Take => 2 case Advance => 1
             case CUnlock => 7 case Show => 6 case Free => 5
  }

  /** The consumer's steps still to come without another node, and four for a signal on its way. */
  function Cost(s: State): nat {
    if s.Fault? then 0
    else ConsumerCost(s.consumer) + 8 * |s.chain| + (if s.producer.Unlock? || s.producer.Signal? then 4 else 0)
  }

  predicate ByConsumer(a: Action) { a.Consume? }
  predicate IsSpurious(a: Action) { a.SpuriousWake? }

  lemma ProducerCosts(s: State, a: nat, junk: Cell, v: int)
    requires Inv(s) && ProducerStep(s, a, junk, v).Some?
    ensures Cost(ProducerStep(s, a, junk, v).value) <= Cost(s) + 12 * |PutNow(s, Produce(a, junk, v))|
  {
    hide IsList, Nums, Abs;
    ProduceKeeps(s, a, junk, v);
    PutNowIs(s, Produce(a, junk, v));
  }

  lemma ConsumerCosts(s: State)
    requires Inv(s) && ConsumerStep(s).Some?
    ensures 1 + Cost(ConsumerStep(s).value) <= Cost(s)
  {
    hide IsList, Nums, Owned;
    ConsumerEffect(s);
  }

  lemma StepCosts(s: State, a: Action)
    requires Inv(s) && Step(s, a).Some?
    ensures (if ByConsumer(a) then 1 else 0) + Cost(Step(s, a).value)
         <= Cost(s) + 12 * |PutNow(s, a)| + (if IsSpurious(a) then 4 else 0)
  {
    hide Cost, PutNow, ProducerStep, ConsumerStep;
    match a {
      case Produce(at, junk, v) => ProducerCosts(s, at, junk, v);
      case Consume => ConsumerCosts(s);
      case SpuriousWake => WakeCosts(s);
    }
  }

  lemma WakeCosts(s: State)
    requires Step(s, SpuriousWake).Some?
    ensures Cost(Step(s, SpuriousWake).value) <= Cost(s) + 4
  {
  }

  /** A consumer that finds the list empty sleeps: in a run with `k` nodes linked and `f` spurious wakeups it
      takes at most 12k + 4f + 4 steps. */
  lemma NoBusyWaiting(kind: Discipline, acts: seq<Action>)
    requires Run(Step, Init(kind), acts).Some?
    ensures HowMany(ByConsumer, acts)
         <= 4 + 12 * |Puts(Trace(Step, Emit, Init(kind), acts))| + 4 * HowMany(IsSpurious, acts)
  {
    hide Inv, Step;
    var init := Init(kind);
    InitHolds(kind);
    StepsKeep();
    forall s: State, a: Action | Inv(s) && Step(s, a).Some?
      ensures (if ByConsumer(a) then 1 else 0) + Cost(Step(s, a).value)
           <= Cost(s) + 12 * |PutNow(s, a)| + (if IsSpurious(a) then 4 else 0)
    {
      StepCosts(s, a);
    }
    Amortized(Step, Inv, PutNow, Cost, ByConsumer, IsSpurious, 12, 4, init, acts);
    PutsByStep(init, acts);
  }
}
