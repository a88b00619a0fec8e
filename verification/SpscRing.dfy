/** The ring shared by one producer and one consumer with two semaphores and no lock. */
module SpscRing {
  import opened Runs
  import BoundedFifo
  import Cyclic

  /** WaitBlank, Write, Print, PostProduct, Advance: the statements of the producer loop. */
  datatype ProducerPc = WaitBlank | Write | Print | PostProduct | Advance

  /** WaitProduct, Show, Zero, PostBlank, Advance: the statements of the consumer loop. */
  datatype ConsumerPc = WaitProduct | Show | Zero | PostBlank | Move

  datatype RawState = State(queue: seq<int>, blank: nat, product: nat,
                            producer: ProducerPc, p: nat, consumer: ConsumerPc, c: nat)
  type State = s: RawState | s.p < |s.queue| && s.c < |s.queue|
    witness State([0], 1, 0, WaitBlank, 0, WaitProduct, 0)

  /** `v` is the random value the producer draws; it matters only at Write. */
  datatype Action = Produce(v: int) | Consume

  predicate Drawable(v: int) { 1 <= v <= 1000 }

  function Step(s: State, a: Action): Option<State> {
    match a
    case Produce(v) => (
      match s.producer
      case WaitBlank => if s.blank == 0 then None else Some(s.(blank := s.blank - 1, producer := Write))
      case Write => if !Drawable(v) then None else Some(s.(queue := s.queue[s.p := v], producer := Print))
      case Print => Some(s.(producer := PostProduct))
      case PostProduct => Some(s.(product := s.product + 1, producer := Advance))
      case Advance => Some(s.(p := (s.p + 1) % |s.queue|, producer := WaitBlank)))
    case Consume => (
      match s.consumer
      case WaitProduct => if s.product == 0 then None else Some(s.(product := s.product - 1, consumer := Show))
      case Show => Some(s.(consumer := Zero))
      case Zero => Some(s.(queue := s.queue[s.c := 0], consumer := PostBlank))
      case PostBlank => Some(s.(blank := s.blank + 1, consumer := Move))
      case Move => Some(s.(c := (s.c + 1) % |s.queue|, consumer := WaitProduct)))
  }

  /** The globals, and the steps of the two threads. `consumer` and `c` (respectively `producer` and `p`)
      are where the other thread is; it does not move. */
  class Shared {
    const queue: array<int>
    var blank: nat
    var product: nat

    ghost function With(producer: ProducerPc, p: nat, consumer: ConsumerPc, c: nat): State
      requires p < queue.Length && c < queue.Length
      reads this, queue
    {
      State(queue[..], blank, product, producer, p, consumer, c)
    }

    constructor (num: nat)
      requires num >= 1
      ensures fresh(queue) && queue.Length == num && With(WaitBlank, 0, WaitProduct, 0) == Init(num)
    {
      queue := new int[num](_ => 0);
      blank, product := num, 0;
    }

    method ProducerStep(pc: ProducerPc, p: nat, v: int, ghost consumer: ConsumerPc, ghost c: nat)
      returns (blocked: bool, pc': ProducerPc, p': nat)
      requires p < queue.Length && c < queue.Length && Drawable(v)
      modifies this, queue
      ensures p' < queue.Length
      ensures blocked <==> Step(old(With(pc, p, consumer, c)), Produce(v)) == None
      ensures blocked ==> With(pc', p', consumer, c) == old(With(pc, p, consumer, c))
      ensures !blocked ==> Step(old(With(pc, p, consumer, c)), Produce(v)) == Some(With(pc', p', consumer, c))
    {
      blocked, pc', p' := false, pc, p;
      match pc {
        case WaitBlank =>
          if blank == 0 { return true, pc, p; }
          blank := blank - 1;
          pc' := Write;
        case Write =>
          queue[p] := v;
          pc' := Print;
        case Print =>
          pc' := PostProduct;
        case PostProduct =>
          product := product + 1;
          pc' := Advance;
        case Advance =>
          p' := (p + 1) % queue.Length;
          pc' := WaitBlank;
      }
    }

    method ConsumerStep(pc: ConsumerPc, c: nat, ghost producer: ProducerPc, ghost p: nat)
      returns (blocked: bool, pc': ConsumerPc, c': nat)
      requires p < queue.Length && c < queue.Length
      modifies this, queue
      ensures c' < queue.Length
      ensures blocked <==> Step(old(With(producer, p, pc, c)), Consume) == None
      ensures blocked ==> With(producer, p, pc', c') == old(With(producer, p, pc, c))
      ensures !blocked ==> Step(old(With(producer, p, pc, c)), Consume) == Some(With(producer, p, pc', c'))
    {
      blocked, pc', c' := false, pc, c;
      match pc {
        case WaitProduct =>
          if product == 0 { return true, pc, c; }
          product := product - 1;
          pc' := Show;
        case Show =>
          pc' := Zero;
        case Zero =>
          queue[c] := 0;
          pc' := PostBlank;
        case PostBlank =>
          blank := blank + 1;
          pc' := Move;
        case Move =>
          c' := (c + 1) % queue.Length;
          pc' := WaitProduct;
      }
    }
  }

  /** What the program prints: `Produce queue[p]` and `Consume queue[c]`. */
  function Emit(s: State, a: Action): seq<BoundedFifo.Event> {
    match a
    case Produce(_) => if s.producer.Print? then [BoundedFifo.Put(0, s.queue[s.p])] else []
    case Consume => if s.consumer.Show? then [BoundedFifo.Take(0, s.queue[s.c])] else []
  }

  function Init(num: nat): State
    requires num >= 1
  {
    State(seq(num, _ => 0), num, 0, WaitBlank, 0, WaitProduct, 0)
  }

  /** Between its wait and its post a thread occupies its slot. */
  predicate ProducerInside(s: State) { s.producer.Write? || s.producer.Print? || s.producer.PostProduct? }
  predicate ConsumerInside(s: State) { s.consumer.Show? || s.consumer.Zero? || s.consumer.PostBlank? }

  /** Values printed by the producer and not yet by the consumer. */
  function Stored(s: State): nat {
    s.product + (if s.consumer.Show? then 1 else 0) + (if s.producer.PostProduct? then 1 else 0)
  }

  /** The slot of the oldest of them, and the slot after the newest. */
  function Oldest(s: State): nat {
    if s.consumer.WaitProduct? || s.consumer.Show? then s.c else (s.c + 1) % |s.queue|
  }

  function Newest(s: State): nat {
    if s.producer.PostProduct? || s.producer.Advance? then (s.p + 1) % |s.queue| else s.p
  }

  function Items(s: State): seq<int> { Cyclic.ReadFrom(s.queue, Oldest(s), Stored(s)) }

  function Abs(s: State): BoundedFifo.Fifo {
    BoundedFifo.Fifo(|s.queue|, Items(s))
  }

  function Tokens(s: State): nat {
    s.blank + s.product + (if ProducerInside(s) then 1 else 0) + (if ConsumerInside(s) then 1 else 0)
  }

  ghost predicate Indexed(s: State) {
    && Tokens(s) == |s.queue|
    && Newest(s) == (Oldest(s) + Stored(s)) % |s.queue|
  }

  ghost predicate Inv(s: State) {
    && Indexed(s)
    && (s.producer.Print? ==> Drawable(s.queue[s.p]))
    && (forall k :: 0 <= k < Stored(s) ==> Drawable(Items(s)[k]))
  }

  /** The two threads never occupy the same slot. */
  lemma SlotsDiffer(s: State)
    requires Indexed(s) && ProducerInside(s) && ConsumerInside(s)
    ensures s.p != s.c
  {
    var n, size := Stored(s), |s.queue|;
    Cyclic.DivUnique(s.c, 0, s.c, size);
    if s.consumer.Show? {
      if s.producer.PostProduct? {
        Cyclic.Distinct(s.c, 1, n, size);
      } else {
        Cyclic.Distinct(s.c, 0, n, size);
      }
    } else {
      Cyclic.Advance(s.c, n, size);
      if s.producer.PostProduct? {
        Cyclic.Distinct(s.c, 1, n + 1, size);
      } else {
        Cyclic.Distinct(s.c, 0, n + 1, size);
      }
    }
  }

  /** Only Print and Show move an end of what is stored, by one slot each. */
  lemma EndsMove(s: State, a: Action)
    requires Step(s, a).Some?
    ensures Oldest(s) < |s.queue|
    ensures var s' := Step(s, a).value;
            && |s'.queue| == |s.queue| && Tokens(s') == Tokens(s)
            && Newest(s') == (if a.Produce? && s.producer.Print? then (Newest(s) + 1) % |s.queue| else Newest(s))
            && Oldest(s') == (if a.Consume? && s.consumer.Show? then (Oldest(s) + 1) % |s.queue| else Oldest(s))
            && Stored(s') == Stored(s) + (if a.Produce? && s.producer.Print? then 1 else 0) - (if a.Consume? && s.consumer.Show? then 1 else 0)
  {
  }

  lemma IndexedKept(s: State, a: Action)
    requires Indexed(s) && Step(s, a).Some?
    ensures Indexed(Step(s, a).value)
  {
    hide Step, Oldest, Newest, Stored, Tokens;
    var n, size := Stored(s), |s.queue|;
    EndsMove(s, a);
    if a.Produce? && s.producer.Print? {
      Cyclic.WriteIndexMoves(Oldest(s), n, size);
    } else if a.Consume? && s.consumer.Show? {
      Cyclic.ReadIndexMoves(Oldest(s), n, size);
    }
  }

  /** The zeroed slot is the one just given up, which is behind everything stored. */
  lemma ZeroBehind(s: State)
    requires Indexed(s) && s.consumer.Zero?
    ensures s.c == (Oldest(s) + (|s.queue| - 1)) % |s.queue|
    ensures Stored(s) <= |s.queue| - 1
  {
    var size := |s.queue|;
    Cyclic.Advance(s.c, size - 1, size);
    Cyclic.AddOnce(s.c, size);
    Cyclic.DivUnique(s.c, 0, s.c, size);
  }

  lemma ProducedItems(s: State, v: int)
    requires Indexed(s) && Step(s, Produce(v)).Some?
    ensures Items(Step(s, Produce(v)).value) == if s.producer.Print? then Items(s) + [s.queue[s.p]] else Items(s)
    ensures s.producer.Print? ==> Stored(s) < |s.queue|
  {
    if s.producer.Write? {
      Cyclic.WriteBehind(s.queue, Oldest(s), Stored(s), Stored(s), v);
    } else if s.producer.Print? {
      Cyclic.ReadOneMore(s.queue, Oldest(s), Stored(s));
    }
  }

  lemma ConsumedItems(s: State)
    requires Indexed(s) && Step(s, Consume).Some?
    ensures Items(s) == (if s.consumer.Show? then [s.queue[s.c]] else []) + Items(Step(s, Consume).value)
  {
    if s.consumer.Show? {
      Cyclic.ReadOneLess(s.queue, s.c, (s.c + 1) % |s.queue|, Stored(s));
    } else if s.consumer.Zero? {
      ZeroBehind(s);
      Cyclic.WriteBehind(s.queue, Oldest(s), Stored(s), |s.queue| - 1, 0);
    }
  }

  lemma ProduceKeeps(s: State, v: int)
    requires Inv(s) && Step(s, Produce(v)).Some?
    ensures Inv(Step(s, Produce(v)).value)
    ensures Run(BoundedFifo.Step, Abs(s), Emit(s, Produce(v))) == Some(Abs(Step(s, Produce(v)).value))
  {
    IndexedKept(s, Produce(v));
    ProducedItems(s, v);
    if s.producer.Print? {
      RunOne(BoundedFifo.Step, Abs(s), BoundedFifo.Put(0, s.queue[s.p]));
    }
  }

  lemma ConsumeKeeps(s: State)
    requires Inv(s) && Step(s, Consume).Some?
    ensures Inv(Step(s, Consume).value)
    ensures Run(BoundedFifo.Step, Abs(s), Emit(s, Consume)) == Some(Abs(Step(s, Consume).value))
  {
    IndexedKept(s, Consume);
    ConsumedItems(s);
    if s.producer.Print? && s.consumer.Zero? {
      SlotsDiffer(s);
    }
    assert Items(Step(s, Consume).value) == if s.consumer.Show? then Items(s)[1..] else Items(s);
  }

  lemma InitHolds(num: nat)
    requires num >= 1
    ensures Inv(Init(num)) && Abs(Init(num)) == BoundedFifo.Empty(num)
  {
  }

  lemma StepsKeep()
    ensures Inductive(Step, Inv)
    ensures Simulates(Step, Inv, Emit, Abs, BoundedFifo.Step)
  {
    forall s: State, a: Action | Inv(s) && Step(s, a).Some?
      ensures Inv(Step(s, a).value)
      ensures Run(BoundedFifo.Step, Abs(s), Emit(s, a)) == Some(Abs(Step(s, a).value))
    {
      match a {
        case Produce(v) => ProduceKeeps(s, v);
        case Consume => ConsumeKeeps(s);
      }
    }
  }

  /** In every interleaving: the threads never share a slot, a zeroed slot is never shown, the values
      consumed are a prefix of the values produced, and some thread can always move. */
  lemma RingIsFifo(num: nat, acts: seq<Action>)
    requires num >= 1 && Run(Step, Init(num), acts).Some?
    ensures
      var s := Run(Step, Init(num), acts).value;
      var trace := Trace(Step, Emit, Init(num), acts);
      && (ProducerInside(s) && ConsumerInside(s) ==> s.p != s.c)
      && (s.consumer.Show? ==> Drawable(s.queue[s.c]))
      && BoundedFifo.Values(BoundedFifo.Puts(trace)) == BoundedFifo.Values(BoundedFifo.Takes(trace)) + Abs(s).items
      && Stored(s) <= |s.queue|
      && (Step(s, Consume).Some? || forall v :: Drawable(v) ==> Step(s, Produce(v)).Some?)
  {
    var s := Run(Step, Init(num), acts).value;
    InitHolds(num);
    StepsKeep();
    RunKeeps(Step, Inv, Init(num), acts);
    SimulationRun(Step, Inv, Emit, Abs, BoundedFifo.Step, Init(num), acts);
    BoundedFifo.FifoOrder(BoundedFifo.Empty(num), Trace(Step, Emit, Init(num), acts), Abs(s));
    if ProducerInside(s) && ConsumerInside(s) {
      SlotsDiffer(s);
    }
    if s.consumer.Show? {
      Cyclic.CellHere(s.queue, s.c);
      assert Drawable(Items(s)[0]);
    }
  }

  /* ---------- from the draw to the slot ---------- */

  /** The number the producer draws. */
  function Drawn(s: State, a: Action): seq<int> {
    if a.Produce? && s.producer.Write? then [a.v] else []
  }

  function PutNow(s: State, a: Action): seq<int> { BoundedFifo.Values(BoundedFifo.Puts(Emit(s, a))) }

  /** The number in the slot that is written and not yet printed. */
  function Written(s: State): seq<int> { if s.producer.Print? then [s.queue[s.p]] else [] }

  lemma PutNowIs(s: State, a: Action)
    ensures PutNow(s, a) == if a.Produce? && s.producer.Print? then [s.queue[s.p]] else []
  {
    var e := Emit(s, a);
    if |e| > 0 {
      assert e[1..] == [];
      assert BoundedFifo.Puts(e) == if e[0].Put? then [e[0]] else [];
    }
  }

  lemma WrittenStep(s: State, a: Action)
    requires Inv(s) && Step(s, a).Some?
    ensures Written(s) + Drawn(s, a) == PutNow(s, a) + Written(Step(s, a).value)
  {
    PutNowIs(s, a);
    if s.producer.Print? && s.consumer.Zero? {
      SlotsDiffer(s);
    }
  }

  /** The numbers that go in are those the producer draws, in order, less the one in a slot not yet announced. */
  lemma PutsWhatItDraws(num: nat, acts: seq<Action>)
    requires num >= 1 && Run(Step, Init(num), acts).Some?
    ensures Trace(Step, Drawn, Init(num), acts)
         == BoundedFifo.Values(BoundedFifo.Puts(Trace(Step, Emit, Init(num), acts))) + Written(Run(Step, Init(num), acts).value)
  {
    hide Inv, Step, Emit, Drawn;
    InitHolds(num);
    StepsKeep();
    forall s: State, a: Action | Inv(s) && Step(s, a).Some?
      ensures Written(s) + Drawn(s, a) == PutNow(s, a) + Written(Step(s, a).value)
    {
      WrittenStep(s, a);
    }
    PassesThrough(Step, Inv, Drawn, PutNow, Written, Init(num), acts);
    PutsByStep(Init(num), acts);
    assert Written(Init(num)) == [];
  }

  lemma PutsByStep(s: State, acts: seq<Action>)
    ensures BoundedFifo.Values(BoundedFifo.Puts(Trace(Step, Emit, s, acts))) == Trace(Step, PutNow, s, acts)
  {
    hide Step, Emit;
    var part := (t: seq<BoundedFifo.Event>) => BoundedFifo.Values(BoundedFifo.Puts(t));
    forall t1: seq<BoundedFifo.Event>, t2: seq<BoundedFifo.Event> ensures part(t1 + t2) == part(t1) + part(t2) {
      BoundedFifo.PutsConcat(t1, t2);
    }
    TracePart(Step, Emit, part, PutNow, s, acts);
  }

  /* ---------- the slots nobody uses ---------- */

  /** Counted from the oldest value, the slots behind the last one hold 0, except the one the producer has
      written and not yet announced and the one the consumer is about to clear. */
  ghost predicate Cleared(s: State) {
    forall k: nat :: Stored(s) <= k < |s.queue| && !(s.producer.Print? && k == Stored(s))
                     && !(s.consumer.Zero? && k == |s.queue| - 1) ==>
      Cyclic.Cell(s.queue, Oldest(s), k) == 0
  }

  lemma ProduceClears(s: State, v: int)
    requires Indexed(s) && Cleared(s) && Step(s, Produce(v)).Some?
    ensures Cleared(Step(s, Produce(v)).value)
  {
    var n, size, s' := Stored(s), |s.queue|, Step(s, Produce(v)).value;
    EndsMove(s, Produce(v));
    if s.producer.Write? {
      forall k: nat | n < k < size ensures Cyclic.Cell(s'.queue, Oldest(s), k) == Cyclic.Cell(s.queue, Oldest(s), k) {
        Cyclic.Distinct(Oldest(s), n, k, size);
      }
    } else {
      assert s'.queue == s.queue;
    }
  }

  lemma ShowClears(s: State)
    requires Cleared(s) && s.consumer.Show?
    ensures Cleared(Step(s, Consume).value)
  {
    var s' := Step(s, Consume).value;
    EndsMove(s, Consume);
    hide Oldest, Stored, Newest, Tokens;
    forall k: nat ensures Cyclic.Cell(s.queue, Oldest(s'), k) == Cyclic.Cell(s.queue, Oldest(s), k + 1) {
      Cyclic.CellShift(s.queue, Oldest(s), k);
    }
  }

  lemma ZeroClears(s: State)
    requires Indexed(s) && Cleared(s) && s.consumer.Zero?
    ensures Cleared(Step(s, Consume).value)
  {
    var s', size := Step(s, Consume).value, |s.queue|;
    EndsMove(s, Consume);
    ZeroBehind(s);
    hide Oldest, Stored, Newest, Tokens, Indexed;
    forall k: nat | Stored(s) <= k < size && !(s.producer.Print? && k == Stored(s))
      ensures Cyclic.Cell(s'.queue, Oldest(s'), k) == 0
    {
      assert k < size - 1 ==> Cyclic.Cell(s.queue, Oldest(s), k) == 0;
      assert k == size - 1 ==> (Oldest(s') + k) % size == s.c;
    }
  }

  lemma ConsumeClears(s: State)
    requires Indexed(s) && Cleared(s) && Step(s, Consume).Some?
    ensures Cleared(Step(s, Consume).value)
  {
    if s.consumer.Show? {
      ShowClears(s);
    } else if s.consumer.Zero? {
      ZeroClears(s);
    } else {
      EndsMove(s, Consume);
      hide Oldest, Stored, Newest, Tokens, Indexed;
      assert Step(s, Consume).value.queue == s.queue;
    }
  }

  /** A slot that holds no unread value and is in neither thread's hands holds 0, in every reachable state. */
  lemma UnusedSlotsAreZero(num: nat, s: State)
    requires num >= 1 && Reachable(Step, Init(num), s)
    ensures Cleared(s)
  {
    var inv := (s: State) => Indexed(s) && Cleared(s);
    forall s: State, a: Action | inv(s) && Step(s, a).Some? ensures inv(Step(s, a).value) {
      IndexedKept(s, a);
      match a {
        case Produce(v) => ProduceClears(s, v);
        case Consume => ConsumeClears(s);
      }
    }
    InitHolds(num);
    ReachableKeeps(Step, inv, Init(num), s);
  }
}
