/** The abstract queue both producer/consumer programs implement: a FIFO that never holds more
    than `capacity` values. Its actions are the events a caller sees. */
module BoundedFifo {
  import opened Runs

  datatype Fifo = Fifo(capacity: nat, items: seq<int>)

  /** `who` is the producer or consumer thread, `value` what it puts in or gets out. */
  datatype Event = Put(who: nat, value: int) | Take(who: nat, value: int)

  function Empty(capacity: nat): Fifo { Fifo(capacity, []) }

  function Step(f: Fifo, e: Event): Option<Fifo> {
    match e
    case Put(_, v) => if |f.items| < f.capacity then Some(f.(items := f.items + [v])) else None
    case Take(_, v) => if |f.items| > 0 && f.items[0] == v then Some(f.(items := f.items[1..])) else None
  }

  function Puts(trace: seq<Event>): seq<Event> {
    if |trace| == 0 then []
    else if trace[0].Put? then [trace[0]] + Puts(trace[1..])
    else Puts(trace[1..])
  }

  function Takes(trace: seq<Event>): seq<Event> {
    if |trace| == 0 then []
    else if trace[0].Take? then [trace[0]] + Takes(trace[1..])
    else Takes(trace[1..])
  }

  function Values(trace: seq<Event>): seq<int> {
    seq(|trace|, i requires 0 <= i < |trace| => trace[i].value)
  }

  /** The values of the events of thread `p`, in order. */
  function By(trace: seq<Event>, p: nat): seq<int> {
    if |trace| == 0 then []
    else if trace[0].who == p then [trace[0].value] + By(trace[1..], p)
    else By(trace[1..], p)
  }

  function Range(lo: int, hi: int): seq<int>
    requires lo <= hi
  {
    seq(hi - lo, i => lo + i)
  }

  lemma RangeConcat(lo: int, mid: int, hi: int)
    requires lo <= mid <= hi
    ensures Range(lo, mid) + Range(mid, hi) == Range(lo, hi)
  {
  }

  lemma FirstValue(e: Event, rest: seq<Event>)
    ensures Values([e] + rest) == [e.value] + Values(rest)
  {
  }

  lemma PutThrough(items: seq<int>, v: int, puts: seq<int>, takes: seq<int>, left: seq<int>)
    requires (items + [v]) + puts == takes + left
    ensures items + ([v] + puts) == takes + left
  {
    assert items + ([v] + puts) == (items + [v]) + puts;
  }

  lemma TakeThrough(items: seq<int>, v: int, puts: seq<int>, takes: seq<int>, left: seq<int>)
    requires items != [] && items[0] == v && items[1..] + puts == takes + left
    ensures items + puts == ([v] + takes) + left
  {
    assert items == [v] + items[1..];
    assert ([v] + items[1..]) + puts == [v] + (items[1..] + puts);
    assert ([v] + takes) + left == [v] + (takes + left);
  }

  /** What went in is what came out followed by what is still inside, and the bound is kept. */
  lemma {:induction false} FifoOrder(f0: Fifo, trace: seq<Event>, f: Fifo)
    requires Run(Step, f0, trace) == Some(f)
    requires |f0.items| <= f0.capacity
    ensures f0.items + Values(Puts(trace)) == Values(Takes(trace)) + f.items
    ensures |f.items| <= f.capacity == f0.capacity
    decreases |trace|
  {
    if |trace| > 0 {
      var f1 := Step(f0, trace[0]).value;
      FifoOrder(f1, trace[1..], f);
      var e, puts, takes := trace[0], Puts(trace[1..]), Takes(trace[1..]);
      if e.Put? {
        FirstValue(e, puts);
        assert Takes(trace) == takes;
        PutThrough(f0.items, e.value, Values(puts), Values(takes), f.items);
      } else {
        FirstValue(e, takes);
        assert Puts(trace) == puts;
        TakeThrough(f0.items, e.value, Values(puts), Values(takes), f.items);
      }
    }
  }

  lemma Associate<T>(a: seq<T>, b: seq<T>, c: seq<T>)
    ensures a + (b + c) == (a + b) + c
  {
  }

  lemma {:induction false} ByConcat(t1: seq<Event>, t2: seq<Event>, p: nat)
    ensures By(t1 + t2, p) == By(t1, p) + By(t2, p)
  {
    if |t1| == 0 {
      assert t1 + t2 == t2;
    } else {
      assert (t1 + t2)[1..] == t1[1..] + t2;
      ByConcat(t1[1..], t2, p);
      Associate([t1[0].value], By(t1[1..], p), By(t2, p));
    }
  }

  lemma {:induction false} PutsConcat(t1: seq<Event>, t2: seq<Event>)
    ensures Puts(t1 + t2) == Puts(t1) + Puts(t2)
  {
    if |t1| == 0 {
      assert t1 + t2 == t2;
    } else {
      assert (t1 + t2)[1..] == t1[1..] + t2;
      PutsConcat(t1[1..], t2);
      Associate([t1[0]], Puts(t1[1..]), Puts(t2));
    }
  }

  lemma {:induction false} TakesConcat(t1: seq<Event>, t2: seq<Event>)
    ensures Takes(t1 + t2) == Takes(t1) + Takes(t2)
  {
    if |t1| == 0 {
      assert t1 + t2 == t2;
    } else {
      assert (t1 + t2)[1..] == t1[1..] + t2;
      TakesConcat(t1[1..], t2);
      Associate([t1[0]], Takes(t1[1..]), Takes(t2));
    }
  }

  /** What consumer `c` has taken, in order. */
  function TakenBy(trace: seq<Event>, c: nat): seq<int> { By(Takes(trace), c) }

  lemma TakenByOne(e: Event, c: nat)
    ensures TakenBy([e], c) == if e.Take? && e.who == c then [e.value] else []
  {
    assert [e][1..] == [];
    assert Takes([e]) == if e.Take? then [e] else [];
    assert By([e], c) == if e.who == c then [e.value] else [];
    assert By([], c) == [];
  }

  lemma TakenByConcat(t1: seq<Event>, t2: seq<Event>, c: nat)
    ensures TakenBy(t1 + t2, c) == TakenBy(t1, c) + TakenBy(t2, c)
  {
    TakesConcat(t1, t2);
    ByConcat(Takes(t1), Takes(t2), c);
  }

  lemma TakenByTrace<S(!new), A(!new)>(
      next: (S, A) -> Option<S>, emit: (S, A) -> seq<Event>, taken: (S, A) -> seq<int>, c: nat, s: S, acts: seq<A>)
    requires forall s, a :: taken(s, a) == TakenBy(emit(s, a), c)
    ensures TakenBy(Trace(next, emit, s, acts), c) == Trace(next, taken, s, acts)
  {
    var part := (t: seq<Event>) => TakenBy(t, c);
    forall t1: seq<Event>, t2: seq<Event> ensures part(t1 + t2) == part(t1) + part(t2) {
      TakenByConcat(t1, t2, c);
    }
    TracePart(next, emit, part, taken, s, acts);
  }

  /** Consumer `c` keeps its last value: a cell that each step either leaves alone or, with a Take of `c`,
      sets to the value taken, holds the last value `c` took. `settled` excludes the states in which the
      cell is already set for a Take still to come. */
  lemma {:induction false} KeepsLast<S(!new), A(!new)>(
      next: (S, A) -> Option<S>, emit: (S, A) -> seq<Event>, settled: S -> bool, cell: S -> int, c: nat,
      s: S, acts: seq<A>, before: seq<int>)
    requires forall s, a :: next(s, a).Some? && settled(next(s, a).value) ==>
               var got := TakenBy(emit(s, a), c);
               if got == [] then settled(s) && cell(next(s, a).value) == cell(s)
               else cell(next(s, a).value) == got[|got| - 1]
    requires settled(s) && before != [] ==> cell(s) == before[|before| - 1]
    requires Run(next, s, acts).Some?
    ensures
      var got := before + TakenBy(Trace(next, emit, s, acts), c);
      var s' := Run(next, s, acts).value;
      settled(s') && got != [] ==> cell(s') == got[|got| - 1]
    decreases |acts|
  {
    if |acts| > 0 {
      var e, s1 := emit(s, acts[0]), next(s, acts[0]).value;
      var rest := Trace(next, emit, s1, acts[1..]);
      KeepsLast(next, emit, settled, cell, c, s1, acts[1..], before + TakenBy(e, c));
      TakenByConcat(e, rest, c);
      Associate(before, TakenBy(e, c), TakenBy(rest, c));
    }
  }

  /** The values taken so far that producer `p` had put in, in the order they were taken. In a FIFO
      the j-th value taken is the j-th value put, so its origin is the j-th put. */
  function TakenFrom(trace: seq<Event>, p: nat): seq<int>
    requires |Takes(trace)| <= |Puts(trace)|
  {
    By(Puts(trace)[..|Takes(trace)|], p)
  }

  /** If producer `p` puts in 0, 1, 2, ... then that is what is taken from it: no gap, no repeat. */
  lemma PerProducerOrder(capacity: nat, trace: seq<Event>, p: nat, n: nat)
    requires Run(Step, Empty(capacity), trace).Some?
    requires By(Puts(trace), p) == Range(0, n)
    ensures |Takes(trace)| <= |Puts(trace)|
    ensures forall j :: 0 <= j < |Takes(trace)| ==> Takes(trace)[j].value == Puts(trace)[j].value
    ensures |TakenFrom(trace, p)| <= n
    ensures TakenFrom(trace, p) == Range(0, |TakenFrom(trace, p)|)
  {
    var f := Run(Step, Empty(capacity), trace).value;
    FifoOrder(Empty(capacity), trace, f);
    var puts, k := Puts(trace), |Takes(trace)|;
    assert Values(puts) == Values(Takes(trace)) + f.items;
    assert |Values(puts)| == |puts| && |Values(Takes(trace))| == k;
    forall j | 0 <= j < k ensures Takes(trace)[j].value == puts[j].value {
      assert Values(puts)[j] == Values(Takes(trace))[j];
    }
    assert puts == puts[..k] + puts[k..];
    ByConcat(puts[..k], puts[k..], p);
    var m := |By(puts[..k], p)|;
    assert By(puts[..k], p) == By(puts, p)[..m];
  }

  /** If every step of a system puts in, on behalf of `p`, exactly the interval its counter moves
      over, then so does every run. */
  lemma {:induction false} PutsInOrder<S(!new), A(!new)>(
      next: (S, A) -> Option<S>, emit: (S, A) -> seq<Event>, counter: S -> int, p: nat, s: S, acts: seq<A>, s': S)
    requires forall s, a :: next(s, a).Some? ==>
               && counter(s) <= counter(next(s, a).value)
               && By(Puts(emit(s, a)), p) == Range(counter(s), counter(next(s, a).value))
    requires Run(next, s, acts) == Some(s')
    ensures counter(s) <= counter(s')
    ensures By(Puts(Trace(next, emit, s, acts)), p) == Range(counter(s), counter(s'))
    decreases |acts|
  {
    if |acts| > 0 {
      var s1 := next(s, acts[0]).value;
      PutsInOrder(next, emit, counter, p, s1, acts[1..], s');
      var e, rest := emit(s, acts[0]), Trace(next, emit, s1, acts[1..]);
      PutsConcat(e, rest);
      ByConcat(Puts(e), Puts(rest), p);
      RangeConcat(counter(s), counter(s1), counter(s'));
    }
  }
}
