/** The critical sections of the two linked-list programs on real pointers. What the mutex makes atomic
    is one method here; MsgList interleaves the same statements with everything outside the lock. */
module MsgNodes {

  /** struct msg */
  class Msg {
    var num: int
    var next: Msg?

    constructor (num: int)
      ensures this.num == num && next == null
    {
      this.num, next := num, null;
    }
  }

  function After(chain: seq<Msg>, i: nat): Msg? { if i + 1 < |chain| then chain[i + 1] else null }

  /** Following `next` from `head` visits exactly `chain`, each node once, and ends. */
  ghost predicate Linked(head: Msg?, chain: seq<Msg>)
    reads chain
  {
    && head == (if chain == [] then null else chain[0])
    && (forall i :: 0 <= i < |chain| ==> chain[i].next == After(chain, i))
    && (forall i, j :: 0 <= i < j < |chain| ==> chain[i] != chain[j])
  }

  lemma Rest(chain: seq<Msg>)
    requires chain != [] && Linked(chain[0], chain)
    ensures Linked(chain[0].next, chain[1..])
  {
    assert chain[0].next == After(chain, 0);
    forall i | 0 <= i < |chain| - 1 ensures chain[1..][i].next == After(chain[1..], i) {
      assert chain[i + 1].next == After(chain, i + 1);
    }
  }

  /** Only the head leads to the first node. */
  lemma FirstAlone(chain: seq<Msg>)
    requires chain != [] && Linked(chain[0], chain)
    ensures chain[0] !in chain[1..] && forall m :: m in chain[1..] ==> m.next != chain[0]
  {
    forall m | m in chain[1..] ensures m != chain[0] && m.next != chain[0] {
      var i :| 1 <= i < |chain| && chain[i] == m;
      assert m.next == After(chain, i);
    }
  }

  /** Pointing the last node at a new one appends it. */
  lemma LastLinked(chain: seq<Msg>, tmp: Msg)
    requires chain != [] && tmp !in chain && tmp.next == null
    requires forall i, j :: 0 <= i < j < |chain| ==> chain[i] != chain[j]
    requires forall i :: 0 <= i < |chain| - 1 ==> chain[i].next == After(chain, i)
    requires chain[|chain| - 1].next == tmp
    ensures Linked(chain[0], chain + [tmp])
  {
    var chain' := chain + [tmp];
    forall i | 0 <= i < |chain'| ensures chain'[i].next == After(chain', i) {
      assert i < |chain| ==> chain'[i] == chain[i];
    }
  }

  /** The global `head`, and the nodes it is meant to lead to. */
  class List {
    var head: Msg?
    ghost var chain: seq<Msg>

    ghost predicate Valid()
      reads this, chain
    {
      Linked(head, chain)
    }

    constructor ()
      ensures Valid() && chain == []
    {
      head, chain := null, [];
    }

    /** The walk to the tail: `cur` goes from node to node until `next` is NULL. */
    method Tail() returns (cur: Msg)
      requires Valid() && head != null
      ensures chain != [] && cur == chain[|chain| - 1]
    {
      cur := head;
      ghost var i := 0;
      while cur.next != null
        invariant 0 <= i < |chain| && cur == chain[i]
        decreases |chain| - i
      {
        cur := cur.next;
        i := i + 1;
      }
    }

    /** `cur->next = tmp` at the tail. */
    method LinkBehind(cur: Msg, tmp: Msg)
      requires Valid() && chain != [] && cur == chain[|chain| - 1]
      requires tmp !in chain && tmp.next == null
      modifies this`chain, cur`next
      ensures Valid() && chain == old(chain) + [tmp]
    {
      assert forall i :: 0 <= i < |chain| - 1 ==> chain[i] != cur && chain[i].next == After(chain, i);
      cur.next := tmp;
      LastLinked(chain, tmp);
      chain := chain + [tmp];
    }

    /** The producer that appends at the tail. */
    method Append(tmp: Msg)
      requires Valid() && tmp !in chain && tmp.next == null
      modifies this, chain
      ensures Valid() && chain == old(chain) + [tmp]
      ensures forall m :: m in chain ==> m.num == old(m.num)
    {
      if head != null {
        var cur := Tail();
        LinkBehind(cur, tmp);
      } else {
        head := tmp;
        chain := [tmp];
      }
    }

    /** The producer that pushes at the head. */
    method Push(tmp: Msg)
      requires Valid() && tmp !in chain
      modifies this, tmp
      ensures Valid() && chain == [tmp] + old(chain)
      ensures forall m :: m in chain ==> m.num == old(m.num)
    {
      tmp.next := head;
      head := tmp;
      chain := [tmp] + chain;
      assert chain[1..] == old(chain);
    }

    /** The consumer: the first node leaves the list, and the list keeps no pointer to it. */
    method Remove() returns (tmp: Msg)
      requires Valid() && head != null
      modifies this
      ensures Valid() && old(chain) == [tmp] + chain && tmp !in chain
      ensures forall m :: m in old(chain) ==> m.num == old(m.num)
      ensures forall m :: m in chain ==> m.next != tmp
    {
      Rest(chain);
      FirstAlone(chain);
      hide Linked;
      assert chain == [chain[0]] + chain[1..];
      tmp := head;
      head := head.next;
      chain := chain[1..];
    }
  }

  /** `next` determines the list: the nodes reached from a head are the same however they are written down. */
  lemma {:induction false} OneChain(head: Msg?, a: seq<Msg>, b: seq<Msg>)
    requires Linked(head, a) && Linked(head, b)
    ensures a == b
  {
    if a != [] {
      assert a[0] == b[0];
      assert a[0].next == After(a, 0) == After(b, 0);
      Rest(a);
      Rest(b);
      OneChain(a[0].next, a[1..], b[1..]);
      assert a == [a[0]] + a[1..] && b == [b[0]] + b[1..];
    }
  }
}
