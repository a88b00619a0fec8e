/** Counting and summing over a table of threads, and what one thread's move does to the total. */
module Counting {

  function Sum<T>(s: seq<T>, f: T -> nat): nat {
    if |s| == 0 then 0 else f(s[0]) + Sum(s[1..], f)
  }

  function Count<T>(s: seq<T>, p: T -> bool): nat {
    if |s| == 0 then 0 else (if p(s[0]) then 1 else 0) + Count(s[1..], p)
  }

  lemma {:induction false} SumUpdate<T>(s: seq<T>, f: T -> nat, i: nat, t: T)
    requires i < |s|
    ensures Sum(s[i := t], f) == Sum(s, f) - f(s[i]) + f(t)
  {
    if i == 0 {
      assert s[i := t][1..] == s[1..];
    } else {
      assert s[i := t][1..] == s[1..][i - 1 := t];
      SumUpdate(s[1..], f, i - 1, t);
    }
  }

  lemma {:induction false} CountUpdate<T>(s: seq<T>, p: T -> bool, i: nat, t: T)
    requires i < |s|
    ensures Count(s[i := t], p) == Count(s, p) - (if p(s[i]) then 1 else 0) + (if p(t) then 1 else 0)
  {
    if i == 0 {
      assert s[i := t][1..] == s[1..];
    } else {
      assert s[i := t][1..] == s[1..][i - 1 := t];
      CountUpdate(s[1..], p, i - 1, t);
    }
  }

  /** A member that satisfies `p` is counted; and any second one beside it. */
  lemma {:induction false} CountMember<T>(s: seq<T>, p: T -> bool, i: nat)
    requires i < |s| && p(s[i])
    ensures Count(s, p) >= 1
    ensures forall j :: 0 <= j < |s| && j != i && p(s[j]) ==> Count(s, p) >= 2
  {
    if i > 0 {
      CountMember(s[1..], p, i - 1);
      assert forall j :: 1 <= j < |s| ==> s[j] == s[1..][j - 1];
    } else {
      forall j | 0 < j < |s| && p(s[j]) ensures Count(s[1..], p) >= 1 {
        CountMember(s[1..], p, j - 1);
      }
    }
  }

  /** A positive count has a witness. */
  lemma {:induction false} CountWitness<T>(s: seq<T>, p: T -> bool) returns (i: nat)
    requires Count(s, p) > 0
    ensures i < |s| && p(s[i])
  {
    if p(s[0]) {
      i := 0;
    } else {
      i := CountWitness(s[1..], p);
      i := i + 1;
    }
  }

  lemma {:induction false} CountBounds<T>(s: seq<T>, p: T -> bool)
    ensures Count(s, p) <= |s|
    ensures Count(s, p) == 0 <==> forall i :: 0 <= i < |s| ==> !p(s[i])
    ensures Count(s, p) == |s| <==> forall i :: 0 <= i < |s| ==> p(s[i])
  {
    if |s| > 0 {
      CountBounds(s[1..], p);
      assert forall i :: 1 <= i < |s| ==> s[i] == s[1..][i - 1];
      assert forall i :: 0 <= i < |s[1..]| ==> s[1..][i] == s[i + 1];
    }
  }

  /** Summing the same value over every member. */
  lemma {:induction false} SumConstant<T>(s: seq<T>, f: T -> nat, k: nat)
    requires forall i :: 0 <= i < |s| ==> f(s[i]) == k
    ensures Sum(s, f) == |s| * k
  {
    if |s| > 0 {
      SumConstant(s[1..], f, k);
    }
  }
}
