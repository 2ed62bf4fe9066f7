/** Sums over the members of a sequence, for counters that many tasks share. */
module Counting {
  function Sum<T>(xs: seq<T>, f: T -> nat): nat {
    if |xs| == 0 then 0 else f(xs[0]) + Sum(xs[1..], f)
  }

  lemma {:induction false} SumAppend<T>(xs: seq<T>, x: T, f: T -> nat)
    ensures Sum(xs + [x], f) == Sum(xs, f) + f(x)
  {
    if |xs| == 0 {
      assert xs + [x] == [x];
    } else {
      assert (xs + [x])[1..] == xs[1..] + [x];
      SumAppend(xs[1..], x, f);
    }
  }

  /** Changing one member changes the sum by the difference. */
  lemma {:induction false} SumUpdate<T>(xs: seq<T>, i: nat, x: T, f: T -> nat)
    requires i < |xs|
    ensures Sum(xs[i := x], f) + f(xs[i]) == Sum(xs, f) + f(x)
  {
    if i == 0 {
      assert xs[0 := x][1..] == xs[1..];
    } else {
      assert xs[i := x][1..] == xs[1..][i - 1 := x];
      SumUpdate(xs[1..], i - 1, x, f);
    }
  }

  lemma {:induction false} SumMonotone<T>(xs: seq<T>, f: T -> nat, g: T -> nat)
    requires forall i :: 0 <= i < |xs| ==> f(xs[i]) <= g(xs[i])
    ensures Sum(xs, f) <= Sum(xs, g)
  {
    if |xs| > 0 { SumMonotone(xs[1..], f, g); }
  }

  lemma {:induction false} SumMember<T>(xs: seq<T>, i: nat, f: T -> nat)
    requires i < |xs|
    ensures f(xs[i]) <= Sum(xs, f)
  {
    if i > 0 { SumMember(xs[1..], i - 1, f); }
  }

  lemma {:induction false} SumZero<T>(xs: seq<T>, f: T -> nat)
    requires forall i :: 0 <= i < |xs| ==> f(xs[i]) == 0
    ensures Sum(xs, f) == 0
  {
    if |xs| > 0 { SumZero(xs[1..], f); }
  }

  lemma {:induction false} SumOnes<T>(xs: seq<T>, f: T -> nat, g: T -> nat)
    requires forall i :: 0 <= i < |xs| ==> f(xs[i]) + g(xs[i]) == 1
    ensures Sum(xs, f) + Sum(xs, g) == |xs|
  {
    if |xs| > 0 { SumOnes(xs[1..], f, g); }
  }

  lemma {:induction false} SumBound<T>(xs: seq<T>, f: T -> nat, bound: nat)
    requires forall i :: 0 <= i < |xs| ==> f(xs[i]) <= bound
    ensures Sum(xs, f) <= bound * |xs|
  {
    if |xs| > 0 { SumBound(xs[1..], f, bound); }
  }

  lemma {:induction false} SumOfSum<T>(xs: seq<T>, f: T -> nat, g: T -> nat, h: T -> nat)
    requires forall i :: 0 <= i < |xs| ==> h(xs[i]) == f(xs[i]) + g(xs[i])
    ensures Sum(xs, h) == Sum(xs, f) + Sum(xs, g)
  {
    if |xs| > 0 { SumOfSum(xs[1..], f, g, h); }
  }

  // ---- How many members have a property ----

  ghost function Where<T>(xs: seq<T>, p: T -> bool): set<nat> { set i: nat | i < |xs| && p(xs[i]) }

  /** The number of members with the property. */
  ghost function Count<T>(xs: seq<T>, p: T -> bool): nat { |Where(xs, p)| }

  lemma CountNone<T>(p: T -> bool)
    ensures Count([], p) == 0
  {
    assert Where([], p) == {};
  }

  /** One more member counts if it has the property. */
  lemma CountLast<T>(xs: seq<T>, p: T -> bool)
    requires |xs| > 0
    ensures var n := |xs| - 1; Count(xs, p) == Count(xs[..n], p) + if p(xs[n]) then 1 else 0
  {
    var n: nat := |xs| - 1;
    var before := Where(xs[..n], p);
    forall i: nat ensures i in Where(xs, p) <==> i in before || (i == n && p(xs[n])) {
      if i < n { assert xs[..n][i] == xs[i]; }
    }
    if p(xs[n]) { assert Where(xs, p) == before + {n}; } else { assert Where(xs, p) == before; }
  }
}
