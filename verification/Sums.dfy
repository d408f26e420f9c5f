/** Sums over sequences and over finite sets, with the update laws the counters need. */
module Sums {

  function Sum(s: seq<nat>): nat {
    if s == [] then 0 else s[0] + Sum(s[1..])
  }

  lemma {:induction false} SumConcat(a: seq<nat>, b: seq<nat>)
    ensures Sum(a + b) == Sum(a) + Sum(b)
  {
    if a == [] {
      assert a + b == b;
    } else {
      SumConcat(a[1..], b);
      assert (a + b)[1..] == a[1..] + b;
    }
  }

  lemma SumSplit(s: seq<nat>, i: nat)
    requires i < |s|
    ensures Sum(s) == Sum(s[..i]) + s[i] + Sum(s[i + 1..])
  {
    assert s == s[..i] + s[i..];
    SumConcat(s[..i], s[i..]);
    assert s[i..][1..] == s[i + 1..];
  }

  lemma SumUpdate(s: seq<nat>, i: nat, v: nat)
    requires i < |s|
    ensures Sum(s[i := v]) == Sum(s) - s[i] + v
  {
    SumSplit(s, i);
    SumSplit(s[i := v], i);
    assert s[i := v][..i] == s[..i] && s[i := v][i + 1..] == s[i + 1..];
  }

  lemma SumRemove(s: seq<nat>, i: nat)
    requires i < |s|
    ensures Sum(s[..i] + s[i + 1..]) == Sum(s) - s[i]
  {
    SumSplit(s, i);
    SumConcat(s[..i], s[i + 1..]);
  }

  lemma SumAppend(s: seq<nat>, v: nat)
    ensures Sum(s + [v]) == Sum(s) + v
  {
    SumConcat(s, [v]);
    assert Sum([v]) == v + Sum([v][1..]);
  }

  lemma SumAtLeast(s: seq<nat>, i: nat)
    requires i < |s|
    ensures s[i] <= Sum(s)
  {
    SumSplit(s, i);
  }

  lemma {:induction false} SumZeroes(s: seq<nat>)
    requires forall i :: 0 <= i < |s| ==> s[i] == 0
    ensures Sum(s) == 0
  {
    if s != [] {
      SumZeroes(s[1..]);
    }
  }

  ghost function SetSum<T(!new)>(xs: set<T>, f: T -> nat): nat {
    if xs == {} then 0
    else
      var x :| x in xs;
      f(x) + SetSum(xs - {x}, f)
  }

  lemma {:induction false} SetSumPick<T(!new)>(xs: set<T>, f: T -> nat, x: T)
    requires x in xs
    ensures SetSum(xs, f) == f(x) + SetSum(xs - {x}, f)
    decreases |xs|
  {
    var y :| y in xs && SetSum(xs, f) == f(y) + SetSum(xs - {y}, f);
    if y != x {
      SetSumPick(xs - {y}, f, x);
      SetSumPick(xs - {x}, f, y);
      assert xs - {y} - {x} == xs - {x} - {y};
    }
  }

  lemma {:induction false} SetSumCongruence<T(!new)>(xs: set<T>, f: T -> nat, g: T -> nat)
    requires forall x :: x in xs ==> f(x) == g(x)
    ensures SetSum(xs, f) == SetSum(xs, g)
    decreases |xs|
  {
    if xs != {} {
      var x :| x in xs;
      SetSumPick(xs, f, x);
      SetSumPick(xs, g, x);
      SetSumCongruence(xs - {x}, f, g);
    }
  }

  lemma SetSumAdd<T(!new)>(xs: set<T>, f: T -> nat, x: T)
    requires x !in xs
    ensures SetSum(xs + {x}, f) == SetSum(xs, f) + f(x)
  {
    SetSumPick(xs + {x}, f, x);
    assert xs + {x} - {x} == xs;
  }

  /** The sum of `f` over a sequence, last element last. */
  function Tally<T>(xs: seq<T>, f: T -> nat): nat {
    if xs == [] then 0 else Tally(xs[..|xs| - 1], f) + f(xs[|xs| - 1])
  }

  lemma {:induction false} TallyUpdate<T>(xs: seq<T>, f: T -> nat, i: nat, x: T)
    requires i < |xs|
    ensures Tally(xs[i := x], f) == Tally(xs, f) - f(xs[i]) + f(x)
  {
    var n := |xs| - 1;
    if i < n {
      TallyUpdate(xs[..n], f, i, x);
      assert xs[i := x][..n] == xs[..n][i := x];
    } else {
      assert xs[i := x][..n] == xs[..n];
    }
  }

  lemma TallyAppend<T>(xs: seq<T>, f: T -> nat, x: T)
    ensures Tally(xs + [x], f) == Tally(xs, f) + f(x)
  {
    assert (xs + [x])[..|xs|] == xs;
  }

  lemma {:induction false} TallyAtLeast<T>(xs: seq<T>, f: T -> nat, i: nat)
    requires i < |xs|
    ensures f(xs[i]) <= Tally(xs, f)
  {
    if i < |xs| - 1 { TallyAtLeast(xs[..|xs| - 1], f, i); }
  }

  lemma {:induction false} TallyZero<T>(xs: seq<T>, f: T -> nat)
    requires forall i :: 0 <= i < |xs| ==> f(xs[i]) == 0
    ensures Tally(xs, f) == 0
  {
    if xs != [] { TallyZero(xs[..|xs| - 1], f); }
  }
}
