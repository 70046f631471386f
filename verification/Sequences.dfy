/** Sequence facts used by every other module: duplicate-freedom, counting, sums and filters. */
module Sequences {

  datatype Option<+T> = None | Some(value: T)

  predicate NoDup<T(==)>(xs: seq<T>) {
    forall i, j :: 0 <= i < j < |xs| ==> xs[i] != xs[j]
  }

  predicate Below(xs: seq<nat>, n: nat) {
    forall i :: 0 <= i < |xs| ==> xs[i] < n
  }

  lemma NoDupConcat<T>(xs: seq<T>, ys: seq<T>)
    requires NoDup(xs) && NoDup(ys) && forall x :: x in xs ==> x !in ys
    ensures NoDup(xs + ys)
  {
    forall i, j | 0 <= i < j < |xs + ys| ensures (xs + ys)[i] != (xs + ys)[j] {
      if i < |xs| <= j { assert xs[i] in xs && ys[j - |xs|] in ys; }
    }
  }

  /** Where the `p`-th element of a front part shows up when the whole is cut elsewhere. */
  lemma Recut<T>(a: seq<T>, b: seq<T>, c: seq<T>, d: seq<T>, p: nat)
    requires a + b == c + d && p < |a|
    ensures if p < |c| then c[p] == a[p] else p - |c| < |d| && d[p - |c|] == a[p]
  {
    assert (a + b)[p] == a[p];
    assert (a + b)[p] == (c + d)[p];
  }

  /** Pigeonhole: a duplicate-free sequence of numbers below `n` has at most `n` elements. */
  lemma {:induction false} Pigeonhole(xs: seq<nat>, n: nat)
    requires NoDup(xs) && Below(xs, n)
    ensures |xs| <= n
  {
    assert |xs| > 0 ==> xs[0] < n;
    if n == 0 {
    } else if i :| 0 <= i < |xs| && xs[i] == n - 1 {
      Pigeonhole(xs[..i] + xs[i + 1..], n - 1);
    } else {
      Pigeonhole(xs, n - 1);
    }
  }

  /** A sequence of more than `n` numbers below `n` repeats one of them. */
  lemma Repeats(xs: seq<nat>, n: nat) returns (i: nat, j: nat)
    requires Below(xs, n) && |xs| > n
    ensures i < j < |xs| && xs[i] == xs[j]
  {
    if NoDup(xs) {
      Pigeonhole(xs, n);
      assert false;
    }
    i, j :| 0 <= i < j < |xs| && xs[i] == xs[j];
  }

  /** A duplicate-free sequence of `n` numbers below `n` lists all of them. */
  lemma Inverse(xs: seq<nat>, n: nat, c: nat) returns (i: nat)
    requires NoDup(xs) && Below(xs, n) && |xs| == n && c < n
    ensures i < n && xs[i] == c
  {
    if c !in xs {
      Pigeonhole(xs + [c], n);
      assert false;
    }
    i :| 0 <= i < |xs| && xs[i] == c;
  }

  function Reversed<T>(xs: seq<T>): (r: seq<T>)
    ensures |r| == |xs| && forall k :: 0 <= k < |xs| ==> r[k] == xs[|xs| - 1 - k]
  {
    seq(|xs|, k requires 0 <= k < |xs| => xs[|xs| - 1 - k])
  }

  /** The numbers `lo + 1` .. `hi`, the ids of the tasks from number `lo` on. */
  function Ids(lo: nat, hi: nat): (r: seq<nat>)
    requires lo <= hi
    ensures |r| == hi - lo && forall k :: 0 <= k < |r| ==> r[k] == lo + k + 1
  {
    seq(hi - lo, k requires 0 <= k => lo + k + 1)
  }

  /** The number of elements of `xs` that satisfy `f`. */
  function Count<T>(xs: seq<T>, f: T -> bool): nat {
    if xs == [] then 0 else Count(xs[..|xs| - 1], f) + (if f(xs[|xs| - 1]) then 1 else 0)
  }

  lemma {:induction false} CountUpdate<T>(xs: seq<T>, f: T -> bool, i: nat, v: T)
    requires i < |xs|
    ensures Count(xs[i := v], f)
            == Count(xs, f) - (if f(xs[i]) then 1 else 0) + (if f(v) then 1 else 0)
  {
    var n := |xs| - 1;
    if i == n {
      assert xs[i := v][..n] == xs[..n];
    } else {
      assert xs[i := v][..n] == xs[..n][i := v];
      CountUpdate(xs[..n], f, i, v);
    }
  }

  lemma {:induction false} CountBounds<T>(xs: seq<T>, f: T -> bool)
    ensures Count(xs, f) <= |xs|
    ensures Count(xs, f) == 0 <==> forall i :: 0 <= i < |xs| ==> !f(xs[i])
    ensures Count(xs, f) == |xs| <==> forall i :: 0 <= i < |xs| ==> f(xs[i])
  {
    if xs != [] {
      var n := |xs| - 1;
      CountBounds(xs[..n], f);
      assert forall i :: 0 <= i < n ==> xs[..n][i] == xs[i];
    }
  }

  /** If `f` fails at `i` and holds |xs| - 1 times, it holds everywhere else. */
  lemma CountAllBut<T>(xs: seq<T>, f: T -> bool, i: nat, v: T)
    requires i < |xs| && !f(xs[i]) && f(v) && Count(xs, f) == |xs| - 1
    ensures forall j :: 0 <= j < |xs| && j != i ==> f(xs[j])
  {
    CountUpdate(xs, f, i, v);
    CountBounds(xs[i := v], f);
    forall j | 0 <= j < |xs| && j != i ensures f(xs[j]) { assert xs[i := v][j] == xs[j]; }
  }

  /** The sum of `f` over the elements of `xs`. */
  function Sum<T>(xs: seq<T>, f: T -> nat): nat {
    if xs == [] then 0 else Sum(xs[..|xs| - 1], f) + f(xs[|xs| - 1])
  }

  lemma {:induction false} SumUpdate<T>(xs: seq<T>, f: T -> nat, i: nat, v: T)
    requires i < |xs|
    ensures Sum(xs[i := v], f) == Sum(xs, f) - f(xs[i]) + f(v)
  {
    var n := |xs| - 1;
    if i == n {
      assert xs[i := v][..n] == xs[..n];
    } else {
      assert xs[i := v][..n] == xs[..n][i := v];
      SumUpdate(xs[..n], f, i, v);
    }
  }

  lemma {:induction false} SumZero<T>(xs: seq<T>, f: T -> nat)
    ensures Sum(xs, f) == 0 <==> forall i :: 0 <= i < |xs| ==> f(xs[i]) == 0
    ensures forall i :: 0 <= i < |xs| ==> f(xs[i]) <= Sum(xs, f)
  {
    if xs != [] {
      var n := |xs| - 1;
      SumZero(xs[..n], f);
      assert forall i :: 0 <= i < n ==> xs[..n][i] == xs[i];
    }
  }

  lemma {:induction false} SumCongruent<T>(xs: seq<T>, f: T -> nat, g: T -> nat)
    requires forall i :: 0 <= i < |xs| ==> f(xs[i]) == g(xs[i])
    ensures Sum(xs, f) == Sum(xs, g)
  {
    if xs != [] { SumCongruent(xs[..|xs| - 1], f, g); }
  }

  /** The numbers below `n` that satisfy `f`, in increasing order. */
  function Select(n: nat, f: nat -> bool): seq<nat> {
    if n == 0 then [] else Select(n - 1, f) + (if f(n - 1) then [n - 1] else [])
  }

  lemma {:induction false} SelectSpec(n: nat, f: nat -> bool)
    ensures Below(Select(n, f), n) && NoDup(Select(n, f))
    ensures forall i :: 0 <= i < |Select(n, f)| ==> f(Select(n, f)[i])
    ensures forall k: nat :: k in Select(n, f) <==> k < n && f(k)
    ensures forall i, j :: 0 <= i < j < |Select(n, f)| ==> Select(n, f)[i] < Select(n, f)[j]
  {
    if n > 0 { SelectSpec(n - 1, f); }
  }

  lemma {:induction false} SelectCongruent(n: nat, f: nat -> bool, g: nat -> bool)
    requires forall k: nat :: k < n ==> f(k) == g(k)
    ensures Select(n, f) == Select(n, g)
  {
    if n > 0 { SelectCongruent(n - 1, f, g); }
  }

  lemma {:induction false} SelectNone(n: nat, f: nat -> bool)
    requires forall k: nat :: k < n ==> !f(k)
    ensures Select(n, f) == []
  {
    if n > 0 { SelectNone(n - 1, f); }
  }

  lemma {:induction false} SelectGrows(i: nat, n: nat, f: nat -> bool)
    requires i <= n
    ensures |Select(i, f)| <= |Select(n, f)|
    decreases n
  {
    if i < n { SelectGrows(i, n - 1, f); }
  }
}
