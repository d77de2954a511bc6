/** Sums of a per-element weight over a sequence, and how they change when one element is replaced. */
module Sums {

  ghost function Sum<T>(xs: seq<T>, f: T -> nat): nat {
    if xs == [] then 0 else Sum(xs[..|xs| - 1], f) + f(xs[|xs| - 1])
  }

  lemma {:induction false} SumAppend<T>(xs: seq<T>, x: T, f: T -> nat)
    ensures Sum(xs + [x], f) == Sum(xs, f) + f(x)
  {
    assert (xs + [x])[..|xs|] == xs;
  }

  lemma {:induction false} SumUpdate<T>(xs: seq<T>, k: nat, x: T, f: T -> nat)
    requires k < |xs|
    ensures Sum(xs[k := x], f) + f(xs[k]) == Sum(xs, f) + f(x)
  {
    var n := |xs| - 1;
    if k == n {
      assert xs[k := x][..n] == xs[..n];
    } else {
      SumUpdate(xs[..n], k, x, f);
      assert xs[k := x][..n] == xs[..n][k := x];
    }
  }

  lemma {:induction false} SumAtLeast<T>(xs: seq<T>, k: nat, f: T -> nat)
    requires k < |xs|
    ensures f(xs[k]) <= Sum(xs, f)
  {
    if k < |xs| - 1 {
      SumAtLeast(xs[..|xs| - 1], k, f);
    }
  }

  lemma {:induction false} SumAtLeastTwo<T>(xs: seq<T>, i: nat, k: nat, f: T -> nat)
    requires i < k < |xs|
    ensures f(xs[i]) + f(xs[k]) <= Sum(xs, f)
  {
    if k == |xs| - 1 {
      SumAtLeast(xs[..k], i, f);
    } else {
      SumAtLeastTwo(xs[..|xs| - 1], i, k, f);
    }
  }

  lemma {:induction false} SumPointwise<T>(xs: seq<T>, f: T -> nat, g: T -> nat)
    requires forall k :: 0 <= k < |xs| ==> f(xs[k]) <= g(xs[k])
    ensures Sum(xs, f) <= Sum(xs, g)
  {
    if xs != [] {
      SumPointwise(xs[..|xs| - 1], f, g);
    }
  }

  lemma {:induction false} SumOnes<T>(xs: seq<T>, f: T -> nat)
    requires forall k :: 0 <= k < |xs| ==> f(xs[k]) == 1
    ensures Sum(xs, f) == |xs|
  {
    if xs != [] {
      SumOnes(xs[..|xs| - 1], f);
    }
  }

  lemma {:induction false} SumZeros<T>(xs: seq<T>, f: T -> nat)
    requires forall k :: 0 <= k < |xs| ==> f(xs[k]) == 0
    ensures Sum(xs, f) == 0
  {
    if xs != [] {
      SumZeros(xs[..|xs| - 1], f);
    }
  }

  lemma {:induction false} SumBelowLength<T>(xs: seq<T>, k: nat, f: T -> nat)
    requires k < |xs| && f(xs[k]) == 0
    requires forall i :: 0 <= i < |xs| ==> f(xs[i]) <= 1
    ensures Sum(xs, f) < |xs|
  {
    var n := |xs| - 1;
    if k < n {
      SumBelowLength(xs[..n], k, f);
    } else {
      SumPointwise(xs[..n], f, (x: T) => 1);
      SumOnes(xs[..n], (x: T) => 1);
    }
  }

  function Without<T>(xs: seq<T>, k: nat): seq<T>
    requires k < |xs|
  {
    xs[..k] + xs[k + 1..]
  }

  lemma {:induction false} SumWithout<T>(xs: seq<T>, k: nat, f: T -> nat)
    requires k < |xs|
    ensures Sum(xs, f) == Sum(Without(xs, k), f) + f(xs[k])
  {
    var n := |xs| - 1;
    if k == n {
      assert Without(xs, k) == xs[..n];
    } else {
      SumWithout(xs[..n], k, f);
      assert Without(xs, k) == Without(xs[..n], k) + [xs[n]];
      SumAppend(Without(xs[..n], k), xs[n], f);
    }
  }

  lemma MultisetWithout<T>(xs: seq<T>, k: nat)
    requires k < |xs|
    ensures multiset(xs) == multiset(Without(xs, k)) + multiset([xs[k]])
  {
    assert xs == xs[..k] + [xs[k]] + xs[k + 1..];
  }

  // ----- pieces strung together -----

  function Concat<T>(n: nat, f: nat -> seq<T>): seq<T> {
    if n == 0 then [] else Concat(n - 1, f) + f(n - 1)
  }

  ghost function SumUpTo(n: nat, f: nat -> nat): nat {
    if n == 0 then 0 else SumUpTo(n - 1, f) + f(n - 1)
  }

  lemma {:induction false} ConcatMember<T>(n: nat, f: nat -> seq<T>, x: T)
    ensures x in Concat(n, f) <==> exists k :: 0 <= k < n && x in f(k)
  {
    if n > 0 {
      ConcatMember(n - 1, f, x);
      assert x in Concat(n, f) <==> x in Concat(n - 1, f) || x in f(n - 1);
    }
  }

  /** When only piece number `key` can hold `x`, and holds it exactly if `holds`. */
  lemma ConcatMemberAt<T>(n: nat, f: nat -> seq<T>, x: T, key: nat, holds: bool)
    requires forall k: nat :: k < n ==> (x in f(k) <==> holds && k == key)
    ensures x in Concat(n, f) <==> holds && key < n
  {
    ConcatMember(n, f, x);
    if holds && key < n {
      assert x in f(key);
    }
  }

  ghost predicate Ascending(at: seq<nat>) {
    forall i, j :: 0 <= i < j < |at| ==> at[i] < at[j]
  }

  /** The elements of `xs` come from the pieces numbered `at`, and from all pieces before `n` that are not empty. */
  ghost predicate ComeFrom<T>(xs: seq<T>, at: seq<nat>, n: nat, f: nat -> seq<T>) {
    && |at| == |xs| && Ascending(at)
    && (forall i :: 0 <= i < |at| ==> at[i] < n && f(at[i]) == [xs[i]])
    && (forall k: nat :: k < n && f(k) != [] ==> k in at)
  }

  lemma OneMore<T>(xs: seq<T>, at: seq<nat>, n: nat, f: nat -> seq<T>, x: T)
    requires ComeFrom(xs, at, n, f) && f(n) == [x]
    ensures ComeFrom(xs + [x], at + [n], n + 1, f)
  {
    forall k: nat | k < n + 1 && f(k) != []
      ensures k in at + [n]
    {
      if k < n {
        assert k in at;
      }
    }
  }

  /** Of pieces with at most one element each, which pieces the elements come from. */
  lemma {:induction false} Origins<T>(n: nat, f: nat -> seq<T>) returns (at: seq<nat>)
    requires forall k: nat :: k < n ==> |f(k)| <= 1
    ensures ComeFrom(Concat(n, f), at, n, f)
  {
    if n == 0 {
      at := [];
    } else {
      at := Origins(n - 1, f);
      if f(n - 1) != [] {
        OneMore(Concat(n - 1, f), at, n - 1, f, f(n - 1)[0]);
        at := at + [n - 1];
      }
    }
  }

  /** In pieces of equal length, where element `i` of piece `k` is. */
  lemma {:induction false} ConcatAt<T>(n: nat, f: nat -> seq<T>, length: nat, k: nat, i: nat)
    requires (forall m: nat :: m < n ==> |f(m)| == length) && k < n && i < length
    ensures |Concat(n, f)| == n * length && k * length + i < n * length && Concat(n, f)[k * length + i] == f(k)[i]
  {
    assert n * length == (n - 1) * length + length;
    if k < n - 1 {
      ConcatAt(n - 1, f, length, k, i);
    } else {
      ConcatLength(n - 1, f, length);
    }
  }

  lemma {:induction false} ConcatLength<T>(n: nat, f: nat -> seq<T>, length: nat)
    requires forall m: nat :: m < n ==> |f(m)| == length
    ensures |Concat(n, f)| == n * length
  {
    if n > 0 {
      ConcatLength(n - 1, f, length);
      assert n * length == (n - 1) * length + length;
    }
  }

  lemma {:induction false} SumUpToConstant(n: nat, f: nat -> nat, x: nat)
    requires forall k: nat :: k < n ==> f(k) == x
    ensures SumUpTo(n, f) == n * x
  {
    if n > 0 {
      SumUpToConstant(n - 1, f, x);
      assert n * x == (n - 1) * x + x;
    }
  }
}
