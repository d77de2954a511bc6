/**
 * Uniquefy of utils/print-introspected-doxygen.cc: sorting a container and erasing neighbours that are equal.
 * The program takes the container by value; what the parameter holds in the end is the result here, so it
 * depends on the caller whether anything becomes of it.
 */
module Uniqueness {

  /** A strict total order, as std::sort and std::unique together need it. */
  ghost predicate StrictTotal<T(!new)>(less: (T, T) -> bool) {
    && (forall x :: !less(x, x))
    && (forall x, y :: x == y || less(x, y) || less(y, x))
    && (forall x, y, z :: less(x, y) && less(y, z) ==> less(x, z))
  }

  ghost predicate Repeats<T(!new)>(xs: seq<T>) {
    exists i, j :: 0 <= i < j < |xs| && xs[i] == xs[j]
  }

  ghost predicate Sorted<T(!new)>(xs: seq<T>, less: (T, T) -> bool) {
    forall i, j :: 0 <= i < j < |xs| ==> !less(xs[j], xs[i])
  }

  ghost predicate Increasing<T(!new)>(xs: seq<T>, less: (T, T) -> bool) {
    forall i, j :: 0 <= i < j < |xs| ==> less(xs[i], xs[j])
  }

  lemma NotLess<T(!new)>(x: T, y: T, z: T, less: (T, T) -> bool)
    requires StrictTotal(less) && !less(y, x) && !less(z, y)
    ensures !less(z, x)
  {
  }

  /** An element goes before the first one that is not less. */
  lemma Inserted<T(!new)>(xs: seq<T>, k: nat, x: T, less: (T, T) -> bool)
    requires StrictTotal(less) && Sorted(xs, less) && k <= |xs|
    requires (forall i :: 0 <= i < k ==> less(xs[i], x)) && (k < |xs| ==> !less(xs[k], x))
    ensures Sorted(xs[..k] + [x] + xs[k..], less)
  {
    forall i | 0 <= i < k
      ensures !less(x, xs[i])
    {
      assert less(xs[i], x);
    }
    forall j | k <= j < |xs|
      ensures !less(xs[j], x)
    {
      if j > k {
        NotLess(x, xs[k], xs[j], less);
      }
    }
  }

  method Insert<T(!new)>(xs: seq<T>, x: T, less: (T, T) -> bool) returns (ys: seq<T>)
    requires StrictTotal(less) && Sorted(xs, less)
    ensures Sorted(ys, less) && multiset(ys) == multiset(xs) + multiset([x])
  {
    var k := 0;
    while k < |xs| && less(xs[k], x)
      invariant k <= |xs| && forall i :: 0 <= i < k ==> less(xs[i], x)
    {
      k := k + 1;
    }
    ys := xs[..k] + [x] + xs[k..];
    Inserted(xs, k, x, less);
    assert xs == xs[..k] + xs[k..];
  }

  method Sort<T(!new)>(xs: seq<T>, less: (T, T) -> bool) returns (ys: seq<T>)
    requires StrictTotal(less)
    ensures Sorted(ys, less) && multiset(ys) == multiset(xs)
  {
    ys := [];
    for i := 0 to |xs|
      invariant Sorted(ys, less) && multiset(ys) == multiset(xs[..i])
    {
      ys := Insert(ys, xs[i], less);
      assert xs[..i + 1] == xs[..i] + [xs[i]];
    }
    assert xs[..|xs|] == xs;
  }

  /** Keeps the first of each run of equal neighbours. */
  method Unique<T(==, !new)>(xs: seq<T>, less: (T, T) -> bool) returns (ys: seq<T>)
    requires StrictTotal(less) && Sorted(xs, less)
    ensures Increasing(ys, less) && forall x :: x in ys <==> x in xs
  {
    ys := [];
    for i := 0 to |xs|
      invariant Increasing(ys, less) && (ys == [] <==> i == 0) && (i > 0 ==> ys[|ys| - 1] == xs[i - 1])
      invariant forall x :: x in ys <==> x in xs[..i]
    {
      assert xs[..i + 1] == xs[..i] + [xs[i]];
      if i == 0 || ys[|ys| - 1] != xs[i] {
        assert i > 0 ==> less(xs[i - 1], xs[i]) by {
          assert i > 0 ==> !less(xs[i], xs[i - 1]);
        }
        assert forall k :: 0 <= k < |ys| - 1 ==> less(ys[k], ys[|ys| - 1]);
        ys := ys + [xs[i]];
      }
    }
    assert xs[..|xs|] == xs;
  }

  method Uniquefy<T(==, !new)>(t: seq<T>, less: (T, T) -> bool) returns (t': seq<T>)
    requires StrictTotal(less)
    ensures Increasing(t', less) && !Repeats(t') && forall x :: x in t' <==> x in t
  {
    t' := Sort(t, less);
    SameElements(t, t');
    t' := Unique(t', less);
    assert !Repeats(t') by {
      assert forall i, j :: 0 <= i < j < |t'| ==> less(t'[i], t'[j]);
    }
  }

  lemma SameElements<T>(xs: seq<T>, ys: seq<T>)
    requires multiset(xs) == multiset(ys)
    ensures forall x :: x in xs <==> x in ys
  {
    assert forall x :: x in xs <==> x in multiset(xs);
    assert forall x :: x in ys <==> x in multiset(ys);
  }

  // ----- operator< for the two kinds of elements -----

  function StringLess(s: string, t: string): bool {
    if t == "" then false
    else if s == "" then true
    else s[0] < t[0] || (s[0] == t[0] && StringLess(s[1..], t[1..]))
  }

  function EntryLess(x: (nat, string), y: (nat, string)): bool {
    x.0 < y.0 || (x.0 == y.0 && StringLess(x.1, y.1))
  }

  lemma {:induction false} StringIrreflexive(s: string)
    ensures !StringLess(s, s)
  {
    if s != "" {
      StringIrreflexive(s[1..]);
    }
  }

  lemma {:induction false} StringTotal(s: string, t: string)
    ensures s == t || StringLess(s, t) || StringLess(t, s)
  {
    if s != "" && t != "" {
      StringTotal(s[1..], t[1..]);
      assert s == [s[0]] + s[1..] && t == [t[0]] + t[1..];
    }
  }

  lemma {:induction false} StringTransitive(s: string, t: string, u: string)
    requires StringLess(s, t) && StringLess(t, u)
    ensures StringLess(s, u)
  {
    if s != "" && s[0] == t[0] == u[0] {
      StringTransitive(s[1..], t[1..], u[1..]);
    }
  }

  lemma StringOrder()
    ensures StrictTotal(StringLess)
  {
    forall s: string {
      StringIrreflexive(s);
    }
    forall s: string, t: string {
      StringTotal(s, t);
    }
    forall s: string, t: string, u: string | StringLess(s, t) && StringLess(t, u) {
      StringTransitive(s, t, u);
    }
  }

  lemma EntryOrder()
    ensures StrictTotal(EntryLess)
  {
    StringOrder();
    assert forall s: string, t: string, u: string :: StringLess(s, t) && StringLess(t, u) ==> StringLess(s, u);
  }
}
