/**
 * The class StaticInformation of utils/print-introspected-doxygen.cc: the recording of aggregations, the search
 * that fills `output`, and the lookup of the recorded paths.
 */
module Introspection {
  import opened TypePaths
  import opened Uniqueness
  import opened Sums

  ghost function Stack(processed: seq<TypeId>): set<TypeId> {
    set t | t in processed
  }

  /** What a search of `tid` appends to the output. */
  ghost function Recorded(reg: Registry, processed: seq<TypeId>, path: seq<string>, tid: TypeId)
    : seq<(TypeId, string)>
    requires reg.Valid() && tid in reg.registered
  {
    FoundAreWalks(reg, Stack(processed), tid);
    Entries(reg, tid, path, Found(reg, Stack(processed), tid))
  }

  /** What a search of `tid` has appended once it followed the first `n` edges. */
  ghost function RecordedSoFar(reg: Registry, processed: seq<TypeId>, path: seq<string>, tid: TypeId, n: nat)
    : seq<(TypeId, string)>
    requires reg.Valid() && tid in reg.registered && tid !in processed && n <= |Edges(reg, tid)|
  {
    FoundViaAreWalks(reg, Stack(processed), tid, n);
    [(tid, Render(path))] + Entries(reg, tid, path, FoundVia(reg, Stack(processed), tid, n))
  }

  lemma RecordedAll(reg: Registry, processed: seq<TypeId>, path: seq<string>, tid: TypeId)
    requires reg.Valid() && tid in reg.registered && tid !in processed
    ensures Recorded(reg, processed, path, tid) == RecordedSoFar(reg, processed, path, tid, |Edges(reg, tid)|)
  {
    FoundAreWalks(reg, Stack(processed), tid);
    FoundViaAreWalks(reg, Stack(processed), tid, |Edges(reg, tid)|);
    assert path + Segments(reg, tid, []) == path;
  }

  lemma RecordedNext(reg: Registry, processed: seq<TypeId>, path: seq<string>, tid: TypeId, n: nat)
    requires reg.Valid() && tid in reg.registered && tid !in processed && n < |Edges(reg, tid)|
    ensures RecordedSoFar(reg, processed, path, tid, n + 1) ==
            RecordedSoFar(reg, processed, path, tid, n) +
            Recorded(reg, processed + [tid], path + [Edges(reg, tid)[n].segment], Target(reg, tid, n))
  {
    var stack := Stack(processed);
    assert Stack(processed + [tid]) == stack + {tid};
    var below := Found(reg, stack + {tid}, Target(reg, tid, n));
    FoundViaAreWalks(reg, stack, tid, n);
    FoundViaAreWalks(reg, stack, tid, n + 1);
    FoundAreWalks(reg, stack + {tid}, Target(reg, tid, n));
    EntriesUnder(reg, tid, path, n, below);
    assert FoundVia(reg, stack, tid, n + 1) == FoundVia(reg, stack, tid, n) + Under(n, below);
    EntriesAppend(reg, tid, path, FoundVia(reg, stack, tid, n), Under(n, below));
  }

  lemma {:induction false} AttributePrefix(reg: Registry, attributes: seq<Attribute>, i: nat)
    requires i <= |attributes|
    ensures AttributeEdges(reg, attributes[..i]) <= AttributeEdges(reg, attributes)
  {
    var n := |attributes|;
    if i == n {
      assert attributes[..i] == attributes;
    } else {
      AttributePrefix(reg, attributes[..n - 1], i);
      assert attributes[..n - 1][..i] == attributes[..i];
    }
  }

  lemma {:induction false} ChildPrefix(reg: Registry, tid: TypeId, types: seq<TypeId>, i: nat)
    requires i <= |types| && forall t :: t in types ==> t in reg.names
    ensures ChildEdges(reg, tid, types[..i]) <= ChildEdges(reg, tid, types)
  {
    var n := |types|;
    if i == n {
      assert types[..i] == types;
    } else {
      ChildPrefix(reg, tid, types[..n - 1], i);
      assert types[..n - 1][..i] == types[..i];
    }
  }

  lemma {:induction false} AggregatePrefix(reg: Registry, tid: TypeId, pairs: seq<(TypeId, TypeId)>, i: nat)
    requires i <= |pairs| && forall k :: 0 <= k < |pairs| ==> pairs[k].0 in reg.names && pairs[k].1 in reg.names
    ensures AggregateEdges(reg, tid, pairs[..i]) <= AggregateEdges(reg, tid, pairs)
  {
    var n := |pairs|;
    if i == n {
      assert pairs[..i] == pairs;
    } else {
      AggregatePrefix(reg, tid, pairs[..n - 1], i);
      assert pairs[..n - 1][..i] == pairs[..i];
    }
  }

  /** How many edges the first `i` attributes of a type have. */
  ghost function AttributesBefore(reg: Registry, tid: TypeId, i: nat): nat
    requires reg.Valid() && tid in reg.registered && i <= |reg.attributes[tid]|
  {
    |AttributeEdges(reg, reg.attributes[tid][..i])|
  }

  /** What attribute `i` adds to the edges, and where. */
  lemma NextAttribute(reg: Registry, tid: TypeId, i: nat)
    requires reg.Valid() && tid in reg.registered && i < |reg.attributes[tid]|
    ensures var n, added := AttributesBefore(reg, tid, i), AttributeEdge(reg, reg.attributes[tid][i]);
            && AttributesBefore(reg, tid, i + 1) == n + |added| <= |Edges(reg, tid)|
            && (added != [] ==> |added| == 1 && n < |Edges(reg, tid)| && Edges(reg, tid)[n] == added[0])
  {
    var attributes := reg.attributes[tid];
    AttributePrefix(reg, attributes, i + 1);
    assert attributes[..i + 1][..i] == attributes[..i];
  }

  /** How many edges the attributes and the first `j` registered types have. */
  ghost function ChildrenBefore(reg: Registry, tid: TypeId, j: nat): nat
    requires reg.Valid() && tid in reg.registered && j <= |reg.registered|
  {
    |AttributeEdges(reg, reg.attributes[tid])| + |ChildEdges(reg, tid, reg.registered[..j])|
  }

  /** What registered type `j` adds to the edges, and where. */
  lemma NextChild(reg: Registry, tid: TypeId, j: nat)
    requires reg.Valid() && tid in reg.registered && j < |reg.registered|
    ensures var child, n := reg.registered[j], ChildrenBefore(reg, tid, j);
            && ChildrenBefore(reg, tid, j + 1) == (if (child, tid) in reg.isChildOf then n + 1 else n)
            && ChildrenBefore(reg, tid, j + 1) <= |Edges(reg, tid)|
            && ((child, tid) in reg.isChildOf ==> Edges(reg, tid)[n] == Edge("$" + reg.names[child], child))
  {
    ChildPrefix(reg, tid, reg.registered, j + 1);
    assert reg.registered[..j + 1][..j] == reg.registered[..j];
  }

  /** How many edges there are before those of aggregation `k`. */
  ghost function AggregatesBefore(reg: Registry, tid: TypeId, k: nat): nat
    requires reg.Valid() && tid in reg.registered && k <= |reg.aggregates|
  {
    |AttributeEdges(reg, reg.attributes[tid])| + |ChildEdges(reg, tid, reg.registered)| +
    |AggregateEdges(reg, tid, reg.aggregates[..k])|
  }

  /** What aggregation `k` adds to the edges, and where. */
  lemma NextAggregate(reg: Registry, tid: TypeId, k: nat)
    requires reg.Valid() && tid in reg.registered && k < |reg.aggregates|
    ensures var pair, n := reg.aggregates[k], AggregatesBefore(reg, tid, k);
            var other, linked := Other(pair, tid), pair.0 == tid || pair.1 == tid;
            && AggregatesBefore(reg, tid, k + 1) == (if linked then n + 1 else n) <= |Edges(reg, tid)|
            && (linked ==> Edges(reg, tid)[n] == Edge("$" + reg.names[other], other))
  {
    AggregatePrefix(reg, tid, reg.aggregates, k + 1);
    assert reg.aggregates[..k + 1][..k] == reg.aggregates[..k];
  }

  /** Where the edges of each kind begin and end. */
  lemma KindsFollow(reg: Registry, tid: TypeId)
    requires reg.Valid() && tid in reg.registered
    ensures AttributesBefore(reg, tid, 0) == 0
    ensures ChildrenBefore(reg, tid, 0) == AttributesBefore(reg, tid, |reg.attributes[tid]|)
    ensures AggregatesBefore(reg, tid, 0) == ChildrenBefore(reg, tid, |reg.registered|)
    ensures AggregatesBefore(reg, tid, |reg.aggregates|) == |Edges(reg, tid)|
  {
    assert reg.attributes[tid][..|reg.attributes[tid]|] == reg.attributes[tid];
    assert reg.registered[..|reg.registered|] == reg.registered;
    assert reg.aggregates[..|reg.aggregates|] == reg.aggregates;
  }

  /** The paths recorded for `tid`, in order. */
  function PathsFor(output: seq<(TypeId, string)>, tid: TypeId): seq<string> {
    if output == [] then []
    else
      PathsFor(output[..|output| - 1], tid) +
      if output[|output| - 1].0 == tid then [output[|output| - 1].1] else []
  }

  lemma {:induction false} PathsForMember(output: seq<(TypeId, string)>, tid: TypeId, p: string)
    ensures p in PathsFor(output, tid) <==> (tid, p) in output
  {
    if output != [] {
      var n := |output| - 1;
      PathsForMember(output[..n], tid, p);
      assert output == output[..n] + [output[n]];
    }
  }

  /** `paths` are those of the entries of the type, in their order: of the entries at `at`, which are all of them. */
  ghost predicate PathsAt(output: seq<(TypeId, string)>, tid: TypeId, paths: seq<string>, at: seq<nat>) {
    && |at| == |paths| && Ascending(at)
    && (forall i :: 0 <= i < |at| ==> at[i] < |output| && output[at[i]] == (tid, paths[i]))
    && (forall k :: 0 <= k < |output| && output[k].0 == tid ==> k in at)
  }

  lemma NextPath(output: seq<(TypeId, string)>, tid: TypeId, paths: seq<string>, at: seq<nat>, e: (TypeId, string))
    requires PathsAt(output, tid, paths, at)
    ensures e.0 == tid ==> PathsAt(output + [e], tid, paths + [e.1], at + [|output|])
    ensures e.0 != tid ==> PathsAt(output + [e], tid, paths, at)
  {
    forall k | 0 <= k < |output + [e]| && (output + [e])[k].0 == tid
      ensures k in at || k == |output|
    {
      assert k < |output| ==> (output + [e])[k] == output[k];
    }
  }

  lemma {:induction false} PathsInOrder(output: seq<(TypeId, string)>, tid: TypeId) returns (at: seq<nat>)
    ensures PathsAt(output, tid, PathsFor(output, tid), at)
  {
    if output == [] {
      at := [];
    } else {
      var n := |output| - 1;
      at := PathsInOrder(output[..n], tid);
      NextPath(output[..n], tid, PathsFor(output[..n], tid), at, output[n]);
      assert output == output[..n] + [output[n]];
      if output[n].0 == tid {
        at := at + [n];
      }
    }
  }

  lemma RecordedIsWalk(reg: Registry, root: TypeId, e: (TypeId, string)) returns (w: seq<nat>)
    requires reg.Valid() && root in reg.registered && e in Recorded(reg, [], [], root)
    ensures IsSimple(reg, {}, root, w) && Entry(reg, root, [], w) == e
  {
    var found := Found(reg, {}, root);
    assert Stack([]) == {};
    FoundAreWalks(reg, {}, root);
    var i :| 0 <= i < |found| && Recorded(reg, [], [], root)[i] == e;
    w := found[i];
    FoundExactly(reg, {}, root, w);
  }

  lemma WalkIsRecorded(reg: Registry, root: TypeId, w: seq<nat>)
    requires reg.Valid() && root in reg.registered && IsSimple(reg, {}, root, w)
    ensures Entry(reg, root, [], w) in Recorded(reg, [], [], root)
  {
    var found := Found(reg, {}, root);
    assert Stack([]) == {};
    FoundAreWalks(reg, {}, root);
    FoundExactly(reg, {}, root, w);
    var i :| 0 <= i < |found| && found[i] == w;
    assert Recorded(reg, [], [], root)[i] == Entry(reg, root, [], w);
  }

  /** The entries that a search from `root` records are those of the simple walks from it. */
  lemma RecordedMember(reg: Registry, root: TypeId, e: (TypeId, string))
    requires reg.Valid() && root in reg.registered
    ensures e in Recorded(reg, [], [], root) <==>
            exists w :: IsSimple(reg, {}, root, w) && Entry(reg, root, [], w) == e
  {
    if e in Recorded(reg, [], [], root) {
      var w := RecordedIsWalk(reg, root, e);
    }
    if w :| IsSimple(reg, {}, root, w) && Entry(reg, root, [], w) == e {
      WalkIsRecorded(reg, root, w);
    }
  }

  /**
   * After a search from `root`, the paths of a type are exactly those of the simple walks from `root` to it:
   * none is missing, however cyclic the graph, and none is spurious.
   */
  lemma PathsAreSimpleWalks(reg: Registry, root: TypeId, tid: TypeId, p: string)
    requires reg.Valid() && root in reg.registered
    ensures p in PathsFor(Recorded(reg, [], [], root), tid) <==>
            exists w :: IsSimple(reg, {}, root, w) && Entry(reg, root, [], w) == (tid, p)
  {
    PathsForMember(Recorded(reg, [], [], root), tid, p);
    RecordedMember(reg, root, (tid, p));
  }

  // ----- recording aggregations by name -----

  datatype Option<T> = None | Some(value: T)

  /** The last of the types in the list that has this name. */
  function Lookup(reg: Registry, name: string, types: seq<TypeId>): (found: Option<TypeId>)
    ensures found.Some? ==> found.value in types && found.value in reg.names && reg.names[found.value] == name
    ensures found.None? ==> forall t :: t in types && t in reg.names ==> reg.names[t] != name
  {
    if types == [] then None
    else
      var t := types[|types| - 1];
      if t in reg.names && reg.names[t] == name then Some(t) else Lookup(reg, name, types[..|types| - 1])
  }

  /** The name that is reported as missing, if one is: the second of the pair only if the first is known. */
  function Missing(reg: Registry, pair: (string, string)): (names: seq<string>)
    ensures |names| <= 1
  {
    if Lookup(reg, pair.0, reg.registered).None? then [pair.0]
    else if Lookup(reg, pair.1, reg.registered).None? then [pair.1]
    else []
  }

  /** The aggregation that two names stand for, if both are known. */
  function Resolved(reg: Registry, pair: (string, string)): (aggregates: seq<(TypeId, TypeId)>)
    ensures |aggregates| <= 1
    ensures forall p :: p in aggregates ==> p.0 in reg.registered && p.1 in reg.registered
  {
    var a, b := Lookup(reg, pair.0, reg.registered), Lookup(reg, pair.1, reg.registered);
    if a.Some? && b.Some? then [(a.value, b.value)] else []
  }

  /** Some registered type has this name. */
  ghost predicate Known(reg: Registry, name: string) {
    exists t :: t in reg.registered && t in reg.names && reg.names[t] == name
  }

  /** The types of the pair have these names. */
  ghost predicate Named(reg: Registry, pair: (TypeId, TypeId), a: string, b: string) {
    && pair.0 in reg.registered && pair.0 in reg.names && reg.names[pair.0] == a
    && pair.1 in reg.registered && pair.1 in reg.names && reg.names[pair.1] == b
  }

  lemma LookupIff(reg: Registry, name: string)
    ensures Lookup(reg, name, reg.registered).Some? <==> Known(reg, name)
  {
  }

  /** What the elements yield, in order. */
  function Yield<A, B>(xs: seq<A>, f: A -> seq<B>): seq<B> {
    if xs == [] then [] else Yield(xs[..|xs| - 1], f) + f(xs[|xs| - 1])
  }

  function AllMissing(reg: Registry, pairs: seq<(string, string)>): seq<string> {
    Yield(pairs, (pair: (string, string)) => Missing(reg, pair))
  }

  function AllResolved(reg: Registry, pairs: seq<(string, string)>): seq<(TypeId, TypeId)> {
    Yield(pairs, (pair: (string, string)) => Resolved(reg, pair))
  }

  /** What one search from each of the roots records. */
  ghost function RecordedFrom(reg: Registry, roots: seq<TypeId>): seq<(TypeId, string)>
    requires reg.Valid() && forall t :: t in roots ==> t in reg.registered
  {
    if roots == [] then []
    else RecordedFrom(reg, roots[..|roots| - 1]) + Recorded(reg, [], [], roots[|roots| - 1])
  }

  /** Recording an aggregation changes no name. */
  lemma {:induction false} LookupFrame(reg: Registry, reg': Registry, name: string, types: seq<TypeId>)
    requires reg'.names == reg.names
    ensures Lookup(reg', name, types) == Lookup(reg, name, types)
  {
    if types != [] {
      LookupFrame(reg, reg', name, types[..|types| - 1]);
    }
  }

  lemma ResolvedFrame(reg: Registry, reg': Registry, pair: (string, string))
    requires reg'.names == reg.names && reg'.registered == reg.registered
    ensures Missing(reg', pair) == Missing(reg, pair) && Resolved(reg', pair) == Resolved(reg, pair)
  {
    LookupFrame(reg, reg', pair.0, reg.registered);
    LookupFrame(reg, reg', pair.1, reg.registered);
  }

  lemma {:induction false} YieldMember<A, B>(xs: seq<A>, f: A -> seq<B>, y: B)
    ensures y in Yield(xs, f) <==> exists k :: 0 <= k < |xs| && y in f(xs[k])
  {
    if xs != [] {
      var n := |xs| - 1;
      YieldMember(xs[..n], f, y);
      if k :| 0 <= k < |xs| && y in f(xs[k]) {
        assert k < n ==> xs[..n][k] == xs[k];
      }
    }
  }

  /** Two elements that yield the same put it at two places. */
  lemma {:induction false} YieldedTwice<A, B>(xs: seq<A>, f: A -> seq<B>, m: nat, n: nat, y: B)
      returns (p: nat, q: nat)
    requires m < n < |xs| && f(xs[m]) == [y] && f(xs[n]) == [y]
    ensures p < q < |Yield(xs, f)| && Yield(xs, f)[p] == Yield(xs, f)[q] == y
  {
    var last := |xs| - 1;
    if n < last {
      p, q := YieldedTwice(xs[..last], f, m, n, y);
    } else {
      YieldMember(xs[..last], f, y);
      assert xs[..last][m] == xs[m];
      p :| 0 <= p < |Yield(xs[..last], f)| && Yield(xs[..last], f)[p] == y;
      q := |Yield(xs[..last], f)|;
    }
  }

  lemma {:induction false} YieldRepeats<A(!new), B(!new)>(xs: seq<A>, f: A -> seq<B>)
    requires (forall x :: |f(x)| <= 1) && Repeats(Yield(xs, f))
    ensures exists m, n :: 0 <= m < n < |xs| && f(xs[m]) == f(xs[n]) != []
  {
    var last := |xs| - 1;
    var ys, init := Yield(xs, f), Yield(xs[..last], f);
    assert ys == init + f(xs[last]);
    if Repeats(init) {
      YieldRepeats(xs[..last], f);
      var m, n :| 0 <= m < n < last && f(xs[..last][m]) == f(xs[..last][n]) != [];
      assert f(xs[m]) == f(xs[n]) != [];
    } else {
      var i, j :| 0 <= i < j < |ys| && ys[i] == ys[j];
      YieldMember(xs[..last], f, ys[i]);
      assert j == |init| && f(xs[last]) == [ys[j]];
      var m :| 0 <= m < last && ys[i] in f(xs[..last][m]);
      assert f(xs[m]) == [ys[i]];
    }
  }

  /** A missing name is reported twice if and only if two of the recorded pairs miss the same name. */
  lemma MissingRepeatsIff(reg: Registry, pairs: seq<(string, string)>)
    ensures Repeats(AllMissing(reg, pairs)) <==>
            exists m, n :: 0 <= m < n < |pairs| && Missing(reg, pairs[m]) == Missing(reg, pairs[n]) != []
  {
    var f := (pair: (string, string)) => Missing(reg, pair);
    if Repeats(AllMissing(reg, pairs)) {
      YieldRepeats(pairs, f);
      var m, n :| 0 <= m < n < |pairs| && f(pairs[m]) == f(pairs[n]) != [];
      assert Missing(reg, pairs[m]) == Missing(reg, pairs[n]) != [];
    }
    if m, n :| 0 <= m < n < |pairs| && Missing(reg, pairs[m]) == Missing(reg, pairs[n]) != [] {
      var p, q := YieldedTwice(pairs, f, m, n, Missing(reg, pairs[m])[0]);
      assert Yield(pairs, f)[p] == Yield(pairs, f)[q];
    }
  }

  /** The output is `before` and what a search of `tid` records before following its edge number `n`. */
  ghost predicate Recording(reg: Registry, before: seq<(TypeId, string)>, output: seq<(TypeId, string)>,
                            processed: seq<TypeId>, path: seq<string>, tid: TypeId, n: nat)
  {
    && reg.Valid() && tid in reg.registered && tid !in processed && n <= |Edges(reg, tid)|
    && output == before + RecordedSoFar(reg, processed, path, tid, n)
  }

  /** After what the search of the target of edge `n` records, the next edge is to be followed. */
  lemma RecordingNext(reg: Registry, before: seq<(TypeId, string)>, output: seq<(TypeId, string)>,
                      processed: seq<TypeId>, path: seq<string>, tid: TypeId, n: nat)
    requires Recording(reg, before, output, processed, path, tid, n) && n < |Edges(reg, tid)|
    ensures var more := Recorded(reg, processed + [tid], path + [Edges(reg, tid)[n].segment], Target(reg, tid, n));
            Recording(reg, before, output + more, processed, path, tid, n + 1)
  {
    RecordedNext(reg, processed, path, tid, n);
  }

  /** Each search puts one more type on the stack. */
  lemma DeeperStack(reg: Registry, processed: seq<TypeId>, tid: TypeId)
    requires tid in reg.registered && tid !in processed
    ensures reg.Types() - Stack(processed + [tid]) < reg.Types() - Stack(processed)
  {
    assert tid in reg.Types() - Stack(processed);
  }

  class StaticInformation {
    var reg: Registry  // the types of the program, and the aggregations recorded here
    var output: seq<(TypeId, string)>
    var currentPath: seq<string>
    var alreadyProcessed: seq<TypeId>
    var noTids: seq<string>

    constructor (reg: Registry)
      ensures this.reg == reg && output == [] && currentPath == [] && alreadyProcessed == [] && noTids == []
    {
      this.reg := reg;
      output, currentPath, alreadyProcessed, noTids := [], [], [], [];
    }

    method LookupByName(name: string) returns (found: Option<TypeId>)
      requires reg.Valid()
      ensures found == Lookup(reg, name, reg.registered)
    {
      found := None;
      for i := 0 to |reg.registered|
        invariant found == Lookup(reg, name, reg.registered[..i])
      {
        if reg.names[reg.registered[i]] == name {
          found := Some(reg.registered[i]);
        }
        assert reg.registered[..i + 1][..i] == reg.registered[..i];
      }
      assert reg.registered[..|reg.registered|] == reg.registered;
    }

    /** Records an aggregation of two types by their names, or the first name that no type has. */
    method RecordAggregationInfo(a: string, b: string)
      requires reg.Valid()
      modifies this`reg, this`noTids
      ensures !Known(old(reg), a) ==> noTids == old(noTids) + [a] && reg == old(reg)
      ensures Known(old(reg), a) && !Known(old(reg), b) ==> noTids == old(noTids) + [b] && reg == old(reg)
      ensures Known(old(reg), a) && Known(old(reg), b) ==>
                && noTids == old(noTids)
                && exists pair :: Named(old(reg), pair, a, b) &&
                                  reg == old(reg).(aggregates := old(reg).aggregates + [pair])
      ensures reg == old(reg).(aggregates := old(reg).aggregates + Resolved(old(reg), (a, b))) && reg.Valid()
      ensures noTids == old(noTids) + Missing(old(reg), (a, b))
    {
      LookupIff(reg, a);
      LookupIff(reg, b);
      var aTid := LookupByName(a);
      if aTid.None? {
        noTids := noTids + [a];
        return;
      }
      var bTid := LookupByName(b);
      if bTid.None? {
        noTids := noTids + [b];
        return;
      }
      assert Named(reg, (aTid.value, bTid.value), a, b);
      reg := reg.(aggregates := reg.aggregates + [(aTid.value, bTid.value)]);
    }

    /** The clean-up works on a copy, so the names come back as they were recorded, repetitions included. */
    method GetNoTypeIds() returns (names: seq<string>)
      ensures names == noTids
    {
      StringOrder();
      var cleaned := Uniquefy(noTids, StringLess);
      names := noTids;
    }

    method GetCurrentPath() returns (s: string)
      ensures s == Render(currentPath)
    {
      s := "";
      for i := 0 to |currentPath|
        invariant s == Render(currentPath[..i])
      {
        s := s + "/" + currentPath[i];
        assert currentPath[..i + 1][..i] == currentPath[..i];
      }
      assert currentPath[..|currentPath|] == currentPath;
    }

    method RecordOutput(tid: TypeId)
      modifies this`output
      ensures output == old(output) + [(tid, Render(currentPath))]
    {
      var path := GetCurrentPath();
      output := output + [(tid, path)];
    }

    method HasAlreadyBeenProcessed(tid: TypeId) returns (b: bool)
      ensures b <==> tid in alreadyProcessed
    {
      for i := 0 to |alreadyProcessed|
        invariant tid !in alreadyProcessed[..i]
      {
        if alreadyProcessed[i] == tid {
          return true;
        }
      }
      return false;
    }

    method Get(tid: TypeId) returns (paths: seq<string>)
      ensures paths == PathsFor(output, tid)
    {
      paths := [];
      for i := 0 to |output|
        invariant paths == PathsFor(output[..i], tid)
      {
        if output[i].0 == tid {
          paths := paths + [output[i].1];
        }
        assert output[..i + 1][..i] == output[..i];
      }
      assert output[..|output|] == output;
    }

    /** Searches along edge number `n` of `tid`. */
    method Follow(tid: TypeId, segment: string, target: TypeId, ghost r: Registry, ghost n: nat,
                  ghost before: seq<(TypeId, string)>)
      requires reg == r && Recording(r, before, output, alreadyProcessed, currentPath, tid, n)
      requires n < |Edges(r, tid)| && Edges(r, tid)[n] == Edge(segment, target)
      modifies this`output, this`currentPath, this`alreadyProcessed
      ensures currentPath == old(currentPath) && alreadyProcessed == old(alreadyProcessed)
      ensures Recording(r, before, output, alreadyProcessed, currentPath, tid, n + 1)
      decreases r.Types() - Stack(alreadyProcessed), 0
    {
      assert target == Target(r, tid, n);
      DeeperStack(r, alreadyProcessed, tid);
      RecordingNext(r, before, output, alreadyProcessed, currentPath, tid, n);
      currentPath := currentPath + [segment];
      alreadyProcessed := alreadyProcessed + [tid];
      DoGather(target, r);
      alreadyProcessed := alreadyProcessed[..|alreadyProcessed| - 1];
      currentPath := currentPath[..|currentPath| - 1];
    }

    /** Searches along the edge of one attribute, number `n` of `tid`, if it has an edge. */
    method FollowAttribute(tid: TypeId, a: Attribute, ghost r: Registry, ghost n: nat,
                           ghost before: seq<(TypeId, string)>)
      requires reg == r && Recording(r, before, output, alreadyProcessed, currentPath, tid, n)
      requires AttributeEdge(r, a) != [] ==> n < |Edges(r, tid)| && Edges(r, tid)[n] == AttributeEdge(r, a)[0]
      modifies this`output, this`currentPath, this`alreadyProcessed
      ensures currentPath == old(currentPath) && alreadyProcessed == old(alreadyProcessed)
      ensures Recording(r, before, output, alreadyProcessed, currentPath, tid, n + |AttributeEdge(r, a)|)
      decreases r.Types() - Stack(alreadyProcessed), 1
    {
      match a.checker
      case PointerTo(pointee) =>
        if pointee == reg.objectType {
          return;
        }
        Follow(tid, a.name, pointee, r, n, before);
      case ContainerOf(item) =>
        Follow(tid, a.name + "/[i]", item, r, n, before);
      case OtherChecker =>
    }

    method FollowAttributeAt(tid: TypeId, i: nat, ghost r: Registry, ghost before: seq<(TypeId, string)>)
      requires r.Valid() && tid in r.registered && i < |r.attributes[tid]|
      requires reg == r && Recording(r, before, output, alreadyProcessed, currentPath, tid, AttributesBefore(r, tid, i))
      modifies this`output, this`currentPath, this`alreadyProcessed
      ensures currentPath == old(currentPath) && alreadyProcessed == old(alreadyProcessed)
      ensures Recording(r, before, output, alreadyProcessed, currentPath, tid, AttributesBefore(r, tid, i + 1))
      decreases r.Types() - Stack(alreadyProcessed), 2
    {
      ghost var n := AttributesBefore(r, tid, i);
      NextAttribute(r, tid, i);
      FollowAttribute(tid, reg.attributes[tid][i], r, n, before);
    }

    method FollowAttributes(tid: TypeId, ghost r: Registry, ghost before: seq<(TypeId, string)>)
      requires reg == r && r.Valid() && tid in r.registered
      requires Recording(r, before, output, alreadyProcessed, currentPath, tid, AttributesBefore(r, tid, 0))
      modifies this`output, this`currentPath, this`alreadyProcessed
      ensures currentPath == old(currentPath) && alreadyProcessed == old(alreadyProcessed)
      ensures Recording(r, before, output, alreadyProcessed, currentPath, tid,
                        AttributesBefore(r, tid, |r.attributes[tid]|))
      decreases r.Types() - Stack(alreadyProcessed), 3
    {
      for i := 0 to |reg.attributes[tid]|
        invariant currentPath == old(currentPath) && alreadyProcessed == old(alreadyProcessed)
        invariant Recording(r, before, output, alreadyProcessed, currentPath, tid, AttributesBefore(r, tid, i))
      {
        FollowAttributeAt(tid, i, r, before);
      }
    }

    method FollowChildAt(tid: TypeId, i: nat, ghost r: Registry, ghost before: seq<(TypeId, string)>)
      requires r.Valid() && tid in r.registered && i < |r.registered|
      requires reg == r && Recording(r, before, output, alreadyProcessed, currentPath, tid, ChildrenBefore(r, tid, i))
      modifies this`output, this`currentPath, this`alreadyProcessed
      ensures currentPath == old(currentPath) && alreadyProcessed == old(alreadyProcessed)
      ensures Recording(r, before, output, alreadyProcessed, currentPath, tid, ChildrenBefore(r, tid, i + 1))
      decreases r.Types() - Stack(alreadyProcessed), 1
    {
      ghost var n := ChildrenBefore(r, tid, i);
      NextChild(r, tid, i);
      var child := reg.registered[i];
      if (child, tid) in reg.isChildOf {
        Follow(tid, "$" + reg.names[child], child, r, n, before);
      }
    }

    method FollowChildren(tid: TypeId, ghost r: Registry, ghost before: seq<(TypeId, string)>)
      requires reg == r && r.Valid() && tid in r.registered
      requires Recording(r, before, output, alreadyProcessed, currentPath, tid, ChildrenBefore(r, tid, 0))
      modifies this`output, this`currentPath, this`alreadyProcessed
      ensures currentPath == old(currentPath) && alreadyProcessed == old(alreadyProcessed)
      ensures Recording(r, before, output, alreadyProcessed, currentPath, tid, ChildrenBefore(r, tid, |r.registered|))
      decreases r.Types() - Stack(alreadyProcessed), 2
    {
      for i := 0 to |reg.registered|
        invariant currentPath == old(currentPath) && alreadyProcessed == old(alreadyProcessed)
        invariant Recording(r, before, output, alreadyProcessed, currentPath, tid, ChildrenBefore(r, tid, i))
      {
        FollowChildAt(tid, i, r, before);
      }
    }

    method FollowAggregateAt(tid: TypeId, i: nat, ghost r: Registry, ghost before: seq<(TypeId, string)>)
      requires r.Valid() && tid in r.registered && i < |r.aggregates|
      requires reg == r && Recording(r, before, output, alreadyProcessed, currentPath, tid, AggregatesBefore(r, tid, i))
      modifies this`output, this`currentPath, this`alreadyProcessed
      ensures currentPath == old(currentPath) && alreadyProcessed == old(alreadyProcessed)
      ensures Recording(r, before, output, alreadyProcessed, currentPath, tid, AggregatesBefore(r, tid, i + 1))
      decreases r.Types() - Stack(alreadyProcessed), 1
    {
      ghost var n := AggregatesBefore(r, tid, i);
      NextAggregate(r, tid, i);
      var pair := reg.aggregates[i];
      if pair.0 == tid || pair.1 == tid {
        var other := pair.1;
        if pair.1 == tid {
          other := pair.0;
        }
        Follow(tid, "$" + reg.names[other], other, r, n, before);
      }
    }

    method FollowAggregates(tid: TypeId, ghost r: Registry, ghost before: seq<(TypeId, string)>)
      requires reg == r && r.Valid() && tid in r.registered
      requires Recording(r, before, output, alreadyProcessed, currentPath, tid, AggregatesBefore(r, tid, 0))
      modifies this`output, this`currentPath, this`alreadyProcessed
      ensures currentPath == old(currentPath) && alreadyProcessed == old(alreadyProcessed)
      ensures Recording(r, before, output, alreadyProcessed, currentPath, tid, AggregatesBefore(r, tid, |r.aggregates|))
      decreases r.Types() - Stack(alreadyProcessed), 2
    {
      for i := 0 to |reg.aggregates|
        invariant currentPath == old(currentPath) && alreadyProcessed == old(alreadyProcessed)
        invariant Recording(r, before, output, alreadyProcessed, currentPath, tid, AggregatesBefore(r, tid, i))
      {
        FollowAggregateAt(tid, i, r, before);
      }
    }

    method DoGather(tid: TypeId, ghost r: Registry)
      requires reg == r && r.Valid() && tid in r.registered
      modifies this`output, this`currentPath, this`alreadyProcessed
      ensures currentPath == old(currentPath) && alreadyProcessed == old(alreadyProcessed)
      ensures output == old(output) + Recorded(r, alreadyProcessed, currentPath, tid)
      decreases r.Types() - Stack(alreadyProcessed), 4
    {
      var processed := HasAlreadyBeenProcessed(tid);
      if processed {
        return;
      }
      ghost var before := output;
      KindsFollow(r, tid);
      RecordOutput(tid);
      FollowAttributes(tid, r, before);
      FollowChildren(tid, r, before);
      FollowAggregates(tid, r, before);
      RecordedAll(r, alreadyProcessed, currentPath, tid);
    }

    /** Gathers the paths from a root object; the clean-up works on a copy, and `output` stays as it was recorded. */
    method Gather(tid: TypeId)
      requires reg.Valid() && tid in reg.registered
      modifies this`output, this`currentPath, this`alreadyProcessed
      ensures currentPath == old(currentPath) && alreadyProcessed == old(alreadyProcessed)
      ensures output == old(output) + Recorded(reg, alreadyProcessed, currentPath, tid)
    {
      DoGather(tid, reg);
      EntryOrder();
      var cleaned := Uniquefy(output, EntryLess);
    }
  }

  /** Records the aggregations, given by names, and gathers the paths from every root object. */
  method GetTypicalAggregations(types: Registry, pairs: seq<(string, string)>, roots: seq<TypeId>)
      returns (info: StaticInformation)
    requires types.Valid() && types.aggregates == [] && forall t :: t in roots ==> t in types.registered
    ensures info.reg == types.(aggregates := AllResolved(types, pairs)) && info.reg.Valid()
    ensures info.noTids == AllMissing(types, pairs) && info.output == RecordedFrom(info.reg, roots)
    ensures fresh(info)
  {
    info := new StaticInformation(types);
    for k := 0 to |pairs|
      invariant fresh(info) && info.reg.Valid()
      invariant info.output == [] && info.currentPath == [] && info.alreadyProcessed == []
      invariant info.reg == types.(aggregates := AllResolved(types, pairs[..k]))
      invariant info.noTids == AllMissing(types, pairs[..k])
    {
      ResolvedFrame(types, info.reg, pairs[k]);
      info.RecordAggregationInfo(pairs[k].0, pairs[k].1);
      assert pairs[k] == (pairs[k].0, pairs[k].1) && pairs[..k + 1][..k] == pairs[..k];
    }
    assert pairs[..|pairs|] == pairs;
    for k := 0 to |roots|
      invariant fresh(info) && info.reg.Valid() && info.currentPath == [] && info.alreadyProcessed == []
      invariant info.reg == types.(aggregates := AllResolved(types, pairs))
      invariant info.noTids == AllMissing(types, pairs)
      invariant info.output == RecordedFrom(info.reg, roots[..k])
    {
      info.Gather(roots[k]);
      assert roots[..k + 1][..k] == roots[..k];
    }
    assert roots[..|roots|] == roots;
  }
}
