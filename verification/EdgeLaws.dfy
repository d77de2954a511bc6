/**
 * What the edges of a type are, and in which order, said in terms of the registry alone: an edge of an attribute,
 * then one of a derived type, then one of an aggregation, each kind in the order of its list.
 */
module EdgeLaws {
  import opened Sums
  import opened TypePaths

  /** Attribute `a` is a pointer to the target, which is not plain Object, or a container of it. */
  ghost predicate ByAttribute(reg: Registry, a: Attribute, e: Edge) {
    || (a == Attribute(e.segment, PointerTo(e.target)) && e.target != reg.objectType)
    || (a.checker == ContainerOf(e.target) && e.segment == a.name + "/[i]")
  }

  /** The target is derived from `tid`. */
  ghost predicate ByChild(reg: Registry, tid: TypeId, child: TypeId, e: Edge)
    requires child in reg.names
  {
    (child, tid) in reg.isChildOf && e == Edge("$" + reg.names[child], child)
  }

  /** The pair names `tid` and the target, in either order. */
  ghost predicate ByAggregate(reg: Registry, tid: TypeId, pair: (TypeId, TypeId), e: Edge)
    requires pair.0 in reg.names && pair.1 in reg.names
  {
    && (pair == (tid, e.target) || pair == (e.target, tid))
    && e.target in reg.names && e.segment == "$" + reg.names[e.target]
  }

  function EdgeOfAttribute(reg: Registry, attributes: seq<Attribute>): nat -> seq<Edge> {
    (k: nat) => if k < |attributes| then AttributeEdge(reg, attributes[k]) else []
  }

  function EdgeOfChild(reg: Registry, tid: TypeId, types: seq<TypeId>): nat -> seq<Edge> {
    (k: nat) => if k < |types| && types[k] in reg.names then ChildEdges(reg, tid, [types[k]]) else []
  }

  function EdgeOfAggregate(reg: Registry, tid: TypeId, pairs: seq<(TypeId, TypeId)>): nat -> seq<Edge> {
    (k: nat) =>
      if k < |pairs| && pairs[k].0 in reg.names && pairs[k].1 in reg.names then AggregateEdges(reg, tid, [pairs[k]])
      else []
  }

  lemma OneChild(reg: Registry, tid: TypeId, t: TypeId)
    requires t in reg.names
    ensures ChildEdges(reg, tid, [t]) == if (t, tid) in reg.isChildOf then [Edge("$" + reg.names[t], t)] else []
  {
    var one: seq<TypeId> := [t];
    assert one[..0] == [];
  }

  lemma OneAggregate(reg: Registry, tid: TypeId, pair: (TypeId, TypeId))
    requires pair.0 in reg.names && pair.1 in reg.names
    ensures AggregateEdges(reg, tid, [pair]) ==
            if pair.0 == tid || pair.1 == tid then [Edge("$" + reg.names[Other(pair, tid)], Other(pair, tid))] else []
  {
    var one: seq<(TypeId, TypeId)> := [pair];
    assert one[..0] == [];
  }

  lemma {:induction false} AttributesConcat(reg: Registry, attributes: seq<Attribute>, n: nat)
    requires n <= |attributes|
    ensures AttributeEdges(reg, attributes[..n]) == Concat(n, EdgeOfAttribute(reg, attributes))
  {
    if n > 0 {
      AttributesConcat(reg, attributes, n - 1);
      assert attributes[..n][..n - 1] == attributes[..n - 1];
    }
  }

  lemma ChildrenStep(reg: Registry, tid: TypeId, types: seq<TypeId>, n: nat)
    requires 0 < n <= |types| && forall t :: t in types ==> t in reg.names
    ensures ChildEdges(reg, tid, types[..n]) ==
            ChildEdges(reg, tid, types[..n - 1]) + EdgeOfChild(reg, tid, types)(n - 1)
  {
    assert types[..n][..n - 1] == types[..n - 1];
    OneChild(reg, tid, types[n - 1]);
  }

  lemma AggregatesStep(reg: Registry, tid: TypeId, pairs: seq<(TypeId, TypeId)>, n: nat)
    requires 0 < n <= |pairs| && forall k :: 0 <= k < |pairs| ==> pairs[k].0 in reg.names && pairs[k].1 in reg.names
    ensures AggregateEdges(reg, tid, pairs[..n]) ==
            AggregateEdges(reg, tid, pairs[..n - 1]) + EdgeOfAggregate(reg, tid, pairs)(n - 1)
  {
    assert pairs[..n][..n - 1] == pairs[..n - 1];
    OneAggregate(reg, tid, pairs[n - 1]);
  }

  lemma {:induction false} ChildrenConcat(reg: Registry, tid: TypeId, types: seq<TypeId>, n: nat)
    requires n <= |types| && forall t :: t in types ==> t in reg.names
    ensures ChildEdges(reg, tid, types[..n]) == Concat(n, EdgeOfChild(reg, tid, types))
  {
    if n > 0 {
      ChildrenConcat(reg, tid, types, n - 1);
      ChildrenStep(reg, tid, types, n);
    }
  }

  lemma {:induction false} AggregatesConcat(reg: Registry, tid: TypeId, pairs: seq<(TypeId, TypeId)>, n: nat)
    requires n <= |pairs| && forall k :: 0 <= k < |pairs| ==> pairs[k].0 in reg.names && pairs[k].1 in reg.names
    ensures AggregateEdges(reg, tid, pairs[..n]) == Concat(n, EdgeOfAggregate(reg, tid, pairs))
  {
    if n > 0 {
      AggregatesConcat(reg, tid, pairs, n - 1);
      AggregatesStep(reg, tid, pairs, n);
    }
  }

  lemma AttributeGives(reg: Registry, attributes: seq<Attribute>, k: nat, e: Edge)
    requires k < |attributes|
    ensures |EdgeOfAttribute(reg, attributes)(k)| <= 1
    ensures EdgeOfAttribute(reg, attributes)(k) == [e] <==> ByAttribute(reg, attributes[k], e)
  {
    var a := attributes[k];
    if a.checker.ContainerOf? {
      assert ByAttribute(reg, a, e) <==> e == Edge(a.name + "/[i]", a.checker.item);
    } else if a.checker.PointerTo? {
      assert ByAttribute(reg, a, e) <==> a.checker.pointee != reg.objectType && e == Edge(a.name, a.checker.pointee);
    }
  }

  lemma ChildGives(reg: Registry, tid: TypeId, types: seq<TypeId>, k: nat, e: Edge)
    requires k < |types| && types[k] in reg.names
    ensures |EdgeOfChild(reg, tid, types)(k)| <= 1
    ensures EdgeOfChild(reg, tid, types)(k) == [e] <==> ByChild(reg, tid, types[k], e)
  {
    OneChild(reg, tid, types[k]);
  }

  lemma AggregateGives(reg: Registry, tid: TypeId, pairs: seq<(TypeId, TypeId)>, k: nat, e: Edge)
    requires k < |pairs| && pairs[k].0 in reg.names && pairs[k].1 in reg.names
    ensures |EdgeOfAggregate(reg, tid, pairs)(k)| <= 1
    ensures EdgeOfAggregate(reg, tid, pairs)(k) == [e] <==> ByAggregate(reg, tid, pairs[k], e)
  {
    OneAggregate(reg, tid, pairs[k]);
  }

  lemma AttributesInOrder(reg: Registry, attributes: seq<Attribute>) returns (at: seq<nat>)
    ensures |at| == |AttributeEdges(reg, attributes)| && Ascending(at)
    ensures forall i :: 0 <= i < |at| ==>
              at[i] < |attributes| && ByAttribute(reg, attributes[at[i]], AttributeEdges(reg, attributes)[i])
    ensures forall k, e :: 0 <= k < |attributes| && ByAttribute(reg, attributes[k], e) ==> k in at
  {
    var f, edges := EdgeOfAttribute(reg, attributes), AttributeEdges(reg, attributes);
    AttributesConcat(reg, attributes, |attributes|);
    assert attributes[..|attributes|] == attributes;
    at := Origins(|attributes|, f);
    forall i | 0 <= i < |at|
      ensures ByAttribute(reg, attributes[at[i]], edges[i])
    {
      AttributeGives(reg, attributes, at[i], edges[i]);
    }
    forall k, e | 0 <= k < |attributes| && ByAttribute(reg, attributes[k], e)
      ensures k in at
    {
      AttributeGives(reg, attributes, k, e);
    }
  }

  lemma ChildrenInOrder(reg: Registry, tid: TypeId, types: seq<TypeId>) returns (at: seq<nat>)
    requires forall t :: t in types ==> t in reg.names
    ensures |at| == |ChildEdges(reg, tid, types)| && Ascending(at)
    ensures forall i :: 0 <= i < |at| ==>
              at[i] < |types| && ByChild(reg, tid, types[at[i]], ChildEdges(reg, tid, types)[i])
    ensures forall k, e :: 0 <= k < |types| && ByChild(reg, tid, types[k], e) ==> k in at
  {
    var f, edges := EdgeOfChild(reg, tid, types), ChildEdges(reg, tid, types);
    ChildrenConcat(reg, tid, types, |types|);
    assert types[..|types|] == types;
    forall k: nat | k < |types|
      ensures |f(k)| <= 1
    {
      OneChild(reg, tid, types[k]);
    }
    at := Origins(|types|, f);
    forall i | 0 <= i < |at|
      ensures ByChild(reg, tid, types[at[i]], edges[i])
    {
      ChildGives(reg, tid, types, at[i], edges[i]);
    }
    forall k, e | 0 <= k < |types| && ByChild(reg, tid, types[k], e)
      ensures k in at
    {
      ChildGives(reg, tid, types, k, e);
    }
  }

  lemma AggregatesInOrder(reg: Registry, tid: TypeId, pairs: seq<(TypeId, TypeId)>) returns (at: seq<nat>)
    requires forall k :: 0 <= k < |pairs| ==> pairs[k].0 in reg.names && pairs[k].1 in reg.names
    ensures |at| == |AggregateEdges(reg, tid, pairs)| && Ascending(at)
    ensures forall i :: 0 <= i < |at| ==>
              at[i] < |pairs| && ByAggregate(reg, tid, pairs[at[i]], AggregateEdges(reg, tid, pairs)[i])
    ensures forall k, e :: 0 <= k < |pairs| && ByAggregate(reg, tid, pairs[k], e) ==> k in at
  {
    var f, edges := EdgeOfAggregate(reg, tid, pairs), AggregateEdges(reg, tid, pairs);
    AggregatesConcat(reg, tid, pairs, |pairs|);
    assert pairs[..|pairs|] == pairs;
    forall k: nat | k < |pairs|
      ensures |f(k)| <= 1
    {
      OneAggregate(reg, tid, pairs[k]);
    }
    at := Origins(|pairs|, f);
    forall i | 0 <= i < |at|
      ensures ByAggregate(reg, tid, pairs[at[i]], edges[i])
    {
      AggregateGives(reg, tid, pairs, at[i], edges[i]);
    }
    forall k, e | 0 <= k < |pairs| && ByAggregate(reg, tid, pairs[k], e)
      ensures k in at
    {
      AggregateGives(reg, tid, pairs, k, e);
    }
  }

  /** The edges of one kind come from ascending places `at` of a list of `n`, and from all the places that give one. */
  ghost predicate Follows(edges: seq<Edge>, at: seq<nat>, n: nat, gives: (nat, Edge) -> bool) {
    && |at| == |edges| && Ascending(at)
    && (forall i :: 0 <= i < |at| ==> at[i] < n && gives(at[i], edges[i]))
    && (forall k: nat, e :: k < n && gives(k, e) ==> k in at)
  }

  ghost function AttributeAt(reg: Registry, tid: TypeId): (nat, Edge) -> bool
    requires reg.Valid() && tid in reg.registered
  {
    (k: nat, e: Edge) => k < |reg.attributes[tid]| && ByAttribute(reg, reg.attributes[tid][k], e)
  }

  ghost function ChildAt(reg: Registry, tid: TypeId): (nat, Edge) -> bool
    requires reg.Valid()
  {
    (k: nat, e: Edge) => k < |reg.registered| && ByChild(reg, tid, reg.registered[k], e)
  }

  ghost function AggregateAt(reg: Registry, tid: TypeId): (nat, Edge) -> bool
    requires reg.Valid()
  {
    (k: nat, e: Edge) => k < |reg.aggregates| && ByAggregate(reg, tid, reg.aggregates[k], e)
  }

  /**
   * The order in which the search follows the edges of a type: those of its attributes, of derived types and of
   * aggregations, each from ascending places of its list, and none is left out.
   */
  lemma EdgesInOrder(reg: Registry, tid: TypeId) returns (m: nat, n: nat, atts: seq<nat>, cs: seq<nat>, gs: seq<nat>)
    requires reg.Valid() && tid in reg.registered
    ensures m <= n <= |Edges(reg, tid)|
    ensures Follows(Edges(reg, tid)[..m], atts, |reg.attributes[tid]|, AttributeAt(reg, tid))
    ensures Follows(Edges(reg, tid)[m..n], cs, |reg.registered|, ChildAt(reg, tid))
    ensures Follows(Edges(reg, tid)[n..], gs, |reg.aggregates|, AggregateAt(reg, tid))
  {
    var a, c := AttributeEdges(reg, reg.attributes[tid]), ChildEdges(reg, tid, reg.registered);
    var g := AggregateEdges(reg, tid, reg.aggregates);
    m, n := |a|, |a| + |c|;
    atts := AttributesInOrder(reg, reg.attributes[tid]);
    cs := ChildrenInOrder(reg, tid, reg.registered);
    gs := AggregatesInOrder(reg, tid, reg.aggregates);
    ThreeParts(a, c, g);
  }

  lemma ThreeParts<T>(a: seq<T>, b: seq<T>, c: seq<T>)
    ensures (a + b + c)[..|a|] == a && (a + b + c)[|a|..|a| + |b|] == b && (a + b + c)[|a| + |b|..] == c
  {
  }

  lemma FollowsMember(edges: seq<Edge>, at: seq<nat>, n: nat, gives: (nat, Edge) -> bool, e: Edge)
    requires Follows(edges, at, n, gives)
    requires forall k: nat, d, d' :: gives(k, d) && gives(k, d') ==> d == d'
    ensures e in edges <==> exists k: nat :: k < n && gives(k, e)
  {
    if e in edges {
      var i :| 0 <= i < |edges| && edges[i] == e;
      assert gives(at[i], e);
    }
    if k: nat :| k < n && gives(k, e) {
      var i :| 0 <= i < |at| && at[i] == k;
      assert edges[i] == e;
    }
  }

  /** Exactly these edges: of an attribute, of a derived type, of an aggregation. */
  lemma EdgesAre(reg: Registry, tid: TypeId, e: Edge)
    requires reg.Valid() && tid in reg.registered
    ensures e in Edges(reg, tid) <==>
            || (exists a :: a in reg.attributes[tid] && a == Attribute(e.segment, PointerTo(e.target)) &&
                            e.target != reg.objectType)
            || (exists a :: a in reg.attributes[tid] && a.checker == ContainerOf(e.target) &&
                            e.segment == a.name + "/[i]")
            || (e.target in reg.registered && (e.target, tid) in reg.isChildOf &&
                e.segment == "$" + reg.names[e.target])
            || (((tid, e.target) in reg.aggregates || (e.target, tid) in reg.aggregates) &&
                e.target in reg.names && e.segment == "$" + reg.names[e.target])
  {
    var m, n, atts, cs, gs := EdgesInOrder(reg, tid);
    var edges := Edges(reg, tid);
    assert edges == edges[..m] + edges[m..n] + edges[n..];
    FollowsMember(edges[..m], atts, |reg.attributes[tid]|, AttributeAt(reg, tid), e);
    FollowsMember(edges[m..n], cs, |reg.registered|, ChildAt(reg, tid), e);
    FollowsMember(edges[n..], gs, |reg.aggregates|, AggregateAt(reg, tid), e);
    AttributePlaces(reg, tid, e);
    ChildPlaces(reg, tid, e);
    AggregatePlaces(reg, tid, e);
  }

  lemma AttributePlaces(reg: Registry, tid: TypeId, e: Edge)
    requires reg.Valid() && tid in reg.registered
    ensures (exists k: nat :: k < |reg.attributes[tid]| && AttributeAt(reg, tid)(k, e)) <==>
            || (exists a :: a in reg.attributes[tid] && a == Attribute(e.segment, PointerTo(e.target)) &&
                            e.target != reg.objectType)
            || (exists a :: a in reg.attributes[tid] && a.checker == ContainerOf(e.target) &&
                            e.segment == a.name + "/[i]")
  {
    var attributes := reg.attributes[tid];
    if a :| a in attributes && ByAttribute(reg, a, e) {
      var k :| 0 <= k < |attributes| && attributes[k] == a;
      assert AttributeAt(reg, tid)(k, e);
    }
  }

  lemma ChildPlaces(reg: Registry, tid: TypeId, e: Edge)
    requires reg.Valid() && tid in reg.registered
    ensures (exists k: nat :: k < |reg.registered| && ChildAt(reg, tid)(k, e)) <==>
            e.target in reg.registered && (e.target, tid) in reg.isChildOf && e.segment == "$" + reg.names[e.target]
  {
    if e.target in reg.registered && (e.target, tid) in reg.isChildOf && e.segment == "$" + reg.names[e.target] {
      var k :| 0 <= k < |reg.registered| && reg.registered[k] == e.target;
      assert ChildAt(reg, tid)(k, e);
    }
  }

  lemma AggregatePlaces(reg: Registry, tid: TypeId, e: Edge)
    requires reg.Valid() && tid in reg.registered
    ensures (exists k: nat :: k < |reg.aggregates| && AggregateAt(reg, tid)(k, e)) <==>
            ((tid, e.target) in reg.aggregates || (e.target, tid) in reg.aggregates) &&
            e.target in reg.names && e.segment == "$" + reg.names[e.target]
  {
    if e.target in reg.names && e.segment == "$" + reg.names[e.target] {
      if pair :| pair in reg.aggregates && (pair == (tid, e.target) || pair == (e.target, tid)) {
        var k :| 0 <= k < |reg.aggregates| && reg.aggregates[k] == pair;
        assert AggregateAt(reg, tid)(k, e);
      }
    }
  }
}
