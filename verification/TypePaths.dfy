/**
 * The configuration-path search of utils/print-introspected-doxygen.cc over an arbitrary, possibly cyclic,
 * finite type graph.
 *
 * The reference is a walk: the list of edge numbers taken from the starting type. The search is proved to
 * record, in preorder, exactly the walks that visit no type twice and no type already on the stack.
 */
module TypePaths {

  type TypeId = nat

  datatype Checker = PointerTo(pointee: TypeId) | ContainerOf(item: TypeId) | OtherChecker

  datatype Attribute = Attribute(name: string, checker: Checker)

  datatype Edge = Edge(segment: string, target: TypeId)

  /**
   * The type registry. `objectType` is the TypeId of Object itself and `isChildOf` holds the (child, ancestor)
   * pairs.
   */
  datatype Registry = Registry(
    registered: seq<TypeId>, names: map<TypeId, string>, attributes: map<TypeId, seq<Attribute>>,
    isChildOf: set<(TypeId, TypeId)>, aggregates: seq<(TypeId, TypeId)>, objectType: TypeId)
  {
    ghost function Types(): set<TypeId> { set t | t in registered }

    /** Every type is registered, and attributes and aggregations refer to registered types only. */
    ghost predicate Valid() {
      && names.Keys == Types() && attributes.Keys == Types()
      && (forall t, k :: t in attributes && 0 <= k < |attributes[t]| ==>
            match attributes[t][k].checker
            case PointerTo(p) => p in registered
            case ContainerOf(i) => i in registered
            case OtherChecker => true)
      && (forall k :: 0 <= k < |aggregates| ==> aggregates[k].0 in registered && aggregates[k].1 in registered)
    }
  }

  // ----- the edges out of a type, in the order the search follows them -----

  /** The edge of one attribute, if the search follows it; pointers to plain Object are not followed. */
  function AttributeEdge(reg: Registry, a: Attribute): seq<Edge> {
    match a.checker
    case PointerTo(p) => if p == reg.objectType then [] else [Edge(a.name, p)]
    case ContainerOf(i) => [Edge(a.name + "/[i]", i)]
    case OtherChecker => []
  }

  function AttributeEdges(reg: Registry, attributes: seq<Attribute>): seq<Edge> {
    if attributes == [] then []
    else AttributeEdges(reg, attributes[..|attributes| - 1]) + AttributeEdge(reg, attributes[|attributes| - 1])
  }

  function ChildEdges(reg: Registry, tid: TypeId, candidates: seq<TypeId>): seq<Edge>
    requires forall t :: t in candidates ==> t in reg.names
  {
    if candidates == [] then []
    else
      var child := candidates[|candidates| - 1];
      ChildEdges(reg, tid, candidates[..|candidates| - 1]) +
      if (child, tid) in reg.isChildOf then [Edge("$" + reg.names[child], child)] else []
  }

  /** The other member of an aggregation; of a pair of equal types, that type. */
  function Other(pair: (TypeId, TypeId), tid: TypeId): TypeId {
    if pair.1 == tid then pair.0 else pair.1
  }

  function AggregateEdges(reg: Registry, tid: TypeId, pairs: seq<(TypeId, TypeId)>): seq<Edge>
    requires forall k :: 0 <= k < |pairs| ==> pairs[k].0 in reg.names && pairs[k].1 in reg.names
  {
    if pairs == [] then []
    else
      var pair := pairs[|pairs| - 1];
      AggregateEdges(reg, tid, pairs[..|pairs| - 1]) +
      if pair.0 == tid || pair.1 == tid then [Edge("$" + reg.names[Other(pair, tid)], Other(pair, tid))] else []
  }

  ghost function Edges(reg: Registry, tid: TypeId): seq<Edge>
    requires reg.Valid() && tid in reg.registered
  {
    AttributeEdges(reg, reg.attributes[tid]) + ChildEdges(reg, tid, reg.registered) +
    AggregateEdges(reg, tid, reg.aggregates)
  }

  lemma {:induction false} AttributeTargets(reg: Registry, tid: TypeId, n: nat)
    requires reg.Valid() && tid in reg.registered && n <= |reg.attributes[tid]|
    ensures forall k :: 0 <= k < |AttributeEdges(reg, reg.attributes[tid][..n])| ==>
              AttributeEdges(reg, reg.attributes[tid][..n])[k].target in reg.registered
  {
    if n > 0 {
      AttributeTargets(reg, tid, n - 1);
      assert reg.attributes[tid][..n][..n - 1] == reg.attributes[tid][..n - 1];
    }
  }

  lemma {:induction false} ChildTargets(reg: Registry, tid: TypeId, candidates: seq<TypeId>)
    requires reg.Valid() && forall t :: t in candidates ==> t in reg.registered
    ensures forall k :: 0 <= k < |ChildEdges(reg, tid, candidates)| ==>
              ChildEdges(reg, tid, candidates)[k].target in reg.registered
  {
    if candidates != [] {
      ChildTargets(reg, tid, candidates[..|candidates| - 1]);
    }
  }

  lemma {:induction false} AggregateTargets(reg: Registry, tid: TypeId, n: nat)
    requires reg.Valid() && n <= |reg.aggregates|
    ensures forall k :: 0 <= k < |AggregateEdges(reg, tid, reg.aggregates[..n])| ==>
              AggregateEdges(reg, tid, reg.aggregates[..n])[k].target in reg.registered
  {
    if n > 0 {
      AggregateTargets(reg, tid, n - 1);
      assert reg.aggregates[..n][..n - 1] == reg.aggregates[..n - 1];
    }
  }

  lemma EdgeTargets(reg: Registry, tid: TypeId)
    requires reg.Valid() && tid in reg.registered
    ensures forall k :: 0 <= k < |Edges(reg, tid)| ==> Edges(reg, tid)[k].target in reg.registered
  {
    AttributeTargets(reg, tid, |reg.attributes[tid]|);
    ChildTargets(reg, tid, reg.registered);
    AggregateTargets(reg, tid, |reg.aggregates|);
    assert reg.attributes[tid][..|reg.attributes[tid]|] == reg.attributes[tid];
    assert reg.aggregates[..|reg.aggregates|] == reg.aggregates;
  }

  ghost function Target(reg: Registry, tid: TypeId, k: nat): (target: TypeId)
    requires reg.Valid() && tid in reg.registered && k < |Edges(reg, tid)|
    ensures target in reg.registered
  {
    EdgeTargets(reg, tid);
    Edges(reg, tid)[k].target
  }

  // ----- walks -----

  /** From `tid`, edge number w[0] exists, from its target edge number w[1] exists, and so on. */
  ghost predicate IsWalk(reg: Registry, tid: TypeId, w: seq<nat>)
    requires reg.Valid() && tid in reg.registered
    decreases |w|
  {
    w == [] || (w[0] < |Edges(reg, tid)| && IsWalk(reg, Target(reg, tid, w[0]), w[1..]))
  }

  /** The types a walk visits, the start included. */
  ghost function Visited(reg: Registry, tid: TypeId, w: seq<nat>): (ts: seq<TypeId>)
    requires reg.Valid() && tid in reg.registered && IsWalk(reg, tid, w)
    ensures |ts| == |w| + 1 && ts[0] == tid
    decreases |w|
  {
    if w == [] then [tid]
    else
      [tid] + Visited(reg, Target(reg, tid, w[0]), w[1..])
  }

  /** The path segments along a walk. */
  ghost function Segments(reg: Registry, tid: TypeId, w: seq<nat>): seq<string>
    requires reg.Valid() && tid in reg.registered && IsWalk(reg, tid, w)
    decreases |w|
  {
    if w == [] then []
    else
      [Edges(reg, tid)[w[0]].segment] + Segments(reg, Target(reg, tid, w[0]), w[1..])
  }

  /** A walk that visits no type twice and none of `stack`. */
  ghost predicate IsSimple(reg: Registry, stack: set<TypeId>, tid: TypeId, w: seq<nat>)
    requires reg.Valid() && tid in reg.registered
  {
    IsWalk(reg, tid, w) &&
    var ts := Visited(reg, tid, w);
    && (forall i, j :: 0 <= i < j < |ts| ==> ts[i] != ts[j])
    && (forall i :: 0 <= i < |ts| ==> ts[i] !in stack)
  }

  /** Preorder: a walk comes before its extensions, and otherwise the first difference decides. */
  predicate Before(v: seq<nat>, w: seq<nat>) {
    if w == [] then false
    else if v == [] then true
    else v[0] < w[0] || (v[0] == w[0] && Before(v[1..], w[1..]))
  }

  // ----- what the search visits -----

  function Under(k: nat, ws: seq<seq<nat>>): seq<seq<nat>> {
    seq(|ws|, i requires 0 <= i < |ws| => [k] + ws[i])
  }

  ghost function Found(reg: Registry, stack: set<TypeId>, tid: TypeId): seq<seq<nat>>
    requires reg.Valid() && tid in reg.registered
    decreases reg.Types() - stack, |Edges(reg, tid)| + 1
  {
    if tid in stack then [] else [[]] + FoundVia(reg, stack, tid, |Edges(reg, tid)|)
  }

  /** The walks found through the first `n` edges of `tid`. */
  ghost function FoundVia(reg: Registry, stack: set<TypeId>, tid: TypeId, n: nat): seq<seq<nat>>
    requires reg.Valid() && tid in reg.registered && tid !in stack && n <= |Edges(reg, tid)|
    decreases reg.Types() - stack, n
  {
    if n == 0 then []
    else
      assert reg.Types() - (stack + {tid}) < reg.Types() - stack by {
        assert tid in reg.Types() - stack;
      }
      FoundVia(reg, stack, tid, n - 1) + Under(n - 1, Found(reg, stack + {tid}, Target(reg, tid, n - 1)))
  }

  /** A longer walk is simple exactly when its tail is, from the next type, with the start added to the stack. */
  lemma {:induction false} SimpleStep(reg: Registry, stack: set<TypeId>, tid: TypeId, w: seq<nat>)
    requires reg.Valid() && tid in reg.registered && w != []
    ensures IsSimple(reg, stack, tid, w) <==>
            && tid !in stack && w[0] < |Edges(reg, tid)|
            && IsSimple(reg, stack + {tid}, Target(reg, tid, w[0]), w[1..])
  {
    if IsWalk(reg, tid, w) {
      var ts := Visited(reg, tid, w);
      var rest := Visited(reg, Target(reg, tid, w[0]), w[1..]);
      assert ts == [tid] + rest;
      assert forall i :: 0 <= i < |rest| ==> rest[i] == ts[i + 1];
      assert forall i :: 1 <= i < |ts| ==> ts[i] == rest[i - 1];
      if IsSimple(reg, stack, tid, w) {
        assert ts[0] == tid;
      }
    }
  }

  lemma UnderMember(k: nat, ws: seq<seq<nat>>, w: seq<nat>)
    ensures w in Under(k, ws) <==> w != [] && w[0] == k && w[1..] in ws
  {
    if w in Under(k, ws) {
      var i :| 0 <= i < |ws| && Under(k, ws)[i] == w;
      assert w == [k] + ws[i] && w[1..] == ws[i];
    }
    if w != [] && w[0] == k && w[1..] in ws {
      var i :| 0 <= i < |ws| && ws[i] == w[1..];
      assert Under(k, ws)[i] == [k] + ws[i] == w;
    }
  }

  /** The first step is one of the first `n` edges of `tid`, and the rest is found from its target. */
  ghost predicate Through(reg: Registry, stack: set<TypeId>, tid: TypeId, n: nat, w: seq<nat>)
    requires reg.Valid() && tid in reg.registered && n <= |Edges(reg, tid)|
  {
    w != [] && w[0] < n && w[1..] in Found(reg, stack + {tid}, Target(reg, tid, w[0]))
  }

  lemma InEither<T>(xs: seq<T>, ys: seq<T>, x: T)
    ensures x in xs + ys <==> x in xs || x in ys
  {
  }

  /** Whether a walk is found through edge `k`, which the first `k` edges leave open. */
  lemma ThroughNext(reg: Registry, stack: set<TypeId>, tid: TypeId, k: nat, w: seq<nat>) returns (here: bool)
    requires reg.Valid() && tid in reg.registered && tid !in stack && k < |Edges(reg, tid)|
    ensures w in FoundVia(reg, stack, tid, k + 1) <==> w in FoundVia(reg, stack, tid, k) || here
    ensures Through(reg, stack, tid, k + 1, w) <==> Through(reg, stack, tid, k, w) || here
  {
    var below := Found(reg, stack + {tid}, Target(reg, tid, k));
    UnderMember(k, below, w);
    InEither(FoundVia(reg, stack, tid, k), Under(k, below), w);
    here := w in Under(k, below);
  }

  ghost predicate FoundAre(reg: Registry, stack: set<TypeId>, tid: TypeId, n: nat, w: seq<nat>)
    requires reg.Valid() && tid in reg.registered && tid !in stack && n <= |Edges(reg, tid)|
  {
    w in FoundVia(reg, stack, tid, n) <==> Through(reg, stack, tid, n, w)
  }

  lemma FoundAreNext(reg: Registry, stack: set<TypeId>, tid: TypeId, k: nat, w: seq<nat>)
    requires reg.Valid() && tid in reg.registered && tid !in stack && k < |Edges(reg, tid)|
    requires FoundAre(reg, stack, tid, k, w)
    ensures FoundAre(reg, stack, tid, k + 1, w)
  {
    var here := ThroughNext(reg, stack, tid, k, w);
  }

  lemma FoundViaMember(reg: Registry, stack: set<TypeId>, tid: TypeId, n: nat, w: seq<nat>)
    requires reg.Valid() && tid in reg.registered && tid !in stack && n <= |Edges(reg, tid)|
    ensures FoundAre(reg, stack, tid, n, w)
  {
    for k := 0 to n
      invariant FoundAre(reg, stack, tid, k, w)
    {
      FoundAreNext(reg, stack, tid, k, w);
    }
  }

  /** Sound and complete: the walks found are all the simple walks that avoid the stack, and no others. */
  lemma {:induction false} FoundExactly(reg: Registry, stack: set<TypeId>, tid: TypeId, w: seq<nat>)
    requires reg.Valid() && tid in reg.registered
    ensures w in Found(reg, stack, tid) <==> IsSimple(reg, stack, tid, w)
    decreases |w|
  {
    if w == [] {
      if tid !in stack {
        FoundViaMember(reg, stack, tid, |Edges(reg, tid)|, w);
        assert Found(reg, stack, tid)[0] == [];
      } else {
        assert Visited(reg, tid, w)[0] == tid;
      }
    } else {
      SimpleStep(reg, stack, tid, w);
      if tid !in stack {
        FoundViaMember(reg, stack, tid, |Edges(reg, tid)|, w);
        if w[0] < |Edges(reg, tid)| {
          FoundExactly(reg, stack + {tid}, Target(reg, tid, w[0]), w[1..]);
        }
      }
    }
  }

  ghost predicate Preorder(ws: seq<seq<nat>>) {
    forall i, j :: 0 <= i < j < |ws| ==> Before(ws[i], ws[j])
  }

  lemma PreorderUnder(k: nat, ws: seq<seq<nat>>)
    requires Preorder(ws)
    ensures Preorder(Under(k, ws)) && forall w :: w in Under(k, ws) ==> w != [] && w[0] == k
  {
    var added := Under(k, ws);
    forall i, j | 0 <= i < j < |added|
      ensures Before(added[i], added[j])
    {
      assert added[i][1..] == ws[i] && added[j][1..] == ws[j];
    }
  }

  /** Walks through smaller edges come first. */
  lemma PreorderAppend(vs: seq<seq<nat>>, k: nat, ws: seq<seq<nat>>)
    requires Preorder(vs) && Preorder(ws) && forall v :: v in vs ==> v != [] && v[0] < k
    ensures Preorder(vs + Under(k, ws)) && forall w :: w in vs + Under(k, ws) ==> w != [] && w[0] < k + 1
  {
    PreorderUnder(k, ws);
  }

  lemma {:induction false} FoundViaPreorder(reg: Registry, stack: set<TypeId>, tid: TypeId, n: nat)
    requires reg.Valid() && tid in reg.registered && tid !in stack && n <= |Edges(reg, tid)|
    ensures Preorder(FoundVia(reg, stack, tid, n))
    ensures forall w :: w in FoundVia(reg, stack, tid, n) ==> w != [] && w[0] < n
    decreases reg.Types() - stack, n
  {
    if n > 0 {
      assert tid in reg.Types() - stack;
      var target := Target(reg, tid, n - 1);
      FoundViaPreorder(reg, stack, tid, n - 1);
      FoundPreorder(reg, stack + {tid}, target);
      PreorderAppend(FoundVia(reg, stack, tid, n - 1), n - 1, Found(reg, stack + {tid}, target));
    }
  }

  /** The walks are found in preorder; in particular none is found twice. */
  lemma {:induction false} FoundPreorder(reg: Registry, stack: set<TypeId>, tid: TypeId)
    requires reg.Valid() && tid in reg.registered
    ensures Preorder(Found(reg, stack, tid))
    decreases reg.Types() - stack, |Edges(reg, tid)| + 1
  {
    if tid !in stack {
      FoundViaPreorder(reg, stack, tid, |Edges(reg, tid)|);
    }
  }

  lemma {:induction false} BeforeIsStrict(w: seq<nat>)
    ensures !Before(w, w)
  {
    if w != [] {
      BeforeIsStrict(w[1..]);
    }
  }

  lemma FoundOnce(reg: Registry, stack: set<TypeId>, tid: TypeId, i: nat, j: nat)
    requires reg.Valid() && tid in reg.registered && i < j < |Found(reg, stack, tid)|
    ensures Found(reg, stack, tid)[i] != Found(reg, stack, tid)[j]
  {
    FoundPreorder(reg, stack, tid);
    BeforeIsStrict(Found(reg, stack, tid)[i]);
  }

  // ----- what is recorded for a walk -----

  function Render(path: seq<string>): string {
    if path == [] then "" else Render(path[..|path| - 1]) + "/" + path[|path| - 1]
  }

  /** The type at the end of the walk, with the current path extended by the walk's segments. */
  ghost function Entry(reg: Registry, tid: TypeId, path: seq<string>, w: seq<nat>): (TypeId, string)
    requires reg.Valid() && tid in reg.registered && IsWalk(reg, tid, w)
  {
    var ts := Visited(reg, tid, w);
    (ts[|ts| - 1], Render(path + Segments(reg, tid, w)))
  }

  ghost predicate AllWalks(reg: Registry, tid: TypeId, ws: seq<seq<nat>>)
    requires reg.Valid() && tid in reg.registered
  {
    forall i :: 0 <= i < |ws| ==> IsWalk(reg, tid, ws[i])
  }

  ghost function Entries(reg: Registry, tid: TypeId, path: seq<string>, ws: seq<seq<nat>>): seq<(TypeId, string)>
    requires reg.Valid() && tid in reg.registered && AllWalks(reg, tid, ws)
  {
    seq(|ws|, i requires 0 <= i < |ws| => Entry(reg, tid, path, ws[i]))
  }

  lemma EntriesAppend(reg: Registry, tid: TypeId, path: seq<string>, vs: seq<seq<nat>>, ws: seq<seq<nat>>)
    requires reg.Valid() && tid in reg.registered && AllWalks(reg, tid, vs) && AllWalks(reg, tid, ws)
    ensures AllWalks(reg, tid, vs + ws)
    ensures Entries(reg, tid, path, vs + ws) == Entries(reg, tid, path, vs) + Entries(reg, tid, path, ws)
  {
  }

  lemma FoundAreWalks(reg: Registry, stack: set<TypeId>, tid: TypeId)
    requires reg.Valid() && tid in reg.registered
    ensures AllWalks(reg, tid, Found(reg, stack, tid))
  {
    forall i | 0 <= i < |Found(reg, stack, tid)|
      ensures IsWalk(reg, tid, Found(reg, stack, tid)[i])
    {
      FoundExactly(reg, stack, tid, Found(reg, stack, tid)[i]);
    }
  }

  lemma FoundViaAreWalks(reg: Registry, stack: set<TypeId>, tid: TypeId, n: nat)
    requires reg.Valid() && tid in reg.registered && tid !in stack && n <= |Edges(reg, tid)|
    ensures AllWalks(reg, tid, FoundVia(reg, stack, tid, n))
  {
    forall i | 0 <= i < |FoundVia(reg, stack, tid, n)|
      ensures IsWalk(reg, tid, FoundVia(reg, stack, tid, n)[i])
    {
      var w := FoundVia(reg, stack, tid, n)[i];
      FoundViaMember(reg, stack, tid, n, w);
      FoundExactly(reg, stack + {tid}, Target(reg, tid, w[0]), w[1..]);
    }
  }

  /** What following one edge records is what the search of its target records under the longer path. */
  lemma EntriesUnder(reg: Registry, tid: TypeId, path: seq<string>, k: nat, ws: seq<seq<nat>>)
    requires reg.Valid() && tid in reg.registered && k < |Edges(reg, tid)|
    requires AllWalks(reg, Target(reg, tid, k), ws)
    ensures AllWalks(reg, tid, Under(k, ws))
    ensures Entries(reg, tid, path, Under(k, ws)) ==
            Entries(reg, Target(reg, tid, k), path + [Edges(reg, tid)[k].segment], ws)
  {
    var e := Edges(reg, tid)[k];
    forall i | 0 <= i < |ws|
      ensures IsWalk(reg, tid, [k] + ws[i])
      ensures Entry(reg, tid, path, [k] + ws[i]) == Entry(reg, e.target, path + [e.segment], ws[i])
    {
      var w := [k] + ws[i];
      assert w[1..] == ws[i];
      assert path + Segments(reg, tid, w) == path + [e.segment] + Segments(reg, e.target, ws[i]);
    }
  }
}
