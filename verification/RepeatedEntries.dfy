/**
 * When a search of utils/print-introspected-doxygen.cc records the same entry twice. Nothing removes repeated
 * entries afterwards, so this decides whether its output has any.
 */
module RepeatedEntries {
  import opened TypePaths
  import opened Introspection
  import opened Uniqueness

  // ----- the same edge twice out of one type -----

  /** The type a walk ends at. */
  ghost function End(reg: Registry, tid: TypeId, w: seq<nat>): (end: TypeId)
    requires reg.Valid() && tid in reg.registered && IsWalk(reg, tid, w)
    ensures end in reg.registered
    decreases |w|
  {
    if w == [] then tid else End(reg, Target(reg, tid, w[0]), w[1..])
  }

  lemma {:induction false} EndIsLast(reg: Registry, tid: TypeId, w: seq<nat>)
    requires reg.Valid() && tid in reg.registered && IsWalk(reg, tid, w)
    ensures Visited(reg, tid, w)[|w|] == End(reg, tid, w)
    decreases |w|
  {
    if w != [] {
      EndIsLast(reg, Target(reg, tid, w[0]), w[1..]);
    }
  }

  /** The edges number `i` and `j` out of the type at the end of `u` are equal. */
  ghost predicate SameEdge(reg: Registry, tid: TypeId, u: seq<nat>, i: nat, j: nat)
    requires reg.Valid() && tid in reg.registered
  {
    && IsWalk(reg, tid, u)
    && var edges := Edges(reg, End(reg, tid, u));
    && i < |edges| && j < |edges| && edges[i] == edges[j]
  }

  /** The search reaches a type that has the same edge at two places, leading to where it has not been. */
  ghost predicate Twin(reg: Registry, stack: set<TypeId>, tid: TypeId, u: seq<nat>, i: nat, j: nat)
    requires reg.Valid() && tid in reg.registered
  {
    i != j && SameEdge(reg, tid, u, i, j) && IsSimple(reg, stack, tid, u + [i])
  }

  /** A simple walk can take the other of two equal edges instead, and is recorded as the same entry. */
  lemma {:induction false} TakeOther(reg: Registry, stack: set<TypeId>, tid: TypeId, path: seq<string>,
                                     u: seq<nat>, i: nat, j: nat, v: seq<nat>)
    requires reg.Valid() && tid in reg.registered && SameEdge(reg, tid, u, i, j)
    requires IsSimple(reg, stack, tid, u + [i] + v)
    ensures IsSimple(reg, stack, tid, u + [j] + v)
    ensures Entry(reg, tid, path, u + [j] + v) == Entry(reg, tid, path, u + [i] + v)
    decreases |u|
  {
    var a, b := u + [i] + v, u + [j] + v;
    SimpleStep(reg, stack, tid, a);
    SimpleStep(reg, stack, tid, b);
    if u == [] {
      assert a[1..] == v && b[1..] == v;
      EntryStep(reg, tid, path, a);
      EntryStep(reg, tid, path, b);
    } else {
      var target := Target(reg, tid, u[0]);
      assert a[1..] == u[1..] + [i] + v && b[1..] == u[1..] + [j] + v;
      TakeOther(reg, stack + {tid}, target, path + [Edges(reg, tid)[u[0]].segment], u[1..], i, j, v);
      EntryStep(reg, tid, path, a);
      EntryStep(reg, tid, path, b);
    }
  }

  lemma EntryStep(reg: Registry, tid: TypeId, path: seq<string>, w: seq<nat>)
    requires reg.Valid() && tid in reg.registered && IsWalk(reg, tid, w) && w != []
    ensures var edge := Edges(reg, tid)[w[0]];
            Entry(reg, tid, path, w) == Entry(reg, edge.target, path + [edge.segment], w[1..])
  {
    var edge := Edges(reg, tid)[w[0]];
    assert path + Segments(reg, tid, w) == path + [edge.segment] + Segments(reg, edge.target, w[1..]);
  }

  /** Two different simple walks with the same entry are two places of the output. */
  lemma TwoPlaces(reg: Registry, processed: seq<TypeId>, path: seq<string>, tid: TypeId, v: seq<nat>, w: seq<nat>)
    requires reg.Valid() && tid in reg.registered && v != w
    requires IsSimple(reg, Stack(processed), tid, v) && IsSimple(reg, Stack(processed), tid, w)
    requires Entry(reg, tid, path, v) == Entry(reg, tid, path, w)
    ensures exists a, b :: 0 <= a < b < |Recorded(reg, processed, path, tid)| &&
                           Recorded(reg, processed, path, tid)[a] == Recorded(reg, processed, path, tid)[b] ==
                           Entry(reg, tid, path, v)
  {
    var found := Found(reg, Stack(processed), tid);
    FoundAreWalks(reg, Stack(processed), tid);
    FoundExactly(reg, Stack(processed), tid, v);
    FoundExactly(reg, Stack(processed), tid, w);
    var a :| 0 <= a < |found| && found[a] == v;
    var b :| 0 <= b < |found| && found[b] == w;
    var output := Recorded(reg, processed, path, tid);
    assert output[a] == output[b] == Entry(reg, tid, path, v);
    if a < b {
    } else {
      assert b < a;
    }
  }

  /**
   * A type with the same edge twice, reached by any walk, has every path through that edge recorded twice: for a
   * simple walk that takes the edge and goes on in any way, the output has its entry at two places.
   */
  lemma RepeatedEdgeRepeatsPath(reg: Registry, processed: seq<TypeId>, path: seq<string>, tid: TypeId,
                                u: seq<nat>, i: nat, j: nat, v: seq<nat>)
    requires reg.Valid() && tid in reg.registered && i != j && SameEdge(reg, tid, u, i, j)
    requires IsSimple(reg, Stack(processed), tid, u + [i] + v)
    ensures exists a, b :: 0 <= a < b < |Recorded(reg, processed, path, tid)| &&
                           Recorded(reg, processed, path, tid)[a] == Recorded(reg, processed, path, tid)[b] ==
                           Entry(reg, tid, path, u + [i] + v)
  {
    TakeOther(reg, Stack(processed), tid, path, u, i, j, v);
    assert (u + [i] + v)[|u|] == i && (u + [j] + v)[|u|] == j;
    TwoPlaces(reg, processed, path, tid, u + [i] + v, u + [j] + v);
  }

  // ----- two walks with the same segments -----

  /** Out of one type, the path segment says which edge was followed. */
  ghost predicate SegmentsNameEdges(reg: Registry)
    requires reg.Valid()
  {
    forall t, i, j :: t in reg.registered && 0 <= i < |Edges(reg, t)| && 0 <= j < |Edges(reg, t)| ==>
      Edges(reg, t)[i].segment == Edges(reg, t)[j].segment ==> Edges(reg, t)[i] == Edges(reg, t)[j]
  }

  /** The first place where two such walks differ has the same edge twice. */
  lemma {:induction false} FirstDifference(reg: Registry, stack: set<TypeId>, tid: TypeId, v: seq<nat>, w: seq<nat>)
      returns (u: seq<nat>, i: nat, j: nat)
    requires reg.Valid() && tid in reg.registered && SegmentsNameEdges(reg)
    requires IsSimple(reg, stack, tid, v) && IsSimple(reg, stack, tid, w) && v != w
    requires Segments(reg, tid, v) == Segments(reg, tid, w)
    ensures Twin(reg, stack, tid, u, i, j)
    decreases |v|
  {
    SegmentsLength(reg, tid, v);
    SegmentsLength(reg, tid, w);
    SimpleStep(reg, stack, tid, v);
    SimpleStep(reg, stack, tid, w);
    SegmentsStep(reg, tid, v, w);
    if v[0] == w[0] {
      var target := Target(reg, tid, v[0]);
      assert v == [v[0]] + v[1..] && w == [w[0]] + w[1..];
      u, i, j := FirstDifference(reg, stack + {tid}, target, v[1..], w[1..]);
      TwinUnder(reg, stack, tid, v[0], u, i, j);
      u := [v[0]] + u;
    } else {
      u, i, j := [], v[0], w[0];
      OneStep(reg, stack, tid, v);
      TwinHere(reg, stack, tid, i, j);
    }
  }

  lemma TwinHere(reg: Registry, stack: set<TypeId>, tid: TypeId, i: nat, j: nat)
    requires reg.Valid() && tid in reg.registered && i != j && i < |Edges(reg, tid)| && j < |Edges(reg, tid)|
    requires Edges(reg, tid)[i] == Edges(reg, tid)[j] && IsSimple(reg, stack, tid, [i])
    ensures Twin(reg, stack, tid, [], i, j)
  {
    assert [] + [i] == [i];
  }

  lemma {:induction false} SegmentsLength(reg: Registry, tid: TypeId, w: seq<nat>)
    requires reg.Valid() && tid in reg.registered && IsWalk(reg, tid, w)
    ensures |Segments(reg, tid, w)| == |w|
    decreases |w|
  {
    if w != [] {
      SegmentsLength(reg, Target(reg, tid, w[0]), w[1..]);
    }
  }

  lemma SegmentsStep(reg: Registry, tid: TypeId, v: seq<nat>, w: seq<nat>)
    requires reg.Valid() && tid in reg.registered && IsWalk(reg, tid, v) && IsWalk(reg, tid, w)
    requires v != [] && w != [] && Segments(reg, tid, v) == Segments(reg, tid, w)
    ensures Edges(reg, tid)[v[0]].segment == Edges(reg, tid)[w[0]].segment
    ensures Segments(reg, Target(reg, tid, v[0]), v[1..]) == Segments(reg, Target(reg, tid, w[0]), w[1..])
  {
    assert Segments(reg, tid, v)[1..] == Segments(reg, Target(reg, tid, v[0]), v[1..]);
    assert Segments(reg, tid, w)[1..] == Segments(reg, Target(reg, tid, w[0]), w[1..]);
    assert Segments(reg, tid, v)[0] == Segments(reg, tid, w)[0];
  }

  lemma TwinUnder(reg: Registry, stack: set<TypeId>, tid: TypeId, k: nat, u: seq<nat>, i: nat, j: nat)
    requires reg.Valid() && tid in reg.registered && tid !in stack && k < |Edges(reg, tid)|
    requires Twin(reg, stack + {tid}, Target(reg, tid, k), u, i, j)
    ensures Twin(reg, stack, tid, [k] + u, i, j)
  {
    assert ([k] + u)[1..] == u;
    assert ([k] + u + [i])[1..] == u + [i] && ([k] + u + [j])[1..] == u + [j];
    SimpleStep(reg, stack, tid, [k] + u + [i]);
    SimpleStep(reg, stack, tid, [k] + u + [j]);
  }

  /** The first step of a simple walk is a simple walk. */
  lemma OneStep(reg: Registry, stack: set<TypeId>, tid: TypeId, w: seq<nat>)
    requires reg.Valid() && tid in reg.registered && w != [] && IsSimple(reg, stack, tid, w)
    ensures IsSimple(reg, stack, tid, [w[0]])
  {
    SimpleStep(reg, stack, tid, w);
    SimpleStep(reg, stack, tid, [w[0]]);
    assert Visited(reg, Target(reg, tid, w[0]), w[1..])[0] == Target(reg, tid, w[0]);
  }

  // ----- rendering -----

  const MARK := "/[i]"

  /** A segment without a slash that is not the mark of a container itself. */
  predicate Plain(segment: string) {
    '/' !in segment && segment != "[i]"
  }

  /** A plain name and, if the search got there through a container attribute, the mark after it. */
  ghost predicate Parts(segment: string, name: string, mark: string) {
    segment == name + mark && Plain(name) && (mark == "" || mark == MARK)
  }

  ghost predicate ProperSegment(segment: string) {
    exists name, mark :: Parts(segment, name, mark)
  }

  ghost predicate Proper(path: seq<string>) {
    forall k :: 0 <= k < |path| ==> ProperSegment(path[k])
  }

  lemma ProperRest(path: seq<string>)
    requires Proper(path) && path != []
    ensures Proper(path[1..])
  {
  }

  lemma {:induction false} RenderAppend(path: seq<string>, more: seq<string>)
    ensures Render(path + more) == Render(path) + Render(more)
  {
    if more == [] {
      assert path + more == path;
    } else {
      var n := |more| - 1;
      RenderAppend(path, more[..n]);
      assert (path + more)[..|path + more| - 1] == path + more[..n];
    }
  }

  lemma RenderFirst(path: seq<string>)
    requires path != []
    ensures Render(path) == "/" + path[0] + Render(path[1..])
  {
    RenderAppend([path[0]], path[1..]);
    assert path == [path[0]] + path[1..];
    assert Render([path[0]]) == "/" + path[0] by {
      assert [path[0]][..0] == [];
    }
  }

  ghost predicate EmptyOrSlash(s: string) {
    s == "" || s[0] == '/'
  }

  /** The text before the first slash. */
  function Head(s: string): string {
    if s == "" || s[0] == '/' then "" else [s[0]] + Head(s[1..])
  }

  lemma {:induction false} HeadOf(name: string, rest: string)
    requires '/' !in name && EmptyOrSlash(rest)
    ensures Head(name + rest) == name
  {
    if name == "" {
      assert name + rest == rest;
    } else {
      HeadOf(name[1..], rest);
      assert (name + rest)[1..] == name[1..] + rest;
    }
  }

  lemma SplitAtSlash(x: string, s: string, y: string, t: string)
    requires '/' !in x && '/' !in y && EmptyOrSlash(s) && EmptyOrSlash(t) && x + s == y + t
    ensures x == y && s == t
  {
    HeadOf(x, s);
    HeadOf(y, t);
    assert s == (x + s)[|x|..] && t == (y + t)[|y|..];
  }

  lemma RenderSlash(path: seq<string>)
    ensures EmptyOrSlash(Render(path))
  {
    if path != [] {
      RenderFirst(path);
    }
  }

  /** The first part of a rendered path is the name in its first segment. */
  lemma RenderParts(path: seq<string>) returns (name: string, mark: string)
    requires Proper(path) && path != []
    ensures Parts(path[0], name, mark) && Render(path) == "/" + (name + (mark + Render(path[1..])))
    ensures EmptyOrSlash(mark + Render(path[1..]))
  {
    assert ProperSegment(path[0]);
    name, mark :| Parts(path[0], name, mark);
    RenderFirst(path);
    RenderSlash(path[1..]);
    Regroup("/", name, mark, Render(path[1..]));
  }

  lemma Regroup<T>(a: seq<T>, b: seq<T>, c: seq<T>, d: seq<T>)
    ensures a + (b + c) + d == a + (b + (c + d))
  {
  }

  lemma AfterSlash(s: string)
    ensures ("/" + s)[1..] == s
  {
  }

  lemma HeadOfMark(rest: string)
    requires EmptyOrSlash(rest)
    ensures Head((MARK + rest)[1..]) == "[i]"
  {
    HeadOf("[i]", rest);
    assert (MARK + rest)[1..] == "[i]" + rest;
  }

  /** The rendering of a proper path does not start with the mark of a container. */
  lemma NoMarkFirst(path: seq<string>, rest: string)
    requires Proper(path) && EmptyOrSlash(rest)
    ensures Render(path) != MARK + rest
  {
    HeadOfMark(rest);
    if path != [] {
      var name, mark := RenderParts(path);
      AfterSlash(name + (mark + Render(path[1..])));
      HeadOf(name, mark + Render(path[1..]));
    }
  }

  /** The marks of two segments are equal if what comes after them could not be taken for a mark. */
  lemma SameMark(mark: string, mark': string, rest: string, rest': string)
    requires (mark == "" || mark == MARK) && (mark' == "" || mark' == MARK) && mark + rest == mark' + rest'
    requires rest != MARK + rest' && rest' != MARK + rest
    ensures mark == mark' && rest == rest'
  {
    assert "" + rest == rest && "" + rest' == rest';
    assert (mark + rest)[|mark|..] == rest && (mark' + rest')[|mark'|..] == rest';
  }

  /** The first segments of two paths with one rendering are equal, and so are the renderings of the others. */
  lemma SameFirst(p: seq<string>, q: seq<string>)
    requires Proper(p) && Proper(q) && p != [] && q != [] && Render(p) == Render(q)
    ensures p[0] == q[0] && Render(p[1..]) == Render(q[1..])
  {
    ProperRest(p);
    ProperRest(q);
    var name, mark := RenderParts(p);
    var name', mark' := RenderParts(q);
    AfterSlash(name + (mark + Render(p[1..])));
    AfterSlash(name' + (mark' + Render(q[1..])));
    SplitAtSlash(name, mark + Render(p[1..]), name', mark' + Render(q[1..]));
    RenderSlash(p[1..]);
    RenderSlash(q[1..]);
    NoMarkFirst(p[1..], Render(q[1..]));
    NoMarkFirst(q[1..], Render(p[1..]));
    SameMark(mark, mark', Render(p[1..]), Render(q[1..]));
  }

  /** A rendered path can be read back: no two proper paths look the same. */
  lemma {:induction false} RenderInjective(p: seq<string>, q: seq<string>)
    requires Proper(p) && Proper(q) && Render(p) == Render(q)
    ensures p == q
    decreases |p|
  {
    if p != [] && q != [] {
      SameFirst(p, q);
      ProperRest(p);
      ProperRest(q);
      RenderInjective(p[1..], q[1..]);
      assert p == [p[0]] + p[1..] && q == [q[0]] + q[1..];
    } else if p != [] {
      RenderFirst(p);
    } else if q != [] {
      RenderFirst(q);
    }
  }

  // ----- names that tell edges apart -----

  /**
   * No two types have one name and no two attributes of a type do, and names contain neither slashes nor what
   * the search adds to them.
   */
  ghost predicate DistinctNames(reg: Registry) {
    && (forall t :: t in reg.names ==> '/' !in reg.names[t])
    && (forall s, t :: s in reg.names && t in reg.names && reg.names[s] == reg.names[t] ==> s == t)
    && (forall t :: t in reg.attributes ==> DistinctAttributes(reg.attributes[t]))
  }

  ghost predicate DistinctAttributes(attributes: seq<Attribute>) {
    && (forall a :: 0 <= a < |attributes| ==> Plain(attributes[a].name) && !Dollar(attributes[a].name))
    && (forall a, b :: 0 <= a < b < |attributes| ==> attributes[a].name != attributes[b].name)
  }

  predicate Dollar(segment: string) {
    segment != "" && segment[0] == '$'
  }

  ghost predicate FromAttribute(reg: Registry, attributes: seq<Attribute>, a: nat, e: Edge) {
    a < |attributes| && AttributeEdge(reg, attributes[a]) == [e]
  }

  /** The edge to a derived or aggregated type. */
  ghost predicate FromType(reg: Registry, e: Edge) {
    e.target in reg.names && e.segment == "$" + reg.names[e.target]
  }

  lemma {:induction false} AttributeOrigin(reg: Registry, attributes: seq<Attribute>, k: nat) returns (a: nat)
    requires k < |AttributeEdges(reg, attributes)|
    ensures FromAttribute(reg, attributes, a, AttributeEdges(reg, attributes)[k])
  {
    var n := |attributes| - 1;
    if k < |AttributeEdges(reg, attributes[..n])| {
      a := AttributeOrigin(reg, attributes[..n], k);
    } else {
      a := n;
    }
  }

  lemma {:induction false} ChildOrigin(reg: Registry, tid: TypeId, candidates: seq<TypeId>, k: nat)
    requires (forall t :: t in candidates ==> t in reg.names) && k < |ChildEdges(reg, tid, candidates)|
    ensures FromType(reg, ChildEdges(reg, tid, candidates)[k])
  {
    var n := |candidates| - 1;
    if k < |ChildEdges(reg, tid, candidates[..n])| {
      ChildOrigin(reg, tid, candidates[..n], k);
    }
  }

  lemma {:induction false} AggregateOrigin(reg: Registry, tid: TypeId, pairs: seq<(TypeId, TypeId)>, k: nat)
    requires forall m :: 0 <= m < |pairs| ==> pairs[m].0 in reg.names && pairs[m].1 in reg.names
    requires k < |AggregateEdges(reg, tid, pairs)|
    ensures FromType(reg, AggregateEdges(reg, tid, pairs)[k])
  {
    var n := |pairs| - 1;
    if k < |AggregateEdges(reg, tid, pairs[..n])| {
      AggregateOrigin(reg, tid, pairs[..n], k);
    }
  }

  lemma EdgeOrigin(reg: Registry, tid: TypeId, k: nat) returns (a: nat)
    requires reg.Valid() && tid in reg.registered && k < |Edges(reg, tid)|
    ensures FromType(reg, Edges(reg, tid)[k]) || FromAttribute(reg, reg.attributes[tid], a, Edges(reg, tid)[k])
  {
    var n := |AttributeEdges(reg, reg.attributes[tid])|;
    var m := n + |ChildEdges(reg, tid, reg.registered)|;
    a := 0;
    if k < n {
      a := AttributeOrigin(reg, reg.attributes[tid], k);
    } else if k < m {
      ChildOrigin(reg, tid, reg.registered, k - n);
    } else {
      AggregateOrigin(reg, tid, reg.aggregates, k - m);
    }
  }

  lemma AttributeParts(reg: Registry, attributes: seq<Attribute>, a: nat, e: Edge) returns (mark: string)
    requires DistinctAttributes(attributes) && FromAttribute(reg, attributes, a, e)
    ensures Parts(e.segment, attributes[a].name, mark) && !Dollar(e.segment)
  {
    mark := if attributes[a].checker.ContainerOf? then MARK else "";
    assert attributes[a].name + "" == attributes[a].name;
  }

  lemma TypeParts(reg: Registry, e: Edge)
    requires DistinctNames(reg) && FromType(reg, e)
    ensures Parts(e.segment, e.segment, "") && Dollar(e.segment)
  {
    var name := reg.names[e.target];
    assert e.segment + "" == e.segment && e.segment[0] == '$' && e.segment[1..] == name;
    assert "[i]"[0] == '[';
  }

  lemma SegmentProper(reg: Registry, tid: TypeId, k: nat)
    requires reg.Valid() && tid in reg.registered && DistinctNames(reg) && k < |Edges(reg, tid)|
    ensures ProperSegment(Edges(reg, tid)[k].segment)
  {
    var a := EdgeOrigin(reg, tid, k);
    var e := Edges(reg, tid)[k];
    if FromType(reg, e) {
      TypeParts(reg, e);
    } else {
      var mark := AttributeParts(reg, reg.attributes[tid], a, e);
    }
  }

  lemma SameAttribute(reg: Registry, attributes: seq<Attribute>, a: nat, d: Edge, b: nat, e: Edge)
    requires DistinctAttributes(attributes)
    requires FromAttribute(reg, attributes, a, d) && FromAttribute(reg, attributes, b, e)
    requires d.segment == e.segment
    ensures d == e
  {
    var mark := AttributeParts(reg, attributes, a, d);
    var mark' := AttributeParts(reg, attributes, b, e);
    SplitAtSlash(attributes[a].name, mark, attributes[b].name, mark');
    assert a == b;
  }

  lemma SameSegmentSameEdge(reg: Registry, tid: TypeId, i: nat, j: nat)
    requires reg.Valid() && tid in reg.registered && DistinctNames(reg)
    requires i < |Edges(reg, tid)| && j < |Edges(reg, tid)|
    requires Edges(reg, tid)[i].segment == Edges(reg, tid)[j].segment
    ensures Edges(reg, tid)[i] == Edges(reg, tid)[j]
  {
    var a := EdgeOrigin(reg, tid, i);
    var b := EdgeOrigin(reg, tid, j);
    var d, e := Edges(reg, tid)[i], Edges(reg, tid)[j];
    var attributes := reg.attributes[tid];
    if FromType(reg, d) && FromType(reg, e) {
      assert d.segment[1..] == reg.names[d.target] && e.segment[1..] == reg.names[e.target];
    } else if FromType(reg, d) {
      TypeParts(reg, d);
      var mark := AttributeParts(reg, attributes, b, e);
    } else if FromType(reg, e) {
      TypeParts(reg, e);
      var mark := AttributeParts(reg, attributes, a, d);
    } else {
      SameAttribute(reg, attributes, a, d, b, e);
    }
  }

  lemma DistinctNamesNameEdges(reg: Registry)
    requires reg.Valid() && DistinctNames(reg)
    ensures SegmentsNameEdges(reg)
  {
    forall t, i, j | t in reg.registered && 0 <= i < |Edges(reg, t)| && 0 <= j < |Edges(reg, t)|
      ensures Edges(reg, t)[i].segment == Edges(reg, t)[j].segment ==> Edges(reg, t)[i] == Edges(reg, t)[j]
    {
      if Edges(reg, t)[i].segment == Edges(reg, t)[j].segment {
        SameSegmentSameEdge(reg, t, i, j);
      }
    }
  }

  lemma {:induction false} SegmentsProper(reg: Registry, tid: TypeId, w: seq<nat>)
    requires reg.Valid() && tid in reg.registered && DistinctNames(reg) && IsWalk(reg, tid, w)
    ensures Proper(Segments(reg, tid, w))
    decreases |w|
  {
    if w != [] {
      SegmentProper(reg, tid, w[0]);
      SegmentsProper(reg, Target(reg, tid, w[0]), w[1..]);
    }
  }

  // ----- when the output has no repeated entry -----

  lemma SameEntrySameSegments(reg: Registry, tid: TypeId, path: seq<string>, v: seq<nat>, w: seq<nat>)
    requires reg.Valid() && tid in reg.registered && DistinctNames(reg)
    requires IsWalk(reg, tid, v) && IsWalk(reg, tid, w) && Entry(reg, tid, path, v) == Entry(reg, tid, path, w)
    ensures Segments(reg, tid, v) == Segments(reg, tid, w)
  {
    var p, q := Segments(reg, tid, v), Segments(reg, tid, w);
    SegmentsProper(reg, tid, v);
    SegmentsProper(reg, tid, w);
    RenderAppend(path, p);
    RenderAppend(path, q);
    SamePrefix(Render(path), Render(p), Render(q));
    RenderInjective(p, q);
  }

  lemma SamePrefix<T>(a: seq<T>, b: seq<T>, c: seq<T>)
    requires a + b == a + c
    ensures b == c
  {
    assert (a + b)[|a|..] == b && (a + c)[|a|..] == c;
  }

  lemma RepeatHasTwin(reg: Registry, processed: seq<TypeId>, path: seq<string>, tid: TypeId)
      returns (u: seq<nat>, i: nat, j: nat)
    requires reg.Valid() && tid in reg.registered && DistinctNames(reg)
    requires Repeats(Recorded(reg, processed, path, tid))
    ensures Twin(reg, Stack(processed), tid, u, i, j)
  {
    var found, output := Found(reg, Stack(processed), tid), Recorded(reg, processed, path, tid);
    FoundAreWalks(reg, Stack(processed), tid);
    var a, b :| 0 <= a < b < |output| && output[a] == output[b];
    FoundExactly(reg, Stack(processed), tid, found[a]);
    FoundExactly(reg, Stack(processed), tid, found[b]);
    FoundOnce(reg, Stack(processed), tid, a, b);
    SameEntrySameSegments(reg, tid, path, found[a], found[b]);
    DistinctNamesNameEdges(reg);
    u, i, j := FirstDifference(reg, Stack(processed), tid, found[a], found[b]);
  }

  /**
   * What a search records has a repeated entry if and only if the search reaches, by some simple walk, a type
   * that has the same edge twice and takes that edge to a type it has not been at.
   */
  lemma RepeatsIff(reg: Registry, processed: seq<TypeId>, path: seq<string>, tid: TypeId)
    requires reg.Valid() && tid in reg.registered && DistinctNames(reg)
    ensures Repeats(Recorded(reg, processed, path, tid)) <==>
            exists u, i, j :: Twin(reg, Stack(processed), tid, u, i, j)
  {
    if Repeats(Recorded(reg, processed, path, tid)) {
      var u, i, j := RepeatHasTwin(reg, processed, path, tid);
    }
    if u, i, j :| Twin(reg, Stack(processed), tid, u, i, j) {
      assert u + [i] + [] == u + [i];
      RepeatedEdgeRepeatsPath(reg, processed, path, tid, u, i, j, []);
    }
  }

  // ----- a run over several roots -----

  /** Walks from two roots that look alike and end at one type. */
  ghost predicate Alike(reg: Registry, r: TypeId, s: TypeId, v: seq<nat>, w: seq<nat>)
    requires reg.Valid() && r in reg.registered && s in reg.registered
  {
    && IsSimple(reg, {}, r, v) && IsSimple(reg, {}, s, w)
    && End(reg, r, v) == End(reg, s, w) && Segments(reg, r, v) == Segments(reg, s, w)
  }

  /** The searches from the two roots record some entry both. */
  ghost predicate Share(reg: Registry, r: TypeId, s: TypeId)
    requires reg.Valid() && r in reg.registered && s in reg.registered
  {
    Common(Recorded(reg, [], [], r), Recorded(reg, [], [], s))
  }

  lemma EntryParts(reg: Registry, r: TypeId, v: seq<nat>)
    requires reg.Valid() && r in reg.registered && IsWalk(reg, r, v)
    ensures Entry(reg, r, [], v) == (End(reg, r, v), Render(Segments(reg, r, v)))
  {
    EndIsLast(reg, r, v);
    assert [] + Segments(reg, r, v) == Segments(reg, r, v);
  }

  lemma ShareIff(reg: Registry, r: TypeId, s: TypeId)
    requires reg.Valid() && r in reg.registered && s in reg.registered && DistinctNames(reg)
    ensures Share(reg, r, s) <==> exists v, w :: Alike(reg, r, s, v, w)
  {
    if e :| e in Recorded(reg, [], [], r) && e in Recorded(reg, [], [], s) {
      RecordedMember(reg, r, e);
      RecordedMember(reg, s, e);
      var v :| IsSimple(reg, {}, r, v) && Entry(reg, r, [], v) == e;
      var w :| IsSimple(reg, {}, s, w) && Entry(reg, s, [], w) == e;
      EntryParts(reg, r, v);
      EntryParts(reg, s, w);
      SegmentsProper(reg, r, v);
      SegmentsProper(reg, s, w);
      RenderInjective(Segments(reg, r, v), Segments(reg, s, w));
      assert Alike(reg, r, s, v, w);
    }
    if v, w :| Alike(reg, r, s, v, w) {
      EntryParts(reg, r, v);
      EntryParts(reg, s, w);
      RecordedMember(reg, r, Entry(reg, r, [], v));
      RecordedMember(reg, s, Entry(reg, r, [], v));
    }
  }

  lemma RepeatsAppendIff<T(!new)>(xs: seq<T>, ys: seq<T>)
    ensures Repeats(xs + ys) <==> Repeats(xs) || Repeats(ys) || Common(xs, ys)
  {
    RepeatsAppend(xs, ys);
    if e :| e in xs && e in ys {
      var i :| 0 <= i < |xs| && xs[i] == e;
      var j :| 0 <= j < |ys| && ys[j] == e;
      assert (xs + ys)[i] == (xs + ys)[|xs| + j];
    }
    if i, j :| 0 <= i < j < |xs + ys| && (xs + ys)[i] == (xs + ys)[j] {
      if j < |xs| {
        assert xs[i] == xs[j];
      } else if i >= |xs| {
        assert ys[i - |xs|] == ys[j - |xs|];
      } else {
        assert xs[i] in xs && ys[j - |xs|] in ys;
      }
    }
  }

  lemma RepeatsAppend<T(!new)>(xs: seq<T>, ys: seq<T>)
    ensures Repeats(xs) || Repeats(ys) ==> Repeats(xs + ys)
  {
    if i, j :| 0 <= i < j < |xs| && xs[i] == xs[j] {
      assert (xs + ys)[i] == (xs + ys)[j];
    }
    if i, j :| 0 <= i < j < |ys| && ys[i] == ys[j] {
      assert (xs + ys)[|xs| + i] == (xs + ys)[|xs| + j];
    }
  }

  function Flat<T>(pieces: seq<seq<T>>): seq<T> {
    if pieces == [] then [] else Flat(pieces[..|pieces| - 1]) + pieces[|pieces| - 1]
  }

  ghost predicate Common<T(!new)>(xs: seq<T>, ys: seq<T>) {
    exists e :: e in xs && e in ys
  }

  lemma {:induction false} FlatMember<T>(pieces: seq<seq<T>>, e: T)
    ensures e in Flat(pieces) <==> exists a :: 0 <= a < |pieces| && e in pieces[a]
  {
    if pieces != [] {
      var n := |pieces| - 1;
      FlatMember(pieces[..n], e);
      if a :| 0 <= a < |pieces| && e in pieces[a] {
        assert a < n ==> pieces[..n][a] == pieces[a];
      }
    }
  }

  lemma FlatCommon<T(!new)>(pieces: seq<seq<T>>, ys: seq<T>)
    ensures Common(Flat(pieces), ys) <==> exists a :: 0 <= a < |pieces| && Common(pieces[a], ys)
  {
    if e :| e in Flat(pieces) && e in ys {
      FlatMember(pieces, e);
      var a :| 0 <= a < |pieces| && e in pieces[a];
      assert Common(pieces[a], ys);
    }
    if a :| 0 <= a < |pieces| && Common(pieces[a], ys) {
      var e :| e in pieces[a] && e in ys;
      FlatMember(pieces, e);
    }
  }

  /** A repetition is one within a piece, or one that two pieces share. */
  lemma {:induction false} FlatRepeats<T(!new)>(pieces: seq<seq<T>>)
    ensures Repeats(Flat(pieces)) <==>
            || (exists a :: 0 <= a < |pieces| && Repeats(pieces[a]))
            || (exists a, b :: 0 <= a < b < |pieces| && Common(pieces[a], pieces[b]))
  {
    if pieces != [] {
      var n := |pieces| - 1;
      var init := pieces[..n];
      FlatRepeats(init);
      FlatCommon(init, pieces[n]);
      RepeatsAppendIff(Flat(init), pieces[n]);
      assert forall a :: 0 <= a < n ==> init[a] == pieces[a];
    }
  }

  lemma FlatAppend<T>(pieces: seq<seq<T>>, piece: seq<T>)
    ensures Flat(pieces + [piece]) == Flat(pieces) + piece
  {
    assert (pieces + [piece])[..|pieces|] == pieces;
  }

  ghost function Pieces(reg: Registry, roots: seq<TypeId>): (pieces: seq<seq<(TypeId, string)>>)
    requires reg.Valid() && forall t :: t in roots ==> t in reg.registered
    ensures |pieces| == |roots|
  {
    if roots == [] then []
    else Pieces(reg, roots[..|roots| - 1]) + [Recorded(reg, [], [], roots[|roots| - 1])]
  }

  lemma {:induction false} PieceAt(reg: Registry, roots: seq<TypeId>, a: nat)
    requires reg.Valid() && (forall t :: t in roots ==> t in reg.registered) && a < |roots|
    ensures Pieces(reg, roots)[a] == Recorded(reg, [], [], roots[a])
  {
    var n := |roots| - 1;
    if a < n {
      PieceAt(reg, roots[..n], a);
    }
  }

  lemma {:induction false} PiecesFlat(reg: Registry, roots: seq<TypeId>)
    requires reg.Valid() && forall t :: t in roots ==> t in reg.registered
    ensures Flat(Pieces(reg, roots)) == RecordedFrom(reg, roots)
  {
    if roots != [] {
      var n := |roots| - 1;
      PiecesFlat(reg, roots[..n]);
      FlatAppend(Pieces(reg, roots[..n]), Recorded(reg, [], [], roots[n]));
    }
  }

  lemma RunRepeats(reg: Registry, roots: seq<TypeId>)
    requires reg.Valid() && forall t :: t in roots ==> t in reg.registered
    ensures Repeats(RecordedFrom(reg, roots)) <==>
            || (exists a :: 0 <= a < |roots| && Repeats(Recorded(reg, [], [], roots[a])))
            || (exists a, b :: 0 <= a < b < |roots| && Share(reg, roots[a], roots[b]))
  {
    PiecesFlat(reg, roots);
    var pieces := Pieces(reg, roots);
    FlatRepeats(pieces);
    forall a | 0 <= a < |roots|
      ensures pieces[a] == Recorded(reg, [], [], roots[a])
    {
      PieceAt(reg, roots, a);
    }
    forall a, b | 0 <= a < b < |roots|
      ensures Common(pieces[a], pieces[b]) <==> Share(reg, roots[a], roots[b])
    {
    }
  }

  /**
   * The output of a whole run has a repeated entry if and only if the search from some root takes an edge that is
   * there twice, or walks from two of the roots look alike and end at one type.
   */
  lemma RunRepeatsIff(reg: Registry, roots: seq<TypeId>)
    requires reg.Valid() && (forall t :: t in roots ==> t in reg.registered) && DistinctNames(reg)
    ensures Repeats(RecordedFrom(reg, roots)) <==>
            || (exists a, u, i, j :: 0 <= a < |roots| && Twin(reg, {}, roots[a], u, i, j))
            || (exists a, b, v, w :: 0 <= a < b < |roots| && Alike(reg, roots[a], roots[b], v, w))
  {
    RunRepeats(reg, roots);
    assert Stack([]) == {};
    forall a | 0 <= a < |roots|
      ensures Repeats(Recorded(reg, [], [], roots[a])) <==> exists u, i, j :: Twin(reg, {}, roots[a], u, i, j)
    {
      RepeatsIff(reg, [], [], roots[a]);
    }
    forall a, b | 0 <= a < b < |roots|
      ensures Share(reg, roots[a], roots[b]) <==> exists v, w :: Alike(reg, roots[a], roots[b], v, w)
    {
      ShareIff(reg, roots[a], roots[b]);
    }
  }

  /** No two roots are of one type or have a segment in common. */
  ghost predicate Apart(reg: Registry, roots: seq<TypeId>)
    requires reg.Valid() && forall t :: t in roots ==> t in reg.registered
  {
    forall a, b :: 0 <= a < b < |roots| ==> RootsApart(reg, roots[a], roots[b])
  }

  ghost predicate RootsApart(reg: Registry, r: TypeId, s: TypeId)
    requires reg.Valid() && r in reg.registered && s in reg.registered
  {
    && r != s
    && forall i, j :: 0 <= i < |Edges(reg, r)| && 0 <= j < |Edges(reg, s)| ==>
         Edges(reg, r)[i].segment != Edges(reg, s)[j].segment
  }

  /** Of such roots, as the lists of nodes and of channels are, no two walks look alike. */
  lemma ApartNotAlike(reg: Registry, r: TypeId, s: TypeId, v: seq<nat>, w: seq<nat>)
    requires reg.Valid() && r in reg.registered && s in reg.registered && RootsApart(reg, r, s)
    requires IsWalk(reg, r, v) && IsWalk(reg, s, w)
    ensures End(reg, r, v) != End(reg, s, w) || Segments(reg, r, v) != Segments(reg, s, w)
  {
    SegmentsLength(reg, r, v);
    SegmentsLength(reg, s, w);
    if v != [] && w != [] {
      assert Segments(reg, r, v)[0] == Edges(reg, r)[v[0]].segment;
      assert Segments(reg, s, w)[0] == Edges(reg, s)[w[0]].segment;
    }
  }

  lemma ApartRunRepeatsIff(reg: Registry, roots: seq<TypeId>)
    requires reg.Valid() && (forall t :: t in roots ==> t in reg.registered) && DistinctNames(reg) && Apart(reg, roots)
    ensures Repeats(RecordedFrom(reg, roots)) <==>
            exists a, u, i, j :: 0 <= a < |roots| && Twin(reg, {}, roots[a], u, i, j)
  {
    RunRepeatsIff(reg, roots);
    forall a, b, v, w | 0 <= a < b < |roots|
      ensures !Alike(reg, roots[a], roots[b], v, w)
    {
      if IsWalk(reg, roots[a], v) && IsWalk(reg, roots[b], w) {
        ApartNotAlike(reg, roots[a], roots[b], v, w);
      }
    }
  }

  // ----- an aggregation that is recorded twice -----

  /** Two aggregations of `t` with one other type are the same edge of `t` at two places. */
  lemma AggregatedTwice(reg: Registry, t: TypeId, x: TypeId, m: nat, n: nat) returns (i: nat, j: nat)
    requires reg.Valid() && t in reg.registered && x in reg.registered && m < n < |reg.aggregates|
    requires reg.aggregates[m] == reg.aggregates[n] == (t, x)
    ensures i < j < |Edges(reg, t)| && Edges(reg, t)[i] == Edges(reg, t)[j] == Edge("$" + reg.names[x], x)
  {
    NextAggregate(reg, t, m);
    NextAggregate(reg, t, n);
    AggregatesInOrder(reg, t, m + 1, n);
    i, j := AggregatesBefore(reg, t, m), AggregatesBefore(reg, t, n);
  }

  lemma AggregatesInOrder(reg: Registry, t: TypeId, m: nat, n: nat)
    requires reg.Valid() && t in reg.registered && m <= n <= |reg.aggregates|
    ensures AggregatesBefore(reg, t, m) <= AggregatesBefore(reg, t, n)
  {
    AggregatePrefix(reg, t, reg.aggregates[..n], m);
    assert reg.aggregates[..n][..m] == reg.aggregates[..m];
  }

  /** From the root along edge `k` to `t`, and on to a type that `t` is aggregated with twice: the output repeats. */
  lemma AggregateBelowRoot(reg: Registry, root: TypeId, k: nat, t: TypeId, x: TypeId, m: nat, n: nat)
    requires reg.Valid() && root in reg.registered && x in reg.registered && m < n < |reg.aggregates|
    requires k < |Edges(reg, root)| && Target(reg, root, k) == t && root != t && t != x && x != root
    requires reg.aggregates[m] == reg.aggregates[n] == (t, x)
    ensures Repeats(Recorded(reg, [], [], root))
  {
    var i, j := AggregatedTwice(reg, t, x, m, n);
    var w := [k] + [i];
    assert [k][1..] == [] && w[1..] == [i] && [i][1..] == [] && w + [] == w;
    assert IsWalk(reg, t, [i]);
    assert Visited(reg, t, [i]) == [t, x];
    assert Visited(reg, root, w) == [root, t, x];
    assert End(reg, root, [k]) == t && SameEdge(reg, root, [k], i, j);
    RepeatedEdgeRepeatsPath(reg, [], [], root, [k], i, j, []);
  }

  /**
   * What the tree does: among any other aggregations the same pair is recorded twice, its first type is what one
   * of the root objects contains, and all of the run's output has a repeated entry.
   */
  lemma RecordedTwiceRepeats(types: Registry, pairs: seq<(string, string)>, roots: seq<TypeId>,
                             m: nat, n: nat, r: nat, k: nat, t: TypeId, x: TypeId)
    requires types.Valid() && types.aggregates == [] && forall root :: root in roots ==> root in types.registered
    requires m < n < |pairs| && pairs[m] == pairs[n] && Resolved(types, pairs[m]) == [(t, x)] && t != x
    requires r < |roots| && roots[r] != t && roots[r] != x
    requires k < |types.attributes[roots[r]]| && types.attributes[roots[r]][k].checker == ContainerOf(t)
    ensures types.(aggregates := AllResolved(types, pairs)).Valid()
    ensures Repeats(RecordedFrom(types.(aggregates := AllResolved(types, pairs)), roots))
  {
    var reg := types.(aggregates := AllResolved(types, pairs));
    var f := (pair: (string, string)) => Resolved(types, pair);
    ResolvedRegistered(types, pairs);
    var p, q := YieldedTwice(pairs, f, m, n, (t, x));
    NextAttribute(reg, roots[r], k);
    var edge := AttributesBefore(reg, roots[r], k);
    assert Target(reg, roots[r], edge) == t;
    AggregateBelowRoot(reg, roots[r], edge, t, x, p, q);
    RunRepeats(reg, roots);
  }

  lemma ResolvedRegistered(types: Registry, pairs: seq<(string, string)>)
    requires types.Valid()
    ensures types.(aggregates := AllResolved(types, pairs)).Valid()
  {
    var f := (pair: (string, string)) => Resolved(types, pair);
    var all := AllResolved(types, pairs);
    forall i | 0 <= i < |all|
      ensures all[i].0 in types.registered && all[i].1 in types.registered
    {
      YieldMember(pairs, f, all[i]);
    }
  }

  // ----- the node list -----

  const NODE := "ns3::Node"
  const PROTOCOL := "ns3::Icmpv4L4Protocol"

  /** Object, the node list, Node, and the protocol whose aggregation with Node is recorded twice. */
  function NodeTypes(): Registry {
    Registry([0, 1, 2, 3], map[0 := "ns3::Object", 1 := "ns3::NodeListPriv", 2 := NODE, 3 := PROTOCOL],
             map[0 := [], 1 := [Attribute("NodeList", ContainerOf(2))], 2 := [], 3 := []],
             {(1, 0), (2, 0), (3, 0)}, [], 0)
  }

  lemma NamesDiffer()
    ensures NODE != PROTOCOL && NODE != "ns3::Object" && NODE != "ns3::NodeListPriv"
    ensures PROTOCOL != "ns3::Object" && PROTOCOL != "ns3::NodeListPriv"
  {
    assert |NODE| == 9 && |PROTOCOL| == 21;
  }

  lemma NodeTypesFound()
    ensures Lookup(NodeTypes(), NODE, [0, 1, 2, 3]) == Some(2) && Lookup(NodeTypes(), PROTOCOL, [0, 1, 2, 3]) == Some(3)
  {
    NamesDiffer();
    assert [0, 1, 2, 3][..3] == [0, 1, 2];
  }

  lemma NodeTypesValid()
    ensures NodeTypes().Valid()
  {
    var types := NodeTypes();
    assert types.registered[0] == 0 && types.registered[1] == 1 && types.registered[2] == 2 && types.registered[3] == 3;
  }

  lemma NodeTypesResolved()
    ensures Resolved(NodeTypes(), (NODE, PROTOCOL)) == [(2, 3)]
  {
    NodeTypesFound();
    assert NodeTypes().registered == [0, 1, 2, 3];
  }

  lemma NodeListRepeats()
    ensures var types := NodeTypes();
            var reg := types.(aggregates := AllResolved(types, [(NODE, PROTOCOL), (NODE, PROTOCOL)]));
            reg.Valid() && Repeats(RecordedFrom(reg, [1]))
  {
    var types, pairs := NodeTypes(), [(NODE, PROTOCOL), (NODE, PROTOCOL)];
    NodeTypesValid();
    NodeTypesResolved();
    assert types.registered[1] == 1;
    assert types.attributes[1][0].checker == ContainerOf(2);
    RecordedTwiceRepeats(types, pairs, [1], 0, 1, 0, 0, 2, 3);
  }
}
