/**
 * The searches of utils/grid.py: TimelineDataRange finds the ranges in a time span, TimelineEvent the events.
 * Both search by bisection; that the lists are sorted by time is an assumption.
 */
module Timelines {

  datatype Range = Range(start: int, end: int, value: string) {
    predicate Covers(key: int) { start <= key <= end }
  }

  datatype Event = Event(at: int, value: string)

  /** The elements at positions [from, to), with both bounds clipped to the list as Python does. */
  function Slice<T>(xs: seq<T>, from: nat, to: nat): seq<T> {
    var hi := if to < |xs| then to else |xs|;
    if from < hi then xs[from..hi] else []
  }

  /** The kept elements among the first `n`, in order. */
  function Kept<T>(xs: seq<T>, keep: T -> bool, n: nat): seq<T>
    requires n <= |xs|
  {
    if n == 0 then [] else Kept(xs, keep, n - 1) + if keep(xs[n - 1]) then [xs[n - 1]] else []
  }

  function Filter<T>(xs: seq<T>, keep: T -> bool): seq<T> {
    Kept(xs, keep, |xs|)
  }

  /** Of the first `n` elements, those at positions [from, to). */
  function FirstOf<T>(xs: seq<T>, from: nat, to: nat, n: nat): seq<T>
    requires from <= to <= |xs| && n <= |xs|
  {
    if n <= from then [] else xs[from..if n < to then n else to]
  }

  lemma FirstOfNext<T>(xs: seq<T>, from: nat, to: nat, n: nat)
    requires from <= to <= |xs| && n < |xs|
    ensures FirstOf(xs, from, to, n + 1) == FirstOf(xs, from, to, n) + if from <= n < to then [xs[n]] else []
  {
    if from <= n < to {
      assert xs[from..n + 1] == xs[from..n] + [xs[n]];
    }
  }

  lemma {:induction false} KeptIsSlice<T>(xs: seq<T>, keep: T -> bool, from: nat, to: nat, n: nat)
    requires from <= to <= |xs| && n <= |xs|
    requires forall k :: 0 <= k < n ==> (keep(xs[k]) <==> from <= k < to)
    ensures Kept(xs, keep, n) == FirstOf(xs, from, to, n)
  {
    if n > 0 {
      KeptIsSlice(xs, keep, from, to, n - 1);
      FirstOfNext(xs, from, to, n - 1);
    }
  }

  /** If exactly the elements at positions [from, to) are kept, the filter is that slice. */
  lemma FilterIsSlice<T>(xs: seq<T>, keep: T -> bool, from: nat, to: nat)
    requires from <= to <= |xs|
    requires forall k :: 0 <= k < |xs| ==> (keep(xs[k]) <==> from <= k < to)
    ensures Filter(xs, keep) == xs[from..to]
  {
    KeptIsSlice(xs, keep, from, to, |xs|);
  }

  // ----- ranges -----

  /** No range is reversed, and each ends before the next one starts. */
  ghost predicate Ordered(ranges: seq<Range>) {
    && (forall i :: 0 <= i < |ranges| ==> ranges[i].start <= ranges[i].end)
    && (forall i, j :: 0 <= i < j < |ranges| ==> ranges[i].end < ranges[j].start)
  }

  ghost predicate Covered(ranges: seq<Range>, key: int) {
    exists i :: 0 <= i < |ranges| && ranges[i].Covers(key)
  }

  ghost predicate IsCover(ranges: seq<Range>, key: int, i: int) {
    if i == -1 then !Covered(ranges, key) else 0 <= i < |ranges| && ranges[i].Covers(key)
  }

  /** The branches of get_ranges, from the results of the two searches. */
  function Found(ranges: seq<Range>, s: int, e: int): seq<Range>
    requires -1 <= s && -1 <= e
  {
    if s == -1 && e == -1 then []
    else if s == -1 then Slice(ranges, 0, e + 1)
    else if e == -1 then Slice(ranges, s, |ranges|)
    else Slice(ranges, s, e + 1)
  }

  ghost function Meets(start: int, end: int): Range -> bool {
    (r: Range) => r.start <= end && start <= r.end
  }

  /**
   * When get_ranges is exact: with neither end covered, if no range meets the span; otherwise, if the end that no
   * range covers, should there be one, is beyond all the ranges on its side.
   */
  ghost predicate ExactSpan(ranges: seq<Range>, start: int, end: int) {
    if !Covered(ranges, start) && !Covered(ranges, end) then
      forall i :: 0 <= i < |ranges| ==> ranges[i].end < start || end < ranges[i].start
    else
      && (Covered(ranges, start) || start < ranges[0].start)
      && (Covered(ranges, end) || ranges[|ranges| - 1].end < end)
  }

  /** The first position whose range does not end before `key`. */
  lemma {:induction false} Boundary(ranges: seq<Range>, key: int, n: nat) returns (lo: nat)
    requires Ordered(ranges) && n <= |ranges|
    ensures lo <= n && forall i :: 0 <= i < lo ==> ranges[i].end < key
    ensures forall i :: lo <= i < n ==> key <= ranges[i].end
  {
    if n == 0 || ranges[n - 1].end < key {
      lo := n;
    } else {
      lo := Boundary(ranges, key, n - 1);
    }
  }

  lemma {:induction false} UpperBoundary(ranges: seq<Range>, key: int, n: nat) returns (hi: nat)
    requires Ordered(ranges) && n <= |ranges|
    ensures hi <= n && forall i :: 0 <= i < hi ==> ranges[i].start <= key
    ensures forall i :: hi <= i < n ==> key < ranges[i].start
  {
    if n == 0 || ranges[n - 1].start <= key {
      hi := n;
    } else {
      hi := UpperBoundary(ranges, key, n - 1);
    }
  }

  /** The ranges that meet the span are the positions [lo, hi), and how the two searches relate to them. */
  lemma MeetingRanges(ranges: seq<Range>, start: int, end: int, s: int, e: int) returns (lo: nat, hi: nat)
    requires Ordered(ranges) && start <= end && IsCover(ranges, start, s) && IsCover(ranges, end, e)
    ensures lo <= hi <= |ranges| && Filter(ranges, Meets(start, end)) == ranges[lo..hi]
    ensures forall i :: 0 <= i < lo ==> ranges[i].end < start
    ensures forall i :: lo <= i < |ranges| ==> start <= ranges[i].end
    ensures forall i :: 0 <= i < hi ==> ranges[i].start <= end
    ensures forall i :: hi <= i < |ranges| ==> end < ranges[i].start
    ensures s != -1 ==> s == lo < hi
    ensures e != -1 ==> e + 1 == hi && lo < hi
  {
    lo := Boundary(ranges, start, |ranges|);
    hi := UpperBoundary(ranges, end, |ranges|);
    assert hi < |ranges| ==> ranges[hi].start <= ranges[hi].end;
    assert lo < |ranges| ==> ranges[lo].start <= ranges[lo].end;
    assert 0 < hi ==> ranges[hi - 1].start <= ranges[hi - 1].end;
    FilterIsSlice(ranges, Meets(start, end), lo, hi);
  }

  /**
   * What get_ranges returns always includes the ranges that meet the span when at least one end of it is
   * covered by a range; it is exactly those ranges if and only if the span is exact.
   */
  lemma FoundExactIff(ranges: seq<Range>, start: int, end: int, s: int, e: int)
    requires Ordered(ranges) && start <= end && IsCover(ranges, start, s) && IsCover(ranges, end, e)
    ensures Found(ranges, s, e) == Filter(ranges, Meets(start, end)) <==> ExactSpan(ranges, start, end)
    ensures s != -1 || e != -1 ==>
              forall r :: r in ranges && Meets(start, end)(r) ==> r in Found(ranges, s, e)
  {
    var lo, hi := MeetingRanges(ranges, start, end, s, e);
    if s == -1 && e == -1 {
      assert ranges[lo..hi] == [] <==> lo == hi;
      if lo < hi {
        assert !(ranges[lo].end < start || end < ranges[lo].start);
      }
    } else {
      var from, to := if s == -1 then 0 else s, if e == -1 then |ranges| else e + 1;
      assert from <= lo < hi <= to && Found(ranges, s, e) == ranges[from..to];
      assert |ranges[from..to]| == |ranges[lo..hi]| <==> from == lo && to == hi;
      assert from == lo <==> Covered(ranges, start) || start < ranges[0].start by {
        if s == -1 && lo == 0 {
          assert !ranges[0].Covers(start);
        }
      }
      assert to == hi <==> Covered(ranges, end) || ranges[|ranges| - 1].end < end by {
        if e == -1 && hi == |ranges| {
          assert !ranges[|ranges| - 1].Covers(end);
        }
      }
      forall r | r in ranges && Meets(start, end)(r)
        ensures r in Found(ranges, s, e)
      {
        var i :| 0 <= i < |ranges| && ranges[i] == r;
        assert lo <= i < hi && ranges[from..to][i - from] == r;
      }
    }
  }

  ghost function StartsBy(end: int): Range -> bool {
    (r: Range) => r.start <= end
  }

  ghost function EndsFrom(start: int): Range -> bool {
    (r: Range) => start <= r.end
  }

  /**
   * What get_ranges returns, by the ends of the span that are covered: with both, the ranges that meet the span;
   * with one, all ranges on the open side of the other end; with neither, nothing.
   */
  lemma FoundIs(ranges: seq<Range>, start: int, end: int, s: int, e: int)
    requires Ordered(ranges) && start <= end && IsCover(ranges, start, s) && IsCover(ranges, end, e)
    ensures Found(ranges, s, e) ==
            if Covered(ranges, start) && Covered(ranges, end) then Filter(ranges, Meets(start, end))
            else if Covered(ranges, end) then Filter(ranges, StartsBy(end))
            else if Covered(ranges, start) then Filter(ranges, EndsFrom(start))
            else []
  {
    var lo, hi := MeetingRanges(ranges, start, end, s, e);
    FilterIsSlice(ranges, StartsBy(end), 0, hi);
    FilterIsSlice(ranges, EndsFrom(start), lo, |ranges|);
  }

  /** A range strictly inside the span is not found. */
  lemma RangeInsideMissed(value: string)
    ensures var ranges := [Range(2, 3, value)];
            && Ordered(ranges) && IsCover(ranges, 0, -1) && IsCover(ranges, 5, -1) && !ExactSpan(ranges, 0, 5)
            && Found(ranges, -1, -1) == [] && Filter(ranges, Meets(0, 5)) == ranges
  {
    var ranges := [Range(2, 3, value)];
    FilterIsSlice(ranges, Meets(0, 5), 0, 1);
    assert ranges[0].end == 3 && ranges[0].start == 2;
  }

  class TimelineDataRange {
    var ranges: seq<Range>

    constructor ()
      ensures ranges == []
    {
      ranges := [];
    }

    method AddRange(range: Range)
      modifies this
      ensures ranges == old(ranges) + [range]
    {
      ranges := ranges + [range];
    }

    /** The binary search; on ordered ranges it fails only if no range covers the key. */
    method Search(key: int) returns (i: int)
      ensures -1 <= i && (i != -1 ==> i < |ranges| && ranges[i].Covers(key))
      ensures Ordered(ranges) ==> IsCover(ranges, key, i)
    {
      var l, u := 0, |ranges| - 1;
      while l <= u
        invariant 0 <= l <= u + 1 <= |ranges|
        invariant Ordered(ranges) ==> forall k :: 0 <= k < l || u < k < |ranges| ==> !ranges[k].Covers(key)
        decreases u - l
      {
        i := (l + u) / 2;
        if ranges[i].start <= key <= ranges[i].end {
          return;
        } else if key < ranges[i].start {
          u := i - 1;
        } else {
          l := i + 1;
        }
      }
      i := -1;
    }

    method GetRanges(start: int, end: int) returns (found: seq<Range>)
      ensures Ordered(ranges) && start <= end ==>
                (found == Filter(ranges, Meets(start, end)) <==> ExactSpan(ranges, start, end))
      ensures Ordered(ranges) && start <= end && (Covered(ranges, start) || Covered(ranges, end)) ==>
                forall r :: r in ranges && Meets(start, end)(r) ==> r in found
      ensures exists from: nat, to: nat :: found == Slice(ranges, from, to)
    {
      var s := Search(start);
      var e := Search(end);
      if s == -1 && e == -1 {
        found := [];
        assert found == Slice(ranges, 0, 0);
      } else if s == -1 {
        found := Slice(ranges, 0, e + 1);
      } else if e == -1 {
        found := Slice(ranges, s, |ranges|);
      } else {
        found := Slice(ranges, s, e + 1);
      }
      if Ordered(ranges) && start <= end {
        FoundExactIff(ranges, start, end, s, e);
      }
    }
  }

  // ----- events -----

  /** In order of time; several events may be at one time. */
  ghost predicate Ascending(events: seq<Event>) {
    forall i, j :: 0 <= i < j < |events| ==> events[i].at <= events[j].at
  }

  /** The first position at or after `key`. */
  ghost predicate IsLowerBound(events: seq<Event>, key: int, i: nat) {
    && i <= |events|
    && (forall k :: 0 <= k < i ==> events[k].at < key)
    && (forall k :: i <= k < |events| ==> key <= events[k].at)
  }

  ghost function During(start: int, end: int): Event -> bool {
    (e: Event) => start <= e.at <= end
  }

  /** The first event after `end`, if no event is exactly at `end`. */
  ghost function Trailing(events: seq<Event>, end: int): seq<Event> {
    if events == [] then []
    else if events[0].at < end then Trailing(events[1..], end)
    else if events[0].at == end then []
    else [events[0]]
  }

  lemma {:induction false} TrailingAt(events: seq<Event>, end: int, e: nat)
    requires IsLowerBound(events, end, e)
    ensures Trailing(events, end) == if e < |events| && end < events[e].at then [events[e]] else []
  {
    if 0 < e {
      TrailingAt(events[1..], end, e - 1);
    }
  }

  /** Where the bisection of [l, u] ends: at some event at `key`, or where one would have to be. */
  function Probe(events: seq<Event>, key: int, l: nat, u: int): (i: nat)
    requires l <= u + 1 <= |events|
    ensures l <= i <= u + 1
    decreases u + 1 - l
  {
    if l > u then l
    else
      var m := (l + u) / 2;
      if key == events[m].at then m
      else if key < events[m].at then Probe(events, key, l, m - 1)
      else Probe(events, key, m + 1, u)
  }

  function Position(events: seq<Event>, key: int): (i: nat)
    ensures i <= |events|
  {
    Probe(events, key, 0, |events| - 1)
  }

  /** An event at `key`, with neighbours at the same time possible on both sides; or, without one, its place. */
  ghost predicate IsPlace(events: seq<Event>, key: int, i: nat) {
    && i <= |events|
    && (forall k :: 0 <= k < i ==> events[k].at <= key)
    && (forall k :: i <= k < |events| ==> key <= events[k].at)
    && ((i < |events| && events[i].at == key) || forall k :: 0 <= k < |events| ==> events[k].at != key)
  }

  lemma {:induction false} ProbePlace(events: seq<Event>, key: int, l: nat, u: int)
    requires Ascending(events) && l <= u + 1 <= |events|
    requires (forall k :: 0 <= k < l ==> events[k].at < key) && (forall k :: u < k < |events| ==> key < events[k].at)
    ensures IsPlace(events, key, Probe(events, key, l, u))
    decreases u + 1 - l
  {
    if l <= u {
      var m := (l + u) / 2;
      if key < events[m].at {
        ProbePlace(events, key, l, m - 1);
      } else if events[m].at < key {
        ProbePlace(events, key, m + 1, u);
      } else {
        PlaceHit(events, m);
      }
    }
  }

  lemma PlaceHit(events: seq<Event>, m: nat)
    requires Ascending(events) && m < |events|
    ensures IsPlace(events, events[m].at, m)
  {
  }

  lemma PositionIsPlace(events: seq<Event>, key: int)
    requires Ascending(events)
    ensures IsPlace(events, key, Position(events, key))
  {
    ProbePlace(events, key, 0, |events| - 1);
  }

  lemma {:induction false} LowerBound(events: seq<Event>, key: int) returns (lo: nat)
    requires Ascending(events)
    ensures IsLowerBound(events, key, lo)
  {
    var n := |events| - 1;
    if events == [] || events[n].at < key {
      lo := |events|;
    } else {
      lo := LowerBound(events[..n], key);
    }
  }

  /** No event at `start` is before position `s`, and none at `end` after position `e`. */
  ghost predicate WholeSpan(events: seq<Event>, start: int, end: int, s: nat, e: nat)
    requires s <= |events| && e <= |events|
  {
    (s > 0 ==> events[s - 1].at < start) && (e + 1 < |events| ==> end < events[e + 1].at)
  }

  lemma PlacesInOrder(events: seq<Event>, start: int, end: int)
    requires Ascending(events) && start <= end
    ensures Position(events, start) <= Position(events, end)
    ensures IsPlace(events, start, Position(events, start)) && IsPlace(events, end, Position(events, end))
  {
    PositionIsPlace(events, start);
    PositionIsPlace(events, end);
    var s, e := Position(events, start), Position(events, end);
    if start < end && e < |events| {
      assert end <= events[e].at;
    }
  }

  /** The events at `key` are the positions [lo, hi); where among them a search ended. */
  lemma PlaceAmong(events: seq<Event>, key: int, i: nat, lo: nat, hi: nat)
    requires IsPlace(events, key, i) && IsLowerBound(events, key, lo) && IsLowerBound(events, key + 1, hi)
    ensures lo <= i <= hi && (if lo < hi then i < hi else i == lo)
    ensures i == lo <==> (i > 0 ==> events[i - 1].at < key)
    ensures lo < hi ==> (i + 1 == hi <==> (i + 1 < |events| ==> key < events[i + 1].at))
    ensures lo == hi && i + 1 < |events| ==> key < events[i + 1].at
  {
    if lo < hi {
      assert key <= events[lo].at < key + 1;
    }
    assert i > lo ==> key <= events[i - 1].at;
    assert 0 < i == lo ==> events[i - 1].at < key;
    assert i + 1 < hi ==> events[i + 1].at < key + 1;
    assert i + 1 < |events| && hi <= i + 1 ==> key + 1 <= events[i + 1].at;
  }

  /** With both ends of the span placed among the events. */
  lemma SliceWholeIff(events: seq<Event>, start: int, end: int, s: nat, e: nat)
    requires Ascending(events) && start <= end && s <= e && IsPlace(events, start, s) && IsPlace(events, end, e)
    ensures Slice(events, s, e + 1) == Filter(events, During(start, end)) + Trailing(events, end) <==>
            WholeSpan(events, start, end, s, e)
  {
    var lo := LowerBound(events, start);
    var afterStart := LowerBound(events, start + 1);
    var at := LowerBound(events, end);
    var hi := LowerBound(events, end + 1);
    PlaceAmong(events, start, s, lo, afterStart);
    PlaceAmong(events, end, e, at, hi);
    TrailingBetween(events, end, at, hi);
    FilterIsSlice(events, During(start, end), lo, hi);
    SlicesCompared(events, s, e, lo, at, hi);
  }

  lemma TrailingBetween(events: seq<Event>, end: int, at: nat, hi: nat)
    requires IsLowerBound(events, end, at) && IsLowerBound(events, end + 1, hi) && at <= hi
    ensures Trailing(events, end) == if at < hi || hi == |events| then [] else [events[hi]]
  {
    TrailingAt(events, end, at);
    assert at < hi ==> events[at].at < end + 1;
    assert at == hi < |events| ==> end + 1 <= events[at].at;
  }

  /** The slice from one position to the other, both included. */
  function Between(events: seq<Event>, start: int, end: int): seq<Event> {
    Slice(events, Position(events, start), Position(events, end) + 1)
  }

  /**
   * What get_events returns on a sorted list is all the events of the span, and the one after them if none is at
   * its end, if and only if neither search stopped beside another event of the span.
   */
  lemma EventsFoundIff(events: seq<Event>, start: int, end: int)
    requires Ascending(events) && start <= end
    ensures Between(events, start, end) == Filter(events, During(start, end)) + Trailing(events, end) <==>
            WholeSpan(events, start, end, Position(events, start), Position(events, end))
  {
    PlacesInOrder(events, start, end);
    SliceWholeIff(events, start, end, Position(events, start), Position(events, end));
  }

  /** The slice to `e` against the positions [lo, hi), and the next one if [at, hi) is empty. */
  lemma SlicesCompared<T>(xs: seq<T>, s: nat, e: nat, lo: nat, at: nat, hi: nat)
    requires lo <= s <= e <= hi <= |xs| && at <= hi && (if at < hi then e < hi else e == hi)
    ensures Slice(xs, s, e + 1) == xs[lo..hi] + (if at < hi || hi == |xs| then [] else [xs[hi]]) <==>
            s == lo && (at < hi ==> e + 1 == hi)
  {
    SliceEnd(xs, s, e);
    var trailing := if at < hi || hi == |xs| then [] else [xs[hi]];
    assert |xs[lo..hi] + trailing| == hi - lo + |trailing|;
    if at < hi {
      assert |Slice(xs, s, e + 1)| == e + 1 - s;
    } else {
      assert |Slice(xs, s, e + 1)| == e - s + |trailing|;
    }
  }

  predicate BothAt(d: Event, e: Event, key: int) {
    d.at == key && e.at == key
  }

  /** At most one event is at `key`. */
  ghost predicate AloneAt(events: seq<Event>, key: int) {
    forall i, j :: 0 <= i < j < |events| ==> !BothAt(events[i], events[j], key)
  }

  /** With at most one event at either end of the span, nothing is missing. */
  lemma EventsFound(events: seq<Event>, start: int, end: int)
    requires Ascending(events) && start <= end && AloneAt(events, start) && AloneAt(events, end)
    ensures Between(events, start, end) ==
            Filter(events, During(start, end)) + Trailing(events, end)
  {
    EventsFoundIff(events, start, end);
    PlacesInOrder(events, start, end);
    AloneInPlace(events, start, Position(events, start));
    AloneInPlace(events, end, Position(events, end));
  }

  lemma AloneInPlace(events: seq<Event>, key: int, i: nat)
    requires IsPlace(events, key, i) && AloneAt(events, key)
    ensures (i > 0 ==> events[i - 1].at < key) && (i + 1 < |events| ==> key < events[i + 1].at)
  {
    if 0 < i < |events| {
      assert !BothAt(events[i - 1], events[i], key);
    }
    if i + 1 < |events| {
      assert !BothAt(events[i], events[i + 1], key);
    }
  }

  /** What get_events returns is all events of the span, and the next one if none is at its end. */
  ghost predicate Complete(events: seq<Event>, start: int, end: int) {
    Between(events, start, end) == Filter(events, During(start, end)) + Trailing(events, end)
  }

  /** When the answer to a span is complete, exactly, and how a caller can tell beforehand. */
  lemma CompleteAnswer(events: seq<Event>, start: int, end: int)
    requires Ascending(events) && start <= end
    ensures Complete(events, start, end) <==>
            WholeSpan(events, start, end, Position(events, start), Position(events, end))
    ensures AloneAt(events, start) && AloneAt(events, end) ==> Complete(events, start, end)
  {
    EventsFoundIff(events, start, end);
    if AloneAt(events, start) && AloneAt(events, end) {
      EventsFound(events, start, end);
    }
  }

  lemma WholePointAlone(events: seq<Event>, t: int, p: nat)
    requires Ascending(events) && IsPlace(events, t, p) && WholeSpan(events, t, t, p, p)
    ensures AloneAt(events, t)
  {
    forall i, j | 0 <= i < j < |events|
      ensures !BothAt(events[i], events[j], t)
    {
      assert i < p ==> events[i].at <= events[p - 1].at;
      assert j > p ==> events[p + 1].at <= events[j].at;
    }
  }

  /** At a single point of time all events are found if and only if there is at most one. */
  lemma PointCompleteIff(events: seq<Event>, t: int)
    requires Ascending(events)
    ensures Complete(events, t, t) <==> AloneAt(events, t)
  {
    EventsFoundIff(events, t, t);
    PlacesInOrder(events, t, t);
    if AloneAt(events, t) {
      EventsFound(events, t, t);
    } else if Complete(events, t, t) {
      WholePointAlone(events, t, Position(events, t));
    }
  }

  /** A sorted list is answered completely for every span if and only if no two of its events are at one time. */
  lemma AlwaysCompleteIff(events: seq<Event>)
    requires Ascending(events)
    ensures (forall start, end :: start <= end ==> Complete(events, start, end)) <==>
            forall i, j :: 0 <= i < j < |events| ==> events[i].at < events[j].at
  {
    if forall i, j :: 0 <= i < j < |events| ==> events[i].at < events[j].at {
      forall start, end | start <= end
        ensures Complete(events, start, end)
      {
        EventsFound(events, start, end);
      }
    }
    if forall start, end :: start <= end ==> Complete(events, start, end) {
      forall i, j | 0 <= i < j < |events|
        ensures events[i].at < events[j].at
      {
        PointCompleteIff(events, events[i].at);
        assert Complete(events, events[i].at, events[i].at);
        assert !BothAt(events[i], events[j], events[i].at);
      }
    }
  }

  /** Of three events at one time only one is found. */
  lemma EventsAtOneTime(x: string, y: string, z: string)
    ensures var events := [Event(5, x), Event(5, y), Event(5, z)];
            var i := Position(events, 5);
            && Ascending(events) && !WholeSpan(events, 5, 5, i, i)
            && Slice(events, i, i + 1) == [Event(5, y)] && Filter(events, During(5, 5)) + Trailing(events, 5) == events
  {
    var events := [Event(5, x), Event(5, y), Event(5, z)];
    FilterIsSlice(events, During(5, 5), 0, 3);
    assert Position(events, 5) == 1;
  }

  /** Of two events at one time the first is found. */
  lemma FirstOfTwo(x: string, y: string)
    ensures var events := [Event(5, x), Event(5, y)];
            Between(events, 5, 5) == [Event(5, x)] && Filter(events, During(5, 5)) + Trailing(events, 5) == events
  {
    var events := [Event(5, x), Event(5, y)];
    FilterIsSlice(events, During(5, 5), 0, 2);
    assert Position(events, 5) == 0;
  }

  /** An event after the span is returned with it. */
  lemma LaterEventFound(x: string, y: string)
    ensures var events := [Event(1, x), Event(9, y)];
            && Ascending(events) && Slice(events, Position(events, 0), Position(events, 5) + 1) == events
            && Filter(events, During(0, 5)) == [Event(1, x)] && Trailing(events, 5) == [Event(9, y)]
  {
    var events := [Event(1, x), Event(9, y)];
    FilterIsSlice(events, During(0, 5), 0, 1);
    assert Probe(events, 0, 0, 1) == 0;
    assert Probe(events, 5, 0, 1) == Probe(events, 5, 1, 1) == 1;
    assert events[1..] == [Event(9, y)];
  }

  lemma SliceEnd<T>(xs: seq<T>, s: nat, e: nat)
    requires s <= e <= |xs|
    ensures Slice(xs, s, e + 1) == xs[s..e] + if e < |xs| then [xs[e]] else []
    ensures e < |xs| ==> xs[s..e + 1] == xs[s..e] + [xs[e]]
  {
  }

  /** No event is returned beyond those of the span if and only if none is after it, or one is at its end. */
  lemma {:induction false} NothingTrailsIff(events: seq<Event>, end: int)
    requires Ascending(events)
    ensures |Trailing(events, end)| <= 1 && forall x :: x in Trailing(events, end) ==> x in events && end < x.at
    ensures Trailing(events, end) == [] <==>
            || (exists k :: 0 <= k < |events| && events[k].at == end)
            || forall k :: 0 <= k < |events| ==> events[k].at < end
  {
    if events != [] {
      var tail := events[1..];
      assert forall k :: 0 <= k < |tail| ==> tail[k] == events[k + 1];
      assert forall k :: 1 <= k < |events| ==> events[k] == tail[k - 1];
      NothingTrailsIff(tail, end);
    }
  }

  class TimelineEvent {
    var events: seq<Event>

    constructor ()
      ensures events == []
    {
      events := [];
    }

    method AddEvent(event: Event)
      modifies this
      ensures events == old(events) + [event]
    {
      events := events + [event];
    }

    /** The binary search: an event at the key if there is one, and otherwise where it would have to be. */
    method Search(key: int) returns (i: nat)
      ensures i == Position(events, key) && (Ascending(events) ==> IsPlace(events, key, i))
    {
      if Ascending(events) {
        PositionIsPlace(events, key);
      }
      i := Bisect(key);
    }

    method Bisect(key: int) returns (i: nat)
      ensures i == Position(events, key)
    {
      var l, u := 0, |events| - 1;
      while l <= u
        invariant 0 <= l <= u + 1 <= |events| && Probe(events, key, l, u) == Position(events, key)
        decreases u - l
      {
        i := (l + u) / 2;
        if key == events[i].at {
          return;
        } else if key < events[i].at {
          u := i - 1;
        } else {
          l := i + 1;
        }
      }
      i := l;
    }

    method GetEvents(start: int, end: int) returns (found: seq<Event>)
      ensures found == Between(events, start, end)
      ensures Ascending(events) && start <= end && AloneAt(events, start) && AloneAt(events, end) ==>
                found == Filter(events, During(start, end)) + Trailing(events, end)
      ensures Ascending(events) && start <= end ==>
                (Complete(events, start, end) <==>
                 WholeSpan(events, start, end, Position(events, start), Position(events, end)))
    {
      if Ascending(events) && start <= end {
        CompleteAnswer(events, start, end);
      }
      var s := Search(start);
      var e := Search(end);
      found := Slice(events, s, e + 1);
    }
  }
}
