/**
 * utils/bench-scheduler.cc: the running mean and second moment of BenchSuite::Log, over the reals, and the
 * self-refilling event population of Bench::Run and Bench::Cb.
 */
module Welford {

  datatype PhaseResult = PhaseResult(time: real, rate: real, period: real)

  datatype Result = Result(init: PhaseResult, run: PhaseResult)

  /** What Log prints: the averages, and the quantities whose square roots are the standard deviations. */
  datatype Summary = TooFewRuns | Summary(average: Result, variance: Result)

  // ----- the two-pass definitions -----

  function SumOf(xs: seq<real>, f: real -> real): real {
    if xs == [] then 0.0 else SumOf(xs[..|xs| - 1], f) + f(xs[|xs| - 1])
  }

  function Itself(): real -> real { (x: real) => x }

  function Square(): real -> real { (x: real) => x * x }

  function Deviation(c: real): real -> real { (x: real) => (x - c) * (x - c) }

  function Total(xs: seq<real>): real {
    SumOf(xs, Itself())
  }

  function Mean(xs: seq<real>): real
    requires xs != []
  {
    Total(xs) / |xs| as real
  }

  /** The sum of the squared distances from `c`. */
  function SquaredDeviations(xs: seq<real>, c: real): real {
    SumOf(xs, Deviation(c))
  }

  function TotalSquares(xs: seq<real>): real {
    SumOf(xs, Square())
  }

  lemma SumOfAppend(xs: seq<real>, x: real, f: real -> real)
    ensures SumOf(xs + [x], f) == SumOf(xs, f) + f(x)
  {
    assert (xs + [x])[..|xs|] == xs;
  }

  lemma {:induction false} SumNonNegative(xs: seq<real>, f: real -> real)
    requires forall x :: 0.0 <= f(x)
    ensures 0.0 <= SumOf(xs, f)
  {
    if xs != [] {
      SumNonNegative(xs[..|xs| - 1], f);
    }
  }

  lemma {:induction false} SumOfThree(xs: seq<real>, f: real -> real, g: real -> real, h: real -> real, k: real -> real)
    requires forall x :: f(x) == g(x) - h(x) + k(x)
    ensures SumOf(xs, f) == SumOf(xs, g) - SumOf(xs, h) + SumOf(xs, k)
  {
    if xs != [] {
      SumOfThree(xs[..|xs| - 1], f, g, h, k);
    }
  }

  lemma Distribute(a: real, s: real, x: real)
    ensures a * (s + x) == a * s + a * x
  {
  }

  lemma {:induction false} SumScaled(xs: seq<real>, g: real -> real, f: real -> real, a: real)
    requires forall x :: g(x) == a * f(x)
    ensures SumOf(xs, g) == a * SumOf(xs, f)
  {
    if xs != [] {
      var init, last := xs[..|xs| - 1], xs[|xs| - 1];
      SumScaled(init, g, f, a);
      Distribute(a, SumOf(init, f), f(last));
    }
  }

  lemma {:induction false} SumConstant(xs: seq<real>, n: real, k: real -> real, a: real)
    requires n == |xs| as real && forall x :: k(x) == a
    ensures SumOf(xs, k) == n * a
  {
    if xs != [] {
      SumConstant(xs[..|xs| - 1], n - 1.0, k, a);
      Distribute(a, n - 1.0, 1.0);
    }
  }

  lemma SquareOfDifference(x: real, c: real)
    ensures (x - c) * (x - c) == x * x - (2.0 * c) * x + c * c
  {
  }

  function Linear(c: real): real -> real { (x: real) => (2.0 * c) * x }

  function Constant(a: real): real -> real { (x: real) => a }

  lemma DeviationAt(c: real, x: real)
    ensures Deviation(c)(x) == Square()(x) - Linear(c)(x) + Constant(c * c)(x)
  {
    SquareOfDifference(x, c);
  }

  lemma LinearSum(xs: seq<real>, c: real)
    ensures SumOf(xs, Linear(c)) == (2.0 * c) * Total(xs)
  {
    SumScaled(xs, Linear(c), Itself(), 2.0 * c);
  }

  lemma DeviationsApart(xs: seq<real>, c: real)
    ensures SquaredDeviations(xs, c) == TotalSquares(xs) - SumOf(xs, Linear(c)) + SumOf(xs, Constant(c * c))
  {
    forall x: real
      ensures Deviation(c)(x) == Square()(x) - Linear(c)(x) + Constant(c * c)(x)
    {
      DeviationAt(c, x);
    }
    SumOfThree(xs, Deviation(c), Square(), Linear(c), Constant(c * c));
  }

  /** The sum of squared distances, from the number, the sum and the sum of squares of the results. */
  lemma DeviationsExpanded(xs: seq<real>, n: real, c: real)
    requires n == |xs| as real
    ensures SquaredDeviations(xs, c) == TotalSquares(xs) - (2.0 * c) * Total(xs) + n * (c * c)
  {
    DeviationsApart(xs, c);
    LinearSum(xs, c);
    SumConstant(xs, n, Constant(c * c), c * c);
  }

  lemma DeviationsNonNegative(xs: seq<real>, c: real)
    ensures 0.0 <= SquaredDeviations(xs, c)
  {
    forall x: real
      ensures 0.0 <= Deviation(c)(x)
    {
      var d := x - c;
      assert 0.0 <= d * d;
    }
    SumNonNegative(xs, Deviation(c));
  }

  /**
   * The state of one column after the first results, `average` and `moment2` of the macro, in a form that a
   * step updates directly; TracksMeans says what it means.
   */
  ghost predicate Tracks(xs: seq<real>, average: real, moment2: real) {
    && xs != [] && |xs| as real * average == Total(xs)
    && moment2 == TotalSquares(xs) - |xs| as real * (average * average)
  }

  lemma CrossTerms(n: real, x: real, m: real, m': real)
    requires (n + 1.0) * m' == n * m + x
    ensures (x - m) * (x - m') == x * x - (n + 1.0) * (m' * m') + n * (m * m)
  {
    assert (n + 1.0) * (m' * m') == (n * m + x) * m' == n * (m * m') + x * m';
    assert n * m' == n * m + x - m';
    assert m * (n * m') == m * (n * m + x - m') == n * (m * m) + m * x - m * m';
    assert n * (m * m') == m * (n * m');
    assert (x - m) * (x - m') == x * x - x * m' - m * x + m * m';
  }

  /** About the mean, the squared deviations are the squares less n times the squared mean. */
  lemma DeviationsAboutMean(xs: seq<real>, n: real, m: real)
    requires n == |xs| as real && n * m == Total(xs)
    ensures SquaredDeviations(xs, m) == TotalSquares(xs) - n * (m * m)
  {
    DeviationsExpanded(xs, n, m);
    assert (2.0 * m) * (n * m) == 2.0 * (n * (m * m));
  }

  lemma MeanIff(xs: seq<real>, m: real)
    requires xs != []
    ensures m == Mean(xs) <==> |xs| as real * m == Total(xs)
  {
    var n, total := |xs| as real, Total(xs);
    assert n * (total / n) == total;
    if n * m == total {
      assert n * (m - total / n) == 0.0;
    }
  }

  /** The state of a column is the mean of the results and the sum of their squared deviations from it. */
  lemma TracksMeans(xs: seq<real>, average: real, moment2: real)
    requires xs != []
    ensures Tracks(xs, average, moment2) <==> average == Mean(xs) && moment2 == SquaredDeviations(xs, average)
  {
    MeanIff(xs, average);
    if average == Mean(xs) {
      DeviationsAboutMean(xs, |xs| as real, average);
    }
  }

  lemma NextMean(n: real, m: real, x: real, m': real)
    requires n > 0.0 && m' == m + (x - m) / (n + 1.0)
    ensures (n + 1.0) * m' == n * m + x
  {
    assert (n + 1.0) * ((x - m) / (n + 1.0)) == x - m;
    assert (n + 1.0) * m' == (n + 1.0) * m + (n + 1.0) * ((x - m) / (n + 1.0));
  }

  lemma Totals(xs: seq<real>, x: real)
    ensures Total(xs + [x]) == Total(xs) + x && TotalSquares(xs + [x]) == TotalSquares(xs) + x * x
  {
    SumOfAppend(xs, x, Itself());
    SumOfAppend(xs, x, Square());
  }

  /** The algebra of one step: n results with sum `s` and sum of squares `q`, then one more, `x`. */
  lemma StepAlgebra(n: real, n': real, s: real, s': real, q: real, q': real, x: real,
                    m: real, m': real, v: real, v': real)
    requires n > 0.0 && n' == n + 1.0 && s' == s + x && q' == q + x * x
    requires n * m == s && v == q - n * (m * m)
    requires m' == m + (x - m) / n' && v' == v + (x - m) * (x - m')
    ensures n' * m' == s' && v' == q' - n' * (m' * m')
  {
    NextMean(n, m, x, m');
    CrossTerms(n, x, m, m');
  }

  /** One ACCUMULATE after at least one result: the state still is that of the two-pass definitions. */
  lemma WelfordStep(xs: seq<real>, x: real, count: nat, m: real, v: real, m': real, v': real)
    requires Tracks(xs, m, v) && count == |xs| + 1
    requires m' == m + (x - m) / count as real && v' == v + (x - m) * (x - m')
    ensures Tracks(xs + [x], m', v')
  {
    Totals(xs, x);
    StepAlgebra(|xs| as real, count as real, Total(xs), Total(xs + [x]), TotalSquares(xs), TotalSquares(xs + [x]),
                x, m, m', v, v');
    assert |xs + [x]| == count;
  }

  // ----- BenchSuite::Log -----

  /** The columns of the table. */
  datatype Column = InitTime | InitRate | InitPeriod | RunTime | RunRate | RunPeriod

  function Field(r: Result, c: Column): real {
    match c
    case InitTime => r.init.time
    case InitRate => r.init.rate
    case InitPeriod => r.init.period
    case RunTime => r.run.time
    case RunRate => r.run.rate
    case RunPeriod => r.run.period
  }

  function Fields(results: seq<Result>, c: Column): (xs: seq<real>)
    ensures |xs| == |results|
  {
    if results == [] then []
    else Fields(results[..|results| - 1], c) + [Field(results[|results| - 1], c)]
  }

  /** Where the first result is also the average before it, the step leaves both values as they are. */
  lemma FirstStep(x: real, m': real, v': real, n: real)
    requires n == 1.0 && m' == x + (x - x) / n && v' == 0.0 + (x - x) * (x - m')
    ensures m' == x && v' == 0.0
  {
  }

  lemma FirstTracks(x: real)
    ensures Tracks([x], x, 0.0)
  {
    Totals([], x);
    assert [] + [x] == [x];
  }

  /** What the columns hold before a result: the first one starts as its own average. */
  ghost predicate Before(xs: seq<real>, x: real, average: real, moment2: real) {
    if xs == [] then average == x && moment2 == 0.0 else Tracks(xs, average, moment2)
  }

  lemma AnyStep(xs: seq<real>, x: real, count: nat, m: real, v: real, m': real, v': real)
    requires Before(xs, x, m, v) && count == |xs| + 1
    requires m' == m + (x - m) / count as real && v' == v + (x - m) * (x - m')
    ensures Tracks(xs + [x], m', v')
  {
    if xs == [] {
      FirstStep(x, m', v', count as real);
      FirstTracks(x);
      assert xs + [x] == [x];
    } else {
      WelfordStep(xs, x, count, m, v, m', v');
    }
  }

  /** The macro ACCUMULATE for one field; `count` is the number of results including this one. */
  method Accumulate(x: real, average: real, moment2: real, count: nat, ghost xs: seq<real>)
      returns (average': real, moment2': real)
    requires count == |xs| + 1 && Before(xs, x, average, moment2)
    ensures Tracks(xs + [x], average', moment2')
  {
    var deltaPre := x - average;
    average' := average + deltaPre / count as real;
    var deltaPost := x - average';
    moment2' := moment2 + deltaPre * deltaPost;
    AnyStep(xs, x, count, average, moment2, average', moment2');
  }

  method AccumulatePhase(x: PhaseResult, average: PhaseResult, moment2: PhaseResult, count: nat,
                         ghost times: seq<real>, ghost rates: seq<real>, ghost periods: seq<real>)
      returns (average': PhaseResult, moment2': PhaseResult)
    requires count == |times| + 1 == |rates| + 1 == |periods| + 1
    requires Before(times, x.time, average.time, moment2.time) && Before(rates, x.rate, average.rate, moment2.rate)
    requires Before(periods, x.period, average.period, moment2.period)
    ensures Tracks(times + [x.time], average'.time, moment2'.time)
    ensures Tracks(rates + [x.rate], average'.rate, moment2'.rate)
    ensures Tracks(periods + [x.period], average'.period, moment2'.period)
  {
    var time, mTime := Accumulate(x.time, average.time, moment2.time, count, times);
    var rate, mRate := Accumulate(x.rate, average.rate, moment2.rate, count, rates);
    var period, mPeriod := Accumulate(x.period, average.period, moment2.period, count, periods);
    average' := PhaseResult(time, rate, period);
    moment2' := PhaseResult(mTime, mRate, mPeriod);
  }

  ghost predicate TracksAll(results: seq<Result>, average: Result, moment2: Result) {
    forall c :: Tracks(Fields(results, c), Field(average, c), Field(moment2, c))
  }

  const ZERO := PhaseResult(0.0, 0.0, 0.0)

  lemma FieldsAppend(seen: seq<Result>, run: Result, c: Column)
    ensures Fields(seen + [run], c) == Fields(seen, c) + [Field(run, c)]
  {
    assert (seen + [run])[..|seen|] == seen;
  }

  /** What all six columns hold before a result. */
  ghost predicate BeforeAll(seen: seq<Result>, run: Result, average: Result, moment2: Result) {
    forall c :: Before(Fields(seen, c), Field(run, c), Field(average, c), Field(moment2, c))
  }

  lemma FirstBefore(run: Result)
    ensures BeforeAll([], run, run, Result(ZERO, ZERO))
  {
  }

  lemma LaterBefore(seen: seq<Result>, run: Result, average: Result, moment2: Result)
    requires seen != [] && TracksAll(seen, average, moment2)
    ensures BeforeAll(seen, run, average, moment2)
  {
    forall c
      ensures Before(Fields(seen, c), Field(run, c), Field(average, c), Field(moment2, c))
    {
      assert Tracks(Fields(seen, c), Field(average, c), Field(moment2, c));
    }
  }

  /** The three columns of a phase. */
  ghost predicate TracksPhase(seen: seq<Result>, run: Result, times: Column, rates: Column, periods: Column,
                              average: PhaseResult, moment2: PhaseResult) {
    && Tracks(Fields(seen, times) + [Field(run, times)], average.time, moment2.time)
    && Tracks(Fields(seen, rates) + [Field(run, rates)], average.rate, moment2.rate)
    && Tracks(Fields(seen, periods) + [Field(run, periods)], average.period, moment2.period)
  }

  lemma BothPhases(seen: seq<Result>, run: Result, average: Result, moment2: Result)
    requires TracksPhase(seen, run, InitTime, InitRate, InitPeriod, average.init, moment2.init)
    requires TracksPhase(seen, run, RunTime, RunRate, RunPeriod, average.run, moment2.run)
    ensures TracksAll(seen + [run], average, moment2)
  {
    forall c
      ensures Tracks(Fields(seen + [run], c), Field(average, c), Field(moment2, c))
    {
      FieldsAppend(seen, run, c);
    }
  }

  method AccumulateInit(run: Result, average: Result, moment2: Result, count: nat, ghost seen: seq<Result>)
      returns (average': PhaseResult, moment2': PhaseResult)
    requires count == |seen| + 1 && BeforeAll(seen, run, average, moment2)
    ensures TracksPhase(seen, run, InitTime, InitRate, InitPeriod, average', moment2')
  {
    ghost var times, rates, periods := Fields(seen, InitTime), Fields(seen, InitRate), Fields(seen, InitPeriod);
    assert Before(times, Field(run, InitTime), Field(average, InitTime), Field(moment2, InitTime));
    assert Before(rates, Field(run, InitRate), Field(average, InitRate), Field(moment2, InitRate));
    assert Before(periods, Field(run, InitPeriod), Field(average, InitPeriod), Field(moment2, InitPeriod));
    average', moment2' := AccumulatePhase(run.init, average.init, moment2.init, count, times, rates, periods);
  }

  method AccumulateRun(run: Result, average: Result, moment2: Result, count: nat, ghost seen: seq<Result>)
      returns (average': PhaseResult, moment2': PhaseResult)
    requires count == |seen| + 1 && BeforeAll(seen, run, average, moment2)
    ensures TracksPhase(seen, run, RunTime, RunRate, RunPeriod, average', moment2')
  {
    ghost var times, rates, periods := Fields(seen, RunTime), Fields(seen, RunRate), Fields(seen, RunPeriod);
    assert Before(times, Field(run, RunTime), Field(average, RunTime), Field(moment2, RunTime));
    assert Before(rates, Field(run, RunRate), Field(average, RunRate), Field(moment2, RunRate));
    assert Before(periods, Field(run, RunPeriod), Field(average, RunPeriod), Field(moment2, RunPeriod));
    average', moment2' := AccumulatePhase(run.run, average.run, moment2.run, count, times, rates, periods);
  }

  /** The body of the loop: the six uses of the macro. */
  method AccumulateResult(run: Result, average: Result, moment2: Result, count: nat, ghost seen: seq<Result>)
      returns (average': Result, moment2': Result)
    requires count == |seen| + 1
    requires if seen == [] then average == run && moment2 == Result(ZERO, ZERO) else TracksAll(seen, average, moment2)
    ensures TracksAll(seen + [run], average', moment2')
  {
    if seen == [] {
      FirstBefore(run);
    } else {
      LaterBefore(seen, run, average, moment2);
    }
    var init, mInit := AccumulateInit(run, average, moment2, count, seen);
    var simu, mSimu := AccumulateRun(run, average, moment2, count, seen);
    average', moment2' := Result(init, simu), Result(mInit, mSimu);
    BothPhases(seen, run, average', moment2');
  }

  function Scaled(p: PhaseResult, n: nat): PhaseResult
    requires n > 0
  {
    PhaseResult(p.time / n as real, p.rate / n as real, p.period / n as real)
  }

  lemma QuotientNonNegative(a: real, n: real)
    requires 0.0 <= a && n > 0.0
    ensures 0.0 <= a / n
  {
  }

  lemma ColumnSummary(results: seq<Result>, average: Result, moment2: Result, variance: Result, c: Column)
    requires results != [] && TracksAll(results, average, moment2)
    requires variance == Result(Scaled(moment2.init, |results|), Scaled(moment2.run, |results|))
    ensures var xs := Fields(results, c);
            && Field(average, c) == Mean(xs)
            && Field(variance, c) == SquaredDeviations(xs, Mean(xs)) / |xs| as real
            && 0.0 <= Field(variance, c)
  {
    var xs := Fields(results, c);
    TracksMeans(xs, Field(average, c), Field(moment2, c));
    assert Field(variance, c) == Field(moment2, c) / |results| as real;
    DeviationsNonNegative(xs, Field(average, c));
    QuotientNonNegative(Field(moment2, c), |results| as real);
  }

  /**
   * In one pass, column by column: the mean of the results, and the mean of their squared deviations from it,
   * which is not negative, so that its square root exists.
   */
  method Log(results: seq<Result>) returns (s: Summary)
    ensures s.TooFewRuns? <==> |results| < 2
    ensures s.Summary? ==> forall c :: var xs := Fields(results, c);
              && Field(s.average, c) == Mean(xs)
              && Field(s.variance, c) == SquaredDeviations(xs, Mean(xs)) / |xs| as real
              && 0.0 <= Field(s.variance, c)
  {
    if |results| < 2 {
      return TooFewRuns;
    }
    var n := 0;
    var average := results[0];
    var moment2 := Result(ZERO, ZERO);
    while n < |results|
      invariant n <= |results|
      invariant n == 0 ==> average == results[0] && moment2 == Result(ZERO, ZERO)
      invariant n > 0 ==> TracksAll(results[..n], average, moment2)
    {
      average, moment2 := AccumulateResult(results[n], average, moment2, n + 1, results[..n]);
      assert results[..n + 1] == results[..n] + [results[n]];
      n := n + 1;
    }
    assert results[..|results|] == results;
    var variance := Result(Scaled(moment2.init, n), Scaled(moment2.run, n));
    forall c {
      ColumnSummary(results, average, moment2, variance, c);
    }
    s := Summary(average, variance);
  }
}

/** The event population of one benchmark run. */
module Population {

  /** The earliest of the pending event times. */
  ghost predicate IsEarliest(pending: multiset<nat>, t: nat) {
    t in pending && forall u :: u in pending ==> t <= u
  }

  lemma HasEarliest(pending: multiset<nat>)
    requires pending != multiset{}
    ensures exists t :: IsEarliest(pending, t)
    decreases |pending|
  {
    var t :| t in pending;
    var rest := pending - multiset{t};
    forall u | u in pending
      ensures u == t || u in rest
    {
      assert rest[u] == if u == t then pending[u] - 1 else pending[u];
    }
    if u :| u in rest {
      assert pending[u] > 0;
    }
    if rest == multiset{} {
      assert IsEarliest(pending, t);
    } else {
      HasEarliest(rest);
      var u :| IsEarliest(rest, u);
      assert IsEarliest(pending, if t <= u then t else u);
    }
  }

  /** A benchmark with the simulator it runs on: the pending event times, the clock, the stop request. */
  class Bench {
    const population: nat
    const total: nat
    var count: nat
    var pending: multiset<nat>
    var now: nat
    var stopped: bool
    ghost var callbacks: seq<nat>  // the times at which Cb has run
    ghost var sizes: seq<nat>  // how many events were pending after each of these

    constructor (population: nat, total: nat)
      ensures this.population == population && this.total == total
      ensures count == 0 && pending == multiset{} && now == 0 && !stopped && callbacks == [] && sizes == []
    {
      this.population, this.total := population, total;
      count, pending, now, stopped, callbacks, sizes := 0, multiset{}, 0, false, [], [];
    }

    /** Schedules an event after `delay`; a delay is a random number, which is never negative. */
    method Schedule(delay: nat)
      modifies this`pending
      ensures pending == old(pending) + multiset{now + delay}
    {
      pending := pending + multiset{now + delay};
    }

    /** The callback; `after` is the delay that is drawn for the next event, if there is one. */
    method Cb(after: nat)
      modifies this
      ensures now == old(now) && callbacks == old(callbacks) + [now] && sizes == old(sizes) + [|pending|]
      ensures old(count) >= total ==> stopped && count == old(count) && pending == old(pending)
      ensures old(count) < total ==> stopped == old(stopped) && count == old(count) + 1
      ensures old(count) < total ==> pending == old(pending) + multiset{now + after}
      ensures old(count) < total ==>
                |pending| == |old(pending)| + 1 && forall t :: t in pending ==> t in old(pending) || now <= t
    {
      callbacks := callbacks + [now];
      if count >= total {
        stopped := true;
        sizes := sizes + [|pending|];
        return;
      }
      Schedule(after);
      sizes := sizes + [|pending|];
      forall t | t in pending
        ensures t in old(pending) || now <= t
      {
        if t != now + after {
          assert t !in multiset{now + after};
        }
      }
      count := count + 1;
    }

    /** No event is in the past, and the callbacks have run in order of time. */
    ghost predicate Causal()
      reads this
    {
      && (forall t :: t in pending ==> now <= t)
      && (forall k :: 0 <= k < |callbacks| ==> callbacks[k] <= now)
      && (forall j, k :: 0 <= j < k < |callbacks| ==> callbacks[j] <= callbacks[k])
    }

    /** The simulator removes the earliest event, advances the clock to it and runs it. */
    method ProcessOneEvent()
      requires pending != multiset{} && Causal()
      modifies this
      ensures Causal() && old(now) <= now && |callbacks| == |old(callbacks)| + 1
      ensures sizes == old(sizes) + [|pending|]
      ensures old(count) >= total ==> stopped && count == old(count) && |pending| == |old(pending)| - 1
      ensures old(count) < total ==> stopped == old(stopped) && count == old(count) + 1 && |pending| == |old(pending)|
    {
      HasEarliest(pending);
      var t :| t in pending && forall u :: u in pending ==> t <= u;
      pending := pending - multiset{t};
      now := t;
      var after: nat :| after >= 0;
      Cb(after);
    }

    /** A simulator with no events, as it is at first and again once it is destroyed. */
    ghost predicate Idle()
      reads this
    {
      pending == multiset{} && now == 0 && !stopped && callbacks == [] && sizes == []
    }

    method Destroy()
      modifies this
      ensures Idle() && count == old(count)
    {
      pending, now, stopped, callbacks, sizes := multiset{}, 0, false, [], [];
    }

    /**
     * The simulation. With a population there are exactly total + 1 callbacks, the last of which only stops the
     * simulation, and the population is kept until then; without one, nothing happens.
     */
    method Simulate()
      requires Idle()
      modifies this
      ensures population > 0 ==> count == total && |callbacks| == total + 1 && |pending| == population - 1 && stopped
      ensures |sizes| == |callbacks|
      ensures forall k :: 0 <= k < |sizes| ==> sizes[k] == if k < total then population else population - 1
      ensures population == 0 ==> count == 0 && callbacks == [] && !stopped
      ensures Causal()
    {
      count := 0;
      for i := 0 to population
        invariant |pending| == i && count == 0 && now == 0 && !stopped && callbacks == [] && sizes == []
      {
        var at: nat :| at >= 0;
        Schedule(at);
      }
      while pending != multiset{} && !stopped
        invariant Causal()
        invariant !stopped ==> |pending| == population && |callbacks| == count <= total
        invariant |sizes| == |callbacks|
        invariant forall k :: 0 <= k < |sizes| ==> sizes[k] == if k < total then population else population - 1
        invariant population == 0 ==> count == 0 && !stopped
        invariant stopped ==> |pending| == population - 1 && |callbacks| == total + 1 && count == total
        decreases !stopped, total - count
      {
        assert |pending| > 0;
        ProcessOneEvent();
      }
    }

    /** One run: returns the number of events executed, and leaves the simulator ready for the next run. */
    method Run() returns (events: nat)
      requires Idle()
      modifies this
      ensures Idle() && events == if population > 0 then total else 0
    {
      Simulate();
      events := count;
      Destroy();
    }

    /** A priming run and then `runs` runs; every one of them executes the same number of events. */
    method RunSuite(runs: nat) returns (results: seq<nat>)
      requires Idle()
      modifies this
      ensures |results| == runs
      ensures forall k :: 0 <= k < runs ==> results[k] == if population > 0 then total else 0
    {
      var prime := Run();
      results := [];
      for i := 0 to runs
        invariant Idle() && |results| == i
        invariant forall k :: 0 <= k < i ==> results[k] == if population > 0 then total else 0
      {
        var events := Run();
        results := results + [events];
      }
    }
  }
}
