/**
 * Streaming per-column statistics: a capped set of distinct values with
 * their counts, Welford's running mean and variance, the P-squared quantile
 * estimator, and the tracker that combines them for one column.
 *
 * Each tracker is a class whose methods update its fields; each method is
 * proved against a step function on the tracker's state, and what ert-manifest's
 * statistics promise is proved about those step functions and their folds over a
 * whole column. Floating-point numbers are modelled as exact reals.
 */
module Stats {
  import opened Types
  import opened Sorting

  // ---------------------------------------------------------------------
  // CappedUniqueTracker
  // ---------------------------------------------------------------------

  /** The fields of a `CappedUniqueTracker`. */
  datatype UniqueState = UniqueState(
    values: set<string>,
    maxValues: nat,
    highCardinality: bool,
    valueCounts: map<string, nat>)

  /** `CappedUniqueTracker::new`. */
  function UniqueInit(maxValues: nat): UniqueState {
    UniqueState({}, maxValues, false, map[])
  }

  /**
   * What every reachable tracker satisfies: once overflowed it holds
   * nothing; before that it holds at most `maxValues` values, and the
   * counted values are exactly the tracked ones, each counted at least once.
   */
  ghost predicate UniqueInvariant(st: UniqueState) {
    if st.highCardinality then st.values == {} && st.valueCounts == map[]
    else
      && |st.values| <= st.maxValues
      && st.valueCounts.Keys == st.values
      && forall v :: v in st.valueCounts ==> st.valueCounts[v] >= 1
  }

  /** The count recorded for `v`, zero for a value never seen (`get_count`). */
  function CountOf(counts: map<string, nat>, v: string): nat {
    if v in counts then counts[v] else 0
  }

  /**
   * `add`: nothing once overflowed; otherwise count the value and track it,
   * and when that makes one value too many, forget everything and set the flag.
   */
  function AddStep(st: UniqueState, value: string): (r: UniqueState)
    ensures r.maxValues == st.maxValues
    ensures st.highCardinality ==> r == st
    ensures UniqueInvariant(st) ==> UniqueInvariant(r)
    ensures !st.highCardinality ==> (r.highCardinality <==> |st.values + {value}| > st.maxValues)
    ensures !r.highCardinality ==>
      && r.values == st.values + {value}
      && CountOf(r.valueCounts, value) == CountOf(st.valueCounts, value) + 1
      && forall v :: v != value ==> CountOf(r.valueCounts, v) == CountOf(st.valueCounts, v)
  {
    if st.highCardinality then st
    else
      var counts := st.valueCounts[value := CountOf(st.valueCounts, value) + 1];
      var values := st.values + {value};
      if |values| > st.maxValues then UniqueState({}, st.maxValues, true, map[])
      else UniqueState(values, st.maxValues, false, counts)
  }

  /** The tracker after adding `xs` in order. */
  function AddAll(st: UniqueState, xs: seq<string>): UniqueState
    decreases |xs|
  {
    if xs == [] then st else AddStep(AddAll(st, xs[..|xs| - 1]), xs[|xs| - 1])
  }

  /** The distinct elements of a sequence. */
  function Seen(xs: seq<string>): (s: set<string>)
    ensures forall x :: x in s <==> x in xs
  {
    set i | 0 <= i < |xs| :: xs[i]
  }

  /**
   * A tracker fed `xs` from scratch overflows exactly when `xs` has more
   * than `maxValues` distinct values; until then it holds exactly those
   * values, and the count of each is the number of times it was added.
   */
  lemma SeenSnoc(ys: seq<string>, x: string)
    ensures Seen(ys + [x]) == Seen(ys) + {x}
  {
    assert forall y :: y in ys + [x] <==> y in ys || y == x;
  }

  lemma {:induction false} AddAllMeaning(maxValues: nat, xs: seq<string>)
    ensures AddAll(UniqueInit(maxValues), xs).maxValues == maxValues
    ensures AddAll(UniqueInit(maxValues), xs).highCardinality <==> |Seen(xs)| > maxValues
    ensures !AddAll(UniqueInit(maxValues), xs).highCardinality ==>
      && AddAll(UniqueInit(maxValues), xs).values == Seen(xs)
      && forall v :: CountOf(AddAll(UniqueInit(maxValues), xs).valueCounts, v) == multiset(xs)[v]
    decreases |xs|
  {
    if xs != [] {
      var ys, x := xs[..|xs| - 1], xs[|xs| - 1];
      assert xs == ys + [x];
      AddAllMeaning(maxValues, ys);
      SeenSnoc(ys, x);
      var st := AddAll(UniqueInit(maxValues), ys);
      assert AddAll(UniqueInit(maxValues), xs) == AddStep(st, x);
      if st.highCardinality {
        if x in Seen(ys) {
          assert Seen(ys) + {x} == Seen(ys);
        } else {
          assert Seen(ys) * {x} == {};
        }
      } else {
        assert st.values == Seen(ys);
        forall v ensures multiset(xs)[v] == multiset(ys)[v] + (if v == x then 1 else 0) {
          assert multiset(xs) == multiset(ys) + multiset{x};
        }
      }
    }
  }

  /** Every tracker reachable from a fresh one satisfies the invariant. */
  lemma {:induction false} AddAllKeepsInvariant(st: UniqueState, xs: seq<string>)
    requires UniqueInvariant(st)
    ensures UniqueInvariant(AddAll(st, xs))
    decreases |xs|
  {
    if xs != [] {
      AddAllKeepsInvariant(st, xs[..|xs| - 1]);
    }
  }

  /** Once the flag is set, adding anything changes nothing: overflow is irreversible. */
  lemma {:induction false} OverflowIsFinal(st: UniqueState, xs: seq<string>)
    requires st.highCardinality
    ensures AddAll(st, xs) == st
    decreases |xs|
  {
    if xs != [] {
      OverflowIsFinal(st, xs[..|xs| - 1]);
    }
  }

  lemma SeenOfFour(a: string, b: string, c: string, d: string)
    ensures Seen([a, b, c, d]) == {a, b, c, d}
  {
    var xs := [a, b, c, d];
    assert xs[0] == a && xs[1] == b && xs[2] == c && xs[3] == d;
  }

  lemma CardOfDistinct(a: string, b: string, c: string, d: string)
    requires a != b && a != c && a != d && b != c && b != d && c != d
    ensures |{a, b, c}| == 3 && |{a, b, c, d}| == 4
  {
  }

  lemma LettersDiffer()
    ensures "a" != "b" && "a" != "c" && "a" != "d" && "b" != "c" && "b" != "d" && "c" != "d"
  {
    assert "a"[0] == 'a' && "b"[0] == 'b' && "c"[0] == 'c' && "d"[0] == 'd';
  }

  /** The worked example: a repeated value is counted twice but tracked once. */
  lemma RepeatCountsTwice()
    ensures !AddAll(UniqueInit(5), ["a", "b", "c", "a"]).highCardinality
    ensures |AddAll(UniqueInit(5), ["a", "b", "c", "a"]).values| == 3
    ensures CountOf(AddAll(UniqueInit(5), ["a", "b", "c", "a"]).valueCounts, "a") == 2
    ensures CountOf(AddAll(UniqueInit(5), ["a", "b", "c", "a"]).valueCounts, "b") == 1
  {
    var xs: seq<string> := ["a", "b", "c", "a"];
    AddAllMeaning(5, xs);
    SeenOfFour("a", "b", "c", "a");
    LettersDiffer();
    CardOfDistinct("a", "b", "c", "d");
    assert {"a", "b", "c", "a"} == {"a", "b", "c"};
    assert multiset(xs)["a"] == 2 && multiset(xs)["b"] == 1;
  }

  /** The worked example: the fourth distinct value overflows a cap of three. */
  lemma FourthValueOverflows()
    ensures AddAll(UniqueInit(3), ["a", "b", "c", "d"]).highCardinality
  {
    AddAllMeaning(3, ["a", "b", "c", "d"]);
    SeenOfFour("a", "b", "c", "d");
    LettersDiffer();
    CardOfDistinct("a", "b", "c", "d");
  }

  /** `CappedUniqueTracker`. */
  class CappedUniqueTracker {
    var values: set<string>
    const maxValues: nat
    var highCardinality: bool
    var valueCounts: map<string, nat>

    function State(): UniqueState
      reads this
    {
      UniqueState(values, maxValues, highCardinality, valueCounts)
    }

    ghost predicate Valid()
      reads this
    {
      UniqueInvariant(State())
    }

    constructor(maxValues: nat)
      ensures Valid() && State() == UniqueInit(maxValues)
    {
      values := {};
      this.maxValues := maxValues;
      highCardinality := false;
      valueCounts := map[];
    }

    /** `add`. */
    method Add(value: string)
      requires Valid()
      modifies this
      ensures Valid()
      ensures State() == AddStep(old(State()), value)
    {
      if highCardinality {
        return;
      }
      ghost var before := State();
      valueCounts := valueCounts[value := CountOf(valueCounts, value) + 1];
      values := values + {value};
      if |values| > maxValues {
        highCardinality := true;
        values := {};
        valueCounts := map[];
      }
      assert State() == AddStep(before, value);
    }

    /** `values`: the tracked set, or nothing once the column overflowed. */
    function Values(): (r: Option<set<string>>)
      reads this
      ensures r.None? <==> highCardinality
      ensures Valid() && r.Some? ==> r.value == valueCounts.Keys && |r.value| <= maxValues
    {
      if highCardinality then None else Some(values)
    }

    /** `unique_count`: the number of tracked values, none once the column overflowed. */
    function UniqueCount(): (r: nat)
      reads this
      ensures Valid() ==> r <= maxValues && (highCardinality ==> r == 0)
      ensures r == |values|
    {
      |values|
    }

    /** `value_counts`: the counts, or nothing once the column overflowed. */
    function ValueCounts(): (r: Option<map<string, nat>>)
      reads this
      ensures r.None? <==> highCardinality
      ensures Valid() && r.Some? ==> r.value.Keys == values && forall v :: v in r.value ==> r.value[v] >= 1
    {
      if highCardinality then None else Some(valueCounts)
    }
  }

  // ---------------------------------------------------------------------
  // WelfordStats
  // ---------------------------------------------------------------------

  function Sum(xs: seq<real>): real
    decreases |xs|
  {
    if xs == [] then 0.0 else Sum(xs[..|xs| - 1]) + xs[|xs| - 1]
  }

  function SumOfSquares(xs: seq<real>): real
    decreases |xs|
  {
    if xs == [] then 0.0 else SumOfSquares(xs[..|xs| - 1]) + xs[|xs| - 1] * xs[|xs| - 1]
  }

  /** `f64::min` on two ordinary numbers. */
  function RealMin(a: real, b: real): real {
    if b < a then b else a
  }

  /** `f64::max` on two ordinary numbers. */
  function RealMax(a: real, b: real): real {
    if b > a then b else a
  }

  /** The fields of a `WelfordStats`; `count` is a `u64`. */
  datatype WelfordState = WelfordState(count: nat, mean: real, m2: real, min: Option<real>, max: Option<real>)
  {
    /** `mean`: present once anything was seen. */
    function Mean(): (r: Option<real>)
      ensures r.Some? <==> count > 0
    {
      if count > 0 then Some(mean) else None
    }

    /** `variance`: the sample variance, present from two values on. */
    function Variance(): (r: Option<real>)
      ensures r.Some? <==> count > 1
    {
      if count > 1 then Some(m2 / (count - 1) as real) else None
    }

    /** `std_dev`: the square root of the variance, when there is one. */
    function StdDev(): (r: Option<Root>)
      ensures r.Some? <==> Variance().Some?
      ensures r.Some? ==> r.value.radicand == Variance().value
    {
      match Variance()
      case Some(v) => Some(RootOf(v))
      case None => None
    }
  }

  const WELFORD_INIT := WelfordState(0, 0.0, 0.0, None, None)

  /** `update`: Welford's step, then the running minimum and maximum. */
  function WelfordStep(st: WelfordState, value: real): (r: WelfordState)
    ensures r.count == st.count + 1
    ensures r.min.Some? && r.max.Some?
  {
    var count := st.count + 1;
    var delta := value - st.mean;
    var mean := st.mean + delta / count as real;
    var delta2 := value - mean;
    WelfordState(count, mean, st.m2 + delta * delta2,
                 Some(if st.min.Some? then RealMin(st.min.value, value) else value),
                 Some(if st.max.Some? then RealMax(st.max.value, value) else value))
  }

  /** The statistics after `update` with each of `xs` in order. */
  function WelfordAll(xs: seq<real>): WelfordState
    decreases |xs|
  {
    if xs == [] then WELFORD_INIT else WelfordStep(WelfordAll(xs[..|xs| - 1]), xs[|xs| - 1])
  }

  /** The smallest element of a non-empty sequence. */
  function Minimum(xs: seq<real>): (m: real)
    requires xs != []
    ensures m in xs && forall i :: 0 <= i < |xs| ==> m <= xs[i]
    decreases |xs|
  {
    if |xs| == 1 then xs[0] else RealMin(Minimum(xs[..|xs| - 1]), xs[|xs| - 1])
  }

  /** The largest element of a non-empty sequence. */
  function Maximum(xs: seq<real>): (m: real)
    requires xs != []
    ensures m in xs && forall i :: 0 <= i < |xs| ==> xs[i] <= m
    decreases |xs|
  {
    if |xs| == 1 then xs[0] else RealMax(Maximum(xs[..|xs| - 1]), xs[|xs| - 1])
  }

  /**
   * `mean` and `m2` are the mean and the centred sum of squares of `st.count`
   * numbers whose sum is `s` and whose sum of squares is `q` (scaled by the
   * count, so that no division is needed).
   */
  ghost predicate Moments(st: WelfordState, s: real, q: real) {
    var c := st.count as real;
    st.mean * c == s && st.m2 * c == q * c - s * s
  }

  /** The algebra behind Welford's method, on plain numbers. */
  lemma WelfordAlgebra(cr: real, s: real, q: real, mean: real, m2: real, v: real, n: real, mean': real, m2': real)
    requires cr >= 1.0 && mean * cr == s && m2 * cr == q * cr - s * s
    requires n == cr + 1.0 && mean' == mean + (v - mean) / n && m2' == m2 + (v - mean) * (v - mean')
    ensures mean' * n == s + v
    ensures m2' * n == (q + v * v) * n - (s + v) * (s + v)
  {
    var dd := v - mean;
    var e := dd / n;
    assert e * n == dd;
    assert mean' * n == mean * cr + mean + dd;
    assert (dd - e) * n == dd * cr;
    assert dd * (dd - e) * n == dd * dd * cr;
    assert dd * dd * cr == v * v * cr - 2.0 * v * s + mean * s by {
      assert mean * mean * cr == mean * s;
    }
    assert m2 == q - mean * s by {
      assert (m2 - (q - mean * s)) * cr == 0.0;
    }
  }

  /** One `update` carries the moments of some numbers to those of the numbers and `v`. */
  lemma WelfordStepMoments(st: WelfordState, s: real, q: real, v: real)
    requires st.count >= 1 && Moments(st, s, q)
    ensures Moments(WelfordStep(st, v), s + v, q + v * v)
  {
    var r := WelfordStep(st, v);
    WelfordAlgebra(st.count as real, s, q, st.mean, st.m2, v, r.count as real, r.mean, r.m2);
  }

  /** The first `update` gives the moments of that one number. */
  lemma WelfordFirstMoments(v: real)
    ensures Moments(WelfordStep(WELFORD_INIT, v), v, v * v)
  {
  }

  lemma SumSnoc(ys: seq<real>, x: real)
    ensures Sum(ys + [x]) == Sum(ys) + x
    ensures SumOfSquares(ys + [x]) == SumOfSquares(ys) + x * x
  {
    assert (ys + [x])[..|ys|] == ys;
  }

  /** After `update` with each of `xs`, the count is `|xs|` and the moments are those of `xs`. */
  lemma {:induction false} WelfordMoments(xs: seq<real>)
    ensures WelfordAll(xs).count == |xs|
    ensures |xs| > 0 ==> Moments(WelfordAll(xs), Sum(xs), SumOfSquares(xs))
    decreases |xs|
  {
    if xs != [] {
      var ys, x := xs[..|xs| - 1], xs[|xs| - 1];
      assert xs == ys + [x];
      WelfordMoments(ys);
      SumSnoc(ys, x);
      if ys == [] {
        WelfordFirstMoments(x);
      } else {
        WelfordStepMoments(WelfordAll(ys), Sum(ys), SumOfSquares(ys), x);
      }
    }
  }

  /** The arithmetic mean of a non-empty sequence. */
  function ArithmeticMean(xs: seq<real>): real
    requires xs != []
  {
    Sum(xs) / |xs| as real
  }

  /** The sum of the squared differences from the mean. */
  function CentredSquares(xs: seq<real>): real
    requires xs != []
  {
    SumOfSquares(xs) - Sum(xs) * Sum(xs) / |xs| as real
  }

  /** The sample variance: the centred sum of squares over n - 1. */
  function SampleVariance(xs: seq<real>): real
    requires |xs| >= 2
  {
    CentredSquares(xs) / (|xs| - 1) as real
  }

  /** From the scaled moments to the mean and the sample variance. */
  lemma MomentsMean(st: WelfordState, xs: seq<real>)
    requires st.count == |xs| >= 1 && Moments(st, Sum(xs), SumOfSquares(xs))
    ensures st.Mean() == Some(ArithmeticMean(xs))
    ensures st.Variance() == if |xs| < 2 then None else Some(SampleVariance(xs))
  {
    var s, q := Sum(xs), SumOfSquares(xs);
    var c := |xs| as real;
    assert st.mean == s / c by {
      assert (st.mean - s / c) * c == 0.0;
    }
    assert st.m2 == CentredSquares(xs) by {
      assert st.m2 * c == (q - s * s / c) * c;
    }
    if |xs| >= 2 {
      assert (st.count - 1) as real == (|xs| - 1) as real;
    }
  }

  /**
   * Mean and variance as `WelfordStats` promises them: after `update` with
   * each of `xs`, `mean` is absent for no values and otherwise their
   * arithmetic mean, and `variance` is absent for fewer than two values and
   * otherwise their sample variance.
   */
  lemma WelfordMeanAndVariance(xs: seq<real>)
    ensures WelfordAll(xs).count == |xs|
    ensures WelfordAll(xs).Mean() == if |xs| == 0 then None else Some(ArithmeticMean(xs))
    ensures WelfordAll(xs).Variance() == if |xs| < 2 then None else Some(SampleVariance(xs))
  {
    WelfordMoments(xs);
    if |xs| > 0 {
      MomentsMean(WelfordAll(xs), xs);
    }
  }

  /** Minimum and maximum after `update` with each of `xs`. */
  lemma {:induction false} WelfordExtremes(xs: seq<real>)
    ensures WelfordAll(xs).min.Some? <==> |xs| > 0
    ensures WelfordAll(xs).max.Some? <==> |xs| > 0
    ensures |xs| > 0 ==> WelfordAll(xs).min == Some(Minimum(xs)) && WelfordAll(xs).max == Some(Maximum(xs))
    decreases |xs|
  {
    if xs != [] {
      WelfordExtremes(xs[..|xs| - 1]);
    }
  }

  /** The worked example: the numbers 1 to 5 have mean 3, sample variance 2.5, minimum 1 and maximum 5. */
  lemma OneToFiveExample()
    ensures WelfordAll([1.0, 2.0, 3.0, 4.0, 5.0]).Mean() == Some(3.0)
    ensures WelfordAll([1.0, 2.0, 3.0, 4.0, 5.0]).Variance() == Some(2.5)
    ensures WelfordAll([1.0, 2.0, 3.0, 4.0, 5.0]).min == Some(1.0)
    ensures WelfordAll([1.0, 2.0, 3.0, 4.0, 5.0]).max == Some(5.0)
  {
    var xs := [1.0, 2.0, 3.0, 4.0, 5.0];
    WelfordMeanAndVariance(xs);
    WelfordExtremes(xs);
    SumsOfFive(1.0, 2.0, 3.0, 4.0, 5.0);
    assert ArithmeticMean(xs) == 3.0;
    assert CentredSquares(xs) == 10.0;
    ExtremesOfOneToFive(xs);
  }

  lemma ExtremesOfOneToFive(xs: seq<real>)
    requires xs == [1.0, 2.0, 3.0, 4.0, 5.0]
    ensures Minimum(xs) == 1.0 && Maximum(xs) == 5.0
  {
    assert forall i :: 0 <= i < |xs| ==> 1.0 <= xs[i] <= 5.0;
    var lo, hi := Minimum(xs), Maximum(xs);
    assert lo <= xs[0] && xs[4] <= hi;
  }

  lemma SumsOfFive(a: real, b: real, c: real, d: real, e: real)
    ensures Sum([a, b, c, d, e]) == a + b + c + d + e
    ensures SumOfSquares([a, b, c, d, e]) == a * a + b * b + c * c + d * d + e * e
  {
    SumSnoc([], a);
    SumSnoc([a], b);
    SumSnoc([a, b], c);
    SumSnoc([a, b, c], d);
    SumSnoc([a, b, c, d], e);
    assert [] + [a] == [a] && [a] + [b] == [a, b] && [a, b] + [c] == [a, b, c];
    assert [a, b, c] + [d] == [a, b, c, d] && [a, b, c, d] + [e] == [a, b, c, d, e];
  }

  /** A single value has a mean but no variance; no values have neither. */
  lemma FewValuesExample(v: real)
    ensures WelfordAll([v]).Mean() == Some(v) && WelfordAll([v]).Variance().None?
    ensures WelfordAll([]).Mean().None? && WelfordAll([]).Variance().None?
  {
    WelfordMeanAndVariance([v]);
    SumSnoc([], v);
    assert [] + [v] == [v];
  }

  /** `WelfordStats`. */
  class WelfordStats {
    var count: nat
    var mean: real
    var m2: real
    var min: Option<real>
    var max: Option<real>

    function State(): WelfordState
      reads this
    {
      WelfordState(count, mean, m2, min, max)
    }

    constructor()
      ensures State() == WELFORD_INIT
    {
      count := 0;
      mean := 0.0;
      m2 := 0.0;
      min := None;
      max := None;
    }

    /** `update`. */
    method Update(value: real)
      modifies this
      ensures State() == WelfordStep(old(State()), value)
    {
      count := count + 1;
      var delta := value - mean;
      mean := mean + delta / count as real;
      var delta2 := value - mean;
      m2 := m2 + delta * delta2;
      min := Some(if min.Some? then RealMin(min.value, value) else value);
      max := Some(if max.Some? then RealMax(max.value, value) else value);
    }
  }

  // ---------------------------------------------------------------------
  // P2Quantile
  // ---------------------------------------------------------------------

  /** The fields of a `P2Quantile`: five marker heights, positions, desired positions and increments. */
  datatype P2State = P2State(
    p: real,
    q: seq<real>,
    n: seq<int>,
    nPrime: seq<real>,
    dn: seq<real>,
    count: nat,
    initialized: bool,
    initialValues: seq<real>)

  /** `P2Quantile::new(p)`. */
  function P2Init(p: real): P2State {
    P2State(p, [0.0, 0.0, 0.0, 0.0, 0.0], [1, 2, 3, 4, 5],
            [1.0, 1.0 + 2.0 * p, 1.0 + 4.0 * p, 3.0 + 2.0 * p, 5.0],
            [0.0, p / 2.0, p, (1.0 + p) / 2.0, 1.0], 0, false, [])
  }

  /** The state `new(p)` builds satisfies the invariant. */
  lemma P2InitValid(p: real)
    requires 0.0 <= p <= 1.0
    ensures P2Invariant(P2Init(p))
  {
  }

  /** Five marker positions in strictly increasing order. */
  ghost predicate MarkersOrdered(n: seq<int>) {
    |n| == 5 && forall i :: 0 <= i < 4 ==> n[i] < n[i + 1]
  }

  /**
   * What every reachable estimator satisfies: until five values have been
   * seen they are buffered and the positions are 1 to 5; from then on the
   * positions stay strictly increasing, the first is 1 and the last is the
   * number of values seen.
   */
  ghost predicate P2Invariant(st: P2State) {
    && 0.0 <= st.p <= 1.0
    && |st.q| == 5 && |st.nPrime| == 5 && |st.dn| == 5
    && MarkersOrdered(st.n) && st.n[0] == 1
    && (!st.initialized ==> st.count == |st.initialValues| < 5 && st.n == [1, 2, 3, 4, 5])
    && (st.initialized ==> st.count >= 5 && |st.initialValues| == 5 && st.n[4] == st.count)
  }

  predicate RealLe(a: real, b: real) { a <= b }

  lemma RealOrder()
    ensures TotalOrder(RealLe)
  {
  }

  /** Sorting by `partial_cmp`, which on ordinary numbers is their order. */
  function SortReals(xs: seq<real>): (r: seq<real>)
    ensures multiset(r) == multiset(xs) && |r| == |xs|
    ensures SortedBy(r, RealLe)
  {
    RealOrder();
    Sort(xs, RealLe)
  }

  /**
   * The cell `k` with `q[k] <= x < q[k + 1]`, widening the outer markers
   * when `x` falls below the lowest or at or above the highest.
   */
  function LocateCell(q: seq<real>, x: real): (r: (nat, seq<real>))
    requires |q| == 5
    ensures r.0 <= 3 && |r.1| == 5
  {
    if x < q[0] then (0, q[0 := x])
    else if x < q[1] then (0, q)
    else if x < q[2] then (1, q)
    else if x < q[3] then (2, q)
    else if x < q[4] then (3, q)
    else (3, q[4 := x])
  }

  /** `n` with the entries at `lo` up to `hi` increased by one. */
  function Bumped(n: seq<int>, lo: nat, hi: nat): (r: seq<int>)
    ensures |r| == |n|
  {
    seq(|n|, j requires 0 <= j < |n| => if lo <= j < hi then n[j] + 1 else n[j])
  }

  /** `nPrime` with the first `hi` entries advanced by their increments. */
  function Advanced(nPrime: seq<real>, dn: seq<real>, hi: nat): (r: seq<real>)
    requires |dn| == |nPrime|
    ensures |r| == |nPrime|
  {
    seq(|nPrime|, j requires 0 <= j < |nPrime| => if j < hi then nPrime[j] + dn[j] else nPrime[j])
  }

  /** `parabolic`: the piecewise-parabolic prediction for marker `i` moved by `d`. */
  function Parabolic(q: seq<real>, n: seq<int>, i: nat, d: real): real
    requires |q| == 5 && MarkersOrdered(n) && 1 <= i <= 3
  {
    var qi, qm, qp := q[i], q[i - 1], q[i + 1];
    var ni, nm, np := n[i] as real, n[i - 1] as real, n[i + 1] as real;
    qi + (d / (np - nm)) * ((ni - nm + d) * (qp - qi) / (np - ni) + (np - ni - d) * (qi - qm) / (ni - nm))
  }

  /** `linear`: the linear prediction for marker `i` moved by `d`, towards its neighbour. */
  function Linear(q: seq<real>, n: seq<int>, i: nat, d: int): real
    requires |q| == 5 && MarkersOrdered(n) && 1 <= i <= 3
  {
    var qAdj := if d > 0 then q[i + 1] else q[i - 1];
    var nAdj := if d > 0 then n[i + 1] as real else n[i - 1] as real;
    q[i] + (d as real) * (qAdj - q[i]) / (nAdj - n[i] as real)
  }

  /**
   * The adjustment of marker `i`: when its desired position is at least one
   * away and the neighbour in that direction leaves room, move it one step
   * that way and give it the parabolic height, or the linear one when the
   * parabolic one would leave the neighbours' range.
   */
  function AdjustMarker(q: seq<real>, n: seq<int>, nPrime: seq<real>, i: nat): (r: (seq<real>, seq<int>))
    requires |q| == 5 && |nPrime| == 5 && MarkersOrdered(n) && 1 <= i <= 3
    ensures |r.0| == 5 && MarkersOrdered(r.1) && r.1[0] == n[0] && r.1[4] == n[4]
  {
    var d := nPrime[i] - n[i] as real;
    if (d >= 1.0 && n[i + 1] - n[i] > 1) || (d <= -1.0 && n[i - 1] - n[i] < -1) then
      var dSign := if d >= 0.0 then 1 else -1;
      var qNew := Parabolic(q, n, i, dSign as real);
      var qi := if q[i - 1] < qNew && qNew < q[i + 1] then qNew else Linear(q, n, i, dSign);
      (q[i := qi], n[i := n[i] + dSign])
    else
      (q, n)
  }

  /** Markers 1 up to `hi - 1` adjusted in turn. */
  function AdjustedUpTo(q: seq<real>, n: seq<int>, nPrime: seq<real>, hi: nat): (r: (seq<real>, seq<int>))
    requires |q| == 5 && |nPrime| == 5 && MarkersOrdered(n) && 1 <= hi <= 4
    ensures |r.0| == 5 && MarkersOrdered(r.1) && r.1[0] == n[0] && r.1[4] == n[4]
    decreases hi
  {
    if hi == 1 then (q, n)
    else
      var prev := AdjustedUpTo(q, n, nPrime, hi - 1);
      AdjustMarker(prev.0, prev.1, nPrime, hi - 1)
  }

  /** `initialize`: the five buffered values, sorted, become the marker heights. */
  function P2Initialize(st: P2State): (r: P2State)
    requires |st.initialValues| == 5
    ensures r.initialized && r.q == r.initialValues && SortedBy(r.q, RealLe)
    ensures multiset(r.initialValues) == multiset(st.initialValues)
  {
    var sorted := SortReals(st.initialValues);
    st.(initialValues := sorted, q := sorted, initialized := true)
  }

  /**
   * `update`: buffer the first five values (initialising on the fifth);
   * afterwards find the cell, shift the markers above it, advance the
   * desired positions and adjust the three middle markers.
   */
  function P2Step(st: P2State, x: real): (r: P2State)
    requires P2Invariant(st)
    ensures P2Invariant(r)
    ensures r.count == st.count + 1 && r.p == st.p
    ensures r.initialized <==> st.initialized || |st.initialValues| == 4
    ensures !st.initialized ==> r.initialValues == if r.initialized then SortReals(st.initialValues + [x]) else st.initialValues + [x]
    ensures st.initialized ==> r.initialValues == st.initialValues
    ensures !st.initialized && r.initialized ==> r.q == r.initialValues
  {
    if !st.initialized then P2Buffer(st, x) else P2Move(st, x)
  }

  /** `update` before five values have been seen: buffer the value, sorting the buffer at the fifth. */
  function P2Buffer(st: P2State, x: real): (r: P2State)
    requires P2Invariant(st) && !st.initialized
    ensures P2Invariant(r)
    ensures r.count == st.count + 1 && r.p == st.p
    ensures r.initialized <==> |st.initialValues| == 4
    ensures r.initialValues == if r.initialized then SortReals(st.initialValues + [x]) else st.initialValues + [x]
    ensures r.initialized ==> r.q == r.initialValues
  {
    var buffered := st.(count := st.count + 1, initialValues := st.initialValues + [x]);
    if |buffered.initialValues| == 5 then P2Initialize(buffered) else buffered
  }

  /** `update` once initialised: locate the cell, move the positions, adjust the middle markers. */
  function P2Move(st: P2State, x: real): (r: P2State)
    requires P2Invariant(st) && st.initialized
    ensures P2Invariant(r)
    ensures r.count == st.count + 1 && r.p == st.p && r.initialized && r.initialValues == st.initialValues
  {
    var located := LocateCell(st.q, x);
    var n := Bumped(st.n, located.0 + 1, 5);
    var nPrime := Advanced(st.nPrime, st.dn, 5);
    var adjusted := AdjustedUpTo(located.1, n, nPrime, 4);
    st.(count := st.count + 1, q := adjusted.0, n := adjusted.1, nPrime := nPrime)
  }

  /** The update of an initialised estimator, given its intermediate results. */
  lemma P2StepMoves(st: P2State, x: real, k: nat, located: seq<real>, bumped: seq<int>,
                    advanced: seq<real>, adjusted: (seq<real>, seq<int>))
    requires P2Invariant(st) && st.initialized
    requires (k, located) == LocateCell(st.q, x)
    requires bumped == Bumped(st.n, k + 1, 5)
    requires advanced == Advanced(st.nPrime, st.dn, 5)
    requires adjusted == AdjustedUpTo(located, bumped, advanced, 4)
    ensures P2Move(st, x) == st.(count := st.count + 1, q := adjusted.0, n := adjusted.1, nPrime := advanced)
  {
  }

  /** The estimator after `update` with each of `xs` in order. */
  function P2All(p: real, xs: seq<real>): (r: P2State)
    requires 0.0 <= p <= 1.0
    ensures P2Invariant(r) && r.p == p
    decreases |xs|
  {
    if xs == [] then P2Init(p) else P2Step(P2All(p, xs[..|xs| - 1]), xs[|xs| - 1])
  }

  /** Sorting an already ascending sequence of reals leaves it as it is. */
  lemma SortRealsOfSorted(xs: seq<real>)
    requires SortedBy(xs, RealLe)
    ensures SortReals(xs) == xs
  {
    RealOrder();
    assert Antisymmetric(RealLe);
    SortedPermutationUnique(SortReals(xs), xs, RealLe);
  }

  /** A run of updates counts every value and initialises exactly at the fifth. */
  lemma {:induction false} P2AllProgress(p: real, xs: seq<real>)
    requires 0.0 <= p <= 1.0
    ensures P2All(p, xs).count == |xs|
    ensures P2All(p, xs).initialized <==> |xs| >= 5
    decreases |xs|
  {
    if xs != [] {
      P2AllProgress(p, xs[..|xs| - 1]);
    }
  }

  /**
   * What a run of updates buffers: the first five values in arrival order,
   * and once there are five of them, those five sorted, for good.
   */
  lemma {:induction false} P2AllBuffer(p: real, xs: seq<real>)
    requires 0.0 <= p <= 1.0
    ensures |xs| < 5 ==> P2All(p, xs).initialValues == xs
    ensures |xs| >= 5 ==> P2All(p, xs).initialValues == SortReals(xs[..5])
    decreases |xs|
  {
    if xs != [] {
      P2AllBuffer(p, xs[..|xs| - 1]);
      P2AllProgress(p, xs[..|xs| - 1]);
      BufferStep(P2All(p, xs[..|xs| - 1]), xs);
    }
  }

  /**
   * One update of P2AllBuffer's induction: from an estimator that has buffered
   * all of `xs` but its last value, the update with that value buffers `xs`.
   */
  lemma BufferStep(st: P2State, xs: seq<real>)
    requires P2Invariant(st) && xs != []
    requires st.initialized <==> |xs| > 5
    requires |xs| <= 5 ==> st.initialValues == xs[..|xs| - 1]
    requires |xs| > 5 ==> st.initialValues == SortReals(xs[..|xs| - 1][..5])
    ensures |xs| < 5 ==> P2Step(st, xs[|xs| - 1]).initialValues == xs
    ensures |xs| >= 5 ==> P2Step(st, xs[|xs| - 1]).initialValues == SortReals(xs[..5])
  {
    assert xs[..|xs| - 1] + [xs[|xs| - 1]] == xs;
    if |xs| == 5 {
      assert xs[..5] == xs;
    } else if |xs| > 5 {
      assert xs[..|xs| - 1][..5] == xs[..5];
    }
  }

  /** Rust's `f64::round` on a non-negative number: halves go up. */
  function RoundHalfUp(x: real): (r: nat)
    requires x >= 0.0
    ensures r as real - 0.5 <= x < r as real + 0.5
  {
    (x + 0.5).Floor
  }

  /** `((len - 1) as f64 * p).round() as usize`: an index of the sorted buffer. */
  function RoundedPosition(last: nat, p: real): (idx: nat)
    requires 0.0 <= p <= 1.0
    ensures idx <= last
  {
    var x := last as real * p;
    assert 0.0 <= x <= last as real by {
      assert last as real * (1.0 - p) >= 0.0;
    }
    RoundHalfUp(x)
  }

  /**
   * `quantile`: nothing before the first value; with fewer than five values
   * the element at the rounded position `(len - 1) * p` of the sorted
   * buffer, which is one of the values seen; afterwards the middle marker.
   */
  function QuantileOf(st: P2State): (r: Option<real>)
    requires P2Invariant(st)
    ensures r.None? <==> st.count == 0
    ensures !st.initialized && r.Some? ==> r.value in st.initialValues
    ensures st.initialized ==> r == Some(st.q[2])
  {
    if !st.initialized then
      if st.initialValues == [] then None
      else
        var sorted := SortReals(st.initialValues);
        var idx := RoundedPosition(|sorted| - 1, st.p);
        assert sorted[idx] in multiset(st.initialValues);
        Some(sorted[idx])
    else
      Some(st.q[2])
  }

  // ---------------------------------------------------------------------
  // P2Quantile marker heights
  // ---------------------------------------------------------------------

  /** Five marker heights in ascending order. */
  ghost predicate HeightsOrdered(q: seq<real>) {
    |q| == 5 && forall i :: 0 <= i < 4 ==> q[i] <= q[i + 1]
  }

  /** A non-negative gap divided by a step count of at least one stays within the gap. */
  lemma ShareOfGap(gap: real, steps: real)
    requires gap >= 0.0 && steps >= 1.0
    ensures 0.0 <= gap / steps <= gap
  {
    var f := gap / steps;
    assert f * steps == gap;
    assert gap - f == f * (steps - 1.0);
  }

  /**
   * The linear fallback moves a marker towards the neighbour it is moved to,
   * by a share of the height gap, so it lands between its two neighbours.
   */
  lemma LinearBetween(q: seq<real>, n: seq<int>, i: nat, d: int)
    requires HeightsOrdered(q) && MarkersOrdered(n) && 1 <= i <= 3
    requires (d == 1 && n[i + 1] - n[i] > 1) || (d == -1 && n[i - 1] - n[i] < -1)
    ensures q[i - 1] <= Linear(q, n, i, d) <= q[i + 1]
  {
    if d == 1 {
      ShareOfGap(q[i + 1] - q[i], (n[i + 1] - n[i]) as real);
      assert Linear(q, n, i, d) == q[i] + (q[i + 1] - q[i]) / (n[i + 1] - n[i]) as real;
    } else {
      ShareOfGap(q[i] - q[i - 1], (n[i] - n[i - 1]) as real);
      assert Linear(q, n, i, d) == q[i] - (q[i] - q[i - 1]) / (n[i] - n[i - 1]) as real;
    }
  }

  /** Adjusting a middle marker keeps the heights ascending and the outer heights as they are. */
  lemma AdjustMarkerHeights(q: seq<real>, n: seq<int>, nPrime: seq<real>, i: nat)
    requires HeightsOrdered(q) && |nPrime| == 5 && MarkersOrdered(n) && 1 <= i <= 3
    ensures var r := AdjustMarker(q, n, nPrime, i);
      HeightsOrdered(r.0) && r.0[0] == q[0] && r.0[4] == q[4]
  {
    var d := nPrime[i] - n[i] as real;
    if (d >= 1.0 && n[i + 1] - n[i] > 1) || (d <= -1.0 && n[i - 1] - n[i] < -1) {
      var dSign := if d >= 0.0 then 1 else -1;
      LinearBetween(q, n, i, dSign);
    }
  }

  /** The same for the loop over markers 1 up to `hi - 1`. */
  lemma {:induction false} AdjustedHeights(q: seq<real>, n: seq<int>, nPrime: seq<real>, hi: nat)
    requires HeightsOrdered(q) && |nPrime| == 5 && MarkersOrdered(n) && 1 <= hi <= 4
    ensures var r := AdjustedUpTo(q, n, nPrime, hi);
      HeightsOrdered(r.0) && r.0[0] == q[0] && r.0[4] == q[4]
    decreases hi
  {
    if hi > 1 {
      AdjustedHeights(q, n, nPrime, hi - 1);
      var prev := AdjustedUpTo(q, n, nPrime, hi - 1);
      AdjustMarkerHeights(prev.0, prev.1, nPrime, hi - 1);
    }
  }

  /** Locating the cell of `x` stretches the outer heights to take `x` in and keeps them ascending. */
  lemma LocateCellHeights(q: seq<real>, x: real)
    requires HeightsOrdered(q)
    ensures var r := LocateCell(q, x);
      HeightsOrdered(r.1) && r.1[0] == RealMin(q[0], x) && r.1[4] == RealMax(q[4], x)
  {
    assert q[0] <= q[1] <= q[2] <= q[3] <= q[4];
  }

  /**
   * One update of an initialised estimator keeps the heights ascending; the
   * lowest becomes the smaller of itself and `x`, the highest the larger.
   */
  lemma P2MoveHeights(st: P2State, x: real)
    requires P2Invariant(st) && st.initialized && HeightsOrdered(st.q)
    ensures var r := P2Move(st, x);
      HeightsOrdered(r.q) && r.q[0] == RealMin(st.q[0], x) && r.q[4] == RealMax(st.q[4], x)
  {
    var located := LocateCell(st.q, x);
    var bumped := Bumped(st.n, located.0 + 1, 5);
    var advanced := Advanced(st.nPrime, st.dn, 5);
    var adjusted := AdjustedUpTo(located.1, bumped, advanced, 4);
    LocateCellHeights(st.q, x);
    AdjustedHeights(located.1, bumped, advanced, 4);
    P2StepMoves(st, x, located.0, located.1, bumped, advanced, adjusted);
  }

  /** An ascending rearrangement of five values: ascending heights from their minimum to their maximum. */
  lemma AscendingFiveHeights(s: seq<real>, xs: seq<real>)
    requires |s| == |xs| == 5 && multiset(s) == multiset(xs)
    requires forall i :: 0 <= i < 4 ==> s[i] <= s[i + 1]
    ensures HeightsOrdered(s) && s[0] == Minimum(xs) && s[4] == Maximum(xs)
  {
    assert s[0] <= s[1] <= s[2] <= s[3] <= s[4];
    forall j | 0 <= j < 5
      ensures s[0] <= xs[j] <= s[4]
    {
      assert xs[j] in multiset(s);
    }
    assert s[0] in multiset(xs) && s[4] in multiset(xs);
  }

  /** Sorted reals, as heights: ascending, lowest the minimum and highest the maximum. */
  lemma SortedFiveHeights(xs: seq<real>)
    requires |xs| == 5
    ensures var s := SortReals(xs);
      HeightsOrdered(s) && s[0] == Minimum(xs) && s[4] == Maximum(xs)
  {
    var s := SortReals(xs);
    forall i | 0 <= i < 4
      ensures s[i] <= s[i + 1]
    {
      assert RealLe(s[i], s[i + 1]);
    }
    AscendingFiveHeights(s, xs);
  }

  /**
   * From the fifth value on, the marker heights are ascending, the lowest is
   * the least value seen and the highest the greatest.
   */
  lemma {:induction false} P2AllHeights(p: real, xs: seq<real>)
    requires 0.0 <= p <= 1.0 && |xs| >= 5
    ensures var st := P2All(p, xs);
      HeightsOrdered(st.q) && st.q[0] == Minimum(xs) && st.q[4] == Maximum(xs)
    decreases |xs|
  {
    var ys := xs[..|xs| - 1];
    var x := xs[|xs| - 1];
    P2AllProgress(p, ys);
    if |xs| == 5 {
      P2AllBuffer(p, xs);
      assert xs[..5] == xs;
      SortedFiveHeights(xs);
    } else {
      P2AllHeights(p, ys);
      P2MoveHeights(P2All(p, ys), x);
    }
  }

  /**
   * The estimate is never outside the values seen: once there is a value,
   * the quantile lies between the least and the greatest of them, however
   * many there are.
   */
  lemma P2QuantileWithinRange(p: real, xs: seq<real>)
    requires 0.0 <= p <= 1.0 && xs != []
    ensures var r := QuantileOf(P2All(p, xs));
      r.Some? && Minimum(xs) <= r.value <= Maximum(xs)
  {
    var st := P2All(p, xs);
    P2AllProgress(p, xs);
    if |xs| < 5 {
      P2AllBuffer(p, xs);
      assert QuantileOf(st).value in xs;
    } else {
      P2AllHeights(p, xs);
      assert st.q[0] <= st.q[1] <= st.q[2] <= st.q[3] <= st.q[4];
    }
  }

  /** `P2Quantile`: the arrays are the fixed-size `[_; 5]` fields. */
  /**
   * Up to five values the estimate is exact: with fewer than five it is the
   * sorted value at the rounded position `p * (len - 1)`, and at exactly five
   * it is the middle of the sorted five.
   */
  lemma P2ExactForFewValues(p: real, xs: seq<real>)
    requires 0.0 <= p <= 1.0 && 0 < |xs| <= 5
    ensures |xs| < 5 ==> QuantileOf(P2All(p, xs)) == Some(SortReals(xs)[RoundedPosition(|xs| - 1, p)])
    ensures |xs| == 5 ==> QuantileOf(P2All(p, xs)) == Some(SortReals(xs)[2])
  {
    var st := P2All(p, xs);
    P2AllProgress(p, xs);
    P2AllBuffer(p, xs);
    if |xs| == 5 {
      P2AllProgress(p, xs[..4]);
      assert st == P2Step(P2All(p, xs[..4]), xs[4]);
      assert xs[..5] == xs;
    }
  }

  lemma MiddleOfThree()
    ensures RoundedPosition(2, 0.5) == 1
  {
    assert 2 as real * 0.5 == 1.0;
  }

  lemma SortedThree(xs: seq<real>)
    requires |xs| == 3 && xs[0] <= xs[1] <= xs[2]
    ensures SortReals(xs) == xs
  {
    forall i, j | 0 <= i < j < |xs| ensures RealLe(xs[i], xs[j]) {
    }
    SortRealsOfSorted(xs);
  }

  /** The median of three ascending values is the middle one. */
  lemma MedianOfThree(xs: seq<real>)
    requires |xs| == 3 && xs[0] <= xs[1] <= xs[2]
    ensures QuantileOf(P2All(0.5, xs)) == Some(xs[1])
  {
    SortedThree(xs);
    MiddleOfThree();
    P2ExactForFewValues(0.5, xs);
  }

  /** The median of 1, 2, 3 is 2. */
  lemma MedianOfOneTwoThree()
    ensures QuantileOf(P2All(0.5, [1.0, 2.0, 3.0])) == Some(2.0)
  {
    MedianOfThree([1.0, 2.0, 3.0]);
  }

  class P2Quantile {
    const p: real
    const q: array<real>
    const n: array<int>
    const nPrime: array<real>
    const dn: array<real>
    var count: nat
    var initialized: bool
    var initialValues: seq<real>

    function State(): P2State
      reads this, q, n, nPrime, dn
    {
      P2State(p, q[..], n[..], nPrime[..], dn[..], count, initialized, initialValues)
    }

    ghost predicate Valid()
      reads this, q, n, nPrime, dn
    {
      && q.Length == 5 && n.Length == 5 && nPrime.Length == 5 && dn.Length == 5
      && q != nPrime && q != dn && nPrime != dn
      && P2Invariant(State())
    }

    /** `new(p)`; `P2Quantile::new` rejects a `p` outside `[0, 1]`. */
    constructor(p: real)
      requires 0.0 <= p <= 1.0
      ensures Valid() && State() == P2Init(p)
      ensures fresh(q) && fresh(n) && fresh(nPrime) && fresh(dn)
    {
      this.p := p;
      q := new real[5](_ => 0.0);
      n := new int[5](i => i + 1);
      nPrime := new real[5][1.0, 1.0 + 2.0 * p, 1.0 + 4.0 * p, 3.0 + 2.0 * p, 5.0];
      dn := new real[5][0.0, p / 2.0, p, (1.0 + p) / 2.0, 1.0];
      count := 0;
      initialized := false;
      initialValues := [];
      new;
      assert n[..] == [1, 2, 3, 4, 5];
      assert q[..] == [0.0, 0.0, 0.0, 0.0, 0.0];
      assert nPrime[..] == P2Init(p).nPrime && dn[..] == P2Init(p).dn;
      assert State() == P2Init(p);
      P2InitValid(p);
    }

    /** `median`. */
    static method Median() returns (r: P2Quantile)
      ensures r.Valid() && r.State() == P2Init(0.5)
      ensures fresh(r) && fresh(r.q) && fresh(r.n) && fresh(r.nPrime) && fresh(r.dn)
    {
      r := new P2Quantile(0.5);
    }

    /** `update`. */
    method Update(x: real)
      requires Valid()
      modifies this, q, n, nPrime
      ensures Valid()
      ensures State() == P2Step(old(State()), x)
    {
      if !initialized {
        BufferValue(x);
      } else {
        MoveMarkers(x);
      }
    }

    /** `update` before five values have been seen: buffer `x`, initialising at the fifth. */
    method BufferValue(x: real)
      requires Valid() && !initialized
      modifies this, q
      ensures Valid()
      ensures State() == P2Step(old(State()), x)
    {
      ghost var before := State();
      count := count + 1;
      initialValues := initialValues + [x];
      if |initialValues| == 5 {
        Initialize();
      }
      assert State() == P2Buffer(before, x);
    }

    /** `update` once initialised: find the cell, move the positions and adjust the middle markers. */
    method MoveMarkers(x: real)
      requires Valid() && initialized
      modifies this, q, n, nPrime
      ensures Valid()
      ensures State() == P2Step(old(State()), x)
    {
      ghost var before := State();
      count := count + 1;
      var k := FindCell(x);
      ghost var located := q[..];
      BumpPositions(k + 1);
      ghost var bumped := n[..];
      AdvanceDesired();
      ghost var advanced := nPrime[..];
      AdjustMarkers();
      ghost var adjusted := AdjustedUpTo(located, bumped, advanced, 4);
      P2StepMoves(before, x, k, located, bumped, advanced, adjusted);
      assert State() == P2Move(before, x);
    }

    /** `initialize`. */
    method Initialize()
      requires |initialValues| == 5 && q.Length == 5
      modifies this, q
      ensures initialValues == SortReals(old(initialValues)) && q[..] == initialValues && initialized
      ensures count == old(count)
    {
      var sorted := SortReals(initialValues);
      var i := 0;
      while i < 5
        invariant 0 <= i <= 5
        invariant forall j :: 0 <= j < i ==> q[j] == sorted[j]
        modifies q
      {
        q[i] := sorted[i];
        i := i + 1;
      }
      assert q[..] == sorted;
      initialValues := sorted;
      initialized := true;
    }

    /** The cell search at the head of `update`, widening the outer markers. */
    method FindCell(x: real) returns (k: nat)
      requires q.Length == 5
      modifies q
      ensures (k, q[..]) == LocateCell(old(q[..]), x)
    {
      if x < q[0] {
        q[0] := x;
        k := 0;
      } else if x < q[1] {
        k := 0;
      } else if x < q[2] {
        k := 1;
      } else if x < q[3] {
        k := 2;
      } else if x < q[4] {
        k := 3;
      } else {
        q[4] := x;
        k := 3;
      }
    }

    /** Positions of markers `from` through 4 go up by one. */
    method BumpPositions(from: nat)
      requires n.Length == 5
      modifies n
      ensures n[..] == Bumped(old(n[..]), from, 5)
    {
      var i := from;
      while i < 5
        invariant from <= i && (i <= 5 || i == from)
        invariant forall j :: 0 <= j < 5 ==> n[j] == if from <= j < i then old(n[j]) + 1 else old(n[j])
      {
        n[i] := n[i] + 1;
        i := i + 1;
      }
    }

    /** Every desired position advances by its increment. */
    method AdvanceDesired()
      requires nPrime.Length == 5 && dn.Length == 5 && nPrime != dn
      modifies nPrime
      ensures nPrime[..] == Advanced(old(nPrime[..]), dn[..], 5)
    {
      var i := 0;
      while i < 5
        invariant 0 <= i <= 5
        invariant forall j :: 0 <= j < 5 ==> nPrime[j] == if j < i then old(nPrime[j]) + dn[j] else old(nPrime[j])
      {
        nPrime[i] := nPrime[i] + dn[i];
        i := i + 1;
      }
    }

    /** The adjustment loop over the three middle markers. */
    method AdjustMarkers()
      requires q.Length == 5 && nPrime.Length == 5 && MarkersOrdered(n[..]) && q != nPrime
      modifies q, n
      ensures (q[..], n[..]) == AdjustedUpTo(old(q[..]), old(n[..]), nPrime[..], 4)
    {
      var i := 1;
      while i < 4
        invariant 1 <= i <= 4
        invariant MarkersOrdered(n[..])
        invariant (q[..], n[..]) == AdjustedUpTo(old(q[..]), old(n[..]), nPrime[..], i)
      {
        AdjustMarkerAt(i);
        i := i + 1;
      }
    }

    /** One pass of the adjustment loop, for marker `i`. */
    method AdjustMarkerAt(i: nat)
      requires q.Length == 5 && nPrime.Length == 5 && MarkersOrdered(n[..]) && q != nPrime && 1 <= i <= 3
      modifies q, n
      ensures (q[..], n[..]) == AdjustMarker(old(q[..]), old(n[..]), nPrime[..], i)
    {
      var d := nPrime[i] - n[i] as real;
      if (d >= 1.0 && n[i + 1] - n[i] > 1) || (d <= -1.0 && n[i - 1] - n[i] < -1) {
        var dSign := if d >= 0.0 then 1 else -1;
        var qNew := Parabolic(q[..], n[..], i, dSign as real);
        if q[i - 1] < qNew && qNew < q[i + 1] {
          q[i] := qNew;
        } else {
          q[i] := Linear(q[..], n[..], i, dSign);
        }
        n[i] := n[i] + dSign;
      }
    }

    /** `quantile`, as `QuantileOf` states it. */
    function Quantile(): Option<real>
      reads this, q, n, nPrime, dn
      requires Valid()
    {
      QuantileOf(State())
    }
  }

  // ---------------------------------------------------------------------
  // ColumnStatTracker
  // ---------------------------------------------------------------------

  /** The parts of a `ColumnStatTracker`. */
  datatype StatState = StatState(welford: WelfordState, p2: P2State, missingCount: nat, unique: UniqueState)

  /** `ColumnStatTracker::new(max_unique)`: the median estimator and fresh counters. */
  function StatInit(maxUnique: nat): StatState {
    StatState(WELFORD_INIT, P2Init(0.5), 0, UniqueInit(maxUnique))
  }

  ghost predicate StatInvariant(st: StatState) {
    P2Invariant(st.p2) && st.p2.p == 0.5 && UniqueInvariant(st.unique)
  }

  /** `update_numeric`: the value goes to both estimators, its text to the distinct-value tracker. */
  function NumericStep(st: StatState, value: real, raw: string): (r: StatState)
    requires StatInvariant(st)
    ensures StatInvariant(r)
    ensures r.missingCount == st.missingCount
    ensures r.welford.count == st.welford.count + 1
  {
    StatState(WelfordStep(st.welford, value), P2Step(st.p2, value), st.missingCount, AddStep(st.unique, raw))
  }

  /** `update_string`: changes only the distinct-value tracker. */
  function StringStep(st: StatState, value: string): (r: StatState)
    requires StatInvariant(st)
    ensures StatInvariant(r)
    ensures r.welford == st.welford && r.p2 == st.p2 && r.missingCount == st.missingCount
  {
    st.(unique := AddStep(st.unique, value))
  }

  /** `update_missing`: changes only the missing count. */
  function MissingStep(st: StatState): (r: StatState)
    requires StatInvariant(st)
    ensures StatInvariant(r)
    ensures r.welford == st.welford && r.p2 == st.p2 && r.unique == st.unique
    ensures r.missingCount == st.missingCount + 1
  {
    st.(missingCount := st.missingCount + 1)
  }

  /** One call on a column tracker: `update_numeric`, `update_string` or `update_missing`. */
  datatype Observation = NumericCell(value: real, raw: string) | TextCell(text: string) | MissingCell

  function ObserveStep(st: StatState, o: Observation): (r: StatState)
    requires StatInvariant(st)
    ensures StatInvariant(r)
  {
    match o
    case NumericCell(v, raw) => NumericStep(st, v, raw)
    case TextCell(t) => StringStep(st, t)
    case MissingCell => MissingStep(st)
  }

  function ObserveAll(maxUnique: nat, os: seq<Observation>): (r: StatState)
    ensures StatInvariant(r)
    decreases |os|
  {
    if os == [] then
      P2InitValid(0.5);
      StatInit(maxUnique)
    else ObserveStep(ObserveAll(maxUnique, os[..|os| - 1]), os[|os| - 1])
  }

  /** The numbers passed to `update_numeric`, in order. */
  function NumbersOf(os: seq<Observation>): (r: seq<real>)
    ensures |r| <= |os|
  {
    if os == [] then []
    else NumbersOf(os[..|os| - 1]) + (if os[|os| - 1].NumericCell? then [os[|os| - 1].value] else [])
  }

  /** The strings passed to the distinct-value tracker, in order. */
  function TrackedOf(os: seq<Observation>): (r: seq<string>)
    ensures |r| <= |os|
  {
    if os == [] then []
    else
      var o := os[|os| - 1];
      TrackedOf(os[..|os| - 1]) + (match o case NumericCell(_, raw) => [raw] case TextCell(t) => [t] case MissingCell => [])
  }

  /** The number of `update_missing` calls. */
  function MissingOf(os: seq<Observation>): (r: nat)
    ensures r <= |os|
  {
    if os == [] then 0 else MissingOf(os[..|os| - 1]) + (if os[|os| - 1].MissingCell? then 1 else 0)
  }

  lemma ObserveAllSnoc(maxUnique: nat, os: seq<Observation>, o: Observation)
    ensures ObserveAll(maxUnique, os + [o]) == ObserveStep(ObserveAll(maxUnique, os), o)
  {
    assert (os + [o])[..|os|] == os;
  }

  lemma WelfordAllSnoc(xs: seq<real>, x: real)
    ensures WelfordAll(xs + [x]) == WelfordStep(WelfordAll(xs), x)
  {
    assert (xs + [x])[..|xs|] == xs;
  }

  lemma P2AllSnoc(p: real, xs: seq<real>, x: real)
    requires 0.0 <= p <= 1.0
    ensures P2All(p, xs + [x]) == P2Step(P2All(p, xs), x)
  {
    assert (xs + [x])[..|xs|] == xs;
  }

  lemma AddAllSnoc(st: UniqueState, xs: seq<string>, x: string)
    ensures AddAll(st, xs + [x]) == AddStep(AddAll(st, xs), x)
  {
    assert (xs + [x])[..|xs|] == xs;
  }

  /** How one call moves the numeric part: only `update_numeric` does. */
  lemma ObserveStepNumbers(st: StatState, o: Observation)
    requires StatInvariant(st)
    ensures o.NumericCell? ==>
      ObserveStep(st, o).welford == WelfordStep(st.welford, o.value) && ObserveStep(st, o).p2 == P2Step(st.p2, o.value)
    ensures !o.NumericCell? ==> ObserveStep(st, o).welford == st.welford && ObserveStep(st, o).p2 == st.p2
  {
  }

  /** How one call moves the distinct-value part: all but `update_missing` feed it. */
  lemma ObserveStepTexts(st: StatState, o: Observation)
    requires StatInvariant(st)
    ensures o.NumericCell? ==> ObserveStep(st, o).unique == AddStep(st.unique, o.raw)
    ensures o.TextCell? ==> ObserveStep(st, o).unique == AddStep(st.unique, o.text)
    ensures o.MissingCell? ==> ObserveStep(st, o).unique == st.unique
  {
  }

  /** One more call keeps the numeric part in step with the numbers. */
  lemma ObservedNumbersStep(maxUnique: nat, os: seq<Observation>)
    requires os != []
    requires ObserveAll(maxUnique, os[..|os| - 1]).welford == WelfordAll(NumbersOf(os[..|os| - 1]))
    requires ObserveAll(maxUnique, os[..|os| - 1]).p2 == P2All(0.5, NumbersOf(os[..|os| - 1]))
    ensures ObserveAll(maxUnique, os).welford == WelfordAll(NumbersOf(os))
    ensures ObserveAll(maxUnique, os).p2 == P2All(0.5, NumbersOf(os))
  {
    var ys, o := os[..|os| - 1], os[|os| - 1];
    ObserveStepNumbers(ObserveAll(maxUnique, ys), o);
    if o.NumericCell? {
      assert NumbersOf(os) == NumbersOf(ys) + [o.value];
      WelfordAllSnoc(NumbersOf(ys), o.value);
      P2AllSnoc(0.5, NumbersOf(ys), o.value);
    } else {
      assert NumbersOf(os) == NumbersOf(ys);
    }
  }

  /** The numeric part of a column tracker sees exactly the numbers, in order. */
  lemma {:induction false} ObservedNumbers(maxUnique: nat, os: seq<Observation>)
    ensures ObserveAll(maxUnique, os).welford == WelfordAll(NumbersOf(os))
    ensures ObserveAll(maxUnique, os).p2 == P2All(0.5, NumbersOf(os))
    decreases |os|
  {
    if os != [] {
      var ys := os[..|os| - 1];
      ObservedNumbers(maxUnique, ys);
      ObservedNumbersStep(maxUnique, os);
    }
  }

  /** One more call keeps the distinct-value part in step with the tracked strings. */
  lemma ObservedTextsStep(maxUnique: nat, os: seq<Observation>)
    requires os != []
    requires ObserveAll(maxUnique, os[..|os| - 1]).unique == AddAll(UniqueInit(maxUnique), TrackedOf(os[..|os| - 1]))
    ensures ObserveAll(maxUnique, os).unique == AddAll(UniqueInit(maxUnique), TrackedOf(os))
  {
    var ys, o := os[..|os| - 1], os[|os| - 1];
    ObserveStepTexts(ObserveAll(maxUnique, ys), o);
    match o
    case NumericCell(_, raw) =>
      assert TrackedOf(os) == TrackedOf(ys) + [raw];
      AddAllSnoc(UniqueInit(maxUnique), TrackedOf(ys), raw);
    case TextCell(t) =>
      assert TrackedOf(os) == TrackedOf(ys) + [t];
      AddAllSnoc(UniqueInit(maxUnique), TrackedOf(ys), t);
    case MissingCell =>
      assert TrackedOf(os) == TrackedOf(ys);
  }

  /** The distinct-value part sees the numeric texts and the strings, in order. */
  lemma {:induction false} ObservedTexts(maxUnique: nat, os: seq<Observation>)
    ensures ObserveAll(maxUnique, os).unique == AddAll(UniqueInit(maxUnique), TrackedOf(os))
    decreases |os|
  {
    if os != [] {
      var ys := os[..|os| - 1];
      ObservedTexts(maxUnique, ys);
      ObservedTextsStep(maxUnique, os);
    }
  }

  /** The missing count counts the `update_missing` calls. */
  lemma {:induction false} ObservedMissing(maxUnique: nat, os: seq<Observation>)
    ensures ObserveAll(maxUnique, os).missingCount == MissingOf(os)
    decreases |os|
  {
    if os != [] {
      ObservedMissing(maxUnique, os[..|os| - 1]);
    }
  }

  /**
   * A column tracker after a run of calls is its three parts run on their
   * own inputs: the numbers through Welford and the median estimator, the
   * numeric texts and strings through the distinct-value tracker, and one
   * missing count per `update_missing`.
   */
  lemma ObserveAllMeaning(maxUnique: nat, os: seq<Observation>)
    ensures ObserveAll(maxUnique, os) ==
      StatState(WelfordAll(NumbersOf(os)), P2All(0.5, NumbersOf(os)), MissingOf(os), AddAll(UniqueInit(maxUnique), TrackedOf(os)))
  {
    ObservedNumbers(maxUnique, os);
    ObservedTexts(maxUnique, os);
    ObservedMissing(maxUnique, os);
  }

  /** `count`: the number of `update_numeric` calls; missing cells are counted apart. */
  lemma CountIsNumericCalls(maxUnique: nat, os: seq<Observation>)
    ensures ObserveAll(maxUnique, os).welford.count == |NumbersOf(os)|
    ensures ObserveAll(maxUnique, os).missingCount == MissingOf(os)
  {
    ObserveAllMeaning(maxUnique, os);
    WelfordMeanAndVariance(NumbersOf(os));
  }

  /**
   * A tracker's counters are bounded by the number of calls, and the
   * distinct-value tracker never holds more than its cap.
   */
  lemma ObservedBounds(maxUnique: nat, os: seq<Observation>)
    ensures ObserveAll(maxUnique, os).welford.count <= |os|
    ensures ObserveAll(maxUnique, os).missingCount <= |os|
    ensures |ObserveAll(maxUnique, os).unique.values| <= maxUnique
  {
    CountIsNumericCalls(maxUnique, os);
    ObserveAllMeaning(maxUnique, os);
    AddAllMeaning(maxUnique, TrackedOf(os));
  }

  /** `ColumnStatTracker`. */
  class ColumnStatTracker {
    const welford: WelfordStats
    const p2Median: P2Quantile
    var missingCount: nat
    const uniqueTracker: CappedUniqueTracker

    function State(): StatState
      reads this, welford, p2Median, p2Median.q, p2Median.n, p2Median.nPrime, p2Median.dn, uniqueTracker
    {
      StatState(welford.State(), p2Median.State(), missingCount, uniqueTracker.State())
    }

    ghost predicate Valid()
      reads this, welford, p2Median, p2Median.q, p2Median.n, p2Median.nPrime, p2Median.dn, uniqueTracker
    {
      p2Median.Valid() && uniqueTracker.Valid() && StatInvariant(State())
    }

    constructor(maxUnique: nat)
      ensures Valid() && State() == StatInit(maxUnique)
      ensures fresh(welford) && fresh(p2Median) && fresh(uniqueTracker)
      ensures fresh(p2Median.q) && fresh(p2Median.n) && fresh(p2Median.nPrime) && fresh(p2Median.dn)
    {
      var median := P2Quantile.Median();
      welford := new WelfordStats();
      p2Median := median;
      missingCount := 0;
      uniqueTracker := new CappedUniqueTracker(maxUnique);
    }

    /** `update_numeric`. */
    method UpdateNumeric(value: real, raw: string)
      requires Valid()
      modifies this, welford, p2Median, p2Median.q, p2Median.n, p2Median.nPrime, uniqueTracker
      ensures Valid()
      ensures State() == NumericStep(old(State()), value, raw)
    {
      welford.Update(value);
      p2Median.Update(value);
      uniqueTracker.Add(raw);
    }

    /** `update_string`. */
    method UpdateString(value: string)
      requires Valid()
      modifies uniqueTracker
      ensures Valid()
      ensures State() == StringStep(old(State()), value)
    {
      uniqueTracker.Add(value);
    }

    /** `update_missing`. */
    method UpdateMissing()
      requires Valid()
      modifies this
      ensures Valid()
      ensures State() == MissingStep(old(State()))
    {
      missingCount := missingCount + 1;
    }

    /** `count`: the number of values Welford has seen. */
    function Count(): (n: nat)
      reads this, welford
      ensures n == welford.State().count
    {
      welford.count
    }
  }
}
