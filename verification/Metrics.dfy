/** Running an evaluation and aggregating it: rates, percentiles and what they can be relied on for. */
module Metrics {

  import opened Wrappers
  import opened Matching

  /** One pull request of the corpus with what the pipeline made of it. */
  datatype Case = Case(produced: seq<Finding>, expected: seq<Annotated>, latencyMs: int)

  datatype EvalResult = EvalResult(produced: seq<Finding>, expected: seq<Annotated>,
                                   truePositives: seq<Finding>, falsePositives: seq<Finding>, missed: seq<Annotated>,
                                   latencyMs: int)

  function Evaluate(c: Case): EvalResult {
    var r := Classify(c.produced, c.expected);
    EvalResult(c.produced, c.expected, r.truePositives, r.falsePositives, r.missed, c.latencyMs)
  }

  /** `run_eval`: one result per case, in corpus order. */
  method RunEval(cases: seq<Case>) returns (results: seq<EvalResult>)
    ensures |results| == |cases|
    ensures forall k :: 0 <= k < |cases| ==> results[k] == Evaluate(cases[k]) && Accounted(results[k])
    ensures forall k :: 0 <= k < |cases| ==>
              && results[k].produced == cases[k].produced && results[k].expected == cases[k].expected
              && results[k].latencyMs == cases[k].latencyMs
  {
    results := [];
    for i := 0 to |cases|
      invariant |results| == i
      invariant forall k :: 0 <= k < i ==> results[k] == Evaluate(cases[k])
    {
      var tp, fp, missed := MatchFindings(cases[i].produced, cases[i].expected);
      results := results + [EvalResult(cases[i].produced, cases[i].expected, tp, fp, missed, cases[i].latencyMs)];
    }
  }

  // ----- totals -----

  function TotalProduced(results: seq<EvalResult>): nat {
    if results == [] then 0 else |results[0].produced| + TotalProduced(results[1..])
  }

  function TotalTruePositives(results: seq<EvalResult>): nat {
    if results == [] then 0 else |results[0].truePositives| + TotalTruePositives(results[1..])
  }

  function TotalFalsePositives(results: seq<EvalResult>): nat {
    if results == [] then 0 else |results[0].falsePositives| + TotalFalsePositives(results[1..])
  }

  function TotalMissed(results: seq<EvalResult>): nat {
    if results == [] then 0 else |results[0].missed| + TotalMissed(results[1..])
  }

  function TotalExpected(results: seq<EvalResult>): nat {
    if results == [] then 0 else |results[0].expected| + TotalExpected(results[1..])
  }

  /** The findings whose confidence is in the set. */
  function CountConfidence(fs: seq<Finding>, levels: set<Confidence>): nat {
    if fs == [] then 0 else (if fs[0].confidence in levels then 1 else 0) + CountConfidence(fs[1..], levels)
  }

  function FalsePositivesAt(results: seq<EvalResult>, levels: set<Confidence>): nat {
    if results == [] then 0
    else CountConfidence(results[0].falsePositives, levels) + FalsePositivesAt(results[1..], levels)
  }

  /** Counting findings is additive, and a single finding counts exactly if its confidence is among the levels. */
  lemma {:induction false} ConfidenceCounts(a: seq<Finding>, b: seq<Finding>, f: Finding, levels: set<Confidence>)
    ensures CountConfidence(a + b, levels) == CountConfidence(a, levels) + CountConfidence(b, levels)
    ensures CountConfidence([f], levels) == if f.confidence in levels then 1 else 0
  {
    if a == [] {
      assert a + b == b;
    } else {
      ConfidenceCounts(a[1..], b, f, levels);
      assert (a + b)[1..] == a[1..] + b;
    }
  }

  /** Every total is additive over the results. */
  lemma {:induction false} TotalsConcat(a: seq<EvalResult>, b: seq<EvalResult>, levels: set<Confidence>)
    ensures TotalProduced(a + b) == TotalProduced(a) + TotalProduced(b)
    ensures TotalTruePositives(a + b) == TotalTruePositives(a) + TotalTruePositives(b)
    ensures TotalFalsePositives(a + b) == TotalFalsePositives(a) + TotalFalsePositives(b)
    ensures TotalMissed(a + b) == TotalMissed(a) + TotalMissed(b)
    ensures FalsePositivesAt(a + b, levels) == FalsePositivesAt(a, levels) + FalsePositivesAt(b, levels)
  {
    if a == [] {
      assert a + b == b;
    } else {
      TotalsConcat(a[1..], b, levels);
      assert (a + b)[1..] == a[1..] + b;
    }
  }

  /** The totals of one result are the sizes of its lists. */
  lemma TotalsOfOne(r: EvalResult, levels: set<Confidence>)
    ensures TotalProduced([r]) == |r.produced| && TotalMissed([r]) == |r.missed|
    ensures TotalTruePositives([r]) == |r.truePositives| && TotalFalsePositives([r]) == |r.falsePositives|
    ensures FalsePositivesAt([r], levels) == CountConfidence(r.falsePositives, levels)
  {
  }

  function Rate(part: nat, whole: nat): real {
    if whole > 0 then part as real / whole as real else 0.0
  }

  // ----- percentiles -----

  function Latencies(results: seq<EvalResult>): seq<real> {
    if results == [] then [] else [results[0].latencyMs as real / 1000.0] + Latencies(results[1..])
  }

  function Insert(x: real, s: seq<real>): seq<real> {
    if |s| == 0 || x <= s[0] then [x] + s else [s[0]] + Insert(x, s[1..])
  }

  function Sorted(s: seq<real>): seq<real> {
    if s == [] then [] else Insert(s[0], Sorted(s[1..]))
  }

  predicate Ordered(s: seq<real>) {
    forall i, j :: 0 <= i <= j < |s| ==> s[i] <= s[j]
  }

  function Median(s: seq<real>): real
    requires s != []
  {
    var n := |s|;
    if n % 2 == 1 then s[n / 2] else (s[n / 2 - 1] + s[n / 2]) / 2.0
  }

  /** int(n * 0.95), in exact arithmetic. */
  function P95Index(n: nat): nat {
    n * 95 / 100
  }

  function P95(s: seq<real>): real
    requires s != []
  {
    var k := P95Index(|s|);
    s[if k <= |s| - 1 then k else |s| - 1]
  }

  datatype EvalMetrics = EvalMetrics(
    prCount: nat,
    totalProduced: nat, totalTruePositives: nat, totalFalsePositives: nat, totalMissed: nat,
    acceptedFindingRate: real, fpRateVerified: real, fpRateHighConfidence: real,
    latencyP50: real, latencyP95: real)

  /** `compute_metrics`; None stands for the ValueError on an empty list. */
  function ComputeMetrics(results: seq<EvalResult>): Option<EvalMetrics> {
    if results == [] then None else
    var latencies := Latencies(results);
    LatenciesCount(results);
    SortedIsOrdered(latencies);
    Some(EvalMetrics(
      |results|,
      TotalProduced(results), TotalTruePositives(results), TotalFalsePositives(results), TotalMissed(results),
      Rate(TotalTruePositives(results), TotalTruePositives(results) + TotalMissed(results)),
      Rate(FalsePositivesAt(results, {Verified}), TotalProduced(results)),
      Rate(FalsePositivesAt(results, {Verified, High}), TotalProduced(results)),
      Median(Sorted(latencies)), P95(Sorted(latencies))))
  }

  lemma {:induction false} LatenciesCount(results: seq<EvalResult>)
    ensures |Latencies(results)| == |results|
  {
    if results != [] {
      LatenciesCount(results[1..]);
    }
  }

  // ----- sorting -----

  function CountAtMost(s: seq<real>, bound: real): nat {
    if s == [] then 0 else (if s[0] <= bound then 1 else 0) + CountAtMost(s[1..], bound)
  }

  function CountBelow(s: seq<real>, bound: real): nat {
    if s == [] then 0 else (if s[0] < bound then 1 else 0) + CountBelow(s[1..], bound)
  }

  lemma {:induction false} InsertKeepsOrder(x: real, s: seq<real>)
    requires Ordered(s)
    ensures |Insert(x, s)| == |s| + 1 && Ordered(Insert(x, s))
    ensures |s| == 0 || x <= s[0] ==> Insert(x, s)[0] == x
    ensures |s| > 0 && s[0] < x ==> Insert(x, s)[0] == s[0]
  {
    if |s| > 0 && s[0] < x {
      InsertKeepsOrder(x, s[1..]);
      PrependKeepsOrder(s[0], Insert(x, s[1..]));
    } else {
      PrependKeepsOrder(x, s);
    }
  }

  lemma PrependKeepsOrder(x: real, s: seq<real>)
    requires Ordered(s) && (|s| > 0 ==> x <= s[0])
    ensures Ordered([x] + s)
  {
    var t := [x] + s;
    forall i, j | 0 <= i <= j < |t| ensures t[i] <= t[j] {
      if i > 0 {
        assert t[i] == s[i - 1] && t[j] == s[j - 1];
      } else if j > 0 {
        assert t[j] == s[j - 1] && s[0] <= s[j - 1];
      }
    }
  }

  lemma {:induction false} SortedIsOrdered(s: seq<real>)
    ensures |Sorted(s)| == |s| && Ordered(Sorted(s))
  {
    if |s| > 0 {
      SortedIsOrdered(s[1..]);
      InsertKeepsOrder(s[0], Sorted(s[1..]));
    }
  }

  lemma {:induction false} InsertCounts(x: real, s: seq<real>, bound: real)
    ensures CountAtMost(Insert(x, s), bound) == CountAtMost(s, bound) + (if x <= bound then 1 else 0)
    ensures CountBelow(Insert(x, s), bound) == CountBelow(s, bound) + (if x < bound then 1 else 0)
  {
    if |s| == 0 || x <= s[0] {
      assert ([x] + s)[1..] == s;
    } else {
      InsertCounts(x, s[1..], bound);
      var r := Insert(x, s[1..]);
      assert ([s[0]] + r)[1..] == r;
    }
  }

  /** Sorting changes no count, at any bound. */
  lemma {:induction false} SortedCounts(s: seq<real>, bound: real)
    ensures CountAtMost(Sorted(s), bound) == CountAtMost(s, bound)
    ensures CountBelow(Sorted(s), bound) == CountBelow(s, bound)
  {
    if |s| > 0 {
      SortedCounts(s[1..], bound);
      InsertCounts(s[0], Sorted(s[1..]), bound);
    }
  }

  lemma {:induction false} OrderedCountAtMost(s: seq<real>, k: nat)
    requires Ordered(s) && k < |s|
    ensures CountAtMost(s, s[k]) >= k + 1
  {
    if k > 0 {
      OrderedCountAtMost(s[1..], k - 1);
    }
  }

  lemma {:induction false} OrderedCountBelow(s: seq<real>, k: nat)
    requires Ordered(s) && k < |s|
    ensures CountBelow(s, s[k]) <= k
  {
    if k > 0 {
      OrderedCountBelow(s[1..], k - 1);
    } else {
      NoneBelow(s, s[0]);
    }
  }

  lemma {:induction false} NoneBelow(s: seq<real>, bound: real)
    requires forall i :: 0 <= i < |s| ==> bound <= s[i]
    ensures CountBelow(s, bound) == 0
  {
    if s != [] {
      NoneBelow(s[1..], bound);
    }
  }

  // ----- the laws -----

  /** The result of some case: its classes come from the matching. */
  predicate Accounted(r: EvalResult) {
    var c := Classify(r.produced, r.expected);
    r.truePositives == c.truePositives && r.falsePositives == c.falsePositives && r.missed == c.missed
  }

  lemma {:induction false} TotalsAddUp(results: seq<EvalResult>)
    requires forall k :: 0 <= k < |results| ==> Accounted(results[k])
    ensures TotalTruePositives(results) + TotalFalsePositives(results) == TotalProduced(results)
    ensures TotalTruePositives(results) + TotalMissed(results) == TotalExpected(results)
  {
    if results != [] {
      assert Accounted(results[0]);
      ClassifyAccounts(results[0].produced, results[0].expected);
      TotalsAddUp(results[1..]);
    }
  }

  lemma {:induction false} CountConfidenceMonotone(fs: seq<Finding>, a: set<Confidence>, b: set<Confidence>)
    requires a <= b
    ensures CountConfidence(fs, a) <= CountConfidence(fs, b) <= |fs|
  {
    if fs != [] {
      CountConfidenceMonotone(fs[1..], a, b);
    }
  }

  lemma {:induction false} FalsePositivesMonotone(results: seq<EvalResult>, a: set<Confidence>, b: set<Confidence>)
    requires a <= b
    ensures FalsePositivesAt(results, a) <= FalsePositivesAt(results, b) <= TotalFalsePositives(results)
  {
    if results != [] {
      CountConfidenceMonotone(results[0].falsePositives, a, b);
      FalsePositivesMonotone(results[1..], a, b);
    }
  }

  lemma RateBounds(a: nat, b: nat, whole: nat)
    requires a <= b <= whole
    ensures 0.0 <= Rate(a, whole) <= Rate(b, whole) <= 1.0
  {
    if whole > 0 {
      var w := whole as real;
      assert a as real / w <= b as real / w;
      assert b as real / w <= w / w == 1.0;
    }
  }

  /** The verified false positives are among the high-confidence ones, and both are proportions of what was produced. */
  lemma FalsePositiveRatesHold(results: seq<EvalResult>)
    requires results != [] && forall k :: 0 <= k < |results| ==> Accounted(results[k])
    ensures var m := ComputeMetrics(results).value;
            && 0.0 <= m.fpRateVerified <= m.fpRateHighConfidence <= 1.0
            && (m.totalProduced == 0 ==> m.fpRateHighConfidence == 0.0)
            && m.fpRateVerified * m.totalProduced as real == FalsePositivesAt(results, {Verified}) as real
            && m.fpRateHighConfidence * m.totalProduced as real == FalsePositivesAt(results, {Verified, High}) as real
  {
    hide TotalTruePositives, TotalFalsePositives, TotalMissed, TotalProduced, TotalExpected, Rate;
    hide FalsePositivesAt, Latencies, Sorted, Median, P95, Accounted;
    TotalsAddUp(results);
    FalsePositivesMonotone(results, {Verified}, {Verified, High});
    var verified, high := FalsePositivesAt(results, {Verified}), FalsePositivesAt(results, {Verified, High});
    RateBounds(verified, high, TotalProduced(results));
    RateTimes(verified, TotalProduced(results));
    RateTimes(high, TotalProduced(results));
  }

  /** Every produced finding is a true or a false positive, every expected one is accepted or missed. */
  lemma AcceptedRateHolds(results: seq<EvalResult>)
    requires results != [] && forall k :: 0 <= k < |results| ==> Accounted(results[k])
    ensures var m := ComputeMetrics(results).value;
            && 0.0 <= m.acceptedFindingRate <= 1.0
            && m.acceptedFindingRate * TotalExpected(results) as real == m.totalTruePositives as real
            && m.prCount == |results| && m.totalProduced == TotalProduced(results)
            && m.totalTruePositives == TotalTruePositives(results) && m.totalMissed == TotalMissed(results)
            && (TotalExpected(results) == 0 ==> m.acceptedFindingRate == 0.0)
            && (m.acceptedFindingRate == 1.0 <==> m.totalMissed == 0 < TotalExpected(results))
            && m.totalTruePositives + m.totalFalsePositives == m.totalProduced
            && m.totalTruePositives + m.totalMissed == TotalExpected(results)
  {
    hide TotalTruePositives, TotalFalsePositives, TotalMissed, TotalProduced, TotalExpected, Rate;
    hide FalsePositivesAt, Latencies, Sorted, Median, P95, Accounted;
    TotalsAddUp(results);
    var tp, missed := TotalTruePositives(results), TotalMissed(results);
    RateBounds(tp, tp, tp + missed);
    RateIsOneIff(tp, tp + missed);
    RateTimes(tp, tp + missed);
  }

  lemma RateTimes(part: nat, whole: nat)
    requires part <= whole
    ensures Rate(part, whole) * whole as real == part as real
    ensures whole == 0 ==> Rate(part, whole) == 0.0
  {
  }

  lemma RateIsOneIff(part: nat, whole: nat)
    requires part <= whole
    ensures Rate(part, whole) == 1.0 <==> part == whole > 0
  {
    if whole > 0 {
      var w := whole as real;
      assert (part as real / w) * w == part as real;
    }
  }

  /**
   The percentiles mean what they say, for every number of results: more than 95 percent of the
   latencies are at most P95, at most 95 percent are below it, at least half are at most P50,
   at most half are below it, and P50 does not exceed P95.
   */
  lemma PercentilesHold(results: seq<EvalResult>)
    requires results != []
    ensures var m := ComputeMetrics(results).value;
            && 100 * CountAtMost(Latencies(results), m.latencyP95) > 95 * |results|
            && 100 * CountBelow(Latencies(results), m.latencyP95) <= 95 * |results|
            && 2 * CountAtMost(Latencies(results), m.latencyP50) >= |results|
            && 2 * CountBelow(Latencies(results), m.latencyP50) <= |results|
            && m.latencyP50 <= m.latencyP95
  {
    LatenciesCount(results);
    SortedIsOrdered(Latencies(results));
    var s := Sorted(Latencies(results));
    var n := |s|;
    var k := P95Index(n);
    OrderedCountAtMost(s, k);
    OrderedCountBelow(s, k);
    MedianBounds(s, k);
    SortedCounts(Latencies(results), P95(s));
    SortedCounts(Latencies(results), Median(s));
  }

  /** The median is the middle value, or lies midway between the two middle ones. */
  lemma MedianIsMiddle(s: seq<real>)
    requires s != []
    ensures |s| % 2 == 1 ==> Median(s) == s[(|s| - 1) / 2]
    ensures |s| % 2 == 0 ==> Median(s) - s[|s| / 2 - 1] == s[|s| / 2] - Median(s)
  {
  }

  /** Latencies are in seconds, one for each result. */
  lemma {:induction false} LatencyAt(results: seq<EvalResult>, k: nat)
    requires k < |results|
    ensures |Latencies(results)| == |results| && 1000.0 * Latencies(results)[k] == results[k].latencyMs as real
  {
    LatenciesCount(results);
    if k > 0 {
      LatencyAt(results[1..], k - 1);
    }
  }

  /** The median lies between the two middle values. */
  lemma MedianBounds(s: seq<real>, k: nat)
    requires Ordered(s) && s != [] && |s| / 2 <= k < |s|
    ensures Median(s) <= s[k]
    ensures 2 * CountAtMost(s, Median(s)) >= |s|
    ensures 2 * CountBelow(s, Median(s)) <= |s|
  {
    var n := |s|;
    OrderedCountBelow(s, n / 2);
    CountBelowMonotone(s, Median(s), s[n / 2]);
    if n % 2 == 1 {
      OrderedCountAtMost(s, n / 2);
    } else {
      assert s[n / 2 - 1] <= Median(s) <= s[n / 2];
      OrderedCountAtMost(s, n / 2 - 1);
      CountAtMostMonotone(s, s[n / 2 - 1], Median(s));
    }
  }

  lemma {:induction false} CountBelowMonotone(s: seq<real>, a: real, b: real)
    requires a <= b
    ensures CountBelow(s, a) <= CountBelow(s, b)
  {
    if s != [] {
      CountBelowMonotone(s[1..], a, b);
    }
  }

  lemma {:induction false} CountAtMostMonotone(s: seq<real>, a: real, b: real)
    requires a <= b
    ensures CountAtMost(s, a) <= CountAtMost(s, b)
  {
    if s != [] {
      CountAtMostMonotone(s[1..], a, b);
    }
  }
}
