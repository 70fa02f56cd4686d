// Signed regression in basis points, rounded towards "worse" (evaluate_v02_gates.py and
// compare_v01_benchmarks.py carry one implementation each).
module RegressionArithmetic {
  import opened Arithmetic
  import opened Wrappers

  datatype Direction = LowerIsBetter | HigherIsBetter

  // How much worse the candidate is than the baseline.
  function Loss(baseline: int, candidate: int, direction: Direction): int {
    if direction.LowerIsBetter? then candidate - baseline else baseline - candidate
  }

  // The gate evaluator's version; negative inputs are an invalid receipt.
  function RegressionBasisPoints(baseline: int, candidate: int, direction: Direction): Option<int> {
    if baseline < 0 || candidate < 0 then None
    else if baseline == 0 then
      Some(if candidate == 0 then 0 else if direction.LowerIsBetter? then 10_001 else -10_001)
    else
      var numerator := Loss(baseline, candidate, direction) * 10_000;
      Some(if numerator <= 0 then -((-numerator) / baseline) else (numerator + baseline - 1) / baseline)
  }

  // The release comparator's version; a zero on either side is an invalid receipt too.
  function ComparatorBasisPoints(baseline: int, candidate: int, direction: Direction): Option<int> {
    if baseline <= 0 || candidate <= 0 then None
    else
      var numerator := Loss(baseline, candidate, direction) * 10_000;
      Some(if numerator <= 0 then -((-numerator) / baseline) else (numerator + baseline - 1) / baseline)
  }

  // q is the ceiling of a / b.
  ghost predicate IsCeiling(q: int, a: int, b: int)
    requires b > 0
  {
    (q - 1) * b < a <= q * b
  }

  lemma {:induction false} CeilingDecides(q: int, a: int, b: int, bound: int)
    requires b > 0 && IsCeiling(q, a, b)
    ensures q <= bound <==> a <= bound * b
  {
    if q <= bound {
      assert q * b <= bound * b by { Product(q, bound, b); }
    } else {
      assert bound * b <= (q - 1) * b by { Product(bound, q - 1, b); }
    }
  }

  // With a positive baseline both signs are rounded up: the result is the exact ceiling of
  // 10000 * loss / baseline, and both implementations agree wherever both answer.
  lemma {:induction false} RegressionIsCeiling(baseline: int, candidate: int, direction: Direction)
    requires baseline > 0 && candidate >= 0
    ensures RegressionBasisPoints(baseline, candidate, direction).Some?
    ensures IsCeiling(RegressionBasisPoints(baseline, candidate, direction).value,
                      10_000 * Loss(baseline, candidate, direction), baseline)
    ensures candidate > 0 ==> ComparatorBasisPoints(baseline, candidate, direction)
                              == RegressionBasisPoints(baseline, candidate, direction)
  {}

  // The whole evaluator formula: invalid for negative values; over a zero baseline 0 or the sentinel of
  // the direction; otherwise the least whole number of basis points that covers the change for the worse.
  lemma {:induction false} RegressionMeaning(baseline: int, candidate: int, direction: Direction)
    ensures var r := RegressionBasisPoints(baseline, candidate, direction);
            && (r.None? <==> baseline < 0 || candidate < 0)
            && (r.Some? && baseline == 0 ==>
                  r.value == if candidate == 0 then 0 else if direction.LowerIsBetter? then 10_001 else -10_001)
            && (r.Some? && baseline > 0 && direction.LowerIsBetter? ==>
                  (r.value - 1) * baseline < 10_000 * (candidate - baseline) <= r.value * baseline)
            && (r.Some? && baseline > 0 && direction.HigherIsBetter? ==>
                  (r.value - 1) * baseline < 10_000 * (baseline - candidate) <= r.value * baseline)
  {
    if baseline > 0 && candidate >= 0 { RegressionIsCeiling(baseline, candidate, direction); }
  }

  // For every budget a validated policy can hold, the rounded test decides exactly the
  // rational one: loss / baseline <= budget / 10000, multiplied out.
  lemma {:induction false} BudgetTestIsExact(baseline: nat, candidate: nat, direction: Direction, budget: int)
    requires 0 <= budget <= 10_000
    ensures RegressionBasisPoints(baseline, candidate, direction).Some?
    ensures RegressionBasisPoints(baseline, candidate, direction).value <= budget
            <==> 10_000 * Loss(baseline, candidate, direction) <= budget * baseline
  {
    if baseline > 0 {
      RegressionIsCeiling(baseline, candidate, direction);
      CeilingDecides(RegressionBasisPoints(baseline, candidate, direction).value,
                     10_000 * Loss(baseline, candidate, direction), baseline, budget);
    }
  }

  // Without the policy's upper limit on budgets the test is exact for all values exactly
  // when the budget cannot absorb the sentinel for a zero baseline.
  lemma {:induction false} BudgetTestIsExactIff(budget: nat)
    ensures budget <= 10_000 <==>
            forall baseline: nat, candidate: nat, direction: Direction ::
              RegressionBasisPoints(baseline, candidate, direction).Some? &&
              (RegressionBasisPoints(baseline, candidate, direction).value <= budget
               <==> 10_000 * Loss(baseline, candidate, direction) <= budget * baseline)
  {
    if budget <= 10_000 {
      forall baseline: nat, candidate: nat, direction: Direction
        ensures RegressionBasisPoints(baseline, candidate, direction).Some?
        ensures RegressionBasisPoints(baseline, candidate, direction).value <= budget
                <==> 10_000 * Loss(baseline, candidate, direction) <= budget * baseline
      {
        BudgetTestIsExact(baseline, candidate, direction, budget);
      }
    } else {
      assert RegressionBasisPoints(0, 1, LowerIsBetter).value <= budget;
      assert 10_000 * Loss(0, 1, LowerIsBetter) == 10_000;
    }
  }

  // A zero baseline passes a lower-is-better budget only with a zero candidate.
  lemma {:induction false} ZeroBaseline(candidate: nat, budget: int)
    requires 0 <= budget <= 10_000
    ensures RegressionBasisPoints(0, candidate, LowerIsBetter).value <= budget <==> candidate == 0
  {}

  // A worse candidate never scores a smaller regression.
  lemma {:induction false} RegressionMonotone(baseline: nat, better: nat, worse: nat, direction: Direction)
    requires Loss(baseline, better, direction) <= Loss(baseline, worse, direction)
    ensures RegressionBasisPoints(baseline, better, direction).value
            <= RegressionBasisPoints(baseline, worse, direction).value
  {
    if baseline > 0 {
      RegressionIsCeiling(baseline, better, direction);
      RegressionIsCeiling(baseline, worse, direction);
      CeilingDecides(RegressionBasisPoints(baseline, better, direction).value,
                     10_000 * Loss(baseline, better, direction), baseline,
                     RegressionBasisPoints(baseline, worse, direction).value);
    }
  }

  // ----- the release comparator's loop -----

  datatype Metric = Metric(baseline: int, candidate: int, direction: Direction)

  predicate Positive(m: Metric) {
    m.baseline > 0 && m.candidate > 0
  }

  // The rational test the rounded one stands for.
  predicate WithinBudget(m: Metric, maximum: nat) {
    10_000 * Loss(m.baseline, m.candidate, m.direction) <= maximum * m.baseline
  }

  // Compatible receipts are within budget exactly when every metric is, over the rationals,
  // for any budget at all; a metric that is not positive is an invalid receipt.
  method CompareMetrics(metrics: seq<Metric>, compatible: bool, maximum: nat)
    returns (r: Option<bool>, verdicts: seq<bool>)
    ensures r.None? <==> compatible && exists i :: 0 <= i < |metrics| && !Positive(metrics[i])
    ensures r.Some? ==>
            (r.value <==> compatible && forall i :: 0 <= i < |metrics| ==> WithinBudget(metrics[i], maximum))
    ensures r.Some? ==> |verdicts| == if compatible then |metrics| else 0
    ensures r.Some? ==> forall i :: 0 <= i < |verdicts| ==> verdicts[i] == WithinBudget(metrics[i], maximum)
  {
    verdicts := [];
    var withinBudget := compatible;
    if !compatible { return Some(false), verdicts; }
    for i := 0 to |metrics|
      invariant forall k :: 0 <= k < i ==> Positive(metrics[k])
      invariant |verdicts| == i && forall k :: 0 <= k < i ==> verdicts[k] == WithinBudget(metrics[k], maximum)
      invariant withinBudget <==> forall k :: 0 <= k < i ==> WithinBudget(metrics[k], maximum)
    {
      var m := metrics[i];
      var regression := ComparatorBasisPoints(m.baseline, m.candidate, m.direction);
      if regression.None? { return None, verdicts; }
      RegressionIsCeiling(m.baseline, m.candidate, m.direction);
      CeilingDecides(regression.value, 10_000 * Loss(m.baseline, m.candidate, m.direction), m.baseline, maximum);
      var within := regression.value <= maximum;
      withinBudget := withinBudget && within;
      verdicts := verdicts + [within];
    }
    return Some(withinBudget), verdicts;
  }
}
