// The aggregators of the tracking and detection harnesses (run_v02_tracking_benchmark.py,
// run_v02_detection_benchmark.py) and their agreement with the gate evaluator.
module HarnessAggregation {
  import opened Wrappers
  import opened OrderStatistics
  import opened GateEvaluation

  type Counts = map<string, map<string, int>>

  const PEAK_RSS := "peak_rss_bytes"
  const FAILURE_RATE := "failure_rate_basis_points"
  const CUT_CONTINUATIONS := "false_continuations_across_cuts"

  // One repetition's integers as evaluator values.
  function LiftRow(row: map<string, int>): map<string, Value> {
    map s | s in row :: Known(row[s])
  }

  function Lift(c: Counts): Table {
    map n | n in c :: LiftRow(c[n])
  }

  function LiftAll(reps: seq<Counts>): (r: seq<Table>)
    ensures |r| == |reps| && forall k :: 0 <= k < |reps| ==> r[k] == Lift(reps[k])
  {
    if reps == [] then [] else [Lift(reps[0])] + LiftAll(reps[1..])
  }

  function Values(s: seq<int>): (r: seq<Value>)
    ensures |r| == |s| && forall i :: 0 <= i < |s| ==> r[i] == Known(s[i])
  {
    if s == [] then [] else [Known(s[0])] + Values(s[1..])
  }

  // Every repetition has the first one's metrics and strata.
  ghost predicate SameShape(reps: seq<Counts>) {
    reps != [] &&
    forall k, n :: 0 <= k < |reps| && n in reps[0] ==> n in reps[k] && reps[0][n].Keys <= reps[k][n].Keys
  }

  function Observed(reps: seq<Counts>, name: string, stratum: string): (r: seq<int>)
    requires forall k :: 0 <= k < |reps| ==> name in reps[k] && stratum in reps[k][name]
    ensures |r| == |reps| && forall k :: 0 <= k < |reps| ==> r[k] == reps[k][name][stratum]
  {
    if reps == [] then [] else [reps[0][name][stratum]] + Observed(reps[1..], name, stratum)
  }

  // The two harnesses sort first and work on the sorted list throughout.
  function Dispersion(values: seq<int>): int
    requires values != []
  {
    Sort(Deviations(values, values[|values| / 2]))[|values| / 2]
  }

  datatype Harness = Tracking | Detection

  // What a harness publishes of one cell: the aggregate and its dispersion.
  function HarnessCell(h: Harness, observed: seq<int>, name: string): (int, int)
    requires observed != []
  {
    var values := Sort(observed);
    var aggregate :=
      if name == PEAK_RSS then Maximum(values)
      else if h.Tracking? && (name == FAILURE_RATE || name == CUT_CONTINUATIONS) then
        (Sum(values) + |values| - 1) / |values|
      else values[|values| / 2];
    (aggregate, Dispersion(values))
  }

  // The aggregation the evaluation policy assigns to each metric of the harness.
  predicate Assigned(h: Harness, d: Definition) {
    if d.name == PEAK_RSS then d.aggregation.UseMaximum?
    else if d.name == FAILURE_RATE || (h.Tracking? && d.name == CUT_CONTINUATIONS) then
      d.aggregation.AdverseMean? && d.direction.LowerIsBetter?
    else d.aggregation.UseMedian?
  }

  // The detection harness writes its failure rate as the constant 0.
  ghost predicate Produced(h: Harness, observed: seq<int>, name: string) {
    h.Detection? && name == FAILURE_RATE ==> Within(observed, 0, 0)
  }

  lemma {:induction false} MaximumIgnoresOrder(s: seq<int>)
    requires s != []
    ensures Maximum(Sort(s)) == Maximum(s)
  {
    var a, b := Maximum(s), Maximum(Sort(s));
    MaximumIsGreatest(s, a); MaximumIsGreatest(s, b);
    MaximumIsGreatest(Sort(s), a); MaximumIsGreatest(Sort(s), b);
    SortCount(s, a); SortCount(s, b);
  }

  lemma {:induction false} NumbersOfValues(s: seq<int>)
    ensures Unknown !in Values(s) && Numbers(Values(s)) == s
  {}

  lemma {:induction false} DispersionAgrees(observed: seq<int>)
    requires observed != []
    ensures Dispersion(Sort(observed)) == MedianAbsoluteDeviation(observed)
    ensures Sort(observed)[|observed| / 2] == Median(observed)
  {
    DispersionIgnoresOrder(observed);
  }

  lemma {:induction false} ZerosAggregateToZero(observed: seq<int>)
    requires observed != [] && Within(observed, 0, 0)
    ensures Median(observed) == 0 && (Sum(observed) + |observed| - 1) / |observed| == 0
  {
    MedianWithin(observed, 0, 0);
    AdverseMeanWithin(observed, 0, 0);
  }

  // What the harness computes, in the evaluator's terms.
  lemma {:induction false} HarnessCellMeaning(h: Harness, observed: seq<int>, name: string)
    requires observed != []
    ensures HarnessCell(h, observed, name).1 == MedianAbsoluteDeviation(observed)
    ensures HarnessCell(h, observed, name).0 ==
            if name == PEAK_RSS then Maximum(observed)
            else if h.Tracking? && (name == FAILURE_RATE || name == CUT_CONTINUATIONS) then
              (Sum(observed) + |observed| - 1) / |observed|
            else Median(observed)
  {
    DispersionAgrees(observed);
    MaximumIgnoresOrder(observed);
    SortSorts(observed);
  }

  lemma {:induction false} KnownAggregate(observed: seq<int>, d: Definition)
    requires observed != []
    ensures AggregateValues(Values(observed), d) ==
            match AggregateNumbers(observed, d)
            case None => Err(InvalidReceipt)
            case Some(a) => Ok((Known(a), Known(MedianAbsoluteDeviation(observed))))
  {
    NumbersOfValues(observed);
  }

  lemma {:induction false} NumbersAgree(h: Harness, observed: seq<int>, d: Definition)
    requires observed != [] && Assigned(h, d) && Produced(h, observed, d.name)
    ensures AggregateNumbers(observed, d) ==
            if d.aggregation.AdverseMean? && HasNegative(observed) then None
            else Some(HarnessCell(h, observed, d.name).0)
  {
    HarnessCellMeaning(h, observed, d.name);
    if d.name == PEAK_RSS {
    } else if h.Detection? && d.name == FAILURE_RATE {
      ZerosAggregateToZero(observed);
      assert !HasNegative(observed);
    } else {
    }
  }

  // Sorting before aggregating changes neither the aggregate nor the dispersion; and the
  // detection harness, which never averages, agrees because its failure rate is 0.
  lemma {:induction false} CellAgrees(h: Harness, observed: seq<int>, d: Definition)
    requires observed != [] && Assigned(h, d) && Produced(h, observed, d.name)
    ensures AggregateValues(Values(observed), d) ==
            if d.aggregation.AdverseMean? && HasNegative(observed) then Err(InvalidReceipt)
            else Ok((Known(HarnessCell(h, observed, d.name).0), Known(HarnessCell(h, observed, d.name).1)))
  {
    KnownAggregate(observed, d);
    NumbersAgree(h, observed, d);
    HarnessCellMeaning(h, observed, d.name);
  }

  datatype Summary = Summary(metrics: Counts, dispersion: Counts)

  ghost predicate IsSummary(h: Harness, a: Summary, reps: seq<Counts>)
    requires SameShape(reps)
  {
    && a.metrics.Keys == a.dispersion.Keys == reps[0].Keys
    && forall n :: n in reps[0] ==> IsRow(h, a.metrics[n], a.dispersion[n], reps, n, reps[0][n].Keys)
  }

  ghost predicate IsRow(h: Harness, row: map<string, int>, spread: map<string, int>,
                        reps: seq<Counts>, n: string, strata: set<string>)
    requires SameShape(reps) && n in reps[0] && strata <= reps[0][n].Keys
  {
    && row.Keys == spread.Keys == strata
    && forall s :: s in strata ==> (row[s], spread[s]) == HarnessCell(h, Observed(reps, n, s), n)
  }

  method AggregateCell(h: Harness, observed: seq<int>, name: string) returns (aggregate: int, spread: int)
    requires observed != []
    ensures (aggregate, spread) == HarnessCell(h, observed, name)
  {
    var values := Sort(observed);
    var center := values[|values| / 2];
    if name == PEAK_RSS {
      aggregate := Maximum(values);
    } else if h.Tracking? && (name == FAILURE_RATE || name == CUT_CONTINUATIONS) {
      aggregate := (Sum(values) + |values| - 1) / |values|;
    } else {
      aggregate := center;
    }
    var deviations := Sort(Deviations(values, center));
    spread := deviations[|deviations| / 2];
  }

  method AggregateRow(
    h: Harness, reps: seq<Counts>, name: string)
    returns (row: map<string, int>, spread: map<string, int>)
    requires SameShape(reps) && name in reps[0]
    ensures IsRow(h, row, spread, reps, name, reps[0][name].Keys)
  {
    row, spread := map[], map[];
    var strata := reps[0][name].Keys;
    while strata != {}
      invariant strata <= reps[0][name].Keys
      invariant IsRow(h, row, spread, reps, name, reps[0][name].Keys - strata)
    {
      var stratum :| stratum in strata;
      var aggregate, deviation := AggregateCell(h, Observed(reps, name, stratum), name);
      row, spread := row[stratum := aggregate], spread[stratum := deviation];
      strata := strata - {stratum};
    }
  }

  method HarnessAggregate(h: Harness, reps: seq<Counts>) returns (a: Summary)
    requires SameShape(reps)
    ensures IsSummary(h, a, reps)
  {
    var metrics: Counts, dispersion: Counts := map[], map[];
    var names := reps[0].Keys;
    while names != {}
      invariant names <= reps[0].Keys
      invariant metrics.Keys == dispersion.Keys == reps[0].Keys - names
      invariant forall n :: n in metrics ==> IsRow(h, metrics[n], dispersion[n], reps, n, reps[0][n].Keys)
    {
      var name :| name in names;
      var row, spread := AggregateRow(h, reps, name);
      metrics, dispersion := metrics[name := row], dispersion[name := spread];
      names := names - {name};
    }
    a := Summary(metrics, dispersion);
  }

  // The harness and the policy name the same metrics and strata.
  ghost predicate SameMetrics(reps: seq<Counts>, ds: seq<Definition>)
    requires SameShape(reps)
  {
    && reps[0].Keys == (set i | 0 <= i < |ds| :: ds[i].name)
    && forall i :: 0 <= i < |ds| ==> reps[0][ds[i].name].Keys == set s | s in ds[i].strata
  }

  lemma {:induction false} LiftedColumn(reps: seq<Counts>, d: Definition, s: string)
    requires SameShape(reps) && d.name in reps[0] && s in d.strata
    requires forall x :: x in d.strata ==> x in reps[0][d.name]
    ensures forall k :: 0 <= k < |reps| ==> Defines(LiftAll(reps)[k], d)
    ensures Column(LiftAll(reps), d, s) == Values(Observed(reps, d.name, s))
  {}

  // The detection harness only emits failure rates of 0.
  ghost predicate Emitted(h: Harness, reps: seq<Counts>) {
    h.Detection? ==>
      forall k, s :: 0 <= k < |reps| && FAILURE_RATE in reps[k] && s in reps[k][FAILURE_RATE] ==>
        reps[k][FAILURE_RATE][s] == 0
  }

  lemma {:induction false} EmittedIsProduced(h: Harness, reps: seq<Counts>, name: string, s: string)
    requires Emitted(h, reps) && forall k :: 0 <= k < |reps| ==> name in reps[k] && s in reps[k][name]
    ensures Produced(h, Observed(reps, name, s), name)
  {}

  lemma {:induction false} LiftedCell(h: Harness, a: Summary, reps: seq<Counts>, d: Definition, s: string)
    requires SameShape(reps) && Emitted(h, reps) && IsSummary(h, a, reps) && Assigned(h, d)
    requires d.name in reps[0] && s in d.strata && forall x :: x in d.strata ==> x in reps[0][d.name]
    ensures forall k :: 0 <= k < |reps| ==> Defines(LiftAll(reps)[k], d)
    ensures s in a.metrics[d.name] && s in a.dispersion[d.name]
    ensures AggregateValues(Column(LiftAll(reps), d, s), d) ==
            if d.aggregation.AdverseMean? && HasNegative(Observed(reps, d.name, s)) then Err(InvalidReceipt)
            else Ok((Known(a.metrics[d.name][s]), Known(a.dispersion[d.name][s])))
  {
    LiftedColumn(reps, d, s);
    EmittedIsProduced(h, reps, d.name, s);
    CellAgrees(h, Observed(reps, d.name, s), d);
    assert IsRow(h, a.metrics[d.name], a.dispersion[d.name], reps, d.name, reps[0][d.name].Keys);
  }

  lemma {:induction false} LiftedCover(reps: seq<Counts>, ds: seq<Definition>)
    requires SameShape(reps) && SameMetrics(reps, ds)
    ensures AllCover(LiftAll(reps), ds)
    ensures forall i :: 0 <= i < |ds| ==> ds[i].name in reps[0]
    ensures forall i, s :: 0 <= i < |ds| && s in ds[i].strata ==> s in reps[0][ds[i].name]
  {}

  // Some averaged value is negative.
  ghost predicate AveragesANegative(reps: seq<Counts>, d: Definition, s: string)
    requires SameShape(reps) && d.name in reps[0] && s in reps[0][d.name]
  {
    d.aggregation.AdverseMean? && HasNegative(Observed(reps, d.name, s))
  }

  ghost predicate NamesPresent(reps: seq<Counts>, ds: seq<Definition>)
    requires SameShape(reps)
  {
    forall i, s :: 0 <= i < |ds| && s in ds[i].strata ==> ds[i].name in reps[0] && s in reps[0][ds[i].name]
  }

  ghost predicate AveragesSomeNegative(reps: seq<Counts>, ds: seq<Definition>)
    requires SameShape(reps) && NamesPresent(reps, ds)
  {
    exists i, s :: 0 <= i < |ds| && s in ds[i].strata && AveragesANegative(reps, ds[i], s)
  }

  lemma {:induction false} LiftedError(h: Harness, a: Summary, reps: seq<Counts>, d: Definition, s: string)
    requires SameShape(reps) && Emitted(h, reps) && IsSummary(h, a, reps) && Assigned(h, d)
    requires d.name in reps[0] && s in d.strata && forall x :: x in d.strata ==> x in reps[0][d.name]
    requires forall k :: 0 <= k < |reps| ==> Defines(LiftAll(reps)[k], d)
    ensures AggregateValues(Column(LiftAll(reps), d, s), d).Err? <==> AveragesANegative(reps, d, s)
  {
    LiftedCell(h, a, reps, d, s);
  }

  lemma {:induction false} LiftedRow(h: Harness, a: Summary, reps: seq<Counts>, d: Definition)
    requires SameShape(reps) && Emitted(h, reps) && IsSummary(h, a, reps) && Assigned(h, d)
    requires d.name in reps[0] && forall x :: x in d.strata ==> x in reps[0][d.name]
    requires reps[0][d.name].Keys == set s | s in d.strata
    requires forall k :: 0 <= k < |reps| ==> Defines(LiftAll(reps)[k], d)
    requires forall s :: s in d.strata ==> !AveragesANegative(reps, d, s)
    ensures d.name in a.metrics && d.name in a.dispersion
    ensures RowIs(LiftRow(a.metrics[d.name]), LiftRow(a.dispersion[d.name]), LiftAll(reps), d, d.strata)
  {
    assert IsRow(h, a.metrics[d.name], a.dispersion[d.name], reps, d.name, reps[0][d.name].Keys);
    forall s | s in d.strata
      ensures s in a.metrics[d.name] && s in a.dispersion[d.name]
      ensures AggregateValues(Column(LiftAll(reps), d, s), d) ==
              Ok((Known(a.metrics[d.name][s]), Known(a.dispersion[d.name][s])))
    {
      LiftedCell(h, a, reps, d, s);
    }
  }

  // For every summary of either harness under the policy: if no averaged value is negative
  // the lifted summary is the evaluator's aggregate, otherwise the evaluator has none.
  lemma {:induction false} HarnessAgrees(h: Harness, a: Summary, reps: seq<Counts>, ds: seq<Definition>)
    requires SameShape(reps) && SameMetrics(reps, ds) && Emitted(h, reps) && IsSummary(h, a, reps)
    requires forall i :: 0 <= i < |ds| ==> Assigned(h, ds[i])
    ensures AllCover(LiftAll(reps), ds)
    ensures NamesPresent(reps, ds)
    ensures Unaggregable(LiftAll(reps), ds) <==> AveragesSomeNegative(reps, ds)
    ensures !Unaggregable(LiftAll(reps), ds) ==>
            IsAggregate(Aggregate(Lift(a.metrics), Lift(a.dispersion)), LiftAll(reps), ds)
  {
    LiftedCover(reps, ds);
    AllErrorsAgree(h, a, reps, ds);
    if !Unaggregable(LiftAll(reps), ds) {
      LiftedAggregate(h, a, reps, ds);
    }
  }

  // The evaluator fails on a cell exactly when it averages a negative value.
  ghost predicate ErrorsAgree(tables: seq<Table>, reps: seq<Counts>, d: Definition)
    requires SameShape(reps) && tables != [] && forall k :: 0 <= k < |tables| ==> Defines(tables[k], d)
    requires forall s :: s in d.strata ==> d.name in reps[0] && s in reps[0][d.name]
  {
    forall s :: s in d.strata ==>
      (AggregateValues(Column(tables, d, s), d).Err? <==> AveragesANegative(reps, d, s))
  }

  lemma {:induction false} LiftedErrors(h: Harness, a: Summary, reps: seq<Counts>, d: Definition)
    requires SameShape(reps) && Emitted(h, reps) && IsSummary(h, a, reps) && Assigned(h, d)
    requires d.name in reps[0] && forall x :: x in d.strata ==> x in reps[0][d.name]
    requires forall k :: 0 <= k < |reps| ==> Defines(LiftAll(reps)[k], d)
    ensures ErrorsAgree(LiftAll(reps), reps, d)
  {
    forall s | s in d.strata
      ensures AggregateValues(Column(LiftAll(reps), d, s), d).Err? <==> AveragesANegative(reps, d, s)
    {
      LiftedError(h, a, reps, d, s);
    }
  }

  lemma {:induction false} SomeErrorAgrees(tables: seq<Table>, reps: seq<Counts>, ds: seq<Definition>)
    requires SameShape(reps) && tables != [] && AllCover(tables, ds) && NamesPresent(reps, ds)
    requires forall i :: 0 <= i < |ds| ==> ErrorsAgree(tables, reps, ds[i])
    ensures Unaggregable(tables, ds) <==> AveragesSomeNegative(reps, ds)
  {
    if i, s :| 0 <= i < |ds| && s in ds[i].strata && AggregateValues(Column(tables, ds[i], s), ds[i]).Err? {
      assert ErrorsAgree(tables, reps, ds[i]) && AveragesANegative(reps, ds[i], s);
    }
    if i, s :| 0 <= i < |ds| && s in ds[i].strata && AveragesANegative(reps, ds[i], s) {
      assert ErrorsAgree(tables, reps, ds[i]);
    }
  }

  lemma {:induction false} AllErrorsAgree(h: Harness, a: Summary, reps: seq<Counts>, ds: seq<Definition>)
    requires SameShape(reps) && Emitted(h, reps) && IsSummary(h, a, reps)
    requires AllCover(LiftAll(reps), ds) && NamesPresent(reps, ds)
    requires forall i :: 0 <= i < |ds| ==> ds[i].name in reps[0] && Assigned(h, ds[i])
    ensures Unaggregable(LiftAll(reps), ds) <==> AveragesSomeNegative(reps, ds)
  {
    forall i | 0 <= i < |ds| ensures ErrorsAgree(LiftAll(reps), reps, ds[i]) {
      LiftedErrors(h, a, reps, ds[i]);
    }
    SomeErrorAgrees(LiftAll(reps), reps, ds);
  }

  lemma {:induction false} LiftedRowAt(h: Harness, a: Summary, reps: seq<Counts>, ds: seq<Definition>, i: nat)
    requires SameShape(reps) && SameMetrics(reps, ds) && Emitted(h, reps) && IsSummary(h, a, reps)
    requires AllCover(LiftAll(reps), ds)
    requires i < |ds| && Assigned(h, ds[i])
    requires NamesPresent(reps, ds) && !AveragesSomeNegative(reps, ds)
    ensures ds[i].name in Lift(a.metrics) && ds[i].name in Lift(a.dispersion)
    ensures RowIs(Lift(a.metrics)[ds[i].name], Lift(a.dispersion)[ds[i].name], LiftAll(reps), ds[i], ds[i].strata)
  {
    LiftedCover(reps, ds);
    LiftedRow(h, a, reps, ds[i]);
  }

  lemma {:induction false} LiftedAggregate(h: Harness, a: Summary, reps: seq<Counts>, ds: seq<Definition>)
    requires SameShape(reps) && SameMetrics(reps, ds) && Emitted(h, reps) && IsSummary(h, a, reps)
    requires AllCover(LiftAll(reps), ds)
    requires forall i :: 0 <= i < |ds| ==> Assigned(h, ds[i])
    requires NamesPresent(reps, ds) && !AveragesSomeNegative(reps, ds)
    ensures IsAggregate(Aggregate(Lift(a.metrics), Lift(a.dispersion)), LiftAll(reps), ds)
  {
    forall i | 0 <= i < |ds|
      ensures ds[i].name in Lift(a.metrics) && ds[i].name in Lift(a.dispersion)
      ensures RowIs(Lift(a.metrics)[ds[i].name], Lift(a.dispersion)[ds[i].name], LiftAll(reps), ds[i], ds[i].strata)
    {
      LiftedRowAt(h, a, reps, ds, i);
    }
  }

  // The harness's own gate check.
  method PassesGates(observed: Counts, ds: seq<Definition>) returns (passed: bool)
    requires ValidDefinitions(ds) && Covers(Lift(observed), ds)
    ensures passed <==> AbsoluteFailures(Lift(observed), ds) == {}
  {
    ghost var t := Lift(observed);
    for i := 0 to |ds|
      invariant forall k, s :: 0 <= k < i ==> !FailsAbsolute(t, ds, k, s)
    {
      var d := ds[i];
      if d.minimum.Some? && exists s :: s in d.minimum.value.Keys && observed[d.name][s] < d.minimum.value[s] {
        ghost var s :| s in d.minimum.value.Keys && observed[d.name][s] < d.minimum.value[s];
        AbsoluteFailureListed(t, ds, i, s);
        assert FailsAbsolute(t, ds, i, s);
        return false;
      }
      if d.maximum.Some? && exists s :: s in d.maximum.value.Keys && observed[d.name][s] > d.maximum.value[s] {
        ghost var s :| s in d.maximum.value.Keys && observed[d.name][s] > d.maximum.value[s];
        AbsoluteFailureListed(t, ds, i, s);
        assert FailsAbsolute(t, ds, i, s);
        return false;
      }
      assert forall s :: s in d.strata ==> Cell(t, d, s) == Known(observed[d.name][s]);
    }
    return true;
  }
}
