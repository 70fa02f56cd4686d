// Aggregation, absolute gates, regression gates and waivers (evaluate_v02_gates.py).
module GateEvaluation {
  import opened Arithmetic
  import opened Wrappers
  import opened OrderStatistics
  import opened RegressionArithmetic

  const MAX_INTEGER := 0x7FFF_FFFF_FFFF_FFFF

  // A metric value; the text "UNKNOWN" is the first alternative.
  datatype Value = Unknown | Known(n: int)
  datatype Unit = BasisPoints | SignedBasisPoints | Plain
  datatype Aggregation = UseMedian | UseMaximum | AdverseMean
  datatype Kind = Diagnostic | Gate
  datatype Source = Reported | RunStatus
  datatype Definition = Definition(
    name: string, strata: seq<string>, unit: Unit, kind: Kind, direction: Direction,
    aggregation: Aggregation, source: Source,
    minimum: Option<map<string, int>>, maximum: Option<map<string, int>>, budget: Option<int>)

  datatype Error =
    | InvalidReceipt | InvalidBaseline | UnexpectedBaseline | BaselineRequired
    | IncompatibleBaseline | InvalidWaiver

  type Table = map<string, map<string, Value>>
  datatype Aggregate = Aggregate(metrics: Table, dispersion: Table)

  // ----- what the policy validator admits -----

  ghost predicate ThresholdsFit(limits: Option<map<string, int>>, d: Definition) {
    limits.Some? ==>
      && limits.value.Keys == (set s | s in d.strata)
      && forall s :: s in limits.value ==> 0 <= limits.value[s]
  }

  ghost predicate ValidDefinition(d: Definition) {
    && (forall i, j :: 0 <= i < j < |d.strata| ==> d.strata[i] != d.strata[j])
    && ThresholdsFit(d.minimum, d) && ThresholdsFit(d.maximum, d)
    && (d.kind.Diagnostic? ==> d.minimum.None? && d.maximum.None? && d.budget.None?)
    && (d.kind.Gate? ==>
          && d.minimum.Some? != d.maximum.Some?
          && (d.minimum.Some? ==> d.direction.HigherIsBetter?)
          && (d.maximum.Some? ==> d.direction.LowerIsBetter?)
          && (d.budget.Some? ==> 0 <= d.budget.value <= 10_000))
    && (d.source.RunStatus? ==>
          && d.aggregation.AdverseMean? && d.direction.LowerIsBetter?
          && d.strata == ["overall"] && d.maximum == Some(map["overall" := 0]))
  }

  ghost predicate ValidDefinitions(ds: seq<Definition>) {
    && (forall i :: 0 <= i < |ds| ==> ValidDefinition(ds[i]))
    && forall i, j :: 0 <= i < j < |ds| ==> ds[i].name != ds[j].name
  }

  // ----- admissible values -----

  predicate Accepts(v: Value, unit: Unit) {
    v.Unknown? || LowerLimit(unit) <= v.n <= UpperLimit(unit)
  }

  function LowerLimit(unit: Unit): int {
    if unit.SignedBasisPoints? then -10_000 else 0
  }

  function UpperLimit(unit: Unit): int {
    if unit.Plain? then MAX_INTEGER else 10_000
  }

  // Every stratum of a definition, and every definition, is present in a table.
  ghost predicate Defines(t: Table, d: Definition) {
    forall s :: s in d.strata ==> d.name in t && s in t[d.name]
  }

  ghost predicate Covers(t: Table, ds: seq<Definition>) {
    forall i :: 0 <= i < |ds| ==> Defines(t, ds[i])
  }

  function Cell(t: Table, d: Definition, s: string): Value
    requires Defines(t, d) && s in d.strata
  {
    t[d.name][s]
  }

  ghost predicate Admissible(t: Table, ds: seq<Definition>) {
    Covers(t, ds) &&
    forall i, s :: 0 <= i < |ds| && s in ds[i].strata ==> Accepts(Cell(t, ds[i], s), ds[i].unit)
  }

  // ----- aggregation of one cell -----

  function Numbers(vs: seq<Value>): (r: seq<int>)
    requires Unknown !in vs
    ensures |r| == |vs| && forall i :: 0 <= i < |vs| ==> vs[i] == Known(r[i])
  {
    if vs == [] then [] else [vs[0].n] + Numbers(vs[1..])
  }

  predicate HasNegative(s: seq<int>) {
    exists i :: 0 <= i < |s| && s[i] < 0
  }

  function AggregateNumbers(s: seq<int>, d: Definition): Option<int>
    requires s != []
  {
    match d.aggregation
    case UseMedian => Some(Median(s))
    case UseMaximum => Some(Maximum(s))
    case AdverseMean =>
      if HasNegative(s) then None
      else if d.direction.LowerIsBetter? then Some((Sum(s) + |s| - 1) / |s|)
      else Some(Sum(s) / |s|)
  }

  // The aggregate and its dispersion.
  function AggregateValues(vs: seq<Value>, d: Definition): Result<(Value, Value), Error>
    requires vs != []
  {
    if Unknown in vs then Ok((Unknown, Unknown))
    else
      var s := Numbers(vs);
      match AggregateNumbers(s, d)
      case None => Err(InvalidReceipt)
      case Some(a) => Ok((Known(a), Known(MedianAbsoluteDeviation(s))))
  }

  // The mean rounded against the candidate decides exactly what the sum decides.
  lemma {:induction false} AdverseMeanIsExact(s: seq<int>, limit: int)
    requires s != []
    ensures (Sum(s) + |s| - 1) / |s| <= limit <==> Sum(s) <= limit * |s|
    ensures limit <= Sum(s) / |s| <==> limit * |s| <= Sum(s)
  {
    var n, total := |s|, Sum(s);
    QuotientBounds(total + n - 1, n);
    var q := (total + n - 1) / n;
    assert (q - 1) * n == q * n - n;
    CeilingDecides(q, total, n, limit);
    QuotientBounds(total, n);
    var f := total / n;
    if limit <= f { Product(limit, f, n); } else { Product(f + 1, limit, n); }
    assert (f + 1) * n == f * n + n;
  }

  lemma {:induction false} AdverseMeanWithin(s: seq<int>, low: int, high: int)
    requires s != [] && Within(s, low, high)
    ensures low <= Sum(s) / |s| <= high && low <= (Sum(s) + |s| - 1) / |s| <= high
  {
    SumWithinBounds(s, low, high);
    AdverseMeanIsExact(s, high);
    AdverseMeanIsExact(s, low);
    AdverseMeanIsExact(s, high + 1);
    AdverseMeanIsExact(s, low - 1);
    assert (low - 1) * |s| == low * |s| - |s| && (high + 1) * |s| == high * |s| + |s|;
  }

  lemma {:induction false} AggregateNumbersWithin(s: seq<int>, d: Definition, low: int, high: int)
    requires s != [] && Within(s, low, high)
    ensures AggregateNumbers(s, d).Some? ==> low <= AggregateNumbers(s, d).value <= high
  {
    match d.aggregation
    case UseMedian => MedianWithin(s, low, high);
    case UseMaximum =>
      MaximumIsGreatest(s, high); MaximumIsGreatest(s, low - 1);
      CountBounds(s, high); CountBounds(s, low - 1);
    case AdverseMean => AdverseMeanWithin(s, low, high);
  }

  // Whatever repetition values the validator accepts, the computed aggregate and dispersion
  // pass the same validator; the only rejected input is a negative value in an adverse mean.
  lemma {:induction false} AggregatesStayAdmissible(vs: seq<Value>, d: Definition)
    requires |vs| % 2 == 1
    requires forall i :: 0 <= i < |vs| ==> Accepts(vs[i], d.unit)
    ensures AggregateValues(vs, d).Err? <==>
            d.aggregation.AdverseMean? && Unknown !in vs && exists i :: 0 <= i < |vs| && vs[i].n < 0
    ensures AggregateValues(vs, d).Ok? ==>
              && Accepts(AggregateValues(vs, d).value.0, d.unit)
              && Accepts(AggregateValues(vs, d).value.1, d.unit)
  {
    if Unknown !in vs {
      var s, low, high := Numbers(vs), LowerLimit(d.unit), UpperLimit(d.unit);
      assert Within(s, low, high);
      OddDispersionWithinRange(s, low, high);
      AggregateNumbersWithin(s, d, low, high);
      assert HasNegative(s) <==> exists i :: 0 <= i < |vs| && vs[i].n < 0;
    }
  }

  // ----- aggregation of a whole receipt -----

  function Column(reps: seq<Table>, d: Definition, stratum: string): (r: seq<Value>)
    requires stratum in d.strata && forall k :: 0 <= k < |reps| ==> Defines(reps[k], d)
    ensures |r| == |reps| && forall k :: 0 <= k < |reps| ==> r[k] == Cell(reps[k], d, stratum)
  {
    if reps == [] then [] else [Cell(reps[0], d, stratum)] + Column(reps[1..], d, stratum)
  }

  ghost predicate AllCover(reps: seq<Table>, ds: seq<Definition>) {
    forall k :: 0 <= k < |reps| ==> Covers(reps[k], ds)
  }

  ghost predicate RowIs(metrics: map<string, Value>, spread: map<string, Value>,
                        reps: seq<Table>, d: Definition, strata: seq<string>)
    requires reps != []
    requires forall k :: 0 <= k < |reps| ==> Defines(reps[k], d)
    requires forall s :: s in strata ==> s in d.strata
  {
    && metrics.Keys == spread.Keys == (set s | s in strata)
    && forall s :: s in strata ==>
         AggregateValues(Column(reps, d, s), d) == Ok((metrics[s], spread[s]))
  }

  // Some cell of the receipt cannot be aggregated.
  ghost predicate Unaggregable(reps: seq<Table>, ds: seq<Definition>)
    requires reps != [] && AllCover(reps, ds)
  {
    exists i, s :: 0 <= i < |ds| && s in ds[i].strata &&
                   AggregateValues(Column(reps, ds[i], s), ds[i]).Err?
  }

  ghost predicate IsAggregate(a: Aggregate, reps: seq<Table>, ds: seq<Definition>)
    requires reps != [] && AllCover(reps, ds)
  {
    && a.metrics.Keys == a.dispersion.Keys == (set i | 0 <= i < |ds| :: ds[i].name)
    && forall i :: 0 <= i < |ds| ==>
         RowIs(a.metrics[ds[i].name], a.dispersion[ds[i].name], reps, ds[i], ds[i].strata)
  }

  method AggregateRow(reps: seq<Table>, d: Definition)
    returns (r: Result<(map<string, Value>, map<string, Value>), Error>)
    requires reps != [] && forall k :: 0 <= k < |reps| ==> Defines(reps[k], d)
    ensures r.Err? <==> exists s :: s in d.strata && AggregateValues(Column(reps, d, s), d).Err?
    ensures r.Ok? ==> RowIs(r.value.0, r.value.1, reps, d, d.strata)
  {
    var row, spread := map[], map[];
    for j := 0 to |d.strata|
      invariant RowIs(row, spread, reps, d, d.strata[..j])
    {
      var stratum := d.strata[j];
      assert d.strata[..j + 1] == d.strata[..j] + [stratum];
      match AggregateValues(Column(reps, d, stratum), d) {
        case Err(e) => return Err(e);
        case Ok(pair) => row, spread := row[stratum := pair.0], spread[stratum := pair.1];
      }
    }
    assert d.strata[..|d.strata|] == d.strata;
    return Ok((row, spread));
  }

  ghost function NamesBelow(ds: seq<Definition>, n: nat): set<string>
    requires n <= |ds|
  {
    set i | 0 <= i < n :: ds[i].name
  }

  // The first n definitions are aggregated.
  ghost predicate AggregatedBelow(metrics: Table, dispersion: Table, reps: seq<Table>, ds: seq<Definition>, n: nat)
    requires reps != [] && AllCover(reps, ds) && n <= |ds|
  {
    && metrics.Keys == dispersion.Keys == NamesBelow(ds, n)
    && forall i :: 0 <= i < n ==> RowIs(metrics[ds[i].name], dispersion[ds[i].name], reps, ds[i], ds[i].strata)
  }

  lemma {:induction false} MapNext<V>(m: map<string, V>, ds: seq<Definition>, n: nat, v: V)
    requires ValidDefinitions(ds) && n < |ds| && m.Keys == NamesBelow(ds, n)
    ensures m[ds[n].name := v].Keys == NamesBelow(ds, n + 1)
    ensures forall i :: 0 <= i < n ==> ds[i].name in m && m[ds[n].name := v][ds[i].name] == m[ds[i].name]
  {}

  lemma {:induction false} AggregateNext(
    metrics: Table, dispersion: Table, reps: seq<Table>, ds: seq<Definition>, n: nat, row: map<string, Value>,
    spread: map<string, Value>)
    requires reps != [] && AllCover(reps, ds) && ValidDefinitions(ds) && n < |ds|
    requires AggregatedBelow(metrics, dispersion, reps, ds, n) && RowIs(row, spread, reps, ds[n], ds[n].strata)
    ensures AggregatedBelow(metrics[ds[n].name := row], dispersion[ds[n].name := spread], reps, ds, n + 1)
  {
    MapNext(metrics, ds, n, row);
    MapNext(dispersion, ds, n, spread);
    var m, d := metrics[ds[n].name := row], dispersion[ds[n].name := spread];
    forall i | 0 <= i < n + 1 ensures RowIs(m[ds[i].name], d[ds[i].name], reps, ds[i], ds[i].strata) {
      if i < n {
        var a, b := metrics[ds[i].name], dispersion[ds[i].name];
        assert RowIs(a, b, reps, ds[i], ds[i].strata);
        assert m[ds[i].name] == a && d[ds[i].name] == b;
      }
    }
  }

  method ExpectedAggregate(reps: seq<Table>, ds: seq<Definition>) returns (r: Result<Aggregate, Error>)
    requires reps != [] && AllCover(reps, ds) && ValidDefinitions(ds)
    ensures r.Err? <==> Unaggregable(reps, ds)
    ensures r.Ok? ==> IsAggregate(r.value, reps, ds)
  {
    var metrics: Table, dispersion: Table := map[], map[];
    for i := 0 to |ds|
      invariant AggregatedBelow(metrics, dispersion, reps, ds, i)
    {
      var row := AggregateRow(reps, ds[i]);
      if row.Err? { return Err(row.error); }
      AggregateNext(metrics, dispersion, reps, ds, i, row.value.0, row.value.1);
      metrics, dispersion := metrics[ds[i].name := row.value.0], dispersion[ds[i].name := row.value.1];
    }
    return Ok(Aggregate(metrics, dispersion));
  }

  // A receipt with an odd number of admissible repetitions has an admissible aggregate.
  lemma {:induction false} ReceiptAggregateAdmissible(a: Aggregate, reps: seq<Table>, ds: seq<Definition>)
    requires |reps| % 2 == 1 && AllCover(reps, ds)
    requires forall k :: 0 <= k < |reps| ==> Admissible(reps[k], ds)
    requires IsAggregate(a, reps, ds)
    ensures Admissible(a.metrics, ds) && Admissible(a.dispersion, ds)
  {
    forall i, s | 0 <= i < |ds| && s in ds[i].strata
      ensures Defines(a.metrics, ds[i]) && Defines(a.dispersion, ds[i])
      ensures Accepts(Cell(a.metrics, ds[i], s), ds[i].unit)
      ensures Accepts(Cell(a.dispersion, ds[i], s), ds[i].unit)
    {
      var d := ds[i];
      assert RowIs(a.metrics[d.name], a.dispersion[d.name], reps, d, d.strata);
      AggregatesStayAdmissible(Column(reps, d, s), d);
    }
    assert Covers(a.metrics, ds) && Covers(a.dispersion, ds) by {
      forall i | 0 <= i < |ds| ensures Defines(a.metrics, ds[i]) && Defines(a.dispersion, ds[i]) {
        assert RowIs(a.metrics[ds[i].name], a.dispersion[ds[i].name], reps, ds[i], ds[i].strata);
      }
    }
  }

  // ----- gates -----

  predicate Meets(v: Value, d: Definition, stratum: string)
    requires ValidDefinition(d) && stratum in d.strata
  {
    v.Known? &&
    (d.minimum.None? || v.n >= d.minimum.value[stratum]) &&
    (d.maximum.None? || v.n <= d.maximum.value[stratum])
  }

  // A gate on a median passes exactly when a majority of the repetitions pass it.
  lemma {:induction false} MedianGateIsMajority(s: seq<int>, d: Definition, stratum: string)
    requires |s| % 2 == 1 && ValidDefinition(d) && d.kind.Gate? && stratum in d.strata
    requires d.aggregation.UseMedian?
    ensures AggregateNumbers(s, d) == Some(Median(s))
    ensures Meets(Known(Median(s)), d, stratum) <==>
            if d.maximum.Some? then 2 * CountAtMost(s, d.maximum.value[stratum]) > |s|
            else 2 * (|s| - CountAtMost(s, d.minimum.value[stratum] - 1)) > |s|
  {
    MedianReachesIffMajority(s, if d.maximum.Some? then d.maximum.value[stratum] else d.minimum.value[stratum]);
  }

  // A limited maximum passes exactly when every repetition stays within the limit.
  lemma {:induction false} MaximumGateIsUnanimous(s: seq<int>, d: Definition, stratum: string)
    requires s != [] && ValidDefinition(d) && d.kind.Gate? && stratum in d.strata
    requires d.aggregation.UseMaximum? && d.maximum.Some?
    ensures AggregateNumbers(s, d) == Some(Maximum(s))
    ensures Meets(Known(Maximum(s)), d, stratum) <==>
            forall i :: 0 <= i < |s| ==> s[i] <= d.maximum.value[stratum]
  {
    MaximumIsGreatest(s, d.maximum.value[stratum]);
    CountBounds(s, d.maximum.value[stratum]);
  }

  // An adverse mean passes exactly when the exact rational mean does.
  lemma {:induction false} AdverseMeanGateIsExact(s: seq<int>, d: Definition, stratum: string)
    requires s != [] && ValidDefinition(d) && d.kind.Gate? && stratum in d.strata
    requires d.aggregation.AdverseMean? && !HasNegative(s)
    ensures AggregateNumbers(s, d).Some?
    ensures Meets(Known(AggregateNumbers(s, d).value), d, stratum) <==>
            if d.maximum.Some? then Sum(s) <= d.maximum.value[stratum] * |s|
            else d.minimum.value[stratum] * |s| <= Sum(s)
  {
    AdverseMeanIsExact(s, if d.maximum.Some? then d.maximum.value[stratum] else d.minimum.value[stratum]);
  }

  // The value the receipt validator demands of a run-status metric.
  function RunStatusValue(failed: bool): Value {
    Known(if failed then 10_000 else 0)
  }

  lemma {:induction false} RunStatusSum(s: seq<int>)
    requires Within(s, 0, 10_000)
    ensures Sum(s) >= 0
    ensures Sum(s) == 0 <==> forall i :: 0 <= i < |s| ==> s[i] == 0
  {
    if s == [] {
    } else {
      RunStatusSum(s[1..]);
      assert forall i :: 0 < i < |s| ==> s[i] == s[1..][i - 1];
    }
  }

  lemma {:induction false} RunStatusMean(s: seq<int>, d: Definition)
    requires s != [] && Within(s, 0, 10_000) && ValidDefinition(d) && d.kind.Gate? && d.source.RunStatus?
    ensures AggregateNumbers(s, d).Some?
    ensures Meets(Known(AggregateNumbers(s, d).value), d, "overall") <==> forall i :: 0 <= i < |s| ==> s[i] == 0
  {
    RunStatusSum(s);
    AdverseMeanGateIsExact(s, d, "overall");
  }

  // The run-status gate passes exactly when no repetition failed.
  lemma {:induction false} RunStatusGate(failed: seq<bool>, vs: seq<Value>, d: Definition)
    requires |failed| == |vs| > 0
    requires ValidDefinition(d) && d.kind.Gate? && d.source.RunStatus?
    requires forall i :: 0 <= i < |vs| ==> vs[i] == RunStatusValue(failed[i])
    ensures AggregateValues(vs, d).Ok?
    ensures Meets(AggregateValues(vs, d).value.0, d, "overall") <==> true !in failed
  {
    assert Unknown !in vs;
    var s := Numbers(vs);
    assert forall i :: 0 <= i < |s| ==> s[i] == if failed[i] then 10_000 else 0;
    RunStatusMean(s, d);
    assert (forall i :: 0 <= i < |s| ==> s[i] == 0) <==> true !in failed;
  }

  datatype Failure = AbsoluteFailure(name: string, stratum: string) | RegressionFailure(name: string, stratum: string)
  datatype Status = Report | Passed | Failed

  ghost predicate FailsAbsolute(t: Table, ds: seq<Definition>, i: int, s: string)
    requires ValidDefinitions(ds) && Covers(t, ds)
  {
    0 <= i < |ds| && s in ds[i].strata && ds[i].kind.Gate? && !Meets(Cell(t, ds[i], s), ds[i], s)
  }

  ghost function RowFailures(t: Table, ds: seq<Definition>, i: nat): set<Failure>
    requires ValidDefinitions(ds) && Covers(t, ds) && i < |ds|
  {
    set s | s in ds[i].strata && FailsAbsolute(t, ds, i, s) :: AbsoluteFailure(ds[i].name, s)
  }

  ghost function FailuresBelow(t: Table, ds: seq<Definition>, n: nat): set<Failure>
    requires ValidDefinitions(ds) && Covers(t, ds) && n <= |ds|
  {
    set i, s | 0 <= i < n && s in ds[i].strata && FailsAbsolute(t, ds, i, s) :: AbsoluteFailure(ds[i].name, s)
  }

  // Every gate cell that misses its limits.
  ghost function AbsoluteFailures(t: Table, ds: seq<Definition>): set<Failure>
    requires ValidDefinitions(ds) && Covers(t, ds)
  {
    FailuresBelow(t, ds, |ds|)
  }

  lemma {:induction false} FailuresNext(t: Table, ds: seq<Definition>, n: nat)
    requires ValidDefinitions(ds) && Covers(t, ds) && n < |ds|
    ensures FailuresBelow(t, ds, n + 1) == FailuresBelow(t, ds, n) + RowFailures(t, ds, n)
  {}

  lemma {:induction false} AbsoluteFailureListed(t: Table, ds: seq<Definition>, i: nat, s: string)
    requires ValidDefinitions(ds) && Covers(t, ds) && i < |ds|
    ensures FailsAbsolute(t, ds, i, s) ==> AbsoluteFailure(ds[i].name, s) in AbsoluteFailures(t, ds)
  {}

  function AbsoluteStatus(v: Value, d: Definition, s: string): Status
    requires ValidDefinition(d) && s in d.strata
  {
    if d.kind.Diagnostic? then Report else if Meets(v, d, s) then Passed else Failed
  }

  ghost predicate StatusRow(row: map<string, Status>, t: Table, d: Definition, strata: seq<string>)
    requires ValidDefinition(d) && Defines(t, d) && forall s :: s in strata ==> s in d.strata
  {
    row.Keys == (set s | s in strata) && forall s :: s in strata ==> row[s] == AbsoluteStatus(Cell(t, d, s), d, s)
  }

  method AbsoluteRow(t: Table, ds: seq<Definition>, i: nat) returns (row: map<string, Status>, failures: set<Failure>)
    requires ValidDefinitions(ds) && Covers(t, ds) && i < |ds|
    ensures StatusRow(row, t, ds[i], ds[i].strata)
    ensures failures == RowFailures(t, ds, i)
  {
    var d := ds[i];
    row, failures := map[], {};
    for j := 0 to |d.strata|
      invariant StatusRow(row, t, d, d.strata[..j])
      invariant forall f :: f in failures <==>
        exists s :: s in d.strata[..j] && FailsAbsolute(t, ds, i, s) && f == AbsoluteFailure(d.name, s)
    {
      var stratum := d.strata[j];
      assert d.strata[..j + 1] == d.strata[..j] + [stratum];
      var status := AbsoluteStatus(Cell(t, d, stratum), d, stratum);
      row := row[stratum := status];
      assert status.Failed? <==> FailsAbsolute(t, ds, i, stratum);
      if status.Failed? {
        failures := failures + {AbsoluteFailure(d.name, stratum)};
      }
    }
    assert d.strata[..|d.strata|] == d.strata;
  }

  ghost predicate StatusesBelow(statuses: map<string, map<string, Status>>, t: Table, ds: seq<Definition>, n: nat)
    requires ValidDefinitions(ds) && Covers(t, ds) && n <= |ds|
  {
    && statuses.Keys == NamesBelow(ds, n)
    && forall i :: 0 <= i < n ==> StatusRow(statuses[ds[i].name], t, ds[i], ds[i].strata)
  }

  lemma {:induction false} StatusNext(
    statuses: map<string, map<string, Status>>, t: Table, ds: seq<Definition>, n: nat, row: map<string, Status>)
    requires ValidDefinitions(ds) && Covers(t, ds) && n < |ds|
    requires StatusesBelow(statuses, t, ds, n) && StatusRow(row, t, ds[n], ds[n].strata)
    ensures StatusesBelow(statuses[ds[n].name := row], t, ds, n + 1)
  {}

  method AbsoluteEvaluations(t: Table, ds: seq<Definition>)
    returns (statuses: map<string, map<string, Status>>, failures: set<Failure>)
    requires ValidDefinitions(ds) && Covers(t, ds)
    ensures failures == AbsoluteFailures(t, ds)
    ensures StatusesBelow(statuses, t, ds, |ds|)
  {
    statuses, failures := map[], {};
    for i := 0 to |ds|
      invariant StatusesBelow(statuses, t, ds, i)
      invariant failures == FailuresBelow(t, ds, i)
    {
      var row, rowFailures := AbsoluteRow(t, ds, i);
      StatusNext(statuses, t, ds, i, row);
      FailuresNext(t, ds, i);
      statuses := statuses[ds[i].name := row];
      failures := failures + rowFailures;
    }
  }

  // ----- regression gates -----

  predicate Budgeted(d: Definition) {
    d.kind.Gate? && d.budget.Some?
  }

  // A cell whose regression cannot be computed.
  predicate Incomparable(b: Value, c: Value) {
    b.Unknown? || c.Unknown? || b.n < 0 || c.n < 0
  }

  ghost predicate FailsRegression(b: Table, c: Table, ds: seq<Definition>, i: int, s: string)
    requires ValidDefinitions(ds) && Covers(b, ds) && Covers(c, ds)
  {
    0 <= i < |ds| && s in ds[i].strata && Budgeted(ds[i]) &&
    var x, y := Cell(b, ds[i], s), Cell(c, ds[i], s);
    !Incomparable(x, y) &&
    10_000 * Loss(x.n, y.n, ds[i].direction) > ds[i].budget.value * x.n
  }

  ghost function RegressionFailures(b: Table, c: Table, ds: seq<Definition>): set<Failure>
    requires ValidDefinitions(ds) && Covers(b, ds) && Covers(c, ds)
  {
    set i, s | 0 <= i < |ds| && s in ds[i].strata && FailsRegression(b, c, ds, i, s)
      :: RegressionFailure(ds[i].name, s)
  }

  lemma {:induction false} RegressionFailureListed(b: Table, c: Table, ds: seq<Definition>, i: nat, s: string)
    requires ValidDefinitions(ds) && Covers(b, ds) && Covers(c, ds) && i < |ds|
    ensures FailsRegression(b, c, ds, i, s) ==> RegressionFailure(ds[i].name, s) in RegressionFailures(b, c, ds)
  {}

  ghost predicate Comparable(b: Table, c: Table, ds: seq<Definition>)
    requires Covers(b, ds) && Covers(c, ds)
  {
    forall i, s :: 0 <= i < |ds| && s in ds[i].strata && Budgeted(ds[i]) ==>
      !Incomparable(Cell(b, ds[i], s), Cell(c, ds[i], s))
  }

  // What the evaluator records of one compared cell.
  datatype Comparison = Comparison(baseline: int, candidate: int, budget: int, regression: int, passed: bool)

  ghost predicate IsComparison(record: Comparison, b: Table, c: Table, d: Definition, s: string)
    requires Defines(b, d) && Defines(c, d) && s in d.strata
  {
    && d.budget == Some(record.budget)
    && Cell(b, d, s) == Known(record.baseline) && Cell(c, d, s) == Known(record.candidate)
    && RegressionBasisPoints(record.baseline, record.candidate, d.direction) == Some(record.regression)
    && (record.passed
      <==> 10_000 * Loss(record.baseline, record.candidate, d.direction) <= record.budget * record.baseline)
  }

  ghost predicate ComparisonRow(row: map<string, Comparison>, b: Table, c: Table, d: Definition, strata: seq<string>)
    requires Defines(b, d) && Defines(c, d) && forall s :: s in strata ==> s in d.strata
  {
    row.Keys == (set s | s in strata) && forall s :: s in strata ==> IsComparison(row[s], b, c, d, s)
  }

  ghost function BudgetedBelow(ds: seq<Definition>, n: nat): set<string>
    requires n <= |ds|
  {
    set i | 0 <= i < n && Budgeted(ds[i]) :: ds[i].name
  }

  ghost predicate ComparedBelow(
    records: map<string, map<string, Comparison>>, b: Table, c: Table, ds: seq<Definition>, n: nat)
    requires Covers(b, ds) && Covers(c, ds) && n <= |ds|
  {
    && records.Keys == BudgetedBelow(ds, n)
    && forall i :: 0 <= i < n && Budgeted(ds[i]) ==> ComparisonRow(records[ds[i].name], b, c, ds[i], ds[i].strata)
  }

  lemma {:induction false} ComparedNext(
    records: map<string, map<string, Comparison>>, b: Table, c: Table, ds: seq<Definition>, n: nat,
    row: map<string, Comparison>)
    requires ValidDefinitions(ds) && Covers(b, ds) && Covers(c, ds) && n < |ds| && Budgeted(ds[n])
    requires ComparedBelow(records, b, c, ds, n) && ComparisonRow(row, b, c, ds[n], ds[n].strata)
    ensures ComparedBelow(records[ds[n].name := row], b, c, ds, n + 1)
  {
    var longer := records[ds[n].name := row];
    assert BudgetedBelow(ds, n + 1) == BudgetedBelow(ds, n) + {ds[n].name};
    forall i | 0 <= i < n + 1 && Budgeted(ds[i]) ensures ComparisonRow(longer[ds[i].name], b, c, ds[i], ds[i].strata) {
      if i < n { assert longer[ds[i].name] == records[ds[i].name]; }
    }
  }

  lemma {:induction false} ComparedSkip(
    records: map<string, map<string, Comparison>>, b: Table, c: Table, ds: seq<Definition>, n: nat)
    requires Covers(b, ds) && Covers(c, ds) && n < |ds| && !Budgeted(ds[n]) && ComparedBelow(records, b, c, ds, n)
    ensures ComparedBelow(records, b, c, ds, n + 1)
  {
    assert BudgetedBelow(ds, n + 1) == BudgetedBelow(ds, n);
  }

  // No cell of the first strata is incomparable.
  ghost predicate ComparableIn(b: Table, c: Table, d: Definition, strata: seq<string>)
    requires Defines(b, d) && Defines(c, d) && forall s :: s in strata ==> s in d.strata
  {
    forall s :: s in strata ==> !Incomparable(Cell(b, d, s), Cell(c, d, s))
  }

  ghost function RowRegressions(b: Table, c: Table, ds: seq<Definition>, i: nat): set<Failure>
    requires ValidDefinitions(ds) && Covers(b, ds) && Covers(c, ds) && i < |ds|
  {
    set s | s in ds[i].strata && FailsRegression(b, c, ds, i, s) :: RegressionFailure(ds[i].name, s)
  }

  ghost function RegressionsBelow(b: Table, c: Table, ds: seq<Definition>, n: nat): set<Failure>
    requires ValidDefinitions(ds) && Covers(b, ds) && Covers(c, ds) && n <= |ds|
  {
    set i, s | 0 <= i < n && s in ds[i].strata && FailsRegression(b, c, ds, i, s) :: RegressionFailure(ds[i].name, s)
  }

  lemma {:induction false} RegressionsNext(b: Table, c: Table, ds: seq<Definition>, n: nat)
    requires ValidDefinitions(ds) && Covers(b, ds) && Covers(c, ds) && n < |ds|
    ensures RegressionsBelow(b, c, ds, n + 1) == RegressionsBelow(b, c, ds, n) + RowRegressions(b, c, ds, n)
    ensures !Budgeted(ds[n]) ==> RowRegressions(b, c, ds, n) == {}
    ensures RegressionsBelow(b, c, ds, |ds|) == RegressionFailures(b, c, ds)
  {}

  method RegressionRow(b: Table, c: Table, ds: seq<Definition>, i: nat)
    returns (r: Result<map<string, Comparison>, Error>, failures: set<Failure>)
    requires ValidDefinitions(ds) && Covers(b, ds) && Covers(c, ds) && i < |ds| && Budgeted(ds[i])
    ensures r.Ok? <==> ComparableIn(b, c, ds[i], ds[i].strata)
    ensures r.Ok? ==> ComparisonRow(r.value, b, c, ds[i], ds[i].strata) && failures == RowRegressions(b, c, ds, i)
    ensures r == Err(InvalidBaseline) ==> exists s :: s in ds[i].strata && Cell(b, ds[i], s).Unknown?
    ensures r.Err? ==> r.error.InvalidBaseline? || r.error.InvalidReceipt?
  {
    var d := ds[i];
    var row: map<string, Comparison> := map[];
    failures := {};
    for j := 0 to |d.strata|
      invariant ComparableIn(b, c, d, d.strata[..j]) && ComparisonRow(row, b, c, d, d.strata[..j])
      invariant forall f :: f in failures <==>
        exists s :: s in d.strata[..j] && FailsRegression(b, c, ds, i, s) && f == RegressionFailure(d.name, s)
    {
      var stratum := d.strata[j];
      assert d.strata[..j + 1] == d.strata[..j] + [stratum];
      var x, y := Cell(b, d, stratum), Cell(c, d, stratum);
      if x.Unknown? { return Err(InvalidBaseline), failures; }
      if y.Unknown? { return Err(InvalidReceipt), failures; }
      var regression := RegressionBasisPoints(x.n, y.n, d.direction);
      if regression.None? { return Err(InvalidReceipt), failures; }
      BudgetTestIsExact(x.n, y.n, d.direction, d.budget.value);
      var passed := regression.value <= d.budget.value;
      row := row[stratum := Comparison(x.n, y.n, d.budget.value, regression.value, passed)];
      if !passed { failures := failures + {RegressionFailure(d.name, stratum)}; }
    }
    assert d.strata[..|d.strata|] == d.strata;
    return Ok(row), failures;
  }

  ghost predicate ComparableBelow(b: Table, c: Table, ds: seq<Definition>, n: nat)
    requires Covers(b, ds) && Covers(c, ds) && n <= |ds|
  {
    forall k :: 0 <= k < n && Budgeted(ds[k]) ==> ComparableIn(b, c, ds[k], ds[k].strata)
  }

  lemma {:induction false} AllComparable(b: Table, c: Table, ds: seq<Definition>)
    requires Covers(b, ds) && Covers(c, ds)
    ensures ComparableBelow(b, c, ds, |ds|) <==> Comparable(b, c, ds)
  {
    if Comparable(b, c, ds) {
      forall k | 0 <= k < |ds| && Budgeted(ds[k]) ensures ComparableIn(b, c, ds[k], ds[k].strata) {}
    }
    if ComparableBelow(b, c, ds, |ds|) {
      forall k, s | 0 <= k < |ds| && s in ds[k].strata && Budgeted(ds[k])
        ensures !Incomparable(Cell(b, ds[k], s), Cell(c, ds[k], s))
      {
        assert ComparableIn(b, c, ds[k], ds[k].strata);
      }
    }
  }

  method RegressionEvaluations(b: Table, c: Table, ds: seq<Definition>)
    returns (r: Result<map<string, map<string, Comparison>>, Error>, failures: set<Failure>)
    requires ValidDefinitions(ds) && Covers(b, ds) && Covers(c, ds)
    ensures r.Ok? <==> Comparable(b, c, ds)
    ensures r.Ok? ==> ComparedBelow(r.value, b, c, ds, |ds|) && failures == RegressionFailures(b, c, ds)
    ensures r == Err(InvalidBaseline) ==>
      exists i, s :: 0 <= i < |ds| && s in ds[i].strata && Budgeted(ds[i]) && Cell(b, ds[i], s).Unknown?
    ensures r.Err? ==> r.error.InvalidBaseline? || r.error.InvalidReceipt?
  {
    var records: map<string, map<string, Comparison>> := map[];
    failures := {};
    AllComparable(b, c, ds);
    for i := 0 to |ds|
      invariant ComparableBelow(b, c, ds, i)
      invariant ComparedBelow(records, b, c, ds, i) && failures == RegressionsBelow(b, c, ds, i)
    {
      RegressionsNext(b, c, ds, i);
      if Budgeted(ds[i]) {
        var row, rowFailures := RegressionRow(b, c, ds, i);
        if row.Err? { return Err(row.error), failures; }
        ComparedNext(records, b, c, ds, i, row.value);
        records := records[ds[i].name := row.value];
        failures := failures + rowFailures;
      } else {
        ComparedSkip(records, b, c, ds, i);
      }
    }
    return Ok(records), failures;
  }

  // A baseline that passed its absolute gates brings no UNKNOWN into the regression arithmetic.
  lemma {:induction false} PassingBaselineIsKnown(b: Table, ds: seq<Definition>, i: int, s: string)
    requires ValidDefinitions(ds) && Covers(b, ds) && AbsoluteFailures(b, ds) == {}
    requires 0 <= i < |ds| && s in ds[i].strata && ds[i].kind.Gate?
    ensures Meets(Cell(b, ds[i], s), ds[i], s)
  {
    AbsoluteFailureListed(b, ds, i, s);
  }

  // ----- waivers and the verdict -----

  datatype Phase = Selection | Regression

  // The parts of a receipt that must agree between a baseline and its candidate.
  datatype Binding = Binding(experiment: string, policy: string, manifest: string, profile: string,
                             harness: string, metricImplementation: string, executable: string,
                             pythonVersion: string)

  datatype Waiver = Waiver(owner: string, controls: seq<string>, scope: seq<Failure>,
                           issuedOn: int, expiresOn: int, textsWellFormed: bool)

  datatype Receipt = Receipt(binding: Binding, phase: Phase, evaluatedOn: int,
                             metrics: Table, waiver: Option<Waiver>)

  datatype Policy = Policy(definitions: seq<Definition>, frozenOn: int, waiverOwner: string,
                           requiredControls: nat, maximumDurationDays: nat)

  datatype Verdict = Pass | Waived | Fail

  ghost predicate WaiverCovers(w: Waiver, p: Policy, evaluatedOn: int, asOf: int, failures: set<Failure>) {
    && w.textsWellFormed
    && w.owner == p.waiverOwner && |w.controls| >= p.requiredControls
    && multiset(w.scope) == multiset(failures)
    && p.frozenOn <= w.issuedOn <= evaluatedOn <= asOf <= w.expiresOn
    && w.expiresOn - w.issuedOn <= p.maximumDurationDays
  }

  method ValidatedWaiver(value: Option<Waiver>, p: Policy, evaluatedOn: int, asOf: int, failures: set<Failure>)
    returns (r: Result<bool, Error>)
    ensures r.Err? ==> r.error.InvalidWaiver?
    ensures r.Ok? <==> (value.Some? ==> failures != {} && WaiverCovers(value.value, p, evaluatedOn, asOf, failures))
    ensures r.Ok? ==> r.value == value.Some?
  {
    match value {
      case None => return Ok(false);
      case Some(w) =>
        if failures == {} { return Err(InvalidWaiver); }
        if w.owner != p.waiverOwner || |w.controls| < p.requiredControls
           || multiset(w.scope) != multiset(failures)
           || w.issuedOn < p.frozenOn || w.issuedOn > evaluatedOn || evaluatedOn > asOf
           || w.expiresOn < asOf || w.expiresOn - w.issuedOn > p.maximumDurationDays
           || !w.textsWellFormed
        {
          return Err(InvalidWaiver);
        }
        return Ok(true);
    }
  }

  // Every gate meets its limits.
  ghost predicate LimitsHold(ds: seq<Definition>, t: Table)
    requires ValidDefinitions(ds) && Covers(t, ds)
  {
    forall i, s :: 0 <= i < |ds| && s in ds[i].strata && ds[i].kind.Gate? ==> Meets(Cell(t, ds[i], s), ds[i], s)
  }

  // Every budgeted cell is known on both sides and loses no more than its budget allows.
  ghost predicate BudgetsHold(ds: seq<Definition>, b: Table, t: Table)
    requires ValidDefinitions(ds) && Covers(b, ds) && Covers(t, ds)
  {
    forall i, s :: 0 <= i < |ds| && s in ds[i].strata && Budgeted(ds[i]) ==>
      var x, y := Cell(b, ds[i], s), Cell(t, ds[i], s);
      x.Known? && y.Known? && 10_000 * Loss(x.n, y.n, ds[i].direction) <= ds[i].budget.value * x.n
  }

  // Every gate of the receipt holds, read over the integers and rationals.
  ghost predicate AllGatesHold(p: Policy, receipt: Receipt, baseline: Option<Receipt>)
    requires ValidDefinitions(p.definitions) && Covers(receipt.metrics, p.definitions)
    requires baseline.Some? ==> Covers(baseline.value.metrics, p.definitions)
  {
    && LimitsHold(p.definitions, receipt.metrics)
    && (baseline.Some? ==> BudgetsHold(p.definitions, baseline.value.metrics, receipt.metrics))
  }

  ghost function FailuresOf(p: Policy, receipt: Receipt, baseline: Option<Receipt>): set<Failure>
    requires ValidDefinitions(p.definitions) && Covers(receipt.metrics, p.definitions)
    requires baseline.Some? ==> Covers(baseline.value.metrics, p.definitions)
  {
    AbsoluteFailures(receipt.metrics, p.definitions) +
    if baseline.Some? then RegressionFailures(baseline.value.metrics, receipt.metrics, p.definitions) else {}
  }

  lemma {:induction false} NoFailuresIffGatesHold(p: Policy, receipt: Receipt, baseline: Option<Receipt>)
    requires ValidDefinitions(p.definitions) && Covers(receipt.metrics, p.definitions)
    requires baseline.Some? ==> Covers(baseline.value.metrics, p.definitions)
    requires baseline.Some? ==> Comparable(baseline.value.metrics, receipt.metrics, p.definitions)
    ensures FailuresOf(p, receipt, baseline) == {} <==> AllGatesHold(p, receipt, baseline)
  {
    var ds, t := p.definitions, receipt.metrics;
    if FailuresOf(p, receipt, baseline) == {} {
      forall i, s | 0 <= i < |ds| && s in ds[i].strata && ds[i].kind.Gate?
        ensures Meets(Cell(t, ds[i], s), ds[i], s)
      {
        PassingBaselineIsKnown(t, ds, i, s);
      }
      if baseline.Some? {
        var b := baseline.value.metrics;
        forall i, s | 0 <= i < |ds| && s in ds[i].strata && Budgeted(ds[i])
          ensures !FailsRegression(b, t, ds, i, s)
        {
          RegressionFailureListed(b, t, ds, i, s);
        }
      }
    }
  }

  // When `evaluate` returns a verdict at all, for the given baseline and dates.
  ghost predicate Evaluable(p: Policy, receipt: Receipt, baseline: Option<Receipt>, asOf: int)
    requires ValidDefinitions(p.definitions) && Covers(receipt.metrics, p.definitions)
    requires baseline.Some? ==> Covers(baseline.value.metrics, p.definitions)
  {
    && p.frozenOn <= receipt.evaluatedOn <= asOf
    && (receipt.phase.Selection? <==> baseline.None?)
    && (baseline.Some? ==>
          && p.frozenOn <= baseline.value.evaluatedOn <= receipt.evaluatedOn
          && AbsoluteFailures(baseline.value.metrics, p.definitions) == {}
          && baseline.value.waiver.None? && baseline.value.phase.Selection?
          && baseline.value.binding == receipt.binding
          && Comparable(baseline.value.metrics, receipt.metrics, p.definitions))
    && var failures := FailuresOf(p, receipt, baseline);
       receipt.waiver.Some? ==>
         failures != {} && WaiverCovers(receipt.waiver.value, p, receipt.evaluatedOn, asOf, failures)
  }

  // A baseline that may be compared with: dated in order, selected without failures or waiver.
  ghost predicate AcceptableBaseline(p: Policy, receipt: Receipt, b: Receipt)
    requires ValidDefinitions(p.definitions) && Covers(b.metrics, p.definitions)
  {
    && p.frozenOn <= b.evaluatedOn <= receipt.evaluatedOn
    && AbsoluteFailures(b.metrics, p.definitions) == {} && b.waiver.None? && b.phase.Selection?
  }

  // What the checks before any regression arithmetic report, if anything.
  ghost function EarlyError(p: Policy, receipt: Receipt, baseline: Option<Receipt>, asOf: int): Option<Error>
    requires ValidDefinitions(p.definitions) && (baseline.Some? ==> Covers(baseline.value.metrics, p.definitions))
  {
    if !(p.frozenOn <= receipt.evaluatedOn <= asOf) then Some(InvalidReceipt)
    else if receipt.phase.Selection? then if baseline.Some? then Some(UnexpectedBaseline) else None
    else if baseline.None? then Some(BaselineRequired)
    else if !AcceptableBaseline(p, receipt, baseline.value) then Some(InvalidBaseline)
    else if baseline.value.binding != receipt.binding then Some(IncompatibleBaseline)
    else None
  }

  method Evaluate(p: Policy, receipt: Receipt, baseline: Option<Receipt>, asOf: int)
    returns (r: Result<Verdict, Error>)
    requires ValidDefinitions(p.definitions) && Covers(receipt.metrics, p.definitions)
    requires baseline.Some? ==> Covers(baseline.value.metrics, p.definitions)
    ensures r.Ok? <==> Evaluable(p, receipt, baseline, asOf)
    ensures var early := EarlyError(p, receipt, baseline, asOf);
            if early.Some? then r == Err(early.value)
            else if baseline.Some? && !Comparable(baseline.value.metrics, receipt.metrics, p.definitions) then
              r == Err(InvalidReceipt)
            else r.Err? ==> r.error.InvalidWaiver?
    ensures r == Ok(Pass) ==> AllGatesHold(p, receipt, baseline) && receipt.waiver.None?
    ensures r.Ok? && AllGatesHold(p, receipt, baseline) ==> r.value == Pass
    ensures r.Ok? ==> (r.value == Waived <==> receipt.waiver.Some?)
    ensures r == Ok(Waived) ==>
      var w := receipt.waiver.value;
      && !AllGatesHold(p, receipt, baseline)
      && multiset(w.scope) == multiset(FailuresOf(p, receipt, baseline))
      && w.issuedOn <= receipt.evaluatedOn <= asOf <= w.expiresOn <= w.issuedOn + p.maximumDurationDays
  {
    if receipt.evaluatedOn < p.frozenOn || receipt.evaluatedOn > asOf {
      return Err(InvalidReceipt);
    }
    var _, failures := AbsoluteEvaluations(receipt.metrics, p.definitions);
    if receipt.phase.Selection? {
      if baseline.Some? { return Err(UnexpectedBaseline); }
    } else {
      if baseline.None? { return Err(BaselineRequired); }
      var b := baseline.value;
      if b.evaluatedOn < p.frozenOn || b.evaluatedOn > receipt.evaluatedOn {
        return Err(InvalidBaseline);
      }
      var _, baselineFailures := AbsoluteEvaluations(b.metrics, p.definitions);
      if baselineFailures != {} || b.waiver.Some? || !b.phase.Selection? {
        return Err(InvalidBaseline);
      }
      if b.binding != receipt.binding {
        return Err(IncompatibleBaseline);
      }
      var regression, regressionFailures := RegressionEvaluations(b.metrics, receipt.metrics, p.definitions);
      if regression.Err? {
        if regression.error.InvalidBaseline? {
          // Unreachable: the baseline passed its absolute gates.
          forall i, s | 0 <= i < |p.definitions| && s in p.definitions[i].strata && Budgeted(p.definitions[i])
            ensures Cell(b.metrics, p.definitions[i], s).Known?
          {
            PassingBaselineIsKnown(b.metrics, p.definitions, i, s);
          }
          assert false;
        }
        return Err(InvalidReceipt);
      }
      failures := failures + regressionFailures;
    }
    assert failures == FailuresOf(p, receipt, baseline);
    NoFailuresIffGatesHold(p, receipt, baseline);
    var waived := ValidatedWaiver(receipt.waiver, p, receipt.evaluatedOn, asOf, failures);
    if waived.Err? { return Err(InvalidWaiver); }
    return Ok(if failures == {} then Pass else if waived.value then Waived else Fail);
  }
}
