// A receipt's verdict in terms of its repetitions (evaluate_v02_gates.py: `validate_receipt`,
// lines 1079-1092, followed by `evaluate`).
module RepetitionVerdict {
  import opened Wrappers
  import opened OrderStatistics
  import opened GateEvaluation

  // What a gate on one cell asks of the repetitions.
  ghost predicate RepetitionsMeet(vs: seq<Value>, d: Definition, stratum: string)
    requires ValidDefinition(d) && d.kind.Gate? && stratum in d.strata
  {
    Unknown !in vs &&
    var s := Numbers(vs);
    if d.maximum.Some? then
      var limit := d.maximum.value[stratum];
      match d.aggregation
      case UseMedian => 2 * CountAtMost(s, limit) > |s|
      case UseMaximum => forall i :: 0 <= i < |s| ==> s[i] <= limit
      case AdverseMean => Sum(s) <= limit * |s|
    else
      var limit := d.minimum.value[stratum];
      match d.aggregation
      case UseMedian => 2 * (|s| - CountAtMost(s, limit - 1)) > |s|
      case UseMaximum => exists i :: 0 <= i < |s| && s[i] >= limit
      case AdverseMean => limit * |s| <= Sum(s)
  }

  // A maximum reaches a lower limit exactly when some repetition does.
  lemma {:induction false} MaximumReaches(s: seq<int>, limit: int)
    requires s != []
    ensures Maximum(s) >= limit <==> exists i :: 0 <= i < |s| && s[i] >= limit
  {
    MaximumIsGreatest(s, limit - 1);
    CountBounds(s, limit - 1);
  }

  // The gate on an aggregate decides exactly what it asks of the repetitions.
  lemma {:induction false} CellIsRepetitionwise(vs: seq<Value>, d: Definition, stratum: string)
    requires |vs| % 2 == 1 && ValidDefinition(d) && d.kind.Gate? && stratum in d.strata
    requires AggregateValues(vs, d).Ok?
    ensures Meets(AggregateValues(vs, d).value.0, d, stratum) <==> RepetitionsMeet(vs, d, stratum)
  {
    if Unknown !in vs {
      var s := Numbers(vs);
      match d.aggregation
      case UseMedian => MedianGateIsMajority(s, d, stratum);
      case UseMaximum =>
        if d.maximum.Some? {
          MaximumGateIsUnanimous(s, d, stratum);
        } else {
          MaximumReaches(s, d.minimum.value[stratum]);
        }
      case AdverseMean => AdverseMeanGateIsExact(s, d, stratum);
    }
  }

  // Every gate cell is met by its repetitions.
  ghost predicate AllRepetitionsMeet(reps: seq<Table>, ds: seq<Definition>)
    requires ValidDefinitions(ds) && AllCover(reps, ds)
  {
    forall i, s :: 0 <= i < |ds| && s in ds[i].strata && ds[i].kind.Gate? ==>
      RepetitionsMeet(Column(reps, ds[i], s), ds[i], s)
  }

  lemma {:induction false} AggregateCovers(a: Aggregate, reps: seq<Table>, ds: seq<Definition>)
    requires reps != [] && AllCover(reps, ds) && IsAggregate(a, reps, ds)
    ensures Covers(a.metrics, ds)
  {
    forall i | 0 <= i < |ds| ensures Defines(a.metrics, ds[i]) {
      assert RowIs(a.metrics[ds[i].name], a.dispersion[ds[i].name], reps, ds[i], ds[i].strata);
    }
  }

  lemma {:induction false} AggregateCell(a: Aggregate, reps: seq<Table>, ds: seq<Definition>, i: nat, s: string)
    requires reps != [] && AllCover(reps, ds) && IsAggregate(a, reps, ds) && i < |ds| && s in ds[i].strata
    ensures Defines(a.metrics, ds[i])
    ensures AggregateValues(Column(reps, ds[i], s), ds[i]).Ok?
    ensures AggregateValues(Column(reps, ds[i], s), ds[i]).value.0 == Cell(a.metrics, ds[i], s)
  {
    AggregateCovers(a, reps, ds);
    assert RowIs(a.metrics[ds[i].name], a.dispersion[ds[i].name], reps, ds[i], ds[i].strata);
  }

  // The limits hold of the aggregate exactly when the repetitions meet them.
  lemma {:induction false} LimitsAreRepetitionwise(a: Aggregate, reps: seq<Table>, ds: seq<Definition>)
    requires |reps| % 2 == 1 && ValidDefinitions(ds) && AllCover(reps, ds) && IsAggregate(a, reps, ds)
    ensures Covers(a.metrics, ds)
    ensures LimitsHold(ds, a.metrics) <==> AllRepetitionsMeet(reps, ds)
  {
    AggregateCovers(a, reps, ds);
    forall i, s | 0 <= i < |ds| && s in ds[i].strata && ds[i].kind.Gate?
      ensures Meets(Cell(a.metrics, ds[i], s), ds[i], s) <==> RepetitionsMeet(Column(reps, ds[i], s), ds[i], s)
    {
      AggregateCell(a, reps, ds, i, s);
      CellIsRepetitionwise(Column(reps, ds[i], s), ds[i], s);
    }
  }

  // The repetitions determine the aggregate.
  lemma {:induction false} AggregateIsUnique(a: Aggregate, b: Aggregate, reps: seq<Table>, ds: seq<Definition>)
    requires reps != [] && AllCover(reps, ds) && IsAggregate(a, reps, ds) && IsAggregate(b, reps, ds)
    ensures a == b
  {
    forall n | n in a.metrics ensures a.metrics[n] == b.metrics[n] && a.dispersion[n] == b.dispersion[n] {
      var i :| 0 <= i < |ds| && ds[i].name == n;
      RowIsUnique(a.metrics[n], a.dispersion[n], b.metrics[n], b.dispersion[n], reps, ds[i]);
    }
    assert a.metrics == b.metrics && a.dispersion == b.dispersion;
  }

  lemma {:induction false} SameCell(
    row: map<string, Value>, spread: map<string, Value>, other: map<string, Value>, otherSpread: map<string, Value>,
    reps: seq<Table>, d: Definition, s: string)
    requires reps != [] && forall k :: 0 <= k < |reps| ==> Defines(reps[k], d)
    requires RowIs(row, spread, reps, d, d.strata) && RowIs(other, otherSpread, reps, d, d.strata) && s in d.strata
    ensures s in row && s in spread && s in other && s in otherSpread
    ensures row[s] == other[s] && spread[s] == otherSpread[s]
  {
    var x, y := (row[s], spread[s]), (other[s], otherSpread[s]);
    assert AggregateValues(Column(reps, d, s), d) == Ok(x) && AggregateValues(Column(reps, d, s), d) == Ok(y);
  }

  lemma {:induction false} RowIsUnique(
    row: map<string, Value>, spread: map<string, Value>, other: map<string, Value>, otherSpread: map<string, Value>,
    reps: seq<Table>, d: Definition)
    requires reps != [] && forall k :: 0 <= k < |reps| ==> Defines(reps[k], d)
    requires RowIs(row, spread, reps, d, d.strata) && RowIs(other, otherSpread, reps, d, d.strata)
    ensures row == other && spread == otherSpread
  {
    var strata := set s | s in d.strata;
    forall s | s in strata
      ensures s in row && s in spread && s in other && s in otherSpread
      ensures row[s] == other[s] && spread[s] == otherSpread[s]
    {
      SameCell(row, spread, other, otherSpread, reps, d, s);
    }
    MapsEqual(row, other, strata);
    MapsEqual(spread, otherSpread, strata);
  }

  lemma {:induction false} MapsEqual<V>(m: map<string, V>, n: map<string, V>, keys: set<string>)
    requires m.Keys == keys == n.Keys && forall s :: s in keys ==> m[s] == n[s]
    ensures m == n
  {}

  // An aggregate leaves no cell that cannot be aggregated.
  lemma {:induction false} AggregateIsPossible(a: Aggregate, reps: seq<Table>, ds: seq<Definition>)
    requires reps != [] && AllCover(reps, ds) && IsAggregate(a, reps, ds)
    ensures !Unaggregable(reps, ds)
  {
    forall i, s | 0 <= i < |ds| && s in ds[i].strata ensures AggregateValues(Column(reps, ds[i], s), ds[i]).Ok? {
      AggregateCell(a, reps, ds, i, s);
    }
  }

  // Validate a receipt's aggregate against its repetitions, then evaluate it.  There is a
  // verdict exactly when the receipt's tables are that aggregate and it can be evaluated; the
  // verdict is pass exactly when every gate cell has no UNKNOWN repetition and meets its
  // majority, unanimity or sum condition, and the rational budgets hold.
  method EvaluateReceipt(
    p: Policy, receipt: Receipt, dispersion: Table, reps: seq<Table>, baseline: Option<Receipt>, asOf: int)
    returns (r: Result<Verdict, Error>)
    requires |reps| % 2 == 1 && ValidDefinitions(p.definitions) && AllCover(reps, p.definitions)
    requires baseline.Some? ==> Covers(baseline.value.metrics, p.definitions)
    ensures r.Ok? <==>
              && IsAggregate(Aggregate(receipt.metrics, dispersion), reps, p.definitions)
              && Covers(receipt.metrics, p.definitions) && Evaluable(p, receipt, baseline, asOf)
    ensures !IsAggregate(Aggregate(receipt.metrics, dispersion), reps, p.definitions) ==> r == Err(InvalidReceipt)
    ensures r.Ok? ==>
              (r.value == Pass <==>
                AllRepetitionsMeet(reps, p.definitions)
                && (baseline.Some? ==> BudgetsHold(p.definitions, baseline.value.metrics, receipt.metrics)))
    ensures r.Ok? ==> (r.value == Waived <==> receipt.waiver.Some?)
  {
    var expected := ExpectedAggregate(reps, p.definitions);
    ghost var given := Aggregate(receipt.metrics, dispersion);
    if IsAggregate(given, reps, p.definitions) {
      AggregateIsPossible(given, reps, p.definitions);
      AggregateIsUnique(given, expected.value, reps, p.definitions);
    }
    if expected.Err? || expected.value != Aggregate(receipt.metrics, dispersion) { return Err(InvalidReceipt); }
    LimitsAreRepetitionwise(expected.value, reps, p.definitions);
    r := Evaluate(p, receipt, baseline, asOf);
  }
}
