// The accuracy metrics of one repetition, stratum by stratum (run_v02_detection_benchmark.py).
module DetectionAccuracy {
  import opened Wrappers
  import opened DetectionMatching
  import opened AveragePrecision

  const EASY := "easy"
  const SMALL_DISTANT := "small_distant"

  function Filtered(items: seq<Item>, stratum: string): (r: seq<Item>) {
    if items == [] then []
    else (if items[0].stratum == stratum then [items[0]] else []) + Filtered(items[1..], stratum)
  }

  lemma {:induction false} FilteredMembers(items: seq<Item>, stratum: string, x: Item)
    ensures x in Filtered(items, stratum) <==> x in items && x.stratum == stratum
  {
    if items == [] {
    } else {
      FilteredMembers(items[1..], stratum, x);
      assert items == [items[0]] + items[1..];
    }
  }

  lemma {:induction false} FilteredItems(items: seq<Item>, stratum: string)
    requires DistinctIds(items)
    ensures DistinctIds(Filtered(items, stratum))
  {
    if items == [] {
    } else {
      var tail, rest := items[1..], Filtered(items[1..], stratum);
      FilteredItems(tail, stratum);
      forall j | 0 <= j < |rest| ensures rest[j].id != items[0].id {
        FilteredMembers(tail, stratum, rest[j]);
        var i :| 0 <= i < |tail| && tail[i] == rest[j];
        assert items[i + 1] == rest[j];
      }
    }
  }

  lemma {:induction false} FilteredAnswerable(items: seq<Item>, stratum: string, predictions: Predictions)
    requires DistinctIds(items) && Answerable(items, predictions)
    ensures Answerable(Filtered(items, stratum), predictions)
  {
    var part := Filtered(items, stratum);
    forall i | 0 <= i < |part| ensures part[i].id in predictions && MilliBox(part[i].box).Ok? {
      FilteredMembers(items, stratum, part[i]);
    }
  }

  datatype Accuracy = Accuracy(overall: Metrics, easy: Metrics, smallDistant: Metrics)

  // A repetition has accuracy metrics exactly when every item can be scored and no stratum
  // is empty; each stratum is then scored over exactly its own items.
  method AccuracyMetrics(
    items: seq<Item>, predictions: Predictions, threshold: int)
    returns (r: Result<Accuracy, string>)
    requires DistinctIds(items)
    ensures r.Ok? <==>
              Answerable(items, predictions) && Filtered(items, EASY) != [] && Filtered(items, SMALL_DISTANT) != []
    ensures r.Ok? ==> StratumScored(r.value.overall, items, predictions, threshold)
    ensures r.Ok? ==> StratumScored(r.value.easy, Filtered(items, EASY), predictions, threshold)
    ensures r.Ok? ==> StratumScored(r.value.smallDistant, Filtered(items, SMALL_DISTANT), predictions, threshold)
  {
    var overall := StratumMetrics(items, predictions, threshold);
    if overall.Err? { return Err(overall.error); }
    FilteredItems(items, EASY);
    FilteredAnswerable(items, EASY, predictions);
    var easy := StratumMetrics(Filtered(items, EASY), predictions, threshold);
    if easy.Err? { return Err(easy.error); }
    FilteredItems(items, SMALL_DISTANT);
    FilteredAnswerable(items, SMALL_DISTANT, predictions);
    var smallDistant := StratumMetrics(Filtered(items, SMALL_DISTANT), predictions, threshold);
    if smallDistant.Err? { return Err(smallDistant.error); }
    return Ok(Accuracy(overall.value, easy.value, smallDistant.value));
  }
}
