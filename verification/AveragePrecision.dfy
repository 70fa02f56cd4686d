// 101-point interpolated average precision (run_v02_detection_benchmark.py, lines 831-872).
// Python's `Fraction` values are exact, so they are modelled as reals.
module AveragePrecision {
  import opened Wrappers
  import opened Geometry
  import opened DetectionMatching
  import opened Ranking

  type Truths = map<string, Box>

  // Which entries overlap their item's ground truth by at least one half.
  predicate IsHit(e: Entry, truth: Truths) {
    e.id in truth && IouBasisPoints(truth[e.id], e.box) >= 5000
  }

  function Hits(truth: Truths): Entry -> bool {
    (e: Entry) => IsHit(e, truth)
  }

  // The items hit so far; their number is the true-positive count at that rank.
  function HitSet(ranked: seq<Entry>, hit: Entry -> bool): set<string> {
    set e | e in ranked && hit(e) :: e.id
  }

  // True positives after each rank.
  function Counts(ranked: seq<Entry>, hit: Entry -> bool): (tp: seq<nat>)
    ensures |tp| == |ranked| && forall k :: 0 <= k < |tp| ==> tp[k] == |HitSet(ranked[..k + 1], hit)|
  {
    seq(|ranked|, k requires 0 <= k < |ranked| => |HitSet(ranked[..k + 1], hit)|)
  }

  lemma {:induction false} HitSetAppend(ranked: seq<Entry>, e: Entry, hit: Entry -> bool)
    ensures HitSet(ranked + [e], hit) ==
            if hit(e) then HitSet(ranked, hit) + {e.id} else HitSet(ranked, hit)
  {}

  lemma {:induction false} HitSetNext(ranked: seq<Entry>, hit: Entry -> bool, i: nat)
    requires i < |ranked|
    ensures var before := HitSet(ranked[..i], hit);
            && HitSet(ranked[..i + 1], hit) == (if hit(ranked[i]) then before + {ranked[i].id} else before)
            && Counts(ranked, hit)[i] == |before| + if hit(ranked[i]) && ranked[i].id !in before then 1 else 0
  {
    HitSetAppend(ranked[..i], ranked[i], hit);
    assert ranked[..i + 1] == ranked[..i] + [ranked[i]];
  }

  // ----- the direct definition -----

  function Precision(tp: seq<nat>, k: nat): real
    requires k < |tp|
  {
    Ratio(tp[k], k + 1)
  }

  function Ratio(hits: nat, rank: nat): real
    requires rank > 0
  {
    hits as real / rank as real
  }

  predicate Qualifies(tp: seq<nat>, items: nat, percent: nat, k: nat)
    requires k < |tp|
  {
    100 * tp[k] >= percent * items
  }

  function Larger(x: real, y: real): real { if x < y then y else x }

  // The best precision over the ranks from k on that reach the recall level, or 0.
  function Best(tp: seq<nat>, items: nat, percent: nat, k: nat): real
    requires k <= |tp|
    decreases |tp| - k
  {
    if k == |tp| then 0.0
    else if Qualifies(tp, items, percent, k) then Larger(Precision(tp, k), Best(tp, items, percent, k + 1))
    else Best(tp, items, percent, k + 1)
  }

  // `v` is the maximum of tp_k / k over the qualifying ranks, or 0 if there is none.
  ghost predicate IsBestPrecision(v: real, tp: seq<nat>, items: nat, percent: nat) {
    && (forall k :: 0 <= k < |tp| && Qualifies(tp, items, percent, k) ==> Precision(tp, k) <= v)
    && (v == 0.0 || exists k :: 0 <= k < |tp| && Qualifies(tp, items, percent, k) && Precision(tp, k) == v)
    && v >= 0.0
  }

  function SumReals(s: seq<real>): real {
    if s == [] then 0.0 else SumReals(s[..|s| - 1]) + s[|s| - 1]
  }

  // One sample for each recall level 0, 1, ..., 100 percent.
  function Samples(tp: seq<nat>, items: nat): (r: seq<real>)
    ensures |r| == 101 && forall p :: 0 <= p <= 100 ==> r[p] == Best(tp, items, p, 0)
  {
    seq(101, p requires 0 <= p <= 100 => Best(tp, items, p, 0))
  }

  function Score(tp: seq<nat>, items: nat): int {
    (SumReals(Samples(tp, items)) * 10_000.0 / 101.0).Floor
  }

  lemma {:induction false} BestIsMaximum(tp: seq<nat>, items: nat, percent: nat, j: nat)
    requires j <= |tp|
    ensures Best(tp, items, percent, j) >= 0.0
    ensures forall k :: j <= k < |tp| && Qualifies(tp, items, percent, k) ==>
            Precision(tp, k) <= Best(tp, items, percent, j)
    ensures Best(tp, items, percent, j) == 0.0 ||
            exists k :: j <= k < |tp| && Qualifies(tp, items, percent, k)
                        && Precision(tp, k) == Best(tp, items, percent, j)
    decreases |tp| - j
  {
    if |tp| <= j {
    } else {
      BestIsMaximum(tp, items, percent, j + 1);
      assert Precision(tp, j) >= 0.0;
    }
  }

  lemma {:induction false} BestIsTheMaximum(tp: seq<nat>, items: nat, percent: nat, v: real)
    ensures v == Best(tp, items, percent, 0) <==> IsBestPrecision(v, tp, items, percent)
  {
    BestIsMaximum(tp, items, percent, 0);
  }

  // ----- the harness computation -----

  // Every sample is taken at the first rank reaching its level: on non-decreasing counts all
  // later ranks reach it too.
  ghost predicate NonDecreasing(tp: seq<nat>) {
    forall i, j :: 0 <= i <= j < |tp| ==> tp[i] <= tp[j]
  }

  lemma {:induction false} HitSetsGrow(ranked: seq<Entry>, hit: Entry -> bool, i: nat, j: nat)
    requires i <= j <= |ranked|
    ensures HitSet(ranked[..i], hit) <= HitSet(ranked[..j], hit)
    ensures |HitSet(ranked[..i], hit)| <= |HitSet(ranked[..j], hit)| <= j
  {
    HitSetsNest(ranked, hit, i, j);
    SubsetCardinality(HitSet(ranked[..i], hit), HitSet(ranked[..j], hit));
    FewHits(ranked, hit, j);
  }

  lemma {:induction false} HitSetsNest(ranked: seq<Entry>, hit: Entry -> bool, i: nat, j: nat)
    requires i <= j <= |ranked|
    ensures HitSet(ranked[..i], hit) <= HitSet(ranked[..j], hit)
    decreases j
  {
    if i < j {
      HitSetsNest(ranked, hit, i, j - 1);
      HitSetNext(ranked, hit, j - 1);
    }
  }

  lemma {:induction false} FewHits(ranked: seq<Entry>, hit: Entry -> bool, j: nat)
    requires j <= |ranked|
    ensures |HitSet(ranked[..j], hit)| <= j
  {
    if j == 0 {
      assert HitSet(ranked[..0], hit) == {};
    } else {
      FewHits(ranked, hit, j - 1);
      HitStep(ranked, hit, j - 1);
    }
  }

  lemma {:induction false} HitStep(ranked: seq<Entry>, hit: Entry -> bool, i: nat)
    requires i < |ranked|
    ensures |HitSet(ranked[..i + 1], hit)| <= |HitSet(ranked[..i], hit)| + if hit(ranked[i]) then 1 else 0
  {
    HitSetNext(ranked, hit, i);
  }

  // True-positive counts never fall, never exceed their rank, nor the number of items.
  lemma {:induction false} CountsArePlausible(ranked: seq<Entry>, truth: Truths, items: nat)
    requires items >= |truth|
    ensures Plausible(Counts(ranked, Hits(truth)), items)
  {
    var hit := Hits(truth);
    var tp := Counts(ranked, hit);
    forall i, j | 0 <= i <= j < |tp| ensures tp[i] <= tp[j] && tp[j] <= j + 1 && tp[j] <= items {
      HitSetsGrow(ranked, hit, i + 1, j + 1);
      SubsetCardinality(HitSet(ranked[..j + 1], hit), truth.Keys);
    }
  }

  // The suffix maximum left by the backward sweep.
  function Envelope(tp: seq<nat>, k: nat): real
    requires k < |tp|
    decreases |tp| - k
  {
    if k == |tp| - 1 then Precision(tp, k) else Larger(Precision(tp, k), Envelope(tp, k + 1))
  }

  lemma {:induction false} EnvelopeIsBest(tp: seq<nat>, items: nat, percent: nat, k: nat)
    requires k < |tp| && forall j :: k <= j < |tp| ==> Qualifies(tp, items, percent, j)
    ensures Envelope(tp, k) == Best(tp, items, percent, k)
    decreases |tp| - k
  {
    if k < |tp| - 1 {
      EnvelopeIsBest(tp, items, percent, k + 1);
    } else {
      assert Best(tp, items, percent, k + 1) == 0.0 && Precision(tp, k) >= 0.0;
    }
  }

  // An item counts once, at its first hit.
  method MatchOne(
    e: Entry, hit: Entry -> bool, matched: set<string>, truePositives: nat)
    returns (after: set<string>, count: nat)
    requires truePositives == |matched|
    ensures after == if hit(e) then matched + {e.id} else matched
    ensures count == |after|
  {
    after, count := matched, truePositives;
    if e.id !in matched && hit(e) {
      after := matched + {e.id};
      count := truePositives + 1;
    }
  }

  method MatchRanked(ranked: seq<Entry>, hit: Entry -> bool) returns (recall: seq<nat>, precision: array<real>)
    ensures recall == Counts(ranked, hit)
    ensures fresh(precision) && precision.Length == |ranked|
    ensures forall k :: 0 <= k < |ranked| ==> precision[k] == Precision(recall, k)
  {
    ghost var tp := Counts(ranked, hit);
    var matched: set<string> := {};
    var truePositives: nat := 0;
    recall := [];
    precision := new real[|ranked|];
    for i := 0 to |ranked|
      invariant matched == HitSet(ranked[..i], hit) && truePositives == |matched|
      invariant recall == tp[..i]
      invariant forall k :: 0 <= k < i ==> precision[k] == Precision(tp, k)
    {
      HitSetNext(ranked, hit, i);
      matched, truePositives := MatchOne(ranked[i], hit, matched, truePositives);
      assert truePositives == tp[i] && tp[..i + 1] == tp[..i] + [tp[i]];
      recall := recall + [truePositives];
      precision[i] := Ratio(truePositives, i + 1);
      assert precision[i] == Precision(tp, i);
    }
  }

  method SweepBackward(precision: array<real>, ghost tp: seq<nat>)
    requires precision.Length == |tp| && forall k :: 0 <= k < |tp| ==> precision[k] == Precision(tp, k)
    modifies precision
    ensures forall k :: 0 <= k < |tp| ==> precision[k] == Envelope(tp, k)
  {
    var index := precision.Length - 2;
    while index > -1
      invariant index <= precision.Length - 2
      invariant index >= -1 || precision.Length == 0
      invariant forall k :: 0 <= k <= index ==> precision[k] == Precision(tp, k)
      invariant forall k :: index < k < precision.Length && k >= 0 ==> precision[k] == Envelope(tp, k)
    {
      precision[index] := Larger(precision[index], precision[index + 1]);
      index := index - 1;
    }
  }

  method SampleAt(recall: seq<nat>, precision: array<real>, items: nat, percent: nat) returns (sample: real)
    requires NonDecreasing(recall) && precision.Length == |recall|
    requires forall k :: 0 <= k < |recall| ==> precision[k] == Envelope(recall, k)
    ensures sample == Best(recall, items, percent, 0)
  {
    for index := 0 to |recall|
      invariant Best(recall, items, percent, 0) == Best(recall, items, percent, index)
    {
      if recall[index] * 100 >= percent * items {
        EnvelopeIsBest(recall, items, percent, index);
        return precision[index];
      }
    }
    return 0.0;
  }

  function KeptOf(item: Item, predictions: Predictions, threshold: int): seq<Detection> {
    match DetectionsAt(predictions, item, threshold)
    case Ok(ds) => ds
    case Err(_) => []
  }

  function Entries(items: seq<Item>, predictions: Predictions, threshold: int): (r: seq<Entry>) {
    if items == [] then []
    else Tagged(items[0].id, KeptOf(items[0], predictions, threshold)) + Entries(items[1..], predictions, threshold)
  }

  lemma {:induction false} TailWellFormed(items: seq<Item>, predictions: Predictions)
    requires WellFormed(items, predictions) && items != []
    ensures WellFormed(items[1..], predictions)
  {}

  function Tagged(id: string, ds: seq<Detection>): (r: seq<Entry>)
    ensures |r| == |ds| && forall i :: 0 <= i < |ds| ==> r[i] == Entry(ds[i].confidence, id, ds[i].box)
  {
    if ds == [] then [] else [Entry(ds[0].confidence, id, ds[0].box)] + Tagged(id, ds[1..])
  }

  function TruthOf(items: seq<Item>, predictions: Predictions): Truths
    requires WellFormed(items, predictions)
  {
    map i | 0 <= i < |items| :: items[i].id := MilliBox(items[i].box).value
  }

  function RankedCounts(items: seq<Item>, predictions: Predictions, threshold: int): seq<nat>
    requires WellFormed(items, predictions)
  {
    Counts(Rank(Entries(items, predictions, threshold)), Hits(TruthOf(items, predictions)))
  }

  method Ap50BasisPoints(items: seq<Item>, predictions: Predictions, threshold: int) returns (score: int)
    requires WellFormed(items, predictions)
    ensures score == Score(RankedCounts(items, predictions, threshold), |items|)
    ensures var total := SumReals(Samples(RankedCounts(items, predictions, threshold), |items|));
            score as real * 101.0 <= total * 10_000.0 < (score + 1) as real * 101.0
  {
    var truth := TruthOf(items, predictions);
    var ranked := Rank(Entries(items, predictions, threshold));
    var recall, precision := MatchRanked(ranked, Hits(truth));
    TruthSize(items, predictions);
    CountsArePlausible(ranked, truth, |items|);
    SweepBackward(precision, recall);
    var samples := SampleAll(recall, precision, |items|);
    score := (SumReals(samples) * 10_000.0 / 101.0).Floor;
  }

  method SampleAll(recall: seq<nat>, precision: array<real>, items: nat) returns (samples: seq<real>)
    requires NonDecreasing(recall) && precision.Length == |recall|
    requires forall k :: 0 <= k < |recall| ==> precision[k] == Envelope(recall, k)
    ensures samples == Samples(recall, items)
  {
    samples := [];
    for percent := 0 to 101
      invariant |samples| == percent
      invariant forall p :: 0 <= p < percent ==> samples[p] == Best(recall, items, p, 0)
    {
      var sample := SampleAt(recall, precision, items, percent);
      samples := samples + [sample];
    }
  }

  datatype Metrics = Metrics(map50: int, precision: nat, recall: nat)

  ghost predicate IsAccuracy(m: Metrics, items: seq<Item>, predictions: Predictions, threshold: int)
    requires items != [] && WellFormed(items, predictions)
  {
    var hits, kept := |HitIds(items, predictions, threshold)|, KeptCount(items, predictions, threshold);
    && m.map50 == Score(RankedCounts(items, predictions, threshold), |items|)
    && m.precision == (if kept == 0 then 0 else BasisPoints(hits, kept))
    && m.recall == BasisPoints(hits, |items|)
  }

  predicate Scorable(items: seq<Item>, predictions: Predictions) {
    items != [] && Answerable(items, predictions)
  }

  ghost predicate StratumScored(m: Metrics, items: seq<Item>, predictions: Predictions, threshold: int) {
    items != [] && WellFormed(items, predictions) && IsAccuracy(m, items, predictions, threshold)
  }

  // One stratum of the accuracy metrics; missing predictions, unusable boxes and an empty
  // stratum are errors.
  method StratumMetrics(items: seq<Item>, predictions: Predictions, threshold: int) returns (r: Result<Metrics, string>)
    requires DistinctIds(items)
    ensures r.Ok? <==> Scorable(items, predictions)
    ensures r.Ok? ==> StratumScored(r.value, items, predictions, threshold)
  {
    if !Answerable(items, predictions) { return Err("missing_prediction or invalid_box"); }
    if items == [] { return Err("division by zero"); }
    var precision, recall := StratumAccuracy(items, predictions, threshold);
    var score := Ap50BasisPoints(items, predictions, threshold);
    return Ok(Metrics(score, precision, recall));
  }

  // The entries are exactly the kept detections of the items.
  lemma {:induction false} EntriesOfItems(items: seq<Item>, predictions: Predictions, threshold: int, e: Entry)
    requires WellFormed(items, predictions)
    ensures e in Entries(items, predictions, threshold) <==>
            exists i :: 0 <= i < |items| && items[i].id == e.id
                        && Detection(e.confidence, e.box) in Kept(predictions[items[i].id], threshold)
  {
    if items == [] {
    } else {
      TailWellFormed(items, predictions);
      EntriesOfItems(items[1..], predictions, threshold, e);
      var ds := Kept(predictions[items[0].id], threshold);
      var head := Tagged(items[0].id, ds);
      assert KeptOf(items[0], predictions, threshold) == ds;
      assert e in head <==> items[0].id == e.id && Detection(e.confidence, e.box) in ds by {
        if items[0].id == e.id && Detection(e.confidence, e.box) in ds {
          var k :| 0 <= k < |ds| && ds[k] == Detection(e.confidence, e.box);
          assert head[k] == e;
        }
      }
      assert forall i :: 0 < i < |items| ==> items[i] == items[1..][i - 1];
    }
  }

  // ----- agreement of the two greedy counters -----

  // The item and kept detection an entry comes from.
  lemma {:induction false} OriginOf(
    items: seq<Item>, predictions: Predictions, threshold: int, e: Entry)
    returns (i: nat, k: nat)
    requires WellFormed(items, predictions) && e in Entries(items, predictions, threshold)
    ensures i < |items| && items[i].id == e.id
    ensures k < |Kept(predictions[items[i].id], threshold)|
    ensures Kept(predictions[items[i].id], threshold)[k] == Detection(e.confidence, e.box)
  {
    EntriesOfItems(items, predictions, threshold, e);
    i :| 0 <= i < |items| && items[i].id == e.id
      && Detection(e.confidence, e.box) in Kept(predictions[items[i].id], threshold);
    k :| 0 <= k < |Kept(predictions[items[i].id], threshold)|
      && Kept(predictions[items[i].id], threshold)[k] == Detection(e.confidence, e.box);
  }

  lemma {:induction false} TruthAt(items: seq<Item>, predictions: Predictions, i: nat)
    requires WellFormed(items, predictions) && i < |items|
    ensures items[i].id in TruthOf(items, predictions)
    ensures TruthOf(items, predictions)[items[i].id] == MilliBox(items[i].box).value
  {}

  lemma {:induction false} RankedHitIsItemHit(items: seq<Item>, predictions: Predictions, threshold: int, e: Entry)
    requires WellFormed(items, predictions)
    requires e in Entries(items, predictions, threshold) && IsHit(e, TruthOf(items, predictions))
    ensures e.id in HitIds(items, predictions, threshold)
  {
    var i, k := OriginOf(items, predictions, threshold, e);
    TruthAt(items, predictions, i);
    assert Matches(MilliBox(items[i].box).value, Kept(predictions[items[i].id], threshold)[k]);
  }

  lemma {:induction false} ItemHitIsRankedHit(items: seq<Item>, predictions: Predictions, threshold: int, i: nat)
    returns (e: Entry)
    requires WellFormed(items, predictions) && i < |items|
    requires Hit(MilliBox(items[i].box).value, Kept(predictions[items[i].id], threshold))
    ensures e.id == items[i].id && e in Entries(items, predictions, threshold)
    ensures IsHit(e, TruthOf(items, predictions))
  {
    var ds := Kept(predictions[items[i].id], threshold);
    var k :| 0 <= k < |ds| && Matches(MilliBox(items[i].box).value, ds[k]);
    e := Entry(ds[k].confidence, items[i].id, ds[k].box);
    assert Detection(e.confidence, e.box) == ds[k];
    EntriesOfItems(items, predictions, threshold, e);
    TruthAt(items, predictions, i);
  }

  lemma {:induction false} RankKeepsEntries(s: seq<Entry>, e: Entry)
    ensures e in Rank(s) <==> e in s
  {
    assert e in Rank(s) <==> e in multiset(Rank(s));
  }

  lemma {:induction false} RankedHitsAreItemHits(items: seq<Item>, predictions: Predictions, threshold: int)
    requires WellFormed(items, predictions)
    ensures HitSet(Rank(Entries(items, predictions, threshold)), Hits(TruthOf(items, predictions)))
            == HitIds(items, predictions, threshold)
  {
    var truth, entries := TruthOf(items, predictions), Entries(items, predictions, threshold);
    var ranked, hits := Rank(entries), HitIds(items, predictions, threshold);
    forall id | id in HitSet(ranked, Hits(truth)) ensures id in hits {
      var e :| e in ranked && Hits(truth)(e) && e.id == id;
      RankKeepsEntries(entries, e);
      RankedHitIsItemHit(items, predictions, threshold, e);
    }
    forall i | 0 <= i < |items| && Hit(MilliBox(items[i].box).value, Kept(predictions[items[i].id], threshold))
      ensures items[i].id in HitSet(ranked, Hits(truth))
    {
      var e := ItemHitIsRankedHit(items, predictions, threshold, i);
      RankKeepsEntries(entries, e);
      assert Hits(truth)(e);
    }
  }

  // Whatever the ranking, the last true-positive count is the number of items some kept
  // detection hits: the number the per-item counter reports.
  lemma {:induction false} CountersAgree(items: seq<Item>, predictions: Predictions, threshold: int)
    requires WellFormed(items, predictions)
    ensures var tp := RankedCounts(items, predictions, threshold);
            |HitIds(items, predictions, threshold)| == if tp == [] then 0 else tp[|tp| - 1]
  {
    var truth, entries := TruthOf(items, predictions), Entries(items, predictions, threshold);
    var ranked, hits := Rank(entries), HitIds(items, predictions, threshold);
    RankedHitsAreItemHits(items, predictions, threshold);
    assert HitSet(ranked, Hits(truth)) == hits;
    assert ranked[..|ranked|] == ranked;
  }

  // The score does not depend on the order in which the items are listed.
  lemma {:induction false} ScoreIgnoresItemOrder(
    items: seq<Item>, other: seq<Item>, predictions: Predictions, threshold: int)
    requires WellFormed(items, predictions) && WellFormed(other, predictions)
    requires multiset(items) == multiset(other)
    ensures RankedCounts(items, predictions, threshold) == RankedCounts(other, predictions, threshold)
  {
    EntriesPermute(items, other, predictions, threshold);
    RankIgnoresOrder(Entries(items, predictions, threshold), Entries(other, predictions, threshold));
    TruthsEqual(items, other, predictions);
  }

  lemma {:induction false} EntriesPermute(items: seq<Item>, other: seq<Item>, predictions: Predictions, threshold: int)
    requires multiset(items) == multiset(other)
    ensures multiset(Entries(items, predictions, threshold)) == multiset(Entries(other, predictions, threshold))
  {
    EntriesBag(items, predictions, threshold);
    EntriesBag(other, predictions, threshold);
    BagPermutes(items, other, ItemBag(predictions, threshold));
  }

  lemma {:induction false} TruthsEqual(items: seq<Item>, other: seq<Item>, predictions: Predictions)
    requires WellFormed(items, predictions) && WellFormed(other, predictions)
    requires multiset(items) == multiset(other)
    ensures TruthOf(items, predictions) == TruthOf(other, predictions)
  {
    TruthsAgree(items, other, predictions);
    TruthsAgree(other, items, predictions);
  }

  lemma {:induction false} TruthsAgree(items: seq<Item>, other: seq<Item>, predictions: Predictions)
    requires WellFormed(items, predictions) && WellFormed(other, predictions)
    requires multiset(items) == multiset(other)
    ensures forall id :: id in TruthOf(items, predictions) ==>
              id in TruthOf(other, predictions) && TruthOf(other, predictions)[id] == TruthOf(items, predictions)[id]
  {
    forall i | 0 <= i < |items|
      ensures items[i].id in TruthOf(other, predictions)
      ensures TruthOf(other, predictions)[items[i].id] == MilliBox(items[i].box).value
    {
      assert items[i] in multiset(other);
      var j :| 0 <= j < |other| && other[j] == items[i];
      TruthAt(other, predictions, j);
    }
  }

  // The multiset union of a bag for each item.
  function Bag(items: seq<Item>, bag: Item -> multiset<Entry>): multiset<Entry> {
    if items == [] then multiset{} else bag(items[0]) + Bag(items[1..], bag)
  }

  function ItemBag(predictions: Predictions, threshold: int): Item -> multiset<Entry> {
    (item: Item) => multiset(Tagged(item.id, KeptOf(item, predictions, threshold)))
  }

  lemma {:induction false} EntriesBag(items: seq<Item>, predictions: Predictions, threshold: int)
    ensures multiset(Entries(items, predictions, threshold)) == Bag(items, ItemBag(predictions, threshold))
  {
    if items == [] {
    } else {
      EntriesBag(items[1..], predictions, threshold);
    }
  }

  lemma {:induction false} BagPullOut(items: seq<Item>, bag: Item -> multiset<Entry>, j: nat)
    requires j < |items|
    ensures Bag(items, bag) == bag(items[j]) + Bag(items[..j] + items[j + 1..], bag)
  {
    var rest := items[..j] + items[j + 1..];
    if j == 0 {
      assert rest == items[1..];
    } else {
      BagPullOut(items[1..], bag, j - 1);
      assert rest[1..] == items[1..][..j - 1] + items[1..][j..] && rest[0] == items[0];
    }
  }

  lemma {:induction false} BagPermutes(items: seq<Item>, other: seq<Item>, bag: Item -> multiset<Entry>)
    requires multiset(items) == multiset(other)
    ensures Bag(items, bag) == Bag(other, bag)
  {
    if items == [] {
      assert other == [] by { assert |multiset(other)| == |other|; }
    } else {
      assert items[0] in multiset(other);
      var j :| 0 <= j < |other| && other[j] == items[0];
      var rest := other[..j] + other[j + 1..];
      assert multiset(items[1..]) == multiset(items) - multiset{items[0]} by {
        assert items == [items[0]] + items[1..];
      }
      assert multiset(rest) == multiset(other) - multiset{items[0]} by {
        assert other == other[..j] + [other[j]] + other[j + 1..];
      }
      BagPullOut(other, bag, j);
      BagPermutes(items[1..], rest, bag);
    }
  }

  // ----- what the score means -----

  lemma {:induction false} SumRealsBounds(s: seq<real>)
    requires forall i :: 0 <= i < |s| ==> 0.0 <= s[i] <= 1.0
    ensures 0.0 <= SumReals(s) <= |s| as real
    ensures SumReals(s) == |s| as real <==> forall i :: 0 <= i < |s| ==> s[i] == 1.0
  {
    if s == [] {
    } else {
      var init := s[..|s| - 1];
      SumRealsBounds(init);
      assert forall i :: 0 <= i < |init| ==> init[i] == s[i];
    }
  }

  ghost predicate Plausible(tp: seq<nat>, items: nat) {
    NonDecreasing(tp) && forall k :: 0 <= k < |tp| ==> tp[k] <= k + 1 && tp[k] <= items
  }

  lemma {:induction false} ProperShare(part: real, whole: real)
    requires 0.0 <= part <= whole && 0.0 < whole
    ensures 0.0 <= part / whole <= 1.0 && (part / whole == 1.0 <==> part == whole)
  {
    assert part / whole * whole == part;
  }

  lemma {:induction false} PrecisionBounds(tp: seq<nat>, k: nat)
    requires k < |tp| && tp[k] <= k + 1
    ensures 0.0 <= Precision(tp, k) <= 1.0
    ensures Precision(tp, k) == 1.0 <==> tp[k] == k + 1
  {
    ProperShare(tp[k] as real, (k + 1) as real);
  }

  lemma {:induction false} BestBounds(tp: seq<nat>, items: nat, percent: nat)
    requires Plausible(tp, items)
    ensures 0.0 <= Best(tp, items, percent, 0) <= 1.0
  {
    BestIsTheMaximum(tp, items, percent, Best(tp, items, percent, 0));
    forall k | 0 <= k < |tp| ensures Precision(tp, k) <= 1.0 { PrecisionBounds(tp, k); }
  }

  lemma {:induction false} PercentWithin(percent: nat, items: nat)
    requires percent <= 100
    ensures percent * items <= 100 * items
  {}

  lemma {:induction false} PerfectRanksGiveOnes(tp: seq<nat>, items: nat, percent: nat)
    requires Plausible(tp, items) && 0 < items <= |tp| && tp[items - 1] == items && percent <= 100
    ensures Best(tp, items, percent, 0) == 1.0
  {
    BestBounds(tp, items, percent);
    BestIsTheMaximum(tp, items, percent, Best(tp, items, percent, 0));
    PrecisionBounds(tp, items - 1);
    PercentWithin(percent, items);
    assert Qualifies(tp, items, percent, items - 1);
  }

  lemma {:induction false} FullRecallAtOne(tp: seq<nat>, items: nat)
    requires Plausible(tp, items) && items > 0 && Best(tp, items, 100, 0) == 1.0
    ensures items <= |tp| && tp[items - 1] == items
  {
    BestIsTheMaximum(tp, items, 100, 1.0);
    var k :| 0 <= k < |tp| && Qualifies(tp, items, 100, k) && Precision(tp, k) == 1.0;
    PrecisionBounds(tp, k);
  }

  lemma {:induction false} ScoreMeaning(tp: seq<nat>, items: nat)
    requires Plausible(tp, items) && items > 0
    ensures 0 <= Score(tp, items) <= 10_000
    ensures Score(tp, items) == 10_000 <==> items <= |tp| && tp[items - 1] == items
  {
    var s := Samples(tp, items);
    forall p | 0 <= p < |s| ensures 0.0 <= s[p] <= 1.0 { BestBounds(tp, items, p); }
    SumRealsBounds(s);
    if items <= |tp| && tp[items - 1] == items {
      forall p | 0 <= p < |s| ensures s[p] == 1.0 { PerfectRanksGiveOnes(tp, items, p); }
    } else if SumReals(s) == 101.0 {
      assert s[100] == 1.0;
      FullRecallAtOne(tp, items);
      assert false;
    }
  }

  // A false positive below the last rank changes nothing.
  lemma {:induction false} TrailingFalsePositiveBest(tp: seq<nat>, items: nat, percent: nat)
    requires Plausible(tp, items) && items > 0
    ensures var last := if tp == [] then 0 else tp[|tp| - 1];
            Best(tp + [last], items, percent, 0) == Best(tp, items, percent, 0)
  {
    var n := |tp|;
    var last := if tp == [] then 0 else tp[n - 1];
    var longer := tp + [last];
    var v := Best(tp, items, percent, 0);
    BestIsTheMaximum(tp, items, percent, v);
    assert forall k :: 0 <= k < n ==> longer[k] == tp[k] && Precision(longer, k) == Precision(tp, k)
                                      && (Qualifies(longer, items, percent, k) <==> Qualifies(tp, items, percent, k));
    if n > 0 {
      ShrinkingPrecision(last, n);
      assert Precision(longer, n) <= Precision(tp, n - 1);
    } else {
      assert Precision(longer, 0) == 0.0;
    }
    if v != 0.0 {
      var k :| 0 <= k < n && Qualifies(tp, items, percent, k) && Precision(tp, k) == v;
      assert Qualifies(longer, items, percent, k) && Precision(longer, k) == v;
    }
    BestIsTheMaximum(longer, items, percent, v);
  }

  lemma {:induction false} ShrinkingPrecision(hits: nat, rank: nat)
    requires rank > 0
    ensures hits as real / (rank + 1) as real <= hits as real / rank as real
  {}

  lemma {:induction false} HitSetKept(ranked: seq<Entry>, e: Entry, hit: Entry -> bool)
    requires !hit(e) || e.id in HitSet(ranked, hit)
    ensures HitSet(ranked + [e], hit) == HitSet(ranked, hit)
  {
    HitSetAppend(ranked, e, hit);
  }

  lemma {:induction false} CountsAppend(ranked: seq<Entry>, e: Entry, hit: Entry -> bool)
    requires !hit(e) || e.id in HitSet(ranked, hit)
    ensures HitSet(ranked + [e], hit) == HitSet(ranked, hit)
    ensures var tp := Counts(ranked, hit);
            Counts(ranked + [e], hit) == tp + [if tp == [] then 0 else tp[|tp| - 1]]
  {
    HitSetKept(ranked, e, hit);
    var longer, tp := ranked + [e], Counts(ranked, hit);
    forall k | 0 <= k < |ranked| ensures Counts(longer, hit)[k] == tp[k] {
      assert longer[..k + 1] == ranked[..k + 1];
    }
    assert longer[..|ranked| + 1] == longer;
    if ranked == [] {
      assert HitSet(ranked, hit) == {};
    } else {
      assert ranked[..(|ranked| - 1) + 1] == ranked;
      assert tp[|ranked| - 1] == |HitSet(ranked, hit)|;
    }
  }

  lemma {:induction false} OneFalsePositive(ranked: seq<Entry>, e: Entry, truth: Truths, items: nat)
    requires items >= |truth| && items > 0
    requires !IsHit(e, truth) || e.id in HitSet(ranked, Hits(truth))
    ensures HitSet(ranked + [e], Hits(truth)) == HitSet(ranked, Hits(truth))
    ensures Score(Counts(ranked + [e], Hits(truth)), items) == Score(Counts(ranked, Hits(truth)), items)
  {
    var tp, longer := Counts(ranked, Hits(truth)), Counts(ranked + [e], Hits(truth));
    CountsAppend(ranked, e, Hits(truth));
    CountsArePlausible(ranked, truth, items);
    forall p | 0 <= p <= 100 ensures Best(longer, items, p, 0) == Best(tp, items, p, 0) {
      TrailingFalsePositiveBest(tp, items, p);
    }
    assert Samples(longer, items) == Samples(tp, items);
  }

  // Any number of false positives ranked last leave the score as it is.
  lemma {:induction false} TrailingFalsePositives(ranked: seq<Entry>, tail: seq<Entry>, truth: Truths, items: nat)
    requires items >= |truth| && items > 0
    requires forall e :: e in tail ==> !IsHit(e, truth) || e.id in HitSet(ranked, Hits(truth))
    ensures Score(Counts(ranked + tail, Hits(truth)), items) == Score(Counts(ranked, Hits(truth)), items)
    decreases |tail|
  {
    if tail == [] {
      assert ranked + tail == ranked;
    } else {
      OneFalsePositive(ranked, tail[0], truth, items);
      assert ranked + tail == ranked + [tail[0]] + tail[1..];
      TrailingFalsePositives(ranked + [tail[0]], tail[1..], truth, items);
    }
  }

  // The published score of any stratum: its range, and when it is full.
  lemma {:induction false} Ap50Meaning(items: seq<Item>, predictions: Predictions, threshold: int)
    requires WellFormed(items, predictions) && items != []
    ensures var tp := RankedCounts(items, predictions, threshold);
            && 0 <= Score(tp, |items|) <= 10_000
            && (Score(tp, |items|) == 10_000 <==> |items| <= |tp| && tp[|items| - 1] == |items|)
  {
    TruthSize(items, predictions);
    CountsArePlausible(Rank(Entries(items, predictions, threshold)), TruthOf(items, predictions), |items|);
    ScoreMeaning(RankedCounts(items, predictions, threshold), |items|);
  }

  lemma {:induction false} TruthSize(items: seq<Item>, predictions: Predictions)
    requires WellFormed(items, predictions)
    ensures |TruthOf(items, predictions)| == |items|
  {
    if items == [] {
    } else {
      TailWellFormed(items, predictions);
      TruthSize(items[1..], predictions);
      var tail := TruthOf(items[1..], predictions);
      assert forall i :: 0 < i < |items| ==> items[i] == items[1..][i - 1];
      assert TruthOf(items, predictions) == tail[items[0].id := MilliBox(items[0].box).value];
    }
  }

  lemma {:induction false} RatioTimes(hits: nat, rank: nat, v: real)
    requires rank > 0
    ensures Ratio(hits, rank) <= v <==> hits as real <= v * rank as real
    ensures Ratio(hits, rank) == v <==> hits as real == v * rank as real
  {
    assert Ratio(hits, rank) * rank as real == hits as real;
  }

  // A sample, over ranks counted from 1: no rank whose true positives reach the level has a
  // greater share of them, and one has just this share unless the sample is 0.
  lemma {:induction false} SampleMeaning(tp: seq<nat>, items: nat, percent: nat, v: real)
    ensures v == Best(tp, items, percent, 0) <==>
            && v >= 0.0
            && (forall k :: 0 <= k < |tp| && 100 * tp[k] >= percent * items ==>
                  tp[k] as real <= v * (k + 1) as real)
            && (v == 0.0 || exists k :: 0 <= k < |tp| && 100 * tp[k] >= percent * items
                                        && tp[k] as real == v * (k + 1) as real)
  {
    BestIsTheMaximum(tp, items, percent, v);
    forall k | 0 <= k < |tp|
      ensures (Precision(tp, k) <= v <==> tp[k] as real <= v * (k + 1) as real)
      ensures (Precision(tp, k) == v <==> tp[k] as real == v * (k + 1) as real)
    {
      PrecisionTimes(tp, k, v);
    }
  }

  lemma {:induction false} PrecisionTimes(tp: seq<nat>, k: nat, v: real)
    requires k < |tp|
    ensures Precision(tp, k) <= v <==> tp[k] as real <= v * (k + 1) as real
    ensures Precision(tp, k) == v <==> tp[k] as real == v * (k + 1) as real
  {
    RatioTimes(tp[k], k + 1, v);
  }

  // The samples are added up.
  lemma {:induction false} SumRealsAdds(s: seq<real>, t: seq<real>)
    ensures SumReals(s + t) == SumReals(s) + SumReals(t)
    ensures forall x :: SumReals([x]) == x
  {
    if t == [] {
      assert s + t == s;
    } else {
      SumRealsAdds(s, t[..|t| - 1]);
      assert (s + t)[..|s + t| - 1] == s + t[..|t| - 1];
    }
    forall x ensures SumReals([x]) == x { assert [x][..0] == []; }
  }

  // ----- the score on entries -----

  // An entry that is not one of these hits, or one of them listed once more.
  ghost predicate IsOther(e: Entry, entries: seq<Entry>, hits: map<string, Entry>) {
    multiset(entries)[e] > multiset(hits.Values)[e]
  }

  // A hit for every item, each more confident than every entry that is not one of these hits.
  ghost predicate HitsLead(entries: seq<Entry>, truth: Truths, hits: map<string, Entry>) {
    && hits.Keys == truth.Keys
    && (forall id :: id in hits ==> hits[id] in entries && hits[id].id == id && IsHit(hits[id], truth))
    && forall e, id :: IsOther(e, entries, hits) && id in hits ==> e.confidence < hits[id].confidence
  }

  // No other entry stands before one of these hits.
  lemma {:induction false} OnlyLeadersBefore(entries: seq<Entry>, truth: Truths, hits: map<string, Entry>, p: nat,
                                             i: nat)
    requires HitsLead(entries, truth, hits) && i <= p < |entries| && Rank(entries)[p] in hits.Values
    ensures !IsOther(Rank(entries)[i], entries, hits)
  {
    var id :| id in hits && hits[id] == Rank(entries)[p];
    if i < p { RankMeaning(entries, i, p); }
  }

  lemma {:induction false} PrefixBag(s: seq<Entry>, n: nat, e: Entry)
    requires n <= |s|
    ensures multiset(s[..n])[e] <= multiset(s)[e]
  {
    assert s == s[..n] + s[n..];
  }

  lemma {:induction false} PrefixWithin(s: seq<Entry>, n: nat, bag: multiset<Entry>, e: Entry)
    requires n <= |s| && forall i :: 0 <= i < n ==> multiset(s)[s[i]] <= bag[s[i]]
    ensures multiset(s[..n])[e] <= bag[e]
  {
    PrefixBag(s, n, e);
    if e in s[..n] {
      var i :| 0 <= i < n && s[i] == e;
    }
  }

  lemma {:induction false} LeaderBound(entries: seq<Entry>, truth: Truths, hits: map<string, Entry>, p: nat, i: nat)
    requires HitsLead(entries, truth, hits) && i <= p < |entries| && Rank(entries)[p] in hits.Values
    ensures var e := Rank(entries)[i]; multiset(Rank(entries))[e] <= multiset(hits.Values)[e]
  {
    OnlyLeadersBefore(entries, truth, hits, p, i);
  }

  lemma {:induction false} LeaderCount(entries: seq<Entry>, truth: Truths, hits: map<string, Entry>, p: nat, e: Entry)
    requires HitsLead(entries, truth, hits) && p < |entries| && Rank(entries)[p] in hits.Values
    ensures multiset(Rank(entries)[..p + 1])[e] <= multiset(hits.Values)[e]
  {
    var ranked, bag := Rank(entries), multiset(hits.Values);
    forall i | 0 <= i < p + 1 ensures multiset(ranked)[ranked[i]] <= bag[ranked[i]] {
      LeaderBound(entries, truth, hits, p, i);
    }
    PrefixWithin(ranked, p + 1, bag, e);
  }

  lemma {:induction false} LeadersComeFirst(entries: seq<Entry>, truth: Truths, hits: map<string, Entry>, p: nat)
    requires HitsLead(entries, truth, hits) && p < |entries| && Rank(entries)[p] in hits.Values
    ensures p < |truth|
  {
    var first := multiset(Rank(entries)[..p + 1]);
    forall e ensures first[e] <= multiset(hits.Values)[e] { LeaderCount(entries, truth, hits, p, e); }
    BagSize(first, multiset(hits.Values));
    ValuesWithin(hits);
  }

  lemma {:induction false} BagSize<T>(a: multiset<T>, b: multiset<T>)
    requires a <= b
    ensures |a| <= |b|
  {
    assert b == a + (b - a);
  }

  lemma {:induction false} ValuesWithin(hits: map<string, Entry>)
    requires forall id :: id in hits ==> hits[id].id == id
    ensures |multiset(hits.Values)| == |hits.Values| <= |hits.Keys|
  {
    SetBag(hits.Values);
    IdsOfValues(hits.Values);
    SubsetCardinality(set e | e in hits.Values :: e.id, hits.Keys);
  }

  lemma {:induction false} SetBag<T>(s: set<T>)
    ensures |multiset(s)| == |s|
  {
    if s == {} {
    } else {
      var x :| x in s;
      SetBag(s - {x});
      assert multiset(s) == multiset(s - {x}) + multiset{x};
    }
  }

  lemma {:induction false} IdsOfValues(s: set<Entry>)
    requires forall e, f :: e in s && f in s && e.id == f.id ==> e == f
    ensures |set e | e in s :: e.id| == |s|
  {
    if s == {} {
      assert (set e | e in s :: e.id) == {};
    } else {
      var x :| x in s;
      IdsOfValues(s - {x});
      assert (set e | e in s :: e.id) == (set e | e in s - {x} :: e.id) + {x.id};
      assert x.id !in (set e | e in s - {x} :: e.id);
    }
  }

  lemma {:induction false} LeaderAt(entries: seq<Entry>, truth: Truths, hits: map<string, Entry>, id: string)
    returns (p: nat)
    requires HitsLead(entries, truth, hits) && id in truth
    ensures p < |entries| && p < |truth| && Rank(entries)[p] == hits[id]
  {
    RankKeepsEntries(entries, hits[id]);
    p :| 0 <= p < |Rank(entries)| && Rank(entries)[p] == hits[id];
    LeadersComeFirst(entries, truth, hits, p);
  }

  lemma {:induction false} HitAmong(ranked: seq<Entry>, hit: Entry -> bool, p: nat, n: nat)
    requires p < n <= |ranked| && hit(ranked[p])
    ensures ranked[p].id in HitSet(ranked[..n], hit)
  {
    assert ranked[..n][p] == ranked[p];
  }

  lemma {:induction false} LeadersFillTheTop(entries: seq<Entry>, truth: Truths, hits: map<string, Entry>)
    requires HitsLead(entries, truth, hits)
    ensures |truth| <= |entries| && HitSet(Rank(entries)[..|truth|], Hits(truth)) == truth.Keys
  {
    var ranked, hit := Rank(entries), Hits(truth);
    var n := if |truth| <= |ranked| then |truth| else |ranked|;
    forall id | id in truth ensures id in HitSet(ranked[..n], hit) {
      var p := LeaderAt(entries, truth, hits, id);
      HitAmong(ranked, hit, p, n);
    }
    assert HitSet(ranked[..n], hit) == truth.Keys;
    HitSetsGrow(ranked, hit, n, n);
  }

  // The score is full when every item has a hit more confident than all other entries.
  lemma {:induction false} LeadingHitsScoreFull(items: seq<Item>, predictions: Predictions, threshold: int,
                                                hits: map<string, Entry>)
    requires WellFormed(items, predictions) && items != []
    requires HitsLead(Entries(items, predictions, threshold), TruthOf(items, predictions), hits)
    ensures Score(RankedCounts(items, predictions, threshold), |items|) == 10_000
  {
    var entries, truth := Entries(items, predictions, threshold), TruthOf(items, predictions);
    LeadersFillTheTop(entries, truth, hits);
    TruthSize(items, predictions);
    Ap50Meaning(items, predictions, threshold);
    assert RankedCounts(items, predictions, threshold)[|items| - 1] == |HitSet(Rank(entries)[..|items|], Hits(truth))|;
  }

  // One entry that hits nothing leaves a place of the top without a new item.
  lemma {:induction false} MissCosts(ranked: seq<Entry>, hit: Entry -> bool, q: nat, n: nat)
    requires q < n <= |ranked| && !hit(ranked[q])
    ensures |HitSet(ranked[..n], hit)| < n
  {
    HitStep(ranked, hit, n - 1);
    if q == n - 1 {
      HitSetsGrow(ranked, hit, n - 1, n - 1);
    } else {
      MissCosts(ranked, hit, q, n - 1);
    }
  }

  lemma {:induction false} TopHas(ranked: seq<Entry>, truth: Truths, n: nat, id: string) returns (p: nat)
    requires n <= |ranked| && |HitSet(ranked[..n], Hits(truth))| == n == |truth| && id in truth
    ensures p < n && IsHit(ranked[p], truth) && ranked[p].id == id
  {
    SameSize(HitSet(ranked[..n], Hits(truth)), truth.Keys);
    var e :| e in ranked[..n] && Hits(truth)(e) && e.id == id;
    p :| 0 <= p < n && ranked[..n][p] == e;
  }

  // Every hit of the item is less confident than `miss`.
  ghost predicate Leads(miss: Entry, entries: seq<Entry>, truth: Truths, id: string) {
    forall e :: e in entries && IsHit(e, truth) && e.id == id ==> e.confidence < miss.confidence
  }

  lemma {:induction false} MissAtTheTop(entries: seq<Entry>, truth: Truths, miss: Entry, id: string)
    requires id in truth && miss in entries && !IsHit(miss, truth) && Leads(miss, entries, truth, id)
    ensures |truth| <= |entries| ==> |HitSet(Rank(entries)[..|truth|], Hits(truth))| != |truth|
  {
    var ranked, n := Rank(entries), |truth|;
    if n <= |ranked| && |HitSet(ranked[..n], Hits(truth))| == n {
      var p := TopHas(ranked, truth, n, id);
      RankKeepsEntries(entries, ranked[p]);
      RankKeepsEntries(entries, miss);
      var q :| 0 <= q < |ranked| && ranked[q] == miss;
      if p < q { RankMeaning(entries, p, q); }
      MissCosts(ranked, Hits(truth), q, n);
    }
  }

  // And it is not full when an entry that hits nothing is more confident than every hit of some item.
  lemma {:induction false} LeadingMissScoresLess(items: seq<Item>, predictions: Predictions, threshold: int,
                                                 miss: Entry, id: string)
    requires WellFormed(items, predictions) && id in TruthOf(items, predictions)
    requires miss in Entries(items, predictions, threshold) && !IsHit(miss, TruthOf(items, predictions))
    requires Leads(miss, Entries(items, predictions, threshold), TruthOf(items, predictions), id)
    ensures Score(RankedCounts(items, predictions, threshold), |items|) < 10_000
  {
    TruthSize(items, predictions);
    Ap50Meaning(items, predictions, threshold);
    MissAtTheTop(Entries(items, predictions, threshold), TruthOf(items, predictions), miss, id);
  }

  lemma {:induction false} SameSize<T>(a: set<T>, b: set<T>)
    requires a <= b && |a| == |b|
    ensures a == b
  {
    assert b == a + (b - a);
  }
}
