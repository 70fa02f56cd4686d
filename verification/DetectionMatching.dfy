// Integer intersection over union and the greedy match counters (run_v02_detection_benchmark.py).
module DetectionMatching {
  import opened Arithmetic
  import opened Wrappers
  import opened Geometry
  import opened PixelCounts

  const MAX_DETECTIONS := 100
  const IOU_SCALE := 1000

  datatype Detection = Detection(confidence: int, box: Box)
  datatype Item = Item(id: string, stratum: string, box: Box)
  type Predictions = map<string, seq<Detection>>

  predicate Proper(b: Box) {
    b.left < b.right && b.top < b.bottom
  }

  // ----- intersection over union -----

  function Intersection(a: Box, b: Box): int {
    Max(0, Min(a.right, b.right) - Max(a.left, b.left)) * Max(0, Min(a.bottom, b.bottom) - Max(a.top, b.top))
  }

  function Union(a: Box, b: Box): int {
    Area(a) + Area(b) - Intersection(a, b)
  }

  function IouBasisPoints(a: Box, b: Box): int {
    if Union(a, b) <= 0 then 0 else Intersection(a, b) * 10_000 / Union(a, b)
  }

  lemma {:induction false} ProductWithin(w: nat, h: nat, width: nat, height: nat)
    requires w <= width && h <= height
    ensures 0 <= w * h <= width * height
  {}

  lemma {:induction false} FullProduct(w: nat, h: nat, width: nat, height: nat)
    requires w <= width && h <= height && width > 0 && height > 0 && w * h == width * height
    ensures w == width && h == height
  {}

  lemma {:induction false} IntersectionWithin(a: Box, b: Box)
    requires Proper(a) && Proper(b)
    ensures 0 <= Intersection(a, b) <= Area(a) && Intersection(a, b) <= Area(b)
    ensures Intersection(a, b) == Area(a) == Area(b) ==> a == b
    ensures 0 < Area(a) && 0 < Area(b)
  {
    var w := Max(0, Min(a.right, b.right) - Max(a.left, b.left));
    var h := Max(0, Min(a.bottom, b.bottom) - Max(a.top, b.top));
    ProductWithin(w, h, a.right - a.left, a.bottom - a.top);
    ProductWithin(w, h, b.right - b.left, b.bottom - b.top);
    if w * h == Area(a) == Area(b) {
      ProductWithin(1, 1, a.right - a.left, a.bottom - a.top);
      FullProduct(w, h, a.right - a.left, a.bottom - a.top);
      FullProduct(w, h, b.right - b.left, b.bottom - b.top);
    }
    ProductWithin(1, 1, a.right - a.left, a.bottom - a.top);
    ProductWithin(1, 1, b.right - b.left, b.bottom - b.top);
  }

  // The quotient floor(n * 10000 / d) reaches m exactly when n * 10000 reaches m * d.
  lemma {:induction false} QuotientReaches(n: nat, d: nat, m: nat)
    requires d > 0
    ensures m <= n * 10_000 / d <==> m * d <= n * 10_000
  {
    var q := n * 10_000 / d;
    assert q * d <= n * 10_000 < q * d + d;
    if m <= q {
      assert m * d <= q * d by { ProductWithin(m, d, q, d); }
    } else {
      assert (q + 1) * d <= m * d by { ProductWithin(q + 1, d, m, d); }
      assert (q + 1) * d == q * d + d;
    }
  }

  // Intersection and union are the numbers of pixels in both boxes and in at least one.
  lemma {:induction false} AreasArePixels(a: Box, b: Box)
    requires Proper(a) && Proper(b)
    ensures Intersection(a, b) == CountRect(a, Within(b))
    ensures Union(a, b) == CountRect(Hull(a, b), Either(a, b))
  {
    SharedPixels(a, b);
    EitherPixels(a, b);
  }

  // The basis points are the shared pixels' part of all pixels, rounded down.
  lemma {:induction false} IouIsPixelShare(a: Box, b: Box)
    requires Proper(a) && Proper(b)
    ensures var shared, all := CountRect(a, Within(b)), CountRect(Hull(a, b), Either(a, b));
            && all > 0
            && IsBasisPoints(IouBasisPoints(a, b), shared, all)
            && (IouBasisPoints(a, b) >= 5000 <==> 2 * shared >= all)
  {
    AreasArePixels(a, b);
    IntersectionWithin(a, b);
    IouMeaning(a, b);
    RoundsDown(Intersection(a, b), Union(a, b));
  }

  lemma {:induction false} IouMeaning(a: Box, b: Box)
    requires Proper(a) && Proper(b)
    ensures IouBasisPoints(a, b) == IouBasisPoints(b, a)
    ensures 0 <= IouBasisPoints(a, b) <= 10_000
    ensures IouBasisPoints(a, b) == 10_000 <==> a == b
    ensures IouBasisPoints(a, b) >= 5000 <==> 2 * Intersection(a, b) >= Union(a, b)
  {
    IntersectionWithin(a, b);
    var n, d := Intersection(a, b), Union(a, b);
    assert Intersection(b, a) == n;
    QuotientReaches(n, d, 0); QuotientReaches(n, d, 5000);
    QuotientReaches(n, d, 10_000); QuotientReaches(n, d, 10_001);
  }

  // ----- ground truth in milli-pixels -----

  function MilliBox(b: Box): Result<Box, string> {
    if 0 <= b.left < b.right && 0 <= b.top < b.bottom then
      Ok(Box(b.left * IOU_SCALE, b.top * IOU_SCALE, b.right * IOU_SCALE, b.bottom * IOU_SCALE))
    else Err("invalid_box")
  }

  // A milli-pixel lies in the scaled box exactly when its pixel lies in the box.
  lemma {:induction false} MilliPixels(b: Box, x: int, y: int)
    requires MilliBox(b).Ok?
    ensures InBox(MilliBox(b).value, x, y) <==> InBox(b, x / 1000, y / 1000)
  {}

  // Scaling both boxes to milli-pixels does not move the overlap test.
  lemma {:induction false} ScalingKeepsHalfOverlap(a: Box, b: Box)
    requires MilliBox(a).Ok? && MilliBox(b).Ok?
    ensures IouBasisPoints(MilliBox(a).value, MilliBox(b).value) >= 5000 <==> IouBasisPoints(a, b) >= 5000
  {
    var x, y := MilliBox(a).value, MilliBox(b).value;
    IouMeaning(a, b);
    IouMeaning(x, y);
    ScaledProduct(a.right - a.left, a.bottom - a.top);
    ScaledProduct(b.right - b.left, b.bottom - b.top);
    ScaledProduct(Max(0, Min(a.right, b.right) - Max(a.left, b.left)),
                  Max(0, Min(a.bottom, b.bottom) - Max(a.top, b.top)));
  }

  lemma {:induction false} ScaledProduct(w: int, h: int)
    ensures (w * IOU_SCALE) * (h * IOU_SCALE) == 1_000_000 * (w * h)
  {}

  // ----- worker output -----

  ghost predicate Descending(ds: seq<Detection>) {
    forall i, j :: 0 <= i < j < |ds| ==> ds[j].confidence <= ds[i].confidence
  }

  // The confidence part of the worker-result validator.  Its initial bound of 1,000,001 is
  // itself accepted, one millionth more than a full confidence.
  method AcceptsConfidences(ds: seq<Detection>) returns (ok: bool)
    ensures ok <==> Descending(ds) && forall i :: 0 <= i < |ds| ==> 0 <= ds[i].confidence <= 1_000_001
  {
    var prior := 1_000_001;
    for i := 0 to |ds|
      invariant Descending(ds[..i]) && prior <= 1_000_001
      invariant forall k :: 0 <= k < i ==> 0 <= ds[k].confidence <= 1_000_001
      invariant prior == if i == 0 then 1_000_001 else ds[i - 1].confidence
    {
      var confidence := ds[i].confidence;
      if !(0 <= confidence <= prior <= 1_000_001) {
        return false;
      }
      prior := confidence;
      assert forall k :: 0 <= k < i ==> ds[..i][k].confidence >= ds[..i][i - 1].confidence;
    }
    assert ds[..|ds|] == ds;
    return true;
  }

  // ----- detections kept at a threshold -----

  function AtLeast(ds: seq<Detection>, threshold: int): (r: seq<Detection>)
    ensures |r| <= |ds|
  {
    if ds == [] then []
    else if ds[0].confidence >= threshold then [ds[0]] + AtLeast(ds[1..], threshold)
    else AtLeast(ds[1..], threshold)
  }

  function Kept(ds: seq<Detection>, threshold: int): (r: seq<Detection>)
  {
    var selected := AtLeast(ds, threshold);
    selected[..Min(|selected|, MAX_DETECTIONS)]
  }

  function Later(indices: seq<nat>): (r: seq<nat>)
    ensures |r| == |indices| && forall i :: 0 <= i < |r| ==> r[i] == indices[i] + 1
  {
    seq(|indices|, i requires 0 <= i < |indices| => indices[i] + 1)
  }

  lemma {:induction false} LaterHas(indices: seq<nat>, k: nat)
    ensures k + 1 in Later(indices) <==> k in indices
    ensures 0 !in Later(indices)
  {
    if k in indices {
      var i :| 0 <= i < |indices| && indices[i] == k;
      assert Later(indices)[i] == k + 1;
    }
  }

  // The places of the detections that reach the threshold.
  ghost function Places(ds: seq<Detection>, threshold: int): (r: seq<nat>)
    ensures |r| == |AtLeast(ds, threshold)|
    ensures forall i :: 0 <= i < |r| ==> r[i] < |ds| && AtLeast(ds, threshold)[i] == ds[r[i]]
    ensures forall i, j :: 0 <= i < j < |r| ==> r[i] < r[j]
  {
    if ds == [] then []
    else
      var rest := Later(Places(ds[1..], threshold));
      if ds[0].confidence >= threshold then [0] + rest else rest
  }

  lemma {:induction false} PlacesReach(ds: seq<Detection>, threshold: int, k: nat)
    requires k < |ds|
    ensures ds[k].confidence >= threshold <==> k in Places(ds, threshold)
  {
    LaterHas(Places(ds[1..], threshold), if k == 0 then 0 else k - 1);
    if k == 0 {
    } else {
      PlacesReach(ds[1..], threshold, k - 1);
    }
  }

  // Kept are the detections at these places, in their order.
  ghost function KeptPlaces(ds: seq<Detection>, threshold: int): (r: seq<nat>)
    ensures |r| == |Kept(ds, threshold)| <= 100
    ensures forall i :: 0 <= i < |r| ==> r[i] < |ds| && Kept(ds, threshold)[i] == ds[r[i]]
    ensures forall i, j :: 0 <= i < j < |r| ==> r[i] < r[j]
  {
    var all := Places(ds, threshold);
    all[..Min(|all|, MAX_DETECTIONS)]
  }

  // A detection is kept exactly when it reaches the threshold and is among the first hundred that do.
  lemma {:induction false} KeptMeaning(ds: seq<Detection>, threshold: int, k: nat)
    requires k < |ds|
    ensures var places := KeptPlaces(ds, threshold);
            && (k in places ==> ds[k].confidence >= threshold)
            && (ds[k].confidence >= threshold ==> k in places || (|places| == 100 && places[99] < k))
  {
    var all, places := Places(ds, threshold), KeptPlaces(ds, threshold);
    PlacesReach(ds, threshold, k);
    if k in all {
      var i :| 0 <= i < |all| && all[i] == k;
      if i < |places| { assert places[i] == k; }
    }
  }

  function DetectionsAt(predictions: Predictions, item: Item, threshold: int): Result<seq<Detection>, string> {
    if item.id !in predictions then Err("missing_prediction")
    else Ok(Kept(predictions[item.id], threshold))
  }

  // On descending confidences a threshold keeps a prefix, and a higher one a shorter prefix.
  lemma {:induction false} DescendingKeepsPrefix(ds: seq<Detection>, low: int, high: int)
    requires Descending(ds) && low <= high
    ensures AtLeast(ds, low) <= ds
    ensures AtLeast(ds, high) <= AtLeast(ds, low)
  {
    if ds == [] {
    } else {
      DescendingKeepsPrefix(ds[1..], low, high);
      if ds[0].confidence < low { NoneReaches(ds[1..], low); }
      if ds[0].confidence < high { NoneReaches(ds[1..], high); }
    }
  }

  lemma {:induction false} NoneReaches(ds: seq<Detection>, threshold: int)
    requires forall i :: 0 <= i < |ds| ==> ds[i].confidence < threshold
    ensures AtLeast(ds, threshold) == []
  {
    if ds == [] {
    } else {
      NoneReaches(ds[1..], threshold);
    }
  }

  // ----- matching -----

  predicate Matches(truth: Box, d: Detection) {
    IouBasisPoints(truth, d.box) >= 5000
  }

  // A detection matches when it shares at least half of all pixels the two boxes cover.
  lemma {:induction false} MatchesMeaning(truth: Box, d: Detection)
    requires Proper(truth) && Proper(d.box)
    ensures Matches(truth, d) <==>
            2 * CountRect(truth, Within(d.box)) >= CountRect(Hull(truth, d.box), Either(truth, d.box))
  {
    IouIsPixelShare(truth, d.box);
  }

  predicate Hit(truth: Box, ds: seq<Detection>) {
    exists i :: 0 <= i < |ds| && Matches(truth, ds[i])
  }

  ghost predicate DistinctIds(items: seq<Item>) {
    forall i, j :: 0 <= i < j < |items| ==> items[i].id != items[j].id
  }

  // Every item has a prediction list and a usable ground-truth box.
  predicate Answerable(items: seq<Item>, predictions: Predictions) {
    forall i :: 0 <= i < |items| ==> items[i].id in predictions && MilliBox(items[i].box).Ok?
  }

  ghost predicate WellFormed(items: seq<Item>, predictions: Predictions) {
    DistinctIds(items) && Answerable(items, predictions)
  }

  // The items some kept detection overlaps by at least one half.
  ghost function HitIds(items: seq<Item>, predictions: Predictions, threshold: int): (r: set<string>)
    requires WellFormed(items, predictions)
  {
    set i | 0 <= i < |items| && Hit(MilliBox(items[i].box).value, Kept(predictions[items[i].id], threshold))
      :: items[i].id
  }

  function KeptCount(items: seq<Item>, predictions: Predictions, threshold: int): nat
    requires forall i :: 0 <= i < |items| ==> items[i].id in predictions
  {
    if items == [] then 0
    else |Kept(predictions[items[0].id], threshold)| + KeptCount(items[1..], predictions, threshold)
  }

  // The per-item counter: the first match is a true positive, everything else a false one.
  method CountItem(truth: Box, ds: seq<Detection>) returns (truePositives: nat, falsePositives: nat)
    ensures truePositives == if Hit(truth, ds) then 1 else 0
    ensures truePositives + falsePositives == |ds|
  {
    truePositives, falsePositives := 0, 0;
    var matched := false;
    for i := 0 to |ds|
      invariant matched <==> Hit(truth, ds[..i])
      invariant truePositives == if matched then 1 else 0
      invariant truePositives + falsePositives == i
    {
      assert ds[..i + 1] == ds[..i] + [ds[i]];
      if !matched && IouBasisPoints(truth, ds[i].box) >= 5000 {
        assert Matches(truth, ds[..i + 1][i]);
        matched := true;
        truePositives := truePositives + 1;
      } else {
        assert matched ==> Hit(truth, ds[..i + 1]) by {
          if matched {
            var k :| 0 <= k < i && Matches(truth, ds[..i][k]);
            assert Matches(truth, ds[..i + 1][k]);
          }
        }
        falsePositives := falsePositives + 1;
      }
    }
    assert ds[..|ds|] == ds;
  }

  // A share in basis points, rounded down.
  function BasisPoints(part: nat, whole: nat): nat
    requires whole > 0
  {
    part * 10_000 / whole
  }

  method CountStratum(items: seq<Item>, predictions: Predictions, threshold: int)
    returns (truePositives: nat, falsePositives: nat)
    requires WellFormed(items, predictions)
    ensures truePositives == |HitIds(items, predictions, threshold)|
    ensures truePositives + falsePositives == KeptCount(items, predictions, threshold)
  {
    truePositives, falsePositives := 0, 0;
    for i := 0 to |items|
      invariant truePositives == |HitIds(items[..i], predictions, threshold)|
      invariant truePositives + falsePositives == KeptCount(items[..i], predictions, threshold)
    {
      var ds := Kept(predictions[items[i].id], threshold);
      var t, f := CountItem(MilliBox(items[i].box).value, ds);
      HitIdsGrow(items, predictions, threshold, i);
      KeptCountGrows(items, predictions, threshold, i);
      truePositives, falsePositives := truePositives + t, falsePositives + f;
    }
    assert items[..|items|] == items;
  }

  // Precision and recall of one stratum, for any items the annotation lock can hold.
  method StratumAccuracy(items: seq<Item>, predictions: Predictions, threshold: int)
    returns (precision: nat, recall: nat)
    requires items != [] && WellFormed(items, predictions)
    ensures var hits := |HitIds(items, predictions, threshold)|;
            var kept := KeptCount(items, predictions, threshold);
            && precision == (if kept == 0 then 0 else BasisPoints(hits, kept))
            && recall == BasisPoints(hits, |items|)
            && IsBasisPoints(precision, hits, kept) && IsBasisPoints(recall, hits, |items|)
  {
    var truePositives, falsePositives := CountStratum(items, predictions, threshold);
    var denominator := truePositives + falsePositives;
    if denominator > 0 { RoundsDown(truePositives, denominator); }
    RoundsDown(truePositives, |items|);
    precision := if denominator == 0 then 0 else BasisPoints(truePositives, denominator);
    recall := BasisPoints(truePositives, |items|);
  }

  lemma {:induction false} HitIdsGrow(items: seq<Item>, predictions: Predictions, threshold: int, i: nat)
    requires WellFormed(items, predictions) && i < |items|
    ensures var before := HitIds(items[..i], predictions, threshold);
            var hit := Hit(MilliBox(items[i].box).value, Kept(predictions[items[i].id], threshold));
            && HitIds(items[..i + 1], predictions, threshold) == (if hit then before + {items[i].id} else before)
            && items[i].id !in before
  {}

  lemma {:induction false} KeptCountGrows(items: seq<Item>, predictions: Predictions, threshold: int, i: nat)
    requires i < |items| && forall k :: 0 <= k < |items| ==> items[k].id in predictions
    ensures KeptCount(items[..i + 1], predictions, threshold) ==
            KeptCount(items[..i], predictions, threshold) + |Kept(predictions[items[i].id], threshold)|
  {
    if i > 0 {
      KeptCountGrows(items[1..], predictions, threshold, i - 1);
      assert items[..i + 1][1..] == items[1..][..i] && items[..i][1..] == items[1..][..i - 1];
    } else {
      assert items[..1][1..] == [];
    }
  }

  // ----- thresholds -----

  lemma {:induction false} HitsShrink(truth: Box, ds: seq<Detection>, low: int, high: int)
    requires Descending(ds) && low <= high
    ensures Hit(truth, Kept(ds, high)) ==> Hit(truth, Kept(ds, low))
  {
    DescendingKeepsPrefix(ds, low, high);
    if k :| 0 <= k < |Kept(ds, high)| && Matches(truth, Kept(ds, high)[k]) {
      assert Matches(truth, Kept(ds, low)[k]);
    }
  }

  lemma {:induction false} HitIdsShrink(items: seq<Item>, predictions: Predictions, low: int, high: int)
    requires WellFormed(items, predictions) && low <= high
    requires forall id :: id in predictions ==> Descending(predictions[id])
    ensures HitIds(items, predictions, high) <= HitIds(items, predictions, low)
  {
    forall i | 0 <= i < |items| && Hit(MilliBox(items[i].box).value, Kept(predictions[items[i].id], high))
      ensures Hit(MilliBox(items[i].box).value, Kept(predictions[items[i].id], low))
    {
      HitsShrink(MilliBox(items[i].box).value, predictions[items[i].id], low, high);
    }
  }

  lemma {:induction false} ShareMonotone(a: nat, b: nat, whole: nat)
    requires a <= b && whole > 0
    ensures BasisPoints(a, whole) <= BasisPoints(b, whole)
  {
    QuotientReaches(b, whole, a * 10_000 / whole);
    QuotientReaches(a, whole, a * 10_000 / whole);
  }

  // On validated worker output a higher threshold never hits more items, cap included.
  lemma {:induction false} RaisingThresholdKeepsFewerHits(
    items: seq<Item>, predictions: Predictions, low: int, high: int)
    requires WellFormed(items, predictions) && low <= high
    requires forall id :: id in predictions ==> Descending(predictions[id])
    ensures HitIds(items, predictions, high) <= HitIds(items, predictions, low)
    ensures |HitIds(items, predictions, high)| <= |HitIds(items, predictions, low)|
    ensures items != [] ==>
      BasisPoints(|HitIds(items, predictions, high)|, |items|)
      <= BasisPoints(|HitIds(items, predictions, low)|, |items|)
  {
    HitIdsShrink(items, predictions, low, high);
    SubsetCardinality(HitIds(items, predictions, high), HitIds(items, predictions, low));
    if items != [] { ShareMonotone(|HitIds(items, predictions, high)|, |HitIds(items, predictions, low)|, |items|); }
  }

  lemma {:induction false} SubsetCardinality<T>(a: set<T>, b: set<T>)
    requires a <= b
    ensures |a| <= |b|
  {
    if a == {} {
    } else {
      var x :| x in a;
      SubsetCardinality(a - {x}, b - {x});
    }
  }

  function Misses(n: nat): (r: seq<Detection>)
    ensures |r| == n
    ensures forall i :: 0 <= i < n ==> r[i] == Detection(0, Box(5000, 5000, 6000, 6000))
  {
    if n == 0 then [] else [Detection(0, Box(5000, 5000, 6000, 6000))] + Misses(n - 1)
  }

  // The order check is needed: on unordered output a higher threshold can free a place
  // below the cap and raise the number of hits.
  lemma {:induction false} UnorderedOutputBreaksMonotonicity(
    n: nat, hit: Detection, items: seq<Item>, predictions: Predictions)
    requires n == MAX_DETECTIONS && hit == Detection(9, Box(0, 0, 1000, 1000))
    requires items == [Item("a", "easy", Box(0, 0, 1, 1))]
    requires predictions == map["a" := Misses(n) + [hit]]
    ensures WellFormed(items, predictions)
    ensures HitIds(items, predictions, 0) == {} && HitIds(items, predictions, 1) == {"a"}
  {
    UnorderedKept(n, hit);
    var truth := MilliBox(items[0].box).value;
    assert Matches(truth, [hit][0]);
    assert !Hit(truth, Misses(n));
    assert items[0].id in HitIds(items, predictions, 1);
  }

  lemma {:induction false} UnorderedKept(n: nat, hit: Detection)
    requires n == MAX_DETECTIONS && hit.confidence == 9
    ensures Kept(Misses(n) + [hit], 0) == Misses(n)
    ensures Kept(Misses(n) + [hit], 1) == [hit]
  {
    AtLeastConcat(Misses(n), [hit], 0); AtLeastConcat(Misses(n), [hit], 1);
    AllReach(Misses(n), 0); NoneReaches(Misses(n), 1);
  }

  lemma {:induction false} AllReach(ds: seq<Detection>, threshold: int)
    requires forall i :: 0 <= i < |ds| ==> ds[i].confidence >= threshold
    ensures AtLeast(ds, threshold) == ds
  {
    if ds == [] {
    } else {
      AllReach(ds[1..], threshold);
    }
  }

  lemma {:induction false} AtLeastConcat(a: seq<Detection>, b: seq<Detection>, threshold: int)
    ensures AtLeast(a + b, threshold) == AtLeast(a, threshold) + AtLeast(b, threshold)
  {
    if a == [] {
      assert a + b == b;
    } else {
      AtLeastConcat(a[1..], b, threshold);
      var rest := AtLeast(a[1..], threshold);
      assert (a + b)[1..] == a[1..] + b && (a + b)[0] == a[0];
      assert [a[0]] + (rest + AtLeast(b, threshold)) == ([a[0]] + rest) + AtLeast(b, threshold);
    }
  }
}
