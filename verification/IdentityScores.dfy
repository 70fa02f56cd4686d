// Identity true positives and F1 of a tracked sequence (v02_tracking_metrics.py), over rationals.
module IdentityScores {
  import opened Arithmetic
  import opened Wrappers
  import opened Geometry
  import opened PixelCounts
  import opened DetectionMatching
  import opened Assignment
  import opened Counters
  import Sorting
  import TextOrder

  const MAX_FRAMES := 10_000
  const MAX_FRAME_OBJECTS := 64
  const MAX_OBSERVATIONS := 100_000
  const MAX_COORDINATE := 1_000_000_000

  datatype Tracked = Tracked(id: string, box: Box)
  datatype Frame = Frame(truth: seq<Tracked>, predictions: seq<Tracked>)

  // ----- admissible sequences -----

  function IdsOf(group: seq<Tracked>): set<string> {
    set k | 0 <= k < |group| :: group[k].id
  }

  predicate ValidGroup(group: seq<Tracked>) {
    && |group| <= MAX_FRAME_OBJECTS
    && (forall k :: 0 <= k < |group| ==> 1 <= |group[k].id| <= 128)
    && (forall k, l :: 0 <= k < l < |group| ==> group[k].id != group[l].id)
    && forall k :: 0 <= k < |group| ==> BoxFits(group[k].box, MAX_COORDINATE, MAX_COORDINATE)
  }

  function TruthIds(frames: seq<Frame>): set<string> {
    if frames == [] then {} else TruthIds(frames[..|frames| - 1]) + IdsOf(frames[|frames| - 1].truth)
  }

  function PredictedIds(frames: seq<Frame>): set<string> {
    if frames == [] then {} else PredictedIds(frames[..|frames| - 1]) + IdsOf(frames[|frames| - 1].predictions)
  }

  function Identities(frames: seq<Frame>): set<string> {
    TruthIds(frames) + PredictedIds(frames)
  }

  function Truths(frames: seq<Frame>): nat {
    if frames == [] then 0 else Truths(frames[..|frames| - 1]) + |frames[|frames| - 1].truth|
  }

  function Predicted(frames: seq<Frame>): nat {
    if frames == [] then 0 else Predicted(frames[..|frames| - 1]) + |frames[|frames| - 1].predictions|
  }

  predicate ValidFrame(f: Frame) {
    ValidGroup(f.truth) && ValidGroup(f.predictions)
  }

  // Every frame is valid.
  predicate AllValid(frames: seq<Frame>) {
    frames == [] || (AllValid(frames[..|frames| - 1]) && ValidFrame(frames[|frames| - 1]))
  }

  lemma {:induction false} FramesNext(frames: seq<Frame>, k: nat)
    requires k < |frames|
    ensures TruthIds(frames[..k + 1]) == TruthIds(frames[..k]) + IdsOf(frames[k].truth)
    ensures PredictedIds(frames[..k + 1]) == PredictedIds(frames[..k]) + IdsOf(frames[k].predictions)
    ensures Identities(frames[..k + 1]) ==
            Identities(frames[..k]) + IdsOf(frames[k].truth) + IdsOf(frames[k].predictions)
    ensures Truths(frames[..k + 1]) == Truths(frames[..k]) + |frames[k].truth|
    ensures Predicted(frames[..k + 1]) == Predicted(frames[..k]) + |frames[k].predictions|
    ensures AllValid(frames[..k + 1]) <==> AllValid(frames[..k]) && ValidFrame(frames[k])
  {
    assert frames[..k + 1][..k] == frames[..k];
  }

  lemma {:induction false} InvalidFrame(frames: seq<Frame>, k: nat)
    requires k < |frames| && !ValidFrame(frames[k])
    ensures !AllValid(frames)
  {
    if k == |frames| - 1 {
    } else {
      InvalidFrame(frames[..|frames| - 1], k);
    }
  }

  // At most 64 boxes with distinct names of 1 to 128 characters, each of positive size between
  // zero and the coordinate limit.
  ghost predicate ProperGroup(group: seq<Tracked>) {
    && |group| <= 64
    && (forall t :: t in group ==> 1 <= |t.id| <= 128)
    && (forall t :: t in group ==>
          0 <= t.box.left < t.box.right <= 1_000_000_000 && 0 <= t.box.top < t.box.bottom <= 1_000_000_000)
    && forall k, l :: 0 <= k < |group| && 0 <= l < |group| && group[k].id == group[l].id ==> k == l
  }

  ghost predicate AllProper(frames: seq<Frame>) {
    forall f :: f in frames ==> ProperGroup(f.truth) && ProperGroup(f.predictions)
  }

  lemma {:induction false} AllValidMeaning(frames: seq<Frame>)
    ensures AllValid(frames) <==> AllProper(frames)
  {
    if frames != [] {
      var shorter, f := frames[..|frames| - 1], frames[|frames| - 1];
      AllValidMeaning(shorter);
      ValidIsProper(f.truth);
      ValidIsProper(f.predictions);
      assert frames == shorter + [f];
    }
  }

  lemma {:induction false} ValidIsProper(group: seq<Tracked>)
    ensures ValidGroup(group) <==> ProperGroup(group)
  {}

  ghost predicate ValidFrames(frames: seq<Frame>) {
    && 1 <= |frames| <= MAX_FRAMES
    && AllProper(frames)
    && |Identities(frames)| <= MAX_IDENTITIES
    && Truths(frames) + Predicted(frames) <= MAX_OBSERVATIONS
  }

  method Validate(frames: seq<Frame>) returns (ok: bool)
    ensures ok <==> ValidFrames(frames)
  {
    AllValidMeaning(frames);
    if !(1 <= |frames| <= MAX_FRAMES) {
      return false;
    }
    var identities: set<string>, observations := {}, 0;
    for k := 0 to |frames|
      invariant AllValid(frames[..k])
      invariant identities == Identities(frames[..k])
      invariant observations == Truths(frames[..k]) + Predicted(frames[..k])
    {
      var f := frames[k];
      if !ValidFrame(f) {
        InvalidFrame(frames, k);
        return false;
      }
      FramesNext(frames, k);
      identities := identities + IdsOf(f.truth) + IdsOf(f.predictions);
      observations := observations + |f.truth| + |f.predictions|;
    }
    assert frames[..|frames|] == frames;
    return |identities| <= MAX_IDENTITIES && observations <= MAX_OBSERVATIONS;
  }

  // ----- boxes shared under a pairing of identities -----

  type Pairing = set<(string, string)>

  predicate Overlapping(a: Box, b: Box) {
    Union(a, b) > 0 && 2 * Intersection(a, b) >= Union(a, b)
  }

  // Boxes overlap when they share at least half of all pixels the two cover.
  lemma {:induction false} OverlappingMeaning(a: Box, b: Box)
    requires BoxFits(a, MAX_COORDINATE, MAX_COORDINATE) && BoxFits(b, MAX_COORDINATE, MAX_COORDINATE)
    ensures Overlapping(a, b) <==> 2 * CountRect(a, Within(b)) >= CountRect(Hull(a, b), Either(a, b))
  {
    AreasArePixels(a, b);
    IntersectionWithin(a, b);
  }

  function Hit(g: Tracked, p: Tracked, s: Pairing): nat {
    if (g.id, p.id) in s && Overlapping(g.box, p.box) then 1 else 0
  }

  function RowHits(g: Tracked, predictions: seq<Tracked>, s: Pairing): nat {
    if predictions == [] then 0
    else RowHits(g, predictions[..|predictions| - 1], s) + Hit(g, predictions[|predictions| - 1], s)
  }

  function FrameHits(truth: seq<Tracked>, predictions: seq<Tracked>, s: Pairing): nat {
    if truth == [] then 0
    else FrameHits(truth[..|truth| - 1], predictions, s) + RowHits(truth[|truth| - 1], predictions, s)
  }

  // Over all frames, the boxes of truth and prediction that overlap by half and whose identities are paired.
  function Shared(frames: seq<Frame>, s: Pairing): nat {
    if frames == [] then 0
    else
      var last := frames[|frames| - 1];
      Shared(frames[..|frames| - 1], s) + FrameHits(last.truth, last.predictions, s)
  }

  // No identity is paired twice.
  ghost predicate OneToOne(s: Pairing) {
    forall x, y :: x in s && y in s && (x.0 == y.0 || x.1 == y.1) ==> x == y
  }

  // No pairing of identities shares more boxes than n, and one shares n.
  ghost predicate MostShared(frames: seq<Frame>, n: int) {
    && (exists s :: OneToOne(s) && Shared(frames, s) == n)
    && forall s :: OneToOne(s) ==> Shared(frames, s) <= n
  }

  // ----- one more pair adds its own boxes -----

  lemma {:induction false} RowHitsAdd(g: Tracked, predictions: seq<Tracked>, s: Pairing, x: (string, string))
    requires x !in s
    ensures RowHits(g, predictions, s + {x}) == RowHits(g, predictions, s) + RowHits(g, predictions, {x})
  {
    if predictions == [] {
    } else {
      RowHitsAdd(g, predictions[..|predictions| - 1], s, x);
    }
  }

  lemma {:induction false} FrameHitsAdd(truth: seq<Tracked>, predictions: seq<Tracked>, s: Pairing,
                                        x: (string, string))
    requires x !in s
    ensures FrameHits(truth, predictions, s + {x})
         == FrameHits(truth, predictions, s) + FrameHits(truth, predictions, {x})
  {
    if truth == [] {
    } else {
      FrameHitsAdd(truth[..|truth| - 1], predictions, s, x);
      RowHitsAdd(truth[|truth| - 1], predictions, s, x);
    }
  }

  lemma {:induction false} SharedAdd(frames: seq<Frame>, s: Pairing, x: (string, string))
    requires x !in s
    ensures Shared(frames, s + {x}) == Shared(frames, s) + Shared(frames, {x})
  {
    if frames == [] {
    } else {
      var last := frames[|frames| - 1];
      SharedAdd(frames[..|frames| - 1], s, x);
      FrameHitsAdd(last.truth, last.predictions, s, x);
    }
  }

  // A pairing shares no more boxes than the truth has.
  lemma {:induction false} RowHitsOnce(g: Tracked, predictions: seq<Tracked>, s: Pairing)
    requires OneToOne(s) && forall k, l :: 0 <= k < l < |predictions| ==> predictions[k].id != predictions[l].id
    ensures RowHits(g, predictions, s) <= 1
    ensures RowHits(g, predictions, s) == 1 ==>
            exists k :: 0 <= k < |predictions| && (g.id, predictions[k].id) in s
  {
    if predictions == [] {
    } else {
      var last := |predictions| - 1;
      RowHitsOnce(g, predictions[..last], s);
    }
  }

  lemma {:induction false} FrameHitsWithin(truth: seq<Tracked>, predictions: seq<Tracked>, s: Pairing)
    requires OneToOne(s) && forall k, l :: 0 <= k < l < |predictions| ==> predictions[k].id != predictions[l].id
    ensures FrameHits(truth, predictions, s) <= |truth|
  {
    if truth == [] {
    } else {
      FrameHitsWithin(truth[..|truth| - 1], predictions, s);
      RowHitsOnce(truth[|truth| - 1], predictions, s);
    }
  }

  lemma {:induction false} SharedWithin(frames: seq<Frame>, s: Pairing)
    requires OneToOne(s) && AllValid(frames)
    ensures Shared(frames, s) <= Truths(frames)
  {
    if frames == [] {
    } else {
      var last := |frames| - 1;
      assert ValidFrame(frames[last]);
      SharedWithin(frames[..last], s);
      FrameHitsWithin(frames[last].truth, frames[last].predictions, s);
    }
  }

  // ----- truth and predictions exchanged -----

  function Exchanged(frames: seq<Frame>): (r: seq<Frame>)
    ensures |r| == |frames|
    ensures forall k :: 0 <= k < |frames| ==> r[k] == Frame(frames[k].predictions, frames[k].truth)
  {
    seq(|frames|, k requires 0 <= k < |frames| => Frame(frames[k].predictions, frames[k].truth))
  }

  function Inverse(s: Pairing): (r: Pairing)
    ensures forall x :: x in r <==> (x.1, x.0) in s
  {
    set x | x in s :: (x.1, x.0)
  }

  lemma {:induction false} OverlappingSymmetric(a: Box, b: Box)
    ensures Overlapping(a, b) == Overlapping(b, a)
  {
    assert Intersection(a, b) == Intersection(b, a);
  }

  lemma {:induction false} FrameHitsColumn(truth: seq<Tracked>, predictions: seq<Tracked>, g: Tracked, s: Pairing)
    ensures FrameHits(predictions, truth + [g], Inverse(s))
         == FrameHits(predictions, truth, Inverse(s)) + RowHits(g, predictions, s)
  {
    if predictions == [] {
    } else {
      var last := |predictions| - 1;
      FrameHitsColumn(truth, predictions[..last], g, s);
      assert (truth + [g])[..|truth|] == truth;
      OverlappingSymmetric(g.box, predictions[last].box);
    }
  }

  lemma {:induction false} FrameHitsExchanged(truth: seq<Tracked>, predictions: seq<Tracked>, s: Pairing)
    ensures FrameHits(predictions, truth, Inverse(s)) == FrameHits(truth, predictions, s)
  {
    if truth == [] {
      NoTruthNoHits(predictions, Inverse(s));
    } else {
      var last := |truth| - 1;
      FrameHitsExchanged(truth[..last], predictions, s);
      FrameHitsColumn(truth[..last], predictions, truth[last], s);
      assert truth[..last] + [truth[last]] == truth;
    }
  }

  lemma {:induction false} NoTruthNoHits(truth: seq<Tracked>, s: Pairing)
    ensures FrameHits(truth, [], s) == 0
  {
    if truth == [] {
    } else {
      NoTruthNoHits(truth[..|truth| - 1], s);
    }
  }

  lemma {:induction false} SharedExchanged(frames: seq<Frame>, s: Pairing)
    ensures Shared(Exchanged(frames), Inverse(s)) == Shared(frames, s)
    ensures Truths(Exchanged(frames)) == Predicted(frames)
    ensures AllValid(Exchanged(frames)) == AllValid(frames)
  {
    if frames == [] {
    } else {
      var last := |frames| - 1;
      SharedExchanged(frames[..last], s);
      FrameHitsExchanged(frames[last].truth, frames[last].predictions, s);
      assert Exchanged(frames)[..last] == Exchanged(frames[..last]);
    }
  }

  lemma {:induction false} InverseOneToOne(s: Pairing)
    requires OneToOne(s)
    ensures OneToOne(Inverse(s)) && Inverse(Inverse(s)) == s
  {
    forall x, y | x in Inverse(s) && y in Inverse(s) && (x.0 == y.0 || x.1 == y.1) ensures x == y {
      assert (x.1, x.0) in s && (y.1, y.0) in s;
    }
  }

  // Exchanging truth and predictions keeps the best count.
  lemma {:induction false} MostSharedExchanged(frames: seq<Frame>, n: int)
    requires MostShared(frames, n)
    ensures MostShared(Exchanged(frames), n)
  {
    var s :| OneToOne(s) && Shared(frames, s) == n;
    InverseOneToOne(s);
    SharedExchanged(frames, s);
    forall t | OneToOne(t) ensures Shared(Exchanged(frames), t) <= n {
      InverseOneToOne(t);
      SharedExchanged(frames, Inverse(t));
    }
  }

  // The best count is neither more than the boxes of the truth nor more than those predicted.
  lemma {:induction false} MostSharedWithin(frames: seq<Frame>, n: int)
    requires MostShared(frames, n) && AllValid(frames)
    ensures 0 <= n <= Truths(frames) && n <= Predicted(frames)
  {
    var s :| OneToOne(s) && Shared(frames, s) == n;
    SharedWithin(frames, s);
    InverseOneToOne(s);
    SharedExchanged(frames, s);
    SharedWithin(Exchanged(frames), Inverse(s));
  }

  // ----- counting identities and overlaps -----

  ghost predicate Counts(d: Counter<string>, ids: set<string>, total: nat) {
    Sorting.Distinct(Keys(d)) && Total(d) == total && forall id :: id in Keys(d) <==> id in ids
  }

  lemma {:induction false} CountsBump(d: Counter<string>, ids: set<string>, total: nat, id: string)
    requires Counts(d, ids, total)
    ensures Counts(Bump(d, id), ids + {id}, total + 1)
  {
    BumpAdds(d, id);
    BumpKeys(d, id);
  }

  lemma {:induction false} IdsNext(group: seq<Tracked>, k: nat)
    requires k < |group|
    ensures IdsOf(group[..k + 1]) == IdsOf(group[..k]) + {group[k].id}
  {
    assert group[..k + 1][k] == group[k];
    forall l | 0 <= l < k ensures group[l].id in IdsOf(group[..k + 1]) { assert group[..k + 1][l] == group[l]; }
    forall id | id in IdsOf(group[..k + 1]) ensures id in IdsOf(group[..k]) || id == group[k].id {
      var l :| 0 <= l < k + 1 && group[..k + 1][l].id == id;
      if l < k {
        assert group[..k][l].id == id;
      }
    }
  }

  method CountIds(group: seq<Tracked>, d0: Counter<string>, ghost ids: set<string>) returns (d: Counter<string>)
    requires Counts(d0, ids, Total(d0))
    ensures Counts(d, ids + IdsOf(group), Total(d0) + |group|)
  {
    d := d0;
    assert ids + IdsOf(group[..0]) == ids;
    for k := 0 to |group|
      invariant Counts(d, ids + IdsOf(group[..k]), Total(d0) + k)
    {
      CountsBump(d, ids + IdsOf(group[..k]), Total(d0) + k, group[k].id);
      IdsNext(group, k);
      assert ids + IdsOf(group[..k]) + {group[k].id} == ids + IdsOf(group[..k + 1]);
      d := Bump(d, group[k].id);
    }
    assert group[..|group|] == group;
  }

  lemma {:induction false} RowHitsNext(g: Tracked, predictions: seq<Tracked>, column: nat, x: (string, string))
    requires column < |predictions|
    ensures RowHits(g, predictions[..column + 1], {x}) == RowHits(g, predictions[..column], {x})
            + if x == (g.id, predictions[column].id) && Overlapping(g.box, predictions[column].box) then 1 else 0
  {
    assert predictions[..column + 1][..column] == predictions[..column];
  }

  // The overlaps of one more frame are counted for every pair of identities.
  method CountOverlaps(truth: seq<Tracked>, predictions: seq<Tracked>, d0: Counter<(string, string)>)
    returns (d: Counter<(string, string)>)
    ensures forall x :: Get(d, x) == Get(d0, x) + FrameHits(truth, predictions, {x})
  {
    d := d0;
    for row := 0 to |truth|
      invariant forall x :: Get(d, x) == Get(d0, x) + FrameHits(truth[..row], predictions, {x})
    {
      ghost var d1 := d;
      for column := 0 to |predictions|
        invariant forall x :: Get(d, x) == Get(d1, x) + RowHits(truth[row], predictions[..column], {x})
      {
        var key := (truth[row].id, predictions[column].id);
        forall x ensures RowHits(truth[row], predictions[..column + 1], {x}) ==
          RowHits(truth[row], predictions[..column], {x})
          + if x == key && Overlapping(truth[row].box, predictions[column].box) then 1 else 0
        {
          RowHitsNext(truth[row], predictions, column, x);
        }
        if Overlapping(truth[row].box, predictions[column].box) {
          BumpAdds(d, key);
          d := Bump(d, key);
        }
      }
      assert predictions[..|predictions|] == predictions;
      assert truth[..row + 1][..row] == truth[..row];
    }
    assert truth[..|truth|] == truth;
  }

  method Tally(frames: seq<Frame>)
    returns (truthCounts: Counter<string>, predictedCounts: Counter<string>, potential: Counter<(string, string)>)
    ensures Counts(truthCounts, TruthIds(frames), Truths(frames))
    ensures Counts(predictedCounts, PredictedIds(frames), Predicted(frames))
    ensures forall x :: Get(potential, x) == Shared(frames, {x})
  {
    truthCounts, predictedCounts, potential := [], [], [];
    for k := 0 to |frames|
      invariant Counts(truthCounts, TruthIds(frames[..k]), Truths(frames[..k]))
      invariant Counts(predictedCounts, PredictedIds(frames[..k]), Predicted(frames[..k]))
      invariant forall x :: Get(potential, x) == Shared(frames[..k], {x})
    {
      assert frames[..k + 1][..k] == frames[..k];
      var f := frames[k];
      truthCounts := CountIds(f.truth, truthCounts, TruthIds(frames[..k]));
      predictedCounts := CountIds(f.predictions, predictedCounts, PredictedIds(frames[..k]));
      potential := CountOverlaps(f.truth, f.predictions, potential);
    }
    assert frames[..|frames|] == frames;
  }

  // ----- pairings of identities as matchings of the matrix -----

  function Overlaps(truthIds: seq<string>, predictedIds: seq<string>, d: Counter<(string, string)>): (w: Matrix)
    ensures Rectangular(w, |truthIds|, |predictedIds|) && Admissible(w)
    ensures forall i, j :: 0 <= i < |truthIds| && 0 <= j < |predictedIds| ==>
      w[i][j] == Get(d, (truthIds[i], predictedIds[j])) as real
  {
    seq(|truthIds|, i requires 0 <= i < |truthIds| =>
      seq(|predictedIds|, j requires 0 <= j < |predictedIds| => Get(d, (truthIds[i], predictedIds[j])) as real))
  }

  ghost predicate CountsShared(w: Matrix, frames: seq<Frame>, truthIds: seq<string>, predictedIds: seq<string>) {
    && Rectangular(w, |truthIds|, |predictedIds|)
    && forall i, j :: 0 <= i < |truthIds| && 0 <= j < |predictedIds| ==>
      w[i][j] == Shared(frames, {(truthIds[i], predictedIds[j])}) as real
  }

  function Named(truthIds: seq<string>, predictedIds: seq<string>, pairs: seq<Pair>): Pairing
    requires forall k :: 0 <= k < |pairs| ==> pairs[k].0 < |truthIds| && pairs[k].1 < |predictedIds|
  {
    set k | 0 <= k < |pairs| :: (truthIds[pairs[k].0], predictedIds[pairs[k].1])
  }

  lemma {:induction false} NothingShared(frames: seq<Frame>)
    ensures Shared(frames, {}) == 0
  {
    var x := ("", "");
    SharedAdd(frames, {}, x);
    assert {} + {x} == {x};
  }

  // The weight of a matching is what its identities share.
  lemma {:induction false} WeightIsShared(w: Matrix, frames: seq<Frame>, truthIds: seq<string>,
                                          predictedIds: seq<string>, pairs: seq<Pair>)
    requires CountsShared(w, frames, truthIds, predictedIds) && IsMatching(|truthIds|, |predictedIds|, pairs)
    requires Sorting.Distinct(truthIds) && Sorting.Distinct(predictedIds)
    ensures OneToOne(Named(truthIds, predictedIds, pairs))
    ensures Weight(w, |truthIds|, |predictedIds|, pairs)
         == Shared(frames, Named(truthIds, predictedIds, pairs)) as real
  {
    if pairs == [] {
      assert Named(truthIds, predictedIds, pairs) == {};
      NothingShared(frames);
    } else {
      var rest, x := Named(truthIds, predictedIds, pairs[1..]), (truthIds[pairs[0].0], predictedIds[pairs[0].1]);
      WeightIsShared(w, frames, truthIds, predictedIds, pairs[1..]);
      NamedNext(truthIds, predictedIds, pairs);
      SharedAdd(frames, rest, x);
    }
  }

  lemma {:induction false} NamedNext(truthIds: seq<string>, predictedIds: seq<string>, pairs: seq<Pair>)
    requires IsMatching(|truthIds|, |predictedIds|, pairs) && pairs != []
    requires Sorting.Distinct(truthIds) && Sorting.Distinct(predictedIds)
    ensures var (rest, x) :=
              (Named(truthIds, predictedIds, pairs[1..]), (truthIds[pairs[0].0], predictedIds[pairs[0].1]));
            Named(truthIds, predictedIds, pairs) == rest + {x} && x !in rest
  {
    var n := Named(truthIds, predictedIds, pairs);
    forall k | 0 <= k < |pairs[1..]|
      ensures (truthIds[pairs[1..][k].0], predictedIds[pairs[1..][k].1]) in n
    {
      assert pairs[1..][k] == pairs[k + 1];
    }
  }

  // ----- every pairing is the pairing of a matching, up to identities that never occur -----

  ghost predicate Without(group: seq<Tracked>, id: string) {
    forall k :: 0 <= k < |group| ==> group[k].id != id
  }

  lemma {:induction false} RowHitsUnseen(g: Tracked, predictions: seq<Tracked>, x: (string, string))
    requires g.id != x.0 || Without(predictions, x.1)
    ensures RowHits(g, predictions, {x}) == 0
  {
    if predictions == [] {
    } else {
      RowHitsUnseen(g, predictions[..|predictions| - 1], x);
    }
  }

  lemma {:induction false} FrameHitsUnseen(truth: seq<Tracked>, predictions: seq<Tracked>, x: (string, string))
    requires Without(truth, x.0) || Without(predictions, x.1)
    ensures FrameHits(truth, predictions, {x}) == 0
  {
    if truth == [] {
    } else {
      FrameHitsUnseen(truth[..|truth| - 1], predictions, x);
      RowHitsUnseen(truth[|truth| - 1], predictions, x);
    }
  }

  lemma {:induction false} OccursOrWithout(group: seq<Tracked>, id: string)
    ensures id in IdsOf(group) || Without(group, id)
  {
    assert forall k :: 0 <= k < |group| ==> group[k].id in IdsOf(group);
  }

  lemma {:induction false} SharedUnseen(frames: seq<Frame>, x: (string, string))
    requires x.0 !in TruthIds(frames) || x.1 !in PredictedIds(frames)
    ensures Shared(frames, {x}) == 0
  {
    if frames == [] {
    } else {
      var last := frames[|frames| - 1];
      SharedUnseen(frames[..|frames| - 1], x);
      if x.0 !in TruthIds(frames) {
        OccursOrWithout(last.truth, x.0);
      } else {
        OccursOrWithout(last.predictions, x.1);
      }
      FrameHitsUnseen(last.truth, last.predictions, x);
    }
  }

  function IndexOf(ids: seq<string>, id: string): (i: nat)
    requires id in ids
    ensures i < |ids| && ids[i] == id
  {
    if ids[0] == id then 0 else 1 + IndexOf(ids[1..], id)
  }

  // A matching for all pairs but one, and the one.
  lemma {:induction false} MatchingExtends(truthIds: seq<string>, predictedIds: seq<string>, found: seq<Pair>,
                                            s: Pairing, x: (string, string))
    returns (pairs: seq<Pair>)
    requires Sorting.Distinct(truthIds) && Sorting.Distinct(predictedIds)
    requires x in s && OneToOne(s) && x.0 in truthIds && x.1 in predictedIds
    requires IsMatching(|truthIds|, |predictedIds|, found) && Named(truthIds, predictedIds, found) == s - {x}
    ensures IsMatching(|truthIds|, |predictedIds|, pairs) && Named(truthIds, predictedIds, pairs) == s
  {
    var i, j := IndexOf(truthIds, x.0), IndexOf(predictedIds, x.1);
    forall k | 0 <= k < |found| ensures found[k].0 != i && found[k].1 != j {
      assert (truthIds[found[k].0], predictedIds[found[k].1]) in s - {x};
    }
    pairs := [(i, j)] + found;
    assert pairs[1..] == found;
    NamedNext(truthIds, predictedIds, pairs);
  }

  // The pairs of listed identities.
  function Listed(truthIds: seq<string>, predictedIds: seq<string>, s: Pairing): Pairing {
    set x | x in s && x.0 in truthIds && x.1 in predictedIds
  }

  lemma {:induction false} MatchingOf(truthIds: seq<string>, predictedIds: seq<string>, s: Pairing)
    returns (pairs: seq<Pair>)
    requires Sorting.Distinct(truthIds) && Sorting.Distinct(predictedIds) && OneToOne(s)
    requires forall x :: x in s ==> x.0 in truthIds && x.1 in predictedIds
    ensures IsMatching(|truthIds|, |predictedIds|, pairs) && Named(truthIds, predictedIds, pairs) == s
    decreases |s|
  {
    if s == {} {
      pairs := [];
    } else {
      var x :| x in s;
      var rest := s - {x};
      pairs := MatchingOf(truthIds, predictedIds, rest);
      pairs := MatchingExtends(truthIds, predictedIds, pairs, s, x);
    }
  }

  // Only the listed identities share boxes.
  lemma {:induction false} SharedListed(frames: seq<Frame>, truthIds: seq<string>, predictedIds: seq<string>,
                                        s: Pairing)
    requires forall id :: id in TruthIds(frames) ==> id in truthIds
    requires forall id :: id in PredictedIds(frames) ==> id in predictedIds
    ensures Shared(frames, s) == Shared(frames, Listed(truthIds, predictedIds, s))
    decreases |s|
  {
    if s == {} {
      assert Listed(truthIds, predictedIds, s) == {};
    } else {
      var x :| x in s;
      var rest := s - {x};
      assert rest + {x} == s;
      SharedAdd(frames, rest, x);
      SharedListed(frames, truthIds, predictedIds, rest);
      var listed := Listed(truthIds, predictedIds, rest);
      if x.0 in truthIds && x.1 in predictedIds {
        assert Listed(truthIds, predictedIds, s) == listed + {x};
        SharedAdd(frames, listed, x);
      } else {
        assert Listed(truthIds, predictedIds, s) == listed;
        SharedUnseen(frames, x);
      }
    }
  }

  // The heaviest matching of the matrix shares the most.
  lemma {:induction false} HeaviestSharesMost(w: Matrix, frames: seq<Frame>, truthIds: seq<string>,
                                              predictedIds: seq<string>, pairs: seq<Pair>)
    requires CountsShared(w, frames, truthIds, predictedIds) && IsHeaviest(w, |truthIds|, |predictedIds|, pairs)
    requires Sorting.Distinct(truthIds) && Sorting.Distinct(predictedIds)
    requires forall id :: id in TruthIds(frames) ==> id in truthIds
    requires forall id :: id in PredictedIds(frames) ==> id in predictedIds
    ensures MostShared(frames, Shared(frames, Named(truthIds, predictedIds, pairs)))
    ensures Weight(w, |truthIds|, |predictedIds|, pairs)
         == Shared(frames, Named(truthIds, predictedIds, pairs)) as real
  {
    WeightIsShared(w, frames, truthIds, predictedIds, pairs);
    forall s | OneToOne(s) ensures Shared(frames, s) <= Shared(frames, Named(truthIds, predictedIds, pairs)) {
      SharedListed(frames, truthIds, predictedIds, s);
      var other := MatchingOf(truthIds, predictedIds, Listed(truthIds, predictedIds, s));
      WeightIsShared(w, frames, truthIds, predictedIds, other);
    }
  }

  // ----- the identity scores -----

  datatype Details = Details(truePositives: int, falseNegatives: int, falsePositives: int, idf1: int)

  function Cells(w: Matrix, rows: nat, columns: nat, pairs: seq<Pair>): int
    requires Rectangular(w, rows, columns)
    requires forall k :: 0 <= k < |pairs| ==> pairs[k].0 < rows && pairs[k].1 < columns
  {
    if pairs == [] then 0
    else w[pairs[0].0][pairs[0].1].Floor + Cells(w, rows, columns, pairs[1..])
  }

  // The cells are counts, so truncating them loses nothing.
  lemma {:induction false} CellsAreWeight(w: Matrix, frames: seq<Frame>, truthIds: seq<string>,
                                          predictedIds: seq<string>, pairs: seq<Pair>)
    requires CountsShared(w, frames, truthIds, predictedIds) && IsMatching(|truthIds|, |predictedIds|, pairs)
    ensures Weight(w, |truthIds|, |predictedIds|, pairs) == Cells(w, |truthIds|, |predictedIds|, pairs) as real
  {
    if pairs == [] {
    } else {
      var n := Shared(frames, {(truthIds[pairs[0].0], predictedIds[pairs[0].1])});
      assert w[pairs[0].0][pairs[0].1] == n as real && (n as real).Floor == n;
      CellsAreWeight(w, frames, truthIds, predictedIds, pairs[1..]);
    }
  }

  lemma {:induction false} NoColumnsIsHeaviest(w: Matrix, rows: nat, columns: nat)
    requires Rectangular(w, rows, columns) && (rows == 0 || columns == 0)
    ensures IsHeaviest(w, rows, columns, [])
  {
    forall other | IsMatching(rows, columns, other) ensures other == [] { MatchingSize(rows, columns, other); }
  }

  // The listed identities are the ones that occur.
  ghost predicate Lists(ids: seq<string>, occurring: set<string>) {
    Sorting.Distinct(ids) && forall id :: id in ids <==> id in occurring
  }

  method SortedIds(d: Counter<string>, ghost occurring: set<string>) returns (ids: seq<string>)
    requires Counts(d, occurring, Total(d))
    ensures Lists(ids, occurring) && |ids| == |occurring|
  {
    ids := Sorting.Sort(Keys(d), TextOrder.TextLeq);
    Sorting.SortBag(Keys(d), TextOrder.TextLeq);
    Sorting.BagKeepsDistinct(Keys(d), ids);
    assert Sorting.Elements(ids) == occurring;
  }

  method IdentityTruePositives(frames: seq<Frame>, truthIds: seq<string>, predictedIds: seq<string>,
                               potential: Counter<(string, string)>) returns (n: int)
    requires Lists(truthIds, TruthIds(frames)) && Lists(predictedIds, PredictedIds(frames))
    requires |truthIds| <= MAX_IDENTITIES && |predictedIds| <= MAX_IDENTITIES
    requires forall x :: Get(potential, x) == Shared(frames, {x})
    ensures MostShared(frames, n)
  {
    var w := Overlaps(truthIds, predictedIds, potential);
    var r := HungarianMax(w);
    var pairs := r.value;
    if truthIds == [] || predictedIds == [] {
      NoColumnsIsHeaviest(w, |truthIds|, |predictedIds|);
    }
    HeaviestSharesMost(w, frames, truthIds, predictedIds, pairs);
    CellsAreWeight(w, frames, truthIds, predictedIds, pairs);
    n := Cells(w, |truthIds|, |predictedIds|, pairs);
  }

  lemma {:induction false} NoBoxesShareNothing(frames: seq<Frame>)
    requires Truths(frames) == 0 && AllValid(frames)
    ensures MostShared(frames, 0)
  {
    NothingShared(frames);
    assert OneToOne({});
    forall s | OneToOne(s) ensures Shared(frames, s) <= 0 { SharedWithin(frames, s); }
  }

  function F1(truePositives: int, falseNegatives: int, falsePositives: int): int {
    var denominator := 2 * truePositives + falseNegatives + falsePositives;
    if denominator == 0 then 0 else 2 * truePositives * 10_000 / denominator
  }

  // Twice the true positives as a share of all boxes of both sides, in basis points, rounded down.
  lemma {:induction false} F1Meaning(truePositives: nat, truths: nat, predicted: nat)
    requires truePositives <= truths && truePositives <= predicted
    ensures IsBasisPoints(F1(truePositives, truths - truePositives, predicted - truePositives), 2 * truePositives,
                          truths + predicted)
  {
    assert 2 * truePositives + (truths - truePositives) + (predicted - truePositives) == truths + predicted;
    if truths + predicted > 0 { RoundsDown(2 * truePositives, truths + predicted); }
  }

  // The most shared boxes, what remains of each side, and twice the shared boxes as a share of all.
  ghost predicate AreDetails(d: Details, frames: seq<Frame>) {
    && MostShared(frames, d.truePositives)
    && d.falseNegatives == Truths(frames) - d.truePositives >= 0
    && d.falsePositives == Predicted(frames) - d.truePositives >= 0
    && IsBasisPoints(d.idf1, 2 * d.truePositives, Truths(frames) + Predicted(frames))
  }

  lemma {:induction false} BestWithin(frames: seq<Frame>, n: int)
    requires ValidFrames(frames) && MostShared(frames, n)
    ensures 0 <= n <= Truths(frames) && n <= Predicted(frames)
  {
    AllValidMeaning(frames);
    MostSharedWithin(frames, n);
  }

  lemma {:induction false} DetailsMeaning(d: Details, frames: seq<Frame>)
    requires ValidFrames(frames) && MostShared(frames, d.truePositives)
    requires d.falseNegatives == Truths(frames) - d.truePositives
    requires d.falsePositives == Predicted(frames) - d.truePositives
    requires d.idf1 == F1(d.truePositives, d.falseNegatives, d.falsePositives)
    ensures AreDetails(d, frames)
  {
    BestWithin(frames, d.truePositives);
    F1Meaning(d.truePositives, Truths(frames), Predicted(frames));
  }

  method IdentityDetails(frames: seq<Frame>) returns (r: Result<Details, string>)
    ensures !ValidFrames(frames) ==> r == Err("invalid_frames")
    ensures ValidFrames(frames) ==> r.Ok? && AreDetails(r.value, frames)
  {
    var ok := Validate(frames);
    if !ok {
      return Err("invalid_frames");
    }
    AllValidMeaning(frames);
    var truthCounts, predictedCounts, potential := Tally(frames);
    var totalTruth, totalPredicted := Total(truthCounts), Total(predictedCounts);
    if totalTruth == 0 && totalPredicted == 0 {
      NoBoxesShareNothing(frames);
      return Ok(Details(0, 0, 0, 0));
    }
    var truthIds := SortedIds(truthCounts, TruthIds(frames));
    var predictedIds := SortedIds(predictedCounts, PredictedIds(frames));
    SubsetCardinality(TruthIds(frames), Identities(frames));
    SubsetCardinality(PredictedIds(frames), Identities(frames));
    var truePositives := IdentityTruePositives(frames, truthIds, predictedIds, potential);
    var falseNegatives, falsePositives := totalTruth - truePositives, totalPredicted - truePositives;
    var d := Details(truePositives, falseNegatives, falsePositives, F1(truePositives, falseNegatives, falsePositives));
    DetailsMeaning(d, frames);
    r := Ok(d);
  }

  // ----- what the scores mean -----

  lemma {:induction false} MostSharedUnique(frames: seq<Frame>, m: int, n: int)
    requires MostShared(frames, m) && MostShared(frames, n)
    ensures m == n
  {
    var s :| OneToOne(s) && Shared(frames, s) == m;
    var t :| OneToOne(t) && Shared(frames, t) == n;
  }

  // Twice the best count as a share of all boxes.
  function Score(n: int, frames: seq<Frame>): int {
    F1(n, Truths(frames) - n, Predicted(frames) - n)
  }

  lemma {:induction false} ShareOfTotal(n: nat, truths: nat, predicted: nat)
    requires n <= truths && n <= predicted && truths + predicted > 0
    ensures 0 <= F1(n, truths - n, predicted - n) <= 10_000
    ensures F1(n, truths - n, predicted - n) == 10_000 <==> n == truths == predicted
  {
    QuotientReaches(2 * n, truths + predicted, 0);
    QuotientReaches(2 * n, truths + predicted, 10_000);
    QuotientReaches(2 * n, truths + predicted, 10_001);
  }

  // The score reaches 10000 exactly when one pairing of identities accounts for every box.
  lemma {:induction false} PerfectScore(frames: seq<Frame>, n: int)
    requires ValidFrames(frames) && MostShared(frames, n) && Truths(frames) + Predicted(frames) > 0
    ensures 0 <= Score(n, frames) <= 10_000
    ensures Score(n, frames) == 10_000 <==>
            exists s :: OneToOne(s) && Shared(frames, s) == Truths(frames) == Predicted(frames)
  {
    BestWithin(frames, n);
    ShareOfTotal(n, Truths(frames), Predicted(frames));
    FullPairing(frames, n);
  }

  lemma {:induction false} FullPairing(frames: seq<Frame>, n: int)
    requires MostShared(frames, n) && n <= Truths(frames)
    ensures n == Truths(frames) == Predicted(frames) <==>
            exists s :: OneToOne(s) && Shared(frames, s) == Truths(frames) == Predicted(frames)
  {
    var s :| OneToOne(s) && Shared(frames, s) == n;
  }

  // Exchanging truth and predictions exchanges the two kinds of errors and keeps the score.
  lemma {:induction false} ExchangedScore(frames: seq<Frame>, n: int, m: int)
    requires MostShared(frames, n) && MostShared(Exchanged(frames), m)
    ensures m == n && Truths(Exchanged(frames)) == Predicted(frames) && Predicted(Exchanged(frames)) == Truths(frames)
    ensures Score(m, Exchanged(frames)) == Score(n, frames)
  {
    MostSharedExchanged(frames, n);
    MostSharedUnique(Exchanged(frames), m, n);
    SharedExchanged(frames, {});
    SharedExchanged(Exchanged(frames), {});
    assert Exchanged(Exchanged(frames)) == frames;
  }

  // ----- other names for the identities -----

  function Renamed(group: seq<Tracked>, f: string -> string): (r: seq<Tracked>)
    ensures |r| == |group| && forall k :: 0 <= k < |group| ==> r[k] == Tracked(f(group[k].id), group[k].box)
  {
    seq(|group|, k requires 0 <= k < |group| => Tracked(f(group[k].id), group[k].box))
  }

  function RenamedFrames(frames: seq<Frame>, f: string -> string, g: string -> string): (r: seq<Frame>)
    ensures |r| == |frames|
    ensures forall k :: 0 <= k < |frames| ==>
      r[k] == Frame(Renamed(frames[k].truth, f), Renamed(frames[k].predictions, g))
  {
    seq(|frames|, k requires 0 <= k < |frames| =>
      Frame(Renamed(frames[k].truth, f), Renamed(frames[k].predictions, g)))
  }

  ghost predicate SameUnder(f: string -> string, g: string -> string, s: Pairing, t: Pairing) {
    forall a, b :: (a, b) in s <==> (f(a), g(b)) in t
  }

  lemma {:induction false} RowHitsRenamed(x: Tracked, predictions: seq<Tracked>, f: string -> string,
                                          g: string -> string, s: Pairing, t: Pairing)
    requires SameUnder(f, g, s, t)
    ensures RowHits(Tracked(f(x.id), x.box), Renamed(predictions, g), t) == RowHits(x, predictions, s)
  {
    if predictions == [] {
    } else {
      var last := |predictions| - 1;
      RowHitsRenamed(x, predictions[..last], f, g, s, t);
      assert Renamed(predictions, g)[..last] == Renamed(predictions[..last], g);
    }
  }

  lemma {:induction false} FrameHitsRenamed(truth: seq<Tracked>, predictions: seq<Tracked>, f: string -> string,
                                            g: string -> string, s: Pairing, t: Pairing)
    requires SameUnder(f, g, s, t)
    ensures FrameHits(Renamed(truth, f), Renamed(predictions, g), t) == FrameHits(truth, predictions, s)
  {
    if truth == [] {
    } else {
      var last := |truth| - 1;
      FrameHitsRenamed(truth[..last], predictions, f, g, s, t);
      RowHitsRenamed(truth[last], predictions, f, g, s, t);
      assert Renamed(truth, f)[..last] == Renamed(truth[..last], f);
    }
  }

  lemma {:induction false} SharedRenamed(frames: seq<Frame>, f: string -> string, g: string -> string, s: Pairing,
                                         t: Pairing)
    requires SameUnder(f, g, s, t)
    ensures Shared(RenamedFrames(frames, f, g), t) == Shared(frames, s)
  {
    if frames == [] {
    } else {
      var last := |frames| - 1;
      SharedRenamed(frames[..last], f, g, s, t);
      FrameHitsRenamed(frames[last].truth, frames[last].predictions, f, g, s, t);
      assert RenamedFrames(frames, f, g)[..last] == RenamedFrames(frames[..last], f, g);
    }
  }

  function Image(s: Pairing, f: string -> string, g: string -> string): Pairing {
    set x | x in s :: (f(x.0), g(x.1))
  }

  // Inverses of the renamings, on all names.
  ghost predicate Undoes(f: string -> string, back: string -> string) {
    forall id :: back(f(id)) == id
  }

  lemma {:induction false} ImageIsSame(s: Pairing, f: string -> string, g: string -> string, fBack: string -> string,
                                       gBack: string -> string)
    requires Undoes(f, fBack) && Undoes(g, gBack) && OneToOne(s)
    ensures SameUnder(f, g, s, Image(s, f, g)) && OneToOne(Image(s, f, g))
  {
    forall a, b | (f(a), g(b)) in Image(s, f, g) ensures (a, b) in s {
      var x :| x in s && (f(x.0), g(x.1)) == (f(a), g(b));
      assert fBack(f(x.0)) == fBack(f(a)) && gBack(g(x.1)) == gBack(g(b));
    }
  }

  function Origin(t: Pairing, f: string -> string, g: string -> string, fBack: string -> string,
                  gBack: string -> string): Pairing
  {
    set x | x in t && f(fBack(x.0)) == x.0 && g(gBack(x.1)) == x.1 :: (fBack(x.0), gBack(x.1))
  }

  lemma {:induction false} OriginIsSame(t: Pairing, f: string -> string, g: string -> string, fBack: string -> string,
                                        gBack: string -> string)
    requires Undoes(f, fBack) && Undoes(g, gBack) && OneToOne(t)
    ensures SameUnder(f, g, Origin(t, f, g, fBack, gBack), t) && OneToOne(Origin(t, f, g, fBack, gBack))
  {
    forall a, b | (f(a), g(b)) in t ensures (a, b) in Origin(t, f, g, fBack, gBack) {
      assert fBack(f(a)) == a && gBack(g(b)) == b;
    }
  }

  // Renaming identities, no two alike, does not change the best count.
  lemma {:induction false} NamesDoNotMatter(frames: seq<Frame>, f: string -> string, g: string -> string,
                                            fBack: string -> string, gBack: string -> string, n: int)
    requires Undoes(f, fBack) && Undoes(g, gBack) && MostShared(frames, n)
    ensures MostShared(RenamedFrames(frames, f, g), n)
  {
    var s :| OneToOne(s) && Shared(frames, s) == n;
    ImageIsSame(s, f, g, fBack, gBack);
    SharedRenamed(frames, f, g, s, Image(s, f, g));
    forall t | OneToOne(t) ensures Shared(RenamedFrames(frames, f, g), t) <= n {
      OriginIsSame(t, f, g, fBack, gBack);
      SharedRenamed(frames, f, g, Origin(t, f, g, fBack, gBack), t);
    }
  }

  // Nor does it change the totals, and so not the score.
  lemma {:induction false} NamesKeepTotals(frames: seq<Frame>, f: string -> string, g: string -> string)
    ensures Truths(RenamedFrames(frames, f, g)) == Truths(frames)
    ensures Predicted(RenamedFrames(frames, f, g)) == Predicted(frames)
  {
    if frames == [] {
    } else {
      var last := |frames| - 1;
      NamesKeepTotals(frames[..last], f, g);
      assert RenamedFrames(frames, f, g)[..last] == RenamedFrames(frames[..last], f, g);
    }
  }
}
