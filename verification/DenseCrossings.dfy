// Dense crossings: three vertical layers of two objects each (prepare_v02_tracking_dataset.py,
// `_left`, `_box_for` and the dense branch of `_render_frame`).
module DenseCrossings {
  import opened Arithmetic
  import opened Geometry
  import opened PixelCounts
  import opened Visibility
  import opened TrackingLanes
  import opened TrackingFrames

  const DENSE_WIDTH := 120
  const LAYER_HEIGHT := 120

  // All four chips have the dense object width.
  ghost predicate DenseChips(chips: seq<Chip>) {
    ValidChips(chips) && forall i :: 0 <= i < 4 ==> chips[i].width == DENSE_WIDTH
  }

  function DenseBox(frame: nat, variant: nat, chips: seq<Chip>, role: Role): Box
    requires |chips| == 4
  {
    DrawnBox(DenseCrossing, frame, variant, chips, role)
  }

  ghost predicate LayersDisjoint(frame: nat, variant: nat, chips: seq<Chip>)
    requires |chips| == 4
  {
    forall a: Role, b: Role :: a / 2 != b / 2 ==>
      Disjoint(DenseBox(frame, variant, chips, a), DenseBox(frame, variant, chips, b))
  }

  predicate NoneTooHigh(chips: seq<Chip>)
    requires |chips| == 4
  {
    forall i :: 0 <= i < 4 ==> chips[i].height <= LAYER_HEIGHT
  }

  lemma {:induction false} DenseRows(frame: nat, variant: nat, chips: seq<Chip>, role: Role)
    requires DenseChips(chips)
    ensures var b := DenseBox(frame, variant, chips, role);
            && b.bottom == 115 + LAYER_HEIGHT * (role / 2) && b.top == Max(0, b.bottom - ChipOf(chips, role).height)
            && b.left + DENSE_WIDTH == b.right && b.top < b.bottom
  {}

  // Two boxes of one column overlap exactly when their rows do.
  lemma {:induction false} ColumnOverlap(upper: Box, lower: Box)
    requires upper.left == lower.left < upper.right == lower.right
    requires upper.top < upper.bottom <= lower.bottom && lower.top < lower.bottom
    ensures lower.top < upper.bottom ==> !Disjoint(upper, lower)
  {
    if lower.top < upper.bottom {
      assert InBox(upper, upper.left, upper.bottom - 1) && InBox(lower, upper.left, upper.bottom - 1);
    }
  }

  lemma {:induction false} TooHighOverlaps(frame: nat, variant: nat, chips: seq<Chip>, role: Role)
    requires DenseChips(chips) && role >= 2 && ChipOf(chips, role).height > LAYER_HEIGHT
    ensures !LayersDisjoint(frame, variant, chips)
  {
    var above := role - 2;
    DenseRows(frame, variant, chips, above);
    DenseRows(frame, variant, chips, role);
    ColumnOverlap(DenseBox(frame, variant, chips, above), DenseBox(frame, variant, chips, role));
    assert above / 2 != role / 2;
  }

  // In any frame the three layers are disjoint exactly when no chip is higher than a layer.
  lemma {:induction false} LayersAreDisjointIff(frame: nat, variant: nat, chips: seq<Chip>)
    requires DenseChips(chips)
    ensures LayersDisjoint(frame, variant, chips) <==> NoneTooHigh(chips)
  {
    if NoneTooHigh(chips) {
      forall a: Role, b: Role | a / 2 != b / 2
        ensures Disjoint(DenseBox(frame, variant, chips, a), DenseBox(frame, variant, chips, b))
      {
        DenseRows(frame, variant, chips, a);
        DenseRows(frame, variant, chips, b);
      }
    } else {
      var i :| 0 <= i < 4 && chips[i].height > LAYER_HEIGHT;
      var role: Role := if i >= 2 then i else i + 4;
      assert ChipOf(chips, role) == chips[i];
      TooHighOverlaps(frame, variant, chips, role);
    }
  }

  // ----- hidden objects -----

  // How far the two objects of a pair have travelled towards each other.
  function Travel(frame: nat): int {
    (WIDTH - 16 - DENSE_WIDTH) * (if frame < 30 then frame else 59 - frame) / 29
  }

  // The columns the two objects of a pair share.
  function Shared(frame: nat): nat {
    var distance := 2 * Travel(frame) - (WIDTH - 16 - DENSE_WIDTH);
    Max(0, DENSE_WIDTH - (if distance < 0 then -distance else distance))
  }

  // The higher object keeps less than a quarter of its pixels.
  predicate Hides(frame: nat, one: nat, other: nat) {
    4 * Shared(frame) * Min(one, other) > 3 * DENSE_WIDTH * Max(one, other)
  }

  lemma {:induction false} PairColumns(frame: nat, variant: nat, chips: seq<Chip>, even: Role, odd: Role)
    requires DenseChips(chips) && frame < FRAME_COUNT && even % 2 == 0 && odd % 2 == 1
    ensures var a, b := DenseBox(frame, variant, chips, even), DenseBox(frame, variant, chips, odd);
            && Max(0, Min(a.right, b.right) - Max(a.left, b.left)) == Shared(frame)
            && Max(0, Min(b.right, a.right) - Max(b.left, a.left)) == Shared(frame)
  {
  }

  // A lower box on the same base covers the shared columns over its own height.
  lemma {:induction false} SharedArea(b: Box, q: Box)
    requires b.left < b.right && q.left < q.right && b.top <= q.top < q.bottom == b.bottom
    ensures CountRect(b, Within(q)) == Max(0, Min(b.right, q.right) - Max(b.left, q.left)) * Height(q)
  {
    SharedPixels(b, q);
  }

  // Only one of the later boxes touches `b`.
  lemma {:induction false} OneOccluder(b: Box, later: seq<Box>, k: nat)
    requires b.left < b.right && b.top < b.bottom && k < |later|
    requires forall i :: 0 <= i < |later| && i != k ==> Disjoint(b, later[i])
    ensures VisiblePixels(b, later) == Area(b) - CountRect(b, Within(later[k]))
  {
    forall x, y | InBox(b, x, y) ensures Covers(later)(x, y) == Within(later[k])(x, y) {}
    RectSame(b, Covers(later), Within(later[k]));
    FullyVisible(b, later);
  }

  lemma {:induction false} NoOccluder(b: Box, later: seq<Box>)
    requires b.left < b.right && b.top < b.bottom && forall i :: 0 <= i < |later| ==> Disjoint(b, later[i])
    ensures VisiblePixels(b, later) == Area(b)
  {
    FullyVisible(b, later);
  }

  lemma {:induction false} QuarterTest(visible: nat, area: nat)
    requires area > 0
    ensures Share(visible, area) < DENSE_MIN_VISIBILITY <==> 4 * visible < area
  {
    QuotientBounds(visible * MILLION, area);
    var q := Share(visible, area);
    if q < DENSE_MIN_VISIBILITY {
      Product(q + 1, DENSE_MIN_VISIBILITY, area);
      assert (q + 1) * area == q * area + area;
    } else {
      Product(DENSE_MIN_VISIBILITY, q, area);
    }
  }

  // The roles and boxes of a dense frame in drawing order.
  ghost function Order(chips: seq<Chip>): (r: seq<Role>)
    requires |chips| == 4
    ensures |r| == 6 && forall p :: 0 <= p < 3 ==> r[2 * p..2 * p + 2] == TallerFirst(chips, 2 * p, 2 * p + 1)
  {
    var r := DrawRoles(DenseCrossing, chips);
    assert r[0..2] == TallerFirst(chips, 0, 1) && r[2..4] == TallerFirst(chips, 2, 3)
      && r[4..6] == TallerFirst(chips, 4, 5);
    r
  }

  lemma {:induction false} OrderPair(chips: seq<Chip>, p: nat)
    requires |chips| == 4 && p < 3
    ensures var first, second := Order(chips)[2 * p], Order(chips)[2 * p + 1];
            && {first, second} == {2 * p, 2 * p + 1} && ChipOf(chips, second).height <= ChipOf(chips, first).height
  {
    var r := Order(chips);
    var pair := r[2 * p..2 * p + 2];
    assert pair == TallerFirst(chips, 2 * p, 2 * p + 1) && r[2 * p] == pair[0] && r[2 * p + 1] == pair[1];
  }

  lemma {:induction false} OrderLayer(chips: seq<Chip>, i: nat)
    requires |chips| == 4 && i < 6
    ensures Order(chips)[i] / 2 == i / 2
  {
    OrderPair(chips, i / 2);
    assert i == 2 * (i / 2) || i == 2 * (i / 2) + 1;
  }

  ghost function OrderedBoxes(frame: nat, variant: nat, chips: seq<Chip>): (r: seq<Box>)
    requires |chips| == 4
    ensures |r| == 6 && forall i :: 0 <= i < 6 ==> r[i] == DenseBox(frame, variant, chips, Order(chips)[i])
  {
    DrawnBoxes(DenseCrossing, frame, variant, chips, Order(chips))
  }

  lemma {:induction false} OtherLayersApart(frame: nat, variant: nat, chips: seq<Chip>, i: nat, k: nat)
    requires DenseChips(chips) && NoneTooHigh(chips) && i < 6 && k < 6 && i / 2 != k / 2
    ensures Disjoint(OrderedBoxes(frame, variant, chips)[i], OrderedBoxes(frame, variant, chips)[k])
  {
    LayersAreDisjointIff(frame, variant, chips);
    OrderLayer(chips, i);
    OrderLayer(chips, k);
    assert LayersDisjoint(frame, variant, chips);
  }

  // The object drawn second in its pair is fully visible.
  lemma {:induction false} SecondIsVisible(frame: nat, variant: nat, chips: seq<Chip>, p: nat)
    requires DenseChips(chips) && NoneTooHigh(chips) && p < 3
    ensures var boxes, i := OrderedBoxes(frame, variant, chips), 2 * p + 1;
            VisiblePixels(boxes[i], boxes[i + 1..]) == Area(boxes[i])
  {
    var boxes, i := OrderedBoxes(frame, variant, chips), 2 * p + 1;
    DenseRows(frame, variant, chips, Order(chips)[i]);
    var later := boxes[i + 1..];
    forall k | 0 <= k < |later| ensures Disjoint(boxes[i], later[k]) {
      OtherLayersApart(frame, variant, chips, i, i + 1 + k);
    }
    NoOccluder(boxes[i], later);
  }

  // The one drawn first loses the shared columns over the other's height.
  lemma {:induction false} FirstIsCovered(frame: nat, variant: nat, chips: seq<Chip>, p: nat)
    requires DenseChips(chips) && NoneTooHigh(chips) && p < 3 && frame < FRAME_COUNT
    ensures var boxes, i := OrderedBoxes(frame, variant, chips), 2 * p;
            VisiblePixels(boxes[i], boxes[i + 1..]) == Area(boxes[i]) - Shared(frame) * Height(boxes[i + 1])
  {
    var boxes, i := OrderedBoxes(frame, variant, chips), 2 * p;
    OrderPair(chips, p);
    DenseRows(frame, variant, chips, Order(chips)[i]);
    DenseRows(frame, variant, chips, Order(chips)[i + 1]);
    var later := boxes[i + 1..];
    forall k | 0 <= k < |later| && k != 0 ensures Disjoint(boxes[i], later[k]) {
      OtherLayersApart(frame, variant, chips, i, i + 1 + k);
    }
    OneOccluder(boxes[i], later, 0);
    SharedArea(boxes[i], boxes[i + 1]);
    PairColumns(frame, variant, chips, 2 * p, 2 * p + 1);
  }

  // A chip that fits its box has the box's height.
  lemma {:induction false} PastedHeight(frame: nat, variant: nat, chips: seq<Chip>, i: nat)
    requires DenseChips(chips) && Pasteable(DenseCrossing, chips, Order(chips)) && i < 6
    ensures Height(OrderedBoxes(frame, variant, chips)[i]) == ChipOf(chips, Order(chips)[i]).height
    ensures Area(OrderedBoxes(frame, variant, chips)[i]) == DENSE_WIDTH * ChipOf(chips, Order(chips)[i]).height
  {
    DenseRows(frame, variant, chips, Order(chips)[i]);
  }

  lemma {:induction false} HidesTest(shared: nat, high: nat, low: nat)
    ensures 4 * (DENSE_WIDTH * high - shared * low) < DENSE_WIDTH * high
            <==> 4 * shared * low > 3 * DENSE_WIDTH * high
  {
    assert 4 * shared * low == 4 * (shared * low);
  }

  lemma {:induction false} FirstHidden(frame: nat, variant: nat, chips: seq<Chip>, p: nat)
    requires DenseChips(chips) && NoneTooHigh(chips) && p < 3 && frame < FRAME_COUNT
    requires Pasteable(DenseCrossing, chips, Order(chips))
    ensures var boxes, i := OrderedBoxes(frame, variant, chips), 2 * p;
            && Area(boxes[i]) > 0
            && (Share(VisiblePixels(boxes[i], boxes[i + 1..]), Area(boxes[i])) < DENSE_MIN_VISIBILITY
                <==> Hides(frame, ChipOf(chips, 2 * p).height, ChipOf(chips, 2 * p + 1).height))
  {
    var boxes, i := OrderedBoxes(frame, variant, chips), 2 * p;
    var high, low := ChipOf(chips, Order(chips)[i]).height, ChipOf(chips, Order(chips)[i + 1]).height;
    PastedHeight(frame, variant, chips, i);
    PastedHeight(frame, variant, chips, i + 1);
    OrderPair(chips, p);
    FirstIsCovered(frame, variant, chips, p);
    QuarterTest(VisiblePixels(boxes[i], boxes[i + 1..]), Area(boxes[i]));
    HidesTest(Shared(frame), high, low);
    assert Max(ChipOf(chips, 2 * p).height, ChipOf(chips, 2 * p + 1).height) == high;
    assert Min(ChipOf(chips, 2 * p).height, ChipOf(chips, 2 * p + 1).height) == low;
  }

  lemma {:induction false} SecondShown(frame: nat, variant: nat, chips: seq<Chip>, p: nat)
    requires DenseChips(chips) && NoneTooHigh(chips) && p < 3
    requires Pasteable(DenseCrossing, chips, Order(chips))
    ensures var boxes, i := OrderedBoxes(frame, variant, chips), 2 * p + 1;
            Area(boxes[i]) > 0 && Share(VisiblePixels(boxes[i], boxes[i + 1..]), Area(boxes[i])) >= DENSE_MIN_VISIBILITY
  {
    var boxes, i := OrderedBoxes(frame, variant, chips), 2 * p + 1;
    PastedHeight(frame, variant, chips, i);
    SecondIsVisible(frame, variant, chips, p);
    QuarterTest(VisiblePixels(boxes[i], boxes[i + 1..]), Area(boxes[i]));
  }

  // In a pair only the higher object can be too hidden, and it is exactly when the shared
  // columns over the lower one's height take more than three quarters of it.
  lemma {:induction false} PairHidden(frame: nat, variant: nat, chips: seq<Chip>, p: nat)
    requires DenseChips(chips) && NoneTooHigh(chips) && p < 3 && frame < FRAME_COUNT
    requires Pasteable(DenseCrossing, chips, Order(chips))
    ensures Proper(OrderedBoxes(frame, variant, chips))
    ensures TooHidden(DenseCrossing, frame, Order(chips), OrderedBoxes(frame, variant, chips), 2 * p)
            <==> Hides(frame, ChipOf(chips, 2 * p).height, ChipOf(chips, 2 * p + 1).height)
    ensures !TooHidden(DenseCrossing, frame, Order(chips), OrderedBoxes(frame, variant, chips), 2 * p + 1)
  {
    DrawnBoxesFit(DenseCrossing, frame, variant, chips, Order(chips));
    FirstHidden(frame, variant, chips, p);
    SecondShown(frame, variant, chips, p);
  }

  // Any four chips no higher than a layer are rendered exactly when each fits its box and in
  // neither pair of chips the higher one is hidden.
  lemma {:induction false} DenseRenderableIff(frame: nat, variant: nat, chips: seq<Chip>)
    requires DenseChips(chips) && NoneTooHigh(chips) && frame < FRAME_COUNT
    ensures Renderable(DenseCrossing, frame, variant, chips) <==>
            Pasteable(DenseCrossing, chips, Order(chips))
            && !Hides(frame, chips[0].height, chips[1].height) && !Hides(frame, chips[2].height, chips[3].height)
  {
    if Pasteable(DenseCrossing, chips, Order(chips)) {
      PairHidden(frame, variant, chips, 0);
      PairHidden(frame, variant, chips, 1);
      PairHidden(frame, variant, chips, 2);
      var r, boxes := Order(chips), OrderedBoxes(frame, variant, chips);
      var clear := !Hides(frame, chips[0].height, chips[1].height) && !Hides(frame, chips[2].height, chips[3].height);
      assert |boxes| == 6;
      if clear {
        forall i | 0 <= i < 6 ensures !TooHidden(DenseCrossing, frame, r, boxes, i) {
          assert i in {2 * 0, 2 * 0 + 1, 2 * 1, 2 * 1 + 1, 2 * 2, 2 * 2 + 1};
        }
      } else {
        assert TooHidden(DenseCrossing, frame, r, boxes, 2 * 0) || TooHidden(DenseCrossing, frame, r, boxes, 2 * 1);
      }
    }
  }

  // ----- the chips of a clip -----

  // The last two chips are the mirror images of the first two.
  ghost predicate Mirrored(chips: seq<Chip>)
    requires |chips| == 4
  {
    && chips[2].width == chips[0].width && chips[2].height == chips[0].height
    && chips[3].width == chips[1].width && chips[3].height == chips[1].height
  }

  const TOP_BASELINE := 115

  lemma {:induction false} EveryRoleIsDrawn(chips: seq<Chip>, role: Role) returns (i: nat)
    requires |chips| == 4
    ensures i < 6 && Order(chips)[i] == role
  {
    OrderPair(chips, role / 2);
    i := 2 * (role / 2);
    if Order(chips)[i] != role {
      assert role in {Order(chips)[i], Order(chips)[i + 1]};
      i := i + 1;
    }
  }

  // The first two chips stand on the highest baseline, so pasting refuses any that is higher;
  // and their mirror images fit everywhere they do.
  lemma {:induction false} MirroredPasteable(chips: seq<Chip>)
    requires DenseChips(chips) && Mirrored(chips)
    ensures Pasteable(DenseCrossing, chips, Order(chips)) <==>
            chips[0].height <= TOP_BASELINE && chips[1].height <= TOP_BASELINE
  {
    if Pasteable(DenseCrossing, chips, Order(chips)) {
      var a := EveryRoleIsDrawn(chips, 0);
      var b := EveryRoleIsDrawn(chips, 1);
      assert ChipOf(chips, Order(chips)[a]).height <= Bottom(DenseCrossing, 0);
      assert ChipOf(chips, Order(chips)[b]).height <= Bottom(DenseCrossing, 1);
    } else {
      var i :| 0 <= i < 6 && ChipOf(chips, Order(chips)[i]).height > Bottom(DenseCrossing, Order(chips)[i]);
      assert ChipOf(chips, Order(chips)[i]).height > TOP_BASELINE;
    }
  }

  lemma {:induction false} RenderedIsPasteable(frame: nat, variant: nat, chips: seq<Chip>)
    requires DenseChips(chips) && Renderable(DenseCrossing, frame, variant, chips)
    ensures Pasteable(DenseCrossing, chips, Order(chips))
  {}

  // The promise of the dataset: in every dense frame that is rendered at all, the three layers
  // are disjoint.
  lemma {:induction false} RenderedLayersAreDisjoint(frame: nat, variant: nat, chips: seq<Chip>)
    requires DenseChips(chips) && Mirrored(chips) && Renderable(DenseCrossing, frame, variant, chips)
    ensures LayersDisjoint(frame, variant, chips)
  {
    RenderedIsPasteable(frame, variant, chips);
    MirroredPasteable(chips);
    assert NoneTooHigh(chips);
    LayersAreDisjointIff(frame, variant, chips);
  }

  // A dense frame of a clip is rendered exactly when both chips fit the highest baseline and
  // the higher one is not hidden: a test of two heights and the frame number.
  lemma {:induction false} FrameRenders(frame: nat, variant: nat, chips: seq<Chip>)
    requires DenseChips(chips) && Mirrored(chips) && frame < FRAME_COUNT
    ensures Renderable(DenseCrossing, frame, variant, chips) <==>
            && chips[0].height <= TOP_BASELINE && chips[1].height <= TOP_BASELINE
            && !Hides(frame, chips[0].height, chips[1].height)
  {
    MirroredPasteable(chips);
    if Pasteable(DenseCrossing, chips, Order(chips)) {
      DenseRenderableIff(frame, variant, chips);
    }
  }

  // The objects of a pair never share more columns than in the sixteenth frame.
  const CLOSEST := 15

  lemma {:induction false} SharedAtMost(frame: nat)
    requires frame < FRAME_COUNT
    ensures Shared(frame) <= Shared(CLOSEST) == 104
  {
    var p := if frame < 30 then frame else 59 - frame;
    assert 0 <= p < 30;
    if p <= 14 { assert Travel(frame) <= 243; } else { assert Travel(frame) >= 260; }
  }

  lemma {:induction false} HidesMonotone(frame: nat, one: nat, other: nat)
    requires frame < FRAME_COUNT && Hides(frame, one, other)
    ensures Hides(CLOSEST, one, other)
  {
    SharedAtMost(frame);
    Product(4 * Shared(frame), 4 * Shared(CLOSEST), Min(one, other));
  }

  // A whole dense clip is rendered exactly when both chips fit the highest baseline and the
  // lower one has at most 45/52 of the higher one's rows: with two objects of nearly the same
  // shape the clip always fails.
  lemma {:induction false} ClipRenders(variant: nat, chips: seq<Chip>)
    requires DenseChips(chips) && Mirrored(chips)
    ensures (forall frame: nat :: frame < FRAME_COUNT ==> Renderable(DenseCrossing, frame, variant, chips)) <==>
            && chips[0].height <= TOP_BASELINE && chips[1].height <= TOP_BASELINE
            && 52 * Min(chips[0].height, chips[1].height) <= 45 * Max(chips[0].height, chips[1].height)
  {
    SharedAtMost(CLOSEST);
    FrameRenders(CLOSEST, variant, chips);
    forall frame: nat | frame < FRAME_COUNT
      ensures Renderable(DenseCrossing, CLOSEST, variant, chips) ==> Renderable(DenseCrossing, frame, variant, chips)
    {
      FrameRenders(frame, variant, chips);
      if Hides(frame, chips[0].height, chips[1].height) { HidesMonotone(frame, chips[0].height, chips[1].height); }
    }
  }
}
