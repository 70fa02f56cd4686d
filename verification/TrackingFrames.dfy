// Rendering one annotated tracking frame (prepare_v02_tracking_dataset.py, `_render_frame`).
module TrackingFrames {
  import opened Arithmetic
  import opened Wrappers
  import opened Geometry
  import opened PixelCounts
  import opened Bytes
  import opened Pixels
  import opened Visibility
  import opened TrackingLanes

  datatype Chip = Chip(width: nat, height: nat, pixels: seq<Byte>)
  datatype Frame = Frame(pixels: seq<Byte>, objects: seq<Annotation>)

  const MASK: (Byte, Byte, Byte) := (74, 78, 82)
  const FRAME_COUNT := 60

  // ----- what is drawn -----

  predicate ValidChip(c: Chip) {
    0 < c.width <= WIDTH && 0 < c.height && |c.pixels| == c.width * c.height * 3
  }

  ghost predicate ValidChips(chips: seq<Chip>) {
    |chips| == 4 && forall i :: 0 <= i < 4 ==> ValidChip(chips[i])
  }

  // Roles e and f reuse the chips of a and b.
  function ChipOf(chips: seq<Chip>, role: Role): Chip
    requires |chips| == 4
  {
    chips[if role < 4 then role else role - 4]
  }

  // The taller of two roles first; on a tie the earlier one.
  function TallerFirst(chips: seq<Chip>, a: Role, b: Role): seq<Role>
    requires |chips| == 4
  {
    if ChipOf(chips, b).height > ChipOf(chips, a).height then [b, a] else [a, b]
  }

  function DrawRoles(scenario: Scenario, chips: seq<Chip>): seq<Role>
    requires |chips| == 4
  {
    if scenario.DenseCrossing? then TallerFirst(chips, 0, 1) + TallerFirst(chips, 2, 3) + TallerFirst(chips, 4, 5)
    else [0, 1, 2]
  }

  // All roles of a dense frame are drawn, pair by pair, the taller of a pair first and on a tie
  // the lower role.
  lemma {:induction false} DrawingOrder(chips: seq<Chip>)
    requires |chips| == 4
    ensures var r := DrawRoles(DenseCrossing, chips);
            && |r| == 6
            && forall i, j :: 0 <= i < j < 6 ==>
                 var a, b := r[i], r[j];
                 || a / 2 < b / 2
                 || (a / 2 == b / 2 && ChipOf(chips, a).height > ChipOf(chips, b).height)
                 || (a / 2 == b / 2 && ChipOf(chips, a).height == ChipOf(chips, b).height && a < b)
  {}

  function DrawnBox(scenario: Scenario, frame: nat, variant: nat, chips: seq<Chip>, role: Role): Box
    requires |chips| == 4
  {
    BoxFor(scenario, role, frame, variant, ChipOf(chips, role).width, ChipOf(chips, role).height)
  }

  function DrawnBoxes(scenario: Scenario, frame: nat, variant: nat, chips: seq<Chip>, roles: seq<Role>): (r: seq<Box>)
    requires |chips| == 4
    ensures |r| == |roles| && forall i :: 0 <= i < |roles| ==>
            r[i] == DrawnBox(scenario, frame, variant, chips, roles[i])
  {
    seq(|roles|, i requires 0 <= i < |roles| => DrawnBox(scenario, frame, variant, chips, roles[i]))
  }

  function DrawnPixels(chips: seq<Chip>, roles: seq<Role>): (r: seq<seq<Byte>>)
    requires |chips| == 4
    ensures |r| == |roles| && forall i :: 0 <= i < |roles| ==> r[i] == ChipOf(chips, roles[i]).pixels
  {
    seq(|roles|, i requires 0 <= i < |roles| => ChipOf(chips, roles[i]).pixels)
  }

  // A chip taller than its baseline does not fit its clamped box, and pasting it fails.
  predicate Pasteable(scenario: Scenario, chips: seq<Chip>, roles: seq<Role>)
    requires |chips| == 4
  {
    forall i :: 0 <= i < |roles| ==> ChipOf(chips, roles[i]).height <= Bottom(scenario, roles[i])
  }

  // ----- the masks -----

  function MaskOf(role: int, frame: nat, b: Box): seq<Box> {
    if Missing(role, frame) then [b] else if Partial(role, frame) then [PartialCover(b)] else []
  }

  function MasksBelow(frame: nat, boxes: seq<Box>, n: nat): seq<Box>
    requires n <= |boxes|
  {
    if n == 0 then [] else MasksBelow(frame, boxes, n - 1) + MaskOf(n - 1, frame, boxes[n - 1])
  }

  function Masks(scenario: Scenario, frame: nat, boxes: seq<Box>): seq<Box> {
    if scenario.Occlusion? then MasksBelow(frame, boxes, |boxes|) else []
  }

  // ----- the finished frame -----

  function ComposedColor(
    background: seq<Byte>, chips: seq<seq<Byte>>, boxes: seq<Box>, masks: seq<Box>, x: nat, y: nat, c: nat): int
    requires |chips| == |boxes|
  {
    var k := LastPainter(boxes + masks, x, y);
    if k >= |boxes| then Channel(MASK, c)
    else if k >= 0 then ChipColor(chips[k], boxes[k])(x, y, c)
    else if Index(WIDTH, x, y, c) < |background| then background[Index(WIDTH, x, y, c)] else 0
  }

  // Every pixel shows its last painter: a mask, a chip, or the background.
  ghost predicate Composed(
    canvas: seq<Byte>, background: seq<Byte>, chips: seq<seq<Byte>>, boxes: seq<Box>, masks: seq<Box>)
    requires |chips| == |boxes|
  {
    forall x: nat, y: nat, c: nat {:trigger Index(WIDTH, x, y, c)} :: OnCanvas(WIDTH, HEIGHT, x, y, c) ==>
      Index(WIDTH, x, y, c) < |canvas|
        && canvas[Index(WIDTH, x, y, c)] == ComposedColor(background, chips, boxes, masks, x, y, c)
  }

  lemma {:induction false} LayeredIsComposed(
    canvas: seq<Byte>, background: seq<Byte>, chips: seq<seq<Byte>>, boxes: seq<Box>)
    requires |canvas| == |background| == WIDTH * HEIGHT * 3 && |chips| == |boxes|
    requires Layered(canvas, background, chips, boxes)
    ensures Composed(canvas, background, chips, boxes, [])
  {
    assert boxes + [] == boxes;
    forall x: nat, y: nat, c: nat {:trigger Index(WIDTH, x, y, c)} | OnCanvas(WIDTH, HEIGHT, x, y, c)
      ensures Index(WIDTH, x, y, c) < |canvas|
      ensures canvas[Index(WIDTH, x, y, c)] == ComposedColor(background, chips, boxes, [], x, y, c)
    {
      LastPainterMeaning(boxes, x, y);
    }
  }

  lemma {:induction false} MaskAdded(after: seq<Byte>, before: seq<Byte>, background: seq<Byte>, chips: seq<seq<Byte>>,
                                     boxes: seq<Box>, masks: seq<Box>, b: Box)
    requires |after| == |before| == WIDTH * HEIGHT * 3 && |chips| == |boxes|
    requires Composed(before, background, chips, boxes, masks)
    requires Painted(after, before, WIDTH, HEIGHT, b, b.bottom, Solid(MASK))
    ensures Composed(after, background, chips, boxes, masks + [b])
  {
    var all, longer := boxes + masks, boxes + (masks + [b]);
    assert longer[..|longer| - 1] == all && longer[|longer| - 1] == b;
    forall x: nat, y: nat, c: nat {:trigger Index(WIDTH, x, y, c)} | OnCanvas(WIDTH, HEIGHT, x, y, c)
      ensures Index(WIDTH, x, y, c) < |after|
      ensures after[Index(WIDTH, x, y, c)] == ComposedColor(background, chips, boxes, masks + [b], x, y, c)
    {
      LastPainterMeaning(all, x, y);
    }
  }

  // A partial mask over a single column would be empty, and filling it fails.
  predicate Maskable(frame: nat, boxes: seq<Box>) {
    forall i :: 0 <= i < |boxes| && Partial(i, frame) && !Missing(i, frame) ==> Width(boxes[i]) > 1
  }

  method PaintMask(canvas: array<Byte>, b: Box, ghost background: seq<Byte>, ghost chips: seq<seq<Byte>>,
                   ghost boxes: seq<Box>, ghost masks: seq<Box>) returns (ok: bool)
    requires canvas.Length == WIDTH * HEIGHT * 3 && |chips| == |boxes|
    requires Composed(canvas[..], background, chips, boxes, masks)
    modifies canvas
    ensures ok <==> BoxFits(b, WIDTH, HEIGHT)
    ensures ok ==> Composed(canvas[..], background, chips, boxes, masks + [b])
  {
    ghost var before := canvas[..];
    ok := FillBox(canvas, WIDTH, HEIGHT, b, MASK);
    if ok { MaskAdded(canvas[..], before, background, chips, boxes, masks, b); }
  }

  // A partial mask can be filled unless the box is a single column.
  lemma {:induction false} CoverFits(b: Box)
    requires BoxFits(b, WIDTH, HEIGHT)
    ensures BoxFits(PartialCover(b), WIDTH, HEIGHT) <==> Width(b) > 1
  {}

  method PaintMasks(
    canvas: array<Byte>, frame: nat, boxes: seq<Box>, ghost background: seq<Byte>, ghost chips: seq<seq<Byte>>)
    returns (ok: bool)
    requires canvas.Length == WIDTH * HEIGHT * 3 && |chips| == |boxes| && AllFit(boxes, WIDTH, HEIGHT)
    requires Composed(canvas[..], background, chips, boxes, [])
    modifies canvas
    ensures ok <==> Maskable(frame, boxes)
    ensures ok ==> Composed(canvas[..], background, chips, boxes, MasksBelow(frame, boxes, |boxes|))
  {
    for role := 0 to |boxes|
      invariant forall i :: 0 <= i < role && Partial(i, frame) && !Missing(i, frame) ==> Width(boxes[i]) > 1
      invariant Composed(canvas[..], background, chips, boxes, MasksBelow(frame, boxes, role))
    {
      ghost var masks := MasksBelow(frame, boxes, role);
      var b := boxes[role];
      assert MasksBelow(frame, boxes, role + 1) == masks + MaskOf(role, frame, b);
      if Missing(role, frame) {
        var painted := PaintMask(canvas, b, background, chips, boxes, masks);
      } else if Partial(role, frame) {
        CoverFits(b);
        var painted := PaintMask(canvas, PartialCover(b), background, chips, boxes, masks);
        if !painted { return false; }
      } else {
        assert masks + [] == masks;
      }
    }
    return true;
  }

  lemma {:induction false} DrawnBoxesFit(
    scenario: Scenario, frame: nat, variant: nat, chips: seq<Chip>, roles: seq<Role>)
    requires ValidChips(chips)
    ensures AllFit(DrawnBoxes(scenario, frame, variant, chips, roles), WIDTH, HEIGHT)
    ensures Proper(DrawnBoxes(scenario, frame, variant, chips, roles))
    ensures Pasteable(scenario, chips, roles) <==>
            forall i :: 0 <= i < |roles| ==>
              Height(DrawnBoxes(scenario, frame, variant, chips, roles)[i]) == ChipOf(chips, roles[i]).height
  {
    var boxes := DrawnBoxes(scenario, frame, variant, chips, roles);
    forall i | 0 <= i < |roles|
      ensures BoxFits(boxes[i], WIDTH, HEIGHT) && Area(boxes[i]) > 0
    {
      BoxesFit(scenario, roles[i], frame, variant, ChipOf(chips, roles[i]).width, ChipOf(chips, roles[i]).height);
      PositiveArea(boxes[i]);
    }
  }

  lemma {:induction false} PositiveArea(b: Box)
    requires b.left < b.right && b.top < b.bottom
    ensures Area(b) > 0
  {}

  // What an annotated frame is: painted in drawing order over the turned background, masked,
  // and annotated with exactly the visible roles.
  ghost predicate IsRendered(
    f: Frame, shown: seq<nat>, scenario: Scenario, frame: nat, variant: nat, background: seq<Byte>,
    chips: seq<Chip>)
    requires ValidChips(chips)
  {
    var roles := DrawRoles(scenario, chips);
    var boxes := DrawnBoxes(scenario, frame, variant, chips, roles);
    DrawnBoxesFit(scenario, frame, variant, chips, roles);
    && Composed(f.pixels, background, DrawnPixels(chips, roles), boxes, Masks(scenario, frame, boxes))
    && AnnotatedAs(f.objects, shown, scenario, frame, roles, boxes)
  }

  ghost predicate AnnotatedAs(
    objects: seq<Annotation>, shown: seq<nat>, scenario: Scenario, frame: nat, roles: seq<int>, boxes: seq<Box>)
    requires |roles| == |boxes| && Proper(boxes)
  {
    && |shown| == |objects|
    && (forall k :: 0 <= k < |shown| ==>
          shown[k] < |roles|
            && objects[k] == Annotation(roles[shown[k]], Reported(scenario, frame, roles, boxes, shown[k])))
    && (forall k, l :: 0 <= k < l < |shown| ==> shown[k] < shown[l])
    && forall i :: 0 <= i < |roles| ==> (i in shown <==> Listed(scenario, frame, roles, boxes, i))
  }

  // The three ways a frame can fail.
  ghost predicate Renderable(scenario: Scenario, frame: nat, variant: nat, chips: seq<Chip>)
    requires ValidChips(chips)
  {
    var roles := DrawRoles(scenario, chips);
    var boxes := DrawnBoxes(scenario, frame, variant, chips, roles);
    DrawnBoxesFit(scenario, frame, variant, chips, roles);
    && Pasteable(scenario, chips, roles)
    && (forall i :: 0 <= i < |boxes| ==> !TooHidden(scenario, frame, roles, boxes, i))
    && (scenario.Occlusion? ==> Maskable(frame, boxes))
  }

  ghost predicate ShiftedBackground(turned: seq<Byte>, pixels: seq<Byte>, shift: int)
    requires |pixels| == |turned| == WIDTH * HEIGHT * 3
  {
    forall y :: 0 <= y < HEIGHT ==>
      turned[y * (WIDTH * 3)..(y + 1) * (WIDTH * 3)] == Turned(pixels[y * (WIDTH * 3)..(y + 1) * (WIDTH * 3)], shift)
  }

  // The background of the frame's segment, turned by the camera shift.
  method Backdrop(backgrounds: seq<seq<Byte>>, frame: nat, scenario: Scenario, variant: nat) returns (turned: seq<Byte>)
    requires |backgrounds| == 3 && forall i :: 0 <= i < 3 ==> |backgrounds[i]| == WIDTH * HEIGHT * 3
    requires frame < FRAME_COUNT
    ensures |turned| == WIDTH * HEIGHT * 3
    ensures ShiftedBackground(turned, backgrounds[if scenario.Cuts? then frame / 20 else 0],
                              if scenario.CameraMotion? then CameraShift(frame, variant) else 0)
  {
    var segment := if scenario.Cuts? then frame / 20 else 0;
    var shift := if scenario.CameraMotion? then CameraShift(frame, variant) else 0;
    turned := ShiftRows(backgrounds[segment], shift);
  }

  method RenderFrame(backgrounds: seq<seq<Byte>>, chips: seq<Chip>, frame: nat, scenario: Scenario, variant: nat)
    returns (r: Result<Frame, string>, shown: seq<nat>, turned: seq<Byte>)
    requires |backgrounds| == 3 && forall i :: 0 <= i < 3 ==> |backgrounds[i]| == WIDTH * HEIGHT * 3
    requires frame < FRAME_COUNT && ValidChips(chips)
    ensures |turned| == WIDTH * HEIGHT * 3
    ensures ShiftedBackground(turned, backgrounds[if scenario.Cuts? then frame / 20 else 0],
                              if scenario.CameraMotion? then CameraShift(frame, variant) else 0)
    ensures r.Ok? <==> Renderable(scenario, frame, variant, chips)
    ensures r.Ok? ==>
            |r.value.pixels| == WIDTH * HEIGHT * 3
              && IsRendered(r.value, shown, scenario, frame, variant, turned, chips)
  {
    turned := Backdrop(backgrounds, frame, scenario, variant);
    shown := [];
    var canvas := new Byte[|turned|](i requires 0 <= i < |turned| => turned[i]);
    assert canvas[..] == turned;
    var roles := DrawRoles(scenario, chips);
    var boxes := DrawnBoxes(scenario, frame, variant, chips, roles);
    DrawnBoxesFit(scenario, frame, variant, chips, roles);
    if !Pasteable(scenario, chips, roles) { return Err("clip_generation_failed"), shown, turned; }
    PaintObjects(canvas, DrawnPixels(chips, roles), boxes);
    LayeredIsComposed(canvas[..], turned, DrawnPixels(chips, roles), boxes);
    var annotated;
    annotated, shown := Annotate(scenario, frame, roles, boxes);
    if annotated.Err? { return Err(annotated.error), shown, turned; }
    if scenario.Occlusion? {
      var ok := PaintMasks(canvas, frame, boxes, turned, DrawnPixels(chips, roles));
      if !ok { return Err("invalid_manifest"), shown, turned; }
    }
    return Ok(Frame(canvas[..], annotated.value)), shown, turned;
  }

  // ----- what the annotation promises about the pixels -----

  ghost predicate OwnMaskCovers(frame: nat, boxes: seq<Box>, n: nat, x: int, y: int)
    requires n <= |boxes|
  {
    exists i :: 0 <= i < n && Covers(MaskOf(i, frame, boxes[i]))(x, y)
  }

  lemma {:induction false} MasksAreOwn(frame: nat, boxes: seq<Box>, n: nat, x: int, y: int)
    requires n <= |boxes|
    ensures Covers(MasksBelow(frame, boxes, n))(x, y) <==> OwnMaskCovers(frame, boxes, n, x, y)
  {
    if n == 0 {
    } else {
      var before, last := MasksBelow(frame, boxes, n - 1), MaskOf(n - 1, frame, boxes[n - 1]);
      MasksAreOwn(frame, boxes, n - 1, x, y);
      CoversConcat(before, last, x, y);
    }
  }

  lemma {:induction false} CoversConcat(a: seq<Box>, b: seq<Box>, x: int, y: int)
    ensures Covers(a + b)(x, y) <==> Covers(a)(x, y) || Covers(b)(x, y)
  {
    var all := a + b;
    if Covers(a)(x, y) {
      var k :| 0 <= k < |a| && InBox(a[k], x, y);
      assert InBox(all[k], x, y);
    }
    if Covers(b)(x, y) {
      var k :| 0 <= k < |b| && InBox(b[k], x, y);
      assert InBox(all[|a| + k], x, y);
    }
  }

  // Where the boxes are apart, only its own mask hides an object.
  lemma {:induction false} HiddenByOwnMask(frame: nat, boxes: seq<Box>, i: nat, x: int, y: int)
    requires i < |boxes| && AllApart(boxes) && Proper(boxes) && InBox(boxes[i], x, y)
    ensures Covers(boxes[i + 1..] + MasksBelow(frame, boxes, |boxes|))(x, y)
            <==> Covers(MaskOf(i, frame, boxes[i]))(x, y)
  {
    var later, masks := boxes[i + 1..], MasksBelow(frame, boxes, |boxes|);
    CoversConcat(later, masks, x, y);
    MasksAreOwn(frame, boxes, |boxes|, x, y);
    forall k | 0 <= k < |boxes| && k != i ensures !InBox(boxes[k], x, y) {
      assert if k < i then Disjoint(boxes[k], boxes[i]) else Disjoint(boxes[i], boxes[k]);
    }
    forall k | 0 <= k < |later| ensures !InBox(later[k], x, y) {
      assert later[k] == boxes[i + 1 + k];
    }
    forall k | 0 <= k < |boxes| && k != i ensures !Covers(MaskOf(k, frame, boxes[k]))(x, y) {
    }
  }

  // What a reader of the annotation takes an object's visibility to be.
  ghost function Promised(scenario: Scenario, frame: nat, roles: seq<int>, boxes: seq<Box>, i: nat): nat
    requires i < |roles| == |boxes| && Proper(boxes)
  {
    if scenario.Occlusion? && Missing(roles[i], frame) then 0 else Reported(scenario, frame, roles, boxes, i)
  }

  // The share of the object's box that shows the object in the finished frame, masks included.
  ghost function Shown(scenario: Scenario, frame: nat, boxes: seq<Box>, i: nat): nat
    requires i < |boxes| && Proper(boxes)
  {
    Share(CountRect(boxes[i], OwnedBy(boxes + Masks(scenario, frame, boxes), i)), Area(boxes[i]))
  }

  lemma {:induction false} ShownIsUncovered(scenario: Scenario, frame: nat, boxes: seq<Box>, i: nat)
    requires i < |boxes| && Proper(boxes)
    ensures Shown(scenario, frame, boxes, i) ==
            Share(VisiblePixels(boxes[i], boxes[i + 1..] + Masks(scenario, frame, boxes)), Area(boxes[i]))
  {
    var masks := Masks(scenario, frame, boxes);
    VisibleIsOwned(boxes + masks, i);
    assert (boxes + masks)[i + 1..] == boxes[i + 1..] + masks;
  }

  lemma {:induction false} WholeShare(part: nat, whole: nat)
    requires 0 < whole && part <= whole
    ensures Share(part, whole) == MILLION <==> part == whole
    ensures Share(0, whole) == 0
  {
    QuotientIs(0, whole, 0);
    QuotientIs(whole * MILLION, whole, MILLION);
    var q := part * MILLION / whole;
    assert q * whole <= part * MILLION;
  }

  lemma {:induction false} OcclusionIsExact(frame: nat, boxes: seq<Box>, roles: seq<int>, i: nat)
    requires i < |boxes| == |roles| && AllApart(boxes) && Proper(boxes) && roles[i] == i
    ensures Shown(Occlusion, frame, boxes, i) == Promised(Occlusion, frame, roles, boxes, i)
  {
    var b, hidden, own := boxes[i], boxes[i + 1..] + MasksBelow(frame, boxes, |boxes|), MaskOf(i, frame, boxes[i]);
    ShownIsUncovered(Occlusion, frame, boxes, i);
    forall x, y | InBox(b, x, y) ensures Uncovered(hidden)(x, y) == Uncovered(own)(x, y) {
      HiddenByOwnMask(frame, boxes, i, x, y);
    }
    RectSame(b, Uncovered(hidden), Uncovered(own));
    FullyVisible(b, own);
    WholeShare(VisiblePixels(b, own), Area(b));
    if Missing(i, frame) {
      forall x, y | InBox(b, x, y) ensures !Uncovered([b])(x, y) { assert [b][0] == b; }
      RectNone(b, Uncovered([b]));
    }
  }

  lemma {:induction false} LaneBoxesAreProper(scenario: Scenario, frame: nat, variant: nat, heights: seq<int>)
    requires |heights| == 3 && forall i :: 0 <= i < 3 ==> heights[i] > 0
    ensures Proper(Boxes(scenario, frame, variant, heights))
  {
    var boxes := Boxes(scenario, frame, variant, heights);
    forall i | 0 <= i < 3
      ensures Area(boxes[i]) > 0 && boxes[i].left < boxes[i].right && boxes[i].top < boxes[i].bottom
    {
      BoxesFit(scenario, i, frame, variant, TARGET_WIDTH, heights[i]);
      PositiveArea(boxes[i]);
    }
  }

  lemma {:induction false} UnmaskedIsExact(scenario: Scenario, frame: nat, boxes: seq<Box>, roles: seq<int>, i: nat)
    requires !scenario.DenseCrossing? && !scenario.Occlusion? && i < |boxes| == |roles| && Proper(boxes)
    ensures Shown(scenario, frame, boxes, i) == Promised(scenario, frame, roles, boxes, i)
            <==> VisiblePixels(boxes[i], boxes[i + 1..]) == Area(boxes[i])
  {
    ShownIsUncovered(scenario, frame, boxes, i);
    assert boxes[i + 1..] + [] == boxes[i + 1..];
    FullyVisible(boxes[i], boxes[i + 1..]);
    WholeShare(VisiblePixels(boxes[i], boxes[i + 1..]), Area(boxes[i]));
  }

  // Each object's annotated visibility is exactly the share of its box that shows it in the
  // finished frame.
  ghost predicate Exact(scenario: Scenario, frame: nat, boxes: seq<Box>, roles: seq<int>)
    requires |boxes| == |roles| && Proper(boxes)
  {
    forall i :: 0 <= i < |boxes| ==> Shown(scenario, frame, boxes, i) == Promised(scenario, frame, roles, boxes, i)
  }

  lemma {:induction false} UnmaskedFrameIsExact(scenario: Scenario, frame: nat, boxes: seq<Box>, roles: seq<int>)
    requires !scenario.DenseCrossing? && !scenario.Occlusion? && |boxes| == |roles| && Proper(boxes)
    ensures Exact(scenario, frame, boxes, roles) <==> FullyPainted(boxes)
  {
    forall i | 0 <= i < |boxes|
      ensures Shown(scenario, frame, boxes, i) == Promised(scenario, frame, roles, boxes, i)
              <==> VisiblePixels(boxes[i], boxes[i + 1..]) == Area(boxes[i])
    {
      UnmaskedIsExact(scenario, frame, boxes, roles, i);
    }
  }

  // In every three-lane scenario the annotation is exact, except in cut clips, where it is
  // exactly while the first two lanes are apart or the first object is at most 30 rows high.
  lemma {:induction false} AnnotationsAreExact(
    scenario: Scenario, frame: nat, variant: nat, heights: seq<int>, roles: seq<int>)
    requires !scenario.DenseCrossing? && |heights| == 3 && forall i :: 0 <= i < 3 ==> heights[i] > 0
    requires |roles| == 3 && forall i :: 0 <= i < 3 ==> roles[i] == i
    ensures Proper(Boxes(scenario, frame, variant, heights))
    ensures Exact(scenario, frame, Boxes(scenario, frame, variant, heights), roles)
            <==> (scenario.Cuts? ==> frame % 20 <= 6 || heights[0] <= 30)
  {
    var boxes := Boxes(scenario, frame, variant, heights);
    LaneBoxesAreProper(scenario, frame, variant, heights);
    if scenario.Occlusion? {
      BoxesApart(scenario, frame, variant, heights);
      forall i | 0 <= i < |boxes|
        ensures Shown(scenario, frame, boxes, i) == Promised(scenario, frame, roles, boxes, i)
      {
        OcclusionIsExact(frame, boxes, roles, i);
      }
    } else {
      ReportedVisibilityIsExact(scenario, frame, variant, heights);
      UnmaskedFrameIsExact(scenario, frame, boxes, roles);
    }
  }

  // In dense crossings the annotation is computed from the boxes drawn later, and exact.
  lemma {:induction false} DenseAnnotationsAreExact(frame: nat, roles: seq<int>, boxes: seq<Box>, i: nat)
    requires i < |roles| == |boxes| && Proper(boxes)
    ensures Shown(DenseCrossing, frame, boxes, i) == Promised(DenseCrossing, frame, roles, boxes, i)
  {
    ShownIsUncovered(DenseCrossing, frame, boxes, i);
    assert boxes[i + 1..] + [] == boxes[i + 1..];
  }

  // The boxes a frame draws are the three lanes when its chips have the standard width.
  lemma {:induction false} DrawnAtStandardWidth(scenario: Scenario, frame: nat, variant: nat, chips: seq<Chip>)
    requires ValidChips(chips) && !scenario.DenseCrossing?
    requires forall i :: 0 <= i < 3 ==> chips[i].width == TARGET_WIDTH
    ensures DrawnBoxes(scenario, frame, variant, chips, DrawRoles(scenario, chips))
            == Boxes(scenario, frame, variant, [chips[0].height, chips[1].height, chips[2].height])
  {}
}
