// Object lanes, occlusion masks and annotated visibility (prepare_v02_tracking_dataset.py).
module TrackingLanes {
  import opened Arithmetic
  import opened Wrappers
  import opened Geometry
  import opened PixelCounts
  import opened Bytes
  import opened Visibility

  const TARGET_WIDTH := 170
  const DENSE_MIN_VISIBILITY := 250_000

  datatype Scenario = StationaryCamera | CameraMotion | Cuts | Occlusion | DenseCrossing

  // Roles a, b, c, d, e, f are numbered 0 to 5.
  type Role = r: int | 0 <= r < 6

  const PATTERN: seq<int> := [-8, 5, -6, 9, -9, 6, -4, 8]

  function CameraShift(frame: nat, variant: nat): int {
    (frame % 20 - 10) * 3 + PATTERN[(frame + variant) % 8]
  }

  function Unclamped(scenario: Scenario, role: Role, frame: nat, variant: nat, objectWidth: int): int {
    match scenario
    case StationaryCamera => (if role == 0 then 20 else if role == 1 then 235 else 450) + (frame + role * 3) % 11 - 5
    case CameraMotion => (if role == 0 then 35 else if role == 1 then 235 else 435) + CameraShift(frame, variant)
    case Cuts =>
      (if role == 0 then 25 else if role == 1 then 235 else 445)
      + (if role == 0 then 3 else if role == 1 then -3 else 2) * (frame % 20)
    case Occlusion => (if role == 0 then 15 else if role == 1 then 235 else 455) + (frame + role * 3 + variant) % 9 - 4
    case DenseCrossing =>
      var progress := if frame < 30 then frame else 59 - frame;
      var travel := WIDTH - 16 - objectWidth;
      if role % 2 == 0 then 8 + travel * progress / 29 else WIDTH - objectWidth - 8 - travel * progress / 29
  }

  function Left(scenario: Scenario, role: Role, frame: nat, variant: nat, objectWidth: int): int {
    Max(0, Min(WIDTH - objectWidth, Unclamped(scenario, role, frame, variant, objectWidth) + (variant % 5 - 2) * 2))
  }

  function Bottom(scenario: Scenario, role: Role): int {
    if scenario.DenseCrossing? then (if role < 2 then 115 else if role < 4 then 235 else 355)
    else if role == 0 then 344 else if role == 1 then 314 else if role == 2 then 284
    else if role == 3 then 354 else if role == 4 then 324 else 294
  }

  function BoxFor(scenario: Scenario, role: Role, frame: nat, variant: nat, chipWidth: int, chipHeight: int): Box {
    var bottom := Bottom(scenario, role);
    var left := Left(scenario, role, frame, variant, chipWidth);
    Box(left, Max(0, bottom - chipHeight), left + chipWidth, bottom)
  }

  // Boxes never leave the canvas, in any scenario.
  lemma {:induction false} BoxesFit(
    scenario: Scenario, role: Role, frame: nat, variant: nat, chipWidth: int, chipHeight: int)
    requires 0 < chipWidth <= WIDTH && chipHeight > 0
    ensures BoxFits(BoxFor(scenario, role, frame, variant, chipWidth, chipHeight), WIDTH, HEIGHT)
  {}

  // The three lanes of a scenario at the standard object width.
  function Lane(scenario: Scenario, role: Role, frame: nat, variant: nat): int {
    Left(scenario, role, frame, variant, TARGET_WIDTH)
  }

  // Where the camera, or nothing, moves, the lanes are disjoint for every frame and variant.
  lemma {:induction false} LanesAreDisjoint(scenario: Scenario, frame: nat, variant: nat)
    requires scenario.StationaryCamera? || scenario.CameraMotion? || scenario.Occlusion?
    ensures Lane(scenario, 0, frame, variant) + TARGET_WIDTH <= Lane(scenario, 1, frame, variant)
    ensures Lane(scenario, 1, frame, variant) + TARGET_WIDTH <= Lane(scenario, 2, frame, variant)
  {}

  // In cut clips the outer lanes stay apart, but the first two overlap exactly from the
  // eighth frame of a segment on.
  lemma {:induction false} CutLanes(frame: nat, variant: nat)
    ensures Lane(Cuts, 1, frame, variant) + TARGET_WIDTH <= Lane(Cuts, 2, frame, variant)
    ensures Lane(Cuts, 0, frame, variant) + TARGET_WIDTH <= Lane(Cuts, 2, frame, variant)
    ensures Lane(Cuts, 0, frame, variant) + TARGET_WIDTH <= Lane(Cuts, 1, frame, variant) <==> frame % 20 <= 6
  {}

  // ----- how the lanes move -----

  // How far a variant moves all lanes.
  function Offset(variant: nat): int {
    variant % 5 * 2 - 4
  }

  lemma {:induction false} NextInCycle(n: nat, m: nat)
    requires m > 0
    ensures (n + 1) % m == if n % m == m - 1 then 0 else n % m + 1
  {
    QuotientIs(n + 1, m, if n % m == m - 1 then n / m + 1 else n / m);
  }

  // A standing camera sees the objects drift right by a pixel a frame and jump back by ten, within five
  // pixels of their places; behind a mask they jump back by eight, within four.
  lemma {:induction false} StandingLanes(role: Role, frame: nat, variant: nat)
    requires role < 3
    ensures var step := Lane(StationaryCamera, role, frame + 1, variant) - Lane(StationaryCamera, role, frame, variant);
            step == 1 || step == -10
    ensures -5 <= Lane(StationaryCamera, role, frame, variant) - (20 + 215 * role) - Offset(variant) <= 5
    ensures var step := Lane(Occlusion, role, frame + 1, variant) - Lane(Occlusion, role, frame, variant);
            step == 1 || step == -8
    ensures -4 <= Lane(Occlusion, role, frame, variant) - (15 + 220 * role) - Offset(variant) <= 4
  {
    NextInCycle(frame + role * 3, 11);
    NextInCycle(frame + role * 3 + variant, 9);
    StandingPlace(role, frame, variant);
    StandingPlace(role, frame + 1, variant);
  }

  lemma {:induction false} StandingPlace(role: Role, frame: nat, variant: nat)
    requires role < 3
    ensures Lane(StationaryCamera, role, frame, variant) ==
            20 + 215 * role + Offset(variant) + (frame + role * 3) % 11 - 5
    ensures Lane(Occlusion, role, frame, variant) ==
            15 + 220 * role + Offset(variant) + (frame + role * 3 + variant) % 9 - 4
  {}

  // Every object is three frames ahead of the one before; behind a mask a variant is one frame ahead of
  // the one before as well.
  lemma {:induction false} StandingPhases(role: Role, frame: nat, variant: nat)
    requires role < 3
    ensures Lane(StationaryCamera, role, frame, variant) ==
            Lane(StationaryCamera, 0, frame + 3 * role, variant) + 215 * role
    ensures Lane(Occlusion, role, frame, variant) == Lane(Occlusion, 0, frame + 3 * role, variant) + 220 * role
    ensures Lane(StationaryCamera, role, frame, variant) - Offset(variant) == Lane(StationaryCamera, role, frame, 0) + 4
    ensures Lane(Occlusion, role, frame, variant) - Offset(variant) == Lane(Occlusion, role, frame + variant, 0) + 4
    ensures Lane(StationaryCamera, 0, 0, 0) == Lane(Occlusion, 0, 0, 0) + 4 == 11
  {
    StandingPlace(role, frame, variant);
    StandingPlace(0, frame + 3 * role, variant);
    StandingPlace(role, frame, 0);
    StandingPlace(role, frame + variant, 0);
  }

  // A moving camera moves all three alike, up to the edges of the canvas.
  lemma {:induction false} CameraLanes(frame: nat, variant: nat)
    ensures Lane(CameraMotion, 1, frame, variant) == 235 + CameraShift(frame, variant) + Offset(variant)
    ensures Lane(CameraMotion, 0, frame, variant) == Max(0, Lane(CameraMotion, 1, frame, variant) - 200)
    ensures Lane(CameraMotion, 2, frame, variant) == Min(470, Lane(CameraMotion, 1, frame, variant) + 200)
  {
    CameraJerks(frame, variant);
  }

  // Its shift grows by three pixels a frame within twenty, under jerks to the left and right in turn.
  lemma {:induction false} CameraJerks(frame: nat, variant: nat)
    ensures var jerk := CameraShift(frame, variant) - 3 * (frame % 20) + 30;
            if (frame + variant) % 2 == 0 then -9 <= jerk <= -4 else 5 <= jerk <= 9
  {
    Halves(frame + variant);
  }

  // The jerks repeat after eight frames, the whole shift after forty.
  lemma {:induction false} CameraRepeats(frame: nat, variant: nat)
    ensures frame % 20 < 12 ==> CameraShift(frame + 8, variant) == CameraShift(frame, variant) + 24
    ensures CameraShift(frame + 40, variant) == CameraShift(frame, variant)
  {
    RestOf(frame + variant, 8, 1);
    RestOf(frame + variant, 8, 5);
    RestOf(frame, 20, 2);
    if frame % 20 < 12 { QuotientIs(frame + 8, 20, frame / 20); }
  }

  lemma {:induction false} RestOf(n: nat, m: nat, k: nat)
    requires m > 0
    ensures (n + k * m) % m == n % m
  {
    assert n + k * m == (n / m + k) * m + n % m;
    QuotientIs(n + k * m, m, n / m + k);
  }

  // The objects of a dense crossing stand on three baselines, a pair on each; the three others stand 30
  // rows apart.
  lemma {:induction false} Baselines(scenario: Scenario, role: Role)
    ensures scenario.DenseCrossing? ==> Bottom(scenario, role) == 115 + 120 * (role / 2)
    ensures !scenario.DenseCrossing? && role < 3 ==> Bottom(scenario, role) == 344 - 30 * role
  {}

  // Between cuts the first two objects meet at six pixels a frame and the third moves right by two until
  // it reaches the edge; every cut puts them back.
  lemma {:induction false} CutsLanes(frame: nat, variant: nat)
    ensures frame % 20 < 19 ==>
      && Lane(Cuts, 0, frame + 1, variant) == Lane(Cuts, 0, frame, variant) + 3
      && Lane(Cuts, 1, frame + 1, variant) == Lane(Cuts, 1, frame, variant) - 3
      && Lane(Cuts, 2, frame + 1, variant) == Min(470, Lane(Cuts, 2, frame, variant) + 2)
    ensures frame % 20 == 0 ==>
      forall role: Role :: role < 3 ==> Lane(Cuts, role, frame, variant) == 25 + 210 * role + Offset(variant)
  {
    NextInCycle(frame, 20);
    CutsPlace(frame, variant);
    CutsPlace(frame + 1, variant);
  }

  lemma {:induction false} CutsPlace(frame: nat, variant: nat)
    ensures Lane(Cuts, 0, frame, variant) == 25 + 3 * (frame % 20) + Offset(variant)
    ensures Lane(Cuts, 1, frame, variant) == 235 - 3 * (frame % 20) + Offset(variant)
    ensures Lane(Cuts, 2, frame, variant) == Min(470, 445 + 2 * (frame % 20) + Offset(variant))
  {}

  // In a dense crossing the objects of a pair mirror each other: each goes from one edge to the other in
  // the first thirty frames and back in the next.
  lemma {:induction false} CrossingLanes(role: Role, frame: nat, variant: nat, width: int)
    requires 0 < width <= 600 && frame < 60 && role % 2 == 0
    ensures Left(DenseCrossing, role, frame, variant, width) + Left(DenseCrossing, role + 1, frame, variant, width)
            == WIDTH - width + 2 * Offset(variant)
    ensures Left(DenseCrossing, role, 59 - frame, variant, width) == Left(DenseCrossing, role, frame, variant, width)
    ensures frame == 0 ==> Left(DenseCrossing, role, frame, variant, width) == 8 + Offset(variant)
    ensures frame == 29 ==>
      Left(DenseCrossing, role, frame, variant, width) + width == WIDTH - 8 + Offset(variant)
  {
    var progress := if frame < 30 then frame else 59 - frame;
    CrossingStep(WIDTH - 16 - width, progress);
  }

  lemma {:induction false} CrossingStep(travel: nat, progress: nat)
    requires progress <= 29
    ensures 0 <= travel * progress / 29 <= travel
    ensures progress == 0 ==> travel * progress / 29 == 0
    ensures progress == 29 ==> travel * progress / 29 == travel
  {
    Product(progress, 29, travel);
  }

  function Boxes(scenario: Scenario, frame: nat, variant: nat, heights: seq<int>): (r: seq<Box>)
    requires |heights| == 3
    ensures |r| == 3
  {
    [BoxFor(scenario, 0, frame, variant, TARGET_WIDTH, heights[0]),
     BoxFor(scenario, 1, frame, variant, TARGET_WIDTH, heights[1]),
     BoxFor(scenario, 2, frame, variant, TARGET_WIDTH, heights[2])]
  }

  ghost predicate AllApart(boxes: seq<Box>) {
    forall i, j :: 0 <= i < j < |boxes| ==> Disjoint(boxes[i], boxes[j])
  }

  // The annotation reports these objects as fully visible without computing anything.  That is
  // exact in the disjoint scenarios, and in cut clips exactly while the first two lanes are
  // apart or the first object is at most 30 rows high.
  lemma {:induction false} BoxesApart(scenario: Scenario, frame: nat, variant: nat, heights: seq<int>)
    requires |heights| == 3 && forall i :: 0 <= i < 3 ==> heights[i] > 0
    requires !scenario.DenseCrossing?
    ensures AllApart(Boxes(scenario, frame, variant, heights)) <==>
            scenario.Cuts? ==> frame % 20 <= 6 || heights[0] <= 30
  {
    var boxes := Boxes(scenario, frame, variant, heights);
    if scenario.Cuts? {
      CutLanes(frame, variant);
      if !(frame % 20 <= 6 || heights[0] <= 30) {
        var x, y := boxes[1].left, 313;
        assert InBox(boxes[0], x, y) && InBox(boxes[1], x, y) by { OverlapWitness(frame, variant, heights); }
        assert !Disjoint(boxes[0], boxes[1]);
      }
    } else {
      LanesAreDisjoint(scenario, frame, variant);
    }
  }

  lemma {:induction false} OverlapWitness(frame: nat, variant: nat, heights: seq<int>)
    requires |heights| == 3 && heights[0] > 30 && heights[1] > 0 && frame % 20 > 6
    ensures var a := BoxFor(Cuts, 0, frame, variant, TARGET_WIDTH, heights[0]);
            var b := BoxFor(Cuts, 1, frame, variant, TARGET_WIDTH, heights[1]);
            InBox(a, b.left, 313) && InBox(b, b.left, 313)
  {}

  // What full annotated visibility means for painted pixels.
  ghost predicate FullyPainted(boxes: seq<Box>) {
    forall i :: 0 <= i < |boxes| ==> VisiblePixels(boxes[i], boxes[i + 1..]) == Area(boxes[i])
  }

  lemma {:induction false} ApartIsFullyPainted(boxes: seq<Box>)
    requires forall i :: 0 <= i < |boxes| ==> boxes[i].left < boxes[i].right && boxes[i].top < boxes[i].bottom
    ensures FullyPainted(boxes) <==> AllApart(boxes)
  {
    forall i | 0 <= i < |boxes|
      ensures VisiblePixels(boxes[i], boxes[i + 1..]) == Area(boxes[i]) <==>
              forall j :: i < j < |boxes| ==> Disjoint(boxes[i], boxes[j])
    {
      var rest := boxes[i + 1..];
      FullyVisible(boxes[i], rest);
      if forall x, y :: InBox(boxes[i], x, y) ==> !Covers(rest)(x, y) {
        forall j | i < j < |boxes| ensures Disjoint(boxes[i], boxes[j]) {
          forall x, y | InBox(boxes[i], x, y) ensures !InBox(boxes[j], x, y) {
            assert !Covers(rest)(x, y);
            assert rest[j - i - 1] == boxes[j];
          }
        }
      }
      if forall j :: i < j < |boxes| ==> Disjoint(boxes[i], boxes[j]) {
        forall x, y | InBox(boxes[i], x, y) ensures !Covers(rest)(x, y) {
          forall k | 0 <= k < |rest| ensures !InBox(rest[k], x, y) {
            assert rest[k] == boxes[i + 1 + k];
            assert Disjoint(boxes[i], boxes[i + 1 + k]);
          }
        }
      }
    }
  }

  // The reported 1,000,000 millionths agree with the painted frame exactly under that condition.
  lemma {:induction false} ReportedVisibilityIsExact(scenario: Scenario, frame: nat, variant: nat, heights: seq<int>)
    requires |heights| == 3 && forall i :: 0 <= i < 3 ==> heights[i] > 0
    requires !scenario.DenseCrossing?
    ensures FullyPainted(Boxes(scenario, frame, variant, heights)) <==>
            scenario.Cuts? ==> frame % 20 <= 6 || heights[0] <= 30
  {
    BoxesApart(scenario, frame, variant, heights);
    ApartIsFullyPainted(Boxes(scenario, frame, variant, heights));
  }

  // ----- occlusion masks -----

  function PartialCover(b: Box): Box {
    var third := Max(1, Width(b) / 3);
    Box(b.left + third, b.top, Min(b.right, b.left + 2 * third), b.bottom)
  }

  // A partial mask hides the middle 56 of 170 columns: 670,588 millionths stay visible.
  lemma {:induction false} PartialMask(b: Box)
    requires Width(b) == TARGET_WIDTH && b.top < b.bottom
    ensures PartialCover(b) == Box(b.left + 56, b.top, b.left + 112, b.bottom)
    ensures VisiblePixels(b, [PartialCover(b)]) == 114 * Height(b)
    ensures Area(b) > 0 && Share(VisiblePixels(b, [PartialCover(b)]), Area(b)) == 670_588
  {
    var cover := PartialCover(b);
    FullyVisible(b, [cover]);
    forall x, y ensures Covers([cover])(x, y) <==> InBox(cover, x, y) {
      assert [cover][0] == cover;
    }
    var all: Region := (x: int, y: int) => true;
    RectRestricts(b, cover, Covers([cover]));
    RectSame(cover, Covers([cover]), all);
    RectAll(cover, all);
    var h := Height(b);
    assert Area(cover) == 56 * h && Area(b) == 170 * h;
    assert 114 * h * MILLION == 670_588 * (170 * h) + 40 * h;
    QuotientIs(114 * h * MILLION, 170 * h, 670_588);
  }

  predicate Missing(role: int, frame: nat) {
    if role == 0 then frame == 20 else if role == 1 then 20 <= frame <= 22 else 20 <= frame <= 24
  }

  predicate Partial(role: int, frame: nat) {
    if role == 0 then frame == 19 || frame == 21
    else if role == 1 then frame == 19 || frame == 23
    else frame == 19 || frame == 25
  }

  // From frame 20 on the objects are hidden for one, three and five frames; in the frame before and the
  // one after they are partly so.
  lemma {:induction false} MaskFrames(role: int, frame: nat)
    requires 0 <= role < 3
    ensures Missing(role, frame) <==> 20 <= frame <= 20 + 2 * role
    ensures Partial(role, frame) <==>
            !Missing(role, frame) && (Missing(role, frame + 1) || (frame > 0 && Missing(role, frame - 1)))
  {}

  // A partial mask is the second third of the box, over its whole height.
  lemma {:induction false} CoverMeaning(b: Box)
    requires Width(b) >= 2
    ensures var cover := PartialCover(b); var third := cover.left - b.left;
            && cover.top == b.top && cover.bottom == b.bottom
            && Width(cover) == third >= 1 && cover.right <= b.right
            && (Width(b) >= 3 ==> 3 * third <= Width(b) < 3 * third + 3)
  {}

  // ----- the annotation loop -----

  datatype Annotation = Annotation(role: int, visibility: nat)

  ghost predicate Proper(boxes: seq<Box>) {
    forall i :: 0 <= i < |boxes| ==>
      boxes[i].left < boxes[i].right && boxes[i].top < boxes[i].bottom && Area(boxes[i]) > 0
  }

  // The visibility a frame must report of its i-th drawn object.
  ghost function Reported(scenario: Scenario, frame: nat, roles: seq<int>, boxes: seq<Box>, i: nat): nat
    requires i < |roles| == |boxes| && Proper(boxes)
  {
    if scenario.DenseCrossing? then Share(VisiblePixels(boxes[i], boxes[i + 1..]), Area(boxes[i]))
    else if scenario.Occlusion? && Partial(roles[i], frame) then
      Share(VisiblePixels(boxes[i], [PartialCover(boxes[i])]), Area(boxes[i]))
    else MILLION
  }

  ghost predicate Listed(scenario: Scenario, frame: nat, roles: seq<int>, boxes: seq<Box>, i: nat)
    requires i < |roles| == |boxes| && Proper(boxes)
  {
    !(scenario.Occlusion? && Missing(roles[i], frame)) && Reported(scenario, frame, roles, boxes, i) > 0
  }

  ghost predicate TooHidden(scenario: Scenario, frame: nat, roles: seq<int>, boxes: seq<Box>, i: nat)
    requires i < |roles| == |boxes| && Proper(boxes)
  {
    scenario.DenseCrossing? && Reported(scenario, frame, roles, boxes, i) < DENSE_MIN_VISIBILITY
  }

  // Roles in drawing order with their boxes.  Dense crossings fail exactly when some object
  // keeps less than a quarter of its pixels; otherwise the annotation lists, in order, exactly
  // the roles that are not fully occluded and keep a millionth of their pixels.
  method Annotate(scenario: Scenario, frame: nat, roles: seq<int>, boxes: seq<Box>)
    returns (r: Result<seq<Annotation>, string>, listed: seq<nat>)
    requires |roles| == |boxes| && Proper(boxes)
    ensures r.Err? <==> exists i :: 0 <= i < |boxes| && TooHidden(scenario, frame, roles, boxes, i)
    ensures r.Ok? ==> |listed| == |r.value|
    ensures r.Ok? ==> forall k :: 0 <= k < |listed| ==> listed[k] < |roles|
    ensures r.Ok? ==> forall k :: 0 <= k < |listed| ==>
            r.value[k] == Annotation(roles[listed[k]], Reported(scenario, frame, roles, boxes, listed[k]))
    ensures r.Ok? ==> forall k, l :: 0 <= k < l < |listed| ==> listed[k] < listed[l]
    ensures r.Ok? ==> forall i :: 0 <= i < |roles| ==> (i in listed <==> Listed(scenario, frame, roles, boxes, i))
  {
    var objects: seq<Annotation> := [];
    listed := [];
    for i := 0 to |roles|
      invariant forall k :: 0 <= k < i ==> !TooHidden(scenario, frame, roles, boxes, k)
      invariant |listed| == |objects|
      invariant forall k :: 0 <= k < |listed| ==> listed[k] < i
      invariant forall k :: 0 <= k < |listed| ==>
        objects[k] == Annotation(roles[listed[k]], Reported(scenario, frame, roles, boxes, listed[k]))
      invariant forall k, l :: 0 <= k < l < |listed| ==> listed[k] < listed[l]
      invariant forall k :: 0 <= k < i ==> (k in listed <==> Listed(scenario, frame, roles, boxes, k))
    {
      var role, b := roles[i], boxes[i];
      if scenario.Occlusion? && Missing(role, frame) { continue; }
      var visibility := MILLION;
      if scenario.DenseCrossing? {
        visibility := VisibilityMillionths(b, boxes[i + 1..]);
        if visibility < DENSE_MIN_VISIBILITY {
          assert TooHidden(scenario, frame, roles, boxes, i);
          return Err("dense_visibility_too_low"), listed;
        }
      } else if scenario.Occlusion? && Partial(role, frame) {
        visibility := VisibilityMillionths(b, [PartialCover(b)]);
      }
      if visibility > 0 {
        objects := objects + [Annotation(role, visibility)];
        listed := listed + [i];
      }
    }
    return Ok(objects), listed;
  }

  // ----- the moving background -----

  // The last `offset` bytes move to the front.
  function Rotated(row: seq<Byte>, offset: nat): (r: seq<Byte>)
    requires offset <= |row|
    ensures |r| == |row|
  {
    row[|row| - offset..] + row[..|row| - offset]
  }

  lemma {:induction false} RotateBack(row: seq<Byte>, offset: nat)
    requires offset <= |row|
    ensures Rotated(Rotated(row, offset), |row| - offset) == row
  {
    var r := Rotated(row, offset);
    assert r[offset..] == row[..|row| - offset] && r[..offset] == row[|row| - offset..];
  }

  // `_shift_rows`: every row turns right by `shift` pixels; a negative shift turns it left.
  function Turned(row: seq<Byte>, shift: int): (r: seq<Byte>)
    requires |row| == WIDTH * 3
    ensures |r| == |row|
  {
    Rotated(row, shift % WIDTH * 3)
  }

  // Pixel x of a turned row is pixel (x - shift) mod WIDTH of the original.
  lemma {:induction false} TurnedPixel(row: seq<Byte>, shift: int, x: nat, c: nat)
    requires |row| == WIDTH * 3 && x < WIDTH && c < 3
    ensures Turned(row, shift)[3 * x + c] == row[3 * ((x - shift) % WIDTH) + c]
  {
    var s := shift % WIDTH;
    assert (x - shift) % WIDTH == if x < s then x - s + WIDTH else x - s;
  }

  // Turning back restores the row.
  lemma {:induction false} TurnBack(row: seq<Byte>, shift: int)
    requires |row| == WIDTH * 3
    ensures Turned(Turned(row, shift), -shift) == row
  {
    var s := shift % WIDTH;
    NegatedShift(shift);
    if s == 0 {
      assert Rotated(row, 0) == row;
    } else {
      RotateBack(row, s * 3);
    }
  }

  lemma {:induction false} NegatedShift(shift: int)
    ensures (-shift) % WIDTH == if shift % WIDTH == 0 then 0 else WIDTH - shift % WIDTH
  {
    var q, s := shift / WIDTH, shift % WIDTH;
    assert shift == q * WIDTH + s;
    if s == 0 { RemainderIs(-shift, WIDTH, -q, 0); } else { RemainderIs(-shift, WIDTH, -q - 1, WIDTH - s); }
  }

  method ShiftRows(pixels: seq<Byte>, shift: int) returns (output: seq<Byte>)
    requires |pixels| == WIDTH * HEIGHT * 3
    ensures |output| == |pixels|
    ensures forall y :: 0 <= y < HEIGHT ==>
            output[y * (WIDTH * 3)..(y + 1) * (WIDTH * 3)]
              == Turned(pixels[y * (WIDTH * 3)..(y + 1) * (WIDTH * 3)], shift)
  {
    output := [];
    for y := 0 to HEIGHT
      invariant |output| == y * (WIDTH * 3)
      invariant forall k :: 0 <= k < y ==>
        output[k * (WIDTH * 3)..(k + 1) * (WIDTH * 3)] == Turned(pixels[k * (WIDTH * 3)..(k + 1) * (WIDTH * 3)], shift)
    {
      ghost var before := output;
      var row := Turned(pixels[y * (WIDTH * 3)..(y + 1) * (WIDTH * 3)], shift);
      output := output + row;
      forall k | 0 <= k < y + 1
        ensures output[k * (WIDTH * 3)..(k + 1) * (WIDTH * 3)]
                == Turned(pixels[k * (WIDTH * 3)..(k + 1) * (WIDTH * 3)], shift)
      {
        if k < y {
          assert output[k * (WIDTH * 3)..(k + 1) * (WIDTH * 3)] == before[k * (WIDTH * 3)..(k + 1) * (WIDTH * 3)];
        }
      }
    }
  }
}
