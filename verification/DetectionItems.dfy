// Composing one detection item (prepare_v02_detection_dataset.py, `compose_item`).
module DetectionItems {
  import opened Arithmetic
  import opened Geometry
  import opened Bytes
  import opened Pixels
  import opened Resize
  import Ppm

  datatype Stratum = Easy | SmallDistant
  datatype Limits = Limits(easyWidth: nat, easyHeight: nat, smallWidth: nat, smallHeight: nat)

  // The limits the manifest validator admits for its fixed canvas of 640 by 360 pixels.
  const CANVAS_WIDTH: nat := 640
  const CANVAS_HEIGHT: nat := 360

  predicate AdmittedLimits(l: Limits) {
    1 <= l.easyWidth <= 640 && 1 <= l.easyHeight <= 640 && 1 <= l.smallWidth <= 640 && 1 <= l.smallHeight <= 640
  }

  function Fitted(stratum: Stratum, limits: Limits, chipWidth: nat, chipHeight: nat): (nat, nat)
    requires chipWidth > 0 && chipHeight > 0
  {
    if stratum.Easy? then Fit(chipWidth, chipHeight, limits.easyWidth, limits.easyHeight)
    else Fit(chipWidth, chipHeight, limits.smallWidth, limits.smallHeight)
  }

  // Where the fitted object goes, from two bytes of the item's digest.
  function Placed(stratum: Stratum, width: nat, height: nat, seed: (Byte, Byte)): Box {
    var left :=
      if stratum.Easy? then (CANVAS_WIDTH - width) / 2 + seed.0 % 21 - 10
      else 70 + seed.0 * (CANVAS_WIDTH - width - 140) / 255;
    var top := if stratum.Easy? then CANVAS_HEIGHT - height - 12 else CANVAS_HEIGHT / 2 + 8 + seed.1 % 30;
    var x, y := Max(0, Min(CANVAS_WIDTH - width, left)), Max(0, Min(CANVAS_HEIGHT - height, top));
    Box(x, y, x + width, y + height)
  }

  // An object no larger than the canvas is placed inside it; a higher one starts at the top.
  lemma {:induction false} PlacedFits(stratum: Stratum, width: nat, height: nat, seed: (Byte, Byte))
    requires 1 <= width <= CANVAS_WIDTH && height >= 1
    ensures var b := Placed(stratum, width, height, seed);
            && Width(b) == width && Height(b) == height
            && 0 <= b.left && b.right <= CANVAS_WIDTH && 0 <= b.top <= CANVAS_HEIGHT
            && (BoxFits(b, CANVAS_WIDTH, CANVAS_HEIGHT) <==> height <= CANVAS_HEIGHT)
            && (height > CANVAS_HEIGHT ==> b.top == 0)
  {}

  // An easy object stands 12 rows above the lower edge, off the middle by up to ten pixels of the first
  // byte; a small one is spread by that byte between margins of 70 pixels, its upper edge 188 to 217
  // rows down.
  lemma {:induction false} PlacedMeaning(width: nat, height: nat, seed: (Byte, Byte))
    requires 1 <= width <= 500 && 1 <= height <= 143
    ensures var b := Placed(Easy, width, height, seed);
            && b.bottom == 348 && -22 <= b.left + b.right - 640 <= 20
            && (seed.0 == 10 ==> -1 <= b.left + b.right - 640 <= 0)
    ensures seed.0 < 20 ==>
            Placed(Easy, width, height, (seed.0 + 1, seed.1)).left == Placed(Easy, width, height, seed).left + 1
    ensures var b := Placed(SmallDistant, width, height, seed);
            && b.top == 188 + seed.1 % 30 && 70 <= b.left && b.right <= 570
            && (b.left - 70) * 255 <= seed.0 * (500 - width) < (b.left - 69) * 255
  {
    Product(0, seed.0, 500 - width);
    Product(seed.0, 255, 500 - width);
  }

  // Assigning to a slice of a byte array: what lies beyond the end is appended.
  function Spliced(canvas: seq<Byte>, start: nat, row: seq<Byte>): seq<Byte> {
    if start >= |canvas| then canvas + row
    else if start + |row| >= |canvas| then canvas[..start] + row
    else canvas[..start] + row + canvas[start + |row|..]
  }

  // How far the first `rows` rows of the box reach beyond the canvas.
  function Overflow(b: Box, rows: nat): nat {
    if b.top + rows > CANVAS_HEIGHT then Max(0, (b.top + rows - CANVAS_HEIGHT) * Width(b) * 3) else 0
  }

  // Row `row` of a chip as wide as the box.
  function ChipRow(chip: seq<Byte>, b: Box, row: nat): seq<Byte> {
    var from, length := row * Width(b) * 3, 3 * Width(b);
    if 0 <= from <= from + length <= |chip| then chip[from..from + length] else []
  }

  // The canvas after pasting one row.
  function WithRow(canvas: seq<Byte>, chip: seq<Byte>, b: Box, row: nat): seq<Byte>
    requires b.left >= 0 && b.top >= 0
  {
    Spliced(canvas, Index(CANVAS_WIDTH, b.left, b.top + row, 0), ChipRow(chip, b, row))
  }

  // A spliced row paints the row of the box, for any color the spliced bytes show.
  lemma {:induction false} SplicedPaints(
    canvas: seq<Byte>, was: seq<Byte>, b: Box, y: nat, part: seq<Byte>, color: (nat, nat, nat) -> int)
    requires |canvas| == |was| == CANVAS_WIDTH * CANVAS_HEIGHT * 3 && BoxFits(b, CANVAS_WIDTH, CANVAS_HEIGHT)
    requires b.top <= y < b.bottom
    requires RowShows(part, 0, b, y, color) && |part| == 3 * Width(b)
    requires Painted(canvas, was, CANVAS_WIDTH, CANVAS_HEIGHT, b, y, color)
    ensures var after := Spliced(canvas, Index(CANVAS_WIDTH, b.left, y, 0), part);
            |after| == |canvas| && Painted(after, was, CANVAS_WIDTH, CANVAS_HEIGHT, b, y + 1, color)
  {
    var w, start := Width(b), Index(CANVAS_WIDTH, b.left, y, 0);
    IndexWithin(CANVAS_WIDTH, CANVAS_HEIGHT, b.right - 1, y, 2);
    assert Index(CANVAS_WIDTH, b.right - 1, y, 2) == start + 3 * w - 1;
    RowPainted(was, canvas, Spliced(canvas, start, part), CANVAS_WIDTH, CANVAS_HEIGHT, b, y, part, 0, color);
  }

  lemma {:induction false} SplicedLength(canvas: seq<Byte>, b: Box, row: nat, part: seq<Byte>)
    requires 0 <= b.left < b.right <= CANVAS_WIDTH && b.top >= 0 && |part| == 3 * Width(b)
    requires |canvas| == CANVAS_WIDTH * CANVAS_HEIGHT * 3 + Overflow(b, row)
    ensures |Spliced(canvas, Index(CANVAS_WIDTH, b.left, b.top + row, 0), part)|
            == CANVAS_WIDTH * CANVAS_HEIGHT * 3 + Overflow(b, row + 1)
  {
    var y, w := b.top + row, Width(b);
    if y < CANVAS_HEIGHT {
      IndexWithin(CANVAS_WIDTH, CANVAS_HEIGHT, b.right - 1, y, 2);
      assert Index(CANVAS_WIDTH, b.left, y, 0) + 3 * w <= |canvas|;
    } else {
      var over := y - CANVAS_HEIGHT;
      assert over * w <= over * CANVAS_WIDTH by { Product(w, CANVAS_WIDTH, over); }
      assert Index(CANVAS_WIDTH, b.left, y, 0) >= |canvas|;
      assert (over + 1) * w * 3 == over * w * 3 + 3 * w;
    }
  }

  // The box lies on the canvas, save perhaps for rows below it.
  ghost predicate Hangs(b: Box) {
    0 <= b.left < b.right <= CANVAS_WIDTH && 0 <= b.top <= CANVAS_HEIGHT && b.top < b.bottom
  }

  // The first rows of the chip are in place, or appended when they lie below the canvas.
  ghost predicate PastedBelow(canvas: seq<Byte>, background: seq<Byte>, chip: seq<Byte>, b: Box, rows: nat)
    requires |background| == CANVAS_WIDTH * CANVAS_HEIGHT * 3
  {
    && |canvas| == CANVAS_WIDTH * CANVAS_HEIGHT * 3 + Overflow(b, rows)
    && (BoxFits(b, CANVAS_WIDTH, CANVAS_HEIGHT) ==>
          |canvas| == |background|
            && Painted(canvas, background, CANVAS_WIDTH, CANVAS_HEIGHT, b, b.top + rows, ChipColor(chip, b)))
  }

  lemma {:induction false} ChipRowInside(chip: seq<Byte>, b: Box, row: nat)
    requires Hangs(b) && row < Height(b) && |chip| == Width(b) * Height(b) * 3
    ensures |ChipRow(chip, b, row)| == 3 * Width(b)
    ensures RowShows(ChipRow(chip, b, row), 0, b, b.top + row, ChipColor(chip, b))
  {
    ChipRowShows(chip, b, row);
  }

  lemma {:induction false} WithRowLength(canvas: seq<Byte>, chip: seq<Byte>, b: Box, row: nat)
    requires Hangs(b) && row < Height(b) && |chip| == Width(b) * Height(b) * 3
    requires |canvas| == CANVAS_WIDTH * CANVAS_HEIGHT * 3 + Overflow(b, row)
    ensures |WithRow(canvas, chip, b, row)| == CANVAS_WIDTH * CANVAS_HEIGHT * 3 + Overflow(b, row + 1)
  {
    ChipRowInside(chip, b, row);
    SplicedLength(canvas, b, row, ChipRow(chip, b, row));
  }

  lemma {:induction false} WithRowPaints(canvas: seq<Byte>, was: seq<Byte>, chip: seq<Byte>, b: Box, row: nat)
    requires Hangs(b) && row < Height(b) && |chip| == Width(b) * Height(b) * 3
    requires |canvas| == |was| == CANVAS_WIDTH * CANVAS_HEIGHT * 3 && BoxFits(b, CANVAS_WIDTH, CANVAS_HEIGHT)
    requires Painted(canvas, was, CANVAS_WIDTH, CANVAS_HEIGHT, b, b.top + row, ChipColor(chip, b))
    ensures |WithRow(canvas, chip, b, row)| == |canvas|
    ensures Painted(WithRow(canvas, chip, b, row), was, CANVAS_WIDTH, CANVAS_HEIGHT,
                    b, b.top + row + 1, ChipColor(chip, b))
  {
    ChipRowInside(chip, b, row);
    SplicedPaints(canvas, was, b, b.top + row, ChipRow(chip, b, row), ChipColor(chip, b));
  }

  lemma {:induction false} PasteNext(canvas: seq<Byte>, background: seq<Byte>, chip: seq<Byte>, b: Box, row: nat)
    requires |background| == CANVAS_WIDTH * CANVAS_HEIGHT * 3 && Hangs(b) && row < Height(b)
    requires |chip| == Width(b) * Height(b) * 3
    requires PastedBelow(canvas, background, chip, b, row)
    ensures PastedBelow(WithRow(canvas, chip, b, row), background, chip, b, row + 1)
  {
    WithRowLength(canvas, chip, b, row);
    if BoxFits(b, CANVAS_WIDTH, CANVAS_HEIGHT) { WithRowPaints(canvas, background, chip, b, row); }
  }

  // The rows are pasted one by one into the byte array.
  method PasteRows(background: seq<Byte>, chip: seq<Byte>, b: Box) returns (canvas: seq<Byte>)
    requires |background| == CANVAS_WIDTH * CANVAS_HEIGHT * 3 && Hangs(b) && |chip| == Width(b) * Height(b) * 3
    ensures PastedBelow(canvas, background, chip, b, Height(b))
  {
    canvas := background;
    NothingPainted(background, CANVAS_WIDTH, CANVAS_HEIGHT, b, ChipColor(chip, b));
    for row := 0 to Height(b)
      invariant PastedBelow(canvas, background, chip, b, row)
    {
      PasteNext(canvas, background, chip, b, row);
      canvas := WithRow(canvas, chip, b, row);
    }
  }

  lemma {:induction false} OverflowIffHigh(b: Box)
    requires b.left < b.right && b.top >= 0
    ensures Overflow(b, Max(0, Height(b))) == 0 <==> b.top + Max(0, Height(b)) <= CANVAS_HEIGHT
  {}

  // The composed frame parses as a frame of the canvas size exactly when the fitted object is
  // no higher than the canvas, which the admitted limits do not guarantee; it then shows the
  // resized object in the annotated box over the background.
  method ComposeItem(stratum: Stratum, chipWidth: nat, chipHeight: nat, chip: seq<Byte>, limits: Limits,
                     seed: (Byte, Byte), background: seq<Byte>)
    returns (raw: seq<Byte>, box: Box, resized: seq<Byte>, canvas: seq<Byte>)
    requires Sized(chipWidth, chipHeight, chip) && AdmittedLimits(limits)
    requires |background| == CANVAS_WIDTH * CANVAS_HEIGHT * 3
    ensures var (width, height) := Fitted(stratum, limits, chipWidth, chipHeight);
            && width > 0 && height > 0 && box == Placed(stratum, width, height, seed)
            && IsResized(resized, chip, chipWidth, chipHeight, width, height)
            && (Ppm.Parse(raw).Ok? <==> height <= CANVAS_HEIGHT)
    ensures Ppm.Parse(raw).Ok? ==>
              && BoxFits(box, CANVAS_WIDTH, CANVAS_HEIGHT)
              && Ppm.Parse(raw).value == Ppm.Image(CANVAS_WIDTH, CANVAS_HEIGHT, canvas)
              && |canvas| == |background|
              && Painted(canvas, background, CANVAS_WIDTH, CANVAS_HEIGHT, box, box.bottom, ChipColor(resized, box))
  {
    var (width, height) := Fitted(stratum, limits, chipWidth, chipHeight);
    if stratum.Easy? {
      FitMeaning(chipWidth, chipHeight, limits.easyWidth, limits.easyHeight);
    } else {
      FitMeaning(chipWidth, chipHeight, limits.smallWidth, limits.smallHeight);
    }
    var r := ResizeRgb24(chip, chipWidth, chipHeight, width, height);
    resized := r.value;
    box := Placed(stratum, width, height, seed);
    PlacedFits(stratum, width, height, seed);
    canvas := PasteRows(background, resized, box);
    raw := Ppm.Write(CANVAS_WIDTH, CANVAS_HEIGHT, canvas);
    Ppm.WrittenReadsBack(CANVAS_WIDTH, CANVAS_HEIGHT, canvas);
    OverflowIffHigh(box);
  }

  // An admitted configuration that fails: a chip twice as high as wide, with both limits at
  // the admitted maximum, is fitted to 640 rows on a canvas of 360.
  lemma {:induction false} AdmittedLimitsCanFail(limits: Limits)
    requires limits == Limits(640, 640, 640, 640)
    ensures AdmittedLimits(limits) && Fitted(Easy, limits, 1, 2) == (320, 640)
  {}

  // Limits no higher than the canvas are enough for every chip, and necessary.
  lemma {:induction false} SafeHeights(stratum: Stratum, limits: Limits)
    requires AdmittedLimits(limits)
    ensures (if stratum.Easy? then limits.easyHeight else limits.smallHeight) <= CANVAS_HEIGHT <==>
            forall w: nat, h: nat :: w > 0 && h > 0 ==> Fitted(stratum, limits, w, h).1 <= CANVAS_HEIGHT
  {
    var maxWidth, maxHeight := if stratum.Easy? then limits.easyWidth else limits.smallWidth,
                               if stratum.Easy? then limits.easyHeight else limits.smallHeight;
    if maxHeight <= CANVAS_HEIGHT {
      forall w: nat, h: nat | w > 0 && h > 0 ensures Fitted(stratum, limits, w, h).1 <= CANVAS_HEIGHT {
        FitMeaning(w, h, maxWidth, maxHeight);
      }
    } else {
      assert Fitted(stratum, limits, 1, 640).1 > CANVAS_HEIGHT;
    }
  }

}
