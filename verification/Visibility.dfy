// Painter's order and visible pixels (prepare_v02_tracking_dataset.py).
module Visibility {
  import opened Arithmetic
  import opened Geometry
  import opened PixelCounts
  import opened Bytes
  import opened Pixels

  const WIDTH := 640
  const HEIGHT := 360
  const MILLION := 1_000_000

  // ----- painter's order -----

  function Covers(boxes: seq<Box>): Region {
    (x: int, y: int) => exists i :: 0 <= i < |boxes| && InBox(boxes[i], x, y)
  }

  function Uncovered(boxes: seq<Box>): Region {
    (x: int, y: int) => !Covers(boxes)(x, y)
  }

  function Inside(b: Box, p: Region): Region {
    (x: int, y: int) => InBox(b, x, y) && p(x, y)
  }

  // The box drawn last over a pixel, or -1.
  function LastPainter(boxes: seq<Box>, x: int, y: int): int {
    if boxes == [] then -1
    else if InBox(boxes[|boxes| - 1], x, y) then |boxes| - 1
    else LastPainter(boxes[..|boxes| - 1], x, y)
  }

  function OwnedBy(boxes: seq<Box>, i: int): Region {
    (x: int, y: int) => LastPainter(boxes, x, y) == i
  }

  // The pixels of object i that no later object covers.
  function VisiblePixels(b: Box, occluders: seq<Box>): nat {
    CountRect(b, Uncovered(occluders))
  }

  lemma {:induction false} LastPainterRange(boxes: seq<Box>, x: int, y: int)
    ensures -1 <= LastPainter(boxes, x, y) < |boxes|
    ensures LastPainter(boxes, x, y) == -1 <==> !Covers(boxes)(x, y)
  {
    if boxes == [] {
    } else {
      var init, last := boxes[..|boxes| - 1], boxes[|boxes| - 1];
      LastPainterRange(init, x, y);
      assert boxes == init + [last];
      CoversAppend(init, last, x, y);
    }
  }

  lemma {:induction false} LastPainterAt(boxes: seq<Box>, x: int, y: int, i: nat)
    requires i < |boxes|
    ensures LastPainter(boxes, x, y) == i <==> InBox(boxes[i], x, y) && !Covers(boxes[i + 1..])(x, y)
  {
    var init, last := boxes[..|boxes| - 1], boxes[|boxes| - 1];
    LastPainterRange(init, x, y);
    if i == |init| {
    } else {
      LastPainterAt(init, x, y, i);
      assert boxes[i + 1..] == init[i + 1..] + [last];
      CoversAppend(init[i + 1..], last, x, y);
    }
  }

  lemma {:induction false} LastPainterMeaning(boxes: seq<Box>, x: int, y: int)
    ensures -1 <= LastPainter(boxes, x, y) < |boxes|
    ensures LastPainter(boxes, x, y) == -1 <==> !Covers(boxes)(x, y)
    ensures forall i :: 0 <= i < |boxes| ==>
      (LastPainter(boxes, x, y) == i <==> InBox(boxes[i], x, y) && !Covers(boxes[i + 1..])(x, y))
  {
    LastPainterRange(boxes, x, y);
    forall i | 0 <= i < |boxes|
      ensures LastPainter(boxes, x, y) == i <==> InBox(boxes[i], x, y) && !Covers(boxes[i + 1..])(x, y)
    {
      LastPainterAt(boxes, x, y, i);
    }
  }

  lemma {:induction false} CoversAppend(boxes: seq<Box>, last: Box, x: int, y: int)
    ensures Covers(boxes + [last])(x, y) <==> Covers(boxes)(x, y) || InBox(last, x, y)
  {
    var all := boxes + [last];
    if Covers(boxes)(x, y) {
      var k :| 0 <= k < |boxes| && InBox(boxes[k], x, y);
      assert InBox(all[k], x, y);
    }
    if InBox(last, x, y) { assert InBox(all[|boxes|], x, y); }
  }

  // The count from later-drawn boxes is the number of pixels the object is the last to paint.
  lemma {:induction false} VisibleIsOwned(boxes: seq<Box>, i: nat)
    requires i < |boxes|
    ensures VisiblePixels(boxes[i], boxes[i + 1..]) == CountRect(boxes[i], OwnedBy(boxes, i))
  {
    forall x, y | InBox(boxes[i], x, y) ensures Uncovered(boxes[i + 1..])(x, y) == OwnedBy(boxes, i)(x, y) {
      LastPainterMeaning(boxes, x, y);
    }
    RectSame(boxes[i], Uncovered(boxes[i + 1..]), OwnedBy(boxes, i));
  }

  function VisibleTotal(boxes: seq<Box>): nat {
    if boxes == [] then 0 else VisiblePixels(boxes[0], boxes[1..]) + VisibleTotal(boxes[1..])
  }

  ghost predicate AllFit(boxes: seq<Box>, width: int, height: int) {
    forall i :: 0 <= i < |boxes| ==> BoxFits(boxes[i], width, height)
  }

  // Conservation: over any boxes on any canvas the visible counts add up to the area painted.
  lemma {:induction false} VisibleCountsAddUp(boxes: seq<Box>, width: int, height: int)
    requires AllFit(boxes, width, height) && width >= 0 && height >= 0
    ensures VisibleTotal(boxes) == CountRect(Box(0, 0, width, height), Covers(boxes))
  {
    var canvas := Box(0, 0, width, height);
    if boxes == [] {
      RectNone(canvas, Covers(boxes));
    } else {
      var b, rest := boxes[0], boxes[1..];
      VisibleCountsAddUp(rest, width, height);
      var own := Inside(b, Uncovered(rest));
      forall x, y | InBox(canvas, x, y)
        ensures Covers(boxes)(x, y) == (own(x, y) || Covers(rest)(x, y)) && !(own(x, y) && Covers(rest)(x, y))
      {
      }
      RectAdds(canvas, own, Covers(rest), Covers(boxes));
      RectRestricts(canvas, b, own);
      RectSame(b, own, Uncovered(rest));
    }
  }

  // An object is fully visible exactly when no later object touches it.
  lemma {:induction false} FullyVisible(b: Box, occluders: seq<Box>)
    requires b.left <= b.right && b.top <= b.bottom
    ensures VisiblePixels(b, occluders) == Area(b) <==> forall x, y :: InBox(b, x, y) ==> !Covers(occluders)(x, y)
    ensures VisiblePixels(b, occluders) + CountRect(b, Covers(occluders)) == Area(b)
  {
    var all: Region := (x: int, y: int) => true;
    RectAll(b, all);
    RectAdds(b, Uncovered(occluders), Covers(occluders), all);
    RectNone(b, Covers(occluders));
  }

  // ----- the marking loop -----

  // Where a pixel of the box is marked.
  function Cell(b: Box, x: int, y: int): int {
    (y - b.top) * Width(b) + (x - b.left)
  }

  lemma {:induction false} CellWithin(b: Box, x: int, y: int)
    requires InBox(b, x, y)
    ensures 0 <= Cell(b, x, y) < Width(b) * Height(b)
  {
    RowOrder(Width(b), y - b.top, Height(b));
    assert Height(b) * Width(b) == Width(b) * Height(b);
  }

  lemma {:induction false} CellSpan(b: Box, left: int, right: int, row: int, x: int, y: int)
    requires InBox(b, x, y) && b.top <= row < b.bottom && b.left <= left <= right <= b.right
    ensures Cell(b, left, row) <= Cell(b, x, y) < Cell(b, right, row) <==> y == row && left <= x < right
  {
    if y < row {
      RowOrder(Width(b), y - b.top, row - b.top);
    } else if row < y {
      RowOrder(Width(b), row - b.top, y - b.top);
    }
  }

  ghost predicate Marks(covered: seq<Byte>, b: Box, p: Region) {
    |covered| == Width(b) * Height(b) &&
    forall x, y {:trigger Cell(b, x, y)} :: InBox(b, x, y) ==>
      0 <= Cell(b, x, y) < |covered| && covered[Cell(b, x, y)] == One(p(x, y))
  }

  // A region extended by the first rows of a window.
  function Extended(p: Region, window: Box, rows: int): Region {
    (x: int, y: int) => p(x, y) || (InBox(window, x, y) && y < rows)
  }

  method MarkRow(covered: array<Byte>, b: Box, window: Box, y: int, ghost p: Region)
    requires covered.Length == Width(b) * Height(b) && BoxInside(window, b) && window.top <= y < window.bottom
    requires Marks(covered[..], b, Extended(p, window, y))
    modifies covered
    ensures Marks(covered[..], b, Extended(p, window, y + 1))
  {
    var start, end := Cell(b, window.left, y), Cell(b, window.right, y);
    CellWithin(b, window.left, y);
    CellWithin(b, window.right - 1, y);
    ghost var before := covered[..];
    for k := start to end
      invariant forall j :: 0 <= j < covered.Length ==> covered[j] == if start <= j < k then 1 else before[j]
    {
      covered[k] := 1;
    }
    forall i, j {:trigger Cell(b, i, j)} | InBox(b, i, j)
      ensures 0 <= Cell(b, i, j) < covered.Length && covered[Cell(b, i, j)] == One(Extended(p, window, y + 1)(i, j))
    {
      CellWithin(b, i, j);
      CellSpan(b, window.left, window.right, y, i, j);
      assert before[Cell(b, i, j)] == One(Extended(p, window, y)(i, j));
      assert InBox(window, i, y) <==> window.left <= i < window.right;
    }
  }

  predicate BoxInside(inner: Box, outer: Box) {
    outer.left <= inner.left < inner.right <= outer.right && outer.top <= inner.top < inner.bottom <= outer.bottom
  }

  method MarkOccluder(covered: array<Byte>, b: Box, occluders: seq<Box>, k: nat)
    requires covered.Length == Width(b) * Height(b) && k < |occluders|
    requires Marks(covered[..], b, Covers(occluders[..k]))
    modifies covered
    ensures Marks(covered[..], b, Covers(occluders[..k + 1]))
  {
    var o := occluders[k];
    var window := Box(Max(b.left, o.left), Max(b.top, o.top), Min(b.right, o.right), Min(b.bottom, o.bottom));
    ghost var p := Covers(occluders[..k]);
    assert occluders[..k + 1] == occluders[..k] + [o];
    forall x, y ensures Covers(occluders[..k + 1])(x, y) <==> p(x, y) || InBox(o, x, y) {
      CoversAppend(occluders[..k], o, x, y);
    }
    if window.left >= window.right || window.top >= window.bottom {
      return;
    }
    var y := window.top;
    while y < window.bottom
      invariant window.top <= y <= window.bottom
      invariant Marks(covered[..], b, Extended(p, window, y))
    {
      MarkRow(covered, b, window, y, p);
      y := y + 1;
    }
  }

  function SumBytes(s: seq<Byte>): nat {
    if s == [] then 0 else SumBytes(s[..|s| - 1]) + s[|s| - 1]
  }

  // Summing the marks row by row counts the region.
  lemma {:induction false} MarksSum(covered: seq<Byte>, b: Box, p: Region, rows: nat, columns: nat)
    requires Marks(covered, b, p) && Width(b) > 0 && rows <= Height(b) && columns <= Width(b)
    requires (rows == Height(b) ==> columns == 0)
    ensures rows * Width(b) + columns <= |covered|
    ensures SumBytes(covered[..rows * Width(b) + columns]) ==
            CountRect(b.(bottom := b.top + rows), p) + CountRow(b.left, b.left + columns, b.top + rows, p)
    decreases rows, columns
  {
    var n := rows * Width(b) + columns;
    if columns > 0 {
      MarksSum(covered, b, p, rows, columns - 1);
      assert InBox(b, b.left + columns - 1, b.top + rows) && Cell(b, b.left + columns - 1, b.top + rows) == n - 1;
      assert covered[..n][..n - 1] == covered[..n - 1];
    } else if rows > 0 {
      MarksSum(covered, b, p, rows - 1, Width(b));
      assert n == (rows - 1) * Width(b) + Width(b);
    }
  }

  // A part of a whole in millionths, rounded down.
  function Share(part: nat, whole: int): nat
    requires whole > 0
  {
    part * MILLION / whole
  }

  lemma {:induction false} ShareMeaning(part: nat, whole: nat)
    requires whole > 0
    ensures Share(part, whole) * whole <= part * 1_000_000 < (Share(part, whole) + 1) * whole
  {
    QuotientBounds(part * MILLION, whole);
    var q := Share(part, whole);
    assert (q + 1) * whole == q * whole + whole;
  }

  // `_visibility_millionths`.
  method VisibilityMillionths(b: Box, occluders: seq<Box>) returns (millionths: nat)
    requires b.left < b.right && b.top < b.bottom
    ensures Area(b) > 0 && millionths == Share(VisiblePixels(b, occluders), Area(b))
    ensures millionths * Area(b) <= VisiblePixels(b, occluders) * 1_000_000 < (millionths + 1) * Area(b)
  {
    var size := Width(b) * Height(b);
    CellWithin(b, b.left, b.top);
    var covered := new Byte[size](i => 0);
    assert Marks(covered[..], b, Covers(occluders[..0])) by { FreshMarks(covered[..], b, Covers(occluders[..0])); }
    for k := 0 to |occluders|
      invariant Marks(covered[..], b, Covers(occluders[..k]))
    {
      MarkOccluder(covered, b, occluders, k);
    }
    assert occluders[..|occluders|] == occluders;
    var sum := SumBytes(covered[..]);
    AllMarks(covered[..], b, occluders);
    var visible := size - sum;
    ShareMeaning(VisiblePixels(b, occluders), Area(b));
    millionths := Share(visible, size);
  }

  lemma {:induction false} FreshMarks(covered: seq<Byte>, b: Box, p: Region)
    requires |covered| == Width(b) * Height(b) && (forall k :: 0 <= k < |covered| ==> covered[k] == 0)
    requires forall x, y :: !p(x, y)
    ensures Marks(covered, b, p)
  {
    forall x, y {:trigger Cell(b, x, y)} | InBox(b, x, y) ensures 0 <= Cell(b, x, y) < |covered| {
      CellWithin(b, x, y);
    }
  }

  lemma {:induction false} AllMarks(covered: seq<Byte>, b: Box, occluders: seq<Box>)
    requires Marks(covered, b, Covers(occluders)) && b.left < b.right && b.top < b.bottom
    ensures Width(b) * Height(b) - SumBytes(covered) == VisiblePixels(b, occluders)
  {
    MarksSum(covered, b, Covers(occluders), Height(b), 0);
    assert Height(b) * Width(b) == |covered| && covered[..|covered|] == covered;
    FullyVisible(b, occluders);
  }

  // ----- painting the objects -----

  // Every pixel shows the chip of its last painter, or the background.
  ghost predicate Layered(canvas: seq<Byte>, background: seq<Byte>, chips: seq<seq<Byte>>, boxes: seq<Box>)
    requires |canvas| == |background| == WIDTH * HEIGHT * 3 && |chips| == |boxes|
  {
    forall x: nat, y: nat, c: nat {:trigger Index(WIDTH, x, y, c)} :: OnCanvas(WIDTH, HEIGHT, x, y, c) ==>
      Index(WIDTH, x, y, c) < |canvas| &&
      var k := LastPainter(boxes, x, y);
      canvas[Index(WIDTH, x, y, c)] ==
        if 0 <= k < |boxes| then ChipColor(chips[k], boxes[k])(x, y, c) else background[Index(WIDTH, x, y, c)]
  }

  lemma {:induction false} LayerAdded(
    after: seq<Byte>, before: seq<Byte>, background: seq<Byte>, chips: seq<seq<Byte>>, boxes: seq<Box>,
    chip: seq<Byte>, b: Box)
    requires |after| == |before| == |background| == WIDTH * HEIGHT * 3 && |chips| == |boxes|
    requires Layered(before, background, chips, boxes)
    requires Painted(after, before, WIDTH, HEIGHT, b, b.bottom, ChipColor(chip, b))
    ensures Layered(after, background, chips + [chip], boxes + [b])
  {
    assert (boxes + [b])[..|boxes|] == boxes;
    forall x: nat, y: nat, c: nat {:trigger Index(WIDTH, x, y, c)} | OnCanvas(WIDTH, HEIGHT, x, y, c)
      ensures Index(WIDTH, x, y, c) < |after| &&
        var k := LastPainter(boxes + [b], x, y);
        after[Index(WIDTH, x, y, c)] ==
          if 0 <= k < |boxes| + 1 then ChipColor((chips + [chip])[k], (boxes + [b])[k])(x, y, c)
            else background[Index(WIDTH, x, y, c)]
    {
      LastPainterMeaning(boxes, x, y);
    }
  }

  method PaintObjects(canvas: array<Byte>, chips: seq<seq<Byte>>, boxes: seq<Box>)
    requires canvas.Length == WIDTH * HEIGHT * 3 && |chips| == |boxes| && AllFit(boxes, WIDTH, HEIGHT)
    requires forall i :: 0 <= i < |boxes| ==> |chips[i]| == Width(boxes[i]) * Height(boxes[i]) * 3
    modifies canvas
    ensures Layered(canvas[..], old(canvas[..]), chips, boxes)
  {
    ghost var background := canvas[..];
    for i := 0 to |boxes|
      invariant Layered(canvas[..], background, chips[..i], boxes[..i])
    {
      ghost var before := canvas[..];
      var ok := Paste(canvas, WIDTH, HEIGHT, chips[i], Width(boxes[i]), Height(boxes[i]), boxes[i]);
      LayerAdded(canvas[..], before, background, chips[..i], boxes[..i], chips[i], boxes[i]);
      assert chips[..i + 1] == chips[..i] + [chips[i]] && boxes[..i + 1] == boxes[..i] + [boxes[i]];
    }
    assert chips[..|chips|] == chips && boxes[..|boxes|] == boxes;
  }

}
