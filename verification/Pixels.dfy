// Packed RGB24 buffers: row copies, crops, fills and pastes (prepare_v02_detection_dataset.py,
// prepare_v02_crop_dataset.py, prepare_v02_tracking_dataset.py).
module Pixels {
  import opened Wrappers
  import opened Geometry
  import opened Bytes

  // Where channel c of pixel (x, y) is stored.
  function Index(width: nat, x: nat, y: nat, c: nat): nat {
    (y * width + x) * 3 + c
  }

  predicate OnCanvas(width: nat, height: nat, x: nat, y: nat, c: nat) {
    x < width && y < height && c < 3
  }

  lemma {:induction false} RowOrder(width: nat, y: nat, r: nat)
    requires y < r
    ensures y * width + width <= r * width
  {
    assert (y + 1) * width <= r * width;
  }

  lemma {:induction false} IndexWithin(width: nat, height: nat, x: nat, y: nat, c: nat)
    requires OnCanvas(width, height, x, y, c)
    ensures 0 <= Index(width, x, y, c) < width * height * 3
  {
    RowOrder(width, y, height);
    assert height * width * 3 == width * height * 3;
  }

  // A stretch of whole pixels of one row contains exactly the channels of those pixels.
  lemma {:induction false} RowSpan(width: nat, left: nat, span: nat, row: nat, x: nat, y: nat, c: nat)
    requires left + span <= width && x < width && c < 3
    ensures Index(width, left, row, 0) <= Index(width, x, y, c) < Index(width, left, row, 0) + 3 * span
            <==> y == row && left <= x < left + span
  {
    if y < row { RowOrder(width, y, row); } else if row < y { RowOrder(width, row, y); }
  }

  // Storage as a function of the pixel: every pixel reads `color` inside the box and its old
  // value outside.
  ghost predicate Painted(after: seq<Byte>, before: seq<Byte>, width: nat, height: nat, b: Box, rows: int,
                          color: (nat, nat, nat) -> int)
    requires |after| == |before| == width * height * 3
  {
    forall x: nat, y: nat, c: nat {:trigger Index(width, x, y, c)} :: OnCanvas(width, height, x, y, c) ==>
      Index(width, x, y, c) < |after| &&
      after[Index(width, x, y, c)] ==
        if InBox(b, x, y) && y < rows then color(x, y, c) else before[Index(width, x, y, c)]
  }

  lemma {:induction false} NothingPainted(
    was: seq<Byte>, width: nat, height: nat, b: Box, color: (nat, nat, nat) -> int)
    requires |was| == width * height * 3
    ensures Painted(was, was, width, height, b, b.top, color)
  {
    forall x: nat, y: nat, c: nat {:trigger Index(width, x, y, c)} | OnCanvas(width, height, x, y, c)
      ensures Index(width, x, y, c) < |was|
    {
      IndexWithin(width, height, x, y, c);
    }
  }

  // A stretch of a byte source holds the colors of one row of a box.
  ghost predicate RowShows(source: seq<Byte>, from: nat, b: Box, y: nat, color: (nat, nat, nat) -> int) {
    from + 3 * Width(b) <= |source| && b.left >= 0 &&
    forall x: nat, c: nat {:trigger color(x, y, c)} :: b.left <= x < b.right && c < 3 ==>
      source[from + 3 * (x - b.left) + c] == color(x, y, c)
  }

  // Only the channels of the row are overwritten, in order.
  ghost predicate RowWritten(after: seq<Byte>, before: seq<Byte>, start: nat, length: nat, source: seq<Byte>, from: nat)
    requires |after| == |before| && from + length <= |source|
  {
    forall k :: 0 <= k < |after| ==>
      after[k] == if start <= k < start + length then source[from + (k - start)] else before[k]
  }

  lemma {:induction false} RowPainted(
    was: seq<Byte>, before: seq<Byte>, after: seq<Byte>, width: nat, height: nat, b: Box, y: nat, source: seq<Byte>,
    from: nat, color: (nat, nat, nat) -> int)
    requires |was| == |before| == |after| == width * height * 3 && BoxFits(b, width, height) && b.top <= y < b.bottom
    requires RowShows(source, from, b, y, color)
    requires Painted(before, was, width, height, b, y, color)
    requires RowWritten(after, before, Index(width, b.left, y, 0), 3 * Width(b), source, from)
    ensures Painted(after, was, width, height, b, y + 1, color)
  {
    forall x: nat, j: nat, c: nat | OnCanvas(width, height, x, j, c)
      ensures Index(width, x, j, c) < |after|
      ensures after[Index(width, x, j, c)] ==
              if InBox(b, x, j) && j < y + 1 then color(x, j, c) else was[Index(width, x, j, c)]
    {
      IndexWithin(width, height, x, j, c);
      RowSpan(width, b.left, Width(b), y, x, j, c);
      if InBox(b, x, j) && j == y {
        assert Index(width, x, y, c) - Index(width, b.left, y, 0) == 3 * (x - b.left) + c;
      }
    }
  }

  // One row of a box is overwritten from a byte source, after the rows above it.
  method PaintRow(canvas: array<Byte>, width: nat, height: nat, b: Box, y: nat, source: seq<Byte>, from: nat,
                  ghost was: seq<Byte>, ghost color: (nat, nat, nat) -> int)
    requires canvas.Length == width * height * 3 == |was| && BoxFits(b, width, height) && b.top <= y < b.bottom
    requires RowShows(source, from, b, y, color)
    requires Painted(canvas[..], was, width, height, b, y, color)
    modifies canvas
    ensures Painted(canvas[..], was, width, height, b, y + 1, color)
  {
    var start, length := Index(width, b.left, y, 0), 3 * Width(b);
    IndexWithin(width, height, b.right - 1, y, 2);
    ghost var before := canvas[..];
    for k := 0 to length
      invariant RowWritten(canvas[..], before, start, k, source, from)
    {
      canvas[start + k] := source[from + k];
    }
    RowPainted(was, before, canvas[..], width, height, b, y, source, from, color);
  }

  // What a pasted chip shows at a pixel of the box.
  function ChipColor(chip: seq<Byte>, b: Box): (nat, nat, nat) -> int {
    (x: nat, y: nat, c: nat) =>
      if InBox(b, x, y) && c < 3 && Index(Width(b), x - b.left, y - b.top, c) < |chip|
      then chip[Index(Width(b), x - b.left, y - b.top, c)] else 0
  }

  lemma {:induction false} ChipRowShows(chip: seq<Byte>, b: Box, row: nat)
    requires b.left >= 0 && b.top >= 0 && 0 <= Width(b) && row < Height(b) && |chip| == Width(b) * Height(b) * 3
    ensures RowShows(chip, row * Width(b) * 3, b, b.top + row, ChipColor(chip, b))
  {
    RowOrder(Width(b), row, Height(b));
    assert Height(b) * Width(b) * 3 == Width(b) * Height(b) * 3;
    forall x: nat, c: nat {:trigger ChipColor(chip, b)(x, b.top + row, c)} | b.left <= x < b.right && c < 3
      ensures chip[row * Width(b) * 3 + 3 * (x - b.left) + c] == ChipColor(chip, b)(x, b.top + row, c)
    {
      IndexWithin(Width(b), Height(b), x - b.left, row, c);
      assert Index(Width(b), x - b.left, row, c) == row * Width(b) * 3 + 3 * (x - b.left) + c;
      assert InBox(b, x, b.top + row) && b.top + row - b.top == row;
    }
  }

  // A chip of the box's size replaces the box, pixel by pixel; `_paste` and `_paste_object`.
  method Paste(canvas: array<Byte>, width: nat, height: nat, chip: seq<Byte>, chipWidth: int, chipHeight: int, b: Box)
    returns (ok: bool)
    requires canvas.Length == width * height * 3 && BoxFits(b, width, height)
    requires chipWidth >= 0 && chipHeight >= 0 && |chip| == chipWidth * chipHeight * 3
    modifies canvas
    ensures ok <==> chipWidth == Width(b) && chipHeight == Height(b)
    ensures !ok ==> canvas[..] == old(canvas[..])
    ensures ok ==> Painted(canvas[..], old(canvas[..]), width, height, b, b.bottom, ChipColor(chip, b))
  {
    if Width(b) != chipWidth || Height(b) != chipHeight { return false; }
    ghost var was := canvas[..];
    NothingPainted(was, width, height, b, ChipColor(chip, b));
    for row := 0 to chipHeight
      invariant Painted(canvas[..], was, width, height, b, b.top + row, ChipColor(chip, b))
    {
      ChipRowShows(chip, b, row);
      PaintRow(canvas, width, height, b, b.top + row, chip, row * chipWidth * 3, was, ChipColor(chip, b));
    }
    return true;
  }

  function Channel(color: (Byte, Byte, Byte), c: nat): Byte {
    if c == 0 then color.0 else if c == 1 then color.1 else color.2
  }

  function Solid(color: (Byte, Byte, Byte)): (nat, nat, nat) -> int {
    (x: nat, y: nat, c: nat) => Channel(color, c)
  }

  function ColorRow(color: (Byte, Byte, Byte), n: nat): (r: seq<Byte>)
    ensures |r| == 3 * n && forall k :: 0 <= k < |r| ==> r[k] == Channel(color, k % 3)
  {
    seq(3 * n, k requires 0 <= k => Channel(color, k % 3))
  }

  lemma {:induction false} ColorRowShows(color: (Byte, Byte, Byte), b: Box, y: nat)
    requires Width(b) >= 0 && b.left >= 0
    ensures RowShows(ColorRow(color, Width(b)), 0, b, y, Solid(color))
  {}

  // Inside the box every pixel has the three values of the color, outside nothing changed.
  ghost predicate Filled(after: seq<Byte>, before: seq<Byte>, width: nat, height: nat, b: Box,
                         color: (Byte, Byte, Byte))
    requires |after| == |before| == width * height * 3
  {
    forall x: nat, y: nat {:trigger Index(width, x, y, 0)} :: x < width && y < height ==>
      var k := Index(width, x, y, 0);
      && k + 2 < |after|
      && after[k..k + 3] == if InBox(b, x, y) then [color.0, color.1, color.2] else before[k..k + 3]
  }

  lemma {:induction false} PaintedIsFilled(after: seq<Byte>, before: seq<Byte>, width: nat, height: nat, b: Box,
                                           color: (Byte, Byte, Byte))
    requires |after| == |before| == width * height * 3
    requires Painted(after, before, width, height, b, b.bottom, Solid(color))
    ensures Filled(after, before, width, height, b, color)
  {
    forall x: nat, y: nat {:trigger Index(width, x, y, 0)} | x < width && y < height
      ensures var k := Index(width, x, y, 0);
              && k + 2 < |after|
              && after[k..k + 3] == if InBox(b, x, y) then [color.0, color.1, color.2] else before[k..k + 3]
    {
      IndexWithin(width, height, x, y, 2);
      assert Index(width, x, y, 1) == Index(width, x, y, 0) + 1 && Index(width, x, y, 2) == Index(width, x, y, 0) + 2;
      assert OnCanvas(width, height, x, y, 0) && OnCanvas(width, height, x, y, 1) && OnCanvas(width, height, x, y, 2);
    }
  }

  // fill_box, with the box validation of the detection dataset.
  method FillBox(canvas: array<Byte>, width: nat, height: nat, b: Box, color: (Byte, Byte, Byte)) returns (ok: bool)
    requires canvas.Length == width * height * 3
    modifies canvas
    ensures ok <==> BoxFits(b, width, height)
    ensures !ok ==> canvas[..] == old(canvas[..])
    ensures ok ==> Painted(canvas[..], old(canvas[..]), width, height, b, b.bottom, Solid(color))
    ensures ok ==> Filled(canvas[..], old(canvas[..]), width, height, b, color)
  {
    if !BoxFits(b, width, height) { return false; }
    ghost var was := canvas[..];
    NothingPainted(was, width, height, b, Solid(color));
    var row := ColorRow(color, Width(b));
    var y := b.top;
    while y < b.bottom
      invariant b.top <= y <= b.bottom
      invariant Painted(canvas[..], was, width, height, b, y, Solid(color))
    {
      ColorRowShows(color, b, y);
      PaintRow(canvas, width, height, b, y, row, 0, was, Solid(color));
      y := y + 1;
    }
    PaintedIsFilled(canvas[..], was, width, height, b, color);
    return true;
  }

  // `crop` shows the pixels of the box.
  ghost predicate IsCrop(crop: seq<Byte>, pixels: seq<Byte>, width: nat, height: nat, b: Box)
    requires BoxFits(b, width, height) && |pixels| == width * height * 3
  {
    |crop| == Width(b) * Height(b) * 3 &&
    forall x: nat, y: nat, c: nat {:trigger Index(Width(b), x, y, c)} :: OnCanvas(Width(b), Height(b), x, y, c) ==>
      Index(Width(b), x, y, c) < |crop| && Index(width, b.left + x, b.top + y, c) < |pixels| &&
      crop[Index(Width(b), x, y, c)] == pixels[Index(width, b.left + x, b.top + y, c)]
  }

  method CropRgb24(pixels: seq<Byte>, width: nat, height: nat, b: Box) returns (r: Result<seq<Byte>, string>)
    requires |pixels| == width * height * 3
    ensures r.Ok? <==> BoxFits(b, width, height)
    ensures r.Ok? ==> IsCrop(r.value, pixels, width, height, b)
  {
    if !BoxFits(b, width, height) { return Err("invalid_manifest"); }
    var w, h := Width(b), Height(b);
    var output := new Byte[w * h * 3](i => 0);
    var whole := Box(0, 0, w, h);
    ghost var was := output[..];
    ghost var shown := Shifted(pixels, width, height, b);
    NothingPainted(was, w, h, whole, shown);
    for row := 0 to h
      invariant Painted(output[..], was, w, h, whole, row, shown)
    {
      SourceRowShows(pixels, width, height, b, row);
      PaintRow(output, w, h, whole, row, pixels, Index(width, b.left, b.top + row, 0), was, shown);
    }
    PaintedIsCrop(output[..], was, pixels, width, height, b);
    return Ok(output[..]);
  }

  lemma {:induction false} SourceRowShows(pixels: seq<Byte>, width: nat, height: nat, b: Box, row: nat)
    requires BoxFits(b, width, height) && |pixels| == width * height * 3 && row < Height(b)
    ensures RowShows(pixels, Index(width, b.left, b.top + row, 0), Box(0, 0, Width(b), Height(b)), row,
                     Shifted(pixels, width, height, b))
  {
    IndexWithin(width, height, b.right - 1, b.top + row, 2);
    forall x: nat, c: nat | x < Width(b) && c < 3
      ensures pixels[Index(width, b.left, b.top + row, 0) + 3 * x + c] == Shifted(pixels, width, height, b)(x, row, c)
    {
      IndexWithin(width, height, b.left + x, b.top + row, c);
    }
  }

  lemma {:induction false} PaintedIsCrop(
    output: seq<Byte>, was: seq<Byte>, pixels: seq<Byte>, width: nat, height: nat, b: Box)
    requires BoxFits(b, width, height) && |pixels| == width * height * 3
    requires |output| == |was| == Width(b) * Height(b) * 3
    requires Painted(output, was, Width(b), Height(b), Box(0, 0, Width(b), Height(b)), Height(b),
             Shifted(pixels, width, height, b))
    ensures IsCrop(output, pixels, width, height, b)
  {
    forall x: nat, y: nat, c: nat | OnCanvas(Width(b), Height(b), x, y, c)
      ensures Index(Width(b), x, y, c) < |output| && Index(width, b.left + x, b.top + y, c) < |pixels|
      ensures output[Index(Width(b), x, y, c)] == pixels[Index(width, b.left + x, b.top + y, c)]
    {
      IndexWithin(Width(b), Height(b), x, y, c);
      IndexWithin(width, height, b.left + x, b.top + y, c);
      assert InBox(Box(0, 0, Width(b), Height(b)), x, y);
    }
  }

  // The pixels seen from the corner of a box.
  function Shifted(pixels: seq<Byte>, width: nat, height: nat, b: Box): (nat, nat, nat) -> int
    requires BoxFits(b, width, height) && |pixels| == width * height * 3
  {
    (x: nat, y: nat, c: nat) =>
      var k := Index(width, b.left + x, b.top + y, c);
      if k < |pixels| then pixels[k] else 0
  }
}
