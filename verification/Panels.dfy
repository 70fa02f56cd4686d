// Binary panels: rendering them into a frame and reading them back from a crop
// (prepare_v02_crop_dataset.py, run_v02_crop_benchmark.py).
module Panels {
  import opened Arithmetic
  import opened Wrappers
  import opened Geometry
  import opened Bytes
  import opened Pixels
  import opened Resize
  import opened CellCenters

  const SOURCE_WIDTH := 3840
  const SOURCE_HEIGHT := 2160
  const COLUMNS := 24
  const ROWS := 8
  const CELLS := 192

  type Bit = b: int | 0 <= b <= 1

  // ----- rendering -----

  function CellValue(b: Box, bits: seq<Bit>, detail: bool, x: int, y: int): Byte
    requires |bits| == CELLS
  {
    if !detail then 127
    else if !InBox(b, x, y) then 0
    else
      var cell := CellOf(y - b.top, Height(b), ROWS) * COLUMNS + CellOf(x - b.left, Width(b), COLUMNS);
      if 0 <= cell < CELLS && bits[cell] == 1 then 16 else 240
  }

  function PanelColor(b: Box, bits: seq<Bit>, detail: bool): (nat, nat, nat) -> int
    requires |bits| == CELLS
  {
    (x: nat, y: nat, c: nat) => CellValue(b, bits, detail, x, y) as int
  }

  ghost function PanelRow(b: Box, bits: seq<Bit>, detail: bool, y: nat): (r: seq<Byte>)
    requires |bits| == CELLS && Width(b) >= 0
    ensures |r| == 3 * Width(b) && forall k :: 0 <= k < |r| ==> r[k] == CellValue(b, bits, detail, b.left + k / 3, y)
  {
    seq(3 * Width(b), k requires 0 <= k => CellValue(b, bits, detail, b.left + k / 3, y))
  }

  lemma {:induction false} PanelRowShows(b: Box, bits: seq<Bit>, detail: bool, y: nat)
    requires |bits| == CELLS && Width(b) >= 0 && b.left >= 0
    ensures RowShows(PanelRow(b, bits, detail, y), 0, b, y, PanelColor(b, bits, detail))
  {
    var color := PanelColor(b, bits, detail);
    forall x: nat, c: nat {:trigger color(x, y, c)} | b.left <= x < b.right && c < 3
      ensures PanelRow(b, bits, detail, y)[3 * (x - b.left) + c] == color(x, y, c)
    {
      RemainderIs(3 * (x - b.left) + c, 3, x - b.left, c);
    }
  }

  lemma {:induction false} CellIndex(b: Box, x: int, y: int)
    requires InBox(b, x, y)
    ensures 0 <= CellOf(y - b.top, Height(b), ROWS) < ROWS && 0 <= CellOf(x - b.left, Width(b), COLUMNS) < COLUMNS
  {
    CellInRange(y - b.top, Height(b), ROWS);
    CellInRange(x - b.left, Width(b), COLUMNS);
  }

  method RenderPanel(canvas: array<Byte>, b: Box, bits: seq<Bit>, detail: bool) returns (ok: bool)
    requires canvas.Length == SOURCE_WIDTH * SOURCE_HEIGHT * 3 && BoxFits(b, SOURCE_WIDTH, SOURCE_HEIGHT)
    modifies canvas
    ensures ok <==> |bits| == CELLS
    ensures !ok ==> canvas[..] == old(canvas[..])
    ensures ok ==> Painted(canvas[..], old(canvas[..]), SOURCE_WIDTH, SOURCE_HEIGHT, b, b.bottom,
            PanelColor(b, bits, detail))
  {
    if |bits| != CELLS { return false; }
    ghost var was := canvas[..];
    NothingPainted(was, SOURCE_WIDTH, SOURCE_HEIGHT, b, PanelColor(b, bits, detail));
    var y := b.top;
    while y < b.bottom
      invariant b.top <= y <= b.bottom
      invariant Painted(canvas[..], was, SOURCE_WIDTH, SOURCE_HEIGHT, b, y, PanelColor(b, bits, detail))
    {
      ghost var before := canvas[..];
      RenderRow(canvas, b, bits, detail, y);
      PanelRowShows(b, bits, detail, y);
      RowPainted(was, before, canvas[..], SOURCE_WIDTH, SOURCE_HEIGHT, b, y, PanelRow(b, bits, detail, y), 0,
        PanelColor(b, bits, detail));
      y := y + 1;
    }
    return true;
  }

  method RenderRow(canvas: array<Byte>, b: Box, bits: seq<Bit>, detail: bool, y: nat)
    requires canvas.Length == SOURCE_WIDTH * SOURCE_HEIGHT * 3 && BoxFits(b, SOURCE_WIDTH, SOURCE_HEIGHT)
    requires |bits| == CELLS && b.top <= y < b.bottom
    modifies canvas
    ensures RowWritten(canvas[..], old(canvas[..]), Index(SOURCE_WIDTH, b.left, y, 0), 3 * Width(b),
            PanelRow(b, bits, detail, y), 0)
  {
    ghost var row := PanelRow(b, bits, detail, y);
    var start := Index(SOURCE_WIDTH, b.left, y, 0);
    var cellRow := Min(ROWS - 1, (y - b.top) * ROWS / Height(b));
    var x := b.left;
    while x < b.right
      invariant b.left <= x <= b.right
      invariant RowWritten(canvas[..], old(canvas[..]), start, 3 * (x - b.left), row, 0)
    {
      var column := Min(COLUMNS - 1, (x - b.left) * COLUMNS / Width(b));
      CellIndex(b, x, y);
      var value: Byte := if detail then (if bits[cellRow * COLUMNS + column] == 1 then 16 else 240) else 127;
      assert value == CellValue(b, bits, detail, x, y);
      var k := x - b.left;
      IndexWithin(SOURCE_WIDTH, SOURCE_HEIGHT, x, y, 2);
      assert Index(SOURCE_WIDTH, x, y, 0) == start + 3 * k;
      RowTriple(b, bits, detail, y, k);
      PaintGray(canvas, start, k, row, value, old(canvas[..]));
      x := x + 1;
    }
  }

  // Three equal channels.
  method PaintGray(canvas: array<Byte>, start: nat, k: nat, ghost row: seq<Byte>, value: Byte, ghost before: seq<Byte>)
    requires start + 3 * k + 3 <= canvas.Length == |before| && 3 * k + 3 <= |row|
    requires row[3 * k] == row[3 * k + 1] == row[3 * k + 2] == value
    requires RowWritten(canvas[..], before, start, 3 * k, row, 0)
    modifies canvas
    ensures RowWritten(canvas[..], before, start, 3 * (k + 1), row, 0)
  {
    var offset := start + 3 * k;
    canvas[offset], canvas[offset + 1], canvas[offset + 2] := value, value, value;
  }

  lemma {:induction false} RowTriple(b: Box, bits: seq<Bit>, detail: bool, y: nat, k: nat)
    requires |bits| == CELLS && k < Width(b)
    ensures var row := PanelRow(b, bits, detail, y);
            row[3 * k] == row[3 * k + 1] == row[3 * k + 2] == CellValue(b, bits, detail, b.left + k, y)
  {
    assert (3 * k) / 3 == k && (3 * k + 1) / 3 == k && (3 * k + 2) / 3 == k;
  }

  // ----- the frame -----

  ghost predicate IsFrame(pixels: seq<Byte>) {
    |pixels| == SOURCE_WIDTH * SOURCE_HEIGHT * 3
  }

  // Pasting the object, then the readable panel, then the gray control.
  ghost predicate FrameShows(
    frame: seq<Byte>, base: seq<Byte>, resized: seq<Byte>, source: Box, resolved: Box, absent: Box, bits: seq<Bit>)
    requires IsFrame(frame) && IsFrame(base) && |bits| == CELLS
  {
    forall x: nat, y: nat, c: nat {:trigger Index(SOURCE_WIDTH, x, y, c)} ::
      OnCanvas(SOURCE_WIDTH, SOURCE_HEIGHT, x, y, c) ==>
      Index(SOURCE_WIDTH, x, y, c) < |frame| &&
      frame[Index(SOURCE_WIDTH, x, y, c)] ==
        if InBox(absent, x, y) then 127
        else if InBox(resolved, x, y) then CellValue(resolved, bits, true, x, y)
        else if InBox(source, x, y) then ChipColor(resized, source)(x, y, c)
        else base[Index(SOURCE_WIDTH, x, y, c)]
  }

  method RenderFrame(base: seq<Byte>, chip: seq<Byte>, chipWidth: nat, chipHeight: nat,
                     source: Box, resolved: Box, absent: Box, bits: seq<Bit>)
    returns (frame: seq<Byte>, ghost resized: seq<Byte>)
    requires IsFrame(base) && |bits| == CELLS && Sized(chipWidth, chipHeight, chip)
    requires BoxFits(source, SOURCE_WIDTH, SOURCE_HEIGHT)
    requires BoxFits(resolved, SOURCE_WIDTH, SOURCE_HEIGHT) && BoxFits(absent, SOURCE_WIDTH, SOURCE_HEIGHT)
    ensures IsFrame(frame) && IsResized(resized, chip, chipWidth, chipHeight, Width(source), Height(source))
    ensures FrameShows(frame, base, resized, source, resolved, absent, bits)
  {
    var canvas := new Byte[|base|](i requires 0 <= i < |base| => base[i]);
    assert canvas[..] == base;
    var r := ResizeRgb24(chip, chipWidth, chipHeight, Width(source), Height(source));
    resized := r.value;
    var ok := Paste(canvas, SOURCE_WIDTH, SOURCE_HEIGHT, r.value, Width(source), Height(source), source);
    ghost var pasted := canvas[..];
    ok := RenderPanel(canvas, resolved, bits, true);
    ghost var readable := canvas[..];
    ok := RenderPanel(canvas, absent, bits, false);
    frame := canvas[..];
  }

  // ----- reading -----

  function Luminance(crop: seq<Byte>, width: nat, x: int, y: int): int {
    (Sample(crop, width, x, y, 0) + Sample(crop, width, x, y, 1) + Sample(crop, width, x, y, 2)) / 3
  }

  function CellBit(crop: seq<Byte>, width: nat, b: Box, row: nat, column: nat, threshold: int): Bit {
    var y := b.top + CenterOf(row, Max(1, Height(b)), ROWS);
    var x := b.left + CenterOf(column, Max(1, Width(b)), COLUMNS);
    if Luminance(crop, width, x, y) <= threshold then 1 else 0
  }

  function Readout(crop: seq<Byte>, width: nat, b: Box, threshold: int): (bits: seq<Bit>)
    ensures |bits| == CELLS
    ensures forall i :: 0 <= i < CELLS ==> bits[i] == CellBit(crop, width, b, i / COLUMNS, i % COLUMNS, threshold)
  {
    seq(CELLS, i requires 0 <= i => CellBit(crop, width, b, i / COLUMNS, i % COLUMNS, threshold))
  }

  method SampleCells(
    crop: seq<Byte>, width: nat, height: nat, b: Box, threshold: int)
    returns (r: Result<seq<Bit>, string>)
    ensures r.Ok? <==> |crop| == width * height * 3 && BoxFits(b, width, height)
    ensures r.Ok? ==> r.value == Readout(crop, width, b, threshold)
  {
    if |crop| != width * height * 3 || !BoxFits(b, width, height) { return Err("invalid_crop"); }
    var bits: seq<Bit> := [];
    for row := 0 to ROWS
      invariant bits == Readout(crop, width, b, threshold)[..row * COLUMNS]
    {
      var y := Min(b.bottom - 1, b.top + (2 * row + 1) * Height(b) / (2 * ROWS));
      for column := 0 to COLUMNS
        invariant bits == Readout(crop, width, b, threshold)[..row * COLUMNS + column]
      {
        var x := Min(b.right - 1, b.left + (2 * column + 1) * Width(b) / (2 * COLUMNS));
        assert (row * COLUMNS + column) / COLUMNS == row && (row * COLUMNS + column) % COLUMNS == column;
        CellPosition(crop, width, height, b, row, column, threshold);
        var offset := (y * width + x) * 3;
        var luminance := (crop[offset] as int + crop[offset + 1] as int + crop[offset + 2] as int) / 3;
        bits := bits + [if luminance <= threshold then 1 else 0];
      }
    }
    return Ok(bits);
  }

  // The clamped position of a cell lies in the crop, and its bit is decided there.
  lemma {:induction false} CellPosition(
    crop: seq<Byte>, width: nat, height: nat, b: Box, row: nat, column: nat, threshold: int)
    requires |crop| == width * height * 3 && BoxFits(b, width, height) && row < ROWS && column < COLUMNS
    ensures var y := Min(b.bottom - 1, b.top + (2 * row + 1) * Height(b) / (2 * ROWS));
            var x := Min(b.right - 1, b.left + (2 * column + 1) * Width(b) / (2 * COLUMNS));
            var offset := (y * width + x) * 3;
            && 0 <= offset < offset + 2 < |crop|
            && CellBit(crop, width, b, row, column, threshold) ==
               if (crop[offset] as int + crop[offset + 1] as int + crop[offset + 2] as int) / 3 <= threshold
               then 1 else 0
  {
    CenterBelow(row, ROWS, Height(b));
    CenterBelow(column, COLUMNS, Width(b));
    var y := b.top + CenterOf(row, Height(b), ROWS);
    var x := b.left + CenterOf(column, Width(b), COLUMNS);
    IndexWithin(width, height, x, y, 2);
    assert Index(width, x, y, 0) == (y * width + x) * 3;
  }

  // `_local_box`: an inner box seen from the corner of an outer one.
  function LocalBox(outer: Box, inner: Box): Result<Box, string> {
    if outer.left <= inner.left < inner.right <= outer.right
      && outer.top <= inner.top < inner.bottom <= outer.bottom then
      Ok(Box(inner.left - outer.left, inner.top - outer.top, inner.right - outer.left, inner.bottom - outer.top))
    else Err("invalid_annotations")
  }

  // A uniform pixel of the frame keeps its luminance in the crop.
  lemma {:induction false} CroppedLuminance(crop: seq<Byte>, frame: seq<Byte>, source: Box, x: nat, y: nat, v: int)
    requires IsFrame(frame) && BoxFits(source, SOURCE_WIDTH, SOURCE_HEIGHT)
    requires IsCrop(crop, frame, SOURCE_WIDTH, SOURCE_HEIGHT, source)
    requires x < Width(source) && y < Height(source)
    requires Gray(frame, source.left + x, source.top + y, v)
    ensures Luminance(crop, Width(source), x, y) == v
  {
    assert OnCanvas(Width(source), Height(source), x, y, 0) && Index(Width(source), x, y, 0) < |crop|;
    assert OnCanvas(Width(source), Height(source), x, y, 1) && Index(Width(source), x, y, 1) < |crop|;
    assert OnCanvas(Width(source), Height(source), x, y, 2) && Index(Width(source), x, y, 2) < |crop|;
  }

  // A frame pixel whose three channels agree.
  ghost predicate Gray(frame: seq<Byte>, x: nat, y: nat, v: int) {
    Sample(frame, SOURCE_WIDTH, x, y, 0) == Sample(frame, SOURCE_WIDTH, x, y, 1)
      == Sample(frame, SOURCE_WIDTH, x, y, 2) == v
  }

  lemma {:induction false} PanelPixel(frame: seq<Byte>, base: seq<Byte>, resized: seq<Byte>,
                                      source: Box, resolved: Box, absent: Box, bits: seq<Bit>, x: nat, y: nat)
    requires IsFrame(frame) && IsFrame(base) && |bits| == CELLS && x < SOURCE_WIDTH && y < SOURCE_HEIGHT
    requires FrameShows(frame, base, resized, source, resolved, absent, bits)
    ensures InBox(absent, x, y) ==> Gray(frame, x, y, 127)
    ensures InBox(resolved, x, y) && !InBox(absent, x, y) ==> Gray(frame, x, y, CellValue(resolved, bits, true, x, y))
  {}

  // ----- which cells come back -----

  // The cell that is read for the i-th one.
  function SampledCell(i: nat, width: nat, height: nat): (k: nat)
    requires i < CELLS && width > 0 && height > 0
    ensures k < CELLS
  {
    var x, y := CenterOf(i % COLUMNS, width, COLUMNS), CenterOf(i / COLUMNS, height, ROWS);
    CellInRange(x, width, COLUMNS);
    CellInRange(y, height, ROWS);
    CellOf(y, height, ROWS) * COLUMNS + CellOf(x, width, COLUMNS)
  }

  // The bits a panel of a given size reads back as.
  function Sampled(bits: seq<Bit>, width: nat, height: nat): (r: seq<Bit>)
    requires |bits| == CELLS && width > 0 && height > 0
    ensures |r| == CELLS && forall i :: 0 <= i < CELLS ==> r[i] == bits[SampledCell(i, width, height)]
  {
    seq(CELLS, i requires 0 <= i < CELLS => bits[SampledCell(i, width, height)])
  }

  lemma {:induction false} LegibleCell(i: nat, width: nat, height: nat)
    requires i < CELLS && width > 0 && height > 0
    ensures Legible(width, COLUMNS) && Legible(height, ROWS) ==> SampledCell(i, width, height) == i
  {
    if Legible(width, COLUMNS) && Legible(height, ROWS) {
      LegibleHits(i % COLUMNS, width, COLUMNS);
      LegibleHits(i / COLUMNS, height, ROWS);
    }
  }

  lemma {:induction false} IllegibleCell(width: nat, height: nat) returns (i: nat)
    requires width > 0 && height > 0 && !(Legible(width, COLUMNS) && Legible(height, ROWS))
    ensures i < CELLS && SampledCell(i, width, height) != i
  {
    if !Legible(width, COLUMNS) {
      var column := IllegibleMisses(width, COLUMNS);
      i := column;
      RemainderIs(i, COLUMNS, 0, column);
      OtherColumn(i, width, height);
    } else {
      var row := IllegibleMisses(height, ROWS);
      i := row * COLUMNS;
      RemainderIs(i, COLUMNS, row, 0);
      OtherRow(i, width, height);
    }
  }

  lemma {:induction false} OtherColumn(i: nat, width: nat, height: nat)
    requires i < CELLS && width > 0 && height > 0
    requires CellOf(CenterOf(i % COLUMNS, width, COLUMNS), width, COLUMNS) != i % COLUMNS
    ensures SampledCell(i, width, height) != i
  {
    CellInRange(CenterOf(i % COLUMNS, width, COLUMNS), width, COLUMNS);
    var column := CellOf(CenterOf(i % COLUMNS, width, COLUMNS), width, COLUMNS);
    var row := CellOf(CenterOf(i / COLUMNS, height, ROWS), height, ROWS);
    RemainderIs(SampledCell(i, width, height), COLUMNS, row, column);
  }

  lemma {:induction false} OtherRow(i: nat, width: nat, height: nat)
    requires i < CELLS && width > 0 && height > 0
    requires CellOf(CenterOf(i / COLUMNS, height, ROWS), height, ROWS) != i / COLUMNS
    ensures SampledCell(i, width, height) != i
  {
    CellInRange(CenterOf(i % COLUMNS, width, COLUMNS), width, COLUMNS);
  }

  function OnlyBit(k: nat): (r: seq<Bit>)
    ensures |r| == CELLS && forall i :: 0 <= i < CELLS ==> r[i] == if i == k then 1 else 0
  {
    seq(CELLS, i => if i == k then 1 else 0)
  }

  // Every pattern comes back exactly when both sides of the panel have a legible size.
  lemma {:induction false} SampledIff(width: nat, height: nat)
    requires width > 0 && height > 0
    ensures (forall bits: seq<Bit> :: |bits| == CELLS ==> Sampled(bits, width, height) == bits)
            <==> Legible(width, COLUMNS) && Legible(height, ROWS)
  {
    if Legible(width, COLUMNS) && Legible(height, ROWS) {
      forall bits: seq<Bit> | |bits| == CELLS ensures Sampled(bits, width, height) == bits {
        forall i | 0 <= i < CELLS ensures Sampled(bits, width, height)[i] == bits[i] { LegibleCell(i, width, height); }
      }
    } else {
      var i := IllegibleCell(width, height);
      var bits := OnlyBit(i);
      assert Sampled(bits, width, height)[i] == 0;
    }
  }

  // A cell read at the local box is sampled at the same pixel of the outer frame.
  lemma {:induction false} LocalCell(crop: seq<Byte>, source: Box, inner: Box, row: nat, column: nat)
    requires LocalBox(source, inner).Ok? && row < ROWS && column < COLUMNS
    ensures var x := inner.left + CenterOf(column, Width(inner), COLUMNS);
            var y := inner.top + CenterOf(row, Height(inner), ROWS);
            && InBox(inner, x, y) && InBox(source, x, y)
            && CellBit(crop, Max(0, Width(source)), LocalBox(source, inner).value, row, column, 127)
               == if Luminance(crop, Max(0, Width(source)), x - source.left, y - source.top) <= 127 then 1 else 0
  {
  }

  lemma {:induction false} CellReads(frame: seq<Byte>, base: seq<Byte>, resized: seq<Byte>, crop: seq<Byte>,
                                     source: Box, resolved: Box, absent: Box, bits: seq<Bit>, i: nat)
    requires IsFrame(frame) && IsFrame(base) && |bits| == CELLS && BoxFits(source, SOURCE_WIDTH, SOURCE_HEIGHT)
    requires FrameShows(frame, base, resized, source, resolved, absent, bits)
    requires IsCrop(crop, frame, SOURCE_WIDTH, SOURCE_HEIGHT, source)
    requires LocalBox(source, resolved).Ok? && Disjoint(resolved, absent) && i < CELLS
    ensures CellBit(crop, Width(source), LocalBox(source, resolved).value, i / COLUMNS, i % COLUMNS, 127)
            == bits[SampledCell(i, Width(resolved), Height(resolved))]
  {
    var row, column := i / COLUMNS, i % COLUMNS;
    LocalCell(crop, source, resolved, row, column);
    var x := resolved.left + CenterOf(column, Width(resolved), COLUMNS);
    var y := resolved.top + CenterOf(row, Height(resolved), ROWS);
    assert !InBox(absent, x, y);
    SampledValue(resolved, bits, i);
    PanelPixel(frame, base, resized, source, resolved, absent, bits, x, y);
    CroppedLuminance(crop, frame, source, x - source.left, y - source.top, CellValue(resolved, bits, true, x, y));
  }

  // The position read for a cell is inside the panel and shows the sampled cell.
  lemma {:induction false} SampledValue(b: Box, bits: seq<Bit>, i: nat)
    requires |bits| == CELLS && i < CELLS && Width(b) > 0 && Height(b) > 0
    ensures var x := b.left + CenterOf(i % COLUMNS, Width(b), COLUMNS);
            var y := b.top + CenterOf(i / COLUMNS, Height(b), ROWS);
            && InBox(b, x, y)
            && CellValue(b, bits, true, x, y) == if bits[SampledCell(i, Width(b), Height(b))] == 1 then 16 else 240
  {}

  // Whatever its size, a readable panel inside the object box and apart from the control
  // reads back as the cells its centers hit.
  lemma {:induction false} PanelReads(frame: seq<Byte>, base: seq<Byte>, resized: seq<Byte>, crop: seq<Byte>,
                                      source: Box, resolved: Box, absent: Box, bits: seq<Bit>)
    requires IsFrame(frame) && IsFrame(base) && |bits| == CELLS && BoxFits(source, SOURCE_WIDTH, SOURCE_HEIGHT)
    requires FrameShows(frame, base, resized, source, resolved, absent, bits)
    requires IsCrop(crop, frame, SOURCE_WIDTH, SOURCE_HEIGHT, source)
    requires LocalBox(source, resolved).Ok? && Disjoint(resolved, absent)
    ensures Readout(crop, Width(source), LocalBox(source, resolved).value, 127)
            == Sampled(bits, Width(resolved), Height(resolved))
  {
    var read := Readout(crop, Width(source), LocalBox(source, resolved).value, 127);
    forall i | 0 <= i < CELLS ensures read[i] == Sampled(bits, Width(resolved), Height(resolved))[i] {
      CellReads(frame, base, resized, crop, source, resolved, absent, bits, i);
    }
  }

  // A readable panel of legible size comes back bit for bit, for every object, background
  // and control; SampledIff says that no other size does for every pattern.
  lemma {:induction false} PanelRoundTrip(frame: seq<Byte>, base: seq<Byte>, resized: seq<Byte>, crop: seq<Byte>,
                                          source: Box, resolved: Box, absent: Box, bits: seq<Bit>)
    requires IsFrame(frame) && IsFrame(base) && |bits| == CELLS && BoxFits(source, SOURCE_WIDTH, SOURCE_HEIGHT)
    requires FrameShows(frame, base, resized, source, resolved, absent, bits)
    requires IsCrop(crop, frame, SOURCE_WIDTH, SOURCE_HEIGHT, source)
    requires LocalBox(source, resolved).Ok? && Disjoint(resolved, absent)
    requires Legible(Width(resolved), COLUMNS) && Legible(Height(resolved), ROWS)
    ensures Readout(crop, Width(source), LocalBox(source, resolved).value, 127) == bits
  {
    PanelReads(frame, base, resized, crop, source, resolved, absent, bits);
    SampledIff(Width(resolved), Height(resolved));
  }

  lemma {:induction false} ControlCell(frame: seq<Byte>, base: seq<Byte>, resized: seq<Byte>, crop: seq<Byte>,
                                       source: Box, resolved: Box, absent: Box, bits: seq<Bit>, row: nat, column: nat)
    requires IsFrame(frame) && IsFrame(base) && |bits| == CELLS && BoxFits(source, SOURCE_WIDTH, SOURCE_HEIGHT)
    requires FrameShows(frame, base, resized, source, resolved, absent, bits)
    requires IsCrop(crop, frame, SOURCE_WIDTH, SOURCE_HEIGHT, source)
    requires LocalBox(source, absent).Ok? && row < ROWS && column < COLUMNS
    ensures CellBit(crop, Width(source), LocalBox(source, absent).value, row, column, 127) == 1
  {
    LocalCell(crop, source, absent, row, column);
    var x := absent.left + CenterOf(column, Width(absent), COLUMNS);
    var y := absent.top + CenterOf(row, Height(absent), ROWS);
    PanelPixel(frame, base, resized, source, resolved, absent, bits, x, y);
    CroppedLuminance(crop, frame, source, x - source.left, y - source.top, 127);
  }

  // The gray control reads as all ones, whatever its size.
  lemma {:induction false} ControlReadsOnes(frame: seq<Byte>, base: seq<Byte>, resized: seq<Byte>, crop: seq<Byte>,
                                            source: Box, resolved: Box, absent: Box, bits: seq<Bit>)
    requires IsFrame(frame) && IsFrame(base) && |bits| == CELLS && BoxFits(source, SOURCE_WIDTH, SOURCE_HEIGHT)
    requires FrameShows(frame, base, resized, source, resolved, absent, bits)
    requires IsCrop(crop, frame, SOURCE_WIDTH, SOURCE_HEIGHT, source)
    requires LocalBox(source, absent).Ok?
    ensures forall i :: 0 <= i < CELLS ==> Readout(crop, Width(source), LocalBox(source, absent).value, 127)[i] == 1
  {
    forall i | 0 <= i < CELLS ensures Readout(crop, Width(source), LocalBox(source, absent).value, 127)[i] == 1 {
      ControlCell(frame, base, resized, crop, source, resolved, absent, bits, i / COLUMNS, i % COLUMNS);
    }
  }
}
