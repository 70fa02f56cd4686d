// Task patterns, classification and panel scores (prepare_v02_crop_dataset.py,
// run_v02_crop_benchmark.py).  The frozen glyph of each task and label is a parameter.
module PanelScores {
  import opened Wrappers
  import opened Geometry
  import opened Bytes
  import opened Pixels
  import opened Resize
  import opened CellCenters
  import opened Panels

  const TASKS := 3
  const LABELS := 8
  const GLYPH := 64

  // patterns[task][label] is a glyph of 8 by 8 bits.
  type Glyph = seq<Bit>
  type Patterns = seq<seq<Glyph>>

  ghost predicate Glyphs(glyphs: seq<Glyph>) {
    |glyphs| == LABELS && forall l :: 0 <= l < LABELS ==> |glyphs[l]| == GLYPH
  }

  ghost predicate WellFormed(patterns: Patterns) {
    |patterns| == TASKS && forall t :: 0 <= t < TASKS ==> Glyphs(patterns[t])
  }

  ghost predicate Labelled(labels: seq<nat>) {
    |labels| == TASKS && forall t :: 0 <= t < TASKS ==> labels[t] < LABELS
  }

  function Combined(patterns: Patterns, labels: seq<nat>): (r: seq<Bit>)
    requires WellFormed(patterns) && Labelled(labels)
    ensures |r| == CELLS
  {
    seq(CELLS, i requires 0 <= i < CELLS => patterns[i % 24 / 8][labels[i % 24 / 8]][i / 24 * 8 + i % 8])
  }

  // The panel is written row by row, eight bits of each task side by side.
  method CombinedPattern(patterns: Patterns, labels: seq<nat>) returns (bits: seq<Bit>)
    requires WellFormed(patterns) && Labelled(labels)
    ensures bits == Combined(patterns, labels)
  {
    bits := [];
    for row := 0 to ROWS
      invariant bits == Combined(patterns, labels)[..24 * row]
    {
      for task := 0 to TASKS
        invariant bits == Combined(patterns, labels)[..24 * row + 8 * task]
      {
        var start := row * 8;
        var part := patterns[task][labels[task]][start..start + 8];
        forall k | 0 <= k < 8 ensures part[k] == Combined(patterns, labels)[24 * row + 8 * task + k] {
          CombinedAt(patterns, labels, row, task, k);
        }
        bits := bits + part;
      }
    }
  }

  // `_task_bits`: the glyph of one task, read out of a panel.
  function TaskBits(bits: seq<Bit>, task: nat): (r: Glyph)
    requires |bits| == CELLS && task < TASKS
    ensures |r| == GLYPH
  {
    seq(GLYPH, j requires 0 <= j < GLYPH => bits[j / 8 * COLUMNS + task * 8 + j % 8])
  }

  lemma {:induction false} CombinedAt(patterns: Patterns, labels: seq<nat>, row: nat, task: nat, k: nat)
    requires WellFormed(patterns) && Labelled(labels) && row < 8 && task < TASKS && k < 8
    ensures Combined(patterns, labels)[24 * row + 8 * task + k] == patterns[task][labels[task]][8 * row + k]
  {}

  lemma {:induction false} TaskBitsInvertsCombined(patterns: Patterns, labels: seq<nat>, task: nat)
    requires WellFormed(patterns) && Labelled(labels) && task < TASKS
    ensures TaskBits(Combined(patterns, labels), task) == patterns[task][labels[task]]
  {
    var read, glyph := TaskBits(Combined(patterns, labels), task), patterns[task][labels[task]];
    forall j | 0 <= j < GLYPH ensures read[j] == glyph[j] {
      CombinedAt(patterns, labels, j / 8, task, j % 8);
      assert 8 * (j / 8) + j % 8 == j;
    }
  }

  // ----- classification -----

  function Distance(a: seq<Bit>, b: seq<Bit>): nat
    requires |a| == |b|
  {
    if a == [] then 0 else (if a[0] != b[0] then 1 else 0) + Distance(a[1..], b[1..])
  }

  lemma {:induction false} DistanceZero(a: seq<Bit>, b: seq<Bit>)
    requires |a| == |b|
    ensures Distance(a, b) == 0 <==> a == b
  {
    if a == [] {
    } else {
      DistanceZero(a[1..], b[1..]);
      assert a == [a[0]] + a[1..] && b == [b[0]] + b[1..];
    }
  }

  function Differing(a: seq<Bit>, b: seq<Bit>): set<nat>
    requires |a| == |b|
  {
    set i | 0 <= i < |a| && a[i] != b[i]
  }

  // The distance is the number of places where the two differ.
  lemma {:induction false} DistanceIsNumber(a: seq<Bit>, b: seq<Bit>)
    requires |a| == |b|
    ensures Distance(a, b) == |Differing(a, b)|
    decreases |a|
  {
    if a == [] {
      assert Differing(a, b) == {};
    } else {
      var last := |a| - 1;
      DistanceIsNumber(a[..last], b[..last]);
      DifferingLast(a, b);
      DistanceLast(a, b);
    }
  }

  lemma {:induction false} DifferingLast(a: seq<Bit>, b: seq<Bit>)
    requires |a| == |b| > 0
    ensures var last := |a| - 1;
            |Differing(a, b)| == |Differing(a[..last], b[..last])| + if a[last] != b[last] then 1 else 0
  {
    var last := |a| - 1;
    assert Differing(a, b) == Differing(a[..last], b[..last]) + if a[last] != b[last] then {last} else {};
  }

  lemma {:induction false} DistanceLast(a: seq<Bit>, b: seq<Bit>)
    requires |a| == |b| > 0
    ensures var last := |a| - 1;
            Distance(a, b) == Distance(a[..last], b[..last]) + if a[last] != b[last] then 1 else 0
  {
    var last := |a| - 1;
    if last == 0 {
      assert a[1..] == [] && a[..0] == [];
    } else {
      DistanceLast(a[1..], b[1..]);
      assert a[1..][..last - 1] == a[..last][1..] && b[1..][..last - 1] == b[..last][1..];
    }
  }

  ghost predicate Nearest(bits: Glyph, glyphs: seq<Glyph>, tag: nat)
    requires |bits| == GLYPH && Glyphs(glyphs)
  {
    tag < LABELS && forall l :: 0 <= l < LABELS ==>
      Distance(bits, glyphs[tag]) < Distance(bits, glyphs[l])
      || (Distance(bits, glyphs[tag]) == Distance(bits, glyphs[l]) && tag <= l)
  }

  // The label at minimum Hamming distance, the smaller one on ties.
  method Classify(bits: Glyph, glyphs: seq<Glyph>) returns (tag: nat)
    requires |bits| == GLYPH && Glyphs(glyphs)
    ensures Nearest(bits, glyphs, tag)
  {
    tag := 0;
    for l := 1 to LABELS
      invariant tag < l
      invariant forall k :: 0 <= k < l ==>
        Distance(bits, glyphs[tag]) < Distance(bits, glyphs[k])
        || (Distance(bits, glyphs[tag]) == Distance(bits, glyphs[k]) && tag <= k)
    {
      if Distance(bits, glyphs[l]) < Distance(bits, glyphs[tag]) { tag := l; }
    }
  }

  // A glyph is classified as its own label exactly when no smaller label shares it.
  lemma {:induction false} OwnGlyph(glyphs: seq<Glyph>, tag: nat, result: nat)
    requires Glyphs(glyphs) && tag < LABELS
    requires Nearest(glyphs[tag], glyphs, result)
    ensures result == tag <==> FirstOfItsKind(glyphs, tag)
  {
    DistanceZero(glyphs[tag], glyphs[tag]);
    DistanceZero(glyphs[tag], glyphs[result]);
    forall l | 0 <= l < tag ensures Distance(glyphs[tag], glyphs[l]) == 0 <==> glyphs[l] == glyphs[tag] {
      DistanceZero(glyphs[tag], glyphs[l]);
    }
  }

  // ----- the score of a panel -----

  function Agreement(a: seq<Bit>, b: seq<Bit>): nat
    requires |a| == |b|
  {
    if a == [] then 0 else (if a[0] == b[0] then 1 else 0) + Agreement(a[1..], b[1..])
  }

  lemma {:induction false} AgreementAndDistance(a: seq<Bit>, b: seq<Bit>)
    requires |a| == |b|
    ensures Agreement(a, b) + Distance(a, b) == |a|
  {
    if a == [] {
    } else {
      AgreementAndDistance(a[1..], b[1..]);
    }
  }

  // `flag` says whether the classified label is the wanted one.
  ghost predicate Judged(bits: Glyph, glyphs: seq<Glyph>, wanted: nat, flag: bool)
    requires |bits| == GLYPH && Glyphs(glyphs)
  {
    exists tag :: Nearest(bits, glyphs, tag) && flag == (tag == wanted)
  }

  ghost predicate FirstOfItsKind(glyphs: seq<Glyph>, tag: nat)
    requires Glyphs(glyphs) && tag < LABELS
  {
    forall l :: 0 <= l < tag ==> glyphs[l] != glyphs[tag]
  }

  method JudgeTask(bits: seq<Bit>, patterns: Patterns, labels: seq<nat>, t: nat) returns (flag: bool)
    requires |bits| == CELLS && WellFormed(patterns) && Labelled(labels) && t < TASKS
    ensures Judged(TaskBits(bits, t), patterns[t], labels[t], flag)
    ensures bits == Combined(patterns, labels) ==> (flag <==> FirstOfItsKind(patterns[t], labels[t]))
  {
    var tag := Classify(TaskBits(bits, t), patterns[t]);
    flag := tag == labels[t];
    if bits == Combined(patterns, labels) {
      TaskBitsInvertsCombined(patterns, labels, t);
      OwnGlyph(patterns[t], labels[t], tag);
    }
  }

  lemma {:induction false} ReadableMeaning(bits: seq<Bit>, expected: seq<Bit>)
    requires |bits| == |expected|
    ensures Agreement(bits, expected) == |bits| - Distance(bits, expected)
    ensures Agreement(bits, expected) == |bits| <==> bits == expected
  {
    AgreementAndDistance(bits, expected);
    DistanceZero(bits, expected);
  }

  // Each task is judged on its own bits; on the expected panel the verdict is positive exactly
  // when no smaller label shares the glyph.
  method JudgeTasks(bits: seq<Bit>, patterns: Patterns, labels: seq<nat>) returns (correct: seq<bool>)
    requires |bits| == CELLS && WellFormed(patterns) && Labelled(labels)
    ensures |correct| == TASKS
    ensures forall t :: 0 <= t < TASKS ==> Judged(TaskBits(bits, t), patterns[t], labels[t], correct[t])
    ensures bits == Combined(patterns, labels) ==>
      forall t :: 0 <= t < TASKS ==> (correct[t] <==> FirstOfItsKind(patterns[t], labels[t]))
  {
    correct := [];
    ghost var exact := bits == Combined(patterns, labels);
    for t := 0 to TASKS
      invariant |correct| == t
      invariant forall k :: 0 <= k < t ==> Judged(TaskBits(bits, k), patterns[k], labels[k], correct[k])
      invariant exact ==> forall k :: 0 <= k < t ==> (correct[k] <==> FirstOfItsKind(patterns[k], labels[k]))
    {
      var flag := JudgeTask(bits, patterns, labels, t);
      correct := correct + [flag];
    }
  }

  // Readable cells and per-task verdicts.  A panel that was read back exactly, and no other,
  // scores all 192 cells; each of its tasks is then classified correctly exactly when no
  // smaller label shares the glyph.
  method ScorePanel(bits: seq<Bit>, patterns: Patterns, labels: seq<nat>) returns (readable: nat, correct: seq<bool>)
    requires |bits| == CELLS && WellFormed(patterns) && Labelled(labels)
    ensures readable == CELLS - Distance(bits, Combined(patterns, labels))
    ensures readable == CELLS <==> bits == Combined(patterns, labels)
    ensures |correct| == TASKS
    ensures forall t :: 0 <= t < TASKS ==> Judged(TaskBits(bits, t), patterns[t], labels[t], correct[t])
    ensures bits == Combined(patterns, labels) ==>
      forall t :: 0 <= t < TASKS ==> (correct[t] <==> FirstOfItsKind(patterns[t], labels[t]))
  {
    var expected := CombinedPattern(patterns, labels);
    readable := Agreement(bits, expected);
    ReadableMeaning(bits, expected);
    correct := JudgeTasks(bits, patterns, labels);
  }

  // The whole way: draw the labels into a frame, crop the object, read the panel at its local
  // box and score it.  Every cell comes back, so each task is classified correctly exactly
  // when no smaller label shares its glyph; with distinct glyphs that is always.
  method RenderAndScore(base: seq<Byte>, chip: seq<Byte>, chipWidth: nat, chipHeight: nat,
                        source: Box, resolved: Box, absent: Box, patterns: Patterns, labels: seq<nat>)
    returns (readable: nat, correct: seq<bool>)
    requires IsFrame(base) && Sized(chipWidth, chipHeight, chip)
    requires BoxFits(source, SOURCE_WIDTH, SOURCE_HEIGHT) && BoxFits(absent, SOURCE_WIDTH, SOURCE_HEIGHT)
    requires LocalBox(source, resolved).Ok? && Disjoint(resolved, absent)
    requires Legible(Width(resolved), COLUMNS) && Legible(Height(resolved), ROWS)
    requires WellFormed(patterns) && Labelled(labels)
    ensures readable == CELLS && |correct| == TASKS
    ensures forall t :: 0 <= t < TASKS ==> (correct[t] <==> FirstOfItsKind(patterns[t], labels[t]))
  {
    var bits := CombinedPattern(patterns, labels);
    var frame, resized := RenderFrame(base, chip, chipWidth, chipHeight, source, resolved, absent, bits);
    var crop := CropRgb24(frame, SOURCE_WIDTH, SOURCE_HEIGHT, source);
    var read := SampleCells(crop.value, Width(source), Height(source), LocalBox(source, resolved).value, 127);
    PanelRoundTrip(frame, base, resized, crop.value, source, resolved, absent, bits);
    readable, correct := ScorePanel(read.value, patterns, labels);
  }

  // ----- from detector boxes to source boxes -----

  const DETECTOR := 384

  function SourceBox(b: Box): Result<Box, string> {
    if !BoxFits(b, DETECTOR, DETECTOR) then Err("invalid_manifest")
    else if b.left * SOURCE_WIDTH % DETECTOR != 0 || b.top * SOURCE_HEIGHT % DETECTOR != 0
            || b.right * SOURCE_WIDTH % DETECTOR != 0 || b.bottom * SOURCE_HEIGHT % DETECTOR != 0 then
              Err("invalid_manifest")
    else Ok(Box(b.left * SOURCE_WIDTH / DETECTOR, b.top * SOURCE_HEIGHT / DETECTOR,
                b.right * SOURCE_WIDTH / DETECTOR, b.bottom * SOURCE_HEIGHT / DETECTOR))
  }

  // A detector box maps exactly when its edges lie on multiples of eight rows; it then fits
  // the source frame.
  lemma {:induction false} SourceBoxMeaning(b: Box)
    ensures SourceBox(b).Ok? <==> BoxFits(b, DETECTOR, DETECTOR) && b.top % 8 == 0 && b.bottom % 8 == 0
    ensures SourceBox(b).Ok? ==>
      var s := SourceBox(b).value;
      && BoxFits(s, SOURCE_WIDTH, SOURCE_HEIGHT)
      && Width(s) == 10 * Width(b) && 8 * Height(s) == 45 * Height(b)
  {
    EighthRows(b.top);
    EighthRows(b.bottom);
  }

  // A panel given by a detector box is legible exactly when it is four detector pixels wide
  // or more.
  lemma {:induction false} SourcePanelIsLegible(b: Box)
    requires SourceBox(b).Ok?
    ensures var s := SourceBox(b).value;
            Width(s) > 0 && Height(s) > 0
            && (Legible(Width(s), COLUMNS) && Legible(Height(s), ROWS) <==> Width(b) >= 4)
  {
    SourceBoxMeaning(b);
    LegibleWidths(Width(b));
  }

  lemma {:induction false} LegibleWidths(w: nat)
    requires w > 0
    ensures Legible(10 * w, COLUMNS) <==> w >= 4
  {
    if w >= 5 {
    } else if w == 4 {
      GcdSteps(40, 24, 16, 8, 0);
    } else if w == 3 {
      GcdSteps(30, 24, 6, 0, 0);
    } else if w == 2 {
      GcdSteps(20, 24, 20, 4, 0);
    } else {
      GcdSteps(10, 24, 10, 4, 2);
    }
  }

  // Three steps of Euclid's algorithm, or as many as there are.
  lemma {:induction false} GcdSteps(a: nat, b: nat, r: nat, s: nat, t: nat)
    requires b > 0 && a % b == r && r > 0 && b % r == s && (if s > 0 then r % s == t else t == 0)
    ensures s == 0 ==> Gcd(a, b) == r
    ensures s > 0 && t == 0 ==> Gcd(a, b) == s
    ensures s > 0 && t > 0 && s % t == 0 ==> Gcd(a, b) == t
  {
    assert Gcd(a, b) == Gcd(b, r) == Gcd(r, s);
    if s > 0 {
      assert Gcd(r, s) == Gcd(s, t);
      if t > 0 { assert Gcd(s, t) == Gcd(t, s % t); }
    }
  }

  lemma {:induction false} EighthRows(y: int)
    ensures y * SOURCE_HEIGHT % DETECTOR == 0 <==> y % 8 == 0
  {
    var q, r := y / 8, y % 8;
    assert y * SOURCE_HEIGHT == DETECTOR * (45 * q) + 2160 * r;
    Residue(r);
  }

  lemma {:induction false} Residue(r: int)
    requires 0 <= r < 8
    ensures 2160 * r % DETECTOR == 0 <==> r == 0
  {
    assert r == 0 || r == 1 || r == 2 || r == 3 || r == 4 || r == 5 || r == 6 || r == 7;
  }

  // Nested and disjoint detector boxes stay nested and disjoint in the source.
  lemma {:induction false} SourceBoxKeepsLayout(outer: Box, left: Box, right: Box)
    requires SourceBox(outer).Ok? && SourceBox(left).Ok? && SourceBox(right).Ok?
    requires LocalBox(outer, left).Ok? && left.right <= right.left
    ensures LocalBox(SourceBox(outer).value, SourceBox(left).value).Ok?
    ensures Disjoint(SourceBox(left).value, SourceBox(right).value)
  {}
}
