// Nearest-frame lattices, motion windows and the adaptive selection
// (run_v02_sampling_benchmark.py).  Python's exact `Fraction` seconds are modelled as reals.
module SamplingPolicies {
  import opened Arithmetic

  const HORIZON := 6.0
  const WINDOW_MS := 750
  const BASE_FPS: nat := 3
  const HIGH_FPS: nat := 8

  // ----- the nearest-frame lattice -----

  function Target(k: nat, fps: nat): real
    requires fps > 0
  {
    k as real / fps as real
  }

  function Gap(ptsMs: int, target: real): real {
    var d := ptsMs as real / 1000.0 - target;
    if d < 0.0 then -d else d
  }

  function CeilMs(seconds: real): int {
    -((-seconds * 1000.0).Floor)
  }

  ghost predicate Indexes(eligible: seq<nat>, pts: seq<int>) {
    eligible != [] && forall i :: 0 <= i < |eligible| ==> eligible[i] < |pts|
  }

  // The key (distance, index), compared lexicographically.
  predicate KeyLeq(pts: seq<int>, target: real, i: nat, j: nat)
    requires i < |pts| && j < |pts|
  {
    Gap(pts[i], target) < Gap(pts[j], target) || (Gap(pts[i], target) == Gap(pts[j], target) && i <= j)
  }

  function Nearest(pts: seq<int>, eligible: seq<nat>, target: real): (chosen: nat)
    requires Indexes(eligible, pts)
    ensures chosen in eligible
    ensures forall i :: 0 <= i < |eligible| ==> KeyLeq(pts, target, chosen, eligible[i])
  {
    if |eligible| == 1 then eligible[0]
    else
      var rest := Nearest(pts, eligible[1..], target);
      assert forall i :: 0 < i < |eligible| ==> eligible[i] == eligible[1..][i - 1];
      if KeyLeq(pts, target, eligible[0], rest) then eligible[0] else rest
  }

  function ErrorMs(pts: seq<int>, eligible: seq<nat>, target: real): int
    requires Indexes(eligible, pts)
  {
    CeilMs(Gap(pts[Nearest(pts, eligible, target)], target))
  }

  // Over integers: `chosen` is the eligible frame nearest to second k / fps, the first of several, and
  // `error` its distance in milliseconds, rounded up.
  ghost predicate IsNearestFrame(chosen: nat, error: int, pts: seq<int>, eligible: seq<nat>, k: nat, fps: nat) {
    && chosen in eligible && chosen < |pts|
    && var d := pts[chosen] * fps - 1000 * k;
       var away := if d < 0 then -d else d;
       && (forall j :: j in eligible && j < |pts| ==>
             var other := pts[j] * fps - 1000 * k;
             && away <= (if other < 0 then -other else other)
             && (away == (if other < 0 then -other else other) ==> chosen <= j))
       && (error - 1) * fps < away <= error * fps
  }

  function Away(p: int, k: nat, fps: nat): nat {
    var d := p * fps - 1000 * k;
    if d < 0 then -d else d
  }

  lemma {:induction false} TargetTimes(k: nat, fps: nat)
    requires fps > 0
    ensures Target(k, fps) * fps as real == k as real
  {}

  lemma {:induction false} GapTimes(p: int, t: real, k: nat, fps: nat, scale: real)
    requires fps > 0 && t * fps as real == k as real && scale == 1000.0 * fps as real
    ensures Gap(p, t) * scale == Away(p, k, fps) as real
  {
    var f, gap := fps as real, p as real / 1000.0 - t;
    assert gap * (1000.0 * f) == p as real * f - 1000.0 * (t * f);
    assert (p * fps - 1000 * k) as real == p as real * f - 1000.0 * k as real;
    if gap < 0.0 {
      assert gap * (1000.0 * f) < 0.0;
    } else {
      assert gap * (1000.0 * f) >= 0.0;
    }
  }

  lemma {:induction false} ScaledOrder(x: real, y: real, f: real)
    requires f > 0.0
    ensures x < y <==> x * f < y * f
    ensures x == y <==> x * f == y * f
  {
    if x < y {
      assert (y - x) * f > 0.0;
    } else if y < x {
      assert (x - y) * f > 0.0;
    }
  }

  lemma {:induction false} ScaledSame(x: real, y: real, f: real, m: int, n: int)
    requires f > 0.0 && x * f == m as real && y * f == n as real
    ensures (x < y <==> m < n) && (x == y <==> m == n)
  {
    ScaledOrder(x, y, f);
    ScaledOrder(y, x, f);
  }

  lemma {:induction false} CeilingByScale(x: real, fps: nat, e: int, m: int)
    requires fps > 0 && x * (1000.0 * fps as real) == m as real && (e - 1) as real < x * 1000.0 <= e as real
    ensures (e - 1) * fps < m <= e * fps
  {
    var f, low, high := fps as real, (e - 1) as real, e as real;
    ScaledOrder(low, x * 1000.0, f);
    ScaledOrder(x * 1000.0, high, f);
    assert x * 1000.0 * f == m as real;
    assert (e * fps) as real == high * f;
    assert ((e - 1) * fps) as real == low * f;
  }

  lemma {:induction false} ScaledGap(p: int, t: real, k: nat, fps: nat, scale: real) returns (gap: real, away: nat)
    requires fps > 0 && t * fps as real == k as real && scale == 1000.0 * fps as real
    ensures gap == Gap(p, t) && away == Away(p, k, fps) && gap * scale == away as real
  {
    gap, away := Gap(p, t), Away(p, k, fps);
    GapTimes(p, t, k, fps, scale);
  }

  lemma {:induction false} GapOrder(p: int, q: int, t: real, k: nat, fps: nat, scale: real)
    requires fps > 0 && t * fps as real == k as real && scale == 1000.0 * fps as real
    ensures Gap(p, t) < Gap(q, t) <==> Away(p, k, fps) < Away(q, k, fps)
    ensures Gap(p, t) == Gap(q, t) <==> Away(p, k, fps) == Away(q, k, fps)
  {
    var gap, away := ScaledGap(p, t, k, fps, scale);
    var other, far := ScaledGap(q, t, k, fps, scale);
    ScaledSame(gap, other, scale, away, far);
  }

  lemma {:induction false} CeilingOfGap(p: int, t: real, k: nat, fps: nat)
    requires fps > 0 && t * fps as real == k as real
    ensures (CeilMs(Gap(p, t)) - 1) * fps < Away(p, k, fps) <= CeilMs(Gap(p, t)) * fps
  {
    GapTimes(p, t, k, fps, 1000.0 * fps as real);
    CeilMsIsCeiling(Gap(p, t));
    CeilingByScale(Gap(p, t), fps, CeilMs(Gap(p, t)), Away(p, k, fps));
  }

  lemma {:induction false} NearestIsNearest(pts: seq<int>, eligible: seq<nat>, k: nat, fps: nat)
    requires fps > 0 && Indexes(eligible, pts)
    ensures IsNearestFrame(Nearest(pts, eligible, Target(k, fps)), ErrorMs(pts, eligible, Target(k, fps)), pts,
                           eligible, k, fps)
  {
    var target := Target(k, fps);
    var c := Nearest(pts, eligible, target);
    TargetTimes(k, fps);
    CeilingOfGap(pts[c], target, k, fps);
    forall j | j in eligible && j < |pts|
      ensures Away(pts[c], k, fps) <= Away(pts[j], k, fps)
      ensures Away(pts[c], k, fps) == Away(pts[j], k, fps) ==> c <= j
    {
      assert KeyLeq(pts, target, c, j);
      GapOrder(pts[c], pts[j], target, k, fps, 1000.0 * fps as real);
    }
  }

  method NearestTargets(pts: seq<int>, fps: nat, eligible: seq<nat>) returns (targets: seq<(nat, int)>)
    requires fps > 0 && Indexes(eligible, pts)
    ensures |targets| == 6 * fps
    ensures forall k :: 0 <= k < 6 * fps ==>
      targets[k] == (Nearest(pts, eligible, Target(k, fps)), ErrorMs(pts, eligible, Target(k, fps)))
    ensures forall k :: 0 <= k < 6 * fps ==> IsNearestFrame(targets[k].0, targets[k].1, pts, eligible, k, fps)
  {
    var target := 0.0;
    var step := 1.0 / fps as real;
    targets := [];
    while target < HORIZON
      invariant target == Target(|targets|, fps) && |targets| <= 6 * fps
      invariant forall k :: 0 <= k < |targets| ==>
        targets[k] == (Nearest(pts, eligible, Target(k, fps)), ErrorMs(pts, eligible, Target(k, fps)))
      decreases 6 * fps - |targets|
    {
      TargetBelowHorizon(|targets|, fps);
      var chosen := Nearest(pts, eligible, target);
      var error := Gap(pts[chosen], target);
      targets := targets + [(chosen, CeilMs(error))];
      NextTarget(|targets| - 1, fps);
      target := target + step;
    }
    TargetBelowHorizon(|targets|, fps);
    forall k | 0 <= k < 6 * fps ensures IsNearestFrame(targets[k].0, targets[k].1, pts, eligible, k, fps) {
      NearestIsNearest(pts, eligible, k, fps);
    }
  }

  lemma {:induction false} TargetBelowHorizon(k: nat, fps: nat)
    requires fps > 0
    ensures Target(k, fps) < HORIZON <==> k < 6 * fps
  {}

  lemma {:induction false} NextTarget(k: nat, fps: nat)
    requires fps > 0
    ensures Target(k + 1, fps) == Target(k, fps) + 1.0 / fps as real
    ensures Target(k, fps) < Target(k + 1, fps)
  {}

  // An error is the exact ceiling, in milliseconds, of the distance.
  lemma {:induction false} CeilMsIsCeiling(seconds: real)
    ensures (CeilMs(seconds) - 1) as real < seconds * 1000.0 <= CeilMs(seconds) as real
  {}

  ghost predicate Increasing(pts: seq<int>) {
    forall i, j :: 0 <= i < j < |pts| ==> pts[i] < pts[j]
  }

  // With increasing timestamps a later target never chooses an earlier frame.
  lemma {:induction false} ChoicesNeverDecrease(pts: seq<int>, eligible: seq<nat>, early: real, late: real)
    requires Indexes(eligible, pts) && Increasing(pts) && early <= late
    ensures Nearest(pts, eligible, early) <= Nearest(pts, eligible, late)
  {}

  // A target between two eligible frames errs by at most the ceiling of half their gap.
  lemma {:induction false} ErrorWithinHalfGap(pts: seq<int>, eligible: seq<nat>, a: nat, b: nat, target: real)
    requires Indexes(eligible, pts) && a in eligible && b in eligible
    requires pts[a] as real <= target * 1000.0 <= pts[b] as real
    ensures 0 <= ErrorMs(pts, eligible, target) <= (pts[b] - pts[a] + 1) / 2
  {}

  // ----- fixed selections -----

  function UpTo(n: nat): (r: seq<nat>)
    ensures |r| == n && forall i :: 0 <= i < n ==> r[i] == i
  {
    seq(n, i => i)
  }

  // The frames chosen by a lattice.
  ghost function Chosen(pts: seq<int>, fps: nat, eligible: seq<nat>): set<nat>
    requires fps > 0 && Indexes(eligible, pts)
  {
    set k | 0 <= k < 6 * fps :: Nearest(pts, eligible, Target(k, fps))
  }

  ghost function FixedChosen(pts: seq<int>, fps: nat): set<nat>
    requires fps > 0 && pts != []
  {
    Chosen(pts, fps, UpTo(|pts|))
  }

  method FixedSelection(pts: seq<int>, fps: nat) returns (selected: set<nat>, errors: seq<int>)
    requires fps > 0 && pts != []
    ensures selected == FixedChosen(pts, fps)
    ensures |errors| == 6 * fps
    ensures forall k :: 0 <= k < 6 * fps ==> errors[k] == ErrorMs(pts, UpTo(|pts|), Target(k, fps))
  {
    var targets := NearestTargets(pts, fps, UpTo(|pts|));
    selected := Indices(targets);
    errors := Errors(targets);
  }

  function Errors(targets: seq<(nat, int)>): (r: seq<int>)
    ensures |r| == |targets| && forall k :: 0 <= k < |targets| ==> r[k] == targets[k].1
  {
    seq(|targets|, k requires 0 <= k < |targets| => targets[k].1)
  }

  function Indices(targets: seq<(nat, int)>): set<nat> {
    set k | 0 <= k < |targets| :: targets[k].0
  }

  // ----- motion windows -----

  datatype Window = Window(start: int, end: int)

  predicate InWindows(windows: seq<Window>, p: int) {
    exists w :: 0 <= w < |windows| && windows[w].start <= p <= windows[w].end
  }

  // Some frame at or above the threshold opens its window over p.
  predicate Triggered(pts: seq<int>, scores: seq<int>, threshold: int, p: int)
    requires |scores| == |pts|
  {
    exists i :: 0 <= i < |pts| && scores[i] >= threshold && pts[i] <= p <= pts[i] + WINDOW_MS
  }

  // Sorted, non-empty windows with a gap between any two.
  ghost predicate Separated(windows: seq<Window>) {
    && (forall w :: 0 <= w < |windows| ==> windows[w].start < windows[w].end)
    && forall v, w :: 0 <= v < w < |windows| ==> windows[v].end < windows[w].start
  }

  method MotionWindows(pts: seq<int>, scores: seq<int>, threshold: int) returns (windows: seq<Window>)
    requires |scores| == |pts| && Increasing(pts)
    ensures Separated(windows)
    ensures forall p :: InWindows(windows, p) <==> Triggered(pts, scores, threshold, p)
  {
    windows := [];
    for index := 0 to |scores|
      invariant Separated(windows)
      invariant windows != [] && index > 0 ==>
        windows[|windows| - 1].start <= pts[index - 1] && windows[|windows| - 1].end <= pts[index - 1] + WINDOW_MS
      invariant index == 0 ==> windows == []
      invariant forall p :: InWindows(windows, p) <==>
        exists i :: 0 <= i < index && scores[i] >= threshold && pts[i] <= p <= pts[i] + WINDOW_MS
    {
      if scores[index] >= threshold {
        var start := pts[index];
        var end := start + WINDOW_MS;
        ghost var before := windows;
        if windows != [] && start <= windows[|windows| - 1].end {
          var last := |windows| - 1;
          windows := windows[last := Window(windows[last].start, Max(windows[last].end, end))];
        } else {
          windows := windows + [Window(start, end)];
        }
        WindowAdded(before, windows, start);
      }
    }
  }

  // Either way of adding a window covers exactly the new interval besides the old ones.
  lemma {:induction false} WindowAdded(before: seq<Window>, after: seq<Window>, start: int)
    requires
      var end, last := start + WINDOW_MS, |before| - 1;
      if before != [] && start <= before[last].end then
        && before[last].start <= start && before[last].end <= end
        && after == before[last := Window(before[last].start, Max(before[last].end, end))]
      else after == before + [Window(start, end)]
    ensures forall p :: InWindows(after, p) <==> InWindows(before, p) || start <= p <= start + WINDOW_MS
  {
    var end, last := start + WINDOW_MS, |before| - 1;
    forall p ensures InWindows(after, p) <==> InWindows(before, p) || start <= p <= end {
      if InWindows(before, p) {
        var w :| 0 <= w < |before| && before[w].start <= p <= before[w].end;
        assert after[w].start <= p <= after[w].end;
      }
      if start <= p <= end {
        assert after[|after| - 1].start <= p <= after[|after| - 1].end;
      }
      if InWindows(after, p) {
        var w :| 0 <= w < |after| && after[w].start <= p <= after[w].end;
        if w < |before| { assert w < last ==> before[w] == after[w]; }
        if w == last && before[last].end < p { assert start <= p <= end; }
      }
    }
  }

  // ----- the adaptive selection -----

  // The members of a set of frame indices in ascending order.
  function Ascending(n: nat, s: set<nat>): (r: seq<nat>)
    ensures forall i :: i in r <==> i in s && i < n
  {
    if n == 0 then [] else Ascending(n - 1, s) + (if n - 1 in s then [n - 1] else [])
  }

  function Inside(targets: seq<(nat, int)>, pts: seq<int>, windows: seq<Window>, wanted: bool): (r: seq<(nat, int)>)
    requires forall k :: 0 <= k < |targets| ==> targets[k].0 < |pts|
    ensures forall t :: t in r <==> t in targets && t.0 < |pts| && (InWindows(windows, pts[t.0]) <==> wanted)
  {
    if targets == [] then []
    else
      var last := targets[|targets| - 1];
      Inside(targets[..|targets| - 1], pts, windows, wanted)
      + (if InWindows(windows, pts[last.0]) == wanted then [last] else [])
  }

  ghost function HighIndices(pts: seq<int>): (r: seq<nat>)
    requires pts != []
    ensures Indexes(r, pts)
    ensures forall i :: i in r <==> i in FixedChosen(pts, HIGH_FPS)
  {
    var high := FixedChosen(pts, HIGH_FPS);
    assert Nearest(pts, UpTo(|pts|), Target(0, HIGH_FPS)) in high;
    var r := Ascending(|pts|, high);
    assert r != [] by { assert Nearest(pts, UpTo(|pts|), Target(0, HIGH_FPS)) in r; }
    assert forall i :: 0 <= i < |r| ==> r[i] in r;
    assert forall i :: i in high ==> i in UpTo(|pts|) && i < |pts|;
    r
  }

  ghost function BaseChosen(pts: seq<int>): set<nat>
    requires pts != []
  {
    Chosen(pts, BASE_FPS, HighIndices(pts))
  }

  // The frames of a fixed selection whose timestamp some triggered window covers.
  ghost function Boosted(pts: seq<int>, scores: seq<int>, threshold: int): set<nat>
    requires pts != [] && |scores| == |pts|
  {
    set i | i in FixedChosen(pts, HIGH_FPS) && i < |pts| && Triggered(pts, scores, threshold, pts[i])
  }

  // What the selection means: the base lattice, and inside the windows all 8 FPS frames.
  ghost function Adaptive(pts: seq<int>, scores: seq<int>, threshold: int): set<nat>
    requires pts != [] && |scores| == |pts|
  {
    BaseChosen(pts) + Boosted(pts, scores, threshold)
  }

  lemma {:induction false} TargetIndices(targets: seq<(nat, int)>, pts: seq<int>, fps: nat, eligible: seq<nat>)
    requires fps > 0 && Indexes(eligible, pts) && |targets| == 6 * fps
    requires forall k :: 0 <= k < 6 * fps ==> targets[k].0 == Nearest(pts, eligible, Target(k, fps))
    ensures Indices(targets) == Chosen(pts, fps, eligible)
  {}

  lemma {:induction false} BaseWithinHigh(pts: seq<int>)
    requires pts != []
    ensures BaseChosen(pts) <= FixedChosen(pts, HIGH_FPS)
  {}

  // The errors of the first n lattice targets whose frame lies inside, or outside, every
  // triggered window.
  ghost function KeptErrors(
    pts: seq<int>, fps: nat, eligible: seq<nat>, scores: seq<int>, threshold: int, wanted: bool, n: nat): seq<int>
    requires fps > 0 && Indexes(eligible, pts) && |scores| == |pts|
  {
    if n == 0 then []
    else
      var target := Target(n - 1, fps);
      KeptErrors(pts, fps, eligible, scores, threshold, wanted, n - 1)
      + if Triggered(pts, scores, threshold, pts[Nearest(pts, eligible, target)]) == wanted
        then [ErrorMs(pts, eligible, target)] else []
  }

  lemma {:induction false} InsideErrors(
    pts: seq<int>, fps: nat, eligible: seq<nat>, scores: seq<int>, threshold: int, wanted: bool,
    targets: seq<(nat, int)>, windows: seq<Window>)
    requires fps > 0 && Indexes(eligible, pts) && |scores| == |pts|
    requires forall k :: 0 <= k < |targets| ==>
      targets[k] == (Nearest(pts, eligible, Target(k, fps)), ErrorMs(pts, eligible, Target(k, fps)))
    requires forall p :: InWindows(windows, p) <==> Triggered(pts, scores, threshold, p)
    ensures forall k :: 0 <= k < |targets| ==> targets[k].0 < |pts|
    ensures Errors(Inside(targets, pts, windows, wanted))
            == KeptErrors(pts, fps, eligible, scores, threshold, wanted, |targets|)
  {
    if targets == [] {
    } else {
      var n := |targets|;
      InsideErrors(pts, fps, eligible, scores, threshold, wanted, targets[..n - 1], windows);
      var kept := Inside(targets[..n - 1], pts, windows, wanted);
      assert Errors(kept + [targets[n - 1]]) == Errors(kept) + [targets[n - 1].1];
      assert Errors(kept + []) == Errors(kept);
    }
  }

  // Outside the windows the base lattice's errors, inside them those of the 8 FPS lattice.
  ghost function AdaptiveErrors(pts: seq<int>, scores: seq<int>, threshold: int): seq<int>
    requires pts != [] && |scores| == |pts|
  {
    KeptErrors(pts, BASE_FPS, HighIndices(pts), scores, threshold, false, 6 * BASE_FPS)
      + KeptErrors(pts, HIGH_FPS, UpTo(|pts|), scores, threshold, true, 6 * HIGH_FPS)
  }

  ghost predicate Lattice(targets: seq<(nat, int)>, pts: seq<int>, fps: nat, eligible: seq<nat>)
    requires fps > 0 && Indexes(eligible, pts)
  {
    |targets| == 6 * fps &&
    forall k :: 0 <= k < 6 * fps ==>
      targets[k] == (Nearest(pts, eligible, Target(k, fps)), ErrorMs(pts, eligible, Target(k, fps)))
  }

  lemma {:induction false} LatticeErrors(
    pts: seq<int>, fps: nat, eligible: seq<nat>, scores: seq<int>, threshold: int, wanted: bool,
    targets: seq<(nat, int)>, windows: seq<Window>)
    requires fps > 0 && Indexes(eligible, pts) && |scores| == |pts| && Lattice(targets, pts, fps, eligible)
    requires forall p :: InWindows(windows, p) <==> Triggered(pts, scores, threshold, p)
    ensures forall k :: 0 <= k < |targets| ==> targets[k].0 < |pts|
    ensures Errors(Inside(targets, pts, windows, wanted))
            == KeptErrors(pts, fps, eligible, scores, threshold, wanted, 6 * fps)
  {
    InsideErrors(pts, fps, eligible, scores, threshold, wanted, targets, windows);
  }

  lemma {:induction false} ErrorsAppend(a: seq<(nat, int)>, b: seq<(nat, int)>)
    ensures Errors(a + b) == Errors(a) + Errors(b)
  {}

  method AdaptiveSelection(pts: seq<int>, scores: seq<int>, threshold: int)
    returns (selected: set<nat>, errors: seq<int>)
    requires pts != [] && |scores| == |pts| && Increasing(pts)
    ensures selected == Adaptive(pts, scores, threshold)
    ensures errors == AdaptiveErrors(pts, scores, threshold)
  {
    var highTargets := NearestTargets(pts, HIGH_FPS, UpTo(|pts|));
    TargetIndices(highTargets, pts, HIGH_FPS, UpTo(|pts|));
    var highIndices := Ascending(|pts|, Indices(highTargets));
    assert highIndices == HighIndices(pts);
    var baseTargets := NearestTargets(pts, BASE_FPS, highIndices);
    TargetIndices(baseTargets, pts, BASE_FPS, highIndices);
    var windows := MotionWindows(pts, scores, threshold);
    var selectedTargets := Inside(baseTargets, pts, windows, false) + Inside(highTargets, pts, windows, true);
    SelectedMeaning(pts, scores, threshold, baseTargets, highTargets, windows);
    selected := Indices(selectedTargets);
    LatticeErrors(pts, BASE_FPS, highIndices, scores, threshold, false, baseTargets, windows);
    LatticeErrors(pts, HIGH_FPS, UpTo(|pts|), scores, threshold, true, highTargets, windows);
    ErrorsAppend(Inside(baseTargets, pts, windows, false), Inside(highTargets, pts, windows, true));
    errors := Errors(selectedTargets);
  }

  lemma {:induction false} IndicesAppend(a: seq<(nat, int)>, b: seq<(nat, int)>)
    ensures Indices(a + b) == Indices(a) + Indices(b)
  {
    var all := a + b;
    forall i | i in Indices(a) ensures i in Indices(all) {
      var k :| 0 <= k < |a| && a[k].0 == i;
      assert all[k].0 == i;
    }
    forall i | i in Indices(b) ensures i in Indices(all) {
      var k :| 0 <= k < |b| && b[k].0 == i;
      assert all[|a| + k].0 == i;
    }
  }

  // Filtering targets by their windows filters their indices.
  lemma {:induction false} InsideIndices(
    targets: seq<(nat, int)>, pts: seq<int>, windows: seq<Window>, wanted: bool, i: nat)
    requires forall k :: 0 <= k < |targets| ==> targets[k].0 < |pts|
    ensures i in Indices(Inside(targets, pts, windows, wanted)) <==>
            i in Indices(targets) && i < |pts| && (InWindows(windows, pts[i]) <==> wanted)
  {}

  lemma {:induction false} SelectedMeaning(pts: seq<int>, scores: seq<int>, threshold: int,
                                           base: seq<(nat, int)>, high: seq<(nat, int)>, windows: seq<Window>)
    requires pts != [] && |scores| == |pts|
    requires Indices(base) == BaseChosen(pts) && Indices(high) == FixedChosen(pts, HIGH_FPS)
    requires forall k :: 0 <= k < |base| ==> base[k].0 < |pts|
    requires forall k :: 0 <= k < |high| ==> high[k].0 < |pts|
    requires forall p :: InWindows(windows, p) <==> Triggered(pts, scores, threshold, p)
    ensures Indices(Inside(base, pts, windows, false) + Inside(high, pts, windows, true))
            == Adaptive(pts, scores, threshold)
  {
    var low, boost := Inside(base, pts, windows, false), Inside(high, pts, windows, true);
    BaseWithinHigh(pts);
    IndicesAppend(low, boost);
    forall i: nat ensures i in Indices(low + boost) <==> i in Adaptive(pts, scores, threshold) {
      InsideIndices(base, pts, windows, false, i);
      InsideIndices(high, pts, windows, true, i);
      if i in Indices(high) {
        var j :| 0 <= j < |high| && high[j].0 == i;
      }
    }
  }

  // The selection lies between the base lattice and the fixed 8 FPS selection, and can only
  // shrink as the threshold rises.
  lemma {:induction false} AdaptiveIsBracketed(pts: seq<int>, scores: seq<int>, low: int, high: int)
    requires pts != [] && |scores| == |pts| && low <= high
    ensures BaseChosen(pts) <= Adaptive(pts, scores, low) <= FixedChosen(pts, HIGH_FPS)
    ensures Adaptive(pts, scores, high) <= Adaptive(pts, scores, low)
  {}
}
