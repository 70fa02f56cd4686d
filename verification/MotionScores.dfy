// Tiled motion scores in millionths (run_v02_sampling_benchmark.py, lines 547-567).
module MotionScores {
  import opened Arithmetic
  import opened Bytes

  const WIDTH := 384
  const HEIGHT := 216
  const FRAME_BYTES := WIDTH * HEIGHT * 3

  function Change(x: int, y: int): nat { if x < y then y - x else x - y }

  ghost predicate SameAt(p: seq<Byte>, q: seq<Byte>, y: nat, x: nat)
    requires |p| == |q| == FRAME_BYTES && y < HEIGHT && x < WIDTH
  {
    var offset := (y * WIDTH + x) * 3;
    p[offset] == q[offset] && p[offset + 1] == q[offset + 1] && p[offset + 2] == q[offset + 2]
  }

  // Every fourth pixel of a 32-pixel stretch.
  ghost predicate RowAgrees(p: seq<Byte>, q: seq<Byte>, y: nat, left: nat)
    requires |p| == |q| == FRAME_BYTES && y < HEIGHT && left + 32 <= WIDTH
  {
    forall b :: 0 <= b < 8 ==> SameAt(p, q, y, left + 4 * b)
  }

  ghost predicate TileRowAgrees(p: seq<Byte>, q: seq<Byte>, top: nat, left: nat, a: nat)
    requires |p| == |q| == FRAME_BYTES && top + 24 <= HEIGHT && left + 32 <= WIDTH && a < 6
  {
    RowAgrees(p, q, top + 4 * a, left)
  }

  // Every fourth row of a 24-row tile.
  ghost predicate TileAgrees(p: seq<Byte>, q: seq<Byte>, top: nat, left: nat)
    requires |p| == |q| == FRAME_BYTES && top + 24 <= HEIGHT && left + 32 <= WIDTH
  {
    forall a :: 0 <= a < 6 ==> TileRowAgrees(p, q, top, left, a)
  }

  ghost predicate BandAgrees(p: seq<Byte>, q: seq<Byte>, top: nat)
    requires |p| == |q| == FRAME_BYTES && top + 24 <= HEIGHT
  {
    forall j :: 0 <= j < 12 ==> TileAgrees(p, q, top, 32 * j)
  }

  ghost predicate FramesAgree(p: seq<Byte>, q: seq<Byte>)
    requires |p| == |q| == FRAME_BYTES
  {
    forall i :: 0 <= i < 9 ==> BandAgrees(p, q, 24 * i)
  }

  // ----- the score -----

  const ACROSS: nat := 8
  const DOWN: nat := 6
  const LEVELS := 36_720

  ghost predicate TileFits(p: seq<Byte>, q: seq<Byte>, top: nat, left: nat) {
    |p| == |q| == FRAME_BYTES && top + 24 <= HEIGHT && left + 32 <= WIDTH
  }

  // How much the three channels of one pixel changed.
  function PixelChange(p: seq<Byte>, q: seq<Byte>, y: nat, x: nat): nat
    requires |p| == |q| == FRAME_BYTES && y < HEIGHT && x < WIDTH
  {
    var offset := (y * WIDTH + x) * 3;
    Change(p[offset], q[offset]) + Change(p[offset + 1], q[offset + 1]) + Change(p[offset + 2], q[offset + 2])
  }

  function RowTotal(p: seq<Byte>, q: seq<Byte>, y: nat, left: nat, n: nat): nat
    requires |p| == |q| == FRAME_BYTES && y < HEIGHT && left + 32 <= WIDTH && n <= ACROSS
  {
    if n == 0 then 0 else RowTotal(p, q, y, left, n - 1) + PixelChange(p, q, y, left + 4 * (n - 1))
  }

  ghost function TileTotal(p: seq<Byte>, q: seq<Byte>, top: nat, left: nat, n: nat): nat
    requires TileFits(p, q, top, left) && n <= DOWN
  {
    if n == 0 then 0 else TileTotal(p, q, top, left, n - 1) + RowTotal(p, q, top + 4 * (n - 1), left, ACROSS)
  }

  // A tile's change in millionths of the largest possible one, rounded down.
  ghost function TileValue(p: seq<Byte>, q: seq<Byte>, top: nat, left: nat): int
    requires TileFits(p, q, top, left)
  {
    TileTotal(p, q, top, left, DOWN) * 1_000_000 / LEVELS
  }

  ghost function TileAt(p: seq<Byte>, q: seq<Byte>, i: nat, j: nat): int
    requires |p| == |q| == FRAME_BYTES && i < 9 && j < 12
  {
    TileValue(p, q, 24 * i, 32 * j)
  }

  // `v` is the greatest value of any tile.
  ghost predicate IsGreatestTile(v: int, p: seq<Byte>, q: seq<Byte>)
    requires |p| == |q| == FRAME_BYTES
  {
    && (forall i: nat, j: nat :: i < 9 && j < 12 ==> TileAt(p, q, i, j) <= v)
    && exists i: nat, j: nat :: i < 9 && j < 12 && TileAt(p, q, i, j) == v
  }

  // A total of changes is 0 exactly when nothing sampled changed.
  lemma {:induction false} RowTotalZero(p: seq<Byte>, q: seq<Byte>, y: nat, left: nat, n: nat)
    requires |p| == |q| == FRAME_BYTES && y < HEIGHT && left + 32 <= WIDTH && n <= ACROSS
    ensures RowTotal(p, q, y, left, n) == 0 <==> forall b :: 0 <= b < n ==> SameAt(p, q, y, left + 4 * b)
  {
    if n == 0 {
    } else {
      RowTotalZero(p, q, y, left, n - 1);
    }
  }

  lemma {:induction false} RowZero(p: seq<Byte>, q: seq<Byte>, y: nat, left: nat)
    requires |p| == |q| == FRAME_BYTES && y < HEIGHT && left + 32 <= WIDTH
    ensures RowTotal(p, q, y, left, ACROSS) == 0 <==> RowAgrees(p, q, y, left)
  {
    RowTotalZero(p, q, y, left, ACROSS);
  }

  lemma {:induction false} TileRowZero(p: seq<Byte>, q: seq<Byte>, top: nat, left: nat, a: nat)
    requires TileFits(p, q, top, left) && a < DOWN
    ensures RowTotal(p, q, top + 4 * a, left, ACROSS) == 0 <==> TileRowAgrees(p, q, top, left, a)
  {
    RowZero(p, q, top + 4 * a, left);
  }

  lemma {:induction false} TileTotalZero(p: seq<Byte>, q: seq<Byte>, top: nat, left: nat, n: nat)
    requires TileFits(p, q, top, left) && n <= DOWN
    ensures TileTotal(p, q, top, left, n) == 0 <==> forall a :: 0 <= a < n ==> TileRowAgrees(p, q, top, left, a)
  {
    if n == 0 {
    } else {
      TileTotalZero(p, q, top, left, n - 1);
      TileRowZero(p, q, top, left, n - 1);
    }
  }

  lemma {:induction false} RowTotalBound(p: seq<Byte>, q: seq<Byte>, y: nat, left: nat, n: nat)
    requires |p| == |q| == FRAME_BYTES && y < HEIGHT && left + 32 <= WIDTH && n <= ACROSS
    ensures RowTotal(p, q, y, left, n) <= n * 765
  {
    if n == 0 {
    } else {
      RowTotalBound(p, q, y, left, n - 1);
    }
  }

  lemma {:induction false} TileTotalBound(p: seq<Byte>, q: seq<Byte>, top: nat, left: nat, n: nat)
    requires TileFits(p, q, top, left) && n <= DOWN
    ensures TileTotal(p, q, top, left, n) <= n * 6120
  {
    if n == 0 {
    } else {
      TileTotalBound(p, q, top, left, n - 1);
      RowTotalBound(p, q, top + 4 * (n - 1), left, ACROSS);
    }
  }

  // The rounding hides no change, and no tile exceeds a million.
  lemma {:induction false} TileValueMeaning(p: seq<Byte>, q: seq<Byte>, top: nat, left: nat)
    requires TileFits(p, q, top, left)
    ensures 0 <= TileValue(p, q, top, left) <= 1_000_000
    ensures TileValue(p, q, top, left) == 0 <==> TileAgrees(p, q, top, left)
  {
    TileTotalBound(p, q, top, left, DOWN);
    TileTotalZero(p, q, top, left, DOWN);
  }

  // ----- a tile as 144 sampled bytes -----

  // How much a sampled byte changed: channel c of pixel b of row a, every fourth pixel and row.
  ghost function ByteChange(p: seq<Byte>, q: seq<Byte>, top: nat, left: nat, a: nat, b: nat, c: nat): nat
    requires TileFits(p, q, top, left) && a < 6 && b < 8 && c < 3
  {
    var place := ((top + 4 * a) * 384 + left + 4 * b) * 3 + c;
    if p[place] >= q[place] then p[place] - q[place] else q[place] - p[place]
  }

  lemma {:induction false} BytesOfPixel(p: seq<Byte>, q: seq<Byte>, top: nat, left: nat, a: nat, b: nat)
    requires TileFits(p, q, top, left) && a < 6 && b < 8
    ensures PixelChange(p, q, top + 4 * a, left + 4 * b) ==
            ByteChange(p, q, top, left, a, b, 0) + ByteChange(p, q, top, left, a, b, 1)
            + ByteChange(p, q, top, left, a, b, 2)
  {}

  ghost predicate ChangesWithin(p: seq<Byte>, q: seq<Byte>, top: nat, left: nat, low: nat, high: nat)
    requires TileFits(p, q, top, left)
  {
    forall a: nat, b: nat, c: nat :: a < 6 && b < 8 && c < 3 ==> low <= ByteChange(p, q, top, left, a, b, c) <= high
  }

  lemma {:induction false} PixelWithin(p: seq<Byte>, q: seq<Byte>, top: nat, left: nat, a: nat, b: nat, low: nat,
                                       high: nat)
    requires TileFits(p, q, top, left) && a < 6 && b < 8 && ChangesWithin(p, q, top, left, low, high)
    ensures 3 * low <= PixelChange(p, q, top + 4 * a, left + 4 * b) <= 3 * high
  {
    BytesOfPixel(p, q, top, left, a, b);
  }

  lemma {:induction false} OneMore(n: nat, w: nat)
    requires n > 0
    ensures n * w == (n - 1) * w + w
  {}

  lemma {:induction false} RowWithin(p: seq<Byte>, q: seq<Byte>, top: nat, left: nat, a: nat, n: nat, low: nat,
                                     high: nat, least: nat, most: nat)
    requires TileFits(p, q, top, left) && a < 6 && n <= 8 && ChangesWithin(p, q, top, left, low, high)
    requires least == 3 * low && most == 3 * high
    ensures n * least <= RowTotal(p, q, top + 4 * a, left, n) <= n * most
  {
    if n == 0 {
    } else {
      RowWithin(p, q, top, left, a, n - 1, low, high, least, most);
      PixelWithin(p, q, top, left, a, n - 1, low, high);
      OneMore(n, least);
      OneMore(n, most);
    }
  }

  lemma {:induction false} TileWithin(p: seq<Byte>, q: seq<Byte>, top: nat, left: nat, n: nat, low: nat, high: nat,
                                      least: nat, most: nat)
    requires TileFits(p, q, top, left) && n <= 6 && ChangesWithin(p, q, top, left, low, high)
    requires least == 24 * low && most == 24 * high
    ensures n * least <= TileTotal(p, q, top, left, n) <= n * most
  {
    if n == 0 {
    } else {
      TileWithin(p, q, top, left, n - 1, low, high, least, most);
      RowWithin(p, q, top, left, n - 1, 8, low, high, 3 * low, 3 * high);
      OneMore(n, least);
      OneMore(n, most);
    }
  }

  // A tile's value lies between its least and its greatest byte change, in millionths of 255 and
  // rounded down: it is this change where all sampled bytes change alike.
  lemma {:induction false} TileValueWithin(p: seq<Byte>, q: seq<Byte>, top: nat, left: nat, low: nat, high: nat)
    requires TileFits(p, q, top, left) && ChangesWithin(p, q, top, left, low, high)
    ensures low * 1_000_000 / 255 <= TileValue(p, q, top, left) <= high * 1_000_000 / 255
  {
    TileWithin(p, q, top, left, DOWN, low, high, 24 * low, 24 * high);
  }

  // A greatest tile of 0 means that no tile changed.
  lemma {:induction false} GreatestMeaning(v: int, p: seq<Byte>, q: seq<Byte>)
    requires |p| == |q| == FRAME_BYTES && IsGreatestTile(v, p, q)
    ensures 0 <= v <= 1_000_000
    ensures v == 0 <==> FramesAgree(p, q)
  {
    forall i: nat, j: nat | i < 9 && j < 12
      ensures 0 <= TileAt(p, q, i, j) <= 1_000_000 && (TileAt(p, q, i, j) == 0 <==> TileAgrees(p, q, 24 * i, 32 * j))
    {
      TileValueMeaning(p, q, 24 * i, 32 * j);
    }
    if v == 0 {
      forall i | 0 <= i < 9 ensures BandAgrees(p, q, 24 * i) {
        forall j | 0 <= j < 12 ensures TileAgrees(p, q, 24 * i, 32 * j) { assert TileAt(p, q, i, j) <= v; }
      }
    } else {
      var i: nat, j: nat :| i < 9 && j < 12 && TileAt(p, q, i, j) == v;
      assert !TileAgrees(p, q, 24 * i, 32 * j);
      assert !BandAgrees(p, q, 24 * i);
    }
  }

  method RowDifference(p: seq<Byte>, q: seq<Byte>, y: nat, left: nat) returns (difference: nat, samples: nat)
    requires |p| == |q| == FRAME_BYTES && y < HEIGHT && left + 32 <= WIDTH
    ensures samples == 24 && difference == RowTotal(p, q, y, left, ACROSS)
  {
    difference, samples := 0, 0;
    var x := left;
    ghost var b := 0;
    while x < Min(WIDTH, left + 32)
      invariant x == left + 4 * b && 0 <= b <= ACROSS
      invariant samples == 3 * b && difference == RowTotal(p, q, y, left, b)
    {
      difference := difference + PixelChange(p, q, y, x);
      samples := samples + 3;
      x, b := x + 4, b + 1;
    }
  }

  method TileScore(p: seq<Byte>, q: seq<Byte>, top: nat, left: nat) returns (score: nat)
    requires TileFits(p, q, top, left)
    ensures score == TileValue(p, q, top, left)
  {
    var difference: nat, samples: nat := 0, 0;
    var y := top;
    ghost var a := 0;
    while y < Min(HEIGHT, top + 24)
      invariant y == top + 4 * a && 0 <= a <= DOWN
      invariant samples == 24 * a && difference == TileTotal(p, q, top, left, a)
    {
      var d, s := RowDifference(p, q, y, left);
      difference, samples := difference + d, samples + s;
      y, a := y + 4, a + 1;
    }
    score := difference * 1_000_000 / (samples * 255);
  }

  // The first score is 0.  A later one is the greatest tile value against the frame before,
  // within 0..1,000,000, and 0 exactly when no sampled byte changed: the rounding never hides
  // a change.
  method Scores(frames: seq<seq<Byte>>) returns (scores: seq<int>)
    requires frames != [] && forall k :: 0 <= k < |frames| ==> |frames[k]| == FRAME_BYTES
    ensures |scores| == |frames| && scores[0] == 0
    ensures forall k :: 0 <= k < |scores| ==> 0 <= scores[k] <= 1_000_000
    ensures forall k :: 0 < k < |scores| ==> IsGreatestTile(scores[k], frames[k], frames[k - 1])
    ensures forall k :: 0 < k < |scores| ==> (scores[k] == 0 <==> FramesAgree(frames[k], frames[k - 1]))
  {
    scores := [0];
    var prior := frames[0];
    for n := 1 to |frames|
      invariant |scores| == n && scores[0] == 0 && prior == frames[n - 1]
      invariant forall k :: 0 < k < n ==> IsGreatestTile(scores[k], frames[k], frames[k - 1])
    {
      var maximum := FrameScore(frames[n], prior);
      scores := scores + [maximum];
      prior := frames[n];
    }
    forall k | 0 < k < |scores|
      ensures 0 <= scores[k] <= 1_000_000 && (scores[k] == 0 <==> FramesAgree(frames[k], frames[k - 1]))
    {
      GreatestMeaning(scores[k], frames[k], frames[k - 1]);
    }
  }

  // `v` is the greatest value of the tiles before tile j of band i.
  ghost predicate GreatestBefore(v: int, p: seq<Byte>, q: seq<Byte>, i: nat, j: nat)
    requires |p| == |q| == FRAME_BYTES
  {
    && (forall a: nat, b: nat :: a < 9 && b < 12 && Before(a, b, i, j) ==> TileAt(p, q, a, b) <= v)
    && ((i == j == v == 0) || exists a: nat, b: nat :: a < 9 && b < 12 && Before(a, b, i, j) && TileAt(p, q, a, b) == v)
  }

  predicate Before(a: nat, b: nat, i: nat, j: nat) {
    a < i || (a == i && b < j)
  }

  lemma {:induction false} GreatestNext(v: nat, score: nat, p: seq<Byte>, q: seq<Byte>, i: nat, j: nat)
    requires |p| == |q| == FRAME_BYTES && i < 9 && j < 12 && GreatestBefore(v, p, q, i, j)
    requires score == TileAt(p, q, i, j)
    ensures GreatestBefore(Max(v, score), p, q, i, j + 1)
  {
    var greatest := Max(v, score);
    if greatest == score {
      assert Before(i, j, i, j + 1) && TileAt(p, q, i, j) == greatest;
    } else {
      var a: nat, b: nat :| a < 9 && b < 12 && Before(a, b, i, j) && TileAt(p, q, a, b) == v;
      assert Before(a, b, i, j + 1);
    }
  }

  lemma {:induction false} GreatestOfBand(v: nat, p: seq<Byte>, q: seq<Byte>, i: nat)
    requires |p| == |q| == FRAME_BYTES && i < 9 && GreatestBefore(v, p, q, i, 12)
    ensures GreatestBefore(v, p, q, i + 1, 0)
  {
    var a: nat, b: nat :| a < 9 && b < 12 && Before(a, b, i, 12) && TileAt(p, q, a, b) == v;
    assert Before(a, b, i + 1, 0);
  }

  lemma {:induction false} GreatestOfAll(v: nat, p: seq<Byte>, q: seq<Byte>)
    requires |p| == |q| == FRAME_BYTES && GreatestBefore(v, p, q, 9, 0)
    ensures IsGreatestTile(v, p, q)
  {
    forall a: nat, b: nat | a < 9 && b < 12 ensures TileAt(p, q, a, b) <= v { assert Before(a, b, 9, 0); }
  }

  method FrameScore(p: seq<Byte>, q: seq<Byte>) returns (maximum: nat)
    requires |p| == |q| == FRAME_BYTES
    ensures IsGreatestTile(maximum, p, q)
  {
    maximum := 0;
    var top := 0;
    ghost var i := 0;
    while top < HEIGHT
      invariant top == 24 * i && 0 <= i <= 9 && GreatestBefore(maximum, p, q, i, 0)
    {
      var left := 0;
      ghost var j := 0;
      while left < WIDTH
        invariant left == 32 * j && 0 <= j <= 12 && GreatestBefore(maximum, p, q, i, j)
      {
        var score := TileScore(p, q, top, left);
        GreatestNext(maximum, score, p, q, i, j);
        maximum := Max(maximum, score);
        left, j := left + 32, j + 1;
      }
      GreatestOfBand(maximum, p, q, i);
      top, i := top + 24, i + 1;
    }
    GreatestOfAll(maximum, p, q);
  }
}
