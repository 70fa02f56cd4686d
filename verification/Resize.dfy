// Fixed-point bilinear resize and aspect fitting (prepare_v02_detection_dataset.py, lines 361-434).
module Resize {
  import opened Arithmetic
  import opened CellCenters
  import opened Wrappers
  import opened Bytes
  import opened Pixels

  const SCALE := 0x1_0000
  const HALF := 0x8000

  // The source coordinate of the center of a target sample, in 1/65536 of a pixel.
  function Fixed(t: nat, source: nat, target: nat): int
    requires target > 0
  {
    ((2 * t + 1) * source * SCALE) / (2 * target) - HALF
  }

  function Lower(t: nat, source: nat, target: nat): int
    requires target > 0
  {
    Max(0, Min(source - 1, Fixed(t, source, target) / SCALE))
  }

  function Upper(t: nat, source: nat, target: nat): int
    requires target > 0
  {
    Min(source - 1, Lower(t, source, target) + 1)
  }

  function Fraction(t: nat, source: nat, target: nat): int
    requires target > 0
  {
    Max(0, Min(SCALE, Fixed(t, source, target) - Lower(t, source, target) * SCALE))
  }

  lemma {:induction false} QuotientMonotone(a: nat, c: nat, b: nat)
    requires b > 0 && a <= c
    ensures a / b <= c / b
  {
    QuotientBounds(a, b); QuotientBounds(c, b);
    if c / b < a / b { Product(c / b + 1, a / b, b); }
  }

  lemma {:induction false} FixedBounds(t: nat, source: nat, target: nat)
    requires t < target && source > 0
    ensures -HALF <= Fixed(t, source, target) < source * SCALE - HALF
  {
    CenterBelow(t, target, source * SCALE);
    assert (2 * t + 1) * source * SCALE == (2 * t + 1) * (source * SCALE);
  }

  lemma {:induction false} WholeAndRest(f: int, source: nat)
    requires -HALF <= f < source * SCALE - HALF
    ensures -1 <= f / SCALE <= source - 1 && 0 <= f - f / SCALE * SCALE < SCALE
    ensures f / SCALE == -1 ==> f < 0
  {}

  // The coordinate stays strictly inside the image on the high side, so the upper index clamp
  // never binds, nor does the upper clamp on the fraction.
  lemma {:induction false} CoordinateBounds(t: nat, source: nat, target: nat)
    requires t < target && source > 0
    ensures -HALF <= Fixed(t, source, target) < source * SCALE - HALF
    ensures Fixed(t, source, target) / SCALE <= source - 1
    ensures 0 <= Lower(t, source, target) <= Upper(t, source, target) < source
    ensures 0 <= Fraction(t, source, target) < SCALE
    ensures Lower(t, source, target) == Max(0, Fixed(t, source, target) / SCALE)
    ensures Fraction(t, source, target) == Max(0, Fixed(t, source, target) - Lower(t, source, target) * SCALE)
  {
    FixedBounds(t, source, target);
    WholeAndRest(Fixed(t, source, target), source);
  }

  // Later target samples never read earlier source coordinates.
  lemma {:induction false} CoordinatesMonotone(s: nat, t: nat, source: nat, target: nat)
    requires s <= t < target && source > 0
    ensures Fixed(s, source, target) <= Fixed(t, source, target)
    ensures Lower(s, source, target) <= Lower(t, source, target)
    ensures Upper(s, source, target) <= Upper(t, source, target)
  {
    var m, n := (2 * s + 1) * source * SCALE, (2 * t + 1) * source * SCALE;
    assert m <= n by {
      Product(2 * s + 1, 2 * t + 1, source);
      assert (2 * s + 1) * source <= (2 * t + 1) * source;
    }
    assert m >= 0;
    QuotientMonotone(m, n, 2 * target);
  }

  // At equal sizes every target sample sits exactly on its own source sample.
  lemma {:induction false} EqualSizes(t: nat, size: nat)
    requires t < size
    ensures Fixed(t, size, size) == t * SCALE && Lower(t, size, size) == t && Fraction(t, size, size) == 0
  {
    var n, q := (2 * t + 1) * size * SCALE, (2 * t + 1) * HALF;
    assert n == q * (2 * size);
    QuotientBounds(n, 2 * size);
    if n / (2 * size) < q {
      Product(n / (2 * size) + 1, q, 2 * size);
    } else if n / (2 * size) > q {
      Product(q + 1, n / (2 * size), 2 * size);
    }
  }

  // Where the center of target sample t falls among the source samples: between `low` and `high`,
  // `fraction` 65536ths of the way; before the first center it is the first sample itself.
  ghost predicate IsPosition(t: nat, source: nat, target: nat, low: nat, high: nat, fraction: nat) {
    && low < source && high == (if low + 1 < source then low + 1 else low) && fraction < 65536
    && var position := low * 65536 + fraction;
       && (position == 0 || (position + 32768) * (2 * target) <= (2 * t + 1) * source * 65536)
       && (2 * t + 1) * source * 65536 < (position + 32769) * (2 * target)
  }

  lemma {:induction false} ClampedQuotient(n: nat, d: nat, position: nat)
    requires d > 0
    ensures (position == 0 || (position + HALF) * d <= n) && n < (position + HALF + 1) * d
            <==> position == Max(0, n / d - HALF)
  {
    var q := n / d;
    QuotientBounds(n, d);
    assert q * d + d == (q + 1) * d;
    if q > position + HALF { Product(position + HALF + 1, q, d); }
    if q < position + HALF { Product(q + 1, position + HALF, d); }
    if q <= position + HALF { Product(q + 1, position + HALF + 1, d); }
  }

  lemma {:induction false} PositionOf(t: nat, source: nat, target: nat)
    requires t < target && source > 0
    ensures Lower(t, source, target) >= 0 && Upper(t, source, target) >= 0 && Fraction(t, source, target) >= 0
    ensures IsPosition(t, source, target, Lower(t, source, target), Upper(t, source, target),
                       Fraction(t, source, target))
  {
    CoordinateBounds(t, source, target);
    WholeAndRest(Fixed(t, source, target), source);
    ClampedQuotient((2 * t + 1) * source * SCALE, 2 * target, Max(0, Fixed(t, source, target)));
  }

  // There is only one such position.
  lemma {:induction false} PositionIs(t: nat, source: nat, target: nat, low: nat, high: nat, fraction: nat)
    requires t < target && IsPosition(t, source, target, low, high, fraction)
    ensures Lower(t, source, target) == low && Upper(t, source, target) == high
    ensures Fraction(t, source, target) == fraction
  {
    var position := low * SCALE + fraction;
    ClampedQuotient((2 * t + 1) * source * SCALE, 2 * target, position);
    CoordinateBounds(t, source, target);
    WholeAndRest(Fixed(t, source, target), source);
    RemainderIs(position, SCALE, low, fraction);
  }

  // ----- interpolation -----

  function Blend(a: int, b: int, f: int): int {
    a * (SCALE - f) + b * f
  }

  // Four corner samples, weighted and rounded.
  function Interpolate(a: int, b: int, c: int, d: int, fx: int, fy: int): int {
    (Blend(Blend(a, b, fx), Blend(c, d, fx), fy) + 0x8000_0000) / 0x1_0000_0000
  }

  lemma {:induction false} BlendBounds(a: int, b: int, f: int, low: int, high: int)
    requires low <= a <= high && low <= b <= high && 0 <= f <= SCALE
    ensures low * SCALE <= Blend(a, b, f) <= high * SCALE
  {
    Product(low, a, SCALE - f); Product(a, high, SCALE - f);
    Product(low, b, f); Product(b, high, f);
    assert low * (SCALE - f) + low * f == low * SCALE && high * (SCALE - f) + high * f == high * SCALE;
  }

  lemma {:induction false} InterpolationBounds(a: int, b: int, c: int, d: int, fx: int, fy: int, low: int, high: int)
    requires low <= a <= high && low <= b <= high && low <= c <= high && low <= d <= high
    requires 0 <= fx <= SCALE && 0 <= fy <= SCALE
    ensures low <= Interpolate(a, b, c, d, fx, fy) <= high
  {
    BlendBounds(a, b, fx, low, high);
    BlendBounds(c, d, fx, low, high);
    BlendBounds(Blend(a, b, fx), Blend(c, d, fx), fy, low * SCALE, high * SCALE);
  }

  // The four samples weighted by their distances, with halves rounded up.
  ghost predicate IsWeighted(v: int, a: int, b: int, c: int, d: int, fx: int, fy: int) {
    var sum := a * ((65536 - fx) * (65536 - fy)) + b * (fx * (65536 - fy))
               + c * ((65536 - fx) * fy) + d * (fx * fy);
    v * 0x1_0000_0000 <= sum + 0x8000_0000 < (v + 1) * 0x1_0000_0000
  }

  lemma {:induction false} InterpolateIsWeighted(a: int, b: int, c: int, d: int, fx: int, fy: int)
    ensures IsWeighted(Interpolate(a, b, c, d, fx, fy), a, b, c, d, fx, fy)
  {
    var gx, gy := SCALE - fx, SCALE - fy;
    Expand(a, gx, gy); Expand(b, fx, gy); Expand(c, gx, fy); Expand(d, fx, fy);
    assert Blend(Blend(a, b, fx), Blend(c, d, fx), fy) == (a * gx + b * fx) * gy + (c * gx + d * fx) * fy;
    Distribute(a * gx, b * fx, gy); Distribute(c * gx, d * fx, fy);
  }

  lemma {:induction false} Expand(a: int, x: int, y: int)
    ensures a * x * y == a * (x * y)
  {}

  lemma {:induction false} Distribute(a: int, b: int, x: int)
    ensures (a + b) * x == a * x + b * x
  {}

  // ----- the resize -----

  ghost predicate Sized(width: int, height: int, pixels: seq<Byte>) {
    width >= 1 && height >= 1 && |pixels| == width * height * 3
  }

  // A source sample.
  function Sample(pixels: seq<Byte>, width: nat, x: int, y: int, c: nat): int {
    if x >= 0 && y >= 0 && Index(width, x, y, c) < |pixels| then pixels[Index(width, x, y, c)] else 0
  }

  // What the resize computes for one channel of one target pixel.
  function Resized(pixels: seq<Byte>, sw: nat, sh: nat, tw: nat, th: nat, x: nat, y: nat, c: nat): int
    requires tw > 0 && th > 0
  {
    var x0, x1, fx := Lower(x, sw, tw), Upper(x, sw, tw), Fraction(x, sw, tw);
    var y0, y1, fy := Lower(y, sh, th), Upper(y, sh, th), Fraction(y, sh, th);
    Interpolate(Sample(pixels, sw, x0, y0, c), Sample(pixels, sw, x1, y0, c),
                Sample(pixels, sw, x0, y1, c), Sample(pixels, sw, x1, y1, c), fx, fy)
  }

  // Every read is in bounds, and the result lies between any bounds on its four samples.
  lemma {:induction false} ResizedMeaning(
    pixels: seq<Byte>, sw: nat, sh: nat, tw: nat, th: nat, x: nat, y: nat, c: nat, low: int, high: int)
    requires Sized(sw, sh, pixels) && OnCanvas(tw, th, x, y, c)
    requires forall i, j ::
               (i == Lower(x, sw, tw) || i == Upper(x, sw, tw)) && (j == Lower(y, sh, th) || j == Upper(y, sh, th)) ==>
                 low <= Sample(pixels, sw, i, j, c) <= high
    ensures low <= Resized(pixels, sw, sh, tw, th, x, y, c) <= high
    ensures Index(sw, Lower(x, sw, tw), Lower(y, sh, th), c) < |pixels|
    ensures Index(sw, Upper(x, sw, tw), Lower(y, sh, th), c) < |pixels|
    ensures Index(sw, Lower(x, sw, tw), Upper(y, sh, th), c) < |pixels|
    ensures Index(sw, Upper(x, sw, tw), Upper(y, sh, th), c) < |pixels|
  {
    CoordinateBounds(x, sw, tw);
    CoordinateBounds(y, sh, th);
    var x0, x1, y0, y1 := Lower(x, sw, tw), Upper(x, sw, tw), Lower(y, sh, th), Upper(y, sh, th);
    IndexWithin(sw, sh, x0, y0, c); IndexWithin(sw, sh, x1, y0, c);
    IndexWithin(sw, sh, x0, y1, c); IndexWithin(sw, sh, x1, y1, c);
    InterpolationBounds(Sample(pixels, sw, x0, y0, c), Sample(pixels, sw, x1, y0, c),
                        Sample(pixels, sw, x0, y1, c), Sample(pixels, sw, x1, y1, c),
                        Fraction(x, sw, tw), Fraction(y, sh, th), low, high);
  }

  lemma {:induction false} ResizedIsByte(pixels: seq<Byte>, sw: nat, sh: nat, tw: nat, th: nat, x: nat, y: nat, c: nat)
    requires Sized(sw, sh, pixels) && OnCanvas(tw, th, x, y, c)
    ensures 0 <= Resized(pixels, sw, sh, tw, th, x, y, c) < 256
  {
    ResizedMeaning(pixels, sw, sh, tw, th, x, y, c, 0, 255);
  }

  // A constant image stays constant.
  lemma {:induction false} ConstantStaysConstant(
    pixels: seq<Byte>, sw: nat, sh: nat, tw: nat, th: nat, x: nat, y: nat, c: nat, v: Byte)
    requires Sized(sw, sh, pixels) && OnCanvas(tw, th, x, y, c)
    requires forall i: nat, j: nat :: OnCanvas(sw, sh, i, j, c) ==> Sample(pixels, sw, i, j, c) == v
    ensures Resized(pixels, sw, sh, tw, th, x, y, c) == v
  {
    CoordinateBounds(x, sw, tw);
    CoordinateBounds(y, sh, th);
    ResizedMeaning(pixels, sw, sh, tw, th, x, y, c, v, v);
  }

  // Equal dimensions give the image back.
  lemma {:induction false} EqualSizesIdentity(pixels: seq<Byte>, width: nat, height: nat, x: nat, y: nat, c: nat)
    requires Sized(width, height, pixels) && OnCanvas(width, height, x, y, c)
    ensures Resized(pixels, width, height, width, height, x, y, c) == Sample(pixels, width, x, y, c)
  {
    EqualSizes(x, width);
    EqualSizes(y, height);
    var a := Sample(pixels, width, x, y, c);
    var b, d, e := Sample(pixels, width, Upper(x, width, width), y, c),
      Sample(pixels, width, x, Upper(y, height, height), c),
                   Sample(pixels, width, Upper(x, width, width), Upper(y, height, height), c);
  }

  ghost predicate IsResized(output: seq<Byte>, pixels: seq<Byte>, sw: nat, sh: nat, tw: nat, th: nat)
    requires tw > 0 && th > 0
  {
    |output| == tw * th * 3 &&
    forall x: nat, y: nat, c: nat {:trigger Index(tw, x, y, c)} :: OnCanvas(tw, th, x, y, c) ==>
      Index(tw, x, y, c) < |output| && output[Index(tw, x, y, c)] == Resized(pixels, sw, sh, tw, th, x, y, c)
  }

  // What is stored at place k is the weighted mean of four stored samples.
  ghost predicate StoresWeighted(output: seq<Byte>, k: int, pixels: seq<Byte>, a: int, b: int, c: int, d: int,
                                 fx: int, fy: int)
  {
    && 0 <= k < |output| && 0 <= a < |pixels| && 0 <= b < |pixels| && 0 <= c < |pixels| && 0 <= d < |pixels|
    && IsWeighted(output[k], pixels[a], pixels[b], pixels[c], pixels[d], fx, fy)
  }

  lemma {:induction false} StoredSample(pixels: seq<Byte>, width: nat, height: nat, x: nat, y: nat, c: nat)
    requires Sized(width, height, pixels) && OnCanvas(width, height, x, y, c)
    ensures 0 <= (y * width + x) * 3 + c < |pixels|
    ensures pixels[(y * width + x) * 3 + c] == Sample(pixels, width, x, y, c)
  {
    IndexWithin(width, height, x, y, c);
    assert Index(width, x, y, c) == (y * width + x) * 3 + c;
  }

  lemma {:induction false} StoredOutput(output: seq<Byte>, pixels: seq<Byte>, sw: nat, sh: nat, tw: nat, th: nat,
                                        x: nat, y: nat, c: nat)
    requires tw > 0 && th > 0 && IsResized(output, pixels, sw, sh, tw, th) && OnCanvas(tw, th, x, y, c)
    ensures 0 <= (y * tw + x) * 3 + c < |output|
    ensures output[(y * tw + x) * 3 + c] == Resized(pixels, sw, sh, tw, th, x, y, c)
  {
    assert Index(tw, x, y, c) == (y * tw + x) * 3 + c;
  }

  lemma {:induction false} ResizedAt(
    pixels: seq<Byte>, sw: nat, sh: nat, tw: nat, th: nat, x: nat, y: nat, c: nat,
    x0: nat, x1: nat, fx: nat, y0: nat, y1: nat, fy: nat)
    requires x < tw && y < th && IsPosition(x, sw, tw, x0, x1, fx) && IsPosition(y, sh, th, y0, y1, fy)
    ensures IsWeighted(Resized(pixels, sw, sh, tw, th, x, y, c),
                       Sample(pixels, sw, x0, y0, c), Sample(pixels, sw, x1, y0, c),
                       Sample(pixels, sw, x0, y1, c), Sample(pixels, sw, x1, y1, c), fx, fy)
  {
    PositionIs(x, sw, tw, x0, x1, fx);
    PositionIs(y, sh, th, y0, y1, fy);
    InterpolateIsWeighted(Sample(pixels, sw, x0, y0, c), Sample(pixels, sw, x1, y0, c),
                          Sample(pixels, sw, x0, y1, c), Sample(pixels, sw, x1, y1, c), fx, fy);
  }

  lemma {:induction false} PositionInside(t: nat, source: nat, target: nat, low: nat, high: nat, fraction: nat)
    requires IsPosition(t, source, target, low, high, fraction)
    ensures low < source && high < source
  {}

  // Every channel of the output is the weighted mean of the four source channels around its center.
  lemma {:induction false} OutputIsWeighted(
    output: seq<Byte>, pixels: seq<Byte>, sw: nat, sh: nat, tw: nat, th: nat, x: nat, y: nat, c: nat,
    x0: nat, x1: nat, fx: nat, y0: nat, y1: nat, fy: nat)
    requires Sized(sw, sh, pixels) && tw > 0 && th > 0 && IsResized(output, pixels, sw, sh, tw, th)
    requires x < tw && y < th && c < 3 && IsPosition(x, sw, tw, x0, x1, fx) && IsPosition(y, sh, th, y0, y1, fy)
    ensures StoresWeighted(output, (y * tw + x) * 3 + c, pixels, (y0 * sw + x0) * 3 + c, (y0 * sw + x1) * 3 + c,
                           (y1 * sw + x0) * 3 + c, (y1 * sw + x1) * 3 + c, fx, fy)
  {
    PositionInside(x, sw, tw, x0, x1, fx);
    PositionInside(y, sh, th, y0, y1, fy);
    StoredSample(pixels, sw, sh, x0, y0, c); StoredSample(pixels, sw, sh, x1, y0, c);
    StoredSample(pixels, sw, sh, x0, y1, c); StoredSample(pixels, sw, sh, x1, y1, c);
    StoredOutput(output, pixels, sw, sh, tw, th, x, y, c);
    ResizedAt(pixels, sw, sh, tw, th, x, y, c, x0, x1, fx, y0, y1, fy);
    WeightedStored(output, (y * tw + x) * 3 + c, pixels, (y0 * sw + x0) * 3 + c, (y0 * sw + x1) * 3 + c,
                   (y1 * sw + x0) * 3 + c, (y1 * sw + x1) * 3 + c, fx, fy);
  }

  lemma {:induction false} WeightedStored(output: seq<Byte>, k: nat, pixels: seq<Byte>, a: nat, b: nat, c: nat, d: nat,
                                          fx: int, fy: int)
    requires k < |output| && a < |pixels| && b < |pixels| && c < |pixels| && d < |pixels|
    requires IsWeighted(output[k], pixels[a], pixels[b], pixels[c], pixels[d], fx, fy)
    ensures StoresWeighted(output, k, pixels, a, b, c, d, fx, fy)
  {}

  // The channels stored before index k are done.
  ghost predicate DoneBefore(output: seq<Byte>, k: nat, pixels: seq<Byte>, sw: nat, sh: nat, tw: nat, th: nat)
    requires tw > 0 && th > 0
  {
    forall x: nat, y: nat, c: nat {:trigger Index(tw, x, y, c)} ::
      OnCanvas(tw, th, x, y, c) && Index(tw, x, y, c) < k <= |output| ==>
        output[Index(tw, x, y, c)] == Resized(pixels, sw, sh, tw, th, x, y, c)
  }

  lemma {:induction false} IndexInjective(width: nat, x: nat, y: nat, c: nat, i: nat, j: nat, e: nat)
    requires x < width && i < width && c < 3 && e < 3 && Index(width, x, y, c) == Index(width, i, j, e)
    ensures x == i && y == j && c == e
  {
    if y < j { RowOrder(width, y, j); } else if j < y { RowOrder(width, j, y); }
  }

  method WritePixel(output: array<Byte>, pixels: seq<Byte>, sw: nat, sh: nat, tw: nat, th: nat, x: nat, y: nat)
    requires Sized(sw, sh, pixels) && x < tw && y < th && output.Length == tw * th * 3
    requires DoneBefore(output[..], Index(tw, x, y, 0), pixels, sw, sh, tw, th)
    modifies output
    ensures DoneBefore(output[..], Index(tw, x, y, 0) + 3, pixels, sw, sh, tw, th)
  {
    var offset := Index(tw, x, y, 0);
    for c := 0 to 3
      invariant DoneBefore(output[..], offset + c, pixels, sw, sh, tw, th)
    {
      IndexWithin(tw, th, x, y, c);
      ResizedIsByte(pixels, sw, sh, tw, th, x, y, c);
      ghost var before := output[..];
      var value: Byte := Resized(pixels, sw, sh, tw, th, x, y, c);
      output[offset + c] := value;
      forall i: nat, j: nat, e: nat {:trigger Index(tw, i, j, e)} | OnCanvas(tw, th, i, j, e)
        && Index(tw, i, j, e) < offset + c + 1
        ensures output[..][Index(tw, i, j, e)] == Resized(pixels, sw, sh, tw, th, i, j, e)
      {
        if Index(tw, i, j, e) == offset + c {
          IndexInjective(tw, x, y, c, i, j, e);
        } else {
          assert before[Index(tw, i, j, e)] == Resized(pixels, sw, sh, tw, th, i, j, e);
        }
      }
    }
  }

  method ResizeRgb24(pixels: seq<Byte>, sw: int, sh: int, tw: int, th: int) returns (r: Result<seq<Byte>, string>)
    requires sw >= 1 && sh >= 1 ==> |pixels| == sw * sh * 3
    ensures r.Ok? <==> sw >= 1 && sh >= 1 && tw >= 1 && th >= 1
    ensures r.Ok? ==> IsResized(r.value, pixels, sw, sh, tw, th)
  {
    if Min(Min(sw, sh), Min(tw, th)) < 1 { return Err("invalid_dimensions"); }
    var output := new Byte[tw * th * 3](i => 0);
    for y := 0 to th
      invariant DoneBefore(output[..], Index(tw, 0, y, 0), pixels, sw, sh, tw, th)
    {
      for x := 0 to tw
        invariant DoneBefore(output[..], Index(tw, 0, y, 0) + 3 * x, pixels, sw, sh, tw, th)
      {
        WritePixel(output, pixels, sw, sh, tw, th, x, y);
      }
      NextRow(tw, y);
    }
    DoneIsResized(output[..], pixels, sw, sh, tw, th);
    return Ok(output[..]);
  }

  lemma {:induction false} NextRow(width: nat, y: nat)
    ensures Index(width, 0, y, 0) + 3 * width == Index(width, 0, y + 1, 0)
  {}

  lemma {:induction false} DoneIsResized(output: seq<Byte>, pixels: seq<Byte>, sw: nat, sh: nat, tw: nat, th: nat)
    requires tw > 0 && th > 0 && |output| == tw * th * 3
    requires DoneBefore(output, Index(tw, 0, th, 0), pixels, sw, sh, tw, th)
    ensures IsResized(output, pixels, sw, sh, tw, th)
  {
    assert th * tw * 3 == tw * th * 3;
    forall x: nat, y: nat, c: nat {:trigger Index(tw, x, y, c)} | OnCanvas(tw, th, x, y, c)
      ensures Index(tw, x, y, c) < |output| && output[Index(tw, x, y, c)] == Resized(pixels, sw, sh, tw, th, x, y, c)
    {
      IndexWithin(tw, th, x, y, c);
    }
  }

  // ----- fitting -----

  function Fit(sw: nat, sh: nat, maxWidth: nat, maxHeight: nat): (nat, nat)
    requires sw > 0 && sh > 0
  {
    if Min(maxWidth * sh, maxHeight * sw) == maxWidth * sh then (maxWidth, Max(1, sh * maxWidth / sw))
    else (Max(1, sw * maxHeight / sh), maxHeight)
  }

  lemma {:induction false} RoundedSide(n: nat, d: nat, limit: nat)
    requires d > 0 && limit > 0 && n <= limit * d
    ensures Max(1, n / d) <= limit && n < (Max(1, n / d) + 1) * d
    ensures Max(1, n / d) == 1 || Max(1, n / d) * d <= n
  {
    QuotientBounds(n, d);
    if limit < n / d { Product(limit + 1, n / d, d); }
    Product(n / d + 1, Max(1, n / d) + 1, d);
  }

  // The fitted size touches one limit and exceeds neither, and its rounded side is less than
  // one pixel short of the exact aspect ratio.
  lemma {:induction false} FitMeaning(sw: nat, sh: nat, maxWidth: nat, maxHeight: nat)
    requires sw > 0 && sh > 0 && maxWidth > 0 && maxHeight > 0
    ensures var (w, h) := Fit(sw, sh, maxWidth, maxHeight);
            && 1 <= w <= maxWidth && 1 <= h <= maxHeight && (w == maxWidth || h == maxHeight)
            && (if maxWidth * sh <= maxHeight * sw
                then w == maxWidth && sh * w < (h + 1) * sw && (h == 1 || h * sw <= sh * w)
                else h == maxHeight && sw * h < (w + 1) * sh && (w == 1 || w * sh <= sw * h))
  {
    if maxWidth * sh <= maxHeight * sw {
      RoundedSide(sh * maxWidth, sw, maxHeight);
    } else {
      RoundedSide(sw * maxHeight, sh, maxWidth);
    }
  }
}
