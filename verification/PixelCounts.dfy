// Counting the pixels of a box that lie in a region.
module PixelCounts {
  import opened Arithmetic
  import opened Geometry

  type Region = (int, int) -> bool

  function One(b: bool): nat { if b then 1 else 0 }

  function CountRow(left: int, right: int, y: int, p: Region): nat
    decreases right - left
  {
    if right <= left then 0 else CountRow(left, right - 1, y, p) + One(p(right - 1, y))
  }

  function CountRect(b: Box, p: Region): nat
    decreases b.bottom - b.top
  {
    if b.bottom <= b.top then 0
    else CountRect(b.(bottom := b.bottom - 1), p) + CountRow(b.left, b.right, b.bottom - 1, p)
  }

  // Counts of two exclusive regions add up to the count of their union.
  lemma {:induction false} RowAdds(left: int, right: int, y: int, p: Region, q: Region, both: Region)
    requires forall x :: left <= x < right ==> both(x, y) == (p(x, y) || q(x, y)) && !(p(x, y) && q(x, y))
    ensures CountRow(left, right, y, both) == CountRow(left, right, y, p) + CountRow(left, right, y, q)
    decreases right - left
  {
    if right <= left {
    } else {
      RowAdds(left, right - 1, y, p, q, both);
    }
  }

  lemma {:induction false} RectAdds(b: Box, p: Region, q: Region, both: Region)
    requires forall x, y :: InBox(b, x, y) ==> both(x, y) == (p(x, y) || q(x, y)) && !(p(x, y) && q(x, y))
    ensures CountRect(b, both) == CountRect(b, p) + CountRect(b, q)
    decreases b.bottom - b.top
  {
    if b.bottom <= b.top {
    } else {
      assert forall x, y :: InBox(b.(bottom := b.bottom - 1), x, y) ==> InBox(b, x, y);
      RectAdds(b.(bottom := b.bottom - 1), p, q, both);
      var y0 := b.bottom - 1;
      assert forall x :: b.left <= x < b.right ==> InBox(b, x, y0);
      RowAdds(b.left, b.right, b.bottom - 1, p, q, both);
    }
  }

  lemma {:induction false} RowSame(left: int, right: int, y: int, p: Region, q: Region)
    requires forall x :: left <= x < right ==> p(x, y) == q(x, y)
    ensures CountRow(left, right, y, p) == CountRow(left, right, y, q)
    decreases right - left
  {
    if right <= left {
    } else {
      RowSame(left, right - 1, y, p, q);
    }
  }

  lemma {:induction false} RectSame(b: Box, p: Region, q: Region)
    requires forall x, y :: InBox(b, x, y) ==> p(x, y) == q(x, y)
    ensures CountRect(b, p) == CountRect(b, q)
    decreases b.bottom - b.top
  {
    if b.bottom <= b.top {
    } else {
      assert forall x, y :: InBox(b.(bottom := b.bottom - 1), x, y) ==> InBox(b, x, y);
      RectSame(b.(bottom := b.bottom - 1), p, q);
      var y0 := b.bottom - 1;
      assert forall x :: b.left <= x < b.right ==> InBox(b, x, y0);
      RowSame(b.left, b.right, b.bottom - 1, p, q);
    }
  }

  lemma {:induction false} RowNone(left: int, right: int, y: int, p: Region)
    ensures CountRow(left, right, y, p) == 0 <==> forall x :: left <= x < right ==> !p(x, y)
    decreases right - left
  {
    if right <= left {
    } else {
      RowNone(left, right - 1, y, p);
    }
  }

  lemma {:induction false} RectNone(b: Box, p: Region)
    ensures CountRect(b, p) == 0 <==> forall x, y :: InBox(b, x, y) ==> !p(x, y)
    decreases b.bottom - b.top
  {
    if b.bottom <= b.top {
    } else {
      var smaller, y0 := b.(bottom := b.bottom - 1), b.bottom - 1;
      RectNone(smaller, p);
      RowNone(b.left, b.right, y0, p);
      assert forall x, y :: InBox(b, x, y) <==> InBox(smaller, x, y) || (y == y0 && b.left <= x < b.right);
    }
  }

  lemma {:induction false} RowAll(left: int, right: int, y: int, p: Region)
    requires left <= right && forall x :: left <= x < right ==> p(x, y)
    ensures CountRow(left, right, y, p) == right - left
    decreases right - left
  {
    if right <= left {
    } else {
      RowAll(left, right - 1, y, p);
    }
  }

  lemma {:induction false} RectAll(b: Box, p: Region)
    requires b.left <= b.right && b.top <= b.bottom && forall x, y :: InBox(b, x, y) ==> p(x, y)
    ensures CountRect(b, p) == Area(b)
    decreases b.bottom - b.top
  {
    if b.bottom <= b.top {
    } else {
      var smaller := b.(bottom := b.bottom - 1);
      assert forall x, y :: InBox(smaller, x, y) ==> InBox(b, x, y);
      RectAll(smaller, p);
      var y0 := b.bottom - 1;
      assert forall x :: b.left <= x < b.right ==> InBox(b, x, y0);
      RowAll(b.left, b.right, b.bottom - 1, p);
      assert Area(b) == Area(smaller) + Width(b);
    }
  }

  // Counting a region that lies inside a box, over the box or over anything around it.
  lemma {:induction false} RowRestricts(left: int, right: int, l: int, r: int, y: int, p: Region)
    requires left <= l <= r <= right && forall x :: left <= x < right && p(x, y) ==> l <= x < r
    ensures CountRow(left, right, y, p) == CountRow(l, r, y, p)
    decreases right - left
  {
    if r < right {
      RowRestricts(left, right - 1, l, r, y, p);
    } else if l < r {
      RowRestricts(left, right - 1, l, r - 1, y, p);
    } else {
      RowNone(left, right, y, p);
    }
  }

  lemma {:induction false} RectRestricts(outer: Box, b: Box, p: Region)
    requires outer.left <= b.left <= b.right <= outer.right && outer.top <= b.top <= b.bottom <= outer.bottom
    requires forall x, y :: InBox(outer, x, y) && p(x, y) ==> InBox(b, x, y)
    ensures CountRect(outer, p) == CountRect(b, p)
    decreases outer.bottom - outer.top
  {
    if outer.bottom <= outer.top {
    } else {
      var y := outer.bottom - 1;
      var smaller := outer.(bottom := y);
      assert forall x :: outer.left <= x < outer.right ==> InBox(outer, x, y);
      if b.bottom < outer.bottom {
        RectRestricts(smaller, b, p);
        RowNone(outer.left, outer.right, y, p);
      } else if b.top < b.bottom {
        RectRestricts(smaller, b.(bottom := y), p);
        RowRestricts(outer.left, outer.right, b.left, b.right, y, p);
      } else {
        RectNone(outer, p);
      }
    }
  }

  // ----- what is counted -----

  ghost function PixelsOfRow(left: int, right: int, y: int, p: Region): set<(int, int)> {
    set x | left <= x < right && p(x, y) :: (x, y)
  }

  // The pixels of the box that lie in the region.
  ghost function PixelsIn(b: Box, p: Region): set<(int, int)> {
    set x, y | b.left <= x < b.right && b.top <= y < b.bottom && p(x, y) :: (x, y)
  }

  lemma {:induction false} RowCounts(left: int, right: int, y: int, p: Region)
    ensures CountRow(left, right, y, p) == |PixelsOfRow(left, right, y, p)|
    decreases right - left
  {
    if right <= left {
      assert PixelsOfRow(left, right, y, p) == {};
    } else {
      var rest, last := PixelsOfRow(left, right - 1, y, p), (right - 1, y);
      RowCounts(left, right - 1, y, p);
      assert last !in rest;
      assert PixelsOfRow(left, right, y, p) == if p(right - 1, y) then rest + {last} else rest;
    }
  }

  // The count is the number of these pixels.
  lemma {:induction false} RectCounts(b: Box, p: Region)
    ensures CountRect(b, p) == |PixelsIn(b, p)|
    decreases b.bottom - b.top
  {
    if b.bottom <= b.top {
      assert PixelsIn(b, p) == {};
    } else {
      var smaller, y := b.(bottom := b.bottom - 1), b.bottom - 1;
      RectCounts(smaller, p);
      RowCounts(b.left, b.right, y, p);
      assert PixelsIn(smaller, p) !! PixelsOfRow(b.left, b.right, y, p);
      assert PixelsIn(b, p) == PixelsIn(smaller, p) + PixelsOfRow(b.left, b.right, y, p);
    }
  }

  // ----- the pixels two boxes share -----

  function Within(b: Box): Region {
    (x: int, y: int) => InBox(b, x, y)
  }

  function Either(a: Box, b: Box): Region {
    (x: int, y: int) => InBox(a, x, y) || InBox(b, x, y)
  }

  // The smallest box around two.
  function Hull(a: Box, b: Box): Box {
    Box(Min(a.left, b.left), Min(a.top, b.top), Max(a.right, b.right), Max(a.bottom, b.bottom))
  }

  lemma {:induction false} SharedPixels(a: Box, b: Box)
    requires a.left < a.right && a.top < a.bottom && b.left < b.right && b.top < b.bottom
    ensures CountRect(a, Within(b)) ==
            Max(0, Min(a.right, b.right) - Max(a.left, b.left)) * Max(0, Min(a.bottom, b.bottom) - Max(a.top, b.top))
  {
    var window := Box(Max(a.left, b.left), Max(a.top, b.top), Min(a.right, b.right), Min(a.bottom, b.bottom));
    if window.left < window.right && window.top < window.bottom {
      RectRestricts(a, window, Within(b));
      RectAll(window, Within(b));
    } else {
      RectNone(a, Within(b));
    }
  }

  // The pixels of two boxes together are those of each, less the shared ones.
  lemma {:induction false} EitherPixels(a: Box, b: Box)
    requires a.left < a.right && a.top < a.bottom && b.left < b.right && b.top < b.bottom
    ensures CountRect(Hull(a, b), Either(a, b)) + CountRect(a, Within(b)) == Area(a) + Area(b)
  {
    var hull := Hull(a, b);
    var onlyA: Region := (x: int, y: int) => InBox(a, x, y) && !InBox(b, x, y);
    RectAdds(hull, onlyA, Within(b), Either(a, b));
    RectRestricts(hull, a, onlyA);
    RectRestricts(hull, b, Within(b));
    RectAll(b, Within(b));
    RectAdds(a, onlyA, Within(b), Within(a));
    RectAll(a, Within(a));
  }
}
