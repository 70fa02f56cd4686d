// Cells of an extent and the positions sampled for them (prepare_v02_crop_dataset.py,
// `render_panel`; run_v02_crop_benchmark.py, `sample_cells`).
module CellCenters {
  import opened Arithmetic

  // The cell that position `p` of an extent of `size` pixels belongs to.
  function CellOf(p: nat, size: nat, cells: nat): int
    requires size > 0
  {
    Min(cells - 1, p * cells / size)
  }

  // The position sampled for a cell.
  function CenterOf(cell: nat, size: nat, cells: nat): (p: nat)
    requires cells > 0 && size > 0
    ensures p < size
  {
    NotNegative((2 * cell + 1) * size, 2 * cells);
    Min(size - 1, (2 * cell + 1) * size / (2 * cells))
  }

  lemma {:induction false} NotNegative(a: nat, b: nat)
    requires b > 0
    ensures a / b >= 0
  {}

  lemma {:induction false} OddProduct(cell: nat, cells: nat, size: nat)
    requires cell < cells && size > 0
    ensures 0 <= (2 * cell + 1) * size < 2 * cells * size
  {
    Product(2 * cell + 1, 2 * cells - 1, size);
    assert (2 * cells - 1) * size == 2 * cells * size - size;
  }

  // The center of the t-th of equal cells lies inside the extent, so the clamp never binds.
  lemma {:induction false} CenterBelow(cell: nat, cells: nat, size: nat)
    requires cell < cells && size > 0
    ensures 0 <= (2 * cell + 1) * size / (2 * cells) < size
    ensures CenterOf(cell, size, cells) == (2 * cell + 1) * size / (2 * cells)
  {
    var n, d := (2 * cell + 1) * size, 2 * cells;
    OddProduct(cell, cells, size);
    QuotientBounds(n, d);
    if n / d >= size { Product(size, n / d, d); } else if n / d < 0 { Product(n / d, -1, d); }
  }

  lemma {:induction false} CellInRange(p: nat, size: nat, cells: nat)
    requires p < size && cells > 0
    ensures 0 <= p * cells / size < cells && CellOf(p, size, cells) == p * cells / size
  {
    QuotientBounds(p * cells, size);
    assert p * cells < size * cells by { Product(p + 1, size, cells); assert (p + 1) * cells == p * cells + cells; }
    var q := p * cells / size;
    if q >= cells { Product(cells, q, size); } else if q < 0 { Product(q, -1, size); }
  }

  // ----- one cell -----

  // Where a cell starts, as a whole number of pixels and a rest.
  lemma {:induction false} CenterFrom(cell: nat, size: nat, cells: nat, q: nat, r: nat)
    requires cell < cells && size > 0 && cell * size == q * cells + r && r < cells
    ensures CenterOf(cell, size, cells) == q + (2 * r + size) / (2 * cells)
  {
    var k := (2 * r + size) / (2 * cells);
    CenterBelow(cell, cells, size);
    QuotientBounds(2 * r + size, 2 * cells);
    CenterBrackets(cell, size, cells, q, r, k);
    QuotientIs((2 * cell + 1) * size, 2 * cells, q + k);
  }

  lemma {:induction false} CenterBrackets(cell: int, size: int, cells: int, q: int, r: int, k: int)
    requires cell * size == q * cells + r
    requires k * (2 * cells) <= 2 * r + size < k * (2 * cells) + 2 * cells
    ensures (q + k) * (2 * cells) <= (2 * cell + 1) * size < (q + k) * (2 * cells) + 2 * cells
  {
    assert (2 * cell + 1) * size == 2 * (cell * size) + size;
    assert (q + k) * (2 * cells) == 2 * (q * cells) + k * (2 * cells);
  }

  // A position is in the cell it is sampled for exactly when it is not before its start.
  lemma {:induction false} HitsFromStart(cell: nat, size: nat, cells: nat)
    requires cell < cells && size > 0
    ensures CellOf(CenterOf(cell, size, cells), size, cells) == cell
            <==> cell * size <= CenterOf(cell, size, cells) * cells
  {
    CenterBelow(cell, cells, size);
    var p := CenterOf(cell, size, cells);
    CellInRange(p, size, cells);
    QuotientBounds((2 * cell + 1) * size, 2 * cells);
    NotPastEnd(cell, size, cells, p);
    if cell * size <= p * cells {
      QuotientIs(p * cells, size, cell);
    } else {
      QuotientBounds(p * cells, size);
    }
  }

  lemma {:induction false} NotPastEnd(cell: nat, size: nat, cells: nat, p: nat)
    requires size > 0 && p * (2 * cells) <= (2 * cell + 1) * size
    ensures p * cells < cell * size + size
  {
    assert p * (2 * cells) == 2 * (p * cells) && (2 * cell + 1) * size == 2 * (cell * size) + size;
  }

  lemma {:induction false} HitsIff(cell: nat, size: nat, cells: nat)
    requires cell < cells && size > 0
    ensures CellOf(CenterOf(cell, size, cells), size, cells) == cell
            <==> cell * size % cells == 0 || size >= 2 * (cells - cell * size % cells)
  {
    var q, r := cell * size / cells, cell * size % cells;
    DivisionIdentity(cell * size, cells);
    NotNegative(cell * size, cells);
    HitsFromStart(cell, size, cells);
    CenterFrom(cell, size, cells, q, r);
    var k := (2 * r + size) / (2 * cells);
    AtLeastOne(2 * r + size, 2 * cells);
    StartReached(q, r, k, cells);
  }

  lemma {:induction false} StartReached(q: nat, r: nat, k: nat, cells: nat)
    requires r < cells
    ensures q * cells + r <= (q + k) * cells <==> r == 0 || k >= 1
  {
    assert (q + k) * cells == q * cells + k * cells;
    if k >= 1 { Product(1, k, cells); }
  }

  lemma {:induction false} AtLeastOne(a: nat, b: nat)
    requires b > 0
    ensures a / b >= 1 <==> a >= b
    ensures a / b >= 0
  {
    QuotientBounds(a, b);
    if a / b >= 1 { Product(1, a / b, b); } else { Product(a / b, 0, b); }
  }

  // ----- all cells -----

  function Gcd(a: nat, b: nat): nat
    decreases b
  {
    if b == 0 then a else Gcd(b, a % b)
  }

  lemma {:induction false} Bezout(a: nat, b: nat) returns (x: int, y: int)
    ensures x * a + y * b == Gcd(a, b)
    decreases b
  {
    if b == 0 {
      x, y := 1, 0;
    } else {
      var u, v := Bezout(b, a % b);
      DivisionIdentity(a, b);
      x, y := v, u - v * (a / b);
    }
  }

  lemma {:induction false} GcdDivides(a: nat, b: nat) returns (k: nat, l: nat)
    requires a > 0 || b > 0
    ensures Gcd(a, b) > 0 && a == k * Gcd(a, b) && b == l * Gcd(a, b)
    decreases b
  {
    if b == 0 {
      k, l := 1, 0;
    } else {
      var m, n := GcdDivides(b, a % b);
      DivisionIdentity(a, b);
      NotNegative(a, b);
      k, l := a / b * m + n, m;
      DividesStep(a, b, a / b, a % b, m, n, Gcd(b, a % b));
    }
  }

  lemma {:induction false} DividesStep(a: nat, b: nat, q: int, r: int, m: int, n: int, g: int)
    requires a == q * b + r && b == m * g && r == n * g
    ensures a == (q * m + n) * g
  {}

  // No rest of a multiple of `size` is smaller than the greatest common divisor, save 0.
  lemma {:induction false} RestAtLeastGcd(cell: nat, size: nat, cells: nat)
    requires cells > 0 && cell * size % cells != 0
    ensures cell * size % cells >= Gcd(size, cells)
  {
    var k, l := GcdDivides(size, cells);
    var q, r, g := cell * size / cells, cell * size % cells, Gcd(size, cells);
    DivisionIdentity(cell * size, cells);
    RestIsMultiple(cell, k, q, l, g);
    if cell * k - q * l < 1 { Product(cell * k - q * l, 0, g); } else { Product(1, cell * k - q * l, g); }
  }

  lemma {:induction false} RestIsMultiple(cell: int, k: int, q: int, l: int, g: int)
    ensures cell * (k * g) - q * (l * g) == (cell * k - q * l) * g
  {}

  // And some cell's start has exactly that rest.
  lemma {:induction false} SomeRestIsGcd(size: nat, cells: nat) returns (cell: nat)
    requires size > 0 && cells > 0 && Gcd(size, cells) < cells
    ensures cell < cells && cell * size % cells == Gcd(size, cells)
  {
    var g := Gcd(size, cells);
    var x, y := Bezout(size, cells);
    var t := x / cells;
    cell := x % cells;
    assert x == t * cells + cell;
    BezoutModulo(x, y, t, cell, size, cells, g);
    QuotientIs(cell * size, cells, -(y + t * size));
    assert cell * size == cell * size / cells * cells + cell * size % cells;
  }

  lemma {:induction false} BezoutModulo(x: int, y: int, t: int, cell: int, size: int, cells: int, g: int)
    requires x == t * cells + cell && x * size + y * cells == g
    ensures cell * size == -(y + t * size) * cells + g
  {}

  // Every center lies in the cell it is sampled for.
  ghost predicate EveryCenterHits(size: nat, cells: nat)
    requires size > 0 && cells > 0
  {
    forall cell: nat :: cell < cells ==> CellOf(CenterOf(cell, size, cells), size, cells) == cell
  }

  // A test of the size: a whole number of pixels a cell, or nearly two.
  predicate Legible(size: nat, cells: nat)
    requires cells > 0
  {
    size % cells == 0 || size >= 2 * (cells - Gcd(size, cells))
  }

  lemma {:induction false} LegibleHits(cell: nat, size: nat, cells: nat)
    requires size > 0 && cell < cells && Legible(size, cells)
    ensures CellOf(CenterOf(cell, size, cells), size, cells) == cell
  {
    HitsIff(cell, size, cells);
    if size % cells == 0 {
      WholeCells(cell, size, cells);
    } else if cell * size % cells != 0 {
      RestAtLeastGcd(cell, size, cells);
    }
  }

  lemma {:induction false} IllegibleMisses(size: nat, cells: nat) returns (cell: nat)
    requires size > 0 && cells > 0 && !Legible(size, cells)
    ensures cell < cells && CellOf(CenterOf(cell, size, cells), size, cells) != cell
  {
    var k, l := GcdDivides(size, cells);
    GcdBelow(size, cells, k, l, Gcd(size, cells));
    cell := SomeRestIsGcd(size, cells);
    HitsIff(cell, size, cells);
  }

  // The sizes at which every center hits are exactly the multiples of the number of cells and
  // those of at least twice that number less twice the greatest common divisor.
  lemma {:induction false} LegibleIff(size: nat, cells: nat)
    requires size > 0 && cells > 0
    ensures EveryCenterHits(size, cells) <==> Legible(size, cells)
  {
    if Legible(size, cells) {
      forall cell: nat | cell < cells ensures CellOf(CenterOf(cell, size, cells), size, cells) == cell {
        LegibleHits(cell, size, cells);
      }
    } else {
      var cell := IllegibleMisses(size, cells);
    }
  }

  lemma {:induction false} WholeCells(cell: nat, size: nat, cells: nat)
    requires cells > 0 && size % cells == 0
    ensures cell * size % cells == 0
  {
    var k := size / cells;
    DivisionIdentity(size, cells);
    assert cell * size == (cell * k) * cells;
    QuotientIs(cell * size, cells, cell * k);
    assert cell * size == cell * size / cells * cells + cell * size % cells;
  }

  lemma {:induction false} GcdBelow(size: nat, cells: nat, k: nat, l: nat, g: nat)
    requires cells > 0 && g > 0 && size == k * g && cells == l * g && size % cells != 0
    ensures g < cells
  {
    if l == 1 {
      assert size == k * cells;
      QuotientIs(size, cells, k);
      DivisionIdentity(size, cells);
    } else {
      assert l != 0;
      Product(2, l, g);
    }
  }

}
