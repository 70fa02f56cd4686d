// Bounds and integer division, shared by every module that rounds.
module Arithmetic {

  function Max(x: int, y: int): int {
    if x < y then y else x
  }

  function Min(x: int, y: int): int {
    if x < y then x else y
  }

  lemma {:induction false} Product(x: int, y: int, b: int)
    requires x <= y && b >= 0
    ensures x * b <= y * b
  {}

  lemma {:induction false} DivisionIdentity(a: nat, b: nat)
    requires b > 0
    ensures b * (a / b) + a % b == a && 0 <= a % b < b
  {}

  lemma {:induction false} QuotientSmaller(a: nat, b: nat)
    requires b >= 2 && a > 0
    ensures a / b < a
  {}

  lemma {:induction false} QuotientBounds(a: int, b: int)
    requires b > 0
    ensures (a / b) * b <= a < (a / b) * b + b
  {}

  // The quotient is the only integer that brackets the dividend.
  // Division by eight decides halving.
  lemma {:induction false} Halves(n: nat)
    ensures n / 2 == 4 * (n / 8) + n % 8 / 2 && n % 2 == n % 8 % 2
  {
    QuotientIs(n, 2, 4 * (n / 8) + n % 8 / 2);
  }

  lemma {:induction false} QuotientIs(a: int, b: int, q: int)
    requires b > 0 && q * b <= a < q * b + b
    ensures a / b == q
  {
    var p := a / b;
    QuotientBounds(a, b);
    assert (p + 1) * b == p * b + b && (q + 1) * b == q * b + b;
    if p < q { Product(p + 1, q, b); }
    if q < p { Product(q + 1, p, b); }
  }

  lemma {:induction false} RemainderIs(a: int, b: int, q: int, r: int)
    requires b > 0 && a == q * b + r && 0 <= r < b
    ensures a / b == q && a % b == r
  {
    QuotientIs(a, b, q);
    assert a == a / b * b + a % b;
  }

  // `v` ten-thousandths of the whole are at most the part, and no more would be; 0 of an empty whole.
  ghost predicate IsBasisPoints(v: int, part: int, whole: int) {
    if whole == 0 then v == 0 else v * whole <= part * 10_000 < (v + 1) * whole
  }

  lemma {:induction false} RoundsDown(part: nat, whole: nat)
    requires whole > 0
    ensures IsBasisPoints(part * 10_000 / whole, part, whole)
  {
    QuotientBounds(part * 10_000, whole);
    var q := part * 10_000 / whole;
    assert (q + 1) * whole == q * whole + whole;
  }
}
