// Bytes, big-endian integers and ASCII numerals.
module Bytes {
  import opened Arithmetic

  type Byte = b: int | 0 <= b < 256

  function Power(base: nat, width: nat): nat {
    if width == 0 then 1 else base * Power(base, width - 1)
  }

  // `value.to_bytes(width, "big")`; a value that does not fit is an overflow in the source.
  function BigEndian(value: nat, width: nat): (r: seq<Byte>)
    ensures |r| == width
  {
    if width == 0 then [] else BigEndian(value / 256, width - 1) + [value % 256]
  }

  function Unsigned(s: seq<Byte>): nat {
    if s == [] then 0 else 256 * Unsigned(s[..|s| - 1]) + s[|s| - 1]
  }

  lemma {:induction false} BigEndianRoundTrip(value: nat, width: nat)
    requires value < Power(256, width)
    ensures Unsigned(BigEndian(value, width)) == value
  {
    if width == 0 {
    } else {
      BigEndianRoundTrip(value / 256, width - 1);
      var r := BigEndian(value, width);
      assert r[..|r| - 1] == BigEndian(value / 256, width - 1);
    }
  }

  lemma {:induction false} UnsignedRoundTrip(s: seq<Byte>)
    ensures BigEndian(Unsigned(s), |s|) == s
  {
    if s != [] {
      UnsignedRoundTrip(s[..|s| - 1]);
      assert s == s[..|s| - 1] + [s[|s| - 1]];
    }
  }

  // The powers used by the formats, spelled out.
  lemma {:induction false} Powers()
    ensures Power(256, 1) == 0x100 && Power(256, 2) == 0x1_0000 && Power(256, 3) == 0x100_0000
    ensures Power(256, 4) == 0x1_0000_0000 && Power(256, 8) == 0x1_0000_0000_0000_0000
  {}

  // ----- numerals -----

  // The ASCII digits of n, most significant first.
  function Numeral(n: nat, base: nat): (r: seq<Byte>)
    requires 2 <= base <= 10
    ensures r != [] && forall i :: 0 <= i < |r| ==> 48 <= r[i] <= 57
  {
    if n < base then [48 + n] else Numeral(n / base, base) + [48 + n % base]
  }

  function NumeralValue(s: seq<Byte>, base: nat): int {
    if s == [] then 0 else base * NumeralValue(s[..|s| - 1], base) + s[|s| - 1] - 48
  }

  lemma {:induction false} NumeralRoundTrip(n: nat, base: nat)
    requires 2 <= base <= 10
    ensures NumeralValue(Numeral(n, base), base) == n
  {
    if n >= base {
      DivisionIdentity(n, base);
      QuotientSmaller(n, base);
      NumeralRoundTrip(n / base, base);
      NumeralValueAppend(Numeral(n / base, base), base, 48 + n % base);
    } else {
      NumeralValueAppend([], base, 48 + n);
      assert [] + [48 + n] == Numeral(n, base);
    }
  }

  lemma {:induction false} NumeralValueAppend(s: seq<Byte>, base: nat, digit: Byte)
    ensures NumeralValue(s + [digit], base) == base * NumeralValue(s, base) + digit - 48
  {
    assert (s + [digit])[..|s|] == s;
  }
}
