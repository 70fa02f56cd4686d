// Python's order on byte strings, and on text as its code points.
module TextOrder {

  predicate Leq(a: seq<int>, b: seq<int>) {
    if a == [] then true
    else if b == [] then false
    else a[0] < b[0] || (a[0] == b[0] && Leq(a[1..], b[1..]))
  }

  lemma {:induction false} LeqIsTotalOrder(a: seq<int>, b: seq<int>, c: seq<int>)
    ensures Leq(a, b) || Leq(b, a)
    ensures Leq(a, b) && Leq(b, a) ==> a == b
    ensures Leq(a, b) && Leq(b, c) ==> Leq(a, c)
  {
    if a == [] || b == [] {
    } else {
      LeqIsTotalOrder(a[1..], b[1..], if c == [] then [] else c[1..]);
      assert a[0] == b[0] && a[1..] == b[1..] ==> a == [a[0]] + a[1..] == [b[0]] + b[1..] == b;
    }
  }

  function Codes(s: string): (r: seq<int>)
    ensures |r| == |s| && forall i :: 0 <= i < |s| ==> r[i] == s[i] as int
  {
    seq(|s|, i requires 0 <= i < |s| => s[i] as int)
  }

  predicate TextLeq(a: string, b: string) {
    Leq(Codes(a), Codes(b))
  }

  lemma {:induction false} TextLeqIsTotalOrder(a: string, b: string, c: string)
    ensures TextLeq(a, b) || TextLeq(b, a)
    ensures TextLeq(a, b) && TextLeq(b, a) ==> a == b
    ensures TextLeq(a, b) && TextLeq(b, c) ==> TextLeq(a, c)
  {
    LeqIsTotalOrder(Codes(a), Codes(b), Codes(c));
    if Codes(a) == Codes(b) {
      forall i | 0 <= i < |a| ensures a[i] == b[i] { assert Codes(a)[i] == Codes(b)[i]; }
      assert a == b;
    }
  }

  // The first is the beginning of the second, or has the smaller letter where they first differ.
  ghost predicate Precedes<T>(a: seq<T>, b: seq<T>, less: (T, T) -> bool) {
    a <= b || exists k :: 0 <= k < |a| && k < |b| && a[..k] == b[..k] && less(a[k], b[k])
  }

  lemma {:induction false} LeqMeaning(a: seq<int>, b: seq<int>)
    ensures Leq(a, b) <==> Precedes(a, b, (x: int, y: int) => x < y)
  {
    if a == [] || b == [] {
    } else {
      assert a == [a[0]] + a[1..] && b == [b[0]] + b[1..];
      if a[0] == b[0] {
        LeqMeaning(a[1..], b[1..]);
        PrecedesTail(a, b, (x: int, y: int) => x < y);
      } else {
        assert a[..0] == b[..0];
        assert forall k :: 0 < k < |a| && k < |b| ==> a[..k][0] == a[0] && b[..k][0] == b[0];
      }
    }
  }

  lemma {:induction false} PrecedesTail<T>(a: seq<T>, b: seq<T>, less: (T, T) -> bool)
    requires a != [] && b != [] && a[0] == b[0] && !less(a[0], b[0])
    ensures Precedes(a, b, less) <==> Precedes(a[1..], b[1..], less)
  {
    var c, d := a[1..], b[1..];
    assert a == [a[0]] + c && b == [b[0]] + d;
    if k :| 0 <= k < |c| && k < |d| && c[..k] == d[..k] && less(c[k], d[k]) {
      assert a[..k + 1] == [a[0]] + c[..k] && b[..k + 1] == [b[0]] + d[..k];
      assert less(a[k + 1], b[k + 1]);
    }
    if k :| 0 <= k < |a| && k < |b| && a[..k] == b[..k] && less(a[k], b[k]) {
      assert c[..k - 1] == a[..k][1..] && d[..k - 1] == b[..k][1..];
      assert less(c[k - 1], d[k - 1]);
    }
  }

  // Text is ordered by the first character that differs.
  lemma {:induction false} TextLeqMeaning(a: string, b: string)
    ensures TextLeq(a, b) <==> Precedes(a, b, (x: char, y: char) => x < y)
  {
    var c, d := Codes(a), Codes(b);
    LeqMeaning(c, d);
    if a <= b {
      assert c <= d;
    }
    if c <= d {
      forall i | 0 <= i < |a| ensures a[i] == b[i] { assert c[i] == d[i]; }
    }
    if k :| 0 <= k < |a| && k < |b| && a[..k] == b[..k] && a[k] < b[k] {
      forall i | 0 <= i < k ensures c[i] == d[i] { assert a[..k][i] == b[..k][i]; }
      assert c[..k] == d[..k] && c[k] < d[k];
    }
    if k :| 0 <= k < |c| && k < |d| && c[..k] == d[..k] && c[k] < d[k] {
      forall i | 0 <= i < k ensures a[i] == b[i] { assert c[..k][i] == d[..k][i]; }
      assert a[..k] == b[..k];
    }
  }
}
