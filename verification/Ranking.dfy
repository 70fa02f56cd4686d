// The total order on ranked detections: falling confidence, then item id, then box.
module Ranking {
  import opened Geometry
  import TextOrder
  import Sorting

  datatype Entry = Entry(confidence: int, id: string, box: Box)

  predicate BoxLeq(a: Box, b: Box) {
    if a.left != b.left then a.left < b.left
    else if a.top != b.top then a.top < b.top
    else if a.right != b.right then a.right < b.right
    else a.bottom <= b.bottom
  }

  // The sort key (-confidence, id, box), compared lexicographically.
  predicate Leq(a: Entry, b: Entry) {
    if a.confidence != b.confidence then a.confidence > b.confidence
    else if a.id != b.id then TextOrder.TextLeq(a.id, b.id)
    else BoxLeq(a.box, b.box)
  }

  lemma {:induction false} LeqIsTotalOrder(a: Entry, b: Entry, c: Entry)
    ensures Leq(a, b) || Leq(b, a)
    ensures Leq(a, b) && Leq(b, a) ==> a == b
    ensures Leq(a, b) && Leq(b, c) ==> Leq(a, c)
  {
    TextOrder.TextLeqIsTotalOrder(a.id, b.id, c.id);
    TextOrder.TextLeqIsTotalOrder(b.id, c.id, a.id);
  }

  lemma {:induction false} LeqOrders()
    ensures Sorting.Orders(Leq)
  {
    forall a, b, c ensures (Leq(a, b) || Leq(b, a)) && (Leq(a, b) && Leq(b, c) ==> Leq(a, c)) {
      LeqIsTotalOrder(a, b, c);
    }
  }

  function Rank(s: seq<Entry>): (r: seq<Entry>)
    ensures |r| == |s| && multiset(r) == multiset(s)
  {
    Sorting.SortBag(s, Leq);
    Sorting.Sort(s, Leq)
  }

  lemma {:induction false} RankRanks(s: seq<Entry>)
    ensures Sorting.Sorted(Rank(s), Leq)
  {
    LeqOrders();
    Sorting.SortSorts(s, Leq);
  }

  // The order is total, so the ranking depends only on which entries there are.
  lemma {:induction false} RankIgnoresOrder(s: seq<Entry>, t: seq<Entry>)
    requires multiset(s) == multiset(t)
    ensures Rank(s) == Rank(t)
  {
    LeqOrders();
    forall v, w | v in s && w in s && Leq(v, w) && Leq(w, v) ensures v == w { LeqIsTotalOrder(v, w, v); }
    Sorting.SortIgnoresOrder(s, t, Leq);
  }

  // What stands before what: the greater confidence; then the id that is the beginning of the other
  // or has the smaller character where they first differ; then the smaller left, top, right and
  // bottom edge, the first that differs.
  lemma {:induction false} RankMeaning(s: seq<Entry>, i: nat, j: nat)
    requires i < j < |s|
    ensures var a, b := Rank(s)[i], Rank(s)[j];
            && a.confidence >= b.confidence
            && (a.confidence == b.confidence && a.id != b.id ==>
                  || a.id <= b.id
                  || exists k :: 0 <= k < |a.id| && k < |b.id| && a.id[..k] == b.id[..k] && a.id[k] < b.id[k])
            && (a.confidence == b.confidence && a.id == b.id ==>
                  && a.box.left <= b.box.left
                  && (a.box.left == b.box.left ==> a.box.top <= b.box.top)
                  && (a.box.left == b.box.left && a.box.top == b.box.top ==> a.box.right <= b.box.right)
                  && (a.box.left == b.box.left && a.box.top == b.box.top && a.box.right == b.box.right ==>
                        a.box.bottom <= b.box.bottom))
  {
    RankRanks(s);
    var a, b := Rank(s)[i], Rank(s)[j];
    assert Leq(a, b);
    TextOrder.TextLeqMeaning(a.id, b.id);
  }
}
