// Insertion sort by any order, and when its result depends only on the elements.
module Sorting {

  function Insert<T>(e: T, s: seq<T>, leq: (T, T) -> bool): (r: seq<T>)
    ensures |r| == |s| + 1
  {
    if s == [] || leq(e, s[0]) then [e] + s else [s[0]] + Insert(e, s[1..], leq)
  }

  function Sort<T>(s: seq<T>, leq: (T, T) -> bool): (r: seq<T>)
    ensures |r| == |s|
  {
    if s == [] then [] else Insert(s[0], Sort(s[1..], leq), leq)
  }

  lemma {:induction false} InsertBag<T>(e: T, s: seq<T>, leq: (T, T) -> bool)
    ensures multiset(Insert(e, s, leq)) == multiset(s) + multiset{e}
  {
    if s == [] || leq(e, s[0]) {
    } else {
      InsertBag(e, s[1..], leq);
      assert s == [s[0]] + s[1..];
    }
  }

  lemma {:induction false} SortBag<T>(s: seq<T>, leq: (T, T) -> bool)
    ensures multiset(Sort(s, leq)) == multiset(s)
  {
    if s == [] {
    } else {
      SortBag(s[1..], leq);
      InsertBag(s[0], Sort(s[1..], leq), leq);
      assert s == [s[0]] + s[1..];
    }
  }

  ghost predicate Sorted<T>(s: seq<T>, leq: (T, T) -> bool) {
    forall i, j :: 0 <= i < j < |s| ==> leq(s[i], s[j])
  }

  // Any two elements are ordered, and the order is transitive.
  ghost predicate Orders<T(!new)>(leq: (T, T) -> bool) {
    && (forall a, b :: leq(a, b) || leq(b, a))
    && forall a, b, c :: leq(a, b) && leq(b, c) ==> leq(a, c)
  }

  // The order tells any two different elements of the list apart.
  ghost predicate Separates<T>(leq: (T, T) -> bool, s: seq<T>) {
    forall v, w :: v in s && w in s && leq(v, w) && leq(w, v) ==> v == w
  }

  lemma {:induction false} InsertSorts<T(!new)>(e: T, s: seq<T>, leq: (T, T) -> bool)
    requires Orders(leq) && Sorted(s, leq)
    ensures Sorted(Insert(e, s, leq), leq)
  {
    if s == [] || leq(e, s[0]) {
    } else {
      InsertSorts(e, s[1..], leq);
      InsertBag(e, s[1..], leq);
      var tail := Insert(e, s[1..], leq);
      forall j | 0 <= j < |tail| ensures leq(s[0], tail[j]) {
        assert tail[j] in multiset(tail);
        assert tail[j] == e || tail[j] in s[1..];
      }
    }
  }

  lemma {:induction false} SortSorts<T(!new)>(s: seq<T>, leq: (T, T) -> bool)
    requires Orders(leq)
    ensures Sorted(Sort(s, leq), leq)
  {
    if s == [] {
    } else {
      SortSorts(s[1..], leq);
      InsertSorts(s[0], Sort(s[1..], leq), leq);
    }
  }

  lemma {:induction false} SortKeeps<T>(s: seq<T>, leq: (T, T) -> bool, e: T)
    ensures e in Sort(s, leq) <==> e in s
  {
    SortBag(s, leq);
    assert e in Sort(s, leq) <==> e in multiset(Sort(s, leq));
  }

  lemma {:induction false} TailBag<T>(s: seq<T>)
    requires s != []
    ensures multiset(s[1..]) == multiset(s) - multiset{s[0]} && s == [s[0]] + s[1..]
    ensures forall v :: v in s[1..] ==> v in s
  {
    assert s == [s[0]] + s[1..];
  }

  lemma {:induction false} FirstIsLeast<T(!new)>(s: seq<T>, leq: (T, T) -> bool, e: T)
    requires Orders(leq) && Sorted(s, leq) && e in multiset(s)
    ensures s != [] && leq(s[0], e)
  {
    assert e in s;
  }

  lemma {:induction false} SameFirst<T(!new)>(s: seq<T>, t: seq<T>, leq: (T, T) -> bool)
    requires s != [] && t != [] && multiset(s) == multiset(t)
    requires Orders(leq) && Sorted(s, leq) && Sorted(t, leq) && Separates(leq, s)
    ensures s[0] == t[0]
  {
    assert t[0] in multiset(t) && s[0] in multiset(s);
    FirstIsLeast(s, leq, t[0]);
    FirstIsLeast(t, leq, s[0]);
    assert t[0] in s;
  }

  // Where the order separates the elements, there is one sorted list of them.
  lemma {:induction false} SortedIsUnique<T(!new)>(s: seq<T>, t: seq<T>, leq: (T, T) -> bool)
    requires Orders(leq) && Sorted(s, leq) && Sorted(t, leq) && multiset(s) == multiset(t) && Separates(leq, s)
    ensures s == t
  {
    assert |multiset(s)| == |s| && |multiset(t)| == |t|;
    if s == [] {
    } else {
      TailBag(s);
      TailBag(t);
      SameFirst(s, t, leq);
      SortedIsUnique(s[1..], t[1..], leq);
    }
  }

  // Sorting then forgets the order the elements came in.
  lemma {:induction false} SortIgnoresOrder<T(!new)>(s: seq<T>, t: seq<T>, leq: (T, T) -> bool)
    requires Orders(leq) && multiset(s) == multiset(t) && Separates(leq, s)
    ensures Sort(s, leq) == Sort(t, leq)
  {
    SortSorts(s, leq);
    SortSorts(t, leq);
    SortBag(s, leq);
    SortBag(t, leq);
    forall v, w | v in Sort(s, leq) && w in Sort(s, leq) && leq(v, w) && leq(w, v) ensures v == w {
      SortKeeps(s, leq, v);
      SortKeeps(s, leq, w);
    }
    SortedIsUnique(Sort(s, leq), Sort(t, leq), leq);
  }

  // ----- lists without repetition -----

  ghost predicate Distinct<T>(s: seq<T>) {
    forall k, l :: 0 <= k < l < |s| ==> s[k] != s[l]
  }

  // As many values as places.
  ghost function Elements<T(!new)>(s: seq<T>): (r: set<T>)
    ensures forall x :: x in r <==> x in s
    ensures Distinct(s) ==> |r| == |s|
  {
    if s == [] then {} else Elements(s[..|s| - 1]) + {s[|s| - 1]}
  }

  lemma {:induction false} DistinctOnce<T>(s: seq<T>, x: T)
    requires Distinct(s)
    ensures multiset(s)[x] <= 1
  {
    if s == [] {
    } else {
      assert s == [s[0]] + s[1..];
      DistinctOnce(s[1..], x);
    }
  }

  lemma {:induction false} RepeatedTwice<T>(s: seq<T>, k: nat, l: nat)
    requires k < l < |s| && s[k] == s[l]
    ensures multiset(s)[s[k]] >= 2
  {
    assert s == s[..l] + s[l..];
    assert s[k] in s[..l] && s[l] in s[l..];
  }

  lemma {:induction false} BagKeepsDistinct<T>(s: seq<T>, t: seq<T>)
    requires Distinct(s) && multiset(t) == multiset(s)
    ensures Distinct(t) && |t| == |s| && forall x :: x in t <==> x in s
  {
    forall k, l | 0 <= k < l < |t| ensures t[k] != t[l] {
      DistinctOnce(s, t[k]);
      if t[k] == t[l] {
        RepeatedTwice(t, k, l);
      }
    }
    assert |multiset(t)| == |t| && |multiset(s)| == |s|;
    assert forall x :: x in t <==> x in multiset(t);
    assert forall x :: x in s <==> x in multiset(s);
  }
}
