// Overlapping sample pages and metadata batches (run_v01_benchmark.py) and the closed forms
// the comparator expects of them (compare_v01_benchmarks.py).
module Paging {
  import opened Arithmetic
  import opened Wrappers

  // The sampler is not part of this model: any function of page, cursor and end-of-stream.
  type Sampler<!T, F, !C> = (seq<T>, Option<C>, bool) -> (seq<F>, Option<C>)

  // The page that starts at `next`, repeating the last candidate of the page before it.
  function PageAt<T>(candidates: seq<T>, size: nat, next: nat): seq<T>
    requires size > 0 && next <= |candidates|
  {
    if next == 0 then candidates[..Min(size, |candidates|)]
    else [candidates[next - 1]] + candidates[next..Min(next + size - 1, |candidates|)]
  }

  function NextIndex(count: nat, size: nat, next: nat): nat
    requires size > 0 && next <= count
  {
    if next == 0 then Min(size, count) else Min(next + size - 1, count)
  }

  // The sizes with which the loop ends; see TerminatesIff.
  predicate Ends(count: nat, size: nat) {
    size >= 2 || (size == 1 && count <= 1)
  }

  function Pages<T>(candidates: seq<T>, size: nat, next: nat): seq<seq<T>>
    requires Ends(|candidates|, size) && next <= |candidates|
    decreases |candidates| - next
  {
    if next == |candidates| then []
    else [PageAt(candidates, size, next)] + Pages(candidates, size, NextIndex(|candidates|, size, next))
  }

  // Feeding pages to the sampler, threading its cursor; the last page ends the stream.
  function Fold<T, F, C>(pages: seq<seq<T>>, sampler: Sampler<T, F, C>, cursor: Option<C>): seq<F> {
    if pages == [] then []
    else
      var r := sampler(pages[0], cursor, |pages| == 1);
      r.0 + Fold(pages[1..], sampler, r.1)
  }

  // Every non-final page returns a cursor.
  ghost predicate Continues<T(!new), F, C(!new)>(sampler: Sampler<T, F, C>) {
    forall page, cursor :: sampler(page, cursor, false).1.Some?
  }

  // The first page, or the last candidate fed and the fresh ones after it.
  method NextPage<T>(candidates: seq<T>, size: nat, start: nat, first: bool) returns (page: seq<T>, next: nat)
    requires size > 0 && start < |candidates| && (first <==> start == 0)
    ensures page == PageAt(candidates, size, start) && next == NextIndex(|candidates|, size, start)
  {
    if first {
      page := candidates[..Min(size, |candidates|)];
      next := |page|;
    } else {
      var fresher := candidates[start..Min(start + size - 1, |candidates|)];
      page := [candidates[start - 1]] + fresher;
      next := start + |fresher|;
    }
  }

  method SampleAll<T(!new), F, C(!new)>(candidates: seq<T>, size: nat, sampler: Sampler<T, F, C>)
    returns (selected: seq<F>, pageCount: nat)
    requires Ends(|candidates|, size) && Continues(sampler)
    ensures selected == Fold(Pages(candidates, size, 0), sampler, None)
    ensures pageCount == |Pages(candidates, size, 0)|
    ensures IndexAfter(|candidates|, size, pageCount) == |candidates|
  {
    selected, pageCount := [], 0;
    var cursor: Option<C> := None;
    var next := 0;
    while next < |candidates|
      invariant 0 <= next <= |candidates|
      invariant next < |candidates| ==> (cursor.None? <==> next == 0)
      invariant selected + Fold(Pages(candidates, size, next), sampler, cursor)
                == Fold(Pages(candidates, size, 0), sampler, None)
      invariant pageCount + |Pages(candidates, size, next)| == |Pages(candidates, size, 0)|
      invariant next == IndexAfter(|candidates|, size, pageCount)
    {
      ghost var before := next;
      var page;
      page, next := NextPage(candidates, size, next, cursor.None?);
      ghost var pages := Pages(candidates, size, before);
      assert pages[1..] == Pages(candidates, size, next);
      var result := sampler(page, cursor, next == |candidates|);
      selected := selected + result.0;
      cursor := result.1;
      pageCount := pageCount + 1;
    }
  }

  // ----- when the loop ends -----

  // Where the k-th page starts, if the loop gets that far.
  function IndexAfter(count: nat, size: nat, k: nat): nat
    requires size > 0
    ensures IndexAfter(count, size, k) <= count
  {
    if k == 0 then 0 else NextIndex(count, size, IndexAfter(count, size, k - 1))
  }

  // With one candidate a page, a page after the first repeats the candidate before it and
  // adds none.
  lemma {:induction false} OneAtATime(count: nat, k: nat)
    requires count > 1
    ensures IndexAfter(count, 1, k) == if k == 0 then 0 else 1
  {
    if k == 0 {
    } else {
      OneAtATime(count, k - 1);
    }
  }

  // From the second page on every page adds a candidate, until there are none.
  lemma {:induction false} PagesAdvance(count: nat, size: nat, k: nat)
    requires size >= 2
    ensures IndexAfter(count, size, k) >= if k < count then k else count
  {
    if k == 0 {
    } else {
      PagesAdvance(count, size, k - 1);
    }
  }

  // For every page size a caller can ask for, and a sampler that continues, the loop reaches
  // the end if and only if pages hold two candidates or there is at most one candidate.
  lemma {:induction false} TerminatesIff(count: nat, size: nat)
    requires size > 0
    ensures (exists k: nat :: IndexAfter(count, size, k) == count) <==> size >= 2 || count <= 1
    ensures Ends(count, size) <==> size >= 2 || count <= 1
  {
    if size >= 2 {
      PagesAdvance(count, size, count);
    } else if count <= 1 {
      assert IndexAfter(count, size, count) == count by { OnePage(count); }
    } else {
      forall k: nat ensures IndexAfter(count, size, k) != count { OneAtATime(count, k); }
    }
  }

  lemma {:induction false} OnePage(count: nat)
    requires count <= 1
    ensures IndexAfter(count, 1, count) == count
  {
    assert IndexAfter(count, 1, 0) == 0;
  }

  // ----- what the pages are -----

  // The pages without the candidate each repeats from the page before.
  function Tails<T>(pages: seq<seq<T>>): seq<T>
    requires forall i :: 0 <= i < |pages| ==> pages[i] != []
  {
    if pages == [] then [] else pages[0][1..] + Tails(pages[1..])
  }

  function CeilDiv(a: int, b: int): int
    requires b > 0
  {
    (a + b - 1) / b
  }

  // Every page starts with the last candidate of the page before it.
  ghost predicate Chained<T>(pages: seq<seq<T>>) {
    && (forall i :: 0 <= i < |pages| ==> pages[i] != [])
    && forall i :: 0 < i < |pages| ==> pages[i][0] == pages[i - 1][|pages[i - 1]| - 1]
  }

  lemma {:induction false} ChainGrows<T>(page: seq<T>, rest: seq<seq<T>>)
    requires page != [] && Chained(rest) && (rest != [] ==> rest[0][0] == page[|page| - 1])
    ensures Chained([page] + rest)
  {}

  // From the second page on: sizes, overlaps and coverage.
  lemma {:induction false} LaterPages<T>(candidates: seq<T>, size: nat, next: nat)
    requires size >= 2 && 0 < next <= |candidates|
    ensures var pages := Pages(candidates, size, next);
            && (forall i :: 0 <= i < |pages| ==> 2 <= |pages[i]| <= size)
            && Tails(pages) == candidates[next..] && Chained(pages)
            && (pages != [] ==> pages[0][0] == candidates[next - 1])
    decreases |candidates| - next
  {
    if next < |candidates| {
      var after := NextIndex(|candidates|, size, next);
      LaterPages(candidates, size, after);
      var page, rest := PageAt(candidates, size, next), Pages(candidates, size, after);
      assert Pages(candidates, size, next) == [page] + rest && ([page] + rest)[1..] == rest;
      assert page[1..] + candidates[after..] == candidates[next..];
      assert page[|page| - 1] == candidates[after - 1];
      ChainGrows(page, rest);
    } else {
      assert candidates[next..] == [];
    }
  }

  lemma {:induction false} LaterPageCount<T>(candidates: seq<T>, size: nat, next: nat)
    requires size >= 2 && 0 < next <= |candidates|
    ensures |Pages(candidates, size, next)| == CeilDiv(|candidates| - next, size - 1)
    decreases |candidates| - next
  {
    var left, d := |candidates| - next, size - 1;
    CeilDivStep(left, d);
    if |candidates| <= next {
    } else {
      var after := NextIndex(|candidates|, size, next);
      assert |candidates| - after == if left > d then left - d else 0;
      LaterPageCount(candidates, size, after);
      assert |Pages(candidates, size, next)| == 1 + |Pages(candidates, size, after)|;
    }
  }

  lemma {:induction false} CeilDivStep(a: nat, b: nat)
    requires b > 0
    ensures a > 0 ==> CeilDiv(a, b) == 1 + CeilDiv(if a > b then a - b else 0, b)
    ensures CeilDiv(0, b) == 0
  {
    QuotientIs(b - 1, b, 0);
    if a > 0 {
      QuotientShift(a - 1, b);
      if a <= b { QuotientIs(a - 1, b, 0); }
    }
  }

  lemma {:induction false} QuotientShift(x: int, b: int)
    requires b > 0
    ensures (x + b) / b == x / b + 1
  {
    var q, r := x / b, x % b;
    assert x + b == (q + 1) * b + r;
    QuotientIs(x + b, b, q + 1);
  }

  // Pages overlap by exactly one candidate, hold at most `size` candidates, and give the
  // candidates back when the overlaps are dropped.
  lemma {:induction false} PagesMeaning<T>(candidates: seq<T>, size: nat)
    requires size >= 2 && candidates != []
    ensures var pages := Pages(candidates, size, 0);
            && pages != [] && (forall i :: 0 <= i < |pages| ==> 0 < |pages[i]| <= size)
            && Chained(pages) && pages[0] + Tails(pages[1..]) == candidates
  {
    var after := NextIndex(|candidates|, size, 0);
    var page, rest := PageAt(candidates, size, 0), Pages(candidates, size, after);
    LaterPages(candidates, size, after);
    assert Pages(candidates, size, 0) == [page] + rest && ([page] + rest)[1..] == rest;
    ChainGrows(page, rest);
    assert candidates[..after] + candidates[after..] == candidates;
  }

  // The number of pages is the comparator's closed form.
  lemma {:induction false} PageCount<T>(candidates: seq<T>, size: nat)
    requires size >= 2 && candidates != []
    ensures |Pages(candidates, size, 0)| == 1 + Max(0, (|candidates| - size + size - 2) / (size - 1))
  {
    var after := NextIndex(|candidates|, size, 0);
    LaterPageCount(candidates, size, after);
    assert |Pages(candidates, size, 0)| == 1 + |Pages(candidates, size, after)|;
    ClosedForm(|candidates|, size);
  }

  lemma {:induction false} ClosedForm(n: nat, size: nat)
    requires size >= 2 && n > 0
    ensures CeilDiv(n - Min(size, n), size - 1) == Max(0, (n - size + size - 2) / (size - 1))
  {
    var d := size - 1;
    CeilDivStep(0, d);
    if n == 1 {
      QuotientIs(-1, d, -1);
    } else if n - 2 < d {
      QuotientIs(n - 2, d, 0);
    } else {
      assert n - size + d - 1 == n - 2;
    }
  }

  // ----- metadata batches -----

  function Batches<T>(values: seq<T>, size: nat): seq<seq<T>>
    requires size > 0
    decreases |values|
  {
    if values == [] then [] else [values[..Min(size, |values|)]] + Batches(values[Min(size, |values|)..], size)
  }

  function Concat<T>(parts: seq<seq<T>>): seq<T> {
    if parts == [] then [] else parts[0] + Concat(parts[1..])
  }

  lemma {:induction false} BatchesMeaning<T>(values: seq<T>, size: nat)
    requires size > 0
    ensures Concat(Batches(values, size)) == values
    ensures forall i :: 0 <= i < |Batches(values, size)| ==> 0 < |Batches(values, size)[i]| <= size
    ensures |Batches(values, size)| == CeilDiv(|values|, size)
    decreases |values|
  {
    CeilDivStep(|values|, size);
    if values == [] {
    } else {
      BatchesMeaning(values[Min(size, |values|)..], size);
    }
  }

  // One evidence record a sample: the transactions the comparator expects.
  lemma {:induction false} TransactionCount<S, T>(selected: seq<S>, evidence: seq<T>, samples: nat, size: nat)
    requires size > 0 && |selected| == |evidence| == samples
    ensures |Batches(selected, size)| + |Batches(evidence, size)| == 2 * ((samples + size - 1) / size)
  {
    BatchesMeaning(selected, size);
    BatchesMeaning(evidence, size);
  }
}
