// Maximum-weight assignment by shortest augmenting paths (v02_tracking_metrics.py), over rationals.
module Assignment {
  import opened Arithmetic
  import opened Wrappers
  import Sorting

  const MAX_IDENTITIES := 512

  type Matrix = seq<seq<real>>
  type Pair = (nat, nat)

  // ----- matchings and their weight -----

  predicate Rectangular(w: Matrix, rows: nat, columns: nat) {
    |w| == rows && forall i :: 0 <= i < rows ==> |w[i]| == columns
  }

  // No row and no column is used twice.
  ghost predicate IsMatching(rows: nat, columns: nat, pairs: seq<Pair>) {
    && (forall k :: 0 <= k < |pairs| ==> pairs[k].0 < rows && pairs[k].1 < columns)
    && (forall k, l :: 0 <= k < l < |pairs| ==> pairs[k].0 != pairs[l].0 && pairs[k].1 != pairs[l].1)
  }

  ghost function Weight(w: Matrix, rows: nat, columns: nat, pairs: seq<Pair>): real
    requires Rectangular(w, rows, columns) && IsMatching(rows, columns, pairs)
  {
    if pairs == [] then 0.0
    else w[pairs[0].0][pairs[0].1] + Weight(w, rows, columns, pairs[1..])
  }

  ghost function Sum(a: seq<real>): real {
    if a == [] then 0.0 else a[0] + Sum(a[1..])
  }

  lemma {:induction false} SumUpdate(a: seq<real>, i: nat, x: real)
    requires i < |a|
    ensures Sum(a[i := x]) == Sum(a) - a[i] + x
  {
    if i == 0 {
      assert a[i := x][1..] == a[1..];
    } else {
      assert a[i := x][1..] == a[1..][i - 1 := x];
      SumUpdate(a[1..], i - 1, x);
    }
  }

  ghost predicate NonNegative(a: seq<real>) {
    forall i :: 0 <= i < |a| ==> a[i] >= 0.0
  }

  lemma {:induction false} SumBound(a: seq<real>)
    requires NonNegative(a)
    ensures Sum(a) >= 0.0
    ensures (forall i :: 0 <= i < |a| ==> a[i] == 0.0) ==> Sum(a) == 0.0
  {
    if a == [] {
    } else {
      SumBound(a[1..]);
    }
  }

  // ----- the dual bound -----

  ghost predicate HasRow(pairs: seq<Pair>, i: nat) {
    exists k :: 0 <= k < |pairs| && pairs[k].0 == i
  }

  ghost predicate HasColumn(pairs: seq<Pair>, j: nat) {
    exists k :: 0 <= k < |pairs| && pairs[k].1 == j
  }

  // Prices of rows and columns that no pair of a matching exceeds bound its weight from above.
  lemma {:induction false} WeightBound(w: Matrix, a: seq<real>, b: seq<real>, pairs: seq<Pair>)
    requires Rectangular(w, |a|, |b|) && IsMatching(|a|, |b|, pairs) && NonNegative(a) && NonNegative(b)
    requires forall k :: 0 <= k < |pairs| ==> w[pairs[k].0][pairs[k].1] <= a[pairs[k].0] + b[pairs[k].1]
    ensures Weight(w, |a|, |b|, pairs) <= Sum(a) + Sum(b)
    decreases pairs
  {
    if pairs == [] {
      SumBound(a);
      SumBound(b);
    } else {
      var (i, j) := pairs[0];
      SumUpdate(a, i, 0.0);
      SumUpdate(b, j, 0.0);
      WeightBound(w, a[i := 0.0], b[j := 0.0], pairs[1..]);
    }
  }

  lemma {:induction false} RestHasRow(pairs: seq<Pair>, i: nat)
    requires HasRow(pairs, i) && pairs[0].0 != i
    ensures HasRow(pairs[1..], i)
  {
    var k :| 0 <= k < |pairs| && pairs[k].0 == i;
    assert pairs[1..][k - 1].0 == i;
  }

  lemma {:induction false} RestHasColumn(pairs: seq<Pair>, j: nat)
    requires HasColumn(pairs, j) && pairs[0].1 != j
    ensures HasColumn(pairs[1..], j)
  {
    var k :| 0 <= k < |pairs| && pairs[k].1 == j;
    assert pairs[1..][k - 1].1 == j;
  }

  // Prices met by every pair and zero elsewhere.
  ghost predicate Meets(w: Matrix, a: seq<real>, b: seq<real>, pairs: seq<Pair>)
    requires Rectangular(w, |a|, |b|) && IsMatching(|a|, |b|, pairs)
  {
    && (forall k :: 0 <= k < |pairs| ==> w[pairs[k].0][pairs[k].1] == a[pairs[k].0] + b[pairs[k].1])
    && (forall i :: 0 <= i < |a| && a[i] != 0.0 ==> HasRow(pairs, i))
    && (forall j :: 0 <= j < |b| && b[j] != 0.0 ==> HasColumn(pairs, j))
  }

  lemma {:induction false} RestMeets(w: Matrix, a: seq<real>, b: seq<real>, pairs: seq<Pair>)
    requires Rectangular(w, |a|, |b|) && IsMatching(|a|, |b|, pairs) && Meets(w, a, b, pairs) && pairs != []
    ensures Meets(w, a[pairs[0].0 := 0.0], b[pairs[0].1 := 0.0], pairs[1..])
  {
    var (i, j) := pairs[0];
    forall r | 0 <= r < |a| && a[i := 0.0][r] != 0.0 ensures HasRow(pairs[1..], r) { RestHasRow(pairs, r); }
    forall s | 0 <= s < |b| && b[j := 0.0][s] != 0.0 ensures HasColumn(pairs[1..], s) { RestHasColumn(pairs, s); }
  }

  lemma {:induction false} WeightIs(w: Matrix, a: seq<real>, b: seq<real>, pairs: seq<Pair>)
    requires Rectangular(w, |a|, |b|) && IsMatching(|a|, |b|, pairs) && NonNegative(a) && NonNegative(b)
    requires Meets(w, a, b, pairs)
    ensures Weight(w, |a|, |b|, pairs) == Sum(a) + Sum(b)
    decreases pairs
  {
    if pairs == [] {
      assert forall i :: 0 <= i < |a| ==> !HasRow(pairs, i);
      assert forall j :: 0 <= j < |b| ==> !HasColumn(pairs, j);
      SumBound(a);
      SumBound(b);
    } else {
      var (i, j) := pairs[0];
      SumUpdate(a, i, 0.0);
      SumUpdate(b, j, 0.0);
      RestMeets(w, a, b, pairs);
      WeightIs(w, a[i := 0.0], b[j := 0.0], pairs[1..]);
    }
  }

  // ----- reduced costs -----

  // Costs of rows and columns with a potential for each; index 0 stands for no row and no column.
  ghost predicate Sized(c: Matrix, u: seq<real>, v: seq<real>) {
    |u| == |c| + 1 && |v| > 0 && Rectangular(c, |c|, |v| - 1)
  }

  function Reduced(c: Matrix, u: seq<real>, v: seq<real>, i: nat, j: nat): real
    requires 1 <= i <= |c| && i < |u| && 1 <= j <= |c[i - 1]| && j < |v|
  {
    c[i - 1][j - 1] - u[i] - v[j]
  }

  ghost predicate Feasible(c: Matrix, u: seq<real>, v: seq<real>)
    requires Sized(c, u, v)
  {
    forall i, j :: 1 <= i < |u| && 1 <= j < |v| ==> Reduced(c, u, v, i, j) >= 0.0
  }

  // The first `rows` rows each stand in one place of p, found by q, and no other place but `hole` is
  // taken.  Place 0 is the row that waits for a column.
  ghost predicate Placed(p: seq<nat>, q: seq<nat>, rows: nat, hole: nat) {
    && rows < |q|
    && (forall j :: 0 <= j < |p| && j != hole && p[j] != 0 ==> p[j] <= rows && q[p[j]] == j)
    && forall i :: 1 <= i <= rows ==> q[i] < |p| && q[i] != hole && p[q[i]] == i
  }

  ghost predicate Tight(c: Matrix, u: seq<real>, v: seq<real>, p: seq<nat>, hole: nat)
    requires Sized(c, u, v) && |p| == |v|
    requires forall j :: 0 <= j < |p| && j != hole ==> p[j] < |u|
  {
    forall j :: 1 <= j < |p| && j != hole && p[j] != 0 ==> Reduced(c, u, v, p[j], j) == 0.0
  }

  // Only the columns of rows have been given a price.
  ghost predicate Priced(v: seq<real>, p: seq<nat>)
    requires |p| == |v|
  {
    forall j :: 1 <= j < |v| ==> v[j] <= 0.0 && (p[j] == 0 ==> v[j] == 0.0)
  }

  // What holds of the potentials and the partial matching p whenever `rows` rows stand in p.
  ghost predicate Dual(c: Matrix, u: seq<real>, v: seq<real>, p: seq<nat>, q: seq<nat>, rows: nat, hole: nat) {
    && Sized(c, u, v) && |p| == |v| && |q| == |u| && rows < |u|
    && Feasible(c, u, v) && Placed(p, q, rows, hole) && Tight(c, u, v, p, hole) && Priced(v, p)
  }

  // ----- the alternating tree -----

  // The columns reached from column 0, each over a tight edge from the row of an earlier one.
  datatype Tree = Tree(used: seq<bool>, way: seq<nat>, rank: seq<nat>)

  ghost predicate Child(c: Matrix, u: seq<real>, v: seq<real>, p: seq<nat>, t: Tree, j: nat)
    requires Sized(c, u, v) && |p| == |v| && |t.used| == |t.way| == |t.rank| == |v| && 1 <= j < |v|
  {
    var k := t.way[j];
    && k < |v| && t.used[k] && t.rank[k] < t.rank[j]
    && 1 <= p[k] < |u| && Reduced(c, u, v, p[k], j) == 0.0
  }

  ghost predicate Grown(c: Matrix, u: seq<real>, v: seq<real>, p: seq<nat>, t: Tree) {
    && Sized(c, u, v) && |p| == |v| && |t.used| == |t.way| == |t.rank| == |v|
    && (forall j :: 0 <= j < |v| && t.used[j] ==> 1 <= p[j] < |u|)
    && forall j :: 1 <= j < |v| && t.used[j] ==> Child(c, u, v, p, t, j)
  }

  // ----- one scan of the columns from the row of the newest one -----

  predicate Below(x: real, bound: Option<real>) {
    bound.None? || x < bound.value
  }

  // Every unused column keeps its smaller bound, and remembers whose row gave it.
  ghost predicate Scanned(c: Matrix, u: seq<real>, v: seq<real>, row: nat, column: nat, used: seq<bool>,
                          minimums0: seq<Option<real>>, way0: seq<nat>, minimums: seq<Option<real>>, way: seq<nat>)
    requires Sized(c, u, v) && 1 <= row < |u| && |used| == |minimums0| == |way0| == |v|
  {
    && |minimums| == |way| == |v|
    && (forall j :: 0 <= j < |v| && (j == 0 || used[j]) ==> minimums[j] == minimums0[j] && way[j] == way0[j])
    && forall j :: 1 <= j < |v| && !used[j] ==>
      if minimums0[j].None? || Reduced(c, u, v, row, j) < minimums0[j].value
      then minimums[j] == Some(Reduced(c, u, v, row, j)) && way[j] == column
      else minimums[j] == minimums0[j] && way[j] == way0[j]
  }

  method Scan(c: Matrix, u: seq<real>, v: seq<real>, row: nat, column: nat, used: seq<bool>,
              minimums0: seq<Option<real>>, way0: seq<nat>, ghost free: nat)
    returns (minimums: seq<Option<real>>, way: seq<nat>, delta: real, next: nat)
    requires Sized(c, u, v) && 1 <= row < |u| && |used| == |minimums0| == |way0| == |v|
    requires 1 <= free < |v| && !used[free]
    ensures Scanned(c, u, v, row, column, used, minimums0, way0, minimums, way)
    ensures 1 <= next < |v| && !used[next] && minimums[next] == Some(delta)
    ensures forall j :: 1 <= j < |v| && !used[j] ==> minimums[j].Some? && delta <= minimums[j].value
    ensures forall j :: 1 <= j < next && !used[j] ==> delta < minimums[j].value
  {
    minimums, way, next := minimums0, way0, 0;
    var least: Option<real> := None;
    for j := 1 to |v|
      invariant |minimums| == |way| == |v|
      invariant forall k :: 0 <= k < |v| && (k == 0 || k >= j || used[k]) ==>
        minimums[k] == minimums0[k] && way[k] == way0[k]
      invariant forall k :: 1 <= k < j && !used[k] ==>
        if Below(Reduced(c, u, v, row, k), minimums0[k])
        then minimums[k] == Some(Reduced(c, u, v, row, k)) && way[k] == column
        else minimums[k] == minimums0[k] && way[k] == way0[k]
      invariant least.Some? ==> 1 <= next < j && !used[next] && minimums[next] == least
      invariant forall k :: 1 <= k < j && !used[k] ==>
        least.Some? && minimums[k].Some? && least.value <= minimums[k].value
      invariant least.Some? ==> forall k :: 1 <= k < next && !used[k] ==> least.value < minimums[k].value
    {
      if used[j] {
        continue;
      }
      var current := Reduced(c, u, v, row, j);
      if Below(current, minimums[j]) {
        minimums, way := minimums[j := Some(current)], way[j := column];
      }
      if Below(minimums[j].value, least) {
        least, next := minimums[j], j;
      }
    }
    delta := least.value;
  }

  // ----- the shift of the potentials -----

  ghost predicate InTree(q: seq<nat>, used: seq<bool>, rows: nat, i: nat) {
    1 <= i <= rows && i < |q| && q[i] < |used| && used[q[i]]
  }

  ghost predicate Shifted(u0: seq<real>, v0: seq<real>, q: seq<nat>, used: seq<bool>, rows: nat, delta: real,
                          u: seq<real>, v: seq<real>)
  {
    && |u| == |u0| && |v| == |v0| == |used|
    && (forall i :: 0 <= i < |u| ==> u[i] == if InTree(q, used, rows, i) then u0[i] + delta else u0[i])
    && forall j :: 0 <= j < |v| ==> v[j] == if used[j] then v0[j] - delta else v0[j]
  }

  method Shift(u0: seq<real>, v0: seq<real>, p: seq<nat>, ghost q: seq<nat>, used: seq<bool>,
               minimums0: seq<Option<real>>, delta: real, ghost rows: nat, ghost hole: nat)
    returns (u: seq<real>, v: seq<real>, minimums: seq<Option<real>>)
    requires |p| == |v0| == |used| == |minimums0| && |q| == |u0| && Placed(p, q, rows, hole)
    requires forall j :: 0 <= j < |v0| ==> if used[j] then p[j] != 0 && j != hole else minimums0[j].Some?
    ensures Shifted(u0, v0, q, used, rows, delta, u, v) && |minimums| == |v|
    ensures forall j :: 0 <= j < |v| ==>
      minimums[j] == if used[j] then minimums0[j] else Some(minimums0[j].value - delta)
  {
    u, v, minimums := u0, v0, minimums0;
    for j := 0 to |v0|
      invariant |u| == |u0| && |v| == |v0| && |minimums| == |v|
      invariant forall i :: 0 <= i < |u| ==>
        u[i] == if InTree(q, used, rows, i) && q[i] < j then u0[i] + delta else u0[i]
      invariant forall k :: 0 <= k < |v| ==> v[k] == if used[k] && k < j then v0[k] - delta else v0[k]
      invariant forall k :: 0 <= k < |v| ==>
        minimums[k] == if used[k] || k >= j then minimums0[k] else Some(minimums0[k].value - delta)
    {
      if used[j] {
        u := u[p[j] := u[p[j]] + delta];
        v := v[j := v[j] - delta];
      } else {
        minimums := minimums[j := Some(minimums[j].value - delta)];
      }
    }
  }

  // The least reduced cost of an unused column over the rows of the tree, and a row that has it.
  ghost predicate Bounded(c: Matrix, u: seq<real>, v: seq<real>, p: seq<nat>, t: Tree, bound: Option<real>, j: nat)
    requires Grown(c, u, v, p, t) && 1 <= j < |v|
  {
    && (forall k :: 0 <= k < |v| && t.used[k] ==> bound.Some? && bound.value <= Reduced(c, u, v, p[k], j))
    && (bound.Some? ==> t.way[j] < |v| && t.used[t.way[j]] && bound.value == Reduced(c, u, v, p[t.way[j]], j))
  }

  // The tree, and the bounds of all other columns.
  ghost predicate Spread(c: Matrix, u: seq<real>, v: seq<real>, p: seq<nat>, t: Tree, minimums: seq<Option<real>>) {
    && Grown(c, u, v, p, t) && |minimums| == |v|
    && forall j :: 1 <= j < |v| && !t.used[j] ==> Bounded(c, u, v, p, t, minimums[j], j)
  }

  // A column reached over a tight edge joins the tree.
  lemma {:induction false} ScanKeepsSpread(c: Matrix, u: seq<real>, v: seq<real>, p: seq<nat>, t0: Tree,
                                           minimums0: seq<Option<real>>, column: nat,
                                           t: Tree, minimums: seq<Option<real>>)
    requires Spread(c, u, v, p, t0, minimums0) && column < |v| && !t0.used[column] && 1 <= p[column] < |u|
    requires column == 0 || Child(c, u, v, p, t0, column)
    requires t.used == t0.used[column := true] && t.rank == t0.rank
    requires Scanned(c, u, v, p[column], column, t.used, minimums0, t0.way, minimums, t.way)
    ensures Spread(c, u, v, p, t, minimums)
  {
    forall j | 1 <= j < |v| && t.used[j] ensures Child(c, u, v, p, t, j) {
      assert Child(c, u, v, p, t0, j);
    }
    forall j | 1 <= j < |v| && !t.used[j] ensures Bounded(c, u, v, p, t, minimums[j], j) {
      assert Bounded(c, u, v, p, t0, minimums0[j], j);
    }
  }

  // The shift leaves the reduced costs between tree and tree, and lowers them from the tree outwards.
  lemma {:induction false} ShiftedReduced(c: Matrix, u0: seq<real>, v0: seq<real>, q: seq<nat>, used: seq<bool>,
                                          rows: nat, delta: real, u: seq<real>, v: seq<real>, i: nat, j: nat)
    requires Sized(c, u0, v0) && Shifted(u0, v0, q, used, rows, delta, u, v) && 1 <= i < |u| && 1 <= j < |v|
    ensures InTree(q, used, rows, i) && used[j] ==> Reduced(c, u, v, i, j) == Reduced(c, u0, v0, i, j)
    ensures InTree(q, used, rows, i) && !used[j] ==> Reduced(c, u, v, i, j) == Reduced(c, u0, v0, i, j) - delta
    ensures !InTree(q, used, rows, i) && used[j] ==> Reduced(c, u, v, i, j) == Reduced(c, u0, v0, i, j) + delta
    ensures !InTree(q, used, rows, i) && !used[j] ==> Reduced(c, u, v, i, j) == Reduced(c, u0, v0, i, j)
  {}

  // Shifting by no more than every bound keeps the reduced costs non-negative.
  lemma {:induction false} ShiftKeepsDual(c: Matrix, u0: seq<real>, v0: seq<real>, p: seq<nat>, q: seq<nat>,
                                          rows: nat, hole: nat, t: Tree, minimums: seq<Option<real>>, delta: real,
                                          u: seq<real>, v: seq<real>)
    requires Dual(c, u0, v0, p, q, rows, hole) && Spread(c, u0, v0, p, t, minimums)
    requires hole < |p| && p[hole] == 0
    requires Shifted(u0, v0, q, t.used, rows, delta, u, v) && delta >= 0.0
    requires forall j :: 1 <= j < |v| && !t.used[j] ==> minimums[j].Some? && delta <= minimums[j].value
    ensures Dual(c, u, v, p, q, rows, hole)
  {
    forall i, j | 1 <= i < |u| && 1 <= j < |v| ensures Reduced(c, u, v, i, j) >= 0.0 {
      assert Reduced(c, u0, v0, i, j) >= 0.0;
      ShiftedReduced(c, u0, v0, q, t.used, rows, delta, u, v, i, j);
      if InTree(q, t.used, rows, i) && !t.used[j] {
        assert Bounded(c, u0, v0, p, t, minimums[j], j) && p[q[i]] == i;
      }
    }
    forall j | 1 <= j < |p| && p[j] != 0 ensures Reduced(c, u, v, p[j], j) == 0.0 {
      ShiftedReduced(c, u0, v0, q, t.used, rows, delta, u, v, p[j], j);
    }
  }

  lemma {:induction false} ShiftKeepsSpread(c: Matrix, u0: seq<real>, v0: seq<real>, p: seq<nat>, q: seq<nat>,
                                            rows: nat, hole: nat, t: Tree, scanned: seq<Option<real>>, delta: real,
                                            u: seq<real>, v: seq<real>, minimums: seq<Option<real>>)
    requires Placed(p, q, rows, hole) && hole < |p| && p[hole] == 0 && Spread(c, u0, v0, p, t, scanned)
    requires Shifted(u0, v0, q, t.used, rows, delta, u, v) && |minimums| == |v|
    requires forall j :: 1 <= j < |v| && !t.used[j] ==>
      scanned[j].Some? && minimums[j] == Some(scanned[j].value - delta)
    ensures Spread(c, u, v, p, t, minimums)
  {
    forall k | 0 <= k < |v| && t.used[k] ensures InTree(q, t.used, rows, p[k]) {}
    forall j | 1 <= j < |v| && t.used[j] ensures Child(c, u, v, p, t, j) {
      assert Child(c, u0, v0, p, t, j);
      ShiftedReduced(c, u0, v0, q, t.used, rows, delta, u, v, p[t.way[j]], j);
    }
    forall j | 1 <= j < |v| && !t.used[j] ensures Bounded(c, u, v, p, t, minimums[j], j) {
      assert Bounded(c, u0, v0, p, t, scanned[j], j);
      forall k | 0 <= k < |v| && t.used[k]
        ensures Reduced(c, u, v, p[k], j) == Reduced(c, u0, v0, p[k], j) - delta
      {
        ShiftedReduced(c, u0, v0, q, t.used, rows, delta, u, v, p[k], j);
      }
    }
  }

  lemma {:induction false} RankKeepsSpread(c: Matrix, u: seq<real>, v: seq<real>, p: seq<nat>, t0: Tree, t: Tree,
                                           minimums: seq<Option<real>>, column: nat)
    requires Spread(c, u, v, p, t0, minimums) && column < |v| && !t0.used[column]
    requires t.used == t0.used && t.way == t0.way && |t.rank| == |v|
    requires forall j :: 0 <= j < |v| && j != column ==> t.rank[j] == t0.rank[j]
    ensures Spread(c, u, v, p, t, minimums)
  {
    forall j | 1 <= j < |v| && t.used[j] ensures Child(c, u, v, p, t, j) {
      assert Child(c, u, v, p, t0, j);
    }
    forall j | 1 <= j < |v| && !t.used[j] ensures Bounded(c, u, v, p, t, minimums[j], j) {
      assert Bounded(c, u, v, p, t0, minimums[j], j);
    }
  }

  // ----- the search for an augmenting path -----

  // The tree grown so far, the bounds of the other columns, and the column reached last.
  ghost predicate Searching(c: Matrix, u: seq<real>, v: seq<real>, p: seq<nat>, q: seq<nat>, rows: nat, free: nat,
                            t: Tree, minimums: seq<Option<real>>, end: nat)
  {
    && Dual(c, u, v, p, q, rows, free) && 1 <= free < |p| && p[free] == 0
    && Spread(c, u, v, p, t, minimums)
    && end < |v| && !t.used[end] && (end == 0 || (t.used[0] && Child(c, u, v, p, t, end)))
    && forall j :: 0 <= j < |v| && t.used[j] ==> t.rank[j] < t.rank[end]
  }

  // One round: the reached column joins the tree, the bounds are updated, and the potentials shifted by
  // the least bound.
  lemma {:induction false} RoundKeepsDual(
      c: Matrix, u0: seq<real>, v0: seq<real>, p: seq<nat>, q: seq<nat>, rows: nat, free: nat,
      t0: Tree, minimums0: seq<Option<real>>, end0: nat, t: Tree, scanned: seq<Option<real>>, delta: real, end: nat,
      u: seq<real>, v: seq<real>, minimums: seq<Option<real>>)
    requires Searching(c, u0, v0, p, q, rows, free, t0, minimums0, end0)
    requires 1 <= p[end0] < |u0| && t.used == t0.used[end0 := true] && t.rank == t0.rank
    requires Scanned(c, u0, v0, p[end0], end0, t.used, minimums0, t0.way, scanned, t.way)
    requires 1 <= end < |v0| && !t.used[end] && scanned[end] == Some(delta)
    requires forall j :: 1 <= j < |v0| && !t.used[j] ==> scanned[j].Some? && delta <= scanned[j].value
    requires Shifted(u0, v0, q, t.used, rows, delta, u, v) && |minimums| == |v|
    requires forall j :: 1 <= j < |v| && !t.used[j] ==> minimums[j] == Some(scanned[j].value - delta)
    ensures Dual(c, u, v, p, q, rows, free) && Spread(c, u, v, p, t, minimums)
  {
    ScanKeepsSpread(c, u0, v0, p, t0, minimums0, end0, t, scanned);
    assert Bounded(c, u0, v0, p, t, scanned[end], end);
    ShiftKeepsDual(c, u0, v0, p, q, rows, free, t, scanned, delta, u, v);
    ShiftKeepsSpread(c, u0, v0, p, q, rows, free, t, scanned, delta, u, v, minimums);
  }

  // The column whose bound became zero is reached next, after all columns of the tree.
  lemma {:induction false} RoundReaches(c: Matrix, u: seq<real>, v: seq<real>, p: seq<nat>, t0: Tree, t: Tree,
                                        minimums: seq<Option<real>>, end: nat)
    requires Spread(c, u, v, p, t0, minimums) && 1 <= end < |v| && !t0.used[end] && minimums[end] == Some(0.0)
    requires t.used == t0.used && t.way == t0.way && |t.rank| == |v|
    requires forall j :: 0 <= j < |v| && j != end ==> t.rank[j] == t0.rank[j]
    requires forall j :: 0 <= j < |v| && t.used[j] ==> t.rank[j] < t.rank[end]
    ensures Spread(c, u, v, p, t, minimums) && Child(c, u, v, p, t, end)
  {
    RankKeepsSpread(c, u, v, p, t0, t, minimums, end);
    assert Bounded(c, u, v, p, t, minimums[end], end);
  }

  ghost function Unused(used: seq<bool>): set<nat> {
    set j: nat | j < |used| && !used[j]
  }

  lemma {:induction false} UseShrinks(used: seq<bool>, j: nat)
    requires j < |used| && !used[j]
    ensures Unused(used[j := true]) < Unused(used)
  {
    assert j in Unused(used) && j !in Unused(used[j := true]);
  }

  method Grow(c: Matrix, u0: seq<real>, v0: seq<real>, p: seq<nat>, ghost q: seq<nat>, ghost rows: nat,
              ghost free: nat, used0: seq<bool>, minimums0: seq<Option<real>>, way0: seq<nat>, end0: nat,
              ghost t0: Tree)
    returns (u: seq<real>, v: seq<real>, used: seq<bool>, minimums: seq<Option<real>>, way: seq<nat>, end: nat,
             ghost t: Tree)
    requires Searching(c, u0, v0, p, q, rows, free, t0, minimums0, end0) && p[end0] != 0
    requires t0.used == used0 && t0.way == way0
    ensures Searching(c, u, v, p, q, rows, free, t, minimums, end) && 1 <= end
    ensures used == used0[end0 := true] && t.used == used && t.way == way
  {
    used := used0[end0 := true];
    var scanned, delta;
    scanned, way, delta, end := Scan(c, u0, v0, p[end0], end0, used, minimums0, way0, free);
    u, v, minimums := Shift(u0, v0, p, q, used, scanned, delta, rows, free);
    ghost var joined := Tree(used, way, t0.rank);
    RoundKeepsDual(c, u0, v0, p, q, rows, free, t0, minimums0, end0, joined, scanned, delta, end, u, v, minimums);
    t := Tree(used, way, t0.rank[end := t0.rank[end0] + 1]);
    RoundReaches(c, u, v, p, joined, t, minimums, end);
  }

  method Search(c: Matrix, u0: seq<real>, v0: seq<real>, p: seq<nat>, ghost q: seq<nat>, ghost rows: nat,
                ghost free: nat)
    returns (u: seq<real>, v: seq<real>, way: seq<nat>, end: nat, ghost t: Tree)
    requires Dual(c, u0, v0, p, q, rows, free) && p[0] != 0
    requires 1 <= free < |p| && p[free] == 0
    ensures Dual(c, u, v, p, q, rows, free) && Grown(c, u, v, p, t) && t.way == way
    ensures 1 <= end < |p| && p[end] == 0 && Child(c, u, v, p, t, end)
  {
    u, v, way, end := u0, v0, Repeat(0, |p|), 0;
    var used := Repeat(false, |p|);
    var minimums: seq<Option<real>> := Repeat(None, |p|);
    t := Tree(used, way, Repeat(0, |p|));
    while p[end] != 0
      invariant Searching(c, u, v, p, q, rows, free, t, minimums, end) && t.used == used && t.way == way
      decreases Unused(used)
    {
      UseShrinks(used, end);
      u, v, used, minimums, way, end, t := Grow(c, u, v, p, q, rows, free, used, minimums, way, end, t);
    }
  }

  // ----- the augmentation along the path -----

  // Each of the first rows stands in exactly one column, and nothing else stands anywhere.
  ghost predicate OnceEach(p: seq<nat>, rows: nat) {
    && p != [] && (forall i :: 1 <= i <= rows ==> i in p[1..])
    && (forall j :: 1 <= j < |p| ==> p[j] <= rows)
    && forall j, k :: 1 <= j < k < |p| && p[j] == p[k] ==> p[j] == 0
  }

  lemma {:induction false} PlacedOnceEach(p: seq<nat>, q: seq<nat>, rows: nat)
    requires p != [] && Placed(p, q, rows, 0)
    ensures OnceEach(p, rows)
  {
    forall i | 1 <= i <= rows ensures i in p[1..] {
      assert p[q[i]] == i && p[1..][q[i] - 1] == i;
    }
  }

  // Moving the row of one place into the hole makes that place the hole.
  lemma {:induction false} MoveKeepsPlaced(p: seq<nat>, q: seq<nat>, rows: nat, hole: nat, place: nat)
    requires Placed(p, q, rows, hole) && hole < |p| && place < |p| && place != hole && p[place] != 0
    ensures Placed(p[hole := p[place]], q[p[place] := hole], rows, place)
  {}

  lemma {:induction false} MoveKeepsTight(c: Matrix, u: seq<real>, v: seq<real>, p: seq<nat>, hole: nat, place: nat)
    requires Sized(c, u, v) && |p| == |v| && (forall j :: 0 <= j < |p| && j != hole ==> p[j] < |u|)
    requires Tight(c, u, v, p, hole) && 1 <= hole < |p| && place < |p| && place != hole && p[place] != 0
    requires Reduced(c, u, v, p[place], hole) == 0.0
    ensures Tight(c, u, v, p[hole := p[place]], place)
  {}

  method Augment(c: Matrix, u: seq<real>, v: seq<real>, p0: seq<nat>, ghost q0: seq<nat>, ghost rows: nat,
                 ghost free: nat, way: seq<nat>, end: nat, ghost t: Tree)
    returns (p: seq<nat>, ghost q: seq<nat>)
    requires Dual(c, u, v, p0, q0, rows, free) && free < |p0| && p0[free] == 0
    requires Grown(c, u, v, p0, t) && t.way == way
    requires 1 <= end < |p0| && p0[end] == 0 && Child(c, u, v, p0, t, end)
    ensures Dual(c, u, v, p, q, rows, 0)
    ensures |p| == |p0| && OnceEach(p, rows)
  {
    var column := end;
    p, q := p0, q0;
    while column != 0
      invariant |p| == |p0| && |q| == |q0| && column < |p|
      invariant column == 0 || Child(c, u, v, p0, t, column)
      invariant Placed(p, q, rows, column) && Tight(c, u, v, p, column)
      invariant column != 0 ==> forall j :: 0 <= j < |p| && t.used[j] && t.rank[j] < t.rank[column] ==> p[j] == p0[j]
      invariant forall j :: 1 <= j < |p| && j != column && p[j] == 0 ==> p0[j] == 0
      decreases t.rank[column]
    {
      var previous := way[column];
      MoveKeepsPlaced(p, q, rows, column, previous);
      MoveKeepsTight(c, u, v, p, column, previous);
      q := q[p[previous] := column];
      p := p[column := p[previous]];
      column := previous;
    }
    PlacedOnceEach(p, q, rows);
  }

  // ----- counting distinct numbers -----

  ghost function Numbers(n: nat): (r: set<nat>)
    ensures |r| == n && forall i: nat :: i in r <==> i < n
  {
    if n == 0 then {} else Numbers(n - 1) + {n - 1}
  }

  // Distinct numbers below n are at most n, and exactly n when none is missing.
  lemma {:induction false} Pigeonhole(s: seq<nat>, n: nat)
    requires forall k :: 0 <= k < |s| ==> s[k] < n
    requires Sorting.Distinct(s)
    ensures |s| <= n
    ensures (forall i :: 0 <= i < n ==> i in s) ==> |s| == n
  {
    var all, some := Numbers(n), Sorting.Elements(s);
    assert all == some + (all - some);
    if forall i :: 0 <= i < n ==> i in s {
      assert all == some;
    }
  }

  // With fewer rows placed than there are columns, a column is free.
  lemma {:induction false} FreeColumn(p: seq<nat>, q: seq<nat>, rows: nat) returns (free: nat)
    requires Placed(p, q, rows, 0) && rows + 1 < |p|
    ensures 1 <= free < |p| && p[free] == 0
  {
    if forall j :: 1 <= j < |p| ==> p[j] != 0 {
      Pigeonhole(p[0 := 0], rows + 1);
      assert false;
    }
    free :| 1 <= free < |p| && p[free] == 0;
  }

  // ----- one row after the other -----

  method Solve(c: Matrix, columns: nat)
    returns (p: seq<nat>, ghost q: seq<nat>, ghost u: seq<real>, ghost v: seq<real>, ghost bare: nat)
    requires |c| <= columns && columns > 0 && Rectangular(c, |c|, columns)
    requires forall i, j :: 0 <= i < |c| && 0 <= j < columns ==> c[i][j] >= 0.0
    ensures Dual(c, u, v, p, q, |c|, 0) && |v| == columns + 1
    ensures 1 <= bare <= columns && v[bare] == 0.0
  {
    var rowPrices: seq<real>, columnPrices: seq<real> := Repeat(0.0, |c| + 1), Repeat(0.0, columns + 1);
    p, q, bare := Repeat(0, columns + 1), Repeat(0, |c| + 1), 1;
    for row := 1 to |c| + 1
      invariant Dual(c, rowPrices, columnPrices, p, q, row - 1, 0) && |p| == columns + 1
      invariant 1 <= bare <= columns && columnPrices[bare] == 0.0
    {
      ghost var free := FreeColumn(p, q, row - 1);
      p, q := p[0 := row], q[row := 0];
      var way, end;
      ghost var t;
      rowPrices, columnPrices, way, end, t := Search(c, rowPrices, columnPrices, p, q, row, free);
      bare := end;
      p, q := Augment(c, rowPrices, columnPrices, p, q, row, free, way, end, t);
    }
    u, v := rowPrices, columnPrices;
  }

  // ----- the pairs and their certificate -----

  // The placed rows with their columns, both counted from 0.
  function Pairs(p: seq<nat>): (r: seq<Pair>)
    requires p != []
    ensures forall k :: 0 <= k < |r| ==> r[k].1 + 1 < |p|
  {
    var last := |p| - 1;
    if last == 0 then []
    else if p[last] == 0 then Pairs(p[..last])
    else Pairs(p[..last]) + [(p[last] - 1, last - 1)]
  }

  lemma {:induction false} PairsAre(p: seq<nat>)
    requires p != []
    ensures forall k :: 0 <= k < |Pairs(p)| ==> p[Pairs(p)[k].1 + 1] == Pairs(p)[k].0 + 1
    ensures forall k, l :: 0 <= k < l < |Pairs(p)| ==> Pairs(p)[k].1 < Pairs(p)[l].1
  {
    if |p| == 1 {
    } else {
      PairsAre(p[..|p| - 1]);
    }
  }

  lemma {:induction false} PairsHave(p: seq<nat>, j: nat)
    requires 1 <= j < |p| && p[j] != 0
    ensures HasRow(Pairs(p), p[j] - 1) && HasColumn(Pairs(p), j - 1)
  {
    var r, last := Pairs(p), |p| - 1;
    if j == last {
      assert r[|r| - 1] == (p[j] - 1, j - 1);
    } else {
      PairsHave(p[..last], j);
      var rest := Pairs(p[..last]);
      var k :| 0 <= k < |rest| && rest[k].0 == p[j] - 1;
      var l :| 0 <= l < |rest| && rest[l].1 == j - 1;
      assert r[k] == rest[k] && r[l] == rest[l];
    }
  }

  // Prices that no edge exceeds.
  ghost predicate Prices(w: Matrix, a: seq<real>, b: seq<real>)
    requires Rectangular(w, |a|, |b|)
  {
    && NonNegative(a) && NonNegative(b)
    && forall i, j :: 0 <= i < |a| && 0 <= j < |b| ==> w[i][j] <= a[i] + b[j]
  }

  // Prices that show a matching to weigh as much as any.
  ghost predicate Certified(w: Matrix, a: seq<real>, b: seq<real>, pairs: seq<Pair>) {
    && Rectangular(w, |a|, |b|) && IsMatching(|a|, |b|, pairs)
    && Prices(w, a, b) && Meets(w, a, b, pairs)
  }

  ghost predicate IsHeaviest(w: Matrix, rows: nat, columns: nat, pairs: seq<Pair>)
    requires Rectangular(w, rows, columns)
  {
    && IsMatching(rows, columns, pairs)
    && forall other :: IsMatching(rows, columns, other) ==>
         Weight(w, rows, columns, other) <= Weight(w, rows, columns, pairs)
  }

  lemma {:induction false} CertifiedIsHeaviest(w: Matrix, a: seq<real>, b: seq<real>, pairs: seq<Pair>)
    requires Certified(w, a, b, pairs)
    ensures IsHeaviest(w, |a|, |b|, pairs)
  {
    WeightIs(w, a, b, pairs);
    forall other | IsMatching(|a|, |b|, other)
      ensures Weight(w, |a|, |b|, other) <= Weight(w, |a|, |b|, pairs)
    {
      WeightBound(w, a, b, other);
    }
  }

  function Costs(w: Matrix, maximum: real): (c: Matrix)
    ensures |c| == |w| && forall i :: 0 <= i < |w| ==> |c[i]| == |w[i]|
    ensures forall i, j :: 0 <= i < |w| && 0 <= j < |w[i]| ==> c[i][j] == maximum - w[i][j]
  {
    seq(|w|, i requires 0 <= i < |w| => seq(|w[i]|, j requires 0 <= j < |w[i]| => maximum - w[i][j]))
  }

  function RowPrices(u: seq<real>, maximum: real): seq<real>
    requires u != []
  {
    seq(|u| - 1, i requires 0 <= i < |u| - 1 => maximum - u[i + 1])
  }

  function ColumnPrices(v: seq<real>): seq<real>
    requires v != []
  {
    seq(|v| - 1, j requires 0 <= j < |v| - 1 => -v[j + 1])
  }

  lemma {:induction false} PlacedPairs(p: seq<nat>, q: seq<nat>, rows: nat)
    requires p != [] && Placed(p, q, rows, 0)
    ensures IsMatching(rows, |p| - 1, Pairs(p)) && |Pairs(p)| == rows
    ensures forall i :: 0 <= i < rows ==> HasRow(Pairs(p), i)
  {
    var r := Pairs(p);
    PairsAre(p);
    forall k, l | 0 <= k < l < |r| ensures r[k].0 != r[l].0 {
      assert q[r[k].0 + 1] == r[k].1 + 1 && q[r[l].0 + 1] == r[l].1 + 1;
    }
    forall i | 0 <= i < rows ensures HasRow(r, i) {
      PairsHave(p, q[i + 1]);
    }
    EveryRowOnce(r, rows, |p| - 1);
  }

  // A matching has no more pairs than rows or columns.
  lemma {:induction false} MatchingSize(rows: nat, columns: nat, pairs: seq<Pair>)
    requires IsMatching(rows, columns, pairs)
    ensures |pairs| <= rows && |pairs| <= columns
  {
    Pigeonhole(seq(|pairs|, k requires 0 <= k < |pairs| => pairs[k].0), rows);
    Pigeonhole(seq(|pairs|, k requires 0 <= k < |pairs| => pairs[k].1), columns);
  }

  lemma {:induction false} EveryRowOnce(pairs: seq<Pair>, rows: nat, columns: nat)
    requires IsMatching(rows, columns, pairs) && forall i :: 0 <= i < rows ==> HasRow(pairs, i)
    ensures |pairs| == rows
  {
    var firsts := seq(|pairs|, k requires 0 <= k < |pairs| => pairs[k].0);
    forall i | 0 <= i < rows ensures i in firsts {
      assert HasRow(pairs, i);
      var k :| 0 <= k < |pairs| && pairs[k].0 == i;
      assert firsts[k] == i;
    }
    Pigeonhole(firsts, rows);
  }

  predicate Admissible(w: Matrix) {
    forall i :: 0 <= i < |w| ==> forall j :: 0 <= j < |w[i]| ==> w[i][j] >= 0.0
  }

  // Final potentials, read over the weights, are prices of all edges.
  lemma {:induction false} DualPrices(w: Matrix, maximum: real, u: seq<real>, v: seq<real>, bare: nat)
    requires Sized(Costs(w, maximum), u, v) && Feasible(Costs(w, maximum), u, v)
    requires 1 <= bare < |v| && v[bare] == 0.0 && Admissible(w) && forall j :: 1 <= j < |v| ==> v[j] <= 0.0
    ensures Rectangular(w, |u| - 1, |v| - 1) && Prices(w, RowPrices(u, maximum), ColumnPrices(v))
  {
    var c, a, b := Costs(w, maximum), RowPrices(u, maximum), ColumnPrices(v);
    forall i, j | 0 <= i < |a| && 0 <= j < |b| ensures w[i][j] <= a[i] + b[j] {
      assert Reduced(c, u, v, i + 1, j + 1) >= 0.0;
    }
    forall i | 0 <= i < |a| ensures a[i] >= 0.0 {
      assert Reduced(c, u, v, i + 1, bare) >= 0.0;
    }
  }

  lemma {:induction false} DualTight(w: Matrix, maximum: real, p: seq<nat>, u: seq<real>, v: seq<real>, k: nat)
    requires Sized(Costs(w, maximum), u, v) && |p| == |v| && (forall j :: 1 <= j < |p| ==> p[j] < |u|)
    requires Tight(Costs(w, maximum), u, v, p, 0) && k < |Pairs(p)|
    ensures Pairs(p)[k].0 < |w| && Pairs(p)[k].1 < |v| - 1
    ensures w[Pairs(p)[k].0][Pairs(p)[k].1] == RowPrices(u, maximum)[Pairs(p)[k].0] + ColumnPrices(v)[Pairs(p)[k].1]
  {
    PairsAre(p);
    var (i, j) := Pairs(p)[k];
    assert Reduced(Costs(w, maximum), u, v, p[j + 1], j + 1) == 0.0;
  }

  // They are met by the pairs, whose edges are tight.
  lemma {:induction false} DualMeets(w: Matrix, maximum: real, p: seq<nat>, u: seq<real>, v: seq<real>)
    requires Sized(Costs(w, maximum), u, v) && |p| == |v| && (forall j :: 1 <= j < |p| ==> p[j] < |u|)
    requires Tight(Costs(w, maximum), u, v, p, 0) && Priced(v, p) && IsMatching(|w|, |v| - 1, Pairs(p))
    requires forall i :: 0 <= i < |w| ==> HasRow(Pairs(p), i)
    ensures Rectangular(w, |u| - 1, |v| - 1) && Meets(w, RowPrices(u, maximum), ColumnPrices(v), Pairs(p))
  {
    var a, b, r := RowPrices(u, maximum), ColumnPrices(v), Pairs(p);
    forall k | 0 <= k < |r| ensures w[r[k].0][r[k].1] == a[r[k].0] + b[r[k].1] {
      DualTight(w, maximum, p, u, v, k);
    }
    forall j | 0 <= j < |b| && b[j] != 0.0 ensures HasColumn(r, j) {
      PairsHave(p, j + 1);
    }
  }

  lemma {:induction false} DualCertifies(w: Matrix, maximum: real, p: seq<nat>, q: seq<nat>, u: seq<real>,
                                         v: seq<real>, bare: nat)
    requires Dual(Costs(w, maximum), u, v, p, q, |w|, 0) && 1 <= bare < |v| && v[bare] == 0.0 && Admissible(w)
    ensures Certified(w, RowPrices(u, maximum), ColumnPrices(v), Pairs(p)) && |Pairs(p)| == |w|
  {
    PlacedPairs(p, q, |w|);
    DualPrices(w, maximum, u, v, bare);
    DualMeets(w, maximum, p, u, v);
  }

  // ----- the order of the pairs does not matter -----

  predicate PairLeq(x: Pair, y: Pair) {
    x.0 < y.0 || (x.0 == y.0 && x.1 <= y.1)
  }

  lemma {:induction false} BagKeepsMatching(rows: nat, columns: nat, pairs: seq<Pair>, other: seq<Pair>)
    requires IsMatching(rows, columns, pairs) && multiset(other) == multiset(pairs)
    ensures IsMatching(rows, columns, other)
  {
    Sorting.BagKeepsDistinct(pairs, other);
    forall k | 0 <= k < |other| ensures other[k] in pairs {}
  }

  lemma {:induction false} BagKeepsCertificate(w: Matrix, a: seq<real>, b: seq<real>, pairs: seq<Pair>,
                                               other: seq<Pair>)
    requires Certified(w, a, b, pairs) && multiset(other) == multiset(pairs)
    ensures Certified(w, a, b, other)
  {
    BagKeepsMatching(|a|, |b|, pairs, other);
    Sorting.BagKeepsDistinct(pairs, other);
    forall k | 0 <= k < |other| ensures other[k] in pairs {}
    forall i | 0 <= i < |a| && a[i] != 0.0 ensures HasRow(other, i) {
      var k :| 0 <= k < |pairs| && pairs[k].0 == i;
      assert pairs[k] in other;
    }
    forall j | 0 <= j < |b| && b[j] != 0.0 ensures HasColumn(other, j) {
      var k :| 0 <= k < |pairs| && pairs[k].1 == j;
      assert pairs[k] in other;
    }
  }

  // ----- more rows than columns -----

  function Transposed(w: Matrix, rows: nat, columns: nat): (t: Matrix)
    requires Rectangular(w, rows, columns)
    ensures Rectangular(t, columns, rows)
    ensures forall i, j :: 0 <= i < rows && 0 <= j < columns ==> t[j][i] == w[i][j]
  {
    seq(columns, j requires 0 <= j < columns => seq(rows, i requires 0 <= i < rows => w[i][j]))
  }

  function Swapped(pairs: seq<Pair>): (r: seq<Pair>)
    ensures |r| == |pairs| && forall k :: 0 <= k < |pairs| ==> r[k] == (pairs[k].1, pairs[k].0)
  {
    seq(|pairs|, k requires 0 <= k < |pairs| => (pairs[k].1, pairs[k].0))
  }

  lemma {:induction false} SwapKeepsCertificate(w: Matrix, a: seq<real>, b: seq<real>, pairs: seq<Pair>)
    requires Rectangular(w, |a|, |b|) && Certified(Transposed(w, |a|, |b|), b, a, pairs)
    ensures Certified(w, a, b, Swapped(pairs))
  {
    forall i | 0 <= i < |a| && HasColumn(pairs, i) ensures HasRow(Swapped(pairs), i) {
      var k :| 0 <= k < |pairs| && pairs[k].1 == i;
      assert Swapped(pairs)[k].0 == i;
    }
    forall j | 0 <= j < |b| && HasRow(pairs, j) ensures HasColumn(Swapped(pairs), j) {
      var k :| 0 <= k < |pairs| && pairs[k].0 == j;
      assert Swapped(pairs)[k].1 == j;
    }
  }

  // ----- the whole assignment -----

  function Greatest(s: seq<real>): (r: real)
    requires s != []
    ensures r in s && forall i :: 0 <= i < |s| ==> s[i] <= r
  {
    var last := |s| - 1;
    if last == 0 then s[0]
    else
      var rest := Greatest(s[..last]);
      if rest <= s[last] then s[last] else rest
  }

  function GreatestOf(w: Matrix): (r: real)
    requires w != [] && forall i :: 0 <= i < |w| ==> w[i] != []
    ensures forall i, j :: 0 <= i < |w| && 0 <= j < |w[i]| ==> w[i][j] <= r
  {
    var maxima := seq(|w|, i requires 0 <= i < |w| => Greatest(w[i]));
    assert forall i :: 0 <= i < |w| ==> maxima[i] == Greatest(w[i]);
    Greatest(maxima)
  }

  method AssignWide(w: Matrix, columns: nat) returns (pairs: seq<Pair>, ghost a: seq<real>, ghost b: seq<real>)
    requires 1 <= |w| <= columns && Rectangular(w, |w|, columns) && Admissible(w)
    ensures |a| == |w| && |b| == columns && Certified(w, a, b, pairs) && |pairs| == |w|
  {
    var maximum := GreatestOf(w);
    var p;
    ghost var q, u, v, bare;
    p, q, u, v, bare := Solve(Costs(w, maximum), columns);
    DualCertifies(w, maximum, p, q, u, v, bare);
    pairs := Pairs(p);
    a, b := RowPrices(u, maximum), ColumnPrices(v);
  }

  method HungarianMax(weights: Matrix) returns (r: Result<seq<Pair>, string>)
    ensures weights == [] || weights[0] == [] ==> r == Ok([])
    ensures weights != [] && weights[0] != [] ==>
      var rows, columns := |weights|, |weights[0]|;
      if !Rectangular(weights, rows, columns) then r == Err("ragged_weights")
      else if rows > MAX_IDENTITIES || columns > MAX_IDENTITIES then r == Err("assignment_too_large")
      else if !Admissible(weights) then r == Err("invalid_weights")
      else
        && r.Ok? && IsHeaviest(weights, rows, columns, r.value)
        && |r.value| == Min(rows, columns) && forall k, l :: 0 <= k < l < |r.value| ==> r.value[k].0 < r.value[l].0
  {
    if weights == [] || weights[0] == [] {
      return Ok([]);
    }
    var rows, columns := |weights|, |weights[0]|;
    if !Rectangular(weights, rows, columns) {
      return Err("ragged_weights");
    }
    if rows > MAX_IDENTITIES || columns > MAX_IDENTITIES {
      return Err("assignment_too_large");
    }
    if !Admissible(weights) {
      return Err("invalid_weights");
    }
    var pairs;
    ghost var a, b;
    if rows > columns {
      pairs, b, a := AssignWide(Transposed(weights, rows, columns), rows);
      SwapKeepsCertificate(weights, a, b, pairs);
      pairs := Swapped(pairs);
    } else {
      pairs, a, b := AssignWide(weights, columns);
    }
    var sorted := Sorting.Sort(pairs, PairLeq);
    Sorting.SortBag(pairs, PairLeq);
    BagKeepsCertificate(weights, a, b, pairs, sorted);
    CertifiedIsHeaviest(weights, a, b, sorted);
    Sorting.SortSorts(pairs, PairLeq);
    r := Ok(sorted);
  }
}
