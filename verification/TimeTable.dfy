// Run-length time tables and running timestamps (prepare_v02_sampling_dataset.py).
module TimeTable {
  import opened Wrappers

  datatype Run = Run(count: nat, delta: nat)

  // One duration for each sample (ISO/IEC 14496-12, section 8.6.1.2).
  function Expand(runs: seq<Run>): seq<nat> {
    if runs == [] then [] else Expand(runs[..|runs| - 1]) + Repeat(runs[|runs| - 1].delta, runs[|runs| - 1].count)
  }

  // No empty run, and no two neighbours that could be joined.
  ghost predicate Minimal(runs: seq<Run>) {
    && (forall i :: 0 <= i < |runs| ==> runs[i].count >= 1)
    && forall i :: 0 < i < |runs| ==> runs[i].delta != runs[i - 1].delta
  }

  method TimeEntries(durations: seq<nat>) returns (entries: seq<Run>)
    ensures Expand(entries) == durations && Minimal(entries)
  {
    entries := [];
    for i := 0 to |durations|
      invariant Expand(entries) == durations[..i] && Minimal(entries)
    {
      var duration := durations[i];
      assert durations[..i + 1] == durations[..i] + [duration];
      var last := |entries| - 1;
      if entries != [] && entries[last].delta == duration {
        LastRunGrows(entries);
        entries := entries[last := Run(entries[last].count + 1, duration)];
      } else {
        RunAdded(entries, duration);
        entries := entries + [Run(1, duration)];
      }
    }
    assert durations[..|durations|] == durations;
  }

  lemma {:induction false} LastRunGrows(entries: seq<Run>)
    requires entries != [] && Minimal(entries)
    ensures var last := |entries| - 1;
            var longer := entries[last := Run(entries[last].count + 1, entries[last].delta)];
            Minimal(longer) && Expand(longer) == Expand(entries) + [entries[last].delta]
  {
    var last := |entries| - 1;
    assert entries[last := Run(entries[last].count + 1, entries[last].delta)][..last] == entries[..last];
  }

  lemma {:induction false} RunAdded(entries: seq<Run>, duration: nat)
    requires Minimal(entries) && (entries != [] ==> entries[|entries| - 1].delta != duration)
    ensures Minimal(entries + [Run(1, duration)])
    ensures Expand(entries + [Run(1, duration)]) == Expand(entries) + [duration]
  {
    assert (entries + [Run(1, duration)])[..|entries|] == entries;
    assert Repeat(duration, 1) == [duration];
  }

  lemma {:induction false} ExpandFront(runs: seq<Run>)
    requires runs != []
    ensures Expand(runs) == Repeat(runs[0].delta, runs[0].count) + Expand(runs[1..])
  {
    var last := |runs| - 1;
    if last > 0 {
      ExpandFront(runs[..last]);
      assert runs[1..][..last - 1] == runs[..last][1..];
    } else {
      assert runs[..0] == [] && runs[1..] == [];
    }
  }

  // A minimal table is determined by its durations: no shorter table says the same.
  lemma {:induction false} MinimalIsUnique(a: seq<Run>, b: seq<Run>)
    requires Minimal(a) && Minimal(b) && Expand(a) == Expand(b)
    ensures a == b
  {
    if a != [] { ExpandFront(a); }
    if b != [] { ExpandFront(b); }
    if a == [] || b == [] {
    } else {
      assert Expand(a)[0] == a[0].delta && Expand(b)[0] == b[0].delta;
      FirstRunEnds(a);
      FirstRunEnds(b);
      var n := a[0].count;
      assert n == b[0].count;
      assert Expand(a)[n..] == Expand(a[1..]) && Expand(b)[n..] == Expand(b[1..]);
      MinimalIsUnique(a[1..], b[1..]);
      assert a == [a[0]] + a[1..] && b == [b[0]] + b[1..];
    }
  }

  // The first run of a minimal table is as long as possible.
  lemma {:induction false} FirstRunEnds(a: seq<Run>)
    requires Minimal(a) && a != []
    ensures a[0].count <= |Expand(a)|
    ensures forall i :: 0 <= i < a[0].count ==> Expand(a)[i] == a[0].delta
    ensures a[0].count < |Expand(a)| ==> Expand(a)[a[0].count] != a[0].delta
    ensures a[0].count == |Expand(a)| <==> a[1..] == []
  {
    ExpandFront(a);
    if a[1..] != [] {
      ExpandFront(a[1..]);
      assert Expand(a)[a[0].count] == a[1].delta;
    }
  }

  function Total(s: seq<nat>): nat {
    if s == [] then 0 else Total(s[..|s| - 1]) + s[|s| - 1]
  }

  lemma {:induction false} TotalAppend(a: seq<nat>, b: seq<nat>)
    ensures Total(a + b) == Total(a) + Total(b)
  {
    if b == [] {
      assert a + b == a;
    } else {
      TotalAppend(a, b[..|b| - 1]);
      assert (a + b)[..|a + b| - 1] == a + b[..|b| - 1];
    }
  }

  // No run is longer than the table's samples, and none is slower than all of them together.
  lemma {:induction false} RunsBounded(runs: seq<Run>)
    requires forall i :: 0 <= i < |runs| ==> runs[i].count >= 1
    ensures forall i :: 0 <= i < |runs| ==> runs[i].count <= |Expand(runs)| && runs[i].delta <= Total(Expand(runs))
  {
    if runs == [] {
    } else {
      var last := runs[|runs| - 1];
      RunsBounded(runs[..|runs| - 1]);
      TotalAppend(Expand(runs[..|runs| - 1]), Repeat(last.delta, last.count));
      RepeatTotal(last.delta, last.count);
    }
  }

  lemma {:induction false} RepeatTotal(delta: nat, count: nat)
    requires count >= 1
    ensures delta <= Total(Repeat(delta, count))
  {
    TotalAppend(Repeat(delta, count - 1), [delta]);
    assert [delta][..0] == [];
  }

  // The annotation loop: every frame starts where the durations before it end.
  method AnnotatePts(durations: seq<nat>) returns (pts: seq<nat>, end: nat)
    ensures |pts| == |durations| && forall i :: 0 <= i < |pts| ==> pts[i] == Total(durations[..i])
    ensures end == Total(durations)
  {
    pts, end := [], 0;
    for i := 0 to |durations|
      invariant |pts| == i && end == Total(durations[..i])
      invariant forall k :: 0 <= k < i ==> pts[k] == Total(durations[..k])
    {
      pts := pts + [end];
      assert durations[..i + 1][..i] == durations[..i];
      end := end + durations[i];
    }
    assert durations[..|durations|] == durations;
  }

  // Positive durations give strictly increasing timestamps, the order the sampling
  // policies rely on.
  lemma {:induction false} PtsIncrease(durations: seq<nat>, i: nat, j: nat)
    requires i < j <= |durations| && forall k :: 0 <= k < |durations| ==> durations[k] > 0
    ensures Total(durations[..i]) < Total(durations[..j])
    decreases j
  {
    assert durations[..j][..j - 1] == durations[..j - 1];
    if i == j - 1 {
    } else {
      PtsIncrease(durations, i, j - 1);
    }
  }
}
