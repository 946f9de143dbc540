// Grouping chunk indices into range scans (rust/src/chunk_manager.rs:344-359).
module Coalesce {
  import opened Bytes

  // The indices first..=last.
  datatype Run = Run(first: u64, last: u64)

  function Expand(r: Run): (s: seq<u64>)
    decreases r.last - r.first
  {
    if r.first > r.last then []
    else if r.first == r.last then [r.first]
    else [r.first] + Expand(Run(r.first + 1, r.last))
  }

  function Flatten(runs: seq<Run>): seq<u64> {
    if runs == [] then [] else Flatten(runs[..|runs| - 1]) + Expand(runs[|runs| - 1])
  }

  predicate Ascending(indices: seq<u64>) {
    forall i :: 0 < i < |indices| ==> indices[i - 1] < indices[i]
  }

  // Non-empty runs with a gap after each: no two could be one scan.
  predicate Maximal(runs: seq<Run>) {
    && (forall i :: 0 <= i < |runs| ==> runs[i].first <= runs[i].last)
    && (forall i :: 0 < i < |runs| ==> runs[i - 1].last + 1 < runs[i].first)
  }

  lemma ExpandOne(i: u64)
    ensures Expand(Run(i, i)) == [i]
  {
  }

  lemma {:induction false} ExpandSnoc(r: Run)
    requires r.first <= r.last && r.last + 1 < U64_LIMIT
    ensures Expand(Run(r.first, r.last + 1)) == Expand(r) + [r.last + 1]
    decreases r.last - r.first
  {
    if r.first < r.last {
      ExpandSnoc(Run(r.first + 1, r.last));
    } else {
      assert Expand(Run(r.last + 1, r.last + 1)) == [r.last + 1];
    }
  }

  lemma {:induction false} ExpandContains(r: Run, i: u64)
    ensures i in Expand(r) <==> r.first <= i <= r.last
    decreases r.last - r.first
  {
    if r.first < r.last { ExpandContains(Run(r.first + 1, r.last), i); }
  }

  // Flattening loses nothing and adds nothing.
  lemma {:induction false} FlattenContains(runs: seq<Run>, i: u64)
    ensures i in Flatten(runs) <==> exists k :: 0 <= k < |runs| && runs[k].first <= i <= runs[k].last
  {
    if runs != [] {
      var n := |runs| - 1;
      FlattenContains(runs[..n], i);
      ExpandContains(runs[n], i);
      hide Expand;
      assert i in Flatten(runs) <==> i in Flatten(runs[..n]) || i in Expand(runs[n]);
      hide Flatten;
      forall k | 0 <= k < n && runs[k].first <= i <= runs[k].last ensures i in Flatten(runs[..n]) {
        assert runs[..n][k] == runs[k];
      }
    }
  }

  lemma NoRuns()
    ensures Flatten([]) == [] && Maximal([])
  {
  }

  lemma FlattenSnoc(runs: seq<Run>, r: Run)
    ensures Flatten(runs + [r]) == Flatten(runs) + Expand(r)
  {
    hide Expand;
    assert (runs + [r])[..|runs|] == runs;
  }

  lemma MaximalSnoc(runs: seq<Run>, r: Run)
    requires Maximal(runs) && r.first <= r.last && (runs != [] ==> runs[|runs| - 1].last + 1 < r.first)
    ensures Maximal(runs + [r])
  {
  }

  lemma MaximalPrefix(runs: seq<Run>, n: nat)
    requires Maximal(runs) && n <= |runs|
    ensures Maximal(runs[..n])
  {
  }

  lemma AppendRun(runs: seq<Run>, i: u64)
    requires Maximal(runs) && (runs != [] ==> runs[|runs| - 1].last + 1 < i)
    ensures Maximal(runs + [Run(i, i)]) && Flatten(runs + [Run(i, i)]) == Flatten(runs) + [i]
  {
    hide Expand, Flatten, Maximal;
    ExpandOne(i);
    FlattenSnoc(runs, Run(i, i));
    MaximalSnoc(runs, Run(i, i));
  }

  lemma ExtendRun(runs: seq<Run>, i: u64)
    requires Maximal(runs) && runs != [] && runs[|runs| - 1].last + 1 == i
    ensures var m := |runs| - 1;
      var longer := runs[m := Run(runs[m].first, i)];
      Maximal(longer) && Flatten(longer) == Flatten(runs) + [i]
  {
    hide Expand, Flatten;
    var m := |runs| - 1;
    var r := Run(runs[m].first, i);
    ExpandSnoc(runs[m]);
    assert runs[m := r] == runs[..m] + [r] && runs == runs[..m] + [runs[m]];
    FlattenSnoc(runs[..m], runs[m]);
    FlattenSnoc(runs[..m], r);
    MaximalPrefix(runs, m);
    MaximalSnoc(runs[..m], r);
  }

  method CoalesceChunkIndices(indices: seq<u64>) returns (groups: seq<Run>)
    requires Ascending(indices)
    ensures Flatten(groups) == indices
    ensures Maximal(groups)
  {
    hide Expand, Flatten, Maximal;
    groups := [];
    NoRuns();
    for n := 0 to |indices|
      invariant Flatten(groups) == indices[..n]
      invariant Maximal(groups)
      invariant groups == [] <==> n == 0
      invariant n > 0 ==> groups[|groups| - 1].last == indices[n - 1]
    {
      var idx := indices[n];
      var m := |groups| - 1;
      assert indices[..n + 1] == indices[..n] + [idx];
      if m >= 0 && groups[m].last + 1 == idx {
        ExtendRun(groups, idx);
        groups := groups[m := Run(groups[m].first, idx)];
      } else {
        AppendRun(groups, idx);
        groups := groups + [Run(idx, idx)];
      }
    }
    assert indices[..|indices|] == indices;
  }

  // -------------------------------------------------------------------------
  // The grouping is the only one: as few scans as can cover the indices without
  // reading a chunk nobody asked for.

  lemma {:induction false} FlattenBounds(runs: seq<Run>)
    requires Maximal(runs) && runs != []
    ensures Flatten(runs) != []
    ensures Flatten(runs)[|Flatten(runs)| - 1] == runs[|runs| - 1].last
    ensures forall i :: i in Flatten(runs) ==> i <= runs[|runs| - 1].last
  {
    var n := |runs| - 1;
    LastOfExpand(runs[n]);
    forall i | i in Flatten(runs) ensures i <= runs[n].last {
      FlattenContains(runs, i);
      var k :| 0 <= k < |runs| && runs[k].first <= i <= runs[k].last;
      RunsAscend(runs, k, n);
    }
  }

  lemma {:induction false} LastOfExpand(r: Run)
    requires r.first <= r.last
    ensures Expand(r) != [] && Expand(r)[|Expand(r)| - 1] == r.last
    decreases r.last - r.first
  {
    if r.first < r.last { LastOfExpand(Run(r.first + 1, r.last)); }
  }

  lemma {:induction false} RunsAscend(runs: seq<Run>, i: nat, j: nat)
    requires Maximal(runs) && i <= j < |runs|
    ensures runs[i].last <= runs[j].last && (i < j ==> runs[i].last + 1 < runs[j].first)
    decreases j
  {
    if i < j { RunsAscend(runs, i, j - 1); }
  }

  lemma {:induction false} MaximalUnique(a: seq<Run>, b: seq<Run>)
    requires Maximal(a) && Maximal(b) && Flatten(a) == Flatten(b)
    ensures a == b
    decreases |a|
  {
    if a == [] {
      if b != [] { FlattenBounds(b); }
    } else if b == [] {
      FlattenBounds(a);
    } else {
      var m, n := |a| - 1, |b| - 1;
      SameLastRun(a, b);
      MaximalPrefix(a, m);
      MaximalPrefix(b, n);
      hide Expand, Maximal;
      assert Flatten(a) == Flatten(a[..m]) + Expand(a[m]) && Flatten(b) == Flatten(b[..n]) + Expand(b[n]);
      hide Flatten;
      CancelSuffix(Flatten(a[..m]), Flatten(b[..n]), Expand(a[m]));
      MaximalUnique(a[..m], b[..n]);
      assert a == a[..m] + [a[m]] && b == b[..n] + [b[n]];
    }
  }

  lemma CancelSuffix(x: seq<u64>, y: seq<u64>, e: seq<u64>)
    requires x + e == y + e
    ensures x == y
  {
    assert x == (x + e)[..|x + e| - |e|];
    assert y == (y + e)[..|y + e| - |e|];
  }

  // The last run reaches back to the first index with a gap before it.
  lemma SameLastRun(a: seq<Run>, b: seq<Run>)
    requires Maximal(a) && Maximal(b) && Flatten(a) == Flatten(b) && a != [] && b != []
    ensures a[|a| - 1] == b[|b| - 1]
  {
    FlattenBounds(a);
    FlattenBounds(b);
    LastRunReaches(a, b);
    LastRunReaches(b, a);
  }

  lemma LastRunReaches(a: seq<Run>, b: seq<Run>)
    requires Maximal(a) && Maximal(b) && Flatten(a) == Flatten(b) && a != [] && b != []
    requires a[|a| - 1].last == b[|b| - 1].last
    ensures a[|a| - 1].first <= b[|b| - 1].first
  {
    var m, n := |a| - 1, |b| - 1;
    if b[n].first < a[m].first {
      // The index just before a's last run is in b's, so a must hold it too.
      var i: u64 := a[m].first - 1;
      FlattenContains(b, i);
      FlattenContains(a, i);
      assert b[n].first <= i <= b[n].last;
      var k :| 0 <= k < |a| && a[k].first <= i <= a[k].last;
      RunsAscend(a, k, m);
    }
  }
}
