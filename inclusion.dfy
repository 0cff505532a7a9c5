/** The report of missed inclusions: for each group g1, the groups g2 other
    than `sample` under whose flags none of g1's test cases is `OK:N` or
    `BAD` and at least one is `MISS`.  `UNKNOWN` and `SKIP` cells neither
    block g2 nor count towards it. */
module Inclusion {
  import opened Strings
  import opened Ordering
  import opened Verdicts
  import opened Matrix

  /** `tc_index`: a row's file name to its position; when two rows share a
      name the later one wins. */
  method IndexRows(data: Table) returns (index: map<string, int>)
    requires forall i :: 0 <= i < |data| ==> |data[i]| > 0
    ensures forall f :: f in index <==> exists i :: 0 <= i < |data| && data[i][0] == f
    ensures forall f :: f in index ==> 0 <= index[f] < |data| && data[index[f]][0] == f
    ensures forall f, j :: f in index && index[f] < j < |data| ==> data[j][0] != f
  {
    index := map[];
    for i := 0 to |data|
      invariant forall f :: f in index <==> exists k :: 0 <= k < i && data[k][0] == f
      invariant forall f :: f in index ==> 0 <= index[f] < i && data[index[f]][0] == f
      invariant forall f, j :: f in index && index[f] < j < i ==> data[j][0] != f
    {
      index := index[data[i][0] := i];
    }
  }

  /** Every test case of every group has a row that reaches every group's
      column. */
  predicate Indexed(groups: seq<string>, cases: map<string, seq<string>>, data: Table, index: map<string, int>)
  {
    && (forall g :: g in groups ==> g in cases)
    && (forall g, tc :: g in cases && tc in cases[g] ==> tc in index)
    && (forall tc :: tc in index ==> 0 <= index[tc] < |data| && |data[index[tc]]| == |groups| + 1)
  }

  /** The verdict of test case `tc` under the group in column `k + 1`. */
  function CellOf(data: Table, index: map<string, int>, tc: string, k: nat): string
    requires tc in index && 0 <= index[tc] < |data| && k + 1 < |data[index[tc]]|
  {
    data[index[tc]][k + 1]
  }

  /** A verdict that rules the inclusion out. */
  predicate Blocks(v: string)
  {
    v == OK_NO || v == BAD
  }

  /** The group in column `k + 1` is reported for g1: it is not `sample`, no
      test case of g1 is `OK:N` or `BAD` under it, and at least one is
      `MISS`.  `UNKNOWN` and `SKIP` neither block nor count. */
  predicate Listed(groups: seq<string>, cases: map<string, seq<string>>, data: Table, index: map<string, int>,
                   g1: string, k: nat)
    requires Indexed(groups, cases, data, index) && g1 in cases && k < |groups|
  {
    && groups[k] != SAMPLE
    && (forall tc :: tc in cases[g1] ==> !Blocks(CellOf(data, index, tc, k)))
    && (exists tc :: tc in cases[g1] && CellOf(data, index, tc, k) == MISS)
  }

  /** The groups among the first `n` columns that are reported for g1, in
      column order. */
  function TargetsUpTo(groups: seq<string>, cases: map<string, seq<string>>, data: Table, index: map<string, int>,
                       g1: string, n: nat): seq<string>
    requires Indexed(groups, cases, data, index) && g1 in cases && n <= |groups|
  {
    if n == 0 then []
    else TargetsUpTo(groups, cases, data, index, g1, n - 1)
         + (if Listed(groups, cases, data, index, g1, n - 1) then [groups[n - 1]] else [])
  }

  /** `missed_inclusions` for g1. */
  function Targets(groups: seq<string>, cases: map<string, seq<string>>, data: Table, index: map<string, int>,
                   g1: string): seq<string>
    requires Indexed(groups, cases, data, index) && g1 in cases
  {
    TargetsUpTo(groups, cases, data, index, g1, |groups|)
  }

  /** The innermost loop over the test cases of g1 under the group in column
      `k + 1`, with its early `break` on a blocking verdict. */
  method CanInclude(groups: seq<string>, cases: map<string, seq<string>>, data: Table, index: map<string, int>,
                    g1: string, k: nat) returns (includes: bool)
    requires Indexed(groups, cases, data, index) && g1 in cases && k < |groups|
    ensures includes <==>
      (forall tc :: tc in cases[g1] ==> !Blocks(CellOf(data, index, tc, k)))
      && (exists tc :: tc in cases[g1] && CellOf(data, index, tc, k) == MISS)
  {
    var tcs := cases[g1];
    var allowed := true;
    var anyMiss := false;
    var m := 0;
    while m < |tcs|
      invariant 0 <= m <= |tcs|
      invariant allowed
      invariant forall q :: 0 <= q < m ==> !Blocks(CellOf(data, index, tcs[q], k))
      invariant anyMiss <==> exists q :: 0 <= q < m && CellOf(data, index, tcs[q], k) == MISS
    {
      var verdict := data[index[tcs[m]]][k + 1];
      if verdict == OK_NO || verdict == BAD {
        allowed := false;
        break;
      }
      if verdict == MISS {
        anyMiss := true;
      }
      m := m + 1;
    }
    includes := allowed && anyMiss;
    if !allowed {
      assert tcs[m] in tcs;
    } else {
      assert forall tc :: tc in tcs ==> exists q :: 0 <= q < |tcs| && tcs[q] == tc;
    }
  }

  /** The inclusion loop: `report[i]` is `missed_inclusions` for the group
      in column `i + 1`. */
  method Analyze(groups: seq<string>, cases: map<string, seq<string>>, data: Table, index: map<string, int>)
    returns (report: seq<seq<string>>)
    requires Indexed(groups, cases, data, index)
    ensures |report| == |groups|
    ensures forall i :: 0 <= i < |groups| ==> report[i] == Targets(groups, cases, data, index, groups[i])
  {
    report := [];
    for i := 0 to |groups|
      invariant |report| == i
      invariant forall q :: 0 <= q < i ==> report[q] == Targets(groups, cases, data, index, groups[q])
    {
      var g1 := groups[i];
      var missed := [];
      for k := 0 to |groups|
        invariant missed == TargetsUpTo(groups, cases, data, index, g1, k)
      {
        if groups[k] == SAMPLE {
          continue;
        }
        var includes := CanInclude(groups, cases, data, index, g1, k);
        if includes {
          missed := missed + [groups[k]];
        }
      }
      report := report + [missed];
    }
  }

  // ---- what the report means ----

  lemma {:induction false} TargetsUpToMembers(groups: seq<string>, cases: map<string, seq<string>>, data: Table,
                                              index: map<string, int>, g1: string, n: nat, g2: string)
    requires Indexed(groups, cases, data, index) && g1 in cases && n <= |groups|
    ensures g2 in TargetsUpTo(groups, cases, data, index, g1, n) <==>
      exists k :: 0 <= k < n && groups[k] == g2 && Listed(groups, cases, data, index, g1, k)
  {
    if n > 0 {
      TargetsUpToMembers(groups, cases, data, index, g1, n - 1, g2);
    }
  }

  /** g2 is reported for g1 exactly when some column of g2 passes the
      inclusion test. */
  lemma TargetsMembers(groups: seq<string>, cases: map<string, seq<string>>, data: Table, index: map<string, int>,
                       g1: string, g2: string)
    requires Indexed(groups, cases, data, index) && g1 in cases
    ensures g2 in Targets(groups, cases, data, index, g1) <==>
      exists k :: 0 <= k < |groups| && groups[k] == g2 && Listed(groups, cases, data, index, g1, k)
  {
    TargetsUpToMembers(groups, cases, data, index, g1, |groups|, g2);
  }

  /** `sample` is never reported, and a group without test cases reports
      nothing. */
  lemma NoSampleNoEmpty(groups: seq<string>, cases: map<string, seq<string>>, data: Table, index: map<string, int>,
                        g1: string)
    requires Indexed(groups, cases, data, index) && g1 in cases
    ensures SAMPLE !in Targets(groups, cases, data, index, g1)
    ensures cases[g1] == [] ==> Targets(groups, cases, data, index, g1) == []
  {
    TargetsMembers(groups, cases, data, index, g1, SAMPLE);
    if cases[g1] == [] && Targets(groups, cases, data, index, g1) != [] {
      var g2 := Targets(groups, cases, data, index, g1)[0];
      TargetsMembers(groups, cases, data, index, g1, g2);
    }
  }

  lemma {:induction false} TargetsUpToOrdered(groups: seq<string>, cases: map<string, seq<string>>, data: Table,
                                              index: map<string, int>, g1: string, n: nat, a: int, b: int)
    requires Indexed(groups, cases, data, index) && g1 in cases && n <= |groups| && Distinct(groups)
    requires 0 <= a < b < |TargetsUpTo(groups, cases, data, index, g1, n)|
    ensures TargetsUpTo(groups, cases, data, index, g1, n)[a] in groups[..n]
    ensures TargetsUpTo(groups, cases, data, index, g1, n)[b] in groups[..n]
    ensures IndexOf(groups, TargetsUpTo(groups, cases, data, index, g1, n)[a])
          < IndexOf(groups, TargetsUpTo(groups, cases, data, index, g1, n)[b])
  {
    var prev := TargetsUpTo(groups, cases, data, index, g1, n - 1);
    var cur := TargetsUpTo(groups, cases, data, index, g1, n);
    assert groups[..n - 1] + [groups[n - 1]] == groups[..n];
    if b < |prev| {
      TargetsUpToOrdered(groups, cases, data, index, g1, n - 1, a, b);
    } else {
      assert cur[b] == groups[n - 1];
      assert IndexOf(groups, groups[n - 1]) == n - 1 by {
        DistinctIndexOf(groups, n - 1);
      }
      if a + 1 < |prev| {
        TargetsUpToOrdered(groups, cases, data, index, g1, n - 1, a, a + 1);
      } else {
        assert a < |prev|;
        TargetsUpToInPrefix(groups, cases, data, index, g1, n - 1, a);
      }
      var k :| 0 <= k < n - 1 && groups[k] == cur[a];
      DistinctIndexOf(groups, k);
    }
  }

  lemma {:induction false} TargetsUpToInPrefix(groups: seq<string>, cases: map<string, seq<string>>, data: Table,
                                               index: map<string, int>, g1: string, n: nat, a: int)
    requires Indexed(groups, cases, data, index) && g1 in cases && n <= |groups|
    requires 0 <= a < |TargetsUpTo(groups, cases, data, index, g1, n)|
    ensures TargetsUpTo(groups, cases, data, index, g1, n)[a] in groups[..n]
  {
    var prev := TargetsUpTo(groups, cases, data, index, g1, n - 1);
    assert groups[..n - 1] + [groups[n - 1]] == groups[..n];
    if a < |prev| {
      TargetsUpToInPrefix(groups, cases, data, index, g1, n - 1, a);
    }
  }

  /** In a list without duplicates, the first position of an element is its
      position. */
  lemma DistinctIndexOf(s: seq<string>, k: int)
    requires Distinct(s) && 0 <= k < |s|
    ensures IndexOf(s, s[k]) == k
  {
  }

  /** The reported groups appear in column order. */
  lemma TargetsInGroupOrder(groups: seq<string>, cases: map<string, seq<string>>, data: Table,
                            index: map<string, int>, g1: string, a: int, b: int)
    requires Indexed(groups, cases, data, index) && g1 in cases && Distinct(groups)
    requires 0 <= a < b < |Targets(groups, cases, data, index, g1)|
    ensures Targets(groups, cases, data, index, g1)[a] in groups
    ensures Targets(groups, cases, data, index, g1)[b] in groups
    ensures IndexOf(groups, Targets(groups, cases, data, index, g1)[a])
          < IndexOf(groups, Targets(groups, cases, data, index, g1)[b])
  {
    TargetsUpToOrdered(groups, cases, data, index, g1, |groups|, a, b);
    assert groups[..|groups|] == groups;
  }
}
