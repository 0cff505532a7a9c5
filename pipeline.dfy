/** `validate_problem` of the check script from the directory walk to the
    report of missed inclusions, with the validator as a parameter. */
module Pipeline {
  import opened Strings
  import opened Discovery
  import opened Ordering
  import opened Verdicts
  import opened Matrix
  import opened Inclusion

  /** The test cases of g1 could also be declared in g2: g2 is not `sample`,
      its validator rejects none of them where g1's membership says it should
      accept, flags none as `BAD`, and accepts at least one that is not in
      g2. */
  predicate Includable(t: Tables, run: Runner, g1: string, g2: string)
    requires g1 in t.groupCases
  {
    && g2 != SAMPLE
    && (forall tc :: tc in t.groupCases[g1] ==> !Blocks(Go(t, run, tc, g2)))
    && (exists tc :: tc in t.groupCases[g1] && Go(t, run, tc, g2) == MISS)
  }

  /** A group is never reported as includable in itself: every test case it
      lists names it among its own groups, so its own column never reads
      `MISS`. */
  lemma NeverIncludesItself(t: Tables, run: Runner, g1: string)
    requires CasesMatch(t) && g1 in t.groupCases
    ensures !Includable(t, run, g1, g1)
  {
  }

  /** On a table built from `go` and rewritten in the sample column, the
      inclusion test of one column is the inclusion test on the verdicts. */
  lemma ListedMeansIncludable(t: Tables, run: Runner, groups: seq<string>, inputs: seq<string>, data: Table,
                              index: map<string, int>, g1: string, k: nat)
    requires Indexed(groups, t.groupCases, data, index) && g1 in t.groupCases && k < |groups|
    requires |data| == |inputs| && Shaped(data, groups) && forall i :: 0 <= i < |data| ==> data[i][0] == inputs[i]
    requires forall f :: f in index ==> data[index[f]][0] == f
    requires forall i, j :: 0 <= i < |data| && 0 <= j < |groups| ==>
      data[i][j + 1] == if groups[j] == SAMPLE && Go(t, run, inputs[i], groups[j]) == MISS then SKIP
                        else Go(t, run, inputs[i], groups[j])
    ensures Listed(groups, t.groupCases, data, index, g1, k) <==> Includable(t, run, g1, groups[k])
  {
    if groups[k] != SAMPLE {
      forall tc | tc in index
        ensures CellOf(data, index, tc, k) == Go(t, run, tc, groups[k])
      {
        assert inputs[index[tc]] == tc;
      }
    }
  }

  /** With distinct group names, the sample column is the column of the
      group named `sample`. */
  lemma SampleColumnAt(groups: seq<string>, k: int)
    requires Distinct(groups) && SAMPLE in groups && 0 <= k < |groups|
    ensures k + 1 == SampleColumn(groups) <==> groups[k] == SAMPLE
  {
    DistinctIndexOf(groups, k);
  }

  /** The table after the rewrite of the sample column, cell by cell. */
  lemma RewrittenCells(t: Tables, run: Runner, groups: seq<string>, inputs: seq<string>, table: Table, data: Table)
    requires Distinct(groups)
    requires |table| == |inputs| && Shaped(table, groups)
    requires forall i :: 0 <= i < |inputs| ==> table[i][0] == inputs[i]
    requires forall i, j :: 0 <= i < |inputs| && 0 <= j < |groups| ==> table[i][j + 1] == Go(t, run, inputs[i], groups[j])
    requires |data| == |table| && forall i :: 0 <= i < |table| ==> |data[i]| == |table[i]|
    requires forall i, j :: 0 <= i < |table| && 0 <= j < |table[i]| ==>
      data[i][j] == if SAMPLE in groups && j == SampleColumn(groups) && table[i][j] == MISS then SKIP else table[i][j]
    ensures Shaped(data, groups) && forall i :: 0 <= i < |inputs| ==> data[i][0] == inputs[i]
    ensures forall i, k :: 0 <= i < |inputs| && 0 <= k < |groups| ==>
      data[i][k + 1] == if groups[k] == SAMPLE && Go(t, run, inputs[i], groups[k]) == MISS then SKIP
                        else Go(t, run, inputs[i], groups[k])
  {
    forall i, k | 0 <= i < |inputs| && 0 <= k < |groups|
      ensures data[i][k + 1] == if groups[k] == SAMPLE && Go(t, run, inputs[i], groups[k]) == MISS then SKIP
                                else Go(t, run, inputs[i], groups[k])
    {
      if SAMPLE in groups {
        SampleColumnAt(groups, k);
      }
    }
  }

  /** Every test case listed under a group is an input, hence has a row, hence
      an entry in `tc_index`. */
  lemma EveryCaseIndexed(t: Tables, inputs: seq<string>, data: Table, index: map<string, int>)
    requires Valid(t) && multiset(inputs) == multiset(t.inputKeys)
    requires |data| == |inputs| && forall i :: 0 <= i < |data| ==> |data[i]| > 0 && data[i][0] == inputs[i]
    requires forall f :: f in index <==> exists i :: 0 <= i < |data| && data[i][0] == f
    ensures forall g, tc :: g in t.groupCases && tc in t.groupCases[g] ==> tc in index
  {
    forall g, tc | g in t.groupCases && tc in t.groupCases[g]
      ensures tc in index
    {
      assert tc in t.inputGroups && tc in t.inputKeys;
      assert tc in multiset(t.inputKeys);
      var i :| 0 <= i < |inputs| && inputs[i] == tc;
      assert data[i][0] == tc;
    }
  }

  /** What the report of `Analyze` means on the check script's table. */
  lemma ReportMeans(t: Tables, run: Runner, groups: seq<string>, inputs: seq<string>, data: Table,
                    index: map<string, int>, report: seq<seq<string>>)
    requires CasesMatch(t) && Indexed(groups, t.groupCases, data, index)
    requires |data| == |inputs| && Shaped(data, groups) && forall i :: 0 <= i < |data| ==> data[i][0] == inputs[i]
    requires forall f :: f in index ==> data[index[f]][0] == f
    requires forall i, j :: 0 <= i < |data| && 0 <= j < |groups| ==>
      data[i][j + 1] == if groups[j] == SAMPLE && Go(t, run, inputs[i], groups[j]) == MISS then SKIP
                        else Go(t, run, inputs[i], groups[j])
    requires |report| == |groups|
    requires forall i :: 0 <= i < |groups| ==> report[i] == Targets(groups, t.groupCases, data, index, groups[i])
    ensures forall i, g2 :: 0 <= i < |groups| ==> (g2 in report[i] <==> g2 in groups && Includable(t, run, groups[i], g2))
    ensures forall i :: 0 <= i < |groups| ==> groups[i] !in report[i]
  {
    forall i, g2 | 0 <= i < |groups|
      ensures g2 in report[i] <==> g2 in groups && Includable(t, run, groups[i], g2)
    {
      TargetsMembers(groups, t.groupCases, data, index, groups[i], g2);
      forall k | 0 <= k < |groups|
        ensures Listed(groups, t.groupCases, data, index, groups[i], k) <==> Includable(t, run, groups[i], groups[k])
      {
        ListedMeansIncludable(t, run, groups, inputs, data, index, groups[i], k);
      }
    }
    forall i | 0 <= i < |groups|
      ensures groups[i] !in report[i]
    {
      NeverIncludesItself(t, run, groups[i]);
      assert groups[i] in report[i] <==> groups[i] in groups && Includable(t, run, groups[i], groups[i]);
    }
  }

  /** The check script on one problem: discovery, ordering, the table, the
      summary counts and the report. */
  method CheckProblem(ds: seq<Dir>, run: Runner)
    returns (groups: seq<string>, inputs: seq<string>, data: Table, bads: nat, misses: nat, report: seq<seq<string>>)
    requires NoLooseInputs(ds)
    requires forall g :: g in Discover(ds).groupFlags ==> g in Discover(ds).groupCases
    ensures forall g :: g in groups <==> g in Discover(ds).groupFlags
    ensures groups == GroupOrder(Discover(ds).groupKeys)
    ensures inputs == Sort(ByInputKey, Discover(ds).inputKeys)
    ensures |data| == |inputs| && Shaped(data, groups)
    ensures forall i :: 0 <= i < |inputs| ==> data[i][0] == inputs[i]
    ensures forall i, k :: 0 <= i < |inputs| && 0 <= k < |groups| ==>
      data[i][k + 1] == if groups[k] == SAMPLE && Go(Discover(ds), run, inputs[i], groups[k]) == MISS then SKIP
                        else Go(Discover(ds), run, inputs[i], groups[k])
    ensures bads == Occurrences(BAD, data) && misses == Occurrences(MISS, data)
    ensures |report| == |groups|
    ensures forall i, g2 :: 0 <= i < |groups| ==>
      (g2 in report[i] <==> g2 in groups && Includable(Discover(ds), run, groups[i], g2))
    ensures forall i :: 0 <= i < |groups| ==> groups[i] !in report[i]
  {
    var t := WalkCheck(ds);
    DiscoverValid(ds);
    groups := GroupOrder(t.groupKeys);
    GroupOrderCorrect(t.groupKeys);
    PermutationDistinct(t.groupKeys, groups);
    assert forall g :: g in groups <==> g in multiset(t.groupKeys);
    inputs := InputOrder(t.inputKeys);
    InputOrderCorrect(t.inputKeys);
    var table := BuildTable(t, run, inputs, groups);
    data, bads, misses := CheckSummary(table, groups);
    RewrittenCells(t, run, groups, inputs, table, data);
    var index := IndexRows(data);
    EveryCaseIndexed(t, inputs, data, index);
    report := Analyze(groups, t.groupCases, data, index);
    ReportMeans(t, run, groups, inputs, data, index, report);
  }
}
