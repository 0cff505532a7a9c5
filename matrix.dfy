/** The table of verdicts: one row per input file, holding the file name and
    then one cell per group; the rewrite of the sample column before the
    summary; and `count_word_occurrences`, which the summary counts with. */
module Matrix {
  import opened Wrappers
  import opened Strings
  import opened Discovery
  import opened Ordering
  import opened Verdicts

  type Table = seq<seq<string>>

  /** Every row holds the file name and one cell per group. */
  predicate Shaped(data: Table, groups: seq<string>)
  {
    forall i :: 0 <= i < |data| ==> |data[i]| == |groups| + 1
  }

  /** The rows of the check script: row `i` is input `i` followed by its
      verdict under each group, in column order. */
  method BuildTable(t: Tables, run: Runner, inputs: seq<string>, groups: seq<string>) returns (data: Table)
    ensures |data| == |inputs| && Shaped(data, groups)
    ensures forall i :: 0 <= i < |inputs| ==> data[i][0] == inputs[i]
    ensures forall i, j :: 0 <= i < |inputs| && 0 <= j < |groups| ==> data[i][j + 1] == Go(t, run, inputs[i], groups[j])
  {
    data := [];
    for i := 0 to |inputs|
      invariant |data| == i && Shaped(data, groups)
      invariant forall k :: 0 <= k < i ==> data[k][0] == inputs[k]
      invariant forall k, j :: 0 <= k < i && 0 <= j < |groups| ==> data[k][j + 1] == Go(t, run, inputs[k], groups[j])
    {
      var file := inputs[i];
      var row := [file] + seq(|groups|, j requires 0 <= j < |groups| => Go(t, run, file, groups[j]));
      data := data + [row];
    }
  }

  /** The rows of the standalone script, or `None` when a cell raises and
      the script stops. */
  method BuildTableStandalone(t: Tables, run: Runner, inputs: seq<string>, groups: seq<string>)
    returns (result: Option<Table>)
    ensures result.Some? <==>
      forall i, j :: 0 <= i < |inputs| && 0 <= j < |groups| ==> GoStandalone(t, run, inputs[i], groups[j]).Some?
    ensures result.Some? ==>
      var data := result.value;
      && |data| == |inputs| && Shaped(data, groups)
      && (forall i :: 0 <= i < |inputs| ==> data[i][0] == inputs[i])
      && (forall i, j :: 0 <= i < |inputs| && 0 <= j < |groups| ==>
            Some(data[i][j + 1]) == GoStandalone(t, run, inputs[i], groups[j]))
  {
    var data: Table := [];
    for i := 0 to |inputs|
      invariant |data| == i && Shaped(data, groups)
      invariant forall k :: 0 <= k < i ==> data[k][0] == inputs[k]
      invariant forall k, j :: 0 <= k < i && 0 <= j < |groups| ==>
        Some(data[k][j + 1]) == GoStandalone(t, run, inputs[k], groups[j])
    {
      var file := inputs[i];
      var row := [file];
      for j := 0 to |groups|
        invariant |row| == j + 1 && row[0] == file
        invariant forall m :: 0 <= m < j ==> Some(row[m + 1]) == GoStandalone(t, run, file, groups[m])
      {
        var cell := GoStandalone(t, run, file, groups[j]);
        if cell.None? {
          return None;
        }
        row := row + [cell.value];
      }
      data := data + [row];
    }
    return Some(data);
  }

  /** `groups.index(x)`: the first position of `x`. */
  function IndexOf(s: seq<string>, x: string): (k: nat)
    requires x in s
    ensures k < |s| && s[k] == x && x !in s[..k]
  {
    if s[0] == x then 0 else 1 + IndexOf(s[1..], x)
  }

  /** The table column of group `sample`, after the file-name column. */
  function SampleColumn(groups: seq<string>): nat
    requires SAMPLE in groups
  {
    IndexOf(groups, SAMPLE) + 1
  }

  /** Every row reaches column `col`. */
  predicate HasColumn(data: Table, col: nat)
  {
    forall i :: 0 <= i < |data| ==> col < |data[i]|
  }

  /** The check script's rewrite before its summary: in the column of
      `sample`, every cell that is exactly `MISS` becomes `SKIP`; nothing else
      changes. */
  method DowngradeSample(data: Table, groups: seq<string>) returns (out: Table)
    requires SAMPLE in groups ==> HasColumn(data, SampleColumn(groups))
    ensures |out| == |data|
    ensures forall i :: 0 <= i < |data| ==> |out[i]| == |data[i]|
    ensures forall i, j :: 0 <= i < |data| && 0 <= j < |data[i]| ==>
      out[i][j] == if SAMPLE in groups && j == SampleColumn(groups) && data[i][j] == MISS then SKIP else data[i][j]
  {
    out := data;
    if SAMPLE in groups {
      var col := IndexOf(groups, SAMPLE) + 1;
      for i := 0 to |out|
        invariant |out| == |data|
        invariant forall k :: 0 <= k < |data| ==> |out[k]| == |data[k]|
        invariant forall k, j :: 0 <= k < |data| && 0 <= j < |data[k]| ==>
          out[k][j] == if k < i && j == col && data[k][j] == MISS then SKIP else data[k][j]
      {
        if out[i][col] == MISS {
          out := out[i := out[i][col := SKIP]];
        }
      }
    }
  }

  /** The standalone script's `del row[groups.index('sample') + 1]` on every
      row. */
  method DeleteColumn(data: Table, col: nat) returns (out: Table)
    requires HasColumn(data, col)
    ensures |out| == |data|
    ensures forall i :: 0 <= i < |data| ==> out[i] == data[i][..col] + data[i][col + 1..]
  {
    out := data;
    for i := 0 to |out|
      invariant |out| == |data|
      invariant forall k :: 0 <= k < |data| ==> out[k] == if k < i then data[k][..col] + data[k][col + 1..] else data[k]
    {
      out := out[i := out[i][..col] + out[i][col + 1..]];
    }
  }

  // ---- counting ----

  /** 1 when `word` occurs in `cell`, else 0. */
  function Hit(word: string, cell: string): nat
  {
    if Contains(cell, word) then 1 else 0
  }

  /** The cells of `row` that contain `word`. */
  function RowHits(word: string, row: seq<string>): nat
  {
    if row == [] then 0 else RowHits(word, row[..|row| - 1]) + Hit(word, row[|row| - 1])
  }

  /** The cells of the table, file names included, that contain `word`. */
  function Occurrences(word: string, data: Table): nat
  {
    if data == [] then 0 else Occurrences(word, data[..|data| - 1]) + RowHits(word, data[|data| - 1])
  }

  /** `count_word_occurrences(word, table)`. */
  method CountWord(word: string, data: Table) returns (count: nat)
    ensures count == Occurrences(word, data)
  {
    count := 0;
    for i := 0 to |data|
      invariant count == Occurrences(word, data[..i])
    {
      var row := data[i];
      for j := 0 to |row|
        invariant count == Occurrences(word, data[..i]) + RowHits(word, row[..j])
      {
        if Contains(row[j], word) {
          count := count + 1;
        }
        assert row[..j + 1][..j] == row[..j];
      }
      assert row[..|row|] == row;
      assert data[..i + 1][..i] == data[..i];
    }
    assert data[..|data|] == data;
  }

  /** The cells of column `col` that contain `word`. */
  function ColumnHits(word: string, data: Table, col: nat): nat
    requires HasColumn(data, col)
  {
    if data == [] then 0 else ColumnHits(word, data[..|data| - 1], col) + Hit(word, data[|data| - 1][col])
  }

  /** The cells of column `col` that are exactly `word`. */
  function ColumnExact(word: string, data: Table, col: nat): nat
    requires HasColumn(data, col)
  {
    if data == [] then 0
    else ColumnExact(word, data[..|data| - 1], col) + (if data[|data| - 1][col] == word then 1 else 0)
  }

  lemma {:induction false} RowHitsAppend(word: string, a: seq<string>, b: seq<string>)
    ensures RowHits(word, a + b) == RowHits(word, a) + RowHits(word, b)
    decreases |b|
  {
    if b != [] {
      assert (a + b)[..|a + b| - 1] == a + b[..|b| - 1];
      RowHitsAppend(word, a, b[..|b| - 1]);
    } else {
      assert a + b == a;
    }
  }

  /** Deleting a cell loses exactly that cell's hit. */
  lemma RowHitsDelete(word: string, row: seq<string>, col: nat)
    requires col < |row|
    ensures RowHits(word, row[..col] + row[col + 1..]) + Hit(word, row[col]) == RowHits(word, row)
  {
    assert row == row[..col] + ([row[col]] + row[col + 1..]);
    RowHitsAppend(word, row[..col], [row[col]] + row[col + 1..]);
    RowHitsAppend(word, [row[col]], row[col + 1..]);
    RowHitsAppend(word, row[..col], row[col + 1..]);
    assert RowHits(word, [row[col]]) == Hit(word, row[col]) by {
      assert [row[col]][..0] == [];
    }
  }

  /** Replacing a cell trades its hit for that of the new value. */
  lemma RowHitsUpdate(word: string, row: seq<string>, col: nat, v: string)
    requires col < |row|
    ensures RowHits(word, row[col := v]) + Hit(word, row[col]) == RowHits(word, row) + Hit(word, v)
  {
    var r2 := row[col := v];
    RowHitsDelete(word, row, col);
    RowHitsDelete(word, r2, col);
    assert r2[..col] + r2[col + 1..] == row[..col] + row[col + 1..];
  }

  /** After the sample column is deleted, every count drops by exactly the
      hits in that column: the standalone script never counts a `MISS` of
      the sample column. */
  lemma {:induction false} DeleteColumnCounts(word: string, data: Table, out: Table, col: nat)
    requires HasColumn(data, col) && |out| == |data|
    requires forall i :: 0 <= i < |data| ==> out[i] == data[i][..col] + data[i][col + 1..]
    ensures Occurrences(word, out) + ColumnHits(word, data, col) == Occurrences(word, data)
    decreases |data|
  {
    if data != [] {
      var n := |data| - 1;
      DeleteColumnCounts(word, data[..n], out[..n], col);
      RowHitsDelete(word, data[n], col);
    }
  }

  /** The words the scripts count do not occur in `SKIP`, and `MISS` is not
      part of any other verdict. */
  lemma VerdictWords()
    ensures Contains(MISS, MISS) && !Contains(SKIP, MISS) && !Contains(MISS, BAD) && !Contains(SKIP, BAD)
  {
    assert MISS[..|MISS|] == MISS;
    assert !Contains(SKIP, MISS) by {
      assert SKIP[..4] != MISS by { assert SKIP[0] != MISS[0]; }
      assert SKIP[1..] == "KIP";
    }
    assert !Contains(MISS, BAD) by {
      assert MISS[..3] != BAD by { assert MISS[0] != BAD[0]; }
      assert MISS[1..] == "ISS";
      assert "ISS"[..3] != BAD by { assert "ISS"[0] != BAD[0]; }
      assert "ISS"[1..] == "SS";
    }
    assert !Contains(SKIP, BAD) by {
      assert SKIP[..3] != BAD by { assert SKIP[0] != BAD[0]; }
      assert SKIP[1..] == "KIP";
      assert "KIP"[..3] != BAD by { assert "KIP"[0] != BAD[0]; }
      assert "KIP"[1..] == "IP";
    }
  }

  /** The rewrite of the sample column removes exactly its exact `MISS`
      cells from the count of `MISS`, and leaves the count of `BAD` alone. */
  lemma {:induction false} DowngradeCounts(data: Table, out: Table, col: nat)
    requires HasColumn(data, col) && |out| == |data|
    requires forall i :: 0 <= i < |data| ==> |out[i]| == |data[i]|
    requires forall i, j :: 0 <= i < |data| && 0 <= j < |data[i]| ==>
      out[i][j] == if j == col && data[i][j] == MISS then SKIP else data[i][j]
    ensures Occurrences(MISS, out) + ColumnExact(MISS, data, col) == Occurrences(MISS, data)
    ensures Occurrences(BAD, out) == Occurrences(BAD, data)
    decreases |data|
  {
    if data != [] {
      var n := |data| - 1;
      DowngradeCounts(data[..n], out[..n], col);
      VerdictWords();
      if data[n][col] == MISS {
        assert out[n] == data[n][col := SKIP];
        RowHitsUpdate(MISS, data[n], col, SKIP);
        RowHitsUpdate(BAD, data[n], col, SKIP);
      } else {
        assert out[n] == data[n];
      }
    }
  }

  /** The summary of the check script: the sample column is rewritten first,
      then `BAD` and `MISS` are counted over the whole rewritten table. */
  method CheckSummary(data: Table, groups: seq<string>) returns (out: Table, bads: nat, misses: nat)
    requires SAMPLE in groups ==> HasColumn(data, SampleColumn(groups))
    ensures |out| == |data| && forall i :: 0 <= i < |data| ==> |out[i]| == |data[i]|
    ensures forall i, j :: 0 <= i < |data| && 0 <= j < |data[i]| ==>
      out[i][j] == if SAMPLE in groups && j == SampleColumn(groups) && data[i][j] == MISS then SKIP else data[i][j]
    ensures bads == Occurrences(BAD, out) && misses == Occurrences(MISS, out)
    ensures bads == Occurrences(BAD, data)
    ensures SAMPLE in groups ==> misses + ColumnExact(MISS, data, SampleColumn(groups)) == Occurrences(MISS, data)
    ensures SAMPLE !in groups ==> misses == Occurrences(MISS, data)
  {
    out := DowngradeSample(data, groups);
    if SAMPLE in groups {
      DowngradeCounts(data, out, SampleColumn(groups));
    } else {
      forall i | 0 <= i < |data|
        ensures out[i] == data[i]
      {
      }
      assert out == data;
    }
    bads := CountWord(BAD, out);
    misses := CountWord(MISS, out);
  }

  /** The summary of the standalone script: `BAD` is counted over the whole
      table, then the sample column is deleted, then `MISS` is counted. */
  method StandaloneSummary(data: Table, groups: seq<string>) returns (out: Table, bads: nat, misses: nat)
    requires SAMPLE in groups ==> HasColumn(data, SampleColumn(groups))
    ensures |out| == |data|
    ensures forall i :: 0 <= i < |data| ==>
      out[i] == if SAMPLE in groups then data[i][..SampleColumn(groups)] + data[i][SampleColumn(groups) + 1..] else data[i]
    ensures misses == Occurrences(MISS, out)
    ensures bads == Occurrences(BAD, data)
    ensures SAMPLE in groups ==> misses + ColumnHits(MISS, data, SampleColumn(groups)) == Occurrences(MISS, data)
    ensures SAMPLE !in groups ==> misses == Occurrences(MISS, data)
  {
    bads := CountWord(BAD, data);
    out := data;
    if SAMPLE in groups {
      out := DeleteColumn(data, SampleColumn(groups));
      DeleteColumnCounts(MISS, data, out, SampleColumn(groups));
    }
    misses := CountWord(MISS, out);
  }
}
