/** The order in which both scripts list groups (the table's columns) and
    input files (its rows).  Python's `sorted` is modelled by an insertion
    sort; on names without duplicates, as the keys of a dict are, every
    correct sort gives the same result (`SortUnique`). */
module Ordering {
  import opened Strings

  const SAMPLE: string := "sample"

  /** The two orders the scripts sort by: the names themselves, and the key
      `(re.match(r'(\d+)\.in', x) is None, x)` of the input files. */
  datatype Key = ByName | ByInputKey

  /** `a` sorts strictly before `b`.  Tuples compare component by component
      and `False < True`, so under `ByInputKey` a name matching the pattern
      comes before one that does not, and names of the same kind compare as
      strings. */
  predicate Precedes(k: Key, a: string, b: string)
  {
    match k
    case ByName => Below(a, b)
    case ByInputKey => (DigitName(a) && !DigitName(b)) || (DigitName(a) == DigitName(b) && Below(a, b))
  }

  lemma PrecedesIrreflexive(k: Key, a: string)
    ensures !Precedes(k, a, a)
  {
    BelowIrreflexive(a);
  }

  lemma PrecedesTransitive(k: Key, a: string, b: string, c: string)
    requires Precedes(k, a, b) && Precedes(k, b, c)
    ensures Precedes(k, a, c)
  {
    if Below(a, b) && Below(b, c) {
      BelowTransitive(a, b, c);
    }
  }

  lemma PrecedesTotal(k: Key, a: string, b: string)
    requires a != b
    ensures Precedes(k, a, b) || Precedes(k, b, a)
  {
    BelowTotal(a, b);
  }

  lemma PrecedesAsymmetric(k: Key, a: string, b: string)
    requires Precedes(k, a, b)
    ensures !Precedes(k, b, a)
  {
    if Precedes(k, b, a) {
      PrecedesTransitive(k, a, b, a);
      PrecedesIrreflexive(k, a);
    }
  }

  /** Not sorting before is transitive too, since the order is total. */
  lemma NotPrecedesTransitive(k: Key, a: string, b: string, c: string)
    requires !Precedes(k, a, b) && !Precedes(k, b, c)
    ensures !Precedes(k, a, c)
  {
    if Precedes(k, a, c) && a != b && b != c {
      PrecedesTotal(k, a, b);
      PrecedesTransitive(k, b, a, c);
    }
  }

  /** No element sorts strictly before an earlier one. */
  predicate Sorted(k: Key, s: seq<string>)
  {
    forall i, j :: 0 <= i < j < |s| ==> !Precedes(k, s[j], s[i])
  }

  /** `x` placed before the first element of `s` that does not sort before
      it. */
  function Insert(k: Key, x: string, s: seq<string>): seq<string>
  {
    if s == [] then [x]
    else if Precedes(k, s[0], x) then [s[0]] + Insert(k, x, s[1..])
    else [x] + s
  }

  /** `sorted(s, key=…)`. */
  function Sort(k: Key, s: seq<string>): seq<string>
  {
    if s == [] then [] else Insert(k, s[0], Sort(k, s[1..]))
  }

  lemma {:induction false} InsertPermutes(k: Key, x: string, s: seq<string>)
    ensures multiset(Insert(k, x, s)) == multiset(s) + multiset{x}
  {
    if s != [] && Precedes(k, s[0], x) {
      InsertPermutes(k, x, s[1..]);
      assert s == [s[0]] + s[1..];
    }
  }

  /** A head that no later element sorts before, on a sorted tail. */
  lemma SortedCons(k: Key, y: string, s: seq<string>)
    requires Sorted(k, s)
    requires forall z :: z in s ==> !Precedes(k, z, y)
    ensures Sorted(k, [y] + s)
  {
    var r := [y] + s;
    forall i, j | 0 <= i < j < |r|
      ensures !Precedes(k, r[j], r[i])
    {
      if i > 0 {
        assert r[i] == s[i - 1] && r[j] == s[j - 1];
      } else {
        assert r[j] in s;
      }
    }
  }

  lemma {:induction false} InsertSorted(k: Key, x: string, s: seq<string>)
    requires Sorted(k, s)
    ensures Sorted(k, Insert(k, x, s))
  {
    if s == [] {
    } else if Precedes(k, s[0], x) {
      InsertSorted(k, x, s[1..]);
      InsertPermutes(k, x, s[1..]);
      forall z | z in Insert(k, x, s[1..])
        ensures !Precedes(k, z, s[0])
      {
        assert z in multiset(Insert(k, x, s[1..]));
        if z == x {
          PrecedesAsymmetric(k, s[0], x);
        } else {
          assert z in multiset(s[1..]);
          var j :| 0 <= j < |s[1..]| && s[1..][j] == z;
          assert s[j + 1] == z;
        }
      }
      SortedCons(k, s[0], Insert(k, x, s[1..]));
    } else {
      forall z | z in s
        ensures !Precedes(k, z, x)
      {
        var j :| 0 <= j < |s| && s[j] == z;
        if j > 0 {
          NotPrecedesTransitive(k, z, s[0], x);
        }
      }
      SortedCons(k, x, s);
    }
  }

  /** `sorted` returns its argument rearranged into order. */
  lemma {:induction false} SortCorrect(k: Key, s: seq<string>)
    ensures Sorted(k, Sort(k, s))
    ensures multiset(Sort(k, s)) == multiset(s)
  {
    if s != [] {
      SortCorrect(k, s[1..]);
      InsertSorted(k, s[0], Sort(k, s[1..]));
      InsertPermutes(k, s[0], Sort(k, s[1..]));
      assert s == [s[0]] + s[1..];
    }
  }

  /** A rearrangement of names without duplicates has none. */
  lemma PermutationDistinct(s: seq<string>, r: seq<string>)
    requires Distinct(s) && multiset(r) == multiset(s)
    ensures Distinct(r)
  {
    forall i, j | 0 <= i < j < |r|
      ensures r[i] != r[j]
    {
      if r[i] == r[j] {
        assert r == r[..j] + [r[j]] + r[j + 1..];
        assert r[i] in r[..j];
        assert multiset(r)[r[i]] >= 2;
        DistinctCount(s, r[i]);
        assert false;
      }
    }
  }

  lemma {:induction false} DistinctCount(s: seq<string>, x: string)
    requires Distinct(s)
    ensures multiset(s)[x] <= 1
  {
    if s != [] {
      assert s == [s[0]] + s[1..];
      assert Distinct(s[1..]) by {
        forall i, j | 0 <= i < j < |s[1..]|
          ensures s[1..][i] != s[1..][j]
        {
          assert s[1..][i] == s[i + 1] && s[1..][j] == s[j + 1];
        }
      }
      DistinctCount(s[1..], x);
      if s[0] == x {
        assert x !in s[1..];
      }
    }
  }

  lemma DistinctTail(s: seq<string>)
    requires Distinct(s) && s != []
    ensures Distinct(s[1..])
  {
    forall i, j | 0 <= i < j < |s[1..]|
      ensures s[1..][i] != s[1..][j]
    {
      assert s[1..][i] == s[i + 1] && s[1..][j] == s[j + 1];
    }
  }

  lemma SortedTail(k: Key, s: seq<string>)
    requires Sorted(k, s) && s != []
    ensures Sorted(k, s[1..])
  {
    forall i, j | 0 <= i < j < |s[1..]|
      ensures !Precedes(k, s[1..][j], s[1..][i])
    {
      assert s[1..][i] == s[i + 1] && s[1..][j] == s[j + 1];
    }
  }

  /** Sorted rearrangements of the same names without duplicates start with
      the same name. */
  lemma SortedHeads(k: Key, r1: seq<string>, r2: seq<string>)
    requires Sorted(k, r1) && Sorted(k, r2) && r1 != [] && r2 != []
    requires multiset(r1) == multiset(r2)
    ensures r1[0] == r2[0]
  {
    if r1[0] != r2[0] {
      assert r1[0] in multiset(r2) && r2[0] in multiset(r1);
      var i :| 0 <= i < |r2| && r2[i] == r1[0];
      var j :| 0 <= j < |r1| && r1[j] == r2[0];
      assert !Precedes(k, r1[0], r2[0]);
      assert !Precedes(k, r2[0], r1[0]);
      PrecedesTotal(k, r1[0], r2[0]);
    }
  }

  /** Two sorted rearrangements of the same names without duplicates are
      equal: the order fixes the result, whatever algorithm sorts. */
  lemma {:induction false} SortedUnique(k: Key, r1: seq<string>, r2: seq<string>)
    requires Distinct(r1) && Sorted(k, r1) && Sorted(k, r2)
    requires multiset(r1) == multiset(r2)
    ensures r1 == r2
    decreases |r1|
  {
    assert |r2| == |r1| by {
      assert |multiset(r2)| == |multiset(r1)|;
    }
    if r1 != [] {
      SortedHeads(k, r1, r2);
      assert r1 == [r1[0]] + r1[1..] && r2 == [r2[0]] + r2[1..];
      assert multiset(r1) == multiset{r1[0]} + multiset(r1[1..]);
      assert multiset(r2) == multiset{r2[0]} + multiset(r2[1..]);
      assert multiset(r1[1..]) == multiset(r1) - multiset{r1[0]};
      assert multiset(r2[1..]) == multiset(r2) - multiset{r2[0]};
      DistinctTail(r1);
      SortedTail(k, r1);
      SortedTail(k, r2);
      SortedUnique(k, r1[1..], r2[1..]);
    }
  }

  /** On names without duplicates, `Sort` is the only sorted rearrangement. */
  lemma SortUnique(k: Key, s: seq<string>, r: seq<string>)
    requires Distinct(s) && Sorted(k, r) && multiset(r) == multiset(s)
    ensures r == Sort(k, s)
  {
    SortCorrect(k, s);
    PermutationDistinct(s, r);
    SortedUnique(k, r, Sort(k, s));
  }

  /** `list.remove(x)`: drops the first occurrence of `x`. */
  function RemoveFirst(s: seq<string>, x: string): seq<string>
  {
    if s == [] then [] else if s[0] == x then s[1..] else [s[0]] + RemoveFirst(s[1..], x)
  }

  /** The column order: the group names sorted, with `sample` moved to the
      front when there is such a group. */
  function GroupOrder(keys: seq<string>): seq<string>
  {
    var s := Sort(ByName, keys);
    if SAMPLE in s then [SAMPLE] + RemoveFirst(s, SAMPLE) else s
  }

  /** The row order: sorted by name, then sorted again by the input key. */
  function InputOrder(keys: seq<string>): seq<string>
  {
    Sort(ByInputKey, Sort(ByName, keys))
  }

  /** `list.remove(x)` removes one copy of `x` when there is one, and
      changes nothing otherwise. */
  lemma {:induction false} RemoveFirstPermutes(s: seq<string>, x: string)
    ensures multiset(RemoveFirst(s, x)) <= multiset(s)
    ensures x in s ==> multiset(RemoveFirst(s, x)) == multiset(s) - multiset{x}
    ensures x !in s ==> RemoveFirst(s, x) == s
  {
    if s != [] {
      assert s == [s[0]] + s[1..];
      if s[0] != x {
        RemoveFirstPermutes(s[1..], x);
        assert x in s <==> x in s[1..];
      }
    }
  }

  /** Removing an element keeps a sorted list sorted. */
  lemma {:induction false} RemoveFirstSorted(k: Key, s: seq<string>, x: string)
    requires Sorted(k, s)
    ensures Sorted(k, RemoveFirst(s, x))
  {
    if s != [] {
      SortedTail(k, s);
      if s[0] != x {
        var rest := RemoveFirst(s[1..], x);
        RemoveFirstSorted(k, s[1..], x);
        RemoveFirstPermutes(s[1..], x);
        forall z | z in rest
          ensures !Precedes(k, z, s[0])
        {
          assert z in multiset(rest);
          assert z in multiset(s[1..]);
          var j :| 0 <= j < |s[1..]| && s[1..][j] == z;
          assert s[j + 1] == z;
        }
        SortedCons(k, s[0], rest);
      }
    }
  }

  /** The columns are the groups, each once, with `sample` first when it is a
      group and the others in string order. */
  lemma GroupOrderCorrect(keys: seq<string>)
    ensures multiset(GroupOrder(keys)) == multiset(keys)
    ensures SAMPLE in keys ==> GroupOrder(keys)[0] == SAMPLE && Sorted(ByName, GroupOrder(keys)[1..])
    ensures SAMPLE !in keys ==> Sorted(ByName, GroupOrder(keys))
  {
    var s := Sort(ByName, keys);
    SortCorrect(ByName, keys);
    RemoveFirstSorted(ByName, s, SAMPLE);
    RemoveFirstPermutes(s, SAMPLE);
    assert SAMPLE in keys <==> SAMPLE in multiset(s);
    if SAMPLE in s {
      var r := [SAMPLE] + RemoveFirst(s, SAMPLE);
      assert r[1..] == RemoveFirst(s, SAMPLE);
      assert multiset(s) == multiset(s) - multiset{SAMPLE} + multiset{SAMPLE};
    }
  }

  /** The rows are the input files, each once, in the input-key order; the
      first sort by name makes no difference to it. */
  lemma InputOrderCorrect(keys: seq<string>)
    requires Distinct(keys)
    ensures multiset(InputOrder(keys)) == multiset(keys)
    ensures Sorted(ByInputKey, InputOrder(keys))
    ensures InputOrder(keys) == Sort(ByInputKey, keys)
  {
    SortCorrect(ByName, keys);
    SortCorrect(ByInputKey, Sort(ByName, keys));
    SortUnique(ByInputKey, keys, InputOrder(keys));
  }

  /** In the row order every name of the form `<digits>.in…` comes before
      every other name. */
  lemma DigitNamesFirst(keys: seq<string>, i: int, j: int)
    requires Distinct(keys)
    requires 0 <= i < |InputOrder(keys)| && 0 <= j < |InputOrder(keys)|
    requires DigitName(InputOrder(keys)[j]) && !DigitName(InputOrder(keys)[i])
    ensures j < i
  {
    InputOrderCorrect(keys);
  }

  /** Digit names are ordered as strings, not as numbers: `10.in` comes
      before `2.in`. */
  lemma StringOrderNotNumeric()
    ensures InputOrder(["2.in", "10.in"]) == ["10.in", "2.in"]
  {
    assert LeadingDigits("2.in") == 1 by {
      assert LeadingDigits(".in") == 0;
      assert "2.in"[1..] == ".in";
    }
    assert LeadingDigits("10.in") == 2 by {
      assert LeadingDigits(".in") == 0;
      assert "10.in"[1..] == "0.in" && "0.in"[1..] == ".in";
    }
    assert DigitName("2.in") && DigitName("10.in");
    assert Below("10.in", "2.in");
    assert !Below("2.in", "10.in");
  }
}
