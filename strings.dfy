/** The operations on Python `str` values that both scripts rely on: the
    ordering `<` used by `sorted`, the substring test `w in s`,
    `str.endswith`, `os.path.basename`, `os.path.join`, and the prefix match
    `re.match(r'(\d+)\.in', x)` of the input sort key. */
module Strings {

  /** Python's `a < b` on `str`: lexicographic by code point, and a proper
      prefix comes first. */
  predicate Below(a: string, b: string)
  {
    if |a| == 0 then |b| > 0
    else if |b| == 0 then false
    else if a[0] != b[0] then a[0] < b[0]
    else Below(a[1..], b[1..])
  }

  lemma {:induction false} BelowIrreflexive(a: string)
    ensures !Below(a, a)
  {
    if |a| > 0 {
      BelowIrreflexive(a[1..]);
    }
  }

  lemma {:induction false} BelowTransitive(a: string, b: string, c: string)
    requires Below(a, b) && Below(b, c)
    ensures Below(a, c)
  {
    if |a| > 0 && a[0] == b[0] && b[0] == c[0] {
      BelowTransitive(a[1..], b[1..], c[1..]);
    }
  }

  lemma {:induction false} BelowTotal(a: string, b: string)
    requires a != b
    ensures Below(a, b) || Below(b, a)
  {
    if |a| > 0 && |b| > 0 && a[0] == b[0] {
      assert a == [a[0]] + a[1..] && b == [b[0]] + b[1..];
      BelowTotal(a[1..], b[1..]);
    }
  }

  lemma BelowAsymmetric(a: string, b: string)
    requires Below(a, b)
    ensures !Below(b, a)
  {
    if Below(b, a) {
      BelowTransitive(a, b, a);
      BelowIrreflexive(a);
    }
  }

  /** No string occurs twice in `s`, as in the keys of a dict. */
  predicate Distinct(s: seq<string>)
  {
    forall i, j :: 0 <= i < j < |s| ==> s[i] != s[j]
  }

  /** Python's `w in s` on two strings: `w` occurs in `s` as a contiguous
      substring. */
  predicate Contains(s: string, w: string)
  {
    |w| <= |s| && (s[..|w|] == w || (|s| > 0 && Contains(s[1..], w)))
  }

  /** `w` occurs in `s` starting at position `i`. */
  predicate OccursAt(s: string, w: string, i: int)
  {
    0 <= i <= |s| - |w| && s[i..i + |w|] == w
  }

  /** `Contains` agrees with the definition by a position of occurrence. */
  lemma {:induction false} ContainsAt(s: string, w: string)
    ensures Contains(s, w) <==> exists i :: OccursAt(s, w, i)
  {
    if |w| <= |s| && s[..|w|] == w {
      assert OccursAt(s, w, 0);
    } else if |w| <= |s| && |s| > 0 {
      ContainsAt(s[1..], w);
      if exists i :: OccursAt(s, w, i) {
        var i :| OccursAt(s, w, i);
        assert i > 0;
        assert OccursAt(s[1..], w, i - 1);
      }
      if Contains(s[1..], w) {
        var i :| OccursAt(s[1..], w, i);
        assert OccursAt(s, w, i + 1);
      }
    }
  }

  /** Python's `s.endswith(suffix)`. */
  predicate EndsWith(s: string, suffix: string)
  {
    |suffix| <= |s| && s[|s| - |suffix|..] == suffix
  }

  /** `os.path.basename(p)`: what follows the last `/` of `p`. */
  function Basename(p: string): string
  {
    if p == [] then []
    else if p[|p| - 1] == '/' then []
    else Basename(p[..|p| - 1]) + [p[|p| - 1]]
  }

  /** The basename is the longest suffix of the path without a separator:
      it holds no `/`, and it is either the whole path or preceded by `/`. */
  lemma {:induction false} BasenameSuffix(p: string)
    ensures '/' !in Basename(p)
    ensures |Basename(p)| <= |p| && p[|p| - |Basename(p)|..] == Basename(p)
    ensures |Basename(p)| < |p| ==> p[|p| - |Basename(p)| - 1] == '/'
  {
    if p != [] && p[|p| - 1] != '/' {
      var q := p[..|p| - 1];
      var c := p[|p| - 1];
      var b := Basename(q);
      BasenameSuffix(q);
      assert Basename(p) == b + [c];
      assert p == q + [c];
      assert p[|p| - |b| - 1..] == q[|q| - |b|..] + [c];
      if |b| < |q| {
        assert p[|p| - |b| - 2] == q[|q| - |b| - 1];
      }
    }
  }

  /** `os.path.join(dir, name)` for two path components. */
  function Join(dir: string, name: string): string
  {
    if |name| > 0 && name[0] == '/' then name
    else if dir == [] || dir[|dir| - 1] == '/' then dir + name
    else dir + "/" + name
  }

  /** The basename of a path is the component after its last separator. */
  lemma {:induction false} BasenameAfterSeparator(prefix: string, name: string)
    requires prefix == [] || prefix[|prefix| - 1] == '/'
    requires '/' !in name
    ensures Basename(prefix + name) == name
  {
    if name != [] {
      var last := name[|name| - 1];
      assert (prefix + name)[..|prefix + name| - 1] == prefix + name[..|name| - 1];
      BasenameAfterSeparator(prefix, name[..|name| - 1]);
      assert name[..|name| - 1] + [last] == name;
    } else {
      assert prefix + name == prefix;
    }
  }

  /** The path that `os.walk` reports for a file has that file's name as its
      basename. */
  lemma JoinBasename(dir: string, name: string)
    requires name != [] && '/' !in name
    ensures Basename(Join(dir, name)) == name
  {
    if dir == [] || dir[|dir| - 1] == '/' {
      BasenameAfterSeparator(dir, name);
    } else {
      assert dir + "/" + name == (dir + "/") + name;
      BasenameAfterSeparator(dir + "/", name);
    }
  }

  predicate IsDigit(c: char)
  {
    '0' <= c <= '9'
  }

  /** The length of the longest run of digits at the start of `s`. */
  function LeadingDigits(s: string): (n: nat)
    ensures n <= |s|
    ensures forall i :: 0 <= i < n ==> IsDigit(s[i])
    ensures n < |s| ==> !IsDigit(s[n])
  {
    if s != [] && IsDigit(s[0]) then 1 + LeadingDigits(s[1..]) else 0
  }

  /** `re.match(r'(\d+)\.in', x) is not None`: a non-empty run of digits at the
      start of `x`, directly followed by `.in`.  The greedy `\d+` can only
      succeed with the whole leading run, because a shorter run is followed by
      a digit and not by `.`. */
  predicate DigitName(x: string)
  {
    var n := LeadingDigits(x);
    0 < n && n + 3 <= |x| && x[n..n + 3] == ".in"
  }

  /** The regular expression matches `x` with a digit run of length `k`. */
  predicate MatchesWithRun(x: string, k: int)
  {
    0 < k && k + 3 <= |x| && (forall i :: 0 <= i < k ==> IsDigit(x[i])) && x[k..k + 3] == ".in"
  }

  /** `DigitName` agrees with the regular expression's meaning, where the
      matcher may try every length of the digit run. */
  lemma DigitNameMeansMatch(x: string)
    ensures DigitName(x) <==> exists k :: MatchesWithRun(x, k)
  {
    var n := LeadingDigits(x);
    if DigitName(x) {
      assert MatchesWithRun(x, n);
    }
    if exists k :: MatchesWithRun(x, k) {
      var k :| MatchesWithRun(x, k);
      assert x[k] == '.';
      if k != n {
        assert false;
      }
    }
  }
}
