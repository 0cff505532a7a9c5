/** The colour codes the standalone script wraps its cells in, and the
    regular expression `\x1B\[[0-?]*[ -/]*[@-~]` that its table printer
    removes again before measuring a cell. */
module Ansi {

  const ESC: char := 27 as char
  const GREEN: string := [ESC] + "[92m"
  const RED: string := [ESC] + "[91m"
  const ORANGE: string := [ESC] + "[93m"
  const RESET: string := [ESC] + "[0m"

  /** `green(text)`, `red(text)` and `orange(text)`: the colour code, the
      text, then the reset code. */
  function Paint(colour: string, text: string): string
  {
    colour + text + RESET
  }

  /** The length of the longest prefix of `s` whose characters all lie
      between `lo` and `hi`. */
  function Run(s: string, lo: char, hi: char): (n: nat)
    ensures n <= |s|
    ensures forall i :: 0 <= i < n ==> lo <= s[i] <= hi
    ensures n < |s| ==> !(lo <= s[n] <= hi)
  {
    if s != [] && lo <= s[0] <= hi then 1 + Run(s[1..], lo, hi) else 0
  }

  /** The length of the escape sequence the pattern matches at the start of
      `s`, or 0 when it matches nothing there.  The three character classes
      `[0-?]`, `[ -/]` and `[@-~]` are disjoint, so backtracking never finds a
      match that the greedy runs miss. */
  function EscapeLength(s: string): (n: nat)
    ensures n == 0 || 3 <= n <= |s|
  {
    if |s| >= 2 && s[0] == ESC && s[1] == '[' then
      var a := 2 + Run(s[2..], '0', '?');
      var b := a + Run(s[a..], ' ', '/');
      if b < |s| && '@' <= s[b] <= '~' then b + 1 else 0
    else 0
  }

  /** `ansi_escape.sub('', s)`: scanning from the left, every match is
      removed and every other character kept. */
  function StripAnsi(s: string): (r: string)
    ensures |r| <= |s|
    decreases |s|
  {
    if s == [] then []
    else if EscapeLength(s) > 0 then StripAnsi(s[EscapeLength(s)..])
    else [s[0]] + StripAnsi(s[1..])
  }

  /** Text without an escape character passes through unchanged, and
      stripping continues after it. */
  lemma {:induction false} StripPlainPrefix(a: string, b: string)
    requires ESC !in a
    ensures StripAnsi(a + b) == a + StripAnsi(b)
  {
    if a != [] {
      assert (a + b)[0] == a[0] && a[0] != ESC;
      assert EscapeLength(a + b) == 0;
      assert (a + b)[1..] == a[1..] + b;
      assert StripAnsi(a + b) == [a[0]] + StripAnsi(a[1..] + b);
      StripPlainPrefix(a[1..], b);
      assert [a[0]] + (a[1..] + StripAnsi(b)) == a + StripAnsi(b);
    } else {
      assert a + b == b;
    }
  }

  /** One step of `Run` at position `i` of `s`. */
  lemma RunStep(s: string, i: int, lo: char, hi: char)
    requires 0 <= i <= |s|
    ensures Run(s[i..], lo, hi) == if i < |s| && lo <= s[i] <= hi then 1 + Run(s[i + 1..], lo, hi) else 0
  {
    if i < |s| {
      assert s[i..][0] == s[i] && s[i..][1..] == s[i + 1..];
    }
  }

  /** The digits of a colour code form its parameter run. */
  lemma ColourParameters(colour: string, b: string)
    requires colour in {GREEN, RED, ORANGE, RESET}
    ensures Run((colour + b)[2..], '0', '?') == |colour| - 3
  {
    var s := colour + b;
    var k := |colour| - 1;
    assert s[k] == 'm';
    RunStep(s, k, '0', '?');
    if colour == RESET {
      assert s[2] == '0';
      RunStep(s, 2, '0', '?');
    } else {
      assert s[2] == '9' && '0' <= s[3] <= '?';
      RunStep(s, 2, '0', '?');
      RunStep(s, 3, '0', '?');
    }
  }

  /** The pattern matches exactly a colour code at the front. */
  lemma ColourEscape(colour: string, b: string)
    requires colour in {GREEN, RED, ORANGE, RESET}
    ensures EscapeLength(colour + b) == |colour|
  {
    var s := colour + b;
    var k := |colour| - 1;
    assert s[0] == ESC && s[1] == '[' && s[k] == 'm';
    ColourParameters(colour, b);
    RunStep(s, k, ' ', '/');
  }

  /** A colour code at the front is removed whatever follows it. */
  lemma StripColourPrefix(colour: string, b: string)
    requires colour in {GREEN, RED, ORANGE, RESET}
    ensures StripAnsi(colour + b) == StripAnsi(b)
  {
    ColourEscape(colour, b);
    assert (colour + b)[|colour|..] == b;
  }

  /** Stripping a painted label gives the label back. */
  lemma StripPainted(colour: string, text: string)
    requires colour in {GREEN, RED, ORANGE}
    requires ESC !in text
    ensures StripAnsi(Paint(colour, text)) == text
  {
    assert Paint(colour, text) == colour + (text + RESET);
    StripColourPrefix(colour, text + RESET);
    StripPlainPrefix(text, RESET);
    StripColourPrefix(RESET, []);
    assert RESET + [] == RESET;
    assert text + [] == text;
  }
}
