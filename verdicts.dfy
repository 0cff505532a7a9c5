/** `go`: the verdict for one (input file, group) cell of the table, from
    running the input validator on the file with the group's flags. */
module Verdicts {
  import opened Wrappers
  import opened Discovery
  import opened Ansi

  const OK_YES: string := "OK:Y"
  const OK_NO: string := "OK:N"
  const MISS: string := "MISS"
  const BAD: string := "BAD"
  const SKIP: string := "SKIP"
  const UNKNOWN: string := "UNKNOWN"

  /** The exit code by which the validator accepts an input. */
  const ACCEPT_CODE: int := 42

  /** What starting the validator on an input file with some flags gives: its
      exit code, or an exception (the file cannot be opened, the flags are not
      a string, the process cannot be started). */
  datatype RunOutcome = Exited(code: int) | Raised

  /** The compiled validator, as a function of the input's path and the
      group's flags.  It is deterministic: the same file and flags give the
      same outcome. */
  type Runner = (string, string) -> RunOutcome

  /** The truth table of `go`: whether the validator accepted the file, and
      whether the group is one of the file's own groups. */
  function Verdict(accepted: bool, member: bool): (v: string)
    ensures v == OK_YES <==> accepted && member
    ensures v == OK_NO <==> !accepted && !member
    ensures v == MISS <==> accepted && !member
    ensures v == BAD <==> !accepted && member
  {
    if accepted == member then (if accepted then OK_YES else OK_NO)
    else if accepted then MISS else BAD
  }

  /** Reads a verdict back as the pair (accepted, member) it reports. */
  function Meaning(v: string): Option<(bool, bool)>
  {
    if v == OK_YES then Some((true, true))
    else if v == OK_NO then Some((false, false))
    else if v == MISS then Some((true, false))
    else if v == BAD then Some((false, true))
    else None
  }

  /** Each verdict names exactly one row of the truth table, and `UNKNOWN`
      and `SKIP` name none. */
  lemma VerdictRoundTrip(accepted: bool, member: bool)
    ensures Meaning(Verdict(accepted, member)) == Some((accepted, member))
    ensures Meaning(UNKNOWN) == None && Meaning(SKIP) == None
  {
  }

  /** `go` in the check script.  Any exception — a missing key in one of the
      dictionaries or a failure while running the validator — is caught and
      gives `UNKNOWN`. */
  function Go(t: Tables, run: Runner, file: string, g: string): (v: string)
    ensures v in {OK_YES, OK_NO, MISS, BAD, UNKNOWN}
    ensures v == UNKNOWN <==>
      file !in t.paths || g !in t.groupFlags || run(t.paths[file], t.groupFlags[g]).Raised? || file !in t.inputGroups
    ensures v != UNKNOWN ==>
      Meaning(v) == Some((run(t.paths[file], t.groupFlags[g]).code == ACCEPT_CODE, g in t.inputGroups[file]))
  {
    if file !in t.paths || g !in t.groupFlags then UNKNOWN
    else
      match run(t.paths[file], t.groupFlags[g])
      case Raised => UNKNOWN
      case Exited(code) =>
        if file !in t.inputGroups then UNKNOWN
        else Verdict(code == ACCEPT_CODE, g in t.inputGroups[file])
  }

  /** `go` in the standalone script, which catches nothing: `None` stands for
      the exception that ends the script.  The cell is painted green, orange
      or red; before returning `BAD` the validator is run a second time to
      print its output. */
  function GoStandalone(t: Tables, run: Runner, file: string, g: string): Option<string>
  {
    if file !in t.paths || g !in t.groupFlags then None
    else
      match run(t.paths[file], t.groupFlags[g])
      case Raised => None
      case Exited(code) =>
        if file !in t.inputGroups then None
        else
          var accepted := code == ACCEPT_CODE;
          var member := g in t.inputGroups[file];
          if accepted == member then Some(Paint(GREEN, if accepted then OK_YES else OK_NO))
          else if accepted then Some(Paint(ORANGE, MISS))
          else
            match run(t.paths[file], t.groupFlags[g])
            case Raised => None
            case Exited(_) => Some(Paint(RED, BAD))
  }

  /** The colour the standalone script paints a verdict in. */
  function ColourOf(v: string): string
  {
    if v == MISS then ORANGE else if v == BAD then RED else GREEN
  }

  /** Both scripts apply the same truth table: the standalone script stops
      exactly where the check script reports `UNKNOWN`, and otherwise paints
      the check script's verdict.  The second run before `BAD` cannot change
      the outcome. */
  lemma GoAgrees(t: Tables, run: Runner, file: string, g: string)
    ensures Go(t, run, file, g) == UNKNOWN ==> GoStandalone(t, run, file, g) == None
    ensures Go(t, run, file, g) != UNKNOWN ==>
      GoStandalone(t, run, file, g) == Some(Paint(ColourOf(Go(t, run, file, g)), Go(t, run, file, g)))
  {
  }

  /** With the colour codes removed, a standalone cell reads as the check
      script's verdict. */
  lemma StandaloneCellReads(t: Tables, run: Runner, file: string, g: string)
    requires GoStandalone(t, run, file, g).Some?
    ensures StripAnsi(GoStandalone(t, run, file, g).value) == Go(t, run, file, g)
  {
    GoAgrees(t, run, file, g);
    var v := Go(t, run, file, g);
    assert ESC !in v;
    StripPainted(ColourOf(v), v);
  }
}
