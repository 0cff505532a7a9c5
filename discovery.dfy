/** The directory walk that both scripts run over `<problem>/data`.  Every
    directory that `os.walk` yields, in the order it yields them, updates the
    dictionaries that map groups to validator flags, input files to the
    groups they occur in, groups to their input files, and input files to
    their paths.  The walk itself and the YAML parser are outside the model:
    the walk is given as the sequence of `Dir` records it produces. */
module Discovery {
  import opened Strings

  const DATA: string := "data"
  const SECRET: string := "secret"
  const CONFIG_FILE: string := "testdata.yaml"
  const FLAGS_KEY: string := "input_validator_flags"
  const INPUT_SUFFIX: string := ".in"

  /** One entry of `os.walk`: the directory's path, the names of the files
      directly in it, and the parsed content of its `testdata.yaml` (consulted
      only when that file is among `files`). */
  datatype Dir = Dir(path: string, files: seq<string>, config: map<string, string>)

  /** The dictionaries the walk fills.  A Python dict remembers the order in
      which its keys were first inserted; `groupKeys` and `inputKeys` keep that
      order for `group_to_flags` and `tc_to_groups`, whose keys are sorted
      afterwards. */
  datatype Tables = Tables(
    groupFlags: map<string, string>,        // group_to_flags
    groupKeys: seq<string>,                 // group_to_flags.keys()
    inputGroups: map<string, seq<string>>,  // tc_to_groups (infiles in the standalone script)
    inputKeys: seq<string>,                 // tc_to_groups.keys()
    groupCases: map<string, seq<string>>,   // group_testcases
    paths: map<string, string>)             // infiles_path

  const Empty: Tables := Tables(map[], [], map[], [], map[], map[])

  /** The key order of `group_to_flags` lists each of its keys once. */
  ghost predicate GroupKeysMatch(t: Tables)
  {
    Distinct(t.groupKeys) && forall g :: g in t.groupKeys <==> g in t.groupFlags
  }

  /** The key order of `tc_to_groups` lists each of its keys once, and every
      input file has a path. */
  ghost predicate InputKeysMatch(t: Tables)
  {
    && Distinct(t.inputKeys)
    && (forall f :: f in t.inputKeys <==> f in t.inputGroups)
    && t.paths.Keys == t.inputGroups.Keys
  }

  /** Every group with a test-case list has flags, and a file listed under a
      group has that group among its own groups. */
  ghost predicate CasesMatch(t: Tables)
  {
    && t.groupCases.Keys <= t.groupFlags.Keys
    && forall g, f :: g in t.groupCases && f in t.groupCases[g] ==> f in t.inputGroups && g in t.inputGroups[f]
  }

  /** The consistency the walk keeps. */
  ghost predicate Valid(t: Tables)
  {
    GroupKeysMatch(t) && InputKeysMatch(t) && CasesMatch(t)
  }

  /** `data` and `secret` are structural directories, not groups. */
  predicate Structural(g: string)
  {
    g == DATA || g == SECRET
  }

  /** The directory has a `testdata.yaml` that sets the validator flags. */
  predicate HasOverride(d: Dir)
  {
    CONFIG_FILE in d.files && FLAGS_KEY in d.config
  }

  predicate IsInput(f: string)
  {
    EndsWith(f, INPUT_SUFFIX)
  }

  /** `group_to_flags[g] = v`: a new key goes to the end of the key order. */
  function SetFlags(t: Tables, g: string, v: string): Tables
  {
    t.(groupFlags := t.groupFlags[g := v],
       groupKeys := if g in t.groupFlags then t.groupKeys else t.groupKeys + [g])
  }

  /** One iteration of the loop over the file names of directory `dir`,
      whose basename is `g`. */
  function AddFile(t: Tables, g: string, dir: string, f: string): Tables
  {
    if !IsInput(f) then t
    else
      var t1 := if f in t.inputGroups then t
                else t.(inputGroups := t.inputGroups[f := []], inputKeys := t.inputKeys + [f]);
      t1.(groupCases := if g in t1.groupCases then t1.groupCases[g := t1.groupCases[g] + [f]] else t1.groupCases,
          inputGroups := t1.inputGroups[f := t1.inputGroups[f] + [g]],
          paths := t1.paths[f := Join(dir, f)])
  }

  /** The whole loop over the file names of one directory. */
  function AddFiles(t: Tables, g: string, dir: string, files: seq<string>): Tables
    decreases files
  {
    if files == [] then t else AddFiles(AddFile(t, g, dir, files[0]), g, dir, files[1..])
  }

  /** The tables before the file loop of directory `d`: a group directory gets
      empty flags and an empty test-case list, and an override in its
      `testdata.yaml` then replaces the flags. */
  function Enter(t: Tables, d: Dir): Tables
  {
    var g := Basename(d.path);
    var t1 := if Structural(g) then t else SetFlags(t, g, "").(groupCases := t.groupCases[g := []]);
    if HasOverride(d) then SetFlags(t1, g, d.config[FLAGS_KEY]) else t1
  }

  /** One iteration of the walk loop. */
  function Visit(t: Tables, d: Dir): Tables
  {
    AddFiles(Enter(t, d), Basename(d.path), d.path, d.files)
  }

  /** The tables after walking the directories `ds` in order, starting from
      the tables `t`. */
  function Walk(t: Tables, ds: seq<Dir>): Tables
    decreases ds
  {
    if ds == [] then t else Walk(Visit(t, ds[0]), ds[1..])
  }

  /** The tables after the whole walk. */
  function Discover(ds: seq<Dir>): Tables
  {
    Walk(Empty, ds)
  }

  lemma AppendKeepsDistinct(s: seq<string>, x: string)
    requires Distinct(s) && x !in s
    ensures Distinct(s + [x])
  {
  }

  lemma SetFlagsKeepsValid(t: Tables, g: string, v: string)
    requires Valid(t)
    ensures Valid(SetFlags(t, g, v))
  {
    if g !in t.groupFlags {
      AppendKeepsDistinct(t.groupKeys, g);
    }
  }

  lemma AddFileKeepsInputKeys(t: Tables, g: string, dir: string, f: string)
    requires InputKeysMatch(t)
    ensures InputKeysMatch(AddFile(t, g, dir, f))
  {
    if IsInput(f) && f !in t.inputGroups {
      AppendKeepsDistinct(t.inputKeys, f);
    }
  }

  lemma AddFileKeepsCases(t: Tables, g: string, dir: string, f: string)
    requires CasesMatch(t)
    ensures CasesMatch(AddFile(t, g, dir, f))
  {
    if IsInput(f) {
      var r := AddFile(t, g, dir, f);
      forall h, e | h in r.groupCases && e in r.groupCases[h]
        ensures e in r.inputGroups && h in r.inputGroups[e]
      {
        if h != g || e != f {
          assert e in t.groupCases[h];
        }
      }
    }
  }

  lemma AddFileKeepsValid(t: Tables, g: string, dir: string, f: string)
    requires Valid(t)
    ensures Valid(AddFile(t, g, dir, f))
  {
    AddFileKeepsInputKeys(t, g, dir, f);
    AddFileKeepsCases(t, g, dir, f);
  }

  lemma {:induction false} AddFilesKeepsValid(t: Tables, g: string, dir: string, files: seq<string>)
    requires Valid(t)
    ensures Valid(AddFiles(t, g, dir, files))
    decreases files
  {
    if files != [] {
      AddFileKeepsValid(t, g, dir, files[0]);
      AddFilesKeepsValid(AddFile(t, g, dir, files[0]), g, dir, files[1..]);
    }
  }

  lemma ResetKeepsValid(t: Tables, g: string)
    requires Valid(t) && g in t.groupFlags
    ensures Valid(t.(groupCases := t.groupCases[g := []]))
  {
    var r := t.(groupCases := t.groupCases[g := []]);
    assert GroupKeysMatch(r) && InputKeysMatch(r);
    forall h, e | h in r.groupCases && e in r.groupCases[h]
      ensures e in r.inputGroups && h in r.inputGroups[e]
    {
      assert h != g;
      assert e in t.groupCases[h];
    }
  }

  lemma EnterKeepsValid(t: Tables, d: Dir)
    requires Valid(t)
    ensures Valid(Enter(t, d))
  {
    var g := Basename(d.path);
    if !Structural(g) {
      SetFlagsKeepsValid(t, g, "");
      ResetKeepsValid(SetFlags(t, g, ""), g);
    }
    var t1 := if Structural(g) then t else SetFlags(t, g, "").(groupCases := t.groupCases[g := []]);
    if HasOverride(d) {
      SetFlagsKeepsValid(t1, g, d.config[FLAGS_KEY]);
    }
  }

  lemma VisitKeepsValid(t: Tables, d: Dir)
    requires Valid(t)
    ensures Valid(Visit(t, d))
  {
    EnterKeepsValid(t, d);
    AddFilesKeepsValid(Enter(t, d), Basename(d.path), d.path, d.files);
  }

  lemma {:induction false} WalkKeepsValid(t: Tables, ds: seq<Dir>)
    requires Valid(t)
    ensures Valid(Walk(t, ds))
    decreases ds
  {
    if ds != [] {
      VisitKeepsValid(t, ds[0]);
      WalkKeepsValid(Visit(t, ds[0]), ds[1..]);
    }
  }

  /** The walk keeps the tables consistent. */
  lemma DiscoverValid(ds: seq<Dir>)
    ensures Valid(Discover(ds))
  {
    WalkKeepsValid(Empty, ds);
  }

  /** The check script appends to `group_testcases[group]` for every input
      file, and that entry exists only for directories not named `data` or
      `secret`: an input file directly in one of those stops the script. */
  predicate NoLooseInputs(ds: seq<Dir>)
  {
    forall d :: d in ds && Structural(Basename(d.path)) ==> forall f :: f in d.files ==> !IsInput(f)
  }

  /** The walk loop of `validate_problem` in the check script. */
  method WalkCheck(ds: seq<Dir>) returns (t: Tables)
    requires NoLooseInputs(ds)
    ensures t == Discover(ds)
  {
    t := Empty;
    var i := 0;
    while i < |ds|
      invariant 0 <= i <= |ds|
      invariant Walk(t, ds[i..]) == Discover(ds)
    {
      var d := ds[i];
      assert ds[i..][1..] == ds[i + 1..];
      ghost var visited := Visit(t, d);
      var group := Basename(d.path);
      if group != DATA && group != SECRET {
        t := t.(groupFlags := t.groupFlags[group := ""],
                groupKeys := if group in t.groupFlags then t.groupKeys else t.groupKeys + [group]);
        t := t.(groupCases := t.groupCases[group := []]);
      }
      if CONFIG_FILE in d.files && FLAGS_KEY in d.config {
        t := t.(groupFlags := t.groupFlags[group := d.config[FLAGS_KEY]],
                groupKeys := if group in t.groupFlags then t.groupKeys else t.groupKeys + [group]);
      }
      assert d in ds;
      t := ScanFilesCheck(t, group, d);
      i := i + 1;
    }
  }

  /** The inner loop of the check script's walk over the file names of one
      directory.  An input file needs its group's entry in `group_testcases`. */
  method ScanFilesCheck(t0: Tables, group: string, d: Dir) returns (t: Tables)
    requires Structural(group) ==> forall f :: f in d.files ==> !IsInput(f)
    requires !Structural(group) ==> group in t0.groupCases
    ensures t == AddFiles(t0, group, d.path, d.files)
  {
    t := t0;
    var j := 0;
    while j < |d.files|
      invariant 0 <= j <= |d.files|
      invariant AddFiles(t, group, d.path, d.files[j..]) == AddFiles(t0, group, d.path, d.files)
      invariant !Structural(group) ==> group in t.groupCases
    {
      var file := d.files[j];
      assert d.files[j..][1..] == d.files[j + 1..];
      if EndsWith(file, INPUT_SUFFIX) {
        if file !in t.inputGroups {
          t := t.(inputGroups := t.inputGroups[file := []], inputKeys := t.inputKeys + [file]);
        }
        t := t.(groupCases := t.groupCases[group := t.groupCases[group] + [file]],
                inputGroups := t.inputGroups[file := t.inputGroups[file] + [group]],
                paths := t.paths[file := Join(d.path, file)]);
      }
      j := j + 1;
    }
  }

  /** The tables without `group_testcases`, which the standalone script does
      not keep. */
  function WithoutCases(t: Tables): Tables
  {
    t.(groupCases := map[])
  }

  /** Leaving `group_testcases` out before a file loop or after it gives the
      same other dictionaries. */
  lemma {:induction false} AddFilesWithoutCases(t: Tables, g: string, dir: string, files: seq<string>)
    ensures WithoutCases(AddFiles(t, g, dir, files)) == AddFiles(WithoutCases(t), g, dir, files)
    decreases files
  {
    if files != [] {
      AddFilesWithoutCases(AddFile(t, g, dir, files[0]), g, dir, files[1..]);
    }
  }

  /** The other dictionaries after a visit do not depend on `group_testcases`
      before it. */
  lemma VisitWithoutCases(t: Tables, d: Dir)
    ensures WithoutCases(Visit(t, d)) == WithoutCases(Visit(WithoutCases(t), d))
  {
    var g := Basename(d.path);
    AddFilesWithoutCases(Enter(t, d), g, d.path, d.files);
    AddFilesWithoutCases(Enter(WithoutCases(t), d), g, d.path, d.files);
    EnterWithoutCases(t, d);
  }

  lemma EnterWithoutCases(t: Tables, d: Dir)
    ensures WithoutCases(Enter(t, d)) == WithoutCases(Enter(WithoutCases(t), d))
  {
    var g, u := Basename(d.path), WithoutCases(t);
    var t1 := if Structural(g) then t else SetFlags(t, g, "").(groupCases := t.groupCases[g := []]);
    var u1 := if Structural(g) then u else SetFlags(u, g, "").(groupCases := u.groupCases[g := []]);
    assert WithoutCases(t1) == WithoutCases(u1);
    if HasOverride(d) {
      assert WithoutCases(SetFlags(t1, g, d.config[FLAGS_KEY])) == WithoutCases(SetFlags(u1, g, d.config[FLAGS_KEY]));
    }
  }

  /** One iteration of the standalone walk, seen through `WithoutCases`. */
  lemma StandaloneStep(before: Tables, t: Tables, d: Dir, rest: seq<Dir>)
    requires t == AddFiles(WithoutCases(Enter(before, d)), Basename(d.path), d.path, d.files)
    ensures WithoutCases(Walk(t, rest)) == WithoutCases(Walk(Visit(before, d), rest))
  {
    AddFilesWithoutCases(Enter(before, d), Basename(d.path), d.path, d.files);
    WalkWithoutCases(t, rest);
    WalkWithoutCases(Visit(before, d), rest);
  }

  /** The other dictionaries after a walk do not depend on `group_testcases`
      before it. */
  lemma {:induction false} WalkWithoutCases(t: Tables, ds: seq<Dir>)
    ensures WithoutCases(Walk(t, ds)) == WithoutCases(Walk(WithoutCases(t), ds))
    decreases ds
  {
    if ds != [] {
      VisitWithoutCases(t, ds[0]);
      WalkWithoutCases(Visit(t, ds[0]), ds[1..]);
      WalkWithoutCases(Visit(WithoutCases(t), ds[0]), ds[1..]);
    }
  }

  /** The walk loop of the standalone script: the same dictionaries except
      `group_testcases`, so an input file in `data` or `secret` is accepted and
      gets that name as one of its groups. */
  method WalkStandalone(ds: seq<Dir>) returns (t: Tables)
    ensures t == WithoutCases(Discover(ds))
  {
    t := Empty;
    assert ds[0..] == ds;
    var i := 0;
    while i < |ds|
      invariant 0 <= i <= |ds|
      invariant t.groupCases == map[]
      invariant WithoutCases(Walk(t, ds[i..])) == WithoutCases(Discover(ds))
    {
      var d := ds[i];
      assert ds[i..][1..] == ds[i + 1..];
      ghost var before := t;
      var group := Basename(d.path);
      ghost var entered := before;
      if group != DATA && group != SECRET {
        t := t.(groupFlags := t.groupFlags[group := ""],
                groupKeys := if group in t.groupFlags then t.groupKeys else t.groupKeys + [group]);
        entered := SetFlags(entered, group, "").(groupCases := entered.groupCases[group := []]);
      }
      assert t == WithoutCases(entered);
      if CONFIG_FILE in d.files && FLAGS_KEY in d.config {
        t := t.(groupFlags := t.groupFlags[group := d.config[FLAGS_KEY]],
                groupKeys := if group in t.groupFlags then t.groupKeys else t.groupKeys + [group]);
        entered := SetFlags(entered, group, d.config[FLAGS_KEY]);
      }
      assert entered == Enter(before, d);
      assert t == WithoutCases(entered);
      t := ScanFilesStandalone(t, group, d);
      StandaloneStep(before, t, d, ds[i + 1..]);
      assert Walk(before, ds[i..]) == Walk(Visit(before, d), ds[i + 1..]);
      assert WithoutCases(Walk(t, ds[i + 1..])) == WithoutCases(Discover(ds));
      i := i + 1;
    }
    assert ds[i..] == [];
  }

  /** The inner loop of the standalone script's walk, which has no
      `group_testcases` to extend. */
  method ScanFilesStandalone(t0: Tables, group: string, d: Dir) returns (t: Tables)
    requires t0.groupCases == map[]
    ensures t.groupCases == map[]
    ensures t == AddFiles(t0, group, d.path, d.files)
  {
    t := t0;
    var j := 0;
    while j < |d.files|
      invariant 0 <= j <= |d.files|
      invariant t.groupCases == map[]
      invariant AddFiles(t, group, d.path, d.files[j..]) == AddFiles(t0, group, d.path, d.files)
    {
      var file := d.files[j];
      assert d.files[j..][1..] == d.files[j + 1..];
      if EndsWith(file, INPUT_SUFFIX) {
        if file !in t.inputGroups {
          t := t.(inputGroups := t.inputGroups[file := []], inputKeys := t.inputKeys + [file]);
        }
        t := t.(inputGroups := t.inputGroups[file := t.inputGroups[file] + [group]],
                paths := t.paths[file := Join(d.path, file)]);
      }
      j := j + 1;
    }
  }
}
