/** What the walk loop computes, stated per key rather than as a fold: which
    names become groups and with which flags, which groups each input file
    collects, which path it keeps, and which test cases a group lists. */
module DiscoveryFacts {
  import opened Strings
  import opened Discovery

  /** Directory `d` makes `g` a key of `group_to_flags`: its basename is `g`
      and it is a group directory or overrides the flags. */
  predicate NamesGroup(d: Dir, g: string)
  {
    Basename(d.path) == g && (!Structural(g) || HasOverride(d))
  }

  /** The flags a directory that names a group gives it. */
  function FlagsOf(d: Dir): string
  {
    if HasOverride(d) then d.config[FLAGS_KEY] else ""
  }

  /** How many times `f` is listed in `files`. */
  function Count(f: string, files: seq<string>): nat
  {
    if files == [] then 0 else (if files[0] == f then 1 else 0) + Count(f, files[1..])
  }

  /** `n` copies of `g`. */
  function Repeat(g: string, n: nat): seq<string>
  {
    if n == 0 then [] else [g] + Repeat(g, n - 1)
  }

  /** The input files among `files`, in order. */
  function InputsOf(files: seq<string>): seq<string>
  {
    if files == [] then []
    else (if IsInput(files[0]) then [files[0]] else []) + InputsOf(files[1..])
  }

  /** The entry of `f` in `m`, or the empty list when `f` is not a key. */
  function Lookup(m: map<string, seq<string>>, f: string): seq<string>
  {
    if f in m then m[f] else []
  }

  /** The groups an input file `f` collects from directory `d`: the
      directory's basename once for each time `f` is listed there. */
  function GroupsIn(f: string, d: Dir): seq<string>
  {
    if IsInput(f) then Repeat(Basename(d.path), Count(f, d.files)) else []
  }

  /** The groups an input file collects over a walk, in walk order. */
  function GroupsOf(f: string, ds: seq<Dir>): seq<string>
  {
    if ds == [] then [] else GroupsIn(f, ds[0]) + GroupsOf(f, ds[1..])
  }

  /** Directory `d` lists the input file `f`. */
  predicate Lists(d: Dir, f: string)
  {
    IsInput(f) && f in d.files
  }

  lemma Associative(a: seq<string>, b: seq<string>, c: seq<string>)
    ensures a + b + c == a + (b + c)
  {
  }

  // ---- one file name ----

  lemma AddFileGroups(t: Tables, g: string, dir: string, f0: string, f: string)
    ensures f in AddFile(t, g, dir, f0).inputGroups <==> f in t.inputGroups || (IsInput(f) && f == f0)
    ensures Lookup(AddFile(t, g, dir, f0).inputGroups, f)
         == if IsInput(f) && f == f0 then Lookup(t.inputGroups, f) + [g] else Lookup(t.inputGroups, f)
  {
  }

  lemma AddFilePaths(t: Tables, g: string, dir: string, f0: string, f: string)
    ensures f in AddFile(t, g, dir, f0).paths <==> f in t.paths || (IsInput(f) && f == f0)
    ensures IsInput(f) && f == f0 ==> AddFile(t, g, dir, f0).paths[f] == Join(dir, f)
    ensures !(IsInput(f) && f == f0) && f in t.paths ==> AddFile(t, g, dir, f0).paths[f] == t.paths[f]
  {
  }

  lemma AddFileCases(t: Tables, g: string, dir: string, f0: string)
    ensures AddFile(t, g, dir, f0).groupCases
         == if g in t.groupCases && IsInput(f0) then t.groupCases[g := t.groupCases[g] + [f0]] else t.groupCases
  {
  }

  // ---- one directory ----

  lemma {:induction false} AddFilesKeepsFlags(t: Tables, g: string, dir: string, files: seq<string>)
    ensures AddFiles(t, g, dir, files).groupFlags == t.groupFlags
    decreases files
  {
    if files != [] {
      AddFilesKeepsFlags(AddFile(t, g, dir, files[0]), g, dir, files[1..]);
    }
  }

  /** The file loop appends `g` to the groups of every input file once per
      listing, and adds exactly the listed input files as keys. */
  lemma {:induction false} AddFilesGroups(t: Tables, g: string, dir: string, files: seq<string>, f: string)
    ensures f in AddFiles(t, g, dir, files).inputGroups <==> f in t.inputGroups || (IsInput(f) && f in files)
    ensures Lookup(AddFiles(t, g, dir, files).inputGroups, f)
         == Lookup(t.inputGroups, f) + (if IsInput(f) then Repeat(g, Count(f, files)) else [])
    decreases files
  {
    if files == [] {
      assert Lookup(t.inputGroups, f) + [] == Lookup(t.inputGroups, f);
    } else {
      var t1 := AddFile(t, g, dir, files[0]);
      AddFileGroups(t, g, dir, files[0], f);
      AddFilesGroups(t1, g, dir, files[1..], f);
      assert f in files <==> files[0] == f || f in files[1..];
      if IsInput(f) && files[0] == f {
        assert Count(f, files) == Count(f, files[1..]) + 1;
        assert Repeat(g, Count(f, files)) == [g] + Repeat(g, Count(f, files[1..]));
        Associative(Lookup(t.inputGroups, f), [g], Repeat(g, Count(f, files[1..])));
      } else if IsInput(f) {
        assert Count(f, files) == Count(f, files[1..]);
      }
    }
  }

  /** After the file loop, a listed input file has the path in that directory;
      any other file keeps its path. */
  lemma {:induction false} AddFilesPaths(t: Tables, g: string, dir: string, files: seq<string>, f: string)
    ensures f in AddFiles(t, g, dir, files).paths <==> f in t.paths || (IsInput(f) && f in files)
    ensures IsInput(f) && f in files ==> AddFiles(t, g, dir, files).paths[f] == Join(dir, f)
    ensures !(IsInput(f) && f in files) && f in t.paths ==> AddFiles(t, g, dir, files).paths[f] == t.paths[f]
    decreases files
  {
    if files != [] {
      var t1 := AddFile(t, g, dir, files[0]);
      AddFilePaths(t, g, dir, files[0], f);
      AddFilesPaths(t1, g, dir, files[1..], f);
      assert files == [files[0]] + files[1..];
    }
  }

  /** The file loop appends the directory's input files to the test-case list
      of its group, when that group has one. */
  lemma {:induction false} AddFilesCases(t: Tables, g: string, dir: string, files: seq<string>)
    ensures AddFiles(t, g, dir, files).groupCases
         == if g in t.groupCases then t.groupCases[g := t.groupCases[g] + InputsOf(files)] else t.groupCases
    decreases files
  {
    if files == [] {
      if g in t.groupCases {
        assert t.groupCases[g] + [] == t.groupCases[g];
      }
    } else {
      var t1 := AddFile(t, g, dir, files[0]);
      AddFileCases(t, g, dir, files[0]);
      AddFilesCases(t1, g, dir, files[1..]);
      if g in t.groupCases && IsInput(files[0]) {
        assert t.groupCases[g] + [files[0]] + InputsOf(files[1..]) == t.groupCases[g] + InputsOf(files);
      } else if g in t.groupCases {
        assert InputsOf(files) == InputsOf(files[1..]);
      }
    }
  }

  // ---- one visit ----

  lemma EnterKeepsInputs(t: Tables, d: Dir)
    ensures Enter(t, d).inputGroups == t.inputGroups && Enter(t, d).paths == t.paths
  {
    var g := Basename(d.path);
    var t1 := if Structural(g) then t else SetFlags(t, g, "").(groupCases := t.groupCases[g := []]);
    assert t1.inputGroups == t.inputGroups && t1.paths == t.paths;
    assert Enter(t, d) == if HasOverride(d) then SetFlags(t1, g, d.config[FLAGS_KEY]) else t1;
  }

  /** A visit sets the flags of the group its directory names and no others. */
  lemma VisitFlags(t: Tables, d: Dir)
    ensures Visit(t, d).groupFlags
         == if NamesGroup(d, Basename(d.path)) then t.groupFlags[Basename(d.path) := FlagsOf(d)] else t.groupFlags
  {
    AddFilesKeepsFlags(Enter(t, d), Basename(d.path), d.path, d.files);
  }

  lemma VisitGroups(t: Tables, d: Dir, f: string)
    ensures f in Visit(t, d).inputGroups <==> f in t.inputGroups || Lists(d, f)
    ensures Lookup(Visit(t, d).inputGroups, f) == Lookup(t.inputGroups, f) + GroupsIn(f, d)
  {
    var e := Enter(t, d);
    EnterKeepsInputs(t, d);
    AddFilesGroups(e, Basename(d.path), d.path, d.files, f);
    if !IsInput(f) {
      assert Lookup(t.inputGroups, f) + [] == Lookup(t.inputGroups, f);
    }
  }

  lemma VisitPaths(t: Tables, d: Dir, f: string)
    ensures f in Visit(t, d).paths <==> f in t.paths || Lists(d, f)
    ensures Lists(d, f) ==> Visit(t, d).paths[f] == Join(d.path, f)
    ensures !Lists(d, f) && f in t.paths ==> Visit(t, d).paths[f] == t.paths[f]
  {
    var e := Enter(t, d);
    EnterKeepsInputs(t, d);
    AddFilesPaths(e, Basename(d.path), d.path, d.files, f);
  }

  /** A visit to a group directory starts that group's test-case list afresh
      with the directory's input files; other lists are unchanged. */
  lemma VisitCases(t: Tables, d: Dir)
    requires forall h :: h in t.groupCases ==> !Structural(h)
    ensures Visit(t, d).groupCases
         == if Structural(Basename(d.path)) then t.groupCases
            else t.groupCases[Basename(d.path) := InputsOf(d.files)]
  {
    var g := Basename(d.path);
    var e := Enter(t, d);
    assert e.groupCases == if Structural(g) then t.groupCases else t.groupCases[g := []];
    AddFilesCases(e, g, d.path, d.files);
    assert [] + InputsOf(d.files) == InputsOf(d.files);
  }

  // ---- the whole walk, with the visit abstracted ----

  /** A walk that applies `step` to each directory in turn. */
  function Fold(step: (Tables, Dir) -> Tables, t: Tables, ds: seq<Dir>): Tables
    decreases ds
  {
    if ds == [] then t else Fold(step, step(t, ds[0]), ds[1..])
  }

  /** The walk loop is the fold of `Visit`. */
  lemma {:induction false} WalkIsFold(t: Tables, ds: seq<Dir>)
    ensures Walk(t, ds) == Fold(Visit, t, ds)
    decreases ds
  {
    if ds != [] {
      WalkIsFold(Visit(t, ds[0]), ds[1..]);
    }
  }

  /** Directory `d` is a group directory called `g`. */
  predicate GroupDir(d: Dir, g: string)
  {
    Basename(d.path) == g && !Structural(g)
  }

  /** No key of `group_testcases` is `data` or `secret`. */
  predicate NoStructuralCases(t: Tables)
  {
    forall h :: h in t.groupCases ==> !Structural(h)
  }

  /** `step` sets the flags of the group its directory names and no others. */
  ghost predicate SetsFlags(step: (Tables, Dir) -> Tables)
  {
    forall t, d :: step(t, d).groupFlags
      == if NamesGroup(d, Basename(d.path)) then t.groupFlags[Basename(d.path) := FlagsOf(d)] else t.groupFlags
  }

  /** `step` adds the groups its directory gives each input file. */
  ghost predicate CollectsInputs(step: (Tables, Dir) -> Tables)
  {
    forall t, d, f ::
      && (f in step(t, d).inputGroups <==> f in t.inputGroups || Lists(d, f))
      && Lookup(step(t, d).inputGroups, f) == Lookup(t.inputGroups, f) + GroupsIn(f, d)
  }

  /** `step` records the path of each input file its directory lists. */
  ghost predicate RecordsPaths(step: (Tables, Dir) -> Tables)
  {
    forall t, d, f ::
      && (f in step(t, d).paths <==> f in t.paths || Lists(d, f))
      && (Lists(d, f) ==> step(t, d).paths[f] == Join(d.path, f))
      && (!Lists(d, f) && f in t.paths ==> step(t, d).paths[f] == t.paths[f])
  }

  /** `step` starts the test-case list of its group directory afresh. */
  ghost predicate ListsCases(step: (Tables, Dir) -> Tables)
  {
    forall t, d :: NoStructuralCases(t) ==>
      step(t, d).groupCases == if Structural(Basename(d.path)) then t.groupCases
                               else t.groupCases[Basename(d.path) := InputsOf(d.files)]
  }

  /** A visit is such a step. */
  lemma VisitSteps()
    ensures SetsFlags(Visit) && CollectsInputs(Visit) && RecordsPaths(Visit) && ListsCases(Visit)
  {
    forall t, d
      ensures Visit(t, d).groupFlags
        == if NamesGroup(d, Basename(d.path)) then t.groupFlags[Basename(d.path) := FlagsOf(d)] else t.groupFlags
    {
      VisitFlags(t, d);
    }
    forall t, d, f
      ensures f in Visit(t, d).inputGroups <==> f in t.inputGroups || Lists(d, f)
      ensures Lookup(Visit(t, d).inputGroups, f) == Lookup(t.inputGroups, f) + GroupsIn(f, d)
    {
      VisitGroups(t, d, f);
    }
    forall t, d, f
      ensures f in Visit(t, d).paths <==> f in t.paths || Lists(d, f)
      ensures Lists(d, f) ==> Visit(t, d).paths[f] == Join(d.path, f)
      ensures !Lists(d, f) && f in t.paths ==> Visit(t, d).paths[f] == t.paths[f]
    {
      VisitPaths(t, d, f);
    }
    forall t, d | NoStructuralCases(t)
      ensures Visit(t, d).groupCases == if Structural(Basename(d.path)) then t.groupCases
                                        else t.groupCases[Basename(d.path) := InputsOf(d.files)]
    {
      VisitCases(t, d);
    }
  }

  /** Position `i` of a walk is position `i - 1` of its tail. */
  lemma TailShift(ds: seq<Dir>, i: int)
    requires 0 < i < |ds|
    ensures ds[1..][i - 1] == ds[i] && ds[1..][i - 1 + 1..] == ds[i + 1..]
  {
  }

  // ---- groups and flags ----

  lemma {:induction false} FoldGroups(step: (Tables, Dir) -> Tables, t: Tables, ds: seq<Dir>, g: string)
    requires SetsFlags(step)
    ensures g in Fold(step, t, ds).groupFlags <==> g in t.groupFlags || exists d :: d in ds && NamesGroup(d, g)
    decreases ds
  {
    if ds != [] {
      var t1 := step(t, ds[0]);
      assert g in t1.groupFlags <==> g in t.groupFlags || NamesGroup(ds[0], g);
      FoldGroups(step, t1, ds[1..], g);
      assert forall d :: d in ds <==> d == ds[0] || d in ds[1..];
    }
  }

  lemma {:induction false} FoldKeepsFlag(step: (Tables, Dir) -> Tables, t: Tables, ds: seq<Dir>, g: string)
    requires SetsFlags(step)
    requires g in t.groupFlags
    requires forall d :: d in ds ==> !NamesGroup(d, g)
    ensures g in Fold(step, t, ds).groupFlags && Fold(step, t, ds).groupFlags[g] == t.groupFlags[g]
    decreases ds
  {
    if ds != [] {
      var t1 := step(t, ds[0]);
      assert !NamesGroup(ds[0], g);
      assert g in t1.groupFlags && t1.groupFlags[g] == t.groupFlags[g];
      FoldKeepsFlag(step, t1, ds[1..], g);
    }
  }

  lemma {:induction false} FoldFlagsFromLast(step: (Tables, Dir) -> Tables, t: Tables, ds: seq<Dir>, i: int, g: string)
    requires SetsFlags(step)
    requires 0 <= i < |ds| && NamesGroup(ds[i], g)
    requires forall d :: d in ds[i + 1..] ==> !NamesGroup(d, g)
    ensures g in Fold(step, t, ds).groupFlags && Fold(step, t, ds).groupFlags[g] == FlagsOf(ds[i])
    decreases ds
  {
    var t1 := step(t, ds[0]);
    if i == 0 {
      assert g in t1.groupFlags && t1.groupFlags[g] == FlagsOf(ds[0]);
      FoldKeepsFlag(step, t1, ds[1..], g);
    } else {
      TailShift(ds, i);
      FoldFlagsFromLast(step, t1, ds[1..], i - 1, g);
    }
  }

  /** The groups of the problem are exactly the basenames of the walked
      directories other than `data` and `secret`, plus `data` or `secret`
      when one of them overrides the flags in its `testdata.yaml`. */
  lemma DiscoveredGroups(ds: seq<Dir>, g: string)
    ensures g in Discover(ds).groupFlags <==> exists d :: d in ds && NamesGroup(d, g)
  {
    WalkIsFold(Empty, ds);
    VisitSteps();
    FoldGroups(Visit, Empty, ds, g);
  }

  /** A group's flags are `input_validator_flags` from the `testdata.yaml` of
      the last directory naming it, or empty when that directory overrides
      nothing. */
  lemma FlagsFromLastDirectory(ds: seq<Dir>, i: int, g: string)
    requires 0 <= i < |ds| && NamesGroup(ds[i], g)
    requires forall d :: d in ds[i + 1..] ==> !NamesGroup(d, g)
    ensures g in Discover(ds).groupFlags && Discover(ds).groupFlags[g] == FlagsOf(ds[i])
  {
    WalkIsFold(Empty, ds);
    VisitSteps();
    FoldFlagsFromLast(Visit, Empty, ds, i, g);
  }

  // ---- inputs and their groups ----

  lemma {:induction false} FoldInputs(step: (Tables, Dir) -> Tables, t: Tables, ds: seq<Dir>, f: string)
    requires CollectsInputs(step)
    ensures f in Fold(step, t, ds).inputGroups <==> f in t.inputGroups || exists d :: d in ds && Lists(d, f)
    ensures Lookup(Fold(step, t, ds).inputGroups, f) == Lookup(t.inputGroups, f) + GroupsOf(f, ds)
    decreases ds
  {
    if ds != [] {
      var t1 := step(t, ds[0]);
      assert f in t1.inputGroups <==> f in t.inputGroups || Lists(ds[0], f);
      assert Lookup(t1.inputGroups, f) == Lookup(t.inputGroups, f) + GroupsIn(f, ds[0]);
      FoldInputs(step, t1, ds[1..], f);
      assert forall d :: d in ds <==> d == ds[0] || d in ds[1..];
      assert GroupsOf(f, ds) == GroupsIn(f, ds[0]) + GroupsOf(f, ds[1..]);
      Associative(Lookup(t.inputGroups, f), GroupsIn(f, ds[0]), GroupsOf(f, ds[1..]));
    } else {
      assert Lookup(t.inputGroups, f) + [] == Lookup(t.inputGroups, f);
    }
  }

  /** The input files are exactly the `.in` names listed in some walked
      directory, and each collects the basename of every directory listing
      it, once per listing, in walk order — also `data` or `secret` in the
      standalone script, where such a file is not an error. */
  lemma DiscoveredInputs(ds: seq<Dir>, f: string)
    ensures f in Discover(ds).inputGroups <==> exists d :: d in ds && Lists(d, f)
    ensures f in Discover(ds).inputGroups ==> Discover(ds).inputGroups[f] == GroupsOf(f, ds)
  {
    WalkIsFold(Empty, ds);
    VisitSteps();
    FoldInputs(Visit, Empty, ds, f);
    assert Lookup(Empty.inputGroups, f) == [];
    assert [] + GroupsOf(f, ds) == GroupsOf(f, ds);
  }

  // ---- paths ----

  lemma {:induction false} FoldKeepsPath(step: (Tables, Dir) -> Tables, t: Tables, ds: seq<Dir>, f: string)
    requires RecordsPaths(step)
    requires f in t.paths
    requires forall d :: d in ds ==> !Lists(d, f)
    ensures f in Fold(step, t, ds).paths && Fold(step, t, ds).paths[f] == t.paths[f]
    decreases ds
  {
    if ds != [] {
      var t1 := step(t, ds[0]);
      assert !Lists(ds[0], f);
      assert f in t1.paths && t1.paths[f] == t.paths[f];
      FoldKeepsPath(step, t1, ds[1..], f);
    }
  }

  lemma {:induction false} FoldPathFromLast(step: (Tables, Dir) -> Tables, t: Tables, ds: seq<Dir>, i: int, f: string)
    requires RecordsPaths(step)
    requires 0 <= i < |ds| && Lists(ds[i], f)
    requires forall d :: d in ds[i + 1..] ==> !Lists(d, f)
    ensures f in Fold(step, t, ds).paths && Fold(step, t, ds).paths[f] == Join(ds[i].path, f)
    decreases ds
  {
    var t1 := step(t, ds[0]);
    if i == 0 {
      assert f in t1.paths && t1.paths[f] == Join(ds[0].path, f);
      FoldKeepsPath(step, t1, ds[1..], f);
    } else {
      TailShift(ds, i);
      FoldPathFromLast(step, t1, ds[1..], i - 1, f);
    }
  }

  /** The path kept for an input file is the one in the last directory that
      lists it. */
  lemma PathOfLastDirectory(ds: seq<Dir>, i: int, f: string)
    requires 0 <= i < |ds| && Lists(ds[i], f)
    requires forall d :: d in ds[i + 1..] ==> !Lists(d, f)
    ensures f in Discover(ds).paths && Discover(ds).paths[f] == Join(ds[i].path, f)
  {
    WalkIsFold(Empty, ds);
    VisitSteps();
    FoldPathFromLast(Visit, Empty, ds, i, f);
  }

  // ---- test cases of a group ----

  lemma {:induction false} FoldKeepsCases(step: (Tables, Dir) -> Tables, t: Tables, ds: seq<Dir>, g: string)
    requires ListsCases(step)
    requires NoStructuralCases(t)
    requires g in t.groupCases
    requires forall d :: d in ds ==> !GroupDir(d, g)
    ensures g in Fold(step, t, ds).groupCases && Fold(step, t, ds).groupCases[g] == t.groupCases[g]
    decreases ds
  {
    if ds != [] {
      var t1 := step(t, ds[0]);
      assert !GroupDir(ds[0], g);
      assert NoStructuralCases(t1) && g in t1.groupCases && t1.groupCases[g] == t.groupCases[g];
      FoldKeepsCases(step, t1, ds[1..], g);
    }
  }

  lemma {:induction false} FoldCasesFromLast(step: (Tables, Dir) -> Tables, t: Tables, ds: seq<Dir>, i: int, g: string)
    requires ListsCases(step)
    requires NoStructuralCases(t)
    requires 0 <= i < |ds| && GroupDir(ds[i], g)
    requires forall d :: d in ds[i + 1..] ==> !GroupDir(d, g)
    ensures g in Fold(step, t, ds).groupCases && Fold(step, t, ds).groupCases[g] == InputsOf(ds[i].files)
    decreases ds
  {
    var t1 := step(t, ds[0]);
    assert NoStructuralCases(t1);
    if i == 0 {
      assert g in t1.groupCases && t1.groupCases[g] == InputsOf(ds[0].files);
      FoldKeepsCases(step, t1, ds[1..], g);
    } else {
      TailShift(ds, i);
      FoldCasesFromLast(step, t1, ds[1..], i - 1, g);
    }
  }

  /** The test cases of a group are the input files of the last group
      directory with that basename: a later directory with the same basename
      starts the list again. */
  lemma CasesOfLastDirectory(ds: seq<Dir>, i: int, g: string)
    requires 0 <= i < |ds| && GroupDir(ds[i], g)
    requires forall d :: d in ds[i + 1..] ==> !GroupDir(d, g)
    ensures g in Discover(ds).groupCases && Discover(ds).groupCases[g] == InputsOf(ds[i].files)
  {
    WalkIsFold(Empty, ds);
    VisitSteps();
    FoldCasesFromLast(Visit, Empty, ds, i, g);
  }
}
