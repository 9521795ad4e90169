/**
 * `renderers/renderer.py`: the `Renderer` that prepares a build directory
 * mirroring the source and decides the arguments passed to quarto. The
 * object's state is reduced to what the modelled operations read and write:
 * the source, build and working directories, the formats, the pass-through
 * quarto arguments and the output directory with its `auto_output_dir` flag.
 */
module Renderer {
  import opened Wrappers
  import opened Text
  import opened Paths
  import opened FileSystem
  import opened PathUtils
  import opened Settings
  import opened Patterns
  import opened Source
  import opened Outputs
  import opened PreRendering
  import Container
  import Splice
  import Mirror
  import Descriptor
  import ImgCopy
  import ExcelCore
  import ExcelOutputs

  /** `PREVENT_OUTPUT_DIR_MIRROR_FILE` and the text written into it. */
  const PreventFile: string := ".prevent_output_dir_mirror"
  const PreventText: string := "DO NOT REMOVE THIS FILE. IT PREVENTS OUTPUT MIRRORING."

  /** The flags `quarto_log_xxx_cmd` passes on, in the order it looks for them. */
  const LogFlags: seq<string> := ["--log-level", "--log", "--log-format"]

  // ---------------------------------------------------------------------
  // Project types

  /** The list `_enforce_list` makes of a value that is not None. */
  function Listed(v: Value): seq<string>
    requires !v.Absent?
  {
    if v.AList? then v.items else Split(v.text, ',')
  }

  /** `validate_projet_types`: the requested types or the default ones, `user` only alone. */
  function ValidateProjectTypes(v: Value): (r: Result<seq<string>>)
    ensures r.Ok? ==> r.value != [] && Unique(r.value)
    ensures r.Ok? && "user" in r.value ==> r.value == ["user"]
    ensures r.Err? ==> r.error.ValueError?
  {
    var defaults := GetDefaultProjectTypes();
    DefaultTypes();
    var result := OrElse(EnforceList(v), defaults);
    UserCheck(result);
    if "user" in result && |result| > 1 then Err(ValueError("user")) else Ok(result)
  }

  lemma DefaultTypes()
    ensures GetDefaultProjectTypes() == ["default"]
  {
    Defaults();
  }

  /** In a list without repetitions, `user` has company exactly when the list is longer than one. */
  lemma UserCheck(result: seq<string>)
    requires Unique(result)
    ensures "user" in result ==> (|result| > 1 <==> exists x :: x in result && x != "user")
    ensures "user" in result && |result| <= 1 ==> result == ["user"]
  {
    if "user" in result && |result| > 1 {
      assert result[0] != "user" || result[1] != "user";
      assert result[0] in result && result[1] in result;
    }
  }

  /** With nothing requested, the default type `default` is used. */
  lemma NoTypesGivesDefault(v: Value)
    requires v.Absent? || v == AList([])
    ensures ValidateProjectTypes(v) == Ok(["default"])
  {
    DefaultTypes();
  }

  /**
   * With some types requested, the call fails exactly when `user` is among
   * them together with another type, and otherwise keeps the requested types.
   */
  lemma RequestedTypes(v: Value)
    requires !v.Absent? && Listed(v) != []
    ensures ValidateProjectTypes(v).Err? <==> "user" in Listed(v) && exists x :: x in Listed(v) && x != "user"
    ensures ValidateProjectTypes(v).Ok? ==> forall x :: x in ValidateProjectTypes(v).value <==> x in Listed(v)
  {
    var result := EnforceList(v).value;
    assert forall x :: x in result <==> x in Listed(v);
    assert Listed(v)[0] in result;
    assert OrElse(EnforceList(v), GetDefaultProjectTypes()) == result;
    UserCheck(result);
    assert (exists x :: x in result && x != "user") <==> (exists x :: x in Listed(v) && x != "user");
    assert ValidateProjectTypes(v) == if "user" in result && |result| > 1 then Err(ValueError("user")) else Ok(result);
  }

  // ---------------------------------------------------------------------
  // Output directory

  /** The directory `validate_output_dir` returns and the `auto_output_dir` it leaves. */
  datatype OutputDirChoice = OutputDirChoice(dir: Path, auto: bool)

  /**
   * `validate_output_dir(arg)` given the previous output dir and flag. The
   * argument is the string of the path (`str(Path(""))` is "."), an empty
   * string being falsy.
   */
  function ChooseOutputDir(sourceDir: Path, cwd: Path, arg: Option<string>, prev: Option<Path>, prevAuto: bool): (r: OutputDirChoice)
    requires Normal(sourceDir) && Normal(cwd)
    requires !prevAuto ==> prev.Some?
    ensures r.dir != sourceDir
    ensures r.auto ==> arg.None?
  {
    assert |sourceDir + [DefaultOutputDirName]| != |sourceDir|;
    var given := if arg.Some? && arg.value != "" then Some(ResolvePath(Parse(arg.value), Some(sourceDir), cwd)) else None;
    var result := if given.Some? then given.value else cwd + [DefaultOutputDirName];
    var kept := if !prevAuto && prev.value != result then prev.value else result;
    if kept == sourceDir then OutputDirChoice(sourceDir + [DefaultOutputDirName], false)
    else OutputDirChoice(kept, arg.None?)
  }

  lemma DefaultNameNormal(p: Path)
    requires Normal(p)
    ensures Normal(p + [DefaultOutputDirName])
  {
    DescendNormal(p, [DefaultOutputDirName]);
  }

  /**
   * The chosen directory is resolved and never the source directory; it is
   * automatic only when no argument was given; an earlier explicit choice
   * other than the source directory is kept whatever the argument.
   */
  lemma ChoiceFacts(sourceDir: Path, cwd: Path, arg: Option<string>, prev: Option<Path>, prevAuto: bool)
    requires Normal(sourceDir) && Normal(cwd)
    requires !prevAuto ==> prev.Some?
    requires prev.Some? ==> Normal(prev.value)
    ensures Normal(ChooseOutputDir(sourceDir, cwd, arg, prev, prevAuto).dir)
    ensures ChooseOutputDir(sourceDir, cwd, arg, prev, prevAuto).dir != sourceDir
    ensures ChooseOutputDir(sourceDir, cwd, arg, prev, prevAuto).auto ==> arg.None?
    ensures !prevAuto && prev.value != sourceDir ==> ChooseOutputDir(sourceDir, cwd, arg, prev, prevAuto).dir == prev.value
  {
    DefaultNameNormal(sourceDir);
    DefaultNameNormal(cwd);
    assert |sourceDir + [DefaultOutputDirName]| != |sourceDir|;
  }

  /** A first explicit argument is resolved against the source directory and makes the choice explicit. */
  lemma ExplicitChoice(sourceDir: Path, cwd: Path, s: string, prev: Option<Path>)
    requires Normal(sourceDir) && Normal(cwd) && s != ""
    requires ResolvePath(Parse(s), Some(sourceDir), cwd) != sourceDir
    ensures ChooseOutputDir(sourceDir, cwd, Some(s), prev, true) == OutputDirChoice(ResolvePath(Parse(s), Some(sourceDir), cwd), false)
  {
  }

  /** Without an argument, the first choice is `docgen_output` in the working directory, automatic. */
  lemma DefaultChoice(sourceDir: Path, cwd: Path, prev: Option<Path>)
    requires Normal(sourceDir) && Normal(cwd)
    requires cwd + [DefaultOutputDirName] != sourceDir
    ensures ChooseOutputDir(sourceDir, cwd, None, prev, true) == OutputDirChoice(cwd + [DefaultOutputDirName], true)
  {
  }

  /** The source directory as a candidate is replaced by `docgen_output` inside it, marked explicit. */
  lemma SourceReplaced(sourceDir: Path, cwd: Path, arg: Option<string>, prev: Option<Path>)
    requires Normal(sourceDir) && Normal(cwd)
    requires arg.None? || arg == Some("")
    requires cwd + [DefaultOutputDirName] == sourceDir
    ensures ChooseOutputDir(sourceDir, cwd, arg, prev, true) == OutputDirChoice(sourceDir + [DefaultOutputDirName], false)
  {
  }

  // ---------------------------------------------------------------------
  // Pass-through arguments

  function Min(a: int, b: int): int {
    if a < b then a else b
  }

  function FirstIndex(s: seq<string>, x: string): (r: nat)
    requires x in s
    ensures r < |s| && s[r] == x
    ensures forall k :: 0 <= k < r ==> s[k] != x
  {
    if s[0] == x then 0 else 1 + FirstIndex(s[1..], x)
  }

  /** `args[pos:pos+2]` at the first occurrence of `flag`, nothing when it is absent. */
  function Passed(args: seq<string>, flag: string): (r: seq<string>)
    ensures r == [] <==> flag !in args
    ensures r != [] ==> r[0] == flag && |r| <= 2
    ensures |r| == 1 ==> flag in args && FirstIndex(args, flag) == |args| - 1
    ensures |r| == 2 ==> flag in args && FirstIndex(args, flag) + 1 < |args| && r[1] == args[FirstIndex(args, flag) + 1]
  {
    if flag in args then
      var pos := FirstIndex(args, flag);
      args[pos..Min(pos + 2, |args|)]
    else []
  }

  /** The flags of `flags` that `args` holds, each with what follows it, in the order of `flags`. */
  function LogArgs(args: seq<string>, flags: seq<string>): (r: seq<string>)
    ensures |r| <= 2 * |flags|
    ensures forall i :: 0 <= i < |r| ==> r[i] in args
  {
    if flags == [] then [] else LogArgs(args, flags[..|flags| - 1]) + Passed(args, flags[|flags| - 1])
  }

  /** `--to f` for every format `f`, in order. */
  function ToArgs(formats: seq<string>): (r: seq<string>)
    ensures |r| == 2 * |formats|
    ensures forall i :: 0 <= i < |formats| ==> r[2 * i] == "--to" && r[2 * i + 1] == formats[i]
  {
    if formats == [] then []
    else
      var rest := ToArgs(formats[..|formats| - 1]);
      assert forall i :: 0 <= i < |formats| - 1 ==> formats[..|formats| - 1][i] == formats[i];
      rest + ["--to", formats[|formats| - 1]]
  }

  /**
   * The log arguments are the three flags in the fixed order, each taken with
   * the element after its first occurrence; with none of them, nothing.
   */
  lemma {:induction false} LogArgsOrder(args: seq<string>)
    ensures LogArgs(args, LogFlags) == Passed(args, "--log-level") + Passed(args, "--log") + Passed(args, "--log-format")
    ensures LogArgs(args, LogFlags) == [] <==> forall f :: f in LogFlags ==> f !in args
    ensures |LogArgs(args, LogFlags)| <= 6
  {
    var two, one := LogFlags[..2], LogFlags[..1];
    assert two[..1] == one && one[..0] == [];
    assert LogArgs(args, one) == Passed(args, "--log-level");
    assert LogArgs(args, two) == LogArgs(args, one) + Passed(args, "--log");
    assert LogArgs(args, LogFlags) == LogArgs(args, two) + Passed(args, "--log-format");
  }

  // ---------------------------------------------------------------------
  // Mirroring the source

  /** A name that can be appended to a resolved path. */
  predicate FileName(n: string) {
    IsPart(n) && n != ".."
  }

  lemma ChildNormal(p: Path, n: string)
    requires Normal(p) && FileName(n)
    ensures Normal(p + [n])
  {
    DescendNormal(p, [n]);
  }

  /** `prevent_output_mirror`: the marker file is written into the output directory when it exists. */
  function PreventOutputMirror(fs: FS, outputDir: Path, now: int, faults: set<Path>): (r: Outcome)
    requires Valid(fs) && Normal(outputDir)
    ensures Valid(r.fs)
  {
    ChildNormal(outputDir, PreventFile);
    if Exists(fs, outputDir) then WriteText(fs, outputDir + [PreventFile], PreventText, now, faults)
    else Outcome(fs, None)
  }

  /** The entries of `items` that are directories holding the marker file, in order. */
  function MarkedDirs(fs: FS, items: seq<Path>): (r: seq<Path>)
    ensures forall p :: p in r <==> p in items && IsDir(fs, p) && Exists(fs, p + [PreventFile])
  {
    if items == [] then []
    else
      var rest := MarkedDirs(fs, items[..|items| - 1]);
      var d := items[|items| - 1];
      assert items == items[..|items| - 1] + [d];
      if IsDir(fs, d) && Exists(fs, d + [PreventFile]) then rest + [d] else rest
  }

  /** The `excluded` list of `mirror_src`; `iterdir` raises on a source that is not a directory. */
  function Excluded(fs: FS, sourceDir: Path, buildDir: Path): (r: Result<seq<Path>>)
    requires Valid(fs)
    ensures r.Ok? <==> IsDir(fs, sourceDir)
    ensures r.Ok? ==> |r.value| >= 1 && r.value[0] == buildDir
  {
    if !Exists(fs, sourceDir) then Err(FileNotFoundError("iterdir"))
    else if IsFile(fs, sourceDir) then Err(NotADirectoryError("iterdir"))
    else Ok([buildDir] + MarkedDirs(fs, Children(fs, sourceDir)))
  }

  /**
   * The build directory is excluded, and among the entries of the source
   * exactly its immediate subdirectories that hold the marker file.
   */
  lemma ExcludedExactly(fs: FS, sourceDir: Path, buildDir: Path, p: Path)
    requires Valid(fs)
    ensures Excluded(fs, sourceDir, buildDir).Ok? <==> IsDir(fs, sourceDir)
    ensures Excluded(fs, sourceDir, buildDir).Ok? ==>
      (p in Excluded(fs, sourceDir, buildDir).value <==>
        p == buildDir || (IsChild(sourceDir, p) && IsDir(fs, p) && Exists(fs, p + [PreventFile])))
  {
  }

  /**
   * Marking the output directory is what keeps it out of the mirror: an
   * output directory directly inside the source is excluded once the marker
   * is written.
   */
  lemma OutputDirExcluded(fs: FS, sourceDir: Path, buildDir: Path, outputDir: Path, now: int, faults: set<Path>)
    requires Valid(fs) && Normal(outputDir) && IsDir(fs, sourceDir)
    requires IsDir(fs, outputDir) && IsChild(sourceDir, outputDir)
    requires PreventOutputMirror(fs, outputDir, now, faults).raised.None?
    ensures outputDir in Excluded(PreventOutputMirror(fs, outputDir, now, faults).fs, sourceDir, buildDir).value
  {
    var g := PreventOutputMirror(fs, outputDir, now, faults).fs;
    assert g.nodes == fs.nodes[outputDir + [PreventFile] := File(now, PreventText)];
    assert |outputDir + [PreventFile]| != |outputDir| && |outputDir + [PreventFile]| != |sourceDir|;
    ExcludedExactly(g, sourceDir, buildDir, outputDir);
  }

  /** The files `mirror_src` copies again after mirroring, so the build has their current version. */
  const ForcedNames: seq<string> := ["_quarto.yml", "_variables.yml"]

  /** The loop over the forced names: each existing one is copied with `copy2`; a failing copy raises. */
  function ForceCopies(fs: FS, sourceDir: Path, buildDir: Path, names: seq<string>, faults: set<Path>): (r: Outcome)
    requires Valid(fs) && Normal(sourceDir) && Normal(buildDir)
    requires forall i :: 0 <= i < |names| ==> FileName(names[i])
    ensures Valid(r.fs)
    decreases |names|
  {
    if names == [] then Outcome(fs, None)
    else
      ChildNormal(sourceDir, names[0]);
      ChildNormal(buildDir, names[0]);
      var p := sourceDir + [names[0]];
      if !Exists(fs, p) then ForceCopies(fs, sourceDir, buildDir, names[1..], faults)
      else
        var c := Copy2(fs, p, buildDir + [names[0]], faults);
        if c.raised.Some? then c else ForceCopies(c.fs, sourceDir, buildDir, names[1..], faults)
  }

  lemma ForcedNamesAreNames()
    ensures forall i :: 0 <= i < |ForcedNames| ==> FileName(ForcedNames[i])
  {
  }

  /** The call `mirror_src` makes: the generated directory is kept, orphans are removed. */
  function SourceCall(sourceDir: Path, buildDir: Path, generated: Path, excluded: seq<Path>, now: int, faults: set<Path>): Mirror.Call {
    Mirror.Call(sourceDir, buildDir, true, excluded, [Join(buildDir, generated)], faults, now)
  }

  /** `mirror_src`: mark the output directory, mirror the source into the build directory, refresh the forced files. */
  function MirrorSrc(fs: FS, sourceDir: Path, buildDir: Path, outputDir: Path, generated: Path, now: int, faults: set<Path>): (r: Outcome)
    requires Valid(fs) && Normal(sourceDir) && Normal(buildDir) && Normal(outputDir)
    ensures Valid(r.fs)
  {
    var prevented := PreventOutputMirror(fs, outputDir, now, faults);
    if prevented.raised.Some? then prevented
    else
      match Excluded(prevented.fs, sourceDir, buildDir)
      case Err(e) => Outcome(prevented.fs, Some(e))
      case Ok(excluded) =>
        var mirrored := Mirror.MirrorSpec(prevented.fs, SourceCall(sourceDir, buildDir, generated, excluded, now, faults));
        if mirrored.raised.Some? then mirrored
        else
          ForcedNamesAreNames();
          ForceCopies(mirrored.fs, sourceDir, buildDir, ForcedNames, faults)
  }

  /** What a forced name needs to be copied without error. */
  predicate Copyable(fs: FS, sourceDir: Path, buildDir: Path, n: string) {
    Exists(fs, sourceDir + [n]) ==> IsFile(fs, sourceDir + [n]) && !IsDir(fs, buildDir + [n])
  }

  /** `copy2` of one forced name that exists, into a build directory that has no directory in the way. */
  lemma CopyIn(fs: FS, sourceDir: Path, buildDir: Path, n: string) returns (g: FS)
    requires Valid(fs) && Normal(sourceDir) && Normal(buildDir) && sourceDir != buildDir && IsDir(fs, buildDir)
    requires FileName(n) && Copyable(fs, sourceDir, buildDir, n)
    ensures Normal(sourceDir + [n]) && Normal(buildDir + [n])
    ensures Exists(fs, sourceDir + [n]) ==> Copy2(fs, sourceDir + [n], buildDir + [n], {}) == Outcome(g, None)
    ensures !Exists(fs, sourceDir + [n]) ==> g == fs
    ensures Valid(g) && IsDir(g, buildDir)
    ensures g.nodes == if IsFile(fs, sourceDir + [n]) then fs.nodes[buildDir + [n] := fs.nodes[sourceDir + [n]]] else fs.nodes
  {
    ChildNormal(sourceDir, n);
    ChildNormal(buildDir, n);
    var p := sourceDir + [n];
    var t := buildDir + [n];
    g := fs;
    if Exists(fs, p) {
      assert Parent(t) == buildDir;
      assert p != t by {
        assert p[..|p| - 1] == sourceDir && t[..|t| - 1] == buildDir;
      }
      assert CopyTarget(fs, p, t) == t;
      g := Copy2(fs, p, t, {}).fs;
      assert g.nodes == fs.nodes[t := fs.nodes[p]];
    }
  }

  /** One turn of the loop over the forced names, under the conditions of `ForceCopiesRefresh`. */
  lemma ForceStep(fs: FS, sourceDir: Path, buildDir: Path, names: seq<string>) returns (g: FS)
    requires Valid(fs) && Normal(sourceDir) && Normal(buildDir) && sourceDir != buildDir && IsDir(fs, buildDir)
    requires Unique(names) && names != []
    requires forall i :: 0 <= i < |names| ==> FileName(names[i]) && Copyable(fs, sourceDir, buildDir, names[i])
    ensures Valid(g) && IsDir(g, buildDir) && Unique(names[1..])
    ensures forall i :: 0 <= i < |names[1..]| ==> FileName(names[1..][i]) && Copyable(g, sourceDir, buildDir, names[1..][i])
    ensures ForceCopies(fs, sourceDir, buildDir, names, {}) == ForceCopies(g, sourceDir, buildDir, names[1..], {})
    ensures g.nodes == if IsFile(fs, sourceDir + [names[0]])
      then fs.nodes[buildDir + [names[0]] := fs.nodes[sourceDir + [names[0]]]] else fs.nodes
  {
    g := CopyIn(fs, sourceDir, buildDir, names[0]);
    assert ForceCopies(fs, sourceDir, buildDir, names, {}) == ForceCopies(g, sourceDir, buildDir, names[1..], {});
    forall i | 0 <= i < |names[1..]|
      ensures FileName(names[1..][i]) && Copyable(g, sourceDir, buildDir, names[1..][i])
    {
      var n := names[1..][i];
      assert n == names[i + 1] && n != names[0];
      assert Copyable(fs, sourceDir, buildDir, n);
      NamesApart(sourceDir, buildDir, n, names[0]);
    }
  }

  /**
   * With no failing path, a build directory in place and source entries that
   * are files, every forced file is replaced in the build by an exact copy
   * (content and modification time) of its source; nothing is removed and
   * nothing else changes.
   */
  lemma {:induction false} ForceCopiesRefresh(fs: FS, sourceDir: Path, buildDir: Path, names: seq<string>)
    requires Valid(fs) && Normal(sourceDir) && Normal(buildDir) && sourceDir != buildDir && IsDir(fs, buildDir)
    requires Unique(names)
    requires forall i :: 0 <= i < |names| ==> FileName(names[i]) && Copyable(fs, sourceDir, buildDir, names[i])
    ensures ForceCopies(fs, sourceDir, buildDir, names, {}).raised.None?
    ensures forall i :: 0 <= i < |names| && IsFile(fs, sourceDir + [names[i]]) ==>
      && buildDir + [names[i]] in ForceCopies(fs, sourceDir, buildDir, names, {}).fs.nodes
      && ForceCopies(fs, sourceDir, buildDir, names, {}).fs.nodes[buildDir + [names[i]]] == fs.nodes[sourceDir + [names[i]]]
    ensures forall q :: q in fs.nodes ==> q in ForceCopies(fs, sourceDir, buildDir, names, {}).fs.nodes
    ensures forall q :: q in ForceCopies(fs, sourceDir, buildDir, names, {}).fs.nodes && !Forced(buildDir, names, q) ==>
      q in fs.nodes && ForceCopies(fs, sourceDir, buildDir, names, {}).fs.nodes[q] == fs.nodes[q]
    decreases |names|
  {
    if names != [] {
      var t := buildDir + [names[0]];
      var g := ForceStep(fs, sourceDir, buildDir, names);
      ForceCopiesRefresh(g, sourceDir, buildDir, names[1..]);
      StepFacts(fs, g, ForceCopies(g, sourceDir, buildDir, names[1..], {}).fs, sourceDir, buildDir, names);
    }
  }

  /** The facts of `ForceCopiesRefresh` for a list, from those for its tail and the first turn of the loop. */
  lemma StepFacts(fs: FS, g: FS, r: FS, sourceDir: Path, buildDir: Path, names: seq<string>)
    requires sourceDir != buildDir && Unique(names) && names != []
    requires g.nodes == if IsFile(fs, sourceDir + [names[0]])
      then fs.nodes[buildDir + [names[0]] := fs.nodes[sourceDir + [names[0]]]] else fs.nodes
    requires forall i :: 0 <= i < |names[1..]| && IsFile(g, sourceDir + [names[1..][i]]) ==>
      buildDir + [names[1..][i]] in r.nodes && r.nodes[buildDir + [names[1..][i]]] == g.nodes[sourceDir + [names[1..][i]]]
    requires forall q :: q in g.nodes ==> q in r.nodes
    requires forall q :: q in r.nodes && !Forced(buildDir, names[1..], q) ==> q in g.nodes && r.nodes[q] == g.nodes[q]
    ensures forall i :: 0 <= i < |names| && IsFile(fs, sourceDir + [names[i]]) ==>
      buildDir + [names[i]] in r.nodes && r.nodes[buildDir + [names[i]]] == fs.nodes[sourceDir + [names[i]]]
    ensures forall q :: q in fs.nodes ==> q in r.nodes
    ensures forall q :: q in r.nodes && !Forced(buildDir, names, q) ==> q in fs.nodes && r.nodes[q] == fs.nodes[q]
  {
    var t := buildDir + [names[0]];
    assert !Forced(buildDir, names[1..], t) by {
      forall i | 0 <= i < |names[1..]|
        ensures t != buildDir + [names[1..][i]]
      {
        NamesApart(sourceDir, buildDir, names[1..][i], names[0]);
      }
    }
    forall i | 0 <= i < |names| && IsFile(fs, sourceDir + [names[i]])
      ensures buildDir + [names[i]] in r.nodes && r.nodes[buildDir + [names[i]]] == fs.nodes[sourceDir + [names[i]]]
    {
      if i > 0 {
        assert names[i] == names[1..][i - 1];
        NamesApart(sourceDir, buildDir, names[i], names[0]);
      }
    }
    forall q | q in r.nodes && !Forced(buildDir, names, q)
      ensures q in fs.nodes && r.nodes[q] == fs.nodes[q]
    {
      assert q != t;
      assert !Forced(buildDir, names[1..], q) by {
        forall i | 0 <= i < |names[1..]|
          ensures q != buildDir + [names[1..][i]]
        {
          assert names[1..][i] == names[i + 1];
        }
      }
    }
  }

  /** `q` is the build copy of one of the forced names. */
  predicate Forced(buildDir: Path, names: seq<string>, q: Path) {
    exists i :: 0 <= i < |names| && q == buildDir + [names[i]]
  }

  /** Different names make different paths, and a build path is never a source path when the directories differ. */
  lemma NamesApart(sourceDir: Path, buildDir: Path, n: string, m: string)
    requires sourceDir != buildDir
    ensures buildDir + [n] != sourceDir + [m]
    ensures n != m ==> buildDir + [n] != buildDir + [m] && sourceDir + [n] != sourceDir + [m]
  {
    if |buildDir| == |sourceDir| {
      assert (buildDir + [n])[..|buildDir|] == buildDir;
      assert (sourceDir + [m])[..|sourceDir|] == sourceDir;
    }
    assert (buildDir + [n])[|buildDir|] == n && (buildDir + [m])[|buildDir|] == m;
    assert (sourceDir + [n])[|sourceDir|] == n && (sourceDir + [m])[|sourceDir|] == m;
  }

  /** `mirror_src` refreshes both `_quarto.yml` and `_variables.yml` when it gets that far without error. */
  lemma ForcedNamesRefresh(fs: FS, sourceDir: Path, buildDir: Path)
    requires Valid(fs) && Normal(sourceDir) && Normal(buildDir) && sourceDir != buildDir && IsDir(fs, buildDir)
    requires forall n :: n in ForcedNames ==> Copyable(fs, sourceDir, buildDir, n)
    ensures ForceCopies(fs, sourceDir, buildDir, ForcedNames, {}).raised.None?
    ensures forall n :: n in ForcedNames && IsFile(fs, sourceDir + [n]) ==>
      && buildDir + [n] in ForceCopies(fs, sourceDir, buildDir, ForcedNames, {}).fs.nodes
      && ForceCopies(fs, sourceDir, buildDir, ForcedNames, {}).fs.nodes[buildDir + [n]] == fs.nodes[sourceDir + [n]]
  {
    ForcedNamesAreNames();
    assert ForcedNames[0] != ForcedNames[1];
    ForceCopiesRefresh(fs, sourceDir, buildDir, ForcedNames);
    forall n | n in ForcedNames && IsFile(fs, sourceDir + [n])
      ensures buildDir + [n] in ForceCopies(fs, sourceDir, buildDir, ForcedNames, {}).fs.nodes
      ensures ForceCopies(fs, sourceDir, buildDir, ForcedNames, {}).fs.nodes[buildDir + [n]] == fs.nodes[sourceDir + [n]]
    {
      var i :| 0 <= i < 2 && ForcedNames[i] == n;
    }
  }

  // ---------------------------------------------------------------------
  // The renderer

  class Renderer {
    /** `source_dir`, `build_dir` and the working directory, fixed at construction. */
    const sourceDir: Path
    const buildDir: Path
    const cwd: Path
    /** `auto_formats` and `formats`. */
    const autoFormats: bool
    const formats: seq<string>
    /** `quarto_render_args`. */
    const quartoRenderArgs: seq<string>
    /** `output_dir`, None until the constructor validates it, and `auto_output_dir`. */
    var outputDir: Option<Path>
    var autoOutputDir: bool
    /** `parsed_items.not_included_files`, set by `pre_render`. */
    var notIncludedFiles: seq<Path>

    ghost predicate Valid()
      reads this
    {
      && Normal(sourceDir) && Normal(buildDir) && Normal(cwd)
      && (!autoOutputDir ==> outputDir.Some?)
      && (outputDir.Some? ==> Normal(outputDir.value))
      && (forall i :: 0 <= i < |notIncludedFiles| ==> Normal(notIncludedFiles[i]))
    }

    /**
     * The part of `__init__` that sets the formats and the output directory:
     * formats fall back to the defaults and are automatic only when None was
     * given; the output directory is validated with no previous choice.
     */
    constructor (sourceDir: Path, buildDir: Path, cwd: Path, formats: Value, args: Option<seq<string>>, outputArg: Option<string>)
      requires Normal(sourceDir) && Normal(buildDir) && Normal(cwd)
      ensures Valid()
      ensures this.sourceDir == sourceDir && this.buildDir == buildDir && this.cwd == cwd
      ensures autoFormats == formats.Absent?
      ensures this.formats == OrElse(EnforceList(formats), GetDefaultFormats())
      ensures quartoRenderArgs == (if args.Some? then args.value else [])
      ensures outputDir == Some(ChooseOutputDir(sourceDir, cwd, outputArg, None, true).dir)
      ensures autoOutputDir == ChooseOutputDir(sourceDir, cwd, outputArg, None, true).auto
      ensures notIncludedFiles == []
    {
      this.sourceDir := sourceDir;
      this.buildDir := buildDir;
      this.cwd := cwd;
      autoFormats := formats.Absent?;
      this.formats := OrElse(EnforceList(formats), GetDefaultFormats());
      quartoRenderArgs := if args.Some? then args.value else [];
      notIncludedFiles := [];
      new;
      autoOutputDir := true;
      outputDir := None;
      AssignOutputDir(outputArg);
    }

    /** `validate_output_dir(arg)`: it sets `auto_output_dir` and returns the directory to use. */
    method ValidateOutputDir(arg: Option<string>) returns (r: Path)
      requires Valid()
      modifies this
      ensures r == ChooseOutputDir(sourceDir, cwd, arg, old(outputDir), old(autoOutputDir)).dir
      ensures autoOutputDir == ChooseOutputDir(sourceDir, cwd, arg, old(outputDir), old(autoOutputDir)).auto
      ensures outputDir == old(outputDir) && notIncludedFiles == old(notIncludedFiles)
    {
      var backup := outputDir;
      var backupAuto := autoOutputDir;
      autoOutputDir := arg.None?;
      var given: Option<Path> := None;
      if arg.Some? && arg.value != "" {
        given := Some(ResolvePath(Parse(arg.value), Some(sourceDir), cwd));
      }
      r := if given.Some? then given.value else cwd + [DefaultOutputDirName];
      if !backupAuto && backup.value != r {
        r := backup.value;
      }
      if r == sourceDir {
        autoOutputDir := false;
        r := sourceDir + [DefaultOutputDirName];
      }
    }

    /** `self.output_dir = self.validate_output_dir(arg)`, as the constructor and the YAML step do. */
    method AssignOutputDir(arg: Option<string>)
      requires Valid()
      modifies this
      ensures Valid()
      ensures outputDir == Some(ChooseOutputDir(sourceDir, cwd, arg, old(outputDir), old(autoOutputDir)).dir)
      ensures autoOutputDir == ChooseOutputDir(sourceDir, cwd, arg, old(outputDir), old(autoOutputDir)).auto
      ensures notIncludedFiles == old(notIncludedFiles)
    {
      ChoiceFacts(sourceDir, cwd, arg, outputDir, autoOutputDir);
      var r := ValidateOutputDir(arg);
      outputDir := Some(r);
    }

    /** `quarto_log_xxx_cmd`. */
    method QuartoLogCmd() returns (cmd: seq<string>)
      ensures cmd == LogArgs(quartoRenderArgs, LogFlags)
    {
      cmd := [];
      for i := 0 to |LogFlags|
        invariant cmd == LogArgs(quartoRenderArgs, LogFlags[..i])
      {
        var flag := LogFlags[i];
        if flag in quartoRenderArgs {
          var pos := FirstIndex(quartoRenderArgs, flag);
          cmd := cmd + quartoRenderArgs[pos..Min(pos + 2, |quartoRenderArgs|)];
        }
        assert LogFlags[..i + 1][..i] == LogFlags[..i];
      }
      assert LogFlags[..|LogFlags|] == LogFlags;
    }

    /** `quarto_vanilla_cmd`: `--to f` per format, only when the formats were given. */
    method QuartoVanillaCmd() returns (cmd: seq<string>)
      ensures cmd == (if autoFormats then [] else ToArgs(formats))
    {
      cmd := [];
      if !autoFormats {
        for i := 0 to |formats|
          invariant cmd == ToArgs(formats[..i])
        {
          cmd := cmd + ["--to", formats[i]];
          assert formats[..i + 1][..i] == formats[..i];
        }
        assert formats[..|formats|] == formats;
      }
    }

    /** `resolve_path(path, source, build)`: against the source, else the build directory, else `ValueError`. */
    function ResolveIn(path: Path, source: bool, build: bool): (r: Result<Path>)
      requires Normal(sourceDir) && Normal(buildDir) && Normal(cwd) && WellFormed(path)
      ensures r.Err? <==> !source && !build
      ensures r.Ok? ==> Normal(r.value)
      ensures r.Ok? && IsAbsolute(path) ==> r.value == Resolve(path, cwd)
    {
      if source then Ok(ResolvePath(path, Some(sourceDir), cwd))
      else if build then Ok(ResolvePath(path, Some(buildDir), cwd))
      else Err(ValueError("Un chemin doit être resolved"))
    }

    /**
     * One turn of the feed loop of `pre_render`: a file of the generated
     * directory is skipped; any other is rewritten from its source
     * counterpart (through the Jinja pass when it is enabled) once its text
     * has been fed to the container.
     */
    method FeedTurn(fs: FS, f: Path, generated: Path, jinja: Option<string -> string>, container: Container.OutputsContainer,
                    now: int, faults: set<Path>)
      returns (fs': FS, raised: Option<Error>)
      requires Valid() && FileSystem.Valid(fs) && Normal(f) && container.Valid()
      modifies container
      ensures container.Valid()
      ensures Outcome(fs', raised) == FeedOne(fs, f, Dirs(sourceDir, buildDir, cwd, generated), jinja, now, faults).out
      ensures (container.instances, container.paths)
        == Absorbed(old(container.instances), old(container.paths), FeedOne(fs, f, Dirs(sourceDir, buildDir, cwd, generated), jinja, now, faults).fed, container.site)
    {
      fs', raised := fs, None;
      if Generated(f, buildDir, generated) {
        return;
      }
      var src := SourceOf(f, sourceDir, buildDir, cwd);
      if src.Err? {
        return fs, Some(src.error);
      }
      var read := ReadText(fs, src.value);
      if read.Err? {
        return fs, Some(read.error);
      }
      var text := Rendered(read.value, jinja);
      container.FeedFromContent(text, f);
      assert [(f, text)][..0] == [];
      var w := WriteText(fs, f, text, now, faults);
      return w.fs, w.raised;
    }

    /** The feed loop of `pre_render` over the markdown files of the build directory; the first error ends it. */
    method FeedSources(fs: FS, generated: Path, jinja: Option<string -> string>, container: Container.OutputsContainer,
                       now: int, faults: set<Path>)
      returns (fs': FS, raised: Option<Error>)
      requires Valid() && FileSystem.Valid(fs) && container.Valid()
      modifies container
      ensures container.Valid()
      ensures Outcome(fs', raised) == FeedAll(fs, Dirs(sourceDir, buildDir, cwd, generated), jinja, now, faults).out
      ensures (container.instances, container.paths)
        == Absorbed(old(container.instances), old(container.paths), FeedAll(fs, Dirs(sourceDir, buildDir, cwd, generated), jinja, now, faults).fed, container.site)
    {
      FeedAllCases(fs, Dirs(sourceDir, buildDir, cwd, generated), jinja, now, faults);
      var listing := MarkdownFiles(fs, buildDir);
      if listing.Err? {
        return fs, Some(listing.error);
      }
      fs', raised := FeedFiles(fs, listing.value, generated, jinja, container, now, faults);
    }

    /** The turns of the feed loop over `files`, up to the first that raises. */
    method FeedFiles(fs: FS, files: seq<Path>, generated: Path, jinja: Option<string -> string>, container: Container.OutputsContainer,
                     now: int, faults: set<Path>)
      returns (fs': FS, raised: Option<Error>)
      requires Valid() && FileSystem.Valid(fs) && container.Valid() && forall i :: 0 <= i < |files| ==> Normal(files[i])
      modifies container
      ensures container.Valid()
      ensures Outcome(fs', raised) == Feed(fs, files, Dirs(sourceDir, buildDir, cwd, generated), jinja, now, faults).out
      ensures (container.instances, container.paths)
        == Absorbed(old(container.instances), old(container.paths), Feed(fs, files, Dirs(sourceDir, buildDir, cwd, generated), jinja, now, faults).fed, container.site)
    {
      var d := Dirs(sourceDir, buildDir, cwd, generated);
      fs', raised := fs, None;
      ghost var fed: seq<(Path, string)> := [];
      for i := 0 to |files|
        invariant FileSystem.Valid(fs') && container.Valid() && raised.None?
        invariant Feed(fs, files[..i], d, jinja, now, faults) == Feeding(Outcome(fs', None), fed)
        invariant (container.instances, container.paths) == Absorbed(old(container.instances), old(container.paths), fed, container.site)
      {
        ghost var one := FeedOne(fs', files[i], d, jinja, now, faults);
        FeedAdvance(fs, files, i, d, jinja, now, faults, fs', fed, one);
        AbsorbedAppend(old(container.instances), old(container.paths), fed, one.fed, container.site);
        fs', raised := FeedTurn(fs', files[i], generated, jinja, container, now, faults);
        fed := fed + one.fed;
        if raised.Some? {
          return;
        }
      }
      assert files[..|files|] == files;
    }

    /** The inner include loop: the matches' targets that name files of `fs` join `included`. */
    method AddTargets(fs: FS, content: string, included: set<Path>) returns (r: set<Path>)
      requires Valid()
      ensures r == included + IncludedFrom(fs, IncludeTargets(content, 0), buildDir, cwd)
    {
      IncludeTargetsAreMatches(content, 0);
      var targets := TargetsOf(FindIter(content, QuartoInclude, 0));
      r := AddResolved(fs, targets, included);
    }

    /** Each target, resolved in the build directory, joins `included` when it names a file. */
    method AddResolved(fs: FS, targets: seq<string>, included: set<Path>) returns (r: set<Path>)
      requires Valid()
      ensures r == included + IncludedFrom(fs, targets, buildDir, cwd)
    {
      r := included;
      for k := 0 to |targets|
        invariant r == included + IncludedFrom(fs, targets[..k], buildDir, cwd)
      {
        IncludedFromNext(fs, targets, k, buildDir, cwd);
        var p := ResolveIn(Parse(targets[k]), false, true).value;
        if IsFile(fs, p) {
          r := r + {p};
        }
      }
      assert targets[..|targets|] == targets;
    }

    /** The include loop of `pre_render`: every include target, resolved in the build directory, that names a file. */
    method CollectIncludes(fs: FS, files: seq<Path>) returns (included: set<Path>)
      requires Valid() && forall i :: 0 <= i < |files| ==> IsFile(fs, files[i])
      ensures included == IncludedIn(fs, files, buildDir, cwd)
    {
      included := {};
      for i := 0 to |files|
        invariant included == IncludedIn(fs, files[..i], buildDir, cwd)
      {
        IncludedInNext(fs, files, i, buildDir, cwd);
        var content := ReadText(fs, files[i]).value;
        included := AddTargets(fs, content, included);
      }
      assert files[..|files|] == files;
    }

    /**
     * The end of `pre_render`: the include loop over a walk of the build
     * directory, then the filter over a second walk of the same tree.
     */
    method ListNotIncluded(fs: FS) returns (r: Result<seq<Path>>)
      requires Valid() && FileSystem.Valid(fs)
      ensures r == NotIncludedFiles(fs, buildDir, cwd)
      ensures r.Ok? ==> forall i :: 0 <= i < |r.value| ==> Normal(r.value[i])
    {
      var listing := MarkdownFiles(fs, buildDir);
      if listing.Err? {
        return Err(listing.error);
      }
      MarkdownListing(fs, buildDir);
      var included := CollectIncludes(fs, listing.value);
      var again := MarkdownFiles(fs, buildDir);
      var kept := Unincluded(fs, again.value, included, buildDir, cwd);
      r := Ok(kept);
      NotIncludedNormal(fs, buildDir, cwd);
    }

    /**
     * How the steps of `pre_render` end on the tree `fs`. `feed` is the feed
     * loop's result, and a feed error ends them. Otherwise the new container
     * holds what was fed, the files `order` in the order they were first
     * fed, and has run: its builds started from the fed tree and the
     * allocator's counters and the two caches as `before` holds them, and
     * ended as `built` says; a build error ends the steps on the tree the
     * builds left. Otherwise the files were
     * rewritten from `sorted`, the built lists sorted last start first; a
     * write error ends the steps, and a clean rewrite is listed.
     */
    ghost predicate PreRan(fs: FS, generated: Path, jinja: Option<string -> string>, env: ExcelOutputs.Env, now: int, faults: set<Path>,
                           before: Container.Shared, feed: Feeding, order: seq<Path>, built: Container.Builds, sorted: map<Path, seq<Output>>,
                           fs': FS, r: Result<seq<Path>>)
      requires Normal(sourceDir) && Normal(buildDir) && Normal(cwd) && FileSystem.Valid(fs)
    {
      && feed == FeedAll(fs, Dirs(sourceDir, buildDir, cwd, generated), jinja, now, faults)
      && (feed.out.raised.Some? ==> fs' == feed.out.fs && r == Err(feed.out.raised.value))
      && (feed.out.raised.None? ==>
            && var fed := Absorbed(map[], [], feed.fed, Site(sourceDir, buildDir));
            && order == fed.1 && Container.BuildsOf(order, fed.0, built, Container.Setting(Site(sourceDir, buildDir), generated, env, now, faults, cwd),
                                                                    before.(fs := feed.out.fs))
            && (built.raised.Some? ==> fs' == built.st.fs && r == Err(built.raised.value))
            && (built.raised.None? ==>
                  && sorted.Keys == fed.0.Keys
                  && (forall p :: p in sorted ==> sorted[p] == Splice.SortDesc(built.lists[p]))
                  && FileSystem.Valid(built.st.fs) && Container.Writable(order, sorted)
                  && var w := Container.Rewrite(built.st.fs, order, sorted, now, faults);
                  && fs' == w.fs && (w.raised.Some? ==> r == Err(w.raised.value))
                  && (w.raised.None? ==> r == NotIncludedFiles(fs', buildDir, cwd))))
    }

    /**
     * `pre_render`: the feed loop on a new container, the container's run,
     * then the include loop and the filter over a fresh walk of the build
     * directory, which set `not_included_files`. Any error ends it.
     */
    method PreRender(fs: FS, jinja: Option<string -> string>, alloc: Descriptor.PathAllocator, copies: ImgCopy.CopyCache,
                     workbooks: ExcelCore.WorkbookCache, env: ExcelOutputs.Env, now: int, faults: set<Path>)
      returns (fs': FS, raised: Option<Error>, ghost feed: Feeding, ghost order: seq<Path>, ghost built: Container.Builds,
               ghost sorted: map<Path, seq<Output>>, ghost listing: Result<seq<Path>>)
      requires Valid() && FileSystem.Valid(fs) && workbooks.Valid() && Descending(alloc.generated)
      modifies this, alloc, copies, workbooks
      ensures Valid() && outputDir == old(outputDir) && autoOutputDir == old(autoOutputDir)
      ensures PreRan(fs, alloc.generated, jinja, env, now, faults, old(Container.Now(fs, alloc, copies, workbooks)), feed, order, built, sorted, fs', listing)
      ensures raised.None? <==> listing.Ok?
      ensures listing.Err? ==> raised == Some(listing.error)
      ensures raised.None? ==> FileSystem.Valid(fs') && NotIncludedFiles(fs', buildDir, cwd) == Ok(notIncludedFiles)
      ensures raised.Some? ==> notIncludedFiles == old(notIncludedFiles)
    {
      var l;
      fs', l, feed, order, built, sorted := RunAndList(fs, jinja, alloc, copies, workbooks, env, now, faults);
      listing := l;
      if l.Err? {
        return fs', Some(l.error), feed, order, built, sorted, listing;
      }
      notIncludedFiles := l.value;
      raised := None;
    }

    /** The steps of `pre_render` before `not_included_files` is set. */
    method RunAndList(fs: FS, jinja: Option<string -> string>, alloc: Descriptor.PathAllocator, copies: ImgCopy.CopyCache,
                   workbooks: ExcelCore.WorkbookCache, env: ExcelOutputs.Env, now: int, faults: set<Path>)
      returns (fs': FS, r: Result<seq<Path>>, ghost feed: Feeding, ghost order: seq<Path>, ghost built: Container.Builds,
               ghost sorted: map<Path, seq<Output>>)
      requires Valid() && FileSystem.Valid(fs) && workbooks.Valid() && Descending(alloc.generated)
      modifies alloc, copies, workbooks
      ensures PreRan(fs, alloc.generated, jinja, env, now, faults, old(Container.Now(fs, alloc, copies, workbooks)), feed, order, built, sorted, fs', r)
      ensures r.Ok? ==> FileSystem.Valid(fs') && NotIncludedFiles(fs', buildDir, cwd) == r
      ensures r.Ok? ==> forall i :: 0 <= i < |r.value| ==> Normal(r.value[i])
    {
      feed := FeedAll(fs, Dirs(sourceDir, buildDir, cwd, alloc.generated), jinja, now, faults);
      built, order, sorted := Container.Builds(Container.Now(fs, alloc, copies, workbooks), None, map[], map[], map[], 0), [], map[];
      var container := new Container.OutputsContainer(Site(sourceDir, buildDir));
      var fed, raised := FeedSources(fs, alloc.generated, jinja, container, now, faults);
      if raised.Some? {
        return fed, Err(raised.value), feed, order, built, sorted;
      }
      order := container.paths;
      var written, ran;
      written, ran, built := container.Run(alloc, copies, workbooks, fed, env, now, faults, cwd);
      sorted := container.instances;
      if ran.Some? {
        return written, Err(ran.value), feed, order, built, sorted;
      }
      fs' := written;
      r := ListNotIncluded(written);
    }
  }
}
