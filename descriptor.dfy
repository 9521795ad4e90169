/**
 * `OutputPathDescriptor` of `outputs/descriptor.py`: where a referenced file
 * lands in the build tree. A file inside the source tree keeps its place
 * relative to the source directory; anything else gets a fresh generated stem
 * `<generated>/auto_<n>_`, numbered per destination directory.
 */
module Descriptor {
  import opened Wrappers
  import opened Text
  import opened Paths
  import opened FileSystem
  import opened PathUtils

  /** The last part of the n-th generated stem: `auto_<n>_`. */
  function AutoName(n: nat): (r: string)
    ensures IsPart(r) && '.' !in r && r[0] == 'a'
  {
    var r := "auto_" + NatToString(n) + "_";
    assert forall i :: 5 <= i < |r| - 1 ==> r[i] == NatToString(n)[i - 5];
    r
  }

  /** `Path(".") / generated / f"auto_{n}_"`: "." contributes no part. */
  function AutoStem(generated: Path, n: nat): (r: Path)
    ensures WellFormed(generated) ==> WellFormed(r)
    ensures Name(r) == AutoName(n) && Stem(r) == AutoName(n) && Suffix(r) == ""
  {
    var r := Join(Join([], generated), [AutoName(n)]);
    assert r == generated + [AutoName(n)];
    assert WellFormed(generated) ==> Tail(r) == Tail(generated) + [AutoName(n)];
    assert LastIndexOf(AutoName(n), '.') == -1;
    r
  }

  /** Distinct counter values give distinct stems. */
  lemma AutoStemInjective(generated: Path, a: nat, b: nat)
    requires AutoStem(generated, a) == AutoStem(generated, b)
    ensures a == b
  {
    var sa, sb := NatToString(a), NatToString(b);
    assert AutoName(a) == AutoName(b);
    assert AutoName(a)[5..|AutoName(a)| - 1] == sa;
    assert AutoName(b)[5..|AutoName(b)| - 1] == sb;
    NatToStringInjective(a, b);
  }

  /** The counter of `dest` in a counter table, 0 before its first use (`setdefault(dest, 0)`). */
  function CountOf(counters: map<Path, nat>, dest: Path): nat {
    if dest in counters then counters[dest] else 0
  }

  /** The value `next_path` gives the counter of `dest`: one more than it held. */
  function NextCount(counters: map<Path, nat>, dest: Path): (n: nat)
    ensures n > 0
  {
    CountOf(counters, dest) + 1
  }

  /** The counter table after a `from_string` call that allocated a stem for `dest` exactly when `stepped`. */
  function Advanced(counters: map<Path, nat>, dest: Path, stepped: bool): map<Path, nat> {
    if stepped then counters[dest := NextCount(counters, dest)] else counters
  }

  /**
   * The class-level `_new_path_counter` and `next_path`. One allocator lives
   * for the whole process: nothing resets its counters.
   */
  class PathAllocator {
    const generated: Path
    var counters: map<Path, nat>

    constructor (generated: Path)
      ensures this.generated == generated
      ensures counters == map[]
    {
      this.generated := generated;
      counters := map[];
    }

    /** Advances the counter of `dest` and returns the stem numbered by its new value. */
    method NextPath(dest: Path) returns (r: Path)
      modifies this
      ensures counters == old(counters)[dest := NextCount(old(counters), dest)]
      ensures r == AutoStem(generated, counters[dest])
    {
      counters := counters[dest := NextCount(counters, dest)];
      r := AutoStem(generated, counters[dest]);
    }
  }

  /** `from_string` accepts a `str`, which it strips, or a `Path`, which it keeps. */
  datatype Reference = StrRef(text: string) | PathRef(path: Path)

  predicate RefWellFormed(ref: Reference) {
    ref.PathRef? ==> WellFormed(ref.path)
  }

  function RefPath(ref: Reference): (r: Path)
    requires RefWellFormed(ref)
    ensures WellFormed(r)
    ensures ref.StrRef? ==> r == Parse(Strip(ref.text))
    ensures ref.PathRef? ==> r == ref.path
  {
    match ref
    case StrRef(s) => Parse(Strip(s))
    case PathRef(p) => p
  }

  /** The fields of an `OutputPathDescriptor`; `n_called` is never changed from 0. */
  datatype Descriptor = Descriptor(
    absolutePath: Path,
    absoluteNewStem: Option<Path>,
    relativeNewStem: Path,
    nCalled: int,
    isGenerated: bool)

  /** The path whose position is checked: the parent of an existing file, else the path. */
  function ToTest(fs: FS, absolute: Path): Path {
    if IsFile(fs, absolute) then Parent(absolute) else absolute
  }

  /** The two outcomes of the classification. */
  datatype Placement = Generate | Local(relative: Path)

  /**
   * The test as written: `to_test < source_dir or force_generation`, with `<`
   * the ordering of paths. A path outside the source that sorts after it
   * reaches `relative_to`, which raises `ValueError`.
   */
  function ClassifyAsWritten(fs: FS, absolute: Path, sourceDir: Path, force: bool): (r: Result<Placement>)
    ensures r == Ok(Generate) <==> PathLess(ToTest(fs, absolute), sourceDir) || force
    ensures r.Err? <==> !(PathLess(ToTest(fs, absolute), sourceDir) || force) && !IsWithin(absolute, sourceDir)
    ensures r.Ok? && r.value.Local? ==> sourceDir + r.value.relative == absolute
  {
    if PathLess(ToTest(fs, absolute), sourceDir) || force then Ok(Generate)
    else
      match RelativeTo(absolute, sourceDir)
      case Ok(rel) => Ok(Local(rel))
      case Err(e) => Err(e)
  }

  /** A path whose checked path is inside the source is inside the source itself. */
  lemma ToTestWithin(fs: FS, absolute: Path, sourceDir: Path)
    requires IsWithin(ToTest(fs, absolute), sourceDir)
    ensures IsWithin(absolute, sourceDir)
  {
    var t := ToTest(fs, absolute);
    if t != absolute && absolute != [] && absolute != Root {
      assert t == absolute[..|absolute| - 1];
      if t != sourceDir {
        assert absolute[..|sourceDir|] == t[..|sourceDir|];
      }
    }
  }

  /**
   * The test as the docstring describes it: a path is local exactly when its
   * checked path lies within the source directory, unless generation is
   * forced. The local branch then always has a relative path.
   */
  function Classify(fs: FS, absolute: Path, sourceDir: Path, force: bool): (r: Placement)
    ensures r == Generate <==> force || !IsWithin(ToTest(fs, absolute), sourceDir)
    ensures r.Local? ==> sourceDir + r.relative == absolute
  {
    if force || !IsWithin(ToTest(fs, absolute), sourceDir) then Generate
    else
      ToTestWithin(fs, absolute, sourceDir);
      Local(absolute[|sourceDir|..])
  }

  /** Both tests agree on forced generation, on in-tree paths and on paths sorting before the source. */
  lemma AsWrittenAgrees(fs: FS, absolute: Path, sourceDir: Path, force: bool)
    requires force || IsWithin(ToTest(fs, absolute), sourceDir) || PathLess(ToTest(fs, absolute), sourceDir)
    ensures ClassifyAsWritten(fs, absolute, sourceDir, force) == Ok(Classify(fs, absolute, sourceDir, force))
  {
    if !force && IsWithin(ToTest(fs, absolute), sourceDir) {
      WithinNotLess(ToTest(fs, absolute), sourceDir);
      ToTestWithin(fs, absolute, sourceDir);
    }
  }

  /**
   * An image at /c/x.png (not an existing file) referenced from the source
   * /b lies outside the source but sorts after it: the written test raises
   * `ValueError` where a stem should have been generated.
   */
  lemma AsWrittenRaisesOutside()
    ensures ClassifyAsWritten(FS(map[], []), ["/", "c", "x.png"], ["/", "b"], false).Err?
    ensures Classify(FS(map[], []), ["/", "c", "x.png"], ["/", "b"], false) == Generate
  {
    var fs, a, b := FS(map[], []), ["/", "c", "x.png"], ["/", "b"];
    assert ToTest(fs, a) == a;
    assert StrLess("c", "b") == false;
    assert PathLess(a, b) == PathLess(a[1..], b[1..]);
    assert !IsWithin(a, b) by { assert a[..2] != b; }
  }

  /**
   * What `from_string` builds when the counter of the destination would
   * become `n`: the resolved path, and either the stem numbered `n` resolved
   * under the destination or the path relative to the source.
   */
  function Describe(fs: FS, ref: Reference, sourceDir: Path, destDir: Path, force: bool, cwd: Path, generated: Path, n: nat): (d: Descriptor)
    requires RefWellFormed(ref) && WellFormed(sourceDir) && WellFormed(destDir) && Normal(cwd)
    requires WellFormed(generated)
    ensures d.absolutePath == ResolvePath(RefPath(ref), Some(sourceDir), cwd)
    ensures d.nCalled == 0
    ensures d.isGenerated <==> force || !IsWithin(ToTest(fs, d.absolutePath), sourceDir)
    ensures d.isGenerated ==>
      && d.relativeNewStem == AutoStem(generated, n)
      && d.absoluteNewStem == Some(ResolvePath(d.relativeNewStem, Some(destDir), cwd))
      && Name(d.absoluteNewStem.value) == AutoName(n)
    ensures !d.isGenerated ==> d.absoluteNewStem == None && sourceDir + d.relativeNewStem == d.absolutePath
  {
    var absolute := ResolvePath(RefPath(ref), Some(sourceDir), cwd);
    match Classify(fs, absolute, sourceDir, force)
    case Generate =>
      var stem := AutoStem(generated, n);
      ResolveKeepsName(Join(destDir, stem), cwd);
      Descriptor(absolute, Some(ResolvePath(stem, Some(destDir), cwd)), stem, 0, true)
    case Local(rel) => Descriptor(absolute, None, rel, 0, false)
  }

  /** `from_string`: a stem is allocated exactly when the reference is placed as generated. */
  method FromString(alloc: PathAllocator, fs: FS, ref: Reference, sourceDir: Path, destDir: Path, force: bool, cwd: Path)
    returns (d: Descriptor)
    requires RefWellFormed(ref) && WellFormed(sourceDir) && WellFormed(destDir) && Normal(cwd)
    requires WellFormed(alloc.generated)
    modifies alloc
    ensures d == Describe(fs, ref, sourceDir, destDir, force, cwd, alloc.generated, NextCount(old(alloc.counters), destDir))
    ensures d.isGenerated ==> alloc.counters == old(alloc.counters)[destDir := NextCount(old(alloc.counters), destDir)]
    ensures !d.isGenerated ==> alloc.counters == old(alloc.counters)
  {
    var absolute := ResolvePath(RefPath(ref), Some(sourceDir), cwd);
    match Classify(fs, absolute, sourceDir, force)
    case Generate =>
      var stem := alloc.NextPath(destDir);
      d := Descriptor(absolute, Some(ResolvePath(stem, Some(destDir), cwd)), stem, 0, true);
    case Local(rel) =>
      d := Descriptor(absolute, None, rel, 0, false);
  }

  /** A generated stem without ".." parts resolves to a place directly under the destination. */
  lemma GeneratedStemUnderDest(generated: Path, n: nat, destDir: Path, cwd: Path)
    requires Normal(destDir) && Normal(cwd)
    requires Descending(generated)
    ensures ResolvePath(AutoStem(generated, n), Some(destDir), cwd) == destDir + AutoStem(generated, n)
  {
    var stem := AutoStem(generated, n);
    assert stem == generated + [AutoName(n)];
    DescendNormal(destDir, stem);
    ResolveNormal(destDir + stem, cwd);
  }
}
