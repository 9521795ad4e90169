/**
 * `ImgCopy` of `outputs/img_copy.py`: an image referenced from a Markdown
 * file that lies outside the source tree is copied into the build tree
 * under a generated name, and the reference is rewritten to that name.
 * Copies are made once per image and per run (`_copy_cache`).
 */
module ImgCopy {
  import opened Wrappers
  import opened Text
  import opened Paths
  import opened FileSystem
  import opened PathUtils
  import opened Descriptor
  import opened Patterns
  import opened Outputs

  /** The class-level `_copy_cache`: the images already copied, by their path string. */
  class CopyCache {
    var entries: set<string>

    constructor ()
      ensures entries == {}
    {
      entries := {};
    }

    /** `_copy_cache.add(key)`. */
    method Add(key: string)
      modifies this`entries
      ensures entries == old(entries) + {key}
    {
      entries := entries + {key};
    }

    /** The `finally` of `executor`: the cache is emptied when a run ends. */
    method Clear()
      modifies this
      ensures entries == {}
    {
      entries := {};
    }
  }

  /**
   * Where the referenced image is: a leading "/" means the build directory,
   * any other path is relative to the folder of the content file. (An
   * absolute path not starting with "/" does not exist on POSIX.)
   */
  function ImgLocation(original: string, contentPath: Path, buildDir: Path): (r: Path)
    requires WellFormed(contentPath) && WellFormed(buildDir)
    ensures WellFormed(r)
    ensures StartsWith(original, "/") && !StartsWith(original[1..], "/") ==> r == buildDir + Parse(original[1..])
    ensures !StartsWith(original, "/") ==> r == Parent(contentPath) + Parse(original)
  {
    assert WellFormed(Parent(contentPath)) by {
      if contentPath != [] && contentPath != Root {
        assert Tail(Parent(contentPath)) == Tail(contentPath)[..|Tail(contentPath)| - 1];
      }
    }
    if StartsWith(original, "/") then Join(buildDir, Parse(original[1..]))
    else Join(Parent(contentPath), Parse(original))
  }

  /** `img_path.relative_to(build_dir)`, or the path itself when that raises `ValueError`. */
  function BuildRelative(img: Path, buildDir: Path): (r: Path)
    requires WellFormed(img)
    ensures WellFormed(r)
    ensures IsWithin(img, buildDir) ==> buildDir + r == img
    ensures !IsWithin(img, buildDir) ==> r == img
  {
    match RelativeTo(img, buildDir)
    case Ok(rel) => RelativeWellFormed(img, buildDir); rel
    case Err(_) => img
  }

  /** What a stem must look like for the renaming below never to raise. */
  predicate StemLike(stem: Path) {
    WellFormed(stem) && Suffix(stem) == "" && Name(stem) != "" && Name(stem)[0] != '.'
  }

  /** The `with_stem` call cannot raise on such a stem. */
  lemma StemOk(stem: Path, absolute: Path)
    requires StemLike(stem) && WellFormed(absolute)
    ensures Stem(stem) == Name(stem)
    ensures WithStem(stem, Name(stem) + Stem(absolute)).Ok?
  {
    SuffixIsValid(absolute);
    NameIsPart(stem);
    assert Stem(stem) == Name(stem) by {
      assert NameStem(Name(stem)) + "" == Name(stem);
    }
    var longer := Name(stem) + Stem(absolute);
    assert longer[0] == Name(stem)[0];
    assert longer + Suffix(stem) == longer;
  }
  /** Nor can the `with_suffix` call on a name that does not start with a dot. */
  lemma SuffixOk(named: Path, absolute: Path)
    requires WellFormed(named) && WellFormed(absolute) && Name(named) != "" && Name(named)[0] != '.'
    ensures WithSuffix(named, Suffix(absolute)).Ok?
  {
    SuffixIsValid(absolute);
    var w := NameStem(Name(named)) + Suffix(absolute);
    assert w[0] == Name(named)[0];
  }
  /**
   * `new_path.with_stem(new_path.stem + absolute.stem).with_suffix(absolute.suffix)`:
   * the generated stem followed by the image's stem, then the image's suffix.
   * Neither call can raise.
   */
  function GeneratedName(stem: Path, absolute: Path): (r: Path)
    requires StemLike(stem) && WellFormed(absolute)
    ensures WellFormed(r)
    ensures Parent(r) == Parent(stem)
    ensures Name(r) == NameStem(Name(stem) + Stem(absolute)) + Suffix(absolute)
    ensures IsPart(Name(r)) && Name(r)[0] == Name(stem)[0]
  {
    StemOk(stem, absolute);
    var named := WithStem(stem, Stem(stem) + Stem(absolute)).value;
    assert Name(named) == Name(stem) + Stem(absolute);
    SuffixOk(named, absolute);
    var r := WithSuffix(named, Suffix(absolute)).value;
    NameIsPart(r);
    r
  }

  /** A generated stem is a valid argument of the renaming. */
  lemma AutoStemLike(generated: Path, n: nat)
    requires WellFormed(generated)
    ensures StemLike(AutoStem(generated, n))
  {
  }

  /** A name without dots has no suffix. */
  lemma NoDotStem(w: string)
    requires '.' !in w
    ensures NameStem(w) == w
  {
    assert LastIndexOf(w, '.') == -1;
  }

  lemma ConcatAssoc(a: string, b: string, c: string)
    ensures (a + b) + c == a + (b + c)
  {
  }

  /** An image stem without dots is kept whole: the new name is `auto_<n>_` + the image's name. */
  lemma GeneratedNameKeepsName(generated: Path, n: nat, absolute: Path)
    requires WellFormed(generated) && WellFormed(absolute)
    requires '.' !in Stem(absolute)
    ensures Name(GeneratedName(AutoStem(generated, n), absolute)) == AutoName(n) + Name(absolute)
  {
    var stem := AutoStem(generated, n);
    AutoStemLike(generated, n);
    var g := GeneratedName(stem, absolute);
    var w := AutoName(n) + Stem(absolute);
    assert Name(stem) == AutoName(n);
    assert Name(g) == NameStem(w) + Suffix(absolute);
    NoDotStem(w);
    ConcatAssoc(AutoName(n), Stem(absolute), Suffix(absolute));
    assert Stem(absolute) + Suffix(absolute) == Name(absolute);
  }

  /**
   * A dotted image stem loses what follows its last dot, since the second
   * call replaces that part as a suffix: `fig.v2.png` becomes `auto_<n>_fig.png`.
   */
  lemma DottedStemLosesTail(generated: Path, n: nat, absolute: Path, head: string, tail: string)
    requires WellFormed(generated) && WellFormed(absolute)
    requires Stem(absolute) == head + "." + tail && tail != [] && '.' !in tail
    ensures Name(GeneratedName(AutoStem(generated, n), absolute)) == AutoName(n) + head + Suffix(absolute)
  {
    AutoStemLike(generated, n);
    var w := AutoName(n) + Stem(absolute);
    assert Name(GeneratedName(AutoStem(generated, n), absolute)) == NameStem(w) + Suffix(absolute);
    ConcatAssoc(AutoName(n), head + ".", tail);
    ConcatAssoc(AutoName(n), head, ".");
    LastDotStem(AutoName(n) + head, tail);
  }

  /** Generated names from different counter values differ. */
  lemma GeneratedNamesDistinct(generated: Path, a: nat, b: nat, x: Path, y: Path)
    requires WellFormed(generated) && WellFormed(x) && WellFormed(y)
    requires GeneratedName(AutoStem(generated, a), x) == GeneratedName(AutoStem(generated, b), y)
    ensures a == b
  {
    AutoStemLike(generated, a);
    AutoStemLike(generated, b);
    var ga, gb := GeneratedName(AutoStem(generated, a), x), GeneratedName(AutoStem(generated, b), y);
    var na := Name(ga);
    assert na == NameStem(AutoName(a) + Stem(x)) + Suffix(x);
    assert na == NameStem(AutoName(b) + Stem(y)) + Suffix(y);
    SharedName(a, b, na, Stem(x), Suffix(x), Stem(y), Suffix(y));
  }

  /** A name both numbers could have produced determines the number. */
  lemma SharedName(a: nat, b: nat, name: string, sx: string, ux: string, sy: string, uy: string)
    requires name == NameStem(AutoName(a) + sx) + ux
    requires name == NameStem(AutoName(b) + sy) + uy
    ensures a == b
  {
    var A, B := AutoName(a), AutoName(b);
    PrefixOfName(A, sx, ux);
    PrefixOfName(B, sy, uy);
    assert |name| >= |A| && name[..|A|] == A;
    assert |name| >= |B| && name[..|B|] == B;
    if |A| <= |B| {
      assert B[..|A|] == name[..|B|][..|A|];
      AutoNamePrefix(a, b);
    } else {
      assert A[..|B|] == name[..|A|][..|B|];
      AutoNamePrefix(b, a);
    }
  }

  /** No `auto_<n>_` name is a proper prefix of another, and equal names have equal numbers. */
  lemma AutoNamePrefix(a: nat, b: nat)
    requires |AutoName(a)| <= |AutoName(b)| && AutoName(b)[..|AutoName(a)|] == AutoName(a)
    ensures a == b
  {
    var na, nb := AutoName(a), AutoName(b);
    var sa, sb := NatToString(a), NatToString(b);
    assert forall k :: 5 <= k < |nb| - 1 ==> nb[k] == sb[k - 5] && nb[k] != '_';
    assert na[|na| - 1] == '_' && nb[|na| - 1] == na[|na| - 1];
    assert |na| == |nb|;
    assert na == nb;
    AutoStemInjectiveName(a, b);
  }

  /** Equal `auto_<n>_` names have equal numbers. */
  lemma AutoStemInjectiveName(a: nat, b: nat)
    requires AutoName(a) == AutoName(b)
    ensures a == b
  {
    assert AutoName(a)[5..|AutoName(a)| - 1] == NatToString(a);
    assert AutoName(b)[5..|AutoName(b)| - 1] == NatToString(b);
    NatToStringInjective(a, b);
  }

  /** A dot-free prefix survives the suffix replacement. */
  lemma PrefixOfName(pre: string, stem: string, suf: string)
    requires '.' !in pre && pre != []
    ensures |NameStem(pre + stem) + suf| >= |pre|
    ensures (NameStem(pre + stem) + suf)[..|pre|] == pre
  {
    var w := pre + stem;
    match SuffixStart(w)
    case None =>
      assert NameStem(w) == w;
      assert (w + suf)[..|pre|] == w[..|pre|] == pre;
    case Some(i) =>
      assert forall k :: 0 <= k < |pre| ==> w[k] == pre[k] && w[k] != '.';
      assert i >= |pre|;
      assert NameStem(w) == w[..i];
      assert (w[..i] + suf)[..|pre|] == w[..|pre|] == pre;
  }

  /** What `from_string` is asked to place: the image path, made relative to the build directory when it can be. */
  function ImageRef(o: Output, site: Site): (r: Path)
    requires |o.rematch.groups| >= 2
    requires WellFormed(o.contentPath) && WellFormed(site.buildDir)
    ensures WellFormed(r)
  {
    BuildRelative(ImgLocation(Strip(o.rematch.groups[1]), o.contentPath, site.buildDir), site.buildDir)
  }

  /** The descriptor of a generated image satisfies what the renaming needs. */
  predicate GeneratedDescriptor(d: Descriptor) {
    && d.isGenerated
    && StemLike(d.relativeNewStem)
    && WellFormed(d.absolutePath)
    && d.absoluteNewStem.Some?
    && Normal(d.absoluteNewStem.value)
    && Name(d.absoluteNewStem.value) != ""
    && Normal(d.absolutePath)
  }

  /** `dest = absolute_new_stem.with_name(new_path.name)`: resolved, next to the resolved stem. */
  function CopyDest(d: Descriptor): (r: Path)
    requires GeneratedDescriptor(d)
    ensures Normal(r)
    ensures Parent(r) == Parent(d.absoluteNewStem.value)
    ensures Name(r) == Name(GeneratedName(d.relativeNewStem, d.absolutePath))
  {
    var n := Name(GeneratedName(d.relativeNewStem, d.absolutePath));
    WithNameNormal(d.absoluteNewStem.value, n);
    WithName(d.absoluteNewStem.value, n).value
  }

  /** A descriptor built for a generated image can be renamed. */
  lemma DescribeGenerated(fs: FS, ref: Reference, sourceDir: Path, destDir: Path, force: bool, cwd: Path, generated: Path, n: nat)
    requires RefWellFormed(ref) && WellFormed(sourceDir) && WellFormed(destDir) && Normal(cwd) && WellFormed(generated)
    requires Describe(fs, ref, sourceDir, destDir, force, cwd, generated, n).isGenerated
    ensures GeneratedDescriptor(Describe(fs, ref, sourceDir, destDir, force, cwd, generated, n))
  {
  }

  /** The descriptor `build` obtains for its image when the counter of the build directory becomes `n`. */
  function Place(o: Output, site: Site, fs: FS, generated: Path, n: nat, cwd: Path): (d: Descriptor)
    requires |o.rematch.groups| >= 2 && Normal(cwd) && WellFormed(o.contentPath) && WellFormed(generated)
    requires WellFormed(site.sourceDir) && WellFormed(site.buildDir)
    ensures d == Describe(fs, PathRef(ImageRef(o, site)), site.sourceDir, site.buildDir, false, cwd, generated, n)
    ensures d.isGenerated ==> GeneratedDescriptor(d)
  {
    var d := Describe(fs, PathRef(ImageRef(o, site)), site.sourceDir, site.buildDir, false, cwd, generated, n);
    if d.isGenerated then
      DescribeGenerated(fs, PathRef(ImageRef(o, site)), site.sourceDir, site.buildDir, false, cwd, generated, n);
      d
    else d
  }

  /** The effect of one `build`: the file system, whether the image joins the cache, and the result. */
  datatype Effect = Effect(fs: FS, cached: bool, result: Result<Output>)

  /** The replacement text: group 0 with every occurrence of group 1 replaced by the new path. */
  function Substituted(o: Output, text: string): (r: Output)
    requires |o.rematch.groups| >= 2
    ensures r == o.(subBy := ReplaceAll(o.rematch.groups[0], o.rematch.groups[1], text))
  {
    o.(subBy := ReplaceAll(o.rematch.groups[0], o.rematch.groups[1], text))
  }

  /** `str(new_path)`: the generated name, or the stripped original reference. */
  function NewText(o: Output, d: Descriptor): (r: string)
    requires |o.rematch.groups| >= 2
    requires d.isGenerated ==> GeneratedDescriptor(d)
    ensures d.isGenerated ==> r == ToStr(GeneratedName(d.relativeNewStem, d.absolutePath))
    ensures !d.isGenerated ==> r == Strip(o.rematch.groups[1])
  {
    if d.isGenerated then ToStr(GeneratedName(d.relativeNewStem, d.absolutePath)) else Strip(o.rematch.groups[1])
  }

  /**
   * `dest.parent.mkdir(parents=True, exist_ok=True)` then `shutil.copy(src, dest)`.
   * On success the source's content is at `dest`, dated `now`; nothing
   * present before is lost, whether or not a step raises.
   */
  function MkdirsThenCopy(fs: FS, src: Path, dest: Path, now: int, faults: set<Path>): (r: Outcome)
    requires Valid(fs) && Normal(src) && Normal(dest)
    ensures Valid(r.fs)
    ensures forall q :: q in fs.nodes ==> q in r.fs.nodes
  {
    ParentNormal(dest);
    var m := Mkdirs(fs, Parent(dest), faults, now);
    if m.raised.Some? then m
    else
      MkdirsKeeps(fs, m.fs, dest, now);
      CopyInto(m.fs, src, dest, now, faults);
      Copy(m.fs, src, dest, now, faults)
  }

  /**
   * The copy succeeds when no file or refusing path blocks the parents and
   * the source is a file other than the destination; the copy then holds
   * the source's content at the destination, dated `now`.
   */
  lemma MkdirsThenCopyLands(fs: FS, src: Path, dest: Path, now: int, faults: set<Path>)
    requires Valid(fs) && Normal(src) && Normal(dest)
    ensures MkdirsThenCopy(fs, src, dest, now, faults).raised.None? ==> IsFile(fs, src)
    ensures MkdirsThenCopy(fs, src, dest, now, faults).raised.None? && !IsDir(fs, dest) ==>
      dest in MkdirsThenCopy(fs, src, dest, now, faults).fs.nodes &&
      MkdirsThenCopy(fs, src, dest, now, faults).fs.nodes[dest] == File(now, fs.nodes[src].content)
    ensures CanMkdirs(fs, Parent(dest), faults) && IsFile(fs, src) && src != dest && !IsDir(fs, dest) && dest !in faults
      ==> MkdirsThenCopy(fs, src, dest, now, faults).raised.None?
  {
    ParentNormal(dest);
    var m := Mkdirs(fs, Parent(dest), faults, now);
    if m.raised.None? {
      MkdirsKeeps(fs, m.fs, dest, now);
      CopyInto(m.fs, src, dest, now, faults);
    }
  }

  /** `shutil.copy` to a path that is not a directory writes exactly there. */
  lemma CopyInto(g: FS, src: Path, dest: Path, now: int, faults: set<Path>)
    requires Valid(g) && Normal(src) && Normal(dest)
    ensures forall q :: q in g.nodes ==> q in Copy(g, src, dest, now, faults).fs.nodes
    ensures Copy(g, src, dest, now, faults).raised.None? ==> IsFile(g, src)
    ensures Copy(g, src, dest, now, faults).raised.None? && !IsDir(g, dest) ==>
      Copy(g, src, dest, now, faults).fs.nodes[dest] == File(now, g.nodes[src].content)
    ensures IsFile(g, src) && src != dest && !IsDir(g, dest) && IsDir(g, Parent(dest)) && dest !in faults ==>
      Copy(g, src, dest, now, faults).raised.None?
  {
    var t := CopyTarget(g, src, dest);
    if !IsDir(g, dest) {
      assert t == dest;
    }
  }

  /**
   * One `build` once the descriptor `d` is known. A generated image not yet
   * in the cache is copied when it is newer than its destination; either
   * step of the copy raising ends the build with that error and what was
   * done so far. Otherwise the reference is rewritten to `str(new_path)`.
   */
  function BuildEffect(o: Output, d: Descriptor, cache: set<string>, fs: FS, now: int, faults: set<Path>): (e: Effect)
    requires |o.rematch.groups| >= 2 && Valid(fs)
    requires d.isGenerated ==> GeneratedDescriptor(d)
    ensures Valid(e.fs)
    ensures forall q :: q in fs.nodes ==> q in e.fs.nodes
    ensures e.result.Ok? ==> e.result.value == Substituted(o, NewText(o, d))
  {
    var done := Ok(Substituted(o, NewText(o, d)));
    if d.isGenerated && ToStr(d.absolutePath) !in cache && Modified(fs, d.absolutePath, CopyDest(d)) then
      var c := MkdirsThenCopy(fs, d.absolutePath, CopyDest(d), now, faults);
      if c.raised.Some? then Effect(c.fs, false, Err(c.raised.value))
      else Effect(c.fs, true, done)
    else Effect(fs, false, done)
  }

  /** Whichever way the build goes, the reference is rewritten to `str(new_path)` when it returns. */
  lemma BuildRewrites(o: Output, d: Descriptor, cache: set<string>, fs: FS, now: int, faults: set<Path>)
    requires |o.rematch.groups| >= 2 && Valid(fs) && (d.isGenerated ==> GeneratedDescriptor(d))
    requires BuildEffect(o, d, cache, fs, now, faults).result.Ok?
    ensures BuildEffect(o, d, cache, fs, now, faults).result.value.subBy
      == ReplaceAll(o.rematch.groups[0], o.rematch.groups[1], NewText(o, d))
  {
  }

  /**
   * Nothing is copied for an image placed in the source tree, one already
   * in the cache, or one not newer than its destination.
   */
  lemma BuildSkips(o: Output, d: Descriptor, cache: set<string>, fs: FS, now: int, faults: set<Path>)
    requires |o.rematch.groups| >= 2 && Valid(fs) && (d.isGenerated ==> GeneratedDescriptor(d))
    requires !d.isGenerated || ToStr(d.absolutePath) in cache || !Modified(fs, d.absolutePath, CopyDest(d))
    ensures BuildEffect(o, d, cache, fs, now, faults) == Effect(fs, false, Ok(Substituted(o, NewText(o, d))))
  {
  }

  /**
   * An image that joins the cache was a generated file not yet cached, and
   * its content now sits at the destination (unless that is a directory,
   * into which `shutil.copy` copies instead).
   */
  lemma BuildCopies(o: Output, d: Descriptor, cache: set<string>, fs: FS, now: int, faults: set<Path>)
    requires |o.rematch.groups| >= 2 && Valid(fs) && (d.isGenerated ==> GeneratedDescriptor(d))
    requires BuildEffect(o, d, cache, fs, now, faults).cached
    ensures BuildEffect(o, d, cache, fs, now, faults).result.Ok?
    ensures d.isGenerated && ToStr(d.absolutePath) !in cache && IsFile(fs, d.absolutePath)
    ensures !IsDir(fs, CopyDest(d)) ==>
      && CopyDest(d) in BuildEffect(o, d, cache, fs, now, faults).fs.nodes
      && BuildEffect(o, d, cache, fs, now, faults).fs.nodes[CopyDest(d)] == File(now, fs.nodes[d.absolutePath].content)
  {
    var e := BuildEffect(o, d, cache, fs, now, faults);
    assert d.isGenerated && ToStr(d.absolutePath) !in cache && Modified(fs, d.absolutePath, CopyDest(d));
    var c := MkdirsThenCopy(fs, d.absolutePath, CopyDest(d), now, faults);
    assert c.raised.None? && e.fs == c.fs;
    MkdirsThenCopyLands(fs, d.absolutePath, CopyDest(d), now, faults);
  }

  /** A newer generated image not yet cached is copied when nothing blocks the copy. */
  lemma BuildCopiesWhenPossible(o: Output, d: Descriptor, cache: set<string>, fs: FS, now: int, faults: set<Path>)
    requires |o.rematch.groups| >= 2 && Valid(fs) && d.isGenerated && GeneratedDescriptor(d)
    requires ToStr(d.absolutePath) !in cache && Modified(fs, d.absolutePath, CopyDest(d))
    requires CanMkdirs(fs, Parent(CopyDest(d)), faults) && IsFile(fs, d.absolutePath)
    requires d.absolutePath != CopyDest(d) && !IsDir(fs, CopyDest(d)) && CopyDest(d) !in faults
    ensures BuildEffect(o, d, cache, fs, now, faults).cached
  {
    MkdirsThenCopyLands(fs, d.absolutePath, CopyDest(d), now, faults);
  }

  /** The `from_string` call of `build`, on the image path made relative to the build directory. */
  method Locate(o: Output, site: Site, alloc: PathAllocator, fs: FS, cwd: Path) returns (d: Descriptor)
    requires |o.rematch.groups| >= 2 && Normal(cwd) && WellFormed(o.contentPath) && WellFormed(alloc.generated)
    requires WellFormed(site.sourceDir) && WellFormed(site.buildDir)
    modifies alloc
    ensures d == Place(o, site, fs, alloc.generated, NextCount(old(alloc.counters), site.buildDir), cwd)
    ensures alloc.counters == Advanced(old(alloc.counters), site.buildDir, d.isGenerated)
  {
    ghost var n := NextCount(alloc.counters, site.buildDir);
    var ref := PathRef(ImageRef(o, site));
    d := FromString(alloc, fs, ref, site.sourceDir, site.buildDir, false, cwd);
    assert d == Place(o, site, fs, alloc.generated, n, cwd);
  }

  /** The second half of `build`: copy the placed image if needed, and rewrite the reference. */
  method CopyAndRewrite(o: Output, d: Descriptor, cache: CopyCache, fs: FS, now: int, faults: set<Path>)
    returns (fs': FS, r: Result<Output>)
    requires |o.rematch.groups| >= 2 && Valid(fs) && (d.isGenerated ==> GeneratedDescriptor(d))
    modifies cache`entries
    ensures
      var e := BuildEffect(o, d, old(cache.entries), fs, now, faults);
      fs' == e.fs && r == e.result && cache.entries == old(cache.entries) + (if e.cached then {ToStr(d.absolutePath)} else {})
  {
    var e := BuildEffect(o, d, cache.entries, fs, now, faults);
    if e.cached {
      cache.Add(ToStr(d.absolutePath));
    }
    fs', r := e.fs, e.result;
  }

  /**
   * `ImgCopy.build`, with `site` the container the output was added to
   * (`self.container`; a detached output raises on `build_dir` as
   * `Outputs.GeneratedDir` states). `d` is where the image was placed, with
   * the counter of the build directory advanced when a stem was generated;
   * the copy and the rewrite are those of `BuildEffect`, and a copied image
   * joins the cache under its path string.
   */
  method Build(o: Output, site: Site, alloc: PathAllocator, cache: CopyCache, fs: FS, now: int, faults: set<Path>, cwd: Path)
    returns (d: Descriptor, fs': FS, r: Result<Output>)
    requires |o.rematch.groups| >= 2 && Valid(fs) && Normal(cwd)
    requires WellFormed(o.contentPath) && WellFormed(alloc.generated)
    requires WellFormed(site.sourceDir) && WellFormed(site.buildDir)
    modifies alloc, cache
    ensures d == Place(o, site, fs, alloc.generated, NextCount(old(alloc.counters), site.buildDir), cwd)
    ensures alloc.counters == Advanced(old(alloc.counters), site.buildDir, d.isGenerated)
    ensures
      var e := BuildEffect(o, d, old(cache.entries), fs, now, faults);
      fs' == e.fs && r == e.result && cache.entries == old(cache.entries) + (if e.cached then {ToStr(d.absolutePath)} else {})
  {
    ghost var n, entries := NextCount(alloc.counters, site.buildDir), cache.entries;
    d := Locate(o, site, alloc, fs, cwd);
    assert d == Place(o, site, fs, alloc.generated, n, cwd);
    fs', r := CopyAndRewrite(o, d, cache, fs, now, faults);
    assert cache.entries == entries + (if BuildEffect(o, d, entries, fs, now, faults).cached then {ToStr(d.absolutePath)} else {});
  }
}
