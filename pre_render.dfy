/**
 * The two passes of `Renderer.pre_render` as functions on the file tree:
 * the feed pass, which rewrites each markdown file of the build directory
 * from its source counterpart and hands its text to the outputs container,
 * and the include pass, which finds the files named by
 * `{{< include … >}}` shortcodes and lists the markdown files that no
 * shortcode includes.
 */
module PreRendering {
  import opened Wrappers
  import opened Text
  import opened Paths
  import opened FileSystem
  import opened PathUtils
  import opened Patterns
  import opened Source
  import opened Outputs
  import Container

  // ---------------------------------------------------------------------
  // The feed pass

  /**
   * `resolve_path(file.relative_to(build_dir), source=True)`: the place of
   * a build file relative to the build directory, taken in the source
   * directory. `relative_to` raises for a file outside the build directory.
   */
  function SourceOf(f: Path, sourceDir: Path, buildDir: Path, cwd: Path): (r: Result<Path>)
    requires Normal(f) && Normal(sourceDir) && Normal(cwd)
    ensures r.Ok? <==> IsWithin(f, buildDir)
    ensures r.Ok? ==> Normal(r.value) && r.value == sourceDir + f[|buildDir|..]
  {
    match RelativeTo(f, buildDir)
    case Err(e) => Err(e)
    case Ok(rel) =>
      RelativeDescends(f, buildDir);
      DescendNormal(sourceDir, rel);
      ResolveNormal(sourceDir + rel, cwd);
      Ok(ResolvePath(rel, Some(sourceDir), cwd))
  }

  /** The parts of a resolved path below one of its bases only descend. */
  lemma RelativeDescends(f: Path, base: Path)
    requires Normal(f) && IsWithin(f, base)
    ensures Descending(f[|base|..])
  {
    var r := f[|base|..];
    assert |base| >= 1;
    assert forall i :: 0 <= i < |r| ==> r[i] == f[i + |base|];
  }

  /** The text fed and written: the source text, through the Jinja pass when it is enabled. */
  function Rendered(content: string, jinja: Option<string -> string>): string {
    if jinja.Some? then jinja.value(content) else content
  }

  /** The generated outputs live below `build_dir / GENERATED_PATH_IN_BUILD_DIR`; the feed pass skips them. */
  predicate Generated(f: Path, buildDir: Path, generated: Path) {
    IsStrictAncestor(Join(buildDir, generated), f)
  }

  /** The state of the feed pass: the tree, what raised, and the (file, text) pairs handed to the container. */
  datatype Feeding = Feeding(out: Outcome, fed: seq<(Path, string)>)

  /** The fixed parameters of the pass. */
  datatype Dirs = Dirs(sourceDir: Path, buildDir: Path, cwd: Path, generated: Path)

  predicate DirsValid(d: Dirs) {
    Normal(d.sourceDir) && Normal(d.buildDir) && Normal(d.cwd)
  }

  /** One turn of the feed loop: skip a generated file, else read the source, feed, write. */
  function FeedOne(fs: FS, f: Path, d: Dirs, jinja: Option<string -> string>, now: int, faults: set<Path>): (r: Feeding)
    requires Valid(fs) && Normal(f) && DirsValid(d)
    ensures Valid(r.out.fs)
    ensures r.fed == [] ==> r.out.fs == fs
    ensures r.fed == [] && r.out.raised.None? <==> Generated(f, d.buildDir, d.generated)
    ensures r.out.raised.Some? ==> r.out.fs == fs
    ensures r.fed != [] ==>
      && r.fed == [(f, r.fed[0].1)] && IsWithin(f, d.buildDir)
      && IsFile(fs, SourceOf(f, d.sourceDir, d.buildDir, d.cwd).value)
      && r.fed[0].1 == Rendered(fs.nodes[SourceOf(f, d.sourceDir, d.buildDir, d.cwd).value].content, jinja)
    ensures r.fed != [] && r.out.raised.None? ==> r.out.fs.nodes == fs.nodes[f := File(now, r.fed[0].1)]
    ensures r.fed != [] && r.out.raised.None? && IsFile(fs, f) ==> r.out.fs.order == fs.order
  {
    if Generated(f, d.buildDir, d.generated) then Feeding(Outcome(fs, None), [])
    else match SourceOf(f, d.sourceDir, d.buildDir, d.cwd)
      case Err(e) => Feeding(Outcome(fs, Some(e)), [])
      case Ok(src) =>
        match ReadText(fs, src)
        case Err(e) => Feeding(Outcome(fs, Some(e)), [])
        case Ok(content) =>
          var text := Rendered(content, jinja);
          Feeding(WriteText(fs, f, text, now, faults), [(f, text)])
  }

  /** The feed loop over `files`, stopping at the first turn that raises. */
  function Feed(fs: FS, files: seq<Path>, d: Dirs, jinja: Option<string -> string>, now: int, faults: set<Path>): (r: Feeding)
    requires Valid(fs) && DirsValid(d) && forall i :: 0 <= i < |files| ==> Normal(files[i])
    ensures Valid(r.out.fs)
    ensures |r.fed| <= |files|
    decreases |files|
  {
    if files == [] then Feeding(Outcome(fs, None), [])
    else
      var before := Feed(fs, files[..|files| - 1], d, jinja, now, faults);
      if before.out.raised.Some? then before
      else
        var one := FeedOne(before.out.fs, files[|files| - 1], d, jinja, now, faults);
        Feeding(one.out, before.fed + one.fed)
  }

  /** Once a turn has raised, the later turns change nothing. */
  lemma {:induction false} FeedStops(fs: FS, files: seq<Path>, k: nat, d: Dirs, jinja: Option<string -> string>, now: int, faults: set<Path>)
    requires Valid(fs) && DirsValid(d) && forall i :: 0 <= i < |files| ==> Normal(files[i])
    requires k <= |files| && Feed(fs, files[..k], d, jinja, now, faults).out.raised.Some?
    ensures Feed(fs, files, d, jinja, now, faults) == Feed(fs, files[..k], d, jinja, now, faults)
    decreases |files| - k
  {
    if k < |files| {
      var init := files[..|files| - 1];
      assert init[..k] == files[..k];
      FeedStops(fs, init, k, d, jinja, now, faults);
    } else {
      assert files[..k] == files;
    }
  }

  /** The loop over one more file: one more turn, unless an earlier one raised. */
  lemma FeedNext(fs: FS, files: seq<Path>, i: nat, d: Dirs, jinja: Option<string -> string>, now: int, faults: set<Path>)
    requires Valid(fs) && DirsValid(d) && forall k :: 0 <= k < |files| ==> Normal(files[k])
    requires i < |files| && Feed(fs, files[..i], d, jinja, now, faults).out.raised.None?
    ensures var before := Feed(fs, files[..i], d, jinja, now, faults);
            var one := FeedOne(before.out.fs, files[i], d, jinja, now, faults);
            Feed(fs, files[..i + 1], d, jinja, now, faults) == Feeding(one.out, before.fed + one.fed)
  {
    assert files[..i + 1][..i] == files[..i];
  }

  /** The loop after one more turn from `g`, the tree the earlier turns left; a turn that raises is the last. */
  lemma FeedAdvance(fs: FS, files: seq<Path>, i: nat, d: Dirs, jinja: Option<string -> string>, now: int, faults: set<Path>,
                    g: FS, fed: seq<(Path, string)>, one: Feeding)
    requires Valid(fs) && DirsValid(d) && forall k :: 0 <= k < |files| ==> Normal(files[k])
    requires i < |files| && Feed(fs, files[..i], d, jinja, now, faults) == Feeding(Outcome(g, None), fed)
    requires Valid(g) && one == FeedOne(g, files[i], d, jinja, now, faults)
    ensures Feed(fs, files[..i + 1], d, jinja, now, faults) == Feeding(one.out, fed + one.fed)
    ensures one.out.raised.Some? ==> Feed(fs, files, d, jinja, now, faults) == Feeding(one.out, fed + one.fed)
  {
    FeedNext(fs, files, i, d, jinja, now, faults);
    if one.out.raised.Some? {
      FeedStops(fs, files, i + 1, d, jinja, now, faults);
    }
  }

  /** The whole feed pass: the walk of the build directory, which raises when it is not a directory, then the loop. */
  function FeedAll(fs: FS, d: Dirs, jinja: Option<string -> string>, now: int, faults: set<Path>): (r: Feeding)
    requires Valid(fs) && DirsValid(d)
    ensures Valid(r.out.fs)
    ensures !IsDir(fs, d.buildDir) ==> r == Feeding(Outcome(fs, r.out.raised), []) && r.out.raised.Some?
  {
    match MarkdownFiles(fs, d.buildDir)
    case Err(e) =>
      WithExtensionExactly(fs, d.buildDir, Several([".md", ".qmd"]));
      Feeding(Outcome(fs, Some(e)), [])
    case Ok(files) =>
      WithExtensionExactly(fs, d.buildDir, Several([".md", ".qmd"]));
      assert forall i :: 0 <= i < |files| ==> files[i] in files && IsFile(fs, files[i]);
      Feed(fs, files, d, jinja, now, faults)
  }

  /** The feed pass is the walk's error, or the loop over the walk's files. */
  lemma FeedAllCases(fs: FS, d: Dirs, jinja: Option<string -> string>, now: int, faults: set<Path>)
    requires Valid(fs) && DirsValid(d)
    ensures var listing := MarkdownFiles(fs, d.buildDir);
            && (listing.Err? ==> FeedAll(fs, d, jinja, now, faults) == Feeding(Outcome(fs, Some(listing.error)), []))
            && (listing.Ok? ==> (forall i :: 0 <= i < |listing.value| ==> Normal(listing.value[i]))
                                && FeedAll(fs, d, jinja, now, faults) == Feed(fs, listing.value, d, jinja, now, faults))
  {
    WithExtensionExactly(fs, d.buildDir, Several([".md", ".qmd"]));
    var listing := MarkdownFiles(fs, d.buildDir);
    if listing.Ok? {
      assert forall i :: 0 <= i < |listing.value| ==> listing.value[i] in listing.value && IsFile(fs, listing.value[i]);
    }
  }

  /** The container's `_instances` and their key order after `feed_from_content` for each fed pair in turn. */
  function Absorbed(m: map<Path, seq<Output>>, order: seq<Path>, fed: seq<(Path, string)>, site: Site): (map<Path, seq<Output>>, seq<Path>)
    decreases |fed|
  {
    if fed == [] then (m, order)
    else
      var before := Absorbed(m, order, fed[..|fed| - 1], site);
      var p := fed[|fed| - 1].0;
      var outs := Container.Attached(Container.Fed(Container.Scan(fed[|fed| - 1].1), p, 3), site);
      (Container.Joined(before.0, p, outs), Container.JoinedOrder(before.1, before.0, p, outs))
  }

  /** Absorbing two runs of pairs is absorbing the first, then the second. */
  lemma {:induction false} AbsorbedAppend(m: map<Path, seq<Output>>, order: seq<Path>, a: seq<(Path, string)>, b: seq<(Path, string)>, site: Site)
    ensures Absorbed(m, order, a + b, site) == Absorbed(Absorbed(m, order, a, site).0, Absorbed(m, order, a, site).1, b, site)
    decreases |b|
  {
    if b == [] {
      assert a + b == a;
    } else {
      assert (a + b)[..|a + b| - 1] == a + b[..|b| - 1];
      AbsorbedAppend(m, order, a, b[..|b| - 1], site);
    }
  }

  /** The files the pass feeds: those of `files` outside the generated directory, in order. */
  function Fresh(files: seq<Path>, d: Dirs): (r: seq<Path>)
    ensures forall f :: f in r <==> f in files && !Generated(f, d.buildDir, d.generated)
    ensures |r| <= |files|
    decreases |files|
  {
    if files == [] then []
    else
      var before := Fresh(files[..|files| - 1], d);
      var f := files[|files| - 1];
      assert files == files[..|files| - 1] + [f];
      if Generated(f, d.buildDir, d.generated) then before else before + [f]
  }

  function FedPaths(fed: seq<(Path, string)>): (r: seq<Path>)
    ensures |r| == |fed| && forall k :: 0 <= k < |fed| ==> r[k] == fed[k].0
  {
    seq(|fed|, k requires 0 <= k < |fed| => fed[k].0)
  }

  lemma FedPathsAppend(a: seq<(Path, string)>, b: seq<(Path, string)>)
    ensures FedPaths(a + b) == FedPaths(a) + FedPaths(b)
  {
    var l, r := FedPaths(a + b), FedPaths(a) + FedPaths(b);
    assert |l| == |r|;
    forall k | 0 <= k < |l| ensures l[k] == r[k] {
      if k < |a| {
        assert (a + b)[k] == a[k];
      } else {
        assert (a + b)[k] == b[k - |a|];
      }
    }
  }

  // ---------------------------------------------------------------------
  // What the feed pass does

  /** Each turn only rewrites an existing file: the entries, their order and their kinds stay. */
  lemma FeedOneShape(fs: FS, f: Path, d: Dirs, jinja: Option<string -> string>, now: int, faults: set<Path>)
    requires Valid(fs) && Normal(f) && DirsValid(d) && IsFile(fs, f)
    ensures SameShape(fs, FeedOne(fs, f, d, jinja, now, faults).out.fs)
  {
    var r := FeedOne(fs, f, d, jinja, now, faults);
    if r.fed != [] && r.out.raised.None? {
      assert r.out.fs.nodes.Keys == fs.nodes.Keys;
    }
  }

  /**
   * The loop over files that exist keeps the tree's shape, so a walk of the
   * build directory made after it, or while it runs, lists the same files.
   */
  lemma {:induction false} FeedShape(fs: FS, files: seq<Path>, d: Dirs, jinja: Option<string -> string>, now: int, faults: set<Path>)
    requires Valid(fs) && DirsValid(d) && forall i :: 0 <= i < |files| ==> Normal(files[i]) && IsFile(fs, files[i])
    ensures SameShape(fs, Feed(fs, files, d, jinja, now, faults).out.fs)
    ensures MarkdownFiles(Feed(fs, files, d, jinja, now, faults).out.fs, d.buildDir) == MarkdownFiles(fs, d.buildDir)
    decreases |files|
  {
    var r := Feed(fs, files, d, jinja, now, faults).out.fs;
    if files != [] {
      var init := files[..|files| - 1];
      FeedShape(fs, init, d, jinja, now, faults);
      var before := Feed(fs, init, d, jinja, now, faults);
      if before.out.raised.None? {
        var f := files[|files| - 1];
        FeedOneShape(before.out.fs, f, d, jinja, now, faults);
      }
    }
    SameShapeMarkdown(fs, r, d.buildDir);
  }

  /** With no error, the pass feeds exactly the non-generated files, in the walk's order. */
  lemma {:induction false} FeedCovers(fs: FS, files: seq<Path>, d: Dirs, jinja: Option<string -> string>, now: int, faults: set<Path>)
    requires Valid(fs) && DirsValid(d) && forall i :: 0 <= i < |files| ==> Normal(files[i])
    requires Feed(fs, files, d, jinja, now, faults).out.raised.None?
    ensures FedPaths(Feed(fs, files, d, jinja, now, faults).fed) == Fresh(files, d)
    decreases |files|
  {
    if files != [] {
      var init, f := files[..|files| - 1], files[|files| - 1];
      var before, more := FeedSplit(fs, files, d, jinja, now, faults);
      FeedCovers(fs, init, d, jinja, now, faults);
      CoversStep(before.fed, more, f, init, d);
      InitLast(files);
    }
  }

  /** The last turn of a loop that raised nothing: the turns before it raised nothing, and it fed at most its own file. */
  lemma FeedSplit(fs: FS, files: seq<Path>, d: Dirs, jinja: Option<string -> string>, now: int, faults: set<Path>)
    returns (before: Feeding, more: seq<(Path, string)>)
    requires Valid(fs) && DirsValid(d) && forall i :: 0 <= i < |files| ==> Normal(files[i])
    requires files != [] && Feed(fs, files, d, jinja, now, faults).out.raised.None?
    ensures before == Feed(fs, files[..|files| - 1], d, jinja, now, faults) && before.out.raised.None?
    ensures Feed(fs, files, d, jinja, now, faults).fed == before.fed + more
    ensures more == [] <==> Generated(files[|files| - 1], d.buildDir, d.generated)
    ensures more != [] ==> more == [(files[|files| - 1], more[0].1)]
  {
    before := Feed(fs, files[..|files| - 1], d, jinja, now, faults);
    more := FeedOne(before.out.fs, files[|files| - 1], d, jinja, now, faults).fed;
  }

  lemma InitLast(files: seq<Path>)
    requires files != []
    ensures files[..|files| - 1] + [files[|files| - 1]] == files
  {
  }

  lemma CoversStep(fed: seq<(Path, string)>, more: seq<(Path, string)>, f: Path, init: seq<Path>, d: Dirs)
    requires FedPaths(fed) == Fresh(init, d)
    requires more == [] <==> Generated(f, d.buildDir, d.generated)
    requires more != [] ==> more == [(f, more[0].1)]
    ensures FedPaths(fed + more) == Fresh(init + [f], d)
  {
    assert (init + [f])[..|init|] == init;
    FedPathsAppend(fed, more);
    assert FedPaths(more) == (if more == [] then [] else [f]);
  }

  /** The source and build trees are apart: neither directory is inside the other. */
  predicate Apart(d: Dirs) {
    !IsWithin(d.sourceDir, d.buildDir) && !IsWithin(d.buildDir, d.sourceDir)
  }

  /** A build file's source counterpart is never in the build tree when the trees are apart. */
  lemma SourceOutsideBuild(f: Path, d: Dirs)
    requires DirsValid(d) && Apart(d) && Normal(f) && IsWithin(f, d.buildDir)
    ensures !IsWithin(SourceOf(f, d.sourceDir, d.buildDir, d.cwd).value, d.buildDir)
  {
    var src := d.sourceDir + f[|d.buildDir|..];
    assert src[..|d.sourceDir|] == d.sourceDir;
    if |d.buildDir| <= |d.sourceDir| {
      assert src[..|d.buildDir|] == d.sourceDir[..|d.buildDir|];
    } else if |d.buildDir| <= |src| {
      assert src[..|d.buildDir|][..|d.sourceDir|] == d.sourceDir;
    }
  }

  /** Every fed pair is a build file with the rendered text of its source in `fs`. */
  predicate FedFrom(fs: FS, fed: seq<(Path, string)>, d: Dirs, jinja: Option<string -> string>)
    requires DirsValid(d)
  {
    forall k :: 0 <= k < |fed| ==>
      && Normal(fed[k].0) && IsWithin(fed[k].0, d.buildDir)
      && IsFile(fs, SourceOf(fed[k].0, d.sourceDir, d.buildDir, d.cwd).value)
      && fed[k].1 == Rendered(fs.nodes[SourceOf(fed[k].0, d.sourceDir, d.buildDir, d.cwd).value].content, jinja)
  }

  /** Each fed file holds, in `g`, the text it was fed, written at `now`. */
  predicate Holds(g: FS, fed: seq<(Path, string)>, now: int) {
    forall k :: 0 <= k < |fed| ==> fed[k].0 in g.nodes && g.nodes[fed[k].0] == File(now, fed[k].1)
  }

  /** Outside the build tree, `g` has the entries of `fs`, unchanged, and no others. */
  predicate KeptOutside(fs: FS, g: FS, buildDir: Path) {
    && (forall p :: p in g.nodes && !IsWithin(p, buildDir) ==> p in fs.nodes)
    && (forall p :: p in fs.nodes && !IsWithin(p, buildDir) ==> p in g.nodes && g.nodes[p] == fs.nodes[p])
  }

  /**
   * When the trees are apart, every fed pair carries the rendered text of
   * its file's source as it was before the pass (the pass writes only in
   * the build tree), and with distinct files each build file ends up
   * holding exactly the text it was fed.
   */
  lemma {:induction false} FeedTexts(fs: FS, files: seq<Path>, d: Dirs, jinja: Option<string -> string>, now: int, faults: set<Path>)
    requires Valid(fs) && DirsValid(d) && Apart(d) && Distinct(files)
    requires forall i :: 0 <= i < |files| ==> Normal(files[i]) && IsWithin(files[i], d.buildDir)
    ensures var r := Feed(fs, files, d, jinja, now, faults);
      && (forall k :: 0 <= k < |r.fed| ==> r.fed[k].0 in files)
      && FedFrom(fs, r.fed, d, jinja)
      && (r.out.raised.None? ==> Holds(r.out.fs, r.fed, now))
      && KeptOutside(fs, r.out.fs, d.buildDir)
    decreases |files|
  {
    if files != [] {
      var init := files[..|files| - 1];
      var f := files[|files| - 1];
      assert Distinct(init) by {
        assert forall i :: 0 <= i < |init| ==> init[i] == files[i];
      }
      FeedTexts(fs, init, d, jinja, now, faults);
      var before := Feed(fs, init, d, jinja, now, faults);
      if before.out.raised.None? {
        var one := FeedOne(before.out.fs, f, d, jinja, now, faults);
        assert Feed(fs, files, d, jinja, now, faults) == Feeding(one.out, before.fed + one.fed);
        FeedStep(fs, before.out.fs, before.fed, f, init, d, jinja, now, faults);
      }
    }
  }

  lemma FedInStep(fed: seq<(Path, string)>, more: seq<(Path, string)>, f: Path, init: seq<Path>)
    requires forall k :: 0 <= k < |fed| ==> fed[k].0 in init
    requires forall k :: 0 <= k < |more| ==> more[k].0 == f
    ensures forall k :: 0 <= k < |fed + more| ==> (fed + more)[k].0 in init + [f]
  {
    forall k | 0 <= k < |fed + more|
      ensures (fed + more)[k].0 in init + [f]
    {
      if k < |fed| {
        assert (fed + more)[k] == fed[k];
      } else {
        assert (fed + more)[k] == more[k - |fed|];
      }
    }
  }

  /** The facts of `FeedTexts` carried over one more turn of the loop. */
  lemma FeedStep(fs: FS, g: FS, fed: seq<(Path, string)>, f: Path, init: seq<Path>, d: Dirs, jinja: Option<string -> string>, now: int, faults: set<Path>)
    requires Valid(fs) && Valid(g) && DirsValid(d) && Apart(d) && Normal(f) && IsWithin(f, d.buildDir) && f !in init
    requires forall k :: 0 <= k < |fed| ==> fed[k].0 in init
    requires FedFrom(fs, fed, d, jinja) && Holds(g, fed, now) && KeptOutside(fs, g, d.buildDir)
    ensures var one := FeedOne(g, f, d, jinja, now, faults);
      && (forall k :: 0 <= k < |fed + one.fed| ==> (fed + one.fed)[k].0 in init + [f])
      && FedFrom(fs, fed + one.fed, d, jinja)
      && (one.out.raised.None? ==> Holds(one.out.fs, fed + one.fed, now))
      && KeptOutside(fs, one.out.fs, d.buildDir)
  {
    var one := FeedOne(g, f, d, jinja, now, faults);
    FedInStep(fed, one.fed, f, init);
    if one.fed != [] {
      var t := one.fed[0].1;
      assert one.fed == [(f, t)];
      SourceOutsideBuild(f, d);
      FedFromAppend(fs, g, fed, f, t, d, jinja);
      if one.out.raised.None? {
        HoldsAppend(g, one.out.fs, fed, f, t, now);
        KeptOutsideWrite(g, one.out.fs, f, File(now, t), d.buildDir);
        KeptOutsideTrans(fs, g, one.out.fs, d.buildDir);
      }
    }
  }

  lemma FedFromAppend(fs: FS, g: FS, fed: seq<(Path, string)>, f: Path, t: string, d: Dirs, jinja: Option<string -> string>)
    requires DirsValid(d) && Normal(f) && IsWithin(f, d.buildDir)
    requires FedFrom(fs, fed, d, jinja) && KeptOutside(fs, g, d.buildDir)
    requires !IsWithin(SourceOf(f, d.sourceDir, d.buildDir, d.cwd).value, d.buildDir)
    requires IsFile(g, SourceOf(f, d.sourceDir, d.buildDir, d.cwd).value)
    requires t == Rendered(g.nodes[SourceOf(f, d.sourceDir, d.buildDir, d.cwd).value].content, jinja)
    ensures FedFrom(fs, fed + [(f, t)], d, jinja)
  {
    var src := SourceOf(f, d.sourceDir, d.buildDir, d.cwd).value;
    assert src in fs.nodes && g.nodes[src] == fs.nodes[src];
    var all := fed + [(f, t)];
    forall k | 0 <= k < |all|
      ensures Normal(all[k].0) && IsWithin(all[k].0, d.buildDir)
      ensures IsFile(fs, SourceOf(all[k].0, d.sourceDir, d.buildDir, d.cwd).value)
      ensures all[k].1 == Rendered(fs.nodes[SourceOf(all[k].0, d.sourceDir, d.buildDir, d.cwd).value].content, jinja)
    {
      if k < |fed| {
        assert all[k] == fed[k];
      }
    }
  }

  lemma HoldsAppend(g: FS, h: FS, fed: seq<(Path, string)>, f: Path, t: string, now: int)
    requires Holds(g, fed, now) && forall k :: 0 <= k < |fed| ==> fed[k].0 != f
    requires h.nodes == g.nodes[f := File(now, t)]
    ensures Holds(h, fed + [(f, t)], now)
  {
    var all := fed + [(f, t)];
    forall k | 0 <= k < |all|
      ensures all[k].0 in h.nodes && h.nodes[all[k].0] == File(now, all[k].1)
    {
      if k < |fed| {
        assert all[k] == fed[k];
      }
    }
  }

  lemma KeptOutsideWrite(g: FS, h: FS, f: Path, n: Node, buildDir: Path)
    requires IsWithin(f, buildDir) && h.nodes == g.nodes[f := n]
    ensures KeptOutside(g, h, buildDir)
  {
  }

  lemma KeptOutsideTrans(a: FS, b: FS, c: FS, buildDir: Path)
    requires KeptOutside(a, b, buildDir) && KeptOutside(b, c, buildDir)
    ensures KeptOutside(a, c, buildDir)
  {
  }

  // ---------------------------------------------------------------------
  // The include pass

  /** Group 1 of each match, stripped: the target each include shortcode names. */
  function TargetsOf(ms: seq<Match>): (r: seq<string>)
    requires forall k :: 0 <= k < |ms| ==> |ms[k].groups| == 2
    ensures |r| == |ms| && forall k :: 0 <= k < |ms| ==> r[k] == Strip(ms[k].groups[1])
  {
    if ms == [] then [] else [Strip(ms[0].groups[1])] + TargetsOf(ms[1..])
  }

  /**
   * The targets of the include shortcodes of `content` from `pos` on, in
   * order: the scan `finditer` makes, keeping only the stripped group 1.
   */
  function IncludeTargets(content: string, pos: nat): (r: seq<string>)
    decreases |content| - pos + 1
  {
    PatternsValid();
    if pos > |content| then []
    else
      match MatchAt(content, pos, QuartoInclude)
      case Some(m) => [Strip(m.groups[1])] + IncludeTargets(content, m.end)
      case None => IncludeTargets(content, pos + 1)
  }

  /** The include targets are group 1 of the matches of `finditer`, stripped. */
  lemma {:induction false} IncludeTargetsAreMatches(content: string, pos: nat)
    ensures ValidRegex(QuartoInclude)
    ensures forall k :: 0 <= k < |FindIter(content, QuartoInclude, pos)| ==> |FindIter(content, QuartoInclude, pos)[k].groups| == 2
    ensures IncludeTargets(content, pos) == TargetsOf(FindIter(content, QuartoInclude, pos))
    decreases |content| - pos + 1
  {
    PatternsValid();
    var ms := FindIter(content, QuartoInclude, pos);
    forall k | 0 <= k < |ms| ensures |ms[k].groups| == 2 {
      assert MatchAt(content, ms[k].start, QuartoInclude) == Some(ms[k]);
    }
    if pos <= |content| {
      match MatchAt(content, pos, QuartoInclude)
      case Some(m) =>
        IncludeTargetsAreMatches(content, m.end);
        assert ms == [m] + FindIter(content, QuartoInclude, m.end);
        assert ms[1..] == FindIter(content, QuartoInclude, m.end);
      case None =>
        IncludeTargetsAreMatches(content, pos + 1);
    }
  }

  /** `resolve_path(target, build=True)`: the build path an include target names. */
  function TargetPath(t: string, buildDir: Path, cwd: Path): (r: Path)
    requires Normal(buildDir) && Normal(cwd)
    ensures Normal(r)
  {
    ResolvePath(Parse(t), Some(buildDir), cwd)
  }

  /** The targets among `targets` that name a file of `fs`. */
  function IncludedFrom(fs: FS, targets: seq<string>, buildDir: Path, cwd: Path): (r: set<Path>)
    requires Normal(buildDir) && Normal(cwd)
    ensures forall p :: p in r <==> IsFile(fs, p) && exists t :: t in targets && p == TargetPath(t, buildDir, cwd)
    decreases |targets|
  {
    if targets == [] then {}
    else
      var before := IncludedFrom(fs, targets[..|targets| - 1], buildDir, cwd);
      var t := targets[|targets| - 1];
      var p := TargetPath(t, buildDir, cwd);
      assert targets == targets[..|targets| - 1] + [t];
      if IsFile(fs, p) then before + {p} else before
  }

  /** One more target: it joins the set when it names a file. */
  lemma IncludedFromNext(fs: FS, targets: seq<string>, k: nat, buildDir: Path, cwd: Path)
    requires Normal(buildDir) && Normal(cwd) && k < |targets|
    ensures var p := TargetPath(targets[k], buildDir, cwd);
            IncludedFrom(fs, targets[..k + 1], buildDir, cwd)
            == IncludedFrom(fs, targets[..k], buildDir, cwd) + (if IsFile(fs, p) then {p} else {})
  {
    assert targets[..k + 1][..k] == targets[..k];
  }

  /** The file `f` has an include shortcode whose target is `p`. */
  predicate Includes(fs: FS, f: Path, p: Path, buildDir: Path, cwd: Path)
    requires Normal(buildDir) && Normal(cwd)
  {
    IsFile(fs, f) && exists t :: t in IncludeTargets(fs.nodes[f].content, 0) && p == TargetPath(t, buildDir, cwd)
  }

  /** `included_files` after the include loop over `files`. */
  function IncludedIn(fs: FS, files: seq<Path>, buildDir: Path, cwd: Path): (r: set<Path>)
    requires Normal(buildDir) && Normal(cwd)
    requires forall i :: 0 <= i < |files| ==> IsFile(fs, files[i])
    ensures forall p :: p in r <==> IsFile(fs, p) && exists f :: f in files && Includes(fs, f, p, buildDir, cwd)
    decreases |files|
  {
    if files == [] then {}
    else
      var init, f := files[..|files| - 1], files[|files| - 1];
      assert IsFile(fs, f);
      var before := IncludedIn(fs, init, buildDir, cwd);
      var from := IncludedFrom(fs, IncludeTargets(fs.nodes[f].content, 0), buildDir, cwd);
      IncludedStep(fs, init, f, before, from, buildDir, cwd);
      InitLast(files);
      before + from
  }

  /** One more file: its targets that name files join the set. */
  lemma IncludedInNext(fs: FS, files: seq<Path>, i: nat, buildDir: Path, cwd: Path)
    requires Normal(buildDir) && Normal(cwd) && i < |files|
    requires forall k :: 0 <= k < |files| ==> IsFile(fs, files[k])
    ensures IncludedIn(fs, files[..i + 1], buildDir, cwd)
            == IncludedIn(fs, files[..i], buildDir, cwd) + IncludedFrom(fs, IncludeTargets(fs.nodes[files[i]].content, 0), buildDir, cwd)
  {
    assert files[..i + 1][..i] == files[..i];
  }

  /** Adding one file's targets to the included set of the files before it. */
  lemma IncludedStep(fs: FS, init: seq<Path>, f: Path, before: set<Path>, from: set<Path>, buildDir: Path, cwd: Path)
    requires Normal(buildDir) && Normal(cwd) && IsFile(fs, f)
    requires forall p :: p in before <==> IsFile(fs, p) && exists g :: g in init && Includes(fs, g, p, buildDir, cwd)
    requires forall p :: p in from <==> IsFile(fs, p) && exists t :: t in IncludeTargets(fs.nodes[f].content, 0) && p == TargetPath(t, buildDir, cwd)
    ensures forall p :: p in before + from <==> IsFile(fs, p) && exists g :: g in init + [f] && Includes(fs, g, p, buildDir, cwd)
  {
    forall p | p in before + from
      ensures IsFile(fs, p) && exists g :: g in init + [f] && Includes(fs, g, p, buildDir, cwd)
    {
      if p in from {
        assert Includes(fs, f, p, buildDir, cwd) && f in init + [f];
      } else {
        var g :| g in init && Includes(fs, g, p, buildDir, cwd);
        assert g in init + [f];
      }
    }
    forall p | IsFile(fs, p) && exists g :: g in init + [f] && Includes(fs, g, p, buildDir, cwd)
      ensures p in before + from
    {
      var g :| g in init + [f] && Includes(fs, g, p, buildDir, cwd);
      if g != f {
        assert g in init;
      }
    }
  }

  /**
   * The filter that sets `not_included_files`: in the walk's order, the
   * files that are files and whose resolved path was not included. A
   * resolved path resolves to itself, so the test is on the file itself.
   */
  function Unincluded(fs: FS, files: seq<Path>, included: set<Path>, buildDir: Path, cwd: Path): (r: seq<Path>)
    requires Normal(buildDir) && Normal(cwd) && forall i :: 0 <= i < |files| ==> Normal(files[i])
    ensures forall p :: p in r <==> p in files && IsFile(fs, p) && p !in included
    ensures Distinct(files) ==> Distinct(r)
    decreases |files|
  {
    if files == [] then []
    else
      var rest := Unincluded(fs, files[1..], included, buildDir, cwd);
      var p := files[0];
      ResolveNormal(p, cwd);
      assert ResolvePath(p, Some(buildDir), cwd) == p;
      assert forall q :: q in files <==> q == p || q in files[1..];
      if IsFile(fs, p) && ResolvePath(p, Some(buildDir), cwd) !in included then [p] + rest else rest
  }

  /** A markdown source of the build directory, as the walk finds them. */
  predicate Markdown(fs: FS, dir: Path, p: Path) {
    IsFile(fs, p) && IsStrictAncestor(dir, p) && (Suffix(p) == ".md" || Suffix(p) == ".qmd")
  }

  /** `parsed_items.not_included_files` as the include pass computes it on `fs`; the walk raises when the build directory is not a directory. */
  function NotIncludedFiles(fs: FS, buildDir: Path, cwd: Path): (r: Result<seq<Path>>)
    requires Valid(fs) && Normal(buildDir) && Normal(cwd)
    ensures r.Ok? <==> IsDir(fs, buildDir)
  {
    match MarkdownFiles(fs, buildDir)
    case Err(e) => Err(e)
    case Ok(files) =>
      MarkdownListing(fs, buildDir);
      Ok(Unincluded(fs, files, IncludedIn(fs, files, buildDir, cwd), buildDir, cwd))
  }

  /** The walk of a build directory lists its markdown files, each once, all resolved paths of files. */
  lemma MarkdownListing(fs: FS, buildDir: Path)
    requires Valid(fs) && Normal(buildDir) && IsDir(fs, buildDir)
    ensures MarkdownFiles(fs, buildDir).Ok?
    ensures var files := MarkdownFiles(fs, buildDir).value;
      && Distinct(files)
      && (forall q :: q in files <==> Markdown(fs, buildDir, q))
      && (forall i :: 0 <= i < |files| ==> IsFile(fs, files[i]) && Normal(files[i]))
  {
    MarkdownExactly(fs, buildDir);
    var files := MarkdownFiles(fs, buildDir).value;
    forall i | 0 <= i < |files|
      ensures IsFile(fs, files[i]) && Normal(files[i])
    {
      assert files[i] in files;
    }
  }

  /** Every file the include pass reports is a normalised path. */
  lemma NotIncludedNormal(fs: FS, buildDir: Path, cwd: Path)
    requires Valid(fs) && Normal(buildDir) && Normal(cwd)
    ensures NotIncludedFiles(fs, buildDir, cwd).Ok? ==>
      forall i :: 0 <= i < |NotIncludedFiles(fs, buildDir, cwd).value| ==> Normal(NotIncludedFiles(fs, buildDir, cwd).value[i])
  {
    if IsDir(fs, buildDir) {
      MarkdownListing(fs, buildDir);
      var r := NotIncludedFiles(fs, buildDir, cwd).value;
      forall i | 0 <= i < |r|
        ensures Normal(r[i])
      {
        assert r[i] in r;
      }
    }
  }

  /**
   * The markdown files the include pass reports are exactly the markdown
   * files of the build directory that no include shortcode of any markdown
   * file of the build directory names, each once.
   */
  lemma NotIncludedExactly(fs: FS, buildDir: Path, cwd: Path)
    requires Valid(fs) && Normal(buildDir) && Normal(cwd) && IsDir(fs, buildDir)
    ensures Distinct(NotIncludedFiles(fs, buildDir, cwd).value)
    ensures forall p :: p in NotIncludedFiles(fs, buildDir, cwd).value <==>
      Markdown(fs, buildDir, p) && !exists f :: Markdown(fs, buildDir, f) && Includes(fs, f, p, buildDir, cwd)
  {
    MarkdownListing(fs, buildDir);
  }
}
