/**
 * `OutputsContainer` of `outputs/container.py`: the outputs found in the
 * content files, grouped by file in the order the files were first seen.
 * `run` builds every output, sorts each file's outputs by the start of
 * their match, last first, splices their replacements into the file and
 * writes it back.
 */
module Container {
  import opened Wrappers
  import opened Paths
  import opened FileSystem
  import opened Patterns
  import opened Descriptor
  import opened Outputs
  import opened Splice
  import ImgCopy
  import Excel
  import ExcelCore
  import ExcelOutputs

  /** The class the `j`-th scan of `feed_from_content` creates. */
  function ScanKind(j: nat): Kind {
    if j == 0 then ExcelImgOutput else if j == 1 then ExcelMarkdownOutput else ImgCopyOutput
  }

  /** The pattern an output of kind `k` is found by. */
  function PatternOf(k: Kind): Regex {
    match k
    case ExcelImgOutput => ExcelImgSyntax
    case ExcelMarkdownOutput => ExcelTableSyntax
    case _ => PathInImg
  }

  /** Where a kind comes in the order of the scans. */
  function Rank(k: Kind): nat {
    match k
    case ExcelImgOutput => 0
    case ExcelMarkdownOutput => 1
    case _ => 2
  }

  /** `re.match` at `p` of the pattern of kind `k`. */
  function MatchOf(content: string, p: int, k: Kind): (r: Option<Match>)
    requires 0 <= p <= |content|
    ensures r.Some? ==> r.value.start == p < r.value.end <= |content|
    ensures r.Some? && k == ImgCopyOutput ==> |r.value.groups| == 2
    ensures r.Some? && (k == ExcelImgOutput || k == ExcelMarkdownOutput) ==> |r.value.groups| == 4
  {
    PatternOfValid(k);
    MatchAt(content, p, PatternOf(k))
  }

  /** The three patterns are valid. */
  lemma PatternOfValid(k: Kind)
    ensures ValidRegex(PatternOf(k))
  {
    PatternsValid();
  }

  /**
   * `ms` is what `finditer` reports for the pattern of kind `k`: matches of
   * that pattern, one after another, covering every position where it
   * matches.
   */
  predicate ScanOf(content: string, ms: seq<Match>, k: Kind) {
    Found(content, ms, k) && OneAfterAnother(ms) && Complete(content, ms, k)
  }

  /** Each of `ms` is the match of the pattern of kind `k` at its start. */
  predicate Found(content: string, ms: seq<Match>, k: Kind) {
    forall i :: 0 <= i < |ms| ==> 0 <= ms[i].start <= |content| && MatchOf(content, ms[i].start, k) == Some(ms[i])
  }

  /** Non-empty matches, each ending before the next starts. */
  predicate OneAfterAnother(ms: seq<Match>) {
    (forall i :: 0 <= i < |ms| ==> 0 <= ms[i].start < ms[i].end)
    && (forall i :: 0 < i < |ms| ==> ms[i - 1].end <= ms[i].start)
  }

  /** Every position where the pattern of kind `k` matches is inside one of `ms`. */
  predicate Complete(content: string, ms: seq<Match>, k: Kind) {
    forall p :: 0 <= p <= |content| && MatchOf(content, p, k).Some? ==> Covered(ms, p)
  }

  /** `finditer` with the pattern of kind `k`. */
  function ScanBy(content: string, k: Kind): (r: seq<Match>)
    ensures ScanOf(content, r, k)
  {
    PatternOfValid(k);
    var r := FindIter(content, PatternOf(k), 0);
    assert OneAfterAnother(r) by {
      forall i | 0 <= i < |r| ensures r[i].start < r[i].end {
        assert MatchOf(content, r[i].start, k) == Some(r[i]);
      }
    }
    r
  }

  /** The matches of each scan of `content`, in the order of the scans. */
  predicate Scanned(content: string, scans: seq<seq<Match>>) {
    |scans| == 3 && forall j :: 0 <= j < 3 ==> ScanOf(content, scans[j], ScanKind(j))
  }

  /** The three scans of `feed_from_content`. */
  function Scan(content: string): (r: seq<seq<Match>>)
    ensures Scanned(content, r)
  {
    [ScanBy(content, ExcelImgOutput), ScanBy(content, ExcelMarkdownOutput), ScanBy(content, ImgCopyOutput)]
  }

  /** The outputs created for the matches `ms`, one per match. */
  function Created(kind: Kind, ms: seq<Match>, path: Path): (r: seq<Output>)
    ensures |r| == |ms|
    ensures forall k :: 0 <= k < |ms| ==> r[k] == NewOutput(kind, ms[k], path)
  {
    seq(|ms|, k requires 0 <= k < |ms| => NewOutput(kind, ms[k], path))
  }

  /** The outputs the first `j` scans create. */
  function Fed(scans: seq<seq<Match>>, path: Path, j: nat): seq<Output>
    requires j <= |scans|
  {
    if j == 0 then [] else Fed(scans, path, j - 1) + Created(ScanKind(j - 1), scans[j - 1], path)
  }

  /**
   * What `feed_from_content` creates: an output per match, of the kind of
   * the scan that found it, with no container and an empty replacement,
   * whose match is the greedy match of that kind's pattern at its start.
   */
  lemma {:induction false} FedMatches(content: string, scans: seq<seq<Match>>, path: Path, j: nat)
    requires Scanned(content, scans) && j <= 3
    ensures forall k :: 0 <= k < |Fed(scans, path, j)| ==>
      var o := Fed(scans, path, j)[k];
      o.contentPath == path && o.container == None && o.subBy == "" && Rank(o.kind) < j
      && 0 <= Start(o) <= |content| && MatchOf(content, Start(o), o.kind) == Some(o.rematch)
    decreases j
  {
    if j > 0 {
      FedMatches(content, scans, path, j - 1);
      var before := Fed(scans, path, j - 1);
      var here := Created(ScanKind(j - 1), scans[j - 1], path);
      assert Fed(scans, path, j) == before + here;
      RankOfScan(j - 1);
      assert ScanOf(content, scans[j - 1], ScanKind(j - 1));
    }
  }

  /** The outputs of scan `i` have the kind of that scan. */
  lemma {:induction false} FedKinds(scans: seq<seq<Match>>, path: Path, j: nat)
    requires j <= |scans|
    ensures forall k :: 0 <= k < |Fed(scans, path, j)| ==> Rank(Fed(scans, path, j)[k].kind) < j
    decreases j
  {
    if j > 0 {
      FedKinds(scans, path, j - 1);
      assert Fed(scans, path, j) == Fed(scans, path, j - 1) + Created(ScanKind(j - 1), scans[j - 1], path);
      if j - 1 < 3 {
        RankOfScan(j - 1);
      }
    }
  }

  /**
   * The excel image outputs come first, then the excel table outputs, then
   * the image copies; within a scan the matches are in order and do not
   * overlap.
   */
  lemma {:induction false} FedOrder(scans: seq<seq<Match>>, path: Path, j: nat)
    requires j <= |scans| <= 3 && forall i :: 0 <= i < |scans| ==> OneAfterAnother(scans[i])
    ensures forall a, b :: 0 <= a < b < |Fed(scans, path, j)| ==>
      var x, y := Fed(scans, path, j)[a], Fed(scans, path, j)[b];
      Rank(x.kind) < Rank(y.kind) || (x.kind == y.kind && x.rematch.end <= Start(y))
    decreases j
  {
    if j > 0 {
      FedOrder(scans, path, j - 1);
      FedKinds(scans, path, j - 1);
      var before := Fed(scans, path, j - 1);
      var ms := scans[j - 1];
      var here := Created(ScanKind(j - 1), ms, path);
      var all := Fed(scans, path, j);
      assert all == before + here;
      RankOfScan(j - 1);
      assert OneAfterAnother(ms);
      forall a, b | 0 <= a < b < |all|
        ensures Rank(all[a].kind) < Rank(all[b].kind) || (all[a].kind == all[b].kind && all[a].rematch.end <= Start(all[b]))
      {
        if |before| <= a {
          assert all[a] == here[a - |before|] && all[b] == here[b - |before|];
          ScanOrdered(ms, a - |before|, b - |before|);
        } else if |before| <= b {
          assert all[b] == here[b - |before|];
        }
      }
    }
  }

  /** Every position where a scanned pattern matches lies inside an output of that scan's kind. */
  lemma {:induction false} FedCovers(content: string, scans: seq<seq<Match>>, path: Path, j: nat, i: nat, p: int)
    requires i < j <= |scans| <= 3 && 0 <= p <= |content|
    requires forall n :: 0 <= n < |scans| ==> Complete(content, scans[n], ScanKind(n))
    requires MatchOf(content, p, ScanKind(i)).Some?
    ensures exists k :: 0 <= k < |Fed(scans, path, j)| && Fed(scans, path, j)[k].kind == ScanKind(i)
                        && Start(Fed(scans, path, j)[k]) <= p < Fed(scans, path, j)[k].rematch.end
    decreases j
  {
    var before := Fed(scans, path, j - 1);
    var ms := scans[j - 1];
    var here := Created(ScanKind(j - 1), ms, path);
    var all := Fed(scans, path, j);
    assert all == before + here;
    if i < j - 1 {
      FedCovers(content, scans, path, j - 1, i, p);
      var k :| 0 <= k < |before| && before[k].kind == ScanKind(i) && Start(before[k]) <= p < before[k].rematch.end;
      assert all[k] == before[k];
    } else {
      assert Complete(content, ms, ScanKind(i));
      assert Covered(ms, p);
      var k :| 0 <= k < |ms| && ms[k].start <= p < ms[k].end;
      assert all[|before| + k] == here[k];
    }
  }

  /** `o` is shaped like a match of its kind's pattern: a non-empty span with the groups the builds read. */
  predicate Shaped(o: Output) {
    0 <= Start(o) < o.rematch.end
    && (o.kind == ImgCopyOutput ==> |o.rematch.groups| >= 2)
    && (o.kind == ExcelImgOutput || o.kind == ExcelMarkdownOutput ==> |o.rematch.groups| >= 4)
  }

  /** The outputs of file `p` of a container at `site`. */
  predicate Fits(outs: seq<Output>, p: Path, site: Site) {
    Normal(p) && forall k :: 0 <= k < |outs| ==> Shaped(outs[k]) && outs[k].contentPath == p && outs[k].container == Some(site)
  }

  /** The outputs of one scan do not overlap. */
  lemma ScanApart(content: string, scans: seq<seq<Match>>, path: Path, j: nat)
    requires Scanned(content, scans) && j < 3
    ensures PairwiseApart(Created(ScanKind(j), scans[j], path))
  {
    var ms := scans[j];
    var c := Created(ScanKind(j), ms, path);
    assert OneAfterAnother(ms);
    forall a, b | 0 <= a < b < |c| ensures Apart(c[a], c[b]) {
      ScanOrdered(ms, a, b);
    }
  }

  /** Matches reported by `finditer` come one after another. */
  lemma {:induction false} ScanOrdered(ms: seq<Match>, a: nat, b: nat)
    requires OneAfterAnother(ms) && a < b < |ms|
    ensures ms[a].start < ms[a].end <= ms[b].start < ms[b].end
    decreases b - a
  {
    if a + 1 < b {
      ScanOrdered(ms, a + 1, b);
    }
  }

  /** `o` with only its replacement changed. */
  predicate SameBut(o: Output, base: Output) {
    o == base.(subBy := o.subBy)
  }

  /** The outputs `a` are the outputs `b`, one for one, with only their replacements changed. */
  predicate Relabelled(a: seq<Output>, b: seq<Output>) {
    |a| == |b| && forall k :: 0 <= k < |a| ==> SameBut(a[k], b[k])
  }

  /**
   * What the builds share and change: the file tree, the counters of the
   * path allocator, the images already copied and the workbooks loaded.
   */
  datatype Shared = Shared(fs: FS, counters: map<Path, nat>, copied: set<string>, loaded: map<string, Excel.Workbook>)

  /** What every build is given and leaves alone: the container's directories, the generated directory, the libraries, the clock, the failing paths and the working directory. */
  datatype Setting = Setting(site: Site, generated: Path, env: ExcelOutputs.Env, now: int, faults: set<Path>, cwd: Path)

  predicate Ready(c: Setting) {
    WellFormed(c.site.sourceDir) && Normal(c.site.buildDir) && Paths.Descending(c.generated) && Normal(c.cwd)
  }

  /** The state the builds see: the tree `fs` and the three objects' tables. */
  function Now(fs: FS, alloc: PathAllocator, copies: ImgCopy.CopyCache, workbooks: ExcelCore.WorkbookCache): Shared
    reads alloc, copies, workbooks
  {
    Shared(fs, alloc.counters, copies.entries, workbooks.loaded)
  }

  /**
   * What the build of one output made: nothing, the image placed as `d`,
   * or the workbook placed as `d`, its artefact folder `dest` and the core
   * constructed, when it got that far.
   */
  datatype Made = Kept | Copied(d: Descriptor) | Linked(d: Descriptor, dest: Path, core: Result<ExcelCore.Core>)

  /**
   * `b` is what the build of `o` in the state `st` returns, by its class:
   * the base class keeps the output; the image copy and the excel build
   * are as `ImageBuiltAs` and `ExcelBuiltAs` say.
   */
  predicate BuiltAs(o: Output, b: Output, m: Made, c: Setting, st: Shared) {
    Ready(c) && Shaped(o) && Normal(o.contentPath) &&
    match o.kind
    case BaseOutput => m == Kept && b == o
    case ImgCopyOutput => ImageBuiltAs(o, b, m, c, st)
    case _ => ExcelBuiltAs(o, b, m, c, st)
  }

  /**
   * The image copy places the image with the build directory's next
   * counter value and links the copy `d` names.
   */
  predicate ImageBuiltAs(o: Output, b: Output, m: Made, c: Setting, st: Shared)
    requires Ready(c) && o.kind == ImgCopyOutput && Shaped(o) && Normal(o.contentPath)
  {
    NormalWellFormed(o.contentPath);
    NormalWellFormed(c.site.buildDir);
    DescendingWellFormed(c.generated);
    && m == Copied(ImgCopy.Place(o, c.site, st.fs, c.generated, NextCount(st.counters, c.site.buildDir), c.cwd))
    && b == ImgCopy.Substituted(o, ImgCopy.NewText(o, m.d))
  }

  /**
   * The excel build places the workbook with the build directory's next
   * counter value, takes the digest folder of its path, makes the core
   * from the workbook the cache holds or loads, and links the core's
   * artefact in that folder.
   */
  predicate ExcelBuiltAs(o: Output, b: Output, m: Made, c: Setting, st: Shared)
    requires Ready(c) && o.kind != BaseOutput && o.kind != ImgCopyOutput && Shaped(o)
  {
    NormalWellFormed(c.site.buildDir);
    DescendingWellFormed(c.generated);
    && m.Linked?
    && m.d == Describe(st.fs, ExcelOutputs.WorkbookRef(o), c.site.sourceDir, c.site.buildDir, false, c.cwd, c.generated,
                       NextCount(st.counters, c.site.buildDir))
    && m.dest == ExcelOutputs.ExcelDest(c.site, c.generated, m.d.absolutePath, c.cwd, c.env.sha)
    && m.core == ExcelCore.MakeCore(m.d.absolutePath, ExcelOutputs.RangeText(o), c.env.parse,
                                    ExcelCore.Lookup(st.loaded, ToStr(Resolve(m.d.absolutePath, c.cwd)), c.env.load), c.cwd)
    && m.core.Ok?
    && b == o.(subBy := ExcelOutputs.ArtefactLink(o, c.generated, m.dest, m.core.value))
  }

  /** What one build leaves: the new state, its result and what it made. */
  datatype Stepped = Stepped(after: Shared, result: Result<Output>, made: Made)

  /**
   * The build of `o` in the state `st`, by its class: `Outputs.build`,
   * `ImgCopy.build` or the excel `build`. The base class changes nothing.
   */
  function Step(o: Output, c: Setting, st: Shared): (s: Stepped)
    requires Ready(c) && Shaped(o) && Normal(o.contentPath) && Valid(st.fs)
    ensures Valid(s.after.fs)
    ensures o.kind == BaseOutput ==> s == Stepped(st, Ok(o), Kept)
  {
    match o.kind
    case BaseOutput => Stepped(st, Ok(BaseBuild(o)), Kept)
    case ImgCopyOutput => ImageStep(o, c, st)
    case _ => ExcelStep(o, c, st)
  }

  /**
   * `ImgCopy.build` in the state `st`: the image is placed, copied when
   * `ImgCopy.BuildEffect` says, and linked. The counter of the build
   * directory moves on exactly when the image was placed as generated.
   */
  function ImageStep(o: Output, c: Setting, st: Shared): (s: Stepped)
    requires Ready(c) && o.kind == ImgCopyOutput && Shaped(o) && Normal(o.contentPath) && Valid(st.fs)
    ensures Valid(s.after.fs) && s.made.Copied? && s.after.loaded == st.loaded
    ensures s.after.counters == Advanced(st.counters, c.site.buildDir, s.made.d.isGenerated)
  {
    NormalWellFormed(o.contentPath);
    NormalWellFormed(c.site.buildDir);
    DescendingWellFormed(c.generated);
    var d := ImgCopy.Place(o, c.site, st.fs, c.generated, NextCount(st.counters, c.site.buildDir), c.cwd);
    var e := ImgCopy.BuildEffect(o, d, st.copied, st.fs, c.now, c.faults);
    var copied := st.copied + (if e.cached then {ToStr(d.absolutePath)} else {});
    Stepped(Shared(e.fs, Advanced(st.counters, c.site.buildDir, d.isGenerated), copied, st.loaded), e.result, Copied(d))
  }

  /**
   * The excel `build` in the state `st`: the workbook is placed, its digest
   * folder created, the core made and built, and its artefact linked, as
   * `ExcelOutputs.Placement` says. The counter of the build directory
   * moves on exactly when the workbook was placed as generated, and the
   * copy cache is left alone.
   */
  function ExcelStep(o: Output, c: Setting, st: Shared): (s: Stepped)
    requires Ready(c) && o.kind != BaseOutput && o.kind != ImgCopyOutput && Shaped(o) && Valid(st.fs)
    ensures Valid(s.after.fs) && s.made.Linked? && s.after.copied == st.copied
    ensures s.after.counters == Advanced(st.counters, c.site.buildDir, s.made.d.isGenerated)
  {
    var p := ExcelOutputs.Placement(o, c.site, c.generated, c.env, c.now, c.faults, c.cwd, st.fs, st.counters, st.loaded);
    Stepped(Shared(p.built.fs, p.counters, st.copied, p.built.loaded), p.built.result, Linked(p.d, p.dest, p.built.core))
  }

  /** `ImageStep` with its placement and its copy effect named. */
  lemma ImageStepOf(o: Output, c: Setting, st: Shared, d: Descriptor, e: ImgCopy.Effect)
    requires Ready(c) && o.kind == ImgCopyOutput && Shaped(o) && Normal(o.contentPath) && Valid(st.fs)
    requires d == ImgCopy.Place(o, c.site, st.fs, c.generated, NextCount(st.counters, c.site.buildDir), c.cwd)
    requires e == ImgCopy.BuildEffect(o, d, st.copied, st.fs, c.now, c.faults)
    ensures Step(o, c, st) == Stepped(Shared(e.fs, Advanced(st.counters, c.site.buildDir, d.isGenerated),
                                            st.copied + (if e.cached then {ToStr(d.absolutePath)} else {}), st.loaded),
                                     e.result, Copied(d))
  {
  }

  /** A successful image build returns the output `ImageBuiltAs` describes. */
  lemma ImageStepBuilt(o: Output, c: Setting, st: Shared)
    requires Ready(c) && o.kind == ImgCopyOutput && Shaped(o) && Normal(o.contentPath) && Valid(st.fs)
    ensures ImageStep(o, c, st).result.Ok? ==> ImageBuiltAs(o, ImageStep(o, c, st).result.value, ImageStep(o, c, st).made, c, st)
  {
  }

  /** A successful excel build returns the output `ExcelBuiltAs` describes. */
  lemma ExcelStepBuilt(o: Output, c: Setting, st: Shared)
    requires Ready(c) && o.kind != BaseOutput && o.kind != ImgCopyOutput && Shaped(o) && Valid(st.fs)
    ensures ExcelStep(o, c, st).result.Ok? ==> ExcelBuiltAs(o, ExcelStep(o, c, st).result.value, ExcelStep(o, c, st).made, c, st)
  {
  }

  /** A successful build returns the output `BuiltAs` describes for the state it ran in. */
  lemma StepBuilt(o: Output, c: Setting, st: Shared)
    requires Ready(c) && Shaped(o) && Normal(o.contentPath) && Valid(st.fs)
    ensures Step(o, c, st).result.Ok? ==> BuiltAs(o, Step(o, c, st).result.value, Step(o, c, st).made, c, st)
  {
    match o.kind
    case BaseOutput =>
    case ImgCopyOutput => ImageStepBuilt(o, c, st);
    case _ => ExcelStepBuilt(o, c, st);
  }

  lemma BuiltSameBut(o: Output, b: Output, m: Made, c: Setting, st: Shared)
    requires BuiltAs(o, b, m, c, st)
    ensures SameBut(b, o)
  {
  }

  /**
   * `built` is the list `outs` once its first `|made|` outputs are built,
   * in list order: output k is built in the state `trail[k]`, as `Step`
   * says, and leaves the state `trail[k + 1]`; the rest are as they were.
   */
  ghost predicate BuiltPrefix(built: seq<Output>, outs: seq<Output>, made: seq<Made>, c: Setting, trail: seq<Shared>) {
    Prefix(built, outs, made, trail) && Ready(c)
    && (forall k :: 0 <= k < |outs| ==> Shaped(outs[k]) && Normal(outs[k].contentPath))
    && (forall k :: 0 <= k < |trail| ==> Valid(trail[k].fs))
    && (forall k :: 0 <= k < |made| ==> StepAt(built, outs, made, c, trail, k))
  }

  /** The shape of `BuiltPrefix`: the lengths agree, and the outputs not yet built are as they were. */
  ghost predicate Prefix(built: seq<Output>, outs: seq<Output>, made: seq<Made>, trail: seq<Shared>) {
    |built| == |outs| && |made| <= |outs| && |trail| == |made| + 1
    && (forall k :: |made| <= k < |outs| ==> built[k] == outs[k])
  }

  /** Output `k`, built in the state `trail[k]`, returned `built[k]`, made `made[k]` and left `trail[k + 1]`. */
  ghost predicate StepAt(built: seq<Output>, outs: seq<Output>, made: seq<Made>, c: Setting, trail: seq<Shared>, k: nat) {
    k < |made| < |trail| && k < |outs| && k < |built| && Ready(c)
    && Shaped(outs[k]) && Normal(outs[k].contentPath) && Valid(trail[k].fs) && Valid(trail[k + 1].fs)
    && Step(outs[k], c, trail[k]) == Stepped(trail[k + 1], Ok(built[k]), made[k])
  }

  /** A step stays recorded when the entries it reads are kept. */
  lemma StepAtKept(built: seq<Output>, outs: seq<Output>, made: seq<Made>, trail: seq<Shared>,
                   built': seq<Output>, made': seq<Made>, trail': seq<Shared>, c: Setting, k: nat)
    requires StepAt(built, outs, made, c, trail, k)
    requires k < |made'| < |trail'| && k < |built'|
    requires built'[k] == built[k] && made'[k] == made[k] && trail'[k] == trail[k] && trail'[k + 1] == trail[k + 1]
    ensures StepAt(built', outs, made', c, trail', k)
  {
  }

  /**
   * One more build in the state the last one left extends the prefix by
   * its output and its state: `built'`, `made'` and `trail'` are the three
   * lists after it.
   */
  lemma PrefixGrows(built: seq<Output>, outs: seq<Output>, made: seq<Made>, c: Setting, trail: seq<Shared>,
                    built': seq<Output>, made': seq<Made>, trail': seq<Shared>, b: Output, m: Made, st': Shared)
    requires BuiltPrefix(built, outs, made, c, trail) && |made| < |outs| && Valid(st'.fs)
    requires built' == built[|made| := b] && made' == made + [m] && trail' == trail + [st']
    requires forall j :: 0 <= j < |made'| ==> StepAt(built', outs, made', c, trail', j)
    ensures BuiltPrefix(built', outs, made', c, trail')
  {
    var k := |made|;
    TrailGrows(trail, st');
    forall j | k + 1 <= j < |outs|
      ensures built'[j] == outs[j]
    {
      assert built'[j] == built[j];
    }
    assert |built'| == |outs| && |made'| <= |outs| && |trail'| == |made'| + 1;
  }

  lemma TrailGrows(trail: seq<Shared>, st': Shared)
    requires forall k :: 0 <= k < |trail| ==> Valid(trail[k].fs)
    requires Valid(st'.fs)
    ensures forall k :: 0 <= k < |trail| + 1 ==> Valid((trail + [st'])[k].fs)
  {
    forall k | 0 <= k < |trail| + 1
      ensures Valid((trail + [st'])[k].fs)
    {
      if k < |trail| {
        assert (trail + [st'])[k] == trail[k];
      }
    }
  }

  lemma StepsGrow(built: seq<Output>, outs: seq<Output>, made: seq<Made>, c: Setting, trail: seq<Shared>,
                  built': seq<Output>, made': seq<Made>, trail': seq<Shared>, b: Output, m: Made, st': Shared)
    requires BuiltPrefix(built, outs, made, c, trail) && |made| < |outs|
    requires built' == built[|made| := b] && made' == made + [m] && trail' == trail + [st']
    requires StepAt(built', outs, made', c, trail', |made|)
    ensures forall j :: 0 <= j < |made'| ==> StepAt(built', outs, made', c, trail', j)
  {
    var k := |made|;
    forall j | 0 <= j < |made'|
      ensures StepAt(built', outs, made', c, trail', j)
    {
      if j < k {
        StepAtKept(built, outs, made, trail, built', made', trail', c, j);
      }
    }
  }

  /** A successful next build keeps the list fitting its file and extends the prefix. */
  lemma ListStep(built: seq<Output>, outs: seq<Output>, made: seq<Made>, c: Setting, trail: seq<Shared>,
                 p: Path, site: Site, b: Output, m: Made, st': Shared)
    requires BuiltPrefix(built, outs, made, c, trail) && Fits(built, p, site) && |made| < |outs|
    requires Step(outs[|made|], c, trail[|made|]) == Stepped(st', Ok(b), m)
    ensures BuiltPrefix(built[|made| := b], outs, made + [m], c, trail + [st']) && Fits(built[|made| := b], p, site)
  {
    var k := |made|;
    StepBuilt(outs[k], c, trail[k]);
    BuiltSameBut(outs[k], b, m, c, trail[k]);
    assert (trail + [st'])[k] == trail[k] && (trail + [st'])[k + 1] == st';
    var built', made', trail' := built[k := b], made + [m], trail + [st'];
    assert StepAt(built', outs, made', c, trail', k);
    StepsGrow(built, outs, made, c, trail, built', made', trail', b, m, st');
    PrefixGrows(built, outs, made, c, trail, built', made', trail', b, m, st');
    FitsRelabelled(built, p, site, k, b);
  }

  /** Changing the replacement of one output keeps the list fitting its file. */
  lemma FitsRelabelled(outs: seq<Output>, p: Path, site: Site, k: nat, b: Output)
    requires Fits(outs, p, site) && k < |outs| && SameBut(b, outs[k])
    ensures Fits(outs[k := b], p, site)
  {
  }

  /** Each built output is the one `BuiltAs` describes for the state it was built in. */
  lemma PrefixBuiltAs(built: seq<Output>, outs: seq<Output>, made: seq<Made>, c: Setting, trail: seq<Shared>, k: nat)
    requires BuiltPrefix(built, outs, made, c, trail) && k < |made|
    ensures BuiltAs(outs[k], built[k], made[k], c, trail[k])
  {
    assert StepAt(built, outs, made, c, trail, k);
    StepBuilt(outs[k], c, trail[k]);
  }

  lemma {:induction false} InsertRelabelled(t: seq<Output>, u: seq<Output>, x: Output, y: Output)
    requires Relabelled(t, u) && SameBut(x, y)
    ensures Relabelled(Insert(t, x), Insert(u, y))
    decreases |t|
  {
    if !(t == [] || Start(t[|t| - 1]) >= Start(x)) {
      InsertRelabelled(t[..|t| - 1], u[..|u| - 1], x, y);
    }
  }

  /** The sort looks at starts only, and builds do not move them. */
  lemma {:induction false} SortRelabelled(a: seq<Output>, b: seq<Output>)
    requires Relabelled(a, b)
    ensures Relabelled(SortDesc(a), SortDesc(b))
    decreases |a|
  {
    if a != [] {
      SortRelabelled(a[..|a| - 1], b[..|b| - 1]);
      InsertRelabelled(SortDesc(a[..|a| - 1]), SortDesc(b[..|b| - 1]), a[|a| - 1], b[|b| - 1]);
    }
  }

  /** Sorting keeps every output it is given. */
  lemma SortedFrom(s: seq<Output>)
    ensures forall e :: e in SortDesc(s) ==> e in s
  {
    SortPermutes(s);
    forall e | e in SortDesc(s) ensures e in s {
      assert e in multiset(SortDesc(s));
    }
  }

  /** The outputs of `p` in `m`, none when the file has none. */
  function Listed(m: map<Path, seq<Output>>, p: Path): seq<Output> {
    if p in m then m[p] else []
  }

  /** `outs` appended to the list of `p`, which is created when it is missing and `outs` is not empty. */
  function Joined(m: map<Path, seq<Output>>, p: Path, outs: seq<Output>): map<Path, seq<Output>> {
    if outs == [] then m else m[p := Listed(m, p) + outs]
  }

  /** The key order once `outs` is appended to `p`. */
  function JoinedOrder(order: seq<Path>, m: map<Path, seq<Output>>, p: Path, outs: seq<Output>): seq<Path> {
    if outs == [] || p in m then order else order + [p]
  }

  /** The outputs as `add` stores them: with the container set. */
  function Attached(outs: seq<Output>, site: Site): (r: seq<Output>)
    ensures |r| == |outs|
    ensures forall k :: 0 <= k < |outs| ==> r[k] == outs[k].(container := Some(site))
  {
    seq(|outs|, k requires 0 <= k < |outs| => outs[k].(container := Some(site)))
  }

  /** All outputs, file by file in key order, each file's in list order. */
  function Flatten(order: seq<Path>, m: map<Path, seq<Output>>): (r: seq<Output>)
    requires forall p :: p in order ==> p in m
    ensures forall o :: o in r <==> exists i :: 0 <= i < |order| && o in m[order[i]]
  {
    if order == [] then []
    else
      var r := Flatten(order[..|order| - 1], m) + m[order[|order| - 1]];
      assert forall i :: 0 <= i < |order| - 1 ==> order[..|order| - 1][i] == order[i];
      r
  }

  /** Every file of `order` has a list in `m` and a normal path. */
  predicate Writable(order: seq<Path>, m: map<Path, seq<Output>>) {
    forall p :: p in order ==> p in m && Normal(p)
  }

  /** A prefix of a writable order is writable. */
  lemma WritablePrefix(order: seq<Path>, m: map<Path, seq<Output>>, i: nat)
    requires Writable(order, m) && i <= |order|
    ensures Writable(order[..i], m)
  {
    assert forall x :: x in order[..i] ==> x in order;
  }

  /** One file of the write-back: read it, splice its outputs in list order, write it. */
  function RewriteOne(fs: FS, p: Path, outs: seq<Output>, now: int, faults: set<Path>): (r: Outcome)
    requires Valid(fs) && Normal(p)
    ensures Valid(r.fs)
  {
    match ReadText(fs, p)
    case Err(e) => Outcome(fs, Some(e))
    case Ok(c) => WriteText(fs, p, SpliceAll(c, outs), now, faults)
  }

  /** The write-back of the files `order`, stopping at the first that raises. */
  function Rewrite(fs: FS, order: seq<Path>, m: map<Path, seq<Output>>, now: int, faults: set<Path>): (r: Outcome)
    requires Valid(fs) && Writable(order, m)
    ensures Valid(r.fs)
  {
    if order == [] then Outcome(fs, None)
    else
      WritablePrefix(order, m, |order| - 1);
      var o := Rewrite(fs, order[..|order| - 1], m, now, faults);
      if o.raised.Some? then o else RewriteOne(o.fs, order[|order| - 1], m[order[|order| - 1]], now, faults)
  }

  /** One file's write-back touches only that file, and writes its old text with the outputs spliced in. */
  lemma RewriteOneEffect(fs: FS, p: Path, outs: seq<Output>, now: int, faults: set<Path>)
    requires Valid(fs) && Normal(p)
    ensures var r := RewriteOne(fs, p, outs, now, faults);
      forall q :: q != p ==> (q in r.fs.nodes <==> q in fs.nodes) && (q in fs.nodes ==> r.fs.nodes[q] == fs.nodes[q])
    ensures var r := RewriteOne(fs, p, outs, now, faults);
      r.raised.None? ==> IsFile(fs, p) && r.fs.nodes[p] == File(now, SpliceAll(fs.nodes[p].content, outs))
  {
  }

  /** The write-back touches only the listed files. */
  lemma {:induction false} RewriteKeepsOthers(fs: FS, order: seq<Path>, m: map<Path, seq<Output>>, now: int, faults: set<Path>, q: Path)
    requires Valid(fs) && Writable(order, m)
    requires q !in order
    ensures q in Rewrite(fs, order, m, now, faults).fs.nodes <==> q in fs.nodes
    ensures q in fs.nodes ==> Rewrite(fs, order, m, now, faults).fs.nodes[q] == fs.nodes[q]
    decreases |order|
  {
    if order != [] {
      var init, p := order[..|order| - 1], order[|order| - 1];
      WritablePrefix(order, m, |order| - 1);
      RewriteKeepsOthers(fs, init, m, now, faults, q);
      var o := Rewrite(fs, init, m, now, faults);
      if o.raised.None? {
        RewriteOneEffect(o.fs, p, m[p], now, faults);
      }
    }
  }

  /** Dropping the last element of a list without repeats leaves a list without repeats that lacks it. */
  lemma DistinctInit(s: seq<Path>)
    requires s != [] && Distinct(s)
    ensures s[|s| - 1] !in s[..|s| - 1]
    ensures Distinct(s[..|s| - 1])
  {
    var init := s[..|s| - 1];
    forall i | 0 <= i < |init| ensures init[i] != s[|s| - 1] {
      assert init[i] == s[i];
    }
  }

  /** An element other than the last is in the list without its last element. */
  lemma InInit<T>(s: seq<T>, x: T)
    requires x in s && s != [] && x != s[|s| - 1]
    ensures x in s[..|s| - 1]
  {
    var k :| 0 <= k < |s| && s[k] == x;
    assert s[..|s| - 1][k] == x;
  }

  /** A write-back that does not raise is the write-back of all but the last file, then the last file's. */
  lemma RewriteStep(fs: FS, order: seq<Path>, m: map<Path, seq<Output>>, now: int, faults: set<Path>)
    requires Valid(fs) && Writable(order, m)
    requires order != [] && Rewrite(fs, order, m, now, faults).raised.None?
    ensures Writable(order[..|order| - 1], m)
    ensures Rewrite(fs, order[..|order| - 1], m, now, faults).raised.None?
    ensures Rewrite(fs, order, m, now, faults)
         == RewriteOne(Rewrite(fs, order[..|order| - 1], m, now, faults).fs, order[|order| - 1], m[order[|order| - 1]], now, faults)
  {
    WritablePrefix(order, m, |order| - 1);
  }

  /** The write-back of one more file of `order`. */
  lemma RewritePrefixStep(fs: FS, order: seq<Path>, m: map<Path, seq<Output>>, now: int, faults: set<Path>, i: nat)
    requires Valid(fs) && Writable(order, m) && i < |order|
    ensures Writable(order[..i], m) && Writable(order[..i + 1], m)
    ensures var o := Rewrite(fs, order[..i], m, now, faults);
      Rewrite(fs, order[..i + 1], m, now, faults)
      == if o.raised.Some? then o else RewriteOne(o.fs, order[i], m[order[i]], now, faults)
  {
    WritablePrefix(order, m, i);
    WritablePrefix(order, m, i + 1);
    assert order[..i + 1][..i] == order[..i];
  }

  /**
   * When the write-back does not raise, each listed file, listed once,
   * holds its old text with its outputs spliced in.
   */
  lemma {:induction false} RewriteWrites(fs: FS, order: seq<Path>, m: map<Path, seq<Output>>, now: int, faults: set<Path>, p: Path)
    requires Valid(fs) && Writable(order, m)
    requires Distinct(order)
    requires p in order && Rewrite(fs, order, m, now, faults).raised.None?
    ensures IsFile(fs, p)
    ensures var r := Rewrite(fs, order, m, now, faults);
      p in r.fs.nodes && r.fs.nodes[p] == File(now, SpliceAll(fs.nodes[p].content, m[p]))
    decreases |order|
  {
    var init, last := order[..|order| - 1], order[|order| - 1];
    RewriteStep(fs, order, m, now, faults);
    var o := Rewrite(fs, init, m, now, faults);
    var r := RewriteOne(o.fs, last, m[last], now, faults);
    assert Rewrite(fs, order, m, now, faults) == r;
    if p == last {
      DistinctInit(order);
      RewriteKeepsOthers(fs, init, m, now, faults, p);
      RewriteOneEffect(o.fs, p, m[p], now, faults);
    } else {
      DistinctInit(order);
      InInit(order, p);
      RewriteWrites(fs, init, m, now, faults, p);
      RewriteOneEffect(o.fs, last, m[last], now, faults);
    }
  }

  /** Once a file raises, the write-back stops there. */
  lemma {:induction false} RewriteStops(fs: FS, order: seq<Path>, m: map<Path, seq<Output>>, now: int, faults: set<Path>, i: nat)
    requires Valid(fs) && Writable(order, m)
    requires i <= |order| && Rewrite(fs, order[..i], m, now, faults).raised.Some?
    ensures Rewrite(fs, order, m, now, faults) == Rewrite(fs, order[..i], m, now, faults)
    decreases |order|
  {
    if i < |order| {
      var init := order[..|order| - 1];
      assert init[..i] == order[..i];
      WritablePrefix(order, m, |order| - 1);
      RewriteStops(fs, init, m, now, faults, i);
    } else {
      assert order[..i] == order;
    }
  }

  /** Appending to a file's list twice is appending once. */
  lemma JoinedTwice(m: map<Path, seq<Output>>, order: seq<Path>, p: Path, a: seq<Output>, b: seq<Output>)
    ensures Joined(Joined(m, p, a), p, b) == Joined(m, p, a + b)
    ensures JoinedOrder(JoinedOrder(order, m, p, a), Joined(m, p, a), p, b) == JoinedOrder(order, m, p, a + b)
  {
    if a == [] {
      assert a + b == b;
    } else if b == [] {
      assert a + b == a;
    } else {
      assert Listed(m, p) + a + b == Listed(m, p) + (a + b);
    }
  }

  /** Attaching a concatenation is concatenating the attached lists. */
  lemma AttachedAppend(a: seq<Output>, b: seq<Output>, site: Site)
    ensures Attached(a + b, site) == Attached(a, site) + Attached(b, site)
  {
    var l, r := Attached(a + b, site), Attached(a, site) + Attached(b, site);
    forall k | 0 <= k < |l| ensures l[k] == r[k] {
      if k < |a| {
        assert (a + b)[k] == a[k];
      } else {
        assert (a + b)[k] == b[k - |a|];
      }
    }
  }

  /** The `j`-th scan of `feed_from_content`. */
  lemma ScanAt(content: string, j: nat)
    requires j < 3
    ensures Scan(content)[j] == ScanBy(content, ScanKind(j))
  {
    if j == 0 {
    } else if j == 1 {
    } else {
    }
  }

  /** Where a scan's kind comes in the order of the scans. */
  lemma RankOfScan(j: nat)
    requires j < 3
    ensures Rank(ScanKind(j)) == j
  {
    if j == 0 {
    } else if j == 1 {
    } else {
    }
  }

  /** The outputs created for a scan are shaped like matches of its pattern. */
  lemma ScanShaped(content: string, ms: seq<Match>, kind: Kind, path: Path)
    requires Found(content, ms, kind)
    ensures forall i :: 0 <= i < |ms| ==> Shaped(NewOutput(kind, ms[i], path))
  {
    forall i | 0 <= i < |ms| ensures Shaped(NewOutput(kind, ms[i], path)) {
      assert MatchOf(content, ms[i].start, kind) == Some(ms[i]);
    }
  }

  /** Changing only replacements twice changes only replacements. */
  lemma RelabelledTrans(a: seq<Output>, b: seq<Output>, c: seq<Output>)
    requires Relabelled(a, b) && Relabelled(b, c)
    ensures Relabelled(a, c)
  {
    forall k | 0 <= k < |a| ensures SameBut(a[k], c[k]) {
      assert SameBut(a[k], b[k]) && SameBut(b[k], c[k]);
    }
  }

  /** Outputs with only their replacements changed still fit their file. */
  lemma RelabelledFits(a: seq<Output>, b: seq<Output>, p: Path, site: Site)
    requires Relabelled(a, b) && Fits(b, p, site)
    ensures Fits(a, p, site)
  {
    forall k | 0 <= k < |a| ensures Shaped(a[k]) && a[k].contentPath == p && a[k].container == Some(site) {
      assert SameBut(a[k], b[k]);
    }
  }

  /** Sorted outputs still fit their file. */
  lemma SortFits(outs: seq<Output>, p: Path, site: Site)
    requires Fits(outs, p, site)
    ensures Fits(SortDesc(outs), p, site)
  {
    var t := SortDesc(outs);
    SortedFrom(outs);
    forall k | 0 <= k < |t| ensures Shaped(t[k]) && t[k].contentPath == p && t[k].container == Some(site) {
      assert t[k] in outs;
      var n :| 0 <= n < |outs| && outs[n] == t[k];
    }
  }

  /** The splice loop of `run` over one file's text. */
  method SpliceFile(content: string, outs: seq<Output>) returns (r: string)
    ensures r == SpliceAll(content, outs)
  {
    r := content;
    for k := 0 to |outs|
      invariant r == SpliceAll(content, outs[..k])
    {
      assert outs[..k + 1][..k] == outs[..k];
      r := Take(r, Start(outs[k])) + outs[k].subBy + Drop(r, outs[k].rematch.end);
    }
    assert outs[..|outs|] == outs;
  }

  /**
   * The build of one output by its class: nothing for the base class, the
   * image copy, or the excel build. It does what `Step` says in the state
   * the tree and the three objects hold, and `made` is what it made.
   */
  method BuildOne(o: Output, site: Site, alloc: PathAllocator, copies: ImgCopy.CopyCache, workbooks: ExcelCore.WorkbookCache,
                  fs: FS, env: ExcelOutputs.Env, now: int, faults: set<Path>, cwd: Path)
    returns (fs': FS, r: Result<Output>, ghost made: Made)
    requires Shaped(o) && Normal(o.contentPath) && Valid(fs) && Normal(cwd) && workbooks.Valid()
    requires WellFormed(site.sourceDir) && Normal(site.buildDir) && Paths.Descending(alloc.generated)
    modifies alloc, copies, workbooks
    ensures workbooks.Valid()
    ensures Step(o, Setting(site, alloc.generated, env, now, faults, cwd), old(Now(fs, alloc, copies, workbooks)))
            == Stepped(Now(fs', alloc, copies, workbooks), r, made)
  {
    match o.kind
    case BaseOutput =>
      fs', r, made := fs, Ok(BaseBuild(o)), Kept;
    case ImgCopyOutput =>
      fs', r, made := BuildImage(o, site, alloc, copies, workbooks, fs, env, now, faults, cwd);
    case _ =>
      fs', r, made := BuildExcel(o, site, alloc, copies, workbooks, fs, env, now, faults, cwd);
  }

  /** The image copy's build of one output, as `ImageStep` says. */
  method BuildImage(o: Output, site: Site, alloc: PathAllocator, copies: ImgCopy.CopyCache, workbooks: ExcelCore.WorkbookCache,
                    fs: FS, env: ExcelOutputs.Env, now: int, faults: set<Path>, cwd: Path)
    returns (fs': FS, r: Result<Output>, ghost made: Made)
    requires o.kind == ImgCopyOutput && Shaped(o) && Normal(o.contentPath) && Valid(fs) && Normal(cwd)
    requires WellFormed(site.sourceDir) && Normal(site.buildDir) && Paths.Descending(alloc.generated)
    modifies alloc, copies
    ensures Step(o, Setting(site, alloc.generated, env, now, faults, cwd), old(Now(fs, alloc, copies, workbooks)))
            == Stepped(Now(fs', alloc, copies, workbooks), r, made)
  {
    NormalWellFormed(site.buildDir);
    NormalWellFormed(o.contentPath);
    DescendingWellFormed(alloc.generated);
    ghost var st, c := Now(fs, alloc, copies, workbooks), Setting(site, alloc.generated, env, now, faults, cwd);
    ghost var d;
    d, fs', r := ImgCopy.Build(o, site, alloc, copies, fs, now, faults, cwd);
    made := Copied(d);
    assert d == ImgCopy.Place(o, site, fs, alloc.generated, NextCount(st.counters, site.buildDir), cwd);
    ImageStepOf(o, c, st, d, ImgCopy.BuildEffect(o, d, st.copied, fs, now, faults));
  }

  /** The excel build of one output, as `ExcelStep` says. */
  method BuildExcel(o: Output, site: Site, alloc: PathAllocator, copies: ImgCopy.CopyCache, workbooks: ExcelCore.WorkbookCache,
                    fs: FS, env: ExcelOutputs.Env, now: int, faults: set<Path>, cwd: Path)
    returns (fs': FS, r: Result<Output>, ghost made: Made)
    requires (o.kind == ExcelImgOutput || o.kind == ExcelMarkdownOutput) && Shaped(o) && Normal(o.contentPath)
    requires Valid(fs) && Normal(cwd) && workbooks.Valid()
    requires WellFormed(site.sourceDir) && Normal(site.buildDir) && Paths.Descending(alloc.generated)
    modifies alloc, workbooks
    ensures workbooks.Valid()
    ensures ExcelStep(o, Setting(site, alloc.generated, env, now, faults, cwd), old(Now(fs, alloc, copies, workbooks)))
            == Stepped(Now(fs', alloc, copies, workbooks), r, made)
  {
    ghost var st, c := Now(fs, alloc, copies, workbooks), Setting(site, alloc.generated, env, now, faults, cwd);
    ghost var d, dest, core;
    d, dest, core, fs', r := ExcelOutputs.Build(o, site, alloc, workbooks, fs, env, now, faults, cwd);
    made := Linked(d, dest, core);
  }

  /**
   * The builds of one file's outputs in list order, stopping at the first
   * that raises: the outputs before it are built, each in the state the
   * previous builds left, and it and the rest are not; the builds end in
   * the state the last of them leaves.
   */
  method BuildList(outs: seq<Output>, p: Path, site: Site, alloc: PathAllocator, copies: ImgCopy.CopyCache,
                   workbooks: ExcelCore.WorkbookCache, fs: FS, env: ExcelOutputs.Env, now: int, faults: set<Path>, cwd: Path)
    returns (built: seq<Output>, fs': FS, raised: Option<Error>, ghost made: seq<Made>, ghost trail: seq<Shared>)
    requires Fits(outs, p, site) && Valid(fs) && Normal(cwd) && workbooks.Valid()
    requires WellFormed(site.sourceDir) && Normal(site.buildDir) && Paths.Descending(alloc.generated)
    modifies alloc, copies, workbooks
    ensures workbooks.Valid() && Fits(built, p, site)
    ensures Ended(outs, built, made, Setting(site, alloc.generated, env, now, faults, cwd), trail,
                  old(Now(fs, alloc, copies, workbooks)), raised, Now(fs', alloc, copies, workbooks))
  {
    ghost var c := Setting(site, alloc.generated, env, now, faults, cwd);
    built, fs', raised, made, trail := outs, fs, None, [], [Now(fs, alloc, copies, workbooks)];
    for k := 0 to |outs|
      invariant workbooks.Valid() && |made| == k && Fits(built, p, site)
      invariant BuiltPrefix(built, outs, made, c, trail) && trail[0] == old(Now(fs, alloc, copies, workbooks))
      invariant trail[k] == Now(fs', alloc, copies, workbooks)
    {
      assert built[k] == outs[k];
      var r; ghost var m;
      fs', r, m := BuildOne(built[k], site, alloc, copies, workbooks, fs', env, now, faults, cwd);
      if r.Err? {
        raised := Some(r.error);
        return;
      }
      ListStep(built, outs, made, c, trail, p, site, r.value, m, Now(fs', alloc, copies, workbooks));
      built, made, trail := built[k := r.value], made + [m], trail + [Now(fs', alloc, copies, workbooks)];
    }
  }

  /**
   * How the builds of `outs` from the state `st0` end in the state `st'`:
   * the first `|made|` outputs are built in turn, as `BuiltPrefix` says;
   * with no error raised, all of them are, and `st'` is the state the last
   * one left; otherwise the next output's build raised that error and left
   * `st'`.
   */
  ghost predicate Ended(outs: seq<Output>, built: seq<Output>, made: seq<Made>, c: Setting, trail: seq<Shared>,
                        st0: Shared, raised: Option<Error>, st': Shared) {
    BuiltPrefix(built, outs, made, c, trail) && trail[0] == st0
    && (raised.None? <==> |made| == |outs|)
    && (raised.None? ==> st' == trail[|made|])
    && (raised.Some? ==> Step(outs[|made|], c, trail[|made|]).after == st' && Step(outs[|made|], c, trail[|made|]).result == Err(raised.value))
  }

  /**
   * The state of `run` once its builds are over: the state they left, the
   * error raised, each file's list, what each build made, the states each
   * file's builds went through, and the file the builds stopped in.
   */
  datatype Builds = Builds(st: Shared, raised: Option<Error>, lists: map<Path, seq<Output>>, made: map<Path, seq<Made>>,
                           trails: map<Path, seq<Shared>>, stop: nat)

  /**
   * The build loop over the files `order`, whose lists were `start`, began
   * in the state `st0` and has built the first `full` files throughout and
   * not touched those from `untouched` on. Each file it came to was built
   * from the state the previous file's builds left (`st0` for the first).
   */
  ghost predicate Progress(order: seq<Path>, start: map<Path, seq<Output>>, inst: map<Path, seq<Output>>,
                           made: map<Path, seq<Made>>, trails: map<Path, seq<Shared>>, full: nat, untouched: nat,
                           st0: Shared) {
    Distinct(order) && full <= untouched <= |order| + 1 && (forall p :: p in inst <==> p in order)
    && inst.Keys == start.Keys && made.Keys == inst.Keys && trails.Keys == inst.Keys
    && Prefixes(start, inst, made, trails) && Counts(order, start, made, full, untouched) && Chain(order, trails, untouched, st0)
  }

  /** Each file's list has the shape `Prefix` says. */
  ghost predicate Prefixes(start: map<Path, seq<Output>>, inst: map<Path, seq<Output>>, made: map<Path, seq<Made>>,
                           trails: map<Path, seq<Shared>>) {
    forall p :: p in inst && p in start && p in made && p in trails ==> Prefix(inst[p], start[p], made[p], trails[p])
  }

  /** The first `full` files are built throughout, and none from `untouched` on is built at all. */
  ghost predicate Counts(order: seq<Path>, start: map<Path, seq<Output>>, made: map<Path, seq<Made>>, full: nat, untouched: nat) {
    (forall j :: 0 <= j < |order| ==> order[j] in start && order[j] in made)
    && (forall j :: 0 <= j < full && j < |order| ==> |made[order[j]]| == |start[order[j]]|)
    && (forall j :: untouched <= j < |order| ==> made[order[j]] == [])
  }

  /** Each file before `untouched` was built from the state the previous file left, the first from `st0`. */
  ghost predicate Chain(order: seq<Path>, trails: map<Path, seq<Shared>>, untouched: nat, st0: Shared) {
    (forall j :: 0 <= j < |order| ==> order[j] in trails && trails[order[j]] != [])
    && (0 < untouched && 0 < |order| ==> trails[order[0]][0] == st0)
    && (forall j :: 0 < j < untouched && j < |order| ==> trails[order[j]][0] == Last(trails[order[j - 1]]))
  }

  /** Each file's list is built, as far as it went, as `BuiltPrefix` says. */
  ghost predicate AllBuilt(start: map<Path, seq<Output>>, inst: map<Path, seq<Output>>, made: map<Path, seq<Made>>,
                           trails: map<Path, seq<Shared>>, c: Setting) {
    forall p :: p in inst && p in start && p in made && p in trails ==> BuiltPrefix(inst[p], start[p], made[p], c, trails[p])
  }

  /** The last state of a file's builds. */
  function Last(trail: seq<Shared>): Shared
    requires trail != []
  {
    trail[|trail| - 1]
  }

  /** The state after the builds of the first `i` files: `st0`, or the last state of file `i - 1`. */
  ghost function Reached(order: seq<Path>, trails: map<Path, seq<Shared>>, i: nat, st0: Shared): Shared
    requires i <= |order| && (0 < i ==> order[i - 1] in trails && trails[order[i - 1]] != [])
  {
    if i == 0 then st0 else Last(trails[order[i - 1]])
  }

  /**
   * `b` is how the build loop over the files `order`, whose lists were
   * `start`, ends from the state `st0`: `b.lists` holds each file's list,
   * built as `b.made` and `b.trails` say; the builds stopped in file
   * `b.stop`, every file before it built throughout and none after it
   * touched; `b.stop` is past the last file exactly when no build raised,
   * and then `b.st` is the state the last file's builds left; otherwise
   * the next output of file `b.stop` raised and left `b.st`.
   */
  ghost predicate BuildsOf(order: seq<Path>, start: map<Path, seq<Output>>, b: Builds, c: Setting, st0: Shared) {
    b.stop <= |order| && (b.raised.None? <==> b.stop == |order|)
    && Progress(order, start, b.lists, b.made, b.trails, b.stop, b.stop + 1, st0)
    && AllBuilt(start, b.lists, b.made, b.trails, c)
    && (b.raised.None? ==> b.st == Reached(order, b.trails, |order|, st0))
    && (b.raised.Some? ==>
          var p := order[b.stop];
          Ended(start[p], b.lists[p], b.made[p], c, b.trails[p], Reached(order, b.trails, b.stop, st0), b.raised, b.st))
  }

  /**
   * One turn of the build loop keeps its invariant: file `order[i]` has
   * been built from its untouched list, from the state the earlier files
   * left, throughout when `full`, and nothing else has changed.
   */
  lemma BuildStep(order: seq<Path>, i: nat, start: map<Path, seq<Output>>, inst0: map<Path, seq<Output>>, inst1: map<Path, seq<Output>>,
                  m0: map<Path, seq<Made>>, m1: map<Path, seq<Made>>, t0: map<Path, seq<Shared>>, t1: map<Path, seq<Shared>>,
                  st0: Shared, full: bool)
    requires i < |order| && Progress(order, start, inst0, m0, t0, i, i, st0)
    requires order[i] in inst1 && inst1 == inst0[order[i] := inst1[order[i]]] && order[i] in m1 && m1 == m0[order[i] := m1[order[i]]]
    requires order[i] in t1 && t1 == t0[order[i] := t1[order[i]]]
    requires Prefix(inst1[order[i]], inst0[order[i]], m1[order[i]], t1[order[i]])
    requires t1[order[i]][0] == Reached(order, t0, i, st0)
    requires full <==> |m1[order[i]]| == |inst0[order[i]]|
    ensures inst0[order[i]] == start[order[i]]
    ensures Progress(order, start, inst1, m1, t1, if full then i + 1 else i, i + 1, st0)
    ensures Reached(order, t1, i, st0) == Reached(order, t0, i, st0)
  {
    var p := order[i];
    UntouchedKept(start[p], inst0[p], m0[p], t0[p]);
    PrefixesStep(p, start, inst0, inst1, m0, m1, t0, t1);
    CountsStep(order, i, start, m0, m1, full);
    ChainStep(order, i, t0, t1, st0);
  }

  /** A list none of whose outputs is built is the list it started as. */
  lemma UntouchedKept(outs: seq<Output>, built: seq<Output>, made: seq<Made>, trail: seq<Shared>)
    requires Prefix(built, outs, made, trail) && made == []
    ensures built == outs
  {
  }

  lemma PrefixesStep(p: Path, start: map<Path, seq<Output>>, inst0: map<Path, seq<Output>>, inst1: map<Path, seq<Output>>,
                     m0: map<Path, seq<Made>>, m1: map<Path, seq<Made>>, t0: map<Path, seq<Shared>>, t1: map<Path, seq<Shared>>)
    requires Prefixes(start, inst0, m0, t0) && p in start && p in inst0
    requires p in inst1 && inst1 == inst0[p := inst1[p]] && p in m1 && m1 == m0[p := m1[p]] && p in t1 && t1 == t0[p := t1[p]]
    requires Prefix(inst1[p], inst0[p], m1[p], t1[p]) && inst0[p] == start[p]
    ensures Prefixes(start, inst1, m1, t1)
  {
    forall q | q in inst1 && q in start && q in m1 && q in t1
      ensures Prefix(inst1[q], start[q], m1[q], t1[q])
    {
      if q != p {
        assert inst1[q] == inst0[q] && m1[q] == m0[q] && t1[q] == t0[q];
      }
    }
  }

  lemma CountsStep(order: seq<Path>, i: nat, start: map<Path, seq<Output>>, m0: map<Path, seq<Made>>, m1: map<Path, seq<Made>>, full: bool)
    requires Distinct(order) && i < |order| && Counts(order, start, m0, i, i)
    requires order[i] in m1 && m1 == m0[order[i] := m1[order[i]]]
    requires full <==> |m1[order[i]]| == |start[order[i]]|
    ensures Counts(order, start, m1, if full then i + 1 else i, i + 1)
  {
    KeptElsewhere(order, i, m0, m1);
  }

  lemma ChainStep(order: seq<Path>, i: nat, t0: map<Path, seq<Shared>>, t1: map<Path, seq<Shared>>, st0: Shared)
    requires Distinct(order) && i < |order| && Chain(order, t0, i, st0)
    requires order[i] in t1 && t1 == t0[order[i] := t1[order[i]]] && t1[order[i]] != []
    requires t1[order[i]][0] == Reached(order, t0, i, st0)
    ensures Chain(order, t1, i + 1, st0) && Reached(order, t1, i, st0) == Reached(order, t0, i, st0)
  {
    KeptElsewhere(order, i, t0, t1);
    if i > 0 {
      assert t1[order[i - 1]] == t0[order[i - 1]];
    }
  }

  /**
   * The invariant of the build loop before file `i`: the files before it
   * are built throughout, it and the later ones are untouched, and `st` is
   * the state the builds so far left.
   */
  ghost predicate Looping(order: seq<Path>, start: map<Path, seq<Output>>, inst: map<Path, seq<Output>>, made: map<Path, seq<Made>>,
                          trails: map<Path, seq<Shared>>, i: nat, c: Setting, st0: Shared, st: Shared) {
    i <= |order| && Progress(order, start, inst, made, trails, i, i, st0) && AllBuilt(start, inst, made, trails, c)
    && Reached(order, trails, i, st0) == st
  }

  /** Before the build loop no file is built, and the state is the one it starts in. */
  lemma LoopStarts(order: seq<Path>, start: map<Path, seq<Output>>, made: map<Path, seq<Made>>, trails: map<Path, seq<Shared>>,
                   site: Site, c: Setting, st0: Shared)
    requires Distinct(order) && (forall p :: p in start <==> p in order) && (forall p :: p in start ==> Fits(start[p], p, site))
    requires Ready(c) && Valid(st0.fs)
    requires made == (map p | p in start :: []) && trails == (map p | p in start :: [st0])
    ensures Looping(order, start, start, made, trails, 0, c, st0, st0)
  {
    forall p | p in start ensures BuiltPrefix(start[p], start[p], made[p], c, trails[p]) {
      assert Fits(start[p], p, site);
    }
  }

  /**
   * One turn of the build loop: once file `order[i]` is built from the
   * state `st` as `Ended` says, the loop goes on to the next file, or, when
   * a build raised, ends as `BuildsOf` says.
   */
  lemma LoopStep(order: seq<Path>, i: nat, next: nat, start: map<Path, seq<Output>>, inst0: map<Path, seq<Output>>, inst1: map<Path, seq<Output>>,
                 m0: map<Path, seq<Made>>, m1: map<Path, seq<Made>>, t0: map<Path, seq<Shared>>, t1: map<Path, seq<Shared>>,
                 c: Setting, st0: Shared, st: Shared, st': Shared, raised: Option<Error>)
    requires Looping(order, start, inst0, m0, t0, i, c, st0, st) && i < |order| && next == i + 1
    requires order[i] in inst1 && inst1 == inst0[order[i] := inst1[order[i]]] && order[i] in m1 && m1 == m0[order[i] := m1[order[i]]]
    requires order[i] in t1 && t1 == t0[order[i] := t1[order[i]]]
    requires order[i] in inst0 && Ended(inst0[order[i]], inst1[order[i]], m1[order[i]], c, t1[order[i]], st, raised, st')
    ensures Valid(st'.fs)
    ensures raised.None? ==> Looping(order, start, inst1, m1, t1, next, c, st0, st')
    ensures raised.Some? ==> BuildsOf(order, start, Builds(st', raised, inst1, m1, t1, i), c, st0)
  {
    var p := order[i];
    EndedValid(inst0[p], inst1[p], m1[p], c, t1[p], st, raised, st');
    BuildStep(order, i, start, inst0, inst1, m0, m1, t0, t1, st0, raised.None?);
    AllBuiltStep(p, start, inst0, inst1, m0, m1, t0, t1, c);
  }

  /** The builds of a list end on a valid tree. */
  lemma EndedValid(outs: seq<Output>, built: seq<Output>, made: seq<Made>, c: Setting, trail: seq<Shared>,
                   st0: Shared, raised: Option<Error>, st': Shared)
    requires Ended(outs, built, made, c, trail, st0, raised, st')
    ensures Valid(st'.fs)
  {
    if raised.Some? {
      var k := |made|;
      assert Step(outs[k], c, trail[k]).after == st';
    }
  }

  /** The build loop that went through every file ends as `BuildsOf` says. */
  lemma LoopEnds(order: seq<Path>, start: map<Path, seq<Output>>, inst: map<Path, seq<Output>>, made: map<Path, seq<Made>>,
                 trails: map<Path, seq<Shared>>, n: nat, c: Setting, st0: Shared, st: Shared)
    requires Looping(order, start, inst, made, trails, n, c, st0, st) && n == |order|
    ensures BuildsOf(order, start, Builds(st, None, inst, made, trails, n), c, st0)
  {
  }

  /** Replacing the entries of one file by its built list keeps every file built. */
  lemma AllBuiltStep(p: Path, start: map<Path, seq<Output>>, inst0: map<Path, seq<Output>>, inst1: map<Path, seq<Output>>,
                     m0: map<Path, seq<Made>>, m1: map<Path, seq<Made>>, t0: map<Path, seq<Shared>>, t1: map<Path, seq<Shared>>,
                     c: Setting)
    requires AllBuilt(start, inst0, m0, t0, c) && p in start
    requires p in inst1 && inst1 == inst0[p := inst1[p]] && p in m1 && m1 == m0[p := m1[p]] && p in t1 && t1 == t0[p := t1[p]]
    requires BuiltPrefix(inst1[p], start[p], m1[p], c, t1[p])
    ensures AllBuilt(start, inst1, m1, t1, c)
  {
    forall q | q in inst1 && q in start && q in m1 && q in t1
      ensures BuiltPrefix(inst1[q], start[q], m1[q], c, t1[q])
    {
      if q != p {
        assert inst1[q] == inst0[q] && m1[q] == m0[q] && t1[q] == t0[q];
      }
    }
  }

  /** Updating the entry of `order[i]` leaves the entries of the other files as they were. */
  lemma KeptElsewhere<V>(order: seq<Path>, i: nat, m0: map<Path, V>, m1: map<Path, V>)
    requires Distinct(order) && i < |order| && order[i] in m1 && m1 == m0[order[i] := m1[order[i]]]
    ensures forall j :: 0 <= j < |order| && j != i && order[j] in m0 ==> order[j] in m1 && m1[order[j]] == m0[order[j]]
  {
    forall j | 0 <= j < |order| && j != i && order[j] in m0 ensures order[j] in m1 && m1[order[j]] == m0[order[j]] {
      assert order[j] != order[i];
    }
  }

  /** Every state the builds pass through holds a valid tree, the last one too. */
  lemma RunValid(order: seq<Path>, start: map<Path, seq<Output>>, b: Builds, c: Setting, st0: Shared)
    requires BuildsOf(order, start, b, c, st0) && Valid(st0.fs) && b.raised.None?
    ensures Valid(b.st.fs)
  {
    if |order| > 0 {
      var t := b.trails[order[|order| - 1]];
      assert Valid(t[|t| - 1].fs);
    }
  }

  class OutputsContainer {
    /** `_instances`: the outputs of each file. */
    var instances: map<Path, seq<Output>>
    /** The key order of `_instances`: the order the files were first added. */
    var paths: seq<Path>
    /** `source_dir` and `build_dir`. */
    const site: Site

    ghost predicate Valid()
      reads this
    {
      (forall p :: p in instances <==> p in paths)
      && Distinct(paths)
      && (forall p :: p in instances ==> Fits(instances[p], p, site))
    }

    constructor (site: Site)
      ensures Valid() && this.site == site
      ensures instances == map[] && paths == []
    {
      this.site := site;
      instances := map[];
      paths := [];
    }

    /** `add`: the output joins its file's list, with the container set. */
    method Add(o: Output)
      requires Valid() && Normal(o.contentPath) && Shaped(o)
      modifies this
      ensures Valid()
      ensures instances == Joined(old(instances), o.contentPath, [o.(container := Some(site))])
      ensures paths == JoinedOrder(old(paths), old(instances), o.contentPath, [o.(container := Some(site))])
    {
      var p := o.contentPath;
      if p !in instances {
        paths := paths + [p];
      }
      instances := instances[p := Listed(instances, p) + [o.(container := Some(site))]];
    }

    /** The outputs of one scan, added in match order. */
    method AddAll(kind: Kind, ms: seq<Match>, path: Path)
      requires Valid() && Normal(path)
      requires forall i :: 0 <= i < |ms| ==> Shaped(NewOutput(kind, ms[i], path))
      modifies this
      ensures Valid()
      ensures instances == Joined(old(instances), path, Attached(Created(kind, ms, path), site))
      ensures paths == JoinedOrder(old(paths), old(instances), path, Attached(Created(kind, ms, path), site))
    {
      for i := 0 to |ms|
        invariant Valid()
        invariant instances == Joined(old(instances), path, Attached(Created(kind, ms[..i], path), site))
        invariant paths == JoinedOrder(old(paths), old(instances), path, Attached(Created(kind, ms[..i], path), site))
      {
        ghost var done := Created(kind, ms[..i], path);
        ghost var one := [NewOutput(kind, ms[i], path)];
        assert Created(kind, ms[..i + 1], path) == done + one;
        AttachedAppend(done, one, site);
        assert Attached(one, site) == [NewOutput(kind, ms[i], path).(container := Some(site))];
        JoinedTwice(old(instances), old(paths), path, Attached(done, site), Attached(one, site));
        Add(NewOutput(kind, ms[i], path));
      }
      assert ms[..|ms|] == ms;
    }

    /** `feed_from_content`: an output per match of each scan, in the order of the scans. */
    method FeedFromContent(content: string, path: Path)
      requires Valid() && Normal(path)
      modifies this
      ensures Valid()
      ensures instances == Joined(old(instances), path, Attached(Fed(Scan(content), path, 3), site))
      ensures paths == JoinedOrder(old(paths), old(instances), path, Attached(Fed(Scan(content), path, 3), site))
    {
      ghost var scans := Scan(content);
      for j := 0 to 3
        invariant Valid()
        invariant instances == Joined(old(instances), path, Attached(Fed(scans, path, j), site))
        invariant paths == JoinedOrder(old(paths), old(instances), path, Attached(Fed(scans, path, j), site))
      {
        var kind := ScanKind(j);
        var ms := ScanBy(content, kind);
        ScanAt(content, j);
        ScanShaped(content, ms, kind, path);
        ghost var before := Fed(scans, path, j);
        assert Fed(scans, path, j + 1) == before + Created(kind, ms, path);
        AttachedAppend(before, Created(kind, ms, path), site);
        JoinedTwice(old(instances), old(paths), path, Attached(before, site), Attached(Created(kind, ms, path), site));
        AddAll(kind, ms, path);
      }
    }

    /** `outputs`: every output, file by file. */
    function Outputs(): (r: seq<Output>)
      requires Valid()
      reads this
      ensures forall o :: o in r <==> exists p :: p in instances && o in instances[p]
    {
      Flatten(paths, instances)
    }

    /**
     * The build loop of `run`: every output in turn, file by file, stopping
     * at the first that raises, each built in the state the builds before
     * it left. The files before file `stop` are built throughout, those
     * after it are untouched, and `stop` is past the last file exactly when
     * no build raised.
     */
    method BuildAll(alloc: PathAllocator, copies: ImgCopy.CopyCache, workbooks: ExcelCore.WorkbookCache,
                    fs: FS, env: ExcelOutputs.Env, now: int, faults: set<Path>, cwd: Path)
      returns (fs': FS, raised: Option<Error>, ghost made: map<Path, seq<Made>>, ghost trails: map<Path, seq<Shared>>, ghost stop: nat)
      requires Valid() && FileSystem.Valid(fs) && Normal(cwd) && workbooks.Valid()
      requires WellFormed(site.sourceDir) && Normal(site.buildDir) && Paths.Descending(alloc.generated)
      modifies this, alloc, copies, workbooks
      ensures Valid() && workbooks.Valid() && paths == old(paths)
      ensures BuildsOf(paths, old(instances), Builds(Now(fs', alloc, copies, workbooks), raised, instances, made, trails, stop),
                       Setting(site, alloc.generated, env, now, faults, cwd), old(Now(fs, alloc, copies, workbooks)))
    {
      ghost var c := Setting(site, alloc.generated, env, now, faults, cwd);
      ghost var st0 := Now(fs, alloc, copies, workbooks);
      fs', raised := fs, None;
      made := map p | p in instances :: [];
      trails := map p | p in instances :: [st0];
      ghost var start, order, inst, cur := instances, paths, instances, st0;
      LoopStarts(order, start, made, trails, site, c, st0);
      var i := 0;
      while i < |paths|
        invariant Valid() && workbooks.Valid() && paths == order && raised.None? && i <= |paths|
        invariant cur == Now(fs', alloc, copies, workbooks) && inst == instances && FileSystem.Valid(fs')
        invariant Looping(order, start, inst, made, trails, i, c, st0, cur)
      {
        var p := paths[i];
        ghost var was, m0, t0 := i, made, trails;
        ghost var m, t;
        fs', raised, m, t := BuildFile(p, alloc, copies, workbooks, fs', env, now, faults, cwd);
        ghost var st', inst' := Now(fs', alloc, copies, workbooks), instances;
        made, trails := made[p := m], trails[p := t];
        i := i + 1;
        LoopStep(order, was, i, start, inst, inst', m0, made, t0, trails, c, st0, cur, st', raised);
        cur, inst := st', inst';
        if raised.Some? {
          stop := was;
          return;
        }
      }
      LoopEnds(order, start, inst, made, trails, i, c, st0, cur);
      stop := i;
    }

    /**
     * One turn of the build loop: the outputs of file `p` are built from
     * the current state and replace its list.
     */
    method BuildFile(p: Path, alloc: PathAllocator, copies: ImgCopy.CopyCache, workbooks: ExcelCore.WorkbookCache,
                     fs: FS, env: ExcelOutputs.Env, now: int, faults: set<Path>, cwd: Path)
      returns (fs': FS, raised: Option<Error>, ghost made: seq<Made>, ghost trail: seq<Shared>)
      requires Valid() && p in instances && FileSystem.Valid(fs) && Normal(cwd) && workbooks.Valid()
      requires WellFormed(site.sourceDir) && Normal(site.buildDir) && Paths.Descending(alloc.generated)
      modifies this, alloc, copies, workbooks
      ensures Valid() && workbooks.Valid() && paths == old(paths)
      ensures p in instances && instances == old(instances)[p := instances[p]]
      ensures Ended(old(instances)[p], instances[p], made, Setting(site, alloc.generated, env, now, faults, cwd), trail,
                    old(Now(fs, alloc, copies, workbooks)), raised, Now(fs', alloc, copies, workbooks))
    {
      var built;
      built, fs', raised, made, trail := BuildList(instances[p], p, site, alloc, copies, workbooks, fs, env, now, faults, cwd);
      instances := instances[p := built];
    }

    /** The sort of one file's outputs, last start first. */
    method SortOne(p: Path)
      requires Valid() && p in instances
      modifies this
      ensures Valid() && paths == old(paths)
      ensures instances == old(instances)[p := SortDesc(old(instances)[p])]
    {
      SortFits(instances[p], p, site);
      instances := instances[p := SortDesc(instances[p])];
    }

    /** The sort loop of `run`: each file's outputs, last start first. */
    method SortAll()
      requires Valid()
      modifies this
      ensures Valid() && paths == old(paths) && instances.Keys == old(instances).Keys
      ensures forall p :: p in instances ==> instances[p] == SortDesc(old(instances)[p])
    {
      for i := 0 to |paths|
        invariant Valid() && paths == old(paths) && instances.Keys == old(instances).Keys
        invariant forall j :: 0 <= j < i ==> instances[paths[j]] == SortDesc(old(instances)[paths[j]])
        invariant forall j :: i <= j < |paths| ==> instances[paths[j]] == old(instances)[paths[j]]
      {
        ghost var before := instances;
        SortOne(paths[i]);
        forall j | 0 <= j < |paths| && j != i ensures instances[paths[j]] == before[paths[j]] {
          assert paths[j] != paths[i];
        }
      }
      forall p | p in instances ensures instances[p] == SortDesc(old(instances)[p]) {
        var j :| 0 <= j < |paths| && paths[j] == p;
      }
    }

    /** The write-back loop of `run`: each file re-read, spliced and written once. */
    method WriteBack(fs: FS, now: int, faults: set<Path>) returns (fs': FS, raised: Option<Error>)
      requires Valid() && FileSystem.Valid(fs)
      ensures Writable(paths, instances) && Outcome(fs', raised) == Rewrite(fs, paths, instances, now, faults)
    {
      assert Writable(paths, instances) by {
        forall p | p in paths ensures p in instances && Normal(p) {
          assert Fits(instances[p], p, site);
        }
      }
      fs', raised := fs, None;
      var i := 0;
      while i < |paths| && raised.None?
        invariant 0 <= i <= |paths| && FileSystem.Valid(fs') && Writable(paths[..i], instances)
        invariant Outcome(fs', raised) == Rewrite(fs, paths[..i], instances, now, faults)
      {
        RewritePrefixStep(fs, paths, instances, now, faults, i);
        var p := paths[i];
        var read := ReadText(fs', p);
        if read.Err? {
          raised := Some(read.error);
        } else {
          var content := SpliceFile(read.value, instances[p]);
          var w := WriteText(fs', p, content, now, faults);
          fs', raised := w.fs, w.raised;
        }
        i := i + 1;
      }
      if raised.Some? {
        RewriteStops(fs, paths, instances, now, faults, i);
      } else {
        assert paths[..i] == paths;
      }
    }

    /**
     * The `with` block of `run`: every output is built inside both
     * builders' executors, which empty their caches however the builds end.
     * `built` is the state once the builds are over, as `BuildsOf` says.
     */
    method BuildInExecutors(alloc: PathAllocator, copies: ImgCopy.CopyCache, workbooks: ExcelCore.WorkbookCache,
                            fs: FS, env: ExcelOutputs.Env, now: int, faults: set<Path>, cwd: Path)
      returns (fs': FS, raised: Option<Error>, ghost built: Builds)
      requires Valid() && FileSystem.Valid(fs) && Normal(cwd) && workbooks.Valid()
      requires WellFormed(site.sourceDir) && Normal(site.buildDir) && Paths.Descending(alloc.generated)
      modifies this, alloc, copies, workbooks
      ensures Valid() && paths == old(paths) && instances == built.lists && fs' == built.st.fs && raised == built.raised
      ensures copies.entries == {} && workbooks.loaded == map[] && workbooks.loadOrder == []
      ensures BuildsOf(paths, old(instances), built, Setting(site, alloc.generated, env, now, faults, cwd), old(Now(fs, alloc, copies, workbooks)))
      ensures alloc.counters == built.st.counters
    {
      ghost var made, trails, stop;
      fs', raised, made, trails, stop := BuildAll(alloc, copies, workbooks, fs, env, now, faults, cwd);
      built := Builds(Now(fs', alloc, copies, workbooks), raised, instances, made, trails, stop);
      workbooks.Clear();
      copies.Clear();
    }

    /**
     * `run`: the builds run inside both builders' executors, and a raising
     * build ends the run before any file is written. Otherwise each file's
     * outputs are sorted and the files are rewritten. `built` is the state
     * once the builds are over, as `BuildsOf` says: the state they left,
     * each file's list, what each build made and the states it was made in,
     * and the file the builds stopped in.
     */
    method Run(alloc: PathAllocator, copies: ImgCopy.CopyCache, workbooks: ExcelCore.WorkbookCache,
               fs: FS, env: ExcelOutputs.Env, now: int, faults: set<Path>, cwd: Path)
      returns (fs': FS, raised: Option<Error>, ghost built: Builds)
      requires Valid() && FileSystem.Valid(fs) && Normal(cwd) && workbooks.Valid()
      requires WellFormed(site.sourceDir) && Normal(site.buildDir) && Paths.Descending(alloc.generated)
      modifies this, alloc, copies, workbooks
      ensures Valid() && paths == old(paths) && instances.Keys == old(instances).Keys
      ensures copies.entries == {} && workbooks.loaded == map[] && workbooks.loadOrder == []
      ensures BuildsOf(paths, old(instances), built, Setting(site, alloc.generated, env, now, faults, cwd), old(Now(fs, alloc, copies, workbooks)))
      ensures alloc.counters == built.st.counters
      ensures built.raised.Some? ==> fs' == built.st.fs && raised == built.raised && instances == built.lists
      ensures built.raised.None? ==> forall p :: p in instances ==> instances[p] == SortDesc(built.lists[p])
      ensures built.raised.None? ==> FileSystem.Valid(built.st.fs) && Writable(paths, instances)
      ensures built.raised.None? ==> Outcome(fs', raised) == Rewrite(built.st.fs, paths, instances, now, faults)
    {
      var b;
      b, raised, built := BuildInExecutors(alloc, copies, workbooks, fs, env, now, faults, cwd);
      if raised.Some? {
        fs' := b;
        return;
      }
      RunValid(paths, old(instances), built, Setting(site, alloc.generated, env, now, faults, cwd), old(Now(fs, alloc, copies, workbooks)));
      SortAll();
      fs', raised := WriteBack(b, now, faults);
    }
  }
}
