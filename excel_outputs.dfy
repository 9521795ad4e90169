/**
 * `ExcelOutput`, `ExcelImgOutput` and `ExcelMarkdownOutput` of
 * `outputs/excel.py`: a directive `excel[label](workbook?range)` or
 * `excel-table[label](workbook?range)` is replaced by a link to the range
 * rendered as an image, or by a Quarto include of the range rendered as a
 * fenced HTML table. The artefact lives in a directory of its own under the
 * generated directory, named after a digest of the workbook's path.
 */
module ExcelOutputs {
  import opened Wrappers
  import opened Text
  import opened Paths
  import opened FileSystem
  import opened PathUtils
  import opened Descriptor
  import opened Outputs
  import opened Excel
  import opened ExcelCore

  /** The libraries the outputs call: range parsing, workbook loading, HTML rendering and the path digest. */
  datatype Env = Env(parse: RangeParser, load: Loader, toHtml: HtmlRenderer, sha: string -> string)

  /** The label, the workbook reference and the range of a directive: groups 1 to 3, stripped. */
  function Label(o: Output): string
    requires |o.rematch.groups| >= 4
  {
    Strip(o.rematch.groups[1])
  }

  function WorkbookRef(o: Output): (r: Reference)
    requires |o.rematch.groups| >= 4
    ensures RefWellFormed(r)
  {
    StrRef(Strip(o.rematch.groups[2]))
  }

  function RangeText(o: Output): string
    requires |o.rematch.groups| >= 4
  {
    Strip(o.rematch.groups[3])
  }

  /**
   * `self.dest`: `generated_dir / hash_path(absolute, n_hash=8, n_parents=2)`,
   * one directory per workbook directly under the generated directory.
   */
  function ExcelDest(site: Site, generated: Path, absolute: Path, cwd: Path, sha: string -> string): (r: Path)
    requires Normal(site.buildDir) && Descending(generated) && WellFormed(absolute) && Normal(cwd)
    ensures Normal(r)
    ensures Parent(r) == site.buildDir + generated
    ensures Name(r) == HashPath(absolute, Some(8), 2, cwd, sha) && '.' !in Name(r)
  {
    var h := HashPath(absolute, Some(8), 2, cwd, sha);
    DescendNormal(site.buildDir, generated);
    DescendNormal(site.buildDir + generated, [h]);
    Join(Join(site.buildDir, generated), [h])
  }

  /**
   * Two workbooks whose hexadecimal digests differ in their first eight
   * characters get different directories; digests that agree on those eight
   * characters may collide.
   */
  lemma ExcelDestsDiffer(site: Site, generated: Path, a: Path, b: Path, cwd: Path, sha: string -> string)
    requires Normal(site.buildDir) && Descending(generated) && WellFormed(a) && WellFormed(b) && Normal(cwd)
    requires HexDigits(Digest(a, cwd, sha)) && HexDigits(Digest(b, cwd, sha))
    requires |Digest(a, cwd, sha)| >= 8 && |Digest(b, cwd, sha)| >= 8
    requires Digest(a, cwd, sha)[..8] != Digest(b, cwd, sha)[..8]
    ensures ExcelDest(site, generated, a, cwd, sha) != ExcelDest(site, generated, b, cwd, sha)
  {
    HashPathDigestsApart(a, b, 8, 2, cwd, sha);
  }

  /** The artefact `build` produced, relative to the build directory: the generated directory, the digest, the file. */
  lemma ArtefactRelative(site: Site, generated: Path, dest: Path, name: string)
    requires Normal(site.buildDir) && Parent(dest) == site.buildDir + generated && Normal(dest)
    requires IsPart(Name(dest)) && IsPart(name)
    ensures RelativeTo(dest + [name], site.buildDir) == Ok(generated + [Name(dest), name])
  {
    var b := site.buildDir;
    assert dest != Root;
    assert dest == Parent(dest) + [Name(dest)];
    assert dest + [name] == b + (generated + [Name(dest), name]);
    assert (dest + [name])[..|b|] == b;
  }

  /** `f"![{text}]({rel})"`, the replacement of an image directive. */
  function ImageLink(text: string, rel: Path): (r: string)
    requires WellFormed(rel)
    ensures StartsWith(r, "![" + text + "](")
  {
    var r := "![" + text + "](" + ToStr(rel) + ")";
    assert r == ("![" + text + "](") + (ToStr(rel) + ")");
    r
  }

  /** `"{{< include " + rel + " >}}"`, the replacement of a table directive. */
  function IncludeLink(rel: Path): (r: string)
    requires WellFormed(rel)
    ensures StartsWith(r, "{{< include ")
  {
    var r := "{{< include " + ToStr(rel) + " >}}";
    assert r == "{{< include " + (ToStr(rel) + " >}}");
    r
  }

  /** The label survives: the replacement gives back the label it was made from. */
  lemma ImageLinkLabel(text: string, rel: Path)
    requires WellFormed(rel)
    ensures ImageLink(text, rel)[2..2 + |text|] == text
  {
    var r := ImageLink(text, rel);
    assert r == "![" + text + "](" + ToStr(rel) + ")";
    assert r[2..2 + |text|] == ("![" + text)[2..];
  }

  /**
   * The `from_string` call of `ExcelOutput.build`: the workbook reference,
   * resolved against the source directory, placed for the build directory.
   */
  method PlaceWorkbook(ref: Reference, site: Site, alloc: PathAllocator, fs: FS, cwd: Path) returns (d: Descriptor)
    requires RefWellFormed(ref) && Normal(cwd)
    requires WellFormed(site.sourceDir) && WellFormed(site.buildDir) && WellFormed(alloc.generated)
    modifies alloc
    ensures d == Describe(fs, ref, site.sourceDir, site.buildDir, false, cwd, alloc.generated, NextCount(old(alloc.counters), site.buildDir))
    ensures d.isGenerated ==> alloc.counters == old(alloc.counters)[site.buildDir := NextCount(old(alloc.counters), site.buildDir)]
    ensures !d.isGenerated ==> alloc.counters == old(alloc.counters)
  {
    d := FromString(alloc, fs, ref, site.sourceDir, site.buildDir, false, cwd);
  }

  /** The output once its artefact is at `path`: the directive is replaced by a link to it. */
  function Linked(o: Output, site: Site, path: Path): (r: Result<Output>)
    requires |o.rematch.groups| >= 4 && WellFormed(path)
    ensures r.Ok? <==> IsWithin(path, site.buildDir)
    ensures r.Ok? ==> WellFormed(path[|site.buildDir|..])
    ensures r.Ok? ==> r.value == o.(subBy := if o.kind == ExcelImgOutput then ImageLink(Label(o), path[|site.buildDir|..])
                                              else IncludeLink(path[|site.buildDir|..]))
  {
    var rel :- RelativeTo(path, site.buildDir);
    RelativeWellFormed(path, site.buildDir);
    if o.kind == ExcelImgOutput then Ok(o.(subBy := ImageLink(Label(o), rel)))
    else Ok(o.(subBy := IncludeLink(rel)))
  }

  /** The mode each output builds its core in. */
  function ModeOf(k: Kind): string {
    if k == ExcelImgOutput then "image" else "quarto_markdown"
  }

  /** The file name of the artefact: the output name with the mode's suffix. */
  function ArtefactName(o: Output, c: Core): string {
    c.outname + if o.kind == ExcelImgOutput then ".png" else ".md"
  }

  /** A relative path of the generated directory, a directory and a file is well-formed. */
  lemma ArtefactPathWellFormed(generated: Path, dir: string, name: string)
    requires Descending(generated) && IsPart(dir) && IsPart(name)
    ensures WellFormed(generated + [dir, name]) && !IsAbsolute(generated + [dir, name])
  {
    var rel := generated + [dir, name];
    assert generated != [] ==> IsPart(generated[0]);
    assert forall i :: 0 <= i < |rel| ==> IsPart(rel[i]);
  }

  /**
   * The replacement of a built directive: a link to its artefact, relative
   * to the build directory, an image link carrying the label or a Quarto
   * include.
   */
  function ArtefactLink(o: Output, generated: Path, dest: Path, c: Core): (r: string)
    requires |o.rematch.groups| >= 4 && Descending(generated) && IsPart(Name(dest)) && CoreValid(c)
    ensures o.kind == ExcelImgOutput ==> StartsWith(r, "![" + Label(o) + "](")
    ensures o.kind != ExcelImgOutput ==> StartsWith(r, "{{< include ")
  {
    OutnameSuffixPart(c.outname, BuilderFor(ModeOf(o.kind)).value);
    ArtefactPathWellFormed(generated, Name(dest), ArtefactName(o, c));
    var rel := generated + [Name(dest), ArtefactName(o, c)];
    if o.kind == ExcelImgOutput then ImageLink(Label(o), rel) else IncludeLink(rel)
  }

  /**
   * The artefact of a core built into the workbook's directory lies in the
   * build tree, and linking to it gives the link to the generated
   * directory, the digest and the artefact's name.
   */
  lemma LinkedArtefact(o: Output, site: Site, generated: Path, dest: Path, c: Core)
    requires |o.rematch.groups| >= 4 && Normal(site.buildDir) && CoreValid(c) && Descending(generated)
    requires Normal(dest) && Parent(dest) == site.buildDir + generated && IsPart(Name(dest))
    ensures Linked(o, site, CoreTarget(c, ModeOf(o.kind), Some(dest)).value) == Ok(o.(subBy := ArtefactLink(o, generated, dest, c)))
  {
    var b := BuilderFor(ModeOf(o.kind)).value;
    var name := ArtefactName(o, c);
    OutnameSuffixPart(c.outname, b);
    var p := CoreTarget(c, ModeOf(o.kind), Some(dest)).value;
    assert p == dest + [name];
    ArtefactRelative(site, generated, dest, name);
  }

  /**
   * The second half of both `build`s: build the core in the output's mode
   * into the workbook's directory, then replace the directive by a link to
   * the artefact.
   */
  method Finish(o: Output, site: Site, generated: Path, dest: Path, c: Core, cache: WorkbookCache, fs: FS, env: Env, now: int, faults: set<Path>)
    returns (fs': FS, r: Result<Output>)
    requires |o.rematch.groups| >= 4 && Valid(fs) && cache.Valid() && CoreValid(c)
    requires Normal(site.buildDir) && Descending(generated)
    requires Normal(dest) && Parent(dest) == site.buildDir + generated && IsPart(Name(dest))
    modifies cache
    ensures cache.Valid()
    ensures var b := CoreBuild(c, ModeOf(o.kind), Some(dest), fs, Lookup(old(cache.loaded), ToStr(c.wbPath), env.load), now, faults, env.toHtml);
      && fs' == b.fs
      && (b.raised.Some? ==> r == Err(b.raised.value))
      && (b.raised.None? ==> r == Ok(o.(subBy := ArtefactLink(o, generated, dest, c))))
    ensures ReadsWorkbook(c, ModeOf(o.kind), Some(dest), fs) ==>
      cache.loaded == AfterLoad(old(cache.loaded), ToStr(c.wbPath), env.load)
    ensures !ReadsWorkbook(c, ModeOf(o.kind), Some(dest), fs) ==> cache.loaded == old(cache.loaded)
  {
    var p;
    fs', p := ExcelCore.Build(cache, c, ModeOf(o.kind), Some(dest), fs, env.load, now, faults, env.toHtml);
    if p.Err? {
      r := Err(p.error);
    } else {
      LinkedArtefact(o, site, generated, dest, c);
      r := Linked(o, site, p.value);
    }
  }

  /** What the rest of a `build` leaves: the tree, the workbook cache, the core and the result. */
  datatype Built = Built(fs: FS, loaded: map<string, Workbook>, core: Result<Core>, result: Result<Output>)

  /**
   * The rest of both `build`s on the tree `fs` and the workbook cache
   * `loaded`: `mkdir` of the artefact directory, then the core, whose
   * workbook is looked up only when the range does not parse as it is,
   * then the core's build and the link to its artefact. A successful build
   * links the core made from the workbook the cache held or loaded, and
   * the cache gains at most that workbook.
   */
  function Constructed(o: Output, site: Site, generated: Path, d: Descriptor, dest: Path, loaded: map<string, Workbook>,
                       fs: FS, env: Env, now: int, faults: set<Path>, cwd: Path): (b: Built)
    requires |o.rematch.groups| >= 4 && Valid(fs) && Normal(cwd)
    requires Normal(site.buildDir) && Descending(generated) && Normal(d.absolutePath)
    requires Normal(dest) && Parent(dest) == site.buildDir + generated && IsPart(Name(dest))
    ensures Valid(b.fs)
    ensures Mkdirs(fs, dest, faults, now).raised.Some? ==> b.result.Err? && b.loaded == loaded
    ensures b.core.Err? ==> b.result == Err(b.core.error)
    ensures b.result.Ok? ==>
      && b.core.Ok? && b.core == MakeCore(d.absolutePath, RangeText(o), env.parse, Lookup(loaded, ToStr(Resolve(d.absolutePath, cwd)), env.load), cwd)
      && b.result.value == o.(subBy := ArtefactLink(o, generated, dest, b.core.value))
    ensures b.loaded == loaded || b.loaded == AfterLoad(loaded, ToStr(Resolve(d.absolutePath, cwd)), env.load)
  {
    var m := Mkdirs(fs, dest, faults, now);
    if m.raised.Some? then Built(m.fs, loaded, Err(m.raised.value), Err(m.raised.value))
    else
      NormalWellFormed(d.absolutePath);
      var key := ToStr(Resolve(d.absolutePath, cwd));
      var core := MakeCore(d.absolutePath, RangeText(o), env.parse, Lookup(loaded, key, env.load), cwd);
      var held := if env.parse(RangeText(o)).Some? then loaded else AfterLoad(loaded, key, env.load);
      if core.Err? then Built(m.fs, held, core, Err(core.error))
      else
        assert ToStr(core.value.wbPath) == key;
        LoadedTwice(loaded, key, env.load);
        CoreLinked(o, generated, dest, core.value, held, m.fs, env, now, faults)
  }

  /** What the excel `build` of one output leaves: the workbook's descriptor, its digest folder, the counters and the rest. */
  datatype Placed = Placed(d: Descriptor, dest: Path, counters: map<Path, nat>, built: Built)

  /**
   * The excel `build` of `o` on the tree `fs`, the allocator's `counters`
   * and the workbook cache `loaded`: the workbook is placed with the build
   * directory's next counter value, which moves on exactly when the
   * workbook is placed as generated, and the rest is `Constructed` in the
   * digest folder of the workbook's path.
   */
  function Placement(o: Output, site: Site, generated: Path, env: Env, now: int, faults: set<Path>, cwd: Path,
                     fs: FS, counters: map<Path, nat>, loaded: map<string, Workbook>): (p: Placed)
    requires |o.rematch.groups| >= 4 && Valid(fs) && Normal(cwd)
    requires WellFormed(site.sourceDir) && Normal(site.buildDir) && Descending(generated)
    ensures Valid(p.built.fs)
    ensures p.counters == Advanced(counters, site.buildDir, p.d.isGenerated)
  {
    NormalWellFormed(site.buildDir);
    DescendingWellFormed(generated);
    var d := Describe(fs, WorkbookRef(o), site.sourceDir, site.buildDir, false, cwd, generated, NextCount(counters, site.buildDir));
    var dest := ExcelDest(site, generated, d.absolutePath, cwd, env.sha);
    Placed(d, dest, Advanced(counters, site.buildDir, d.isGenerated), Constructed(o, site, generated, d, dest, loaded, fs, env, now, faults, cwd))
  }

  /** Asking the cache twice for one workbook leaves it as asking once does. */
  lemma LoadedTwice(loaded: map<string, Workbook>, key: string, load: Loader)
    ensures AfterLoad(AfterLoad(loaded, key, load), key, load) == AfterLoad(loaded, key, load)
  {
  }

  /**
   * The end of both `build`s once the core `c` is made: its build into the
   * artefact directory, which reads the workbook through the cache `loaded`
   * when its builder needs the range, then the link to its artefact.
   */
  function CoreLinked(o: Output, generated: Path, dest: Path, c: Core, loaded: map<string, Workbook>,
                      fs: FS, env: Env, now: int, faults: set<Path>): (b: Built)
    requires |o.rematch.groups| >= 4 && Valid(fs) && CoreValid(c)
    requires Descending(generated) && Normal(dest) && IsPart(Name(dest))
    ensures Valid(b.fs) && b.core == Ok(c)
    ensures b.result.Ok? ==> b.result.value == o.(subBy := ArtefactLink(o, generated, dest, c))
    ensures b.loaded == loaded || b.loaded == AfterLoad(loaded, ToStr(c.wbPath), env.load)
  {
    var mode := ModeOf(o.kind);
    var r := CoreBuild(c, mode, Some(dest), fs, Lookup(loaded, ToStr(c.wbPath), env.load), now, faults, env.toHtml);
    var after := if ReadsWorkbook(c, mode, Some(dest), fs) then AfterLoad(loaded, ToStr(c.wbPath), env.load) else loaded;
    Built(r.fs, after, Ok(c), if r.raised.Some? then Err(r.raised.value) else Ok(o.(subBy := ArtefactLink(o, generated, dest, c))))
  }

  /**
   * The rest of both `build`s once the workbook is placed: create the
   * artefact directory, construct the core (which may load the workbook),
   * build it and link to its artefact.
   */
  method Construct(o: Output, site: Site, generated: Path, d: Descriptor, dest: Path, cache: WorkbookCache, fs: FS, env: Env, now: int, faults: set<Path>, cwd: Path)
    returns (core: Result<Core>, fs': FS, r: Result<Output>)
    requires |o.rematch.groups| >= 4 && Valid(fs) && Normal(cwd) && cache.Valid()
    requires Normal(site.buildDir) && Descending(generated) && Normal(d.absolutePath)
    requires Normal(dest) && Parent(dest) == site.buildDir + generated && IsPart(Name(dest))
    modifies cache
    ensures cache.Valid() && Valid(fs')
    ensures Mkdirs(fs, dest, faults, now).raised.Some? ==> core == Err(Mkdirs(fs, dest, faults, now).raised.value)
    ensures Mkdirs(fs, dest, faults, now).raised.None? ==>
      core == MakeCore(d.absolutePath, RangeText(o), env.parse, Lookup(old(cache.loaded), ToStr(Resolve(d.absolutePath, cwd)), env.load), cwd)
    ensures core.Err? ==> r == Err(core.error)
    ensures r.Ok? ==> core.Ok? && r.value == o.(subBy := ArtefactLink(o, generated, dest, core.value))
    ensures var b := Constructed(o, site, generated, d, dest, old(cache.loaded), fs, env, now, faults, cwd);
      core == b.core && fs' == b.fs && r == b.result && cache.loaded == b.loaded
  {
    var m := Mkdirs(fs, dest, faults, now);
    if m.raised.Some? {
      core, fs', r := Err(m.raised.value), m.fs, Err(m.raised.value);
      return;
    }
    core := NewCore(cache, d.absolutePath, RangeText(o), env.parse, env.load, cwd);
    if core.Err? {
      fs', r := m.fs, Err(core.error);
    } else {
      fs', r := Finish(o, site, generated, dest, core.value, cache, m.fs, env, now, faults);
    }
  }

  /**
   * Both `build`s once the workbook is placed: the workbook's directory in
   * the build tree, then `Construct`.
   */
  method Produce(o: Output, site: Site, generated: Path, d: Descriptor, cache: WorkbookCache, fs: FS, env: Env, now: int, faults: set<Path>, cwd: Path)
    returns (dest: Path, core: Result<Core>, fs': FS, r: Result<Output>)
    requires |o.rematch.groups| >= 4 && Valid(fs) && Normal(cwd) && cache.Valid()
    requires Normal(site.buildDir) && Descending(generated) && Normal(d.absolutePath)
    modifies cache
    ensures cache.Valid() && Valid(fs')
    ensures dest == ExcelDest(site, generated, d.absolutePath, cwd, env.sha)
    ensures Mkdirs(fs, dest, faults, now).raised.Some? ==> core == Err(Mkdirs(fs, dest, faults, now).raised.value)
    ensures Mkdirs(fs, dest, faults, now).raised.None? ==>
      core == MakeCore(d.absolutePath, RangeText(o), env.parse, Lookup(old(cache.loaded), ToStr(Resolve(d.absolutePath, cwd)), env.load), cwd)
    ensures core.Err? ==> r == Err(core.error)
    ensures r.Ok? ==> core.Ok? && r.value == o.(subBy := ArtefactLink(o, generated, dest, core.value))
    ensures var b := Constructed(o, site, generated, d, dest, old(cache.loaded), fs, env, now, faults, cwd);
      core == b.core && fs' == b.fs && r == b.result && cache.loaded == b.loaded
  {
    dest := ExcelDest(site, generated, d.absolutePath, cwd, env.sha);
    core, fs', r := Construct(o, site, generated, d, dest, cache, fs, env, now, faults, cwd);
  }

  /**
   * `ExcelImgOutput.build` and `ExcelMarkdownOutput.build`: place the
   * workbook, create its artefact directory, construct the core (which may
   * load the workbook), then build the core and link to its artefact.
   * `site` is the container's; a detached output raises on `generated_dir`
   * as `Outputs.GeneratedDir` states. `core` is the `CoreExcelOutput` the
   * build constructed, when it got that far.
   */
  method Build(o: Output, site: Site, alloc: PathAllocator, cache: WorkbookCache, fs: FS, env: Env, now: int, faults: set<Path>, cwd: Path)
    returns (d: Descriptor, dest: Path, core: Result<Core>, fs': FS, r: Result<Output>)
    requires |o.rematch.groups| >= 4 && Valid(fs) && Normal(cwd) && cache.Valid()
    requires WellFormed(site.sourceDir) && Normal(site.buildDir) && Descending(alloc.generated)
    modifies alloc, cache
    ensures cache.Valid() && Valid(fs')
    ensures d == Describe(fs, WorkbookRef(o), site.sourceDir, site.buildDir, false, cwd, alloc.generated, NextCount(old(alloc.counters), site.buildDir))
    ensures d.isGenerated ==> alloc.counters == old(alloc.counters)[site.buildDir := NextCount(old(alloc.counters), site.buildDir)]
    ensures !d.isGenerated ==> alloc.counters == old(alloc.counters)
    ensures alloc.counters == Advanced(old(alloc.counters), site.buildDir, d.isGenerated)
    ensures dest == ExcelDest(site, alloc.generated, d.absolutePath, cwd, env.sha)
    ensures Mkdirs(fs, dest, faults, now).raised.Some? ==> core == Err(Mkdirs(fs, dest, faults, now).raised.value)
    ensures Mkdirs(fs, dest, faults, now).raised.None? ==>
      core == MakeCore(d.absolutePath, RangeText(o), env.parse, Lookup(old(cache.loaded), ToStr(Resolve(d.absolutePath, cwd)), env.load), cwd)
    ensures core.Err? ==> r == Err(core.error)
    ensures r.Ok? ==> core.Ok? && r.value == o.(subBy := ArtefactLink(o, alloc.generated, dest, core.value))
    ensures var b := Constructed(o, site, alloc.generated, d, dest, old(cache.loaded), fs, env, now, faults, cwd);
      core == b.core && fs' == b.fs && r == b.result && cache.loaded == b.loaded
    ensures Placement(o, site, alloc.generated, env, now, faults, cwd, fs, old(alloc.counters), old(cache.loaded))
            == Placed(d, dest, alloc.counters, Built(fs', cache.loaded, core, r))
  {
    NormalWellFormed(site.buildDir);
    DescendingWellFormed(alloc.generated);
    ghost var counters, loaded := alloc.counters, cache.loaded;
    ghost var n := NextCount(counters, site.buildDir);
    d := PlaceWorkbook(WorkbookRef(o), site, alloc, fs, cwd);
    assert d == Describe(fs, WorkbookRef(o), site.sourceDir, site.buildDir, false, cwd, alloc.generated, n);
    dest, core, fs', r := Produce(o, site, alloc.generated, d, cache, fs, env, now, faults, cwd);
    assert Placement(o, site, alloc.generated, env, now, faults, cwd, fs, counters, loaded)
           == Placed(d, dest, alloc.counters, Built(fs', cache.loaded, core, r));
  }
}
