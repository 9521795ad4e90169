/**
 * `renderers/type/`: one renderer per quarto project type. Each renders into
 * its own sub-directory of the build directory, edits a copy of the base
 * `_quarto.yml` content (project type, files to render, formats, the docgen
 * filter and the type's own section), runs quarto there, then mirrors the
 * result to the output directory.
 */
module TypeRenderers {
  import opened Wrappers
  import opened Text
  import opened Paths
  import opened FileSystem
  import opened PathUtils
  import opened Settings
  import opened Yml
  import Renderer
  import Mirror

  /** The renderer classes `from_type` chooses among. */
  datatype Kind = Website | Book | Manuscript | DefaultType | User

  /** `project_type` of each class. */
  function ProjectType(k: Kind): string {
    match k
    case Website => "website"
    case Book => "book"
    case Manuscript => "manuscript"
    case DefaultType => "default"
    case User => "user"
  }

  /** `sub_output_dir` of each class: the project type behind an underscore, a plain name. */
  function SubOutputDir(k: Kind): (r: string)
    ensures r == "_" + ProjectType(k)
    ensures Renderer.FileName(r)
  {
    match k
    case Website => "_website"
    case Book => "_book"
    case Manuscript => "_manuscript"
    case DefaultType => "_default"
    case User => "_user"
  }

  /** `from_type`: the class for a project type name; any other name raises `ValueError`. */
  function FromType(name: string): (r: Result<Kind>)
    ensures r.Ok? <==> name in AvailableProjectTypes
    ensures r.Ok? ==> ProjectType(r.value) == name
  {
    if name == "website" then Ok(Website)
    else if name == "book" then Ok(Book)
    else if name == "manuscript" then Ok(Manuscript)
    else if name == "default" then Ok(DefaultType)
    else if name == "user" then Ok(User)
    else Err(ValueError("Type de projet non supporté"))
  }

  /** Each class is found again from its own project type. */
  lemma FromTypeRoundTrip(k: Kind)
    ensures FromType(ProjectType(k)) == Ok(k)
  {
  }

  /** The classes of `base_pre_renderer2.py` (all but `user`) edit the YAML content and carry formats. */
  predicate PreRenders(k: Kind) {
    k != User
  }

  // ---------------------------------------------------------------------
  // Formats

  /** `validate_formats`: the base one falls back to the defaults; the website one keeps "html" only. */
  function ValidateFormats(k: Kind, formats: seq<string>): seq<string> {
    var base := OrElse(EnforceList(AList(formats)), GetDefaultFormats());
    if k == Website then (if "html" in base then ["html"] else []) else base
  }

  /**
   * The base formats are the given ones, each once, or `["html"]` when none
   * is given; a website renders "html" exactly when it was given or nothing
   * was, and nothing otherwise.
   */
  lemma FormatsChosen(k: Kind, formats: seq<string>)
    ensures k != Website && formats == [] ==> ValidateFormats(k, formats) == ["html"]
    ensures k != Website && formats != [] ==>
      Unique(ValidateFormats(k, formats)) && forall x :: x in ValidateFormats(k, formats) <==> x in formats
    ensures k == Website ==> ValidateFormats(k, formats) == (if formats == [] || "html" in formats then ["html"] else [])
  {
    Defaults();
    var base := OrElse(EnforceList(AList(formats)), GetDefaultFormats());
    if formats == [] {
      assert base == ["html"];
    } else {
      assert formats[0] in Dedup(formats);
      assert base == Dedup(formats);
    }
  }

  // ---------------------------------------------------------------------
  // Output directories and the orphan decision

  /** `build_output_dir`: an output directory the user chose is used as it is, else the type's sub-directory of it. */
  function BuildOutputDir(outputDir: Path, auto: bool, k: Kind): (r: Path)
    requires Normal(outputDir)
    ensures Normal(r)
    ensures !auto ==> r == outputDir
    ensures auto ==> Parent(r) == outputDir && Name(r) == SubOutputDir(k)
  {
    Renderer.ChildNormal(outputDir, SubOutputDir(k));
    if auto then outputDir + [SubOutputDir(k)] else outputDir
  }

  /**
   * With an automatic output directory two types never share or nest their
   * output; with one the user chose, every type mirrors into the same one.
   */
  lemma OutputDirsApart(outputDir: Path, k1: Kind, k2: Kind)
    requires Normal(outputDir) && k1 != k2
    ensures BuildOutputDir(outputDir, false, k1) == BuildOutputDir(outputDir, false, k2)
    ensures !IsWithin(BuildOutputDir(outputDir, true, k1), BuildOutputDir(outputDir, true, k2))
  {
    var a, b := outputDir + [SubOutputDir(k1)], outputDir + [SubOutputDir(k2)];
    assert a[|outputDir|] == SubOutputDir(k1) && b[|outputDir|] == SubOutputDir(k2);
  }

  /** The `rm_orphans` decision of `mirror_output`; `sub_output_dir` is never None, so the last case is true. */
  function RmOrphans(args: seq<string>, sourceDir: Path, outputDir: Path): bool {
    if "--no-clean" in args then false
    else if "--clean" in args then true
    else if sourceDir == outputDir then false
    else true
  }

  /**
   * `--no-clean` wins over `--clean`, `--clean` over the rest; without
   * either, orphans are removed unless the output is the source directory.
   */
  lemma RmOrphansPrecedence(args: seq<string>, sourceDir: Path, outputDir: Path)
    ensures "--no-clean" in args ==> !RmOrphans(args, sourceDir, outputDir)
    ensures "--no-clean" !in args && "--clean" in args ==> RmOrphans(args, sourceDir, outputDir)
    ensures "--no-clean" !in args && "--clean" !in args ==> (RmOrphans(args, sourceDir, outputDir) <==> sourceDir != outputDir)
  {
  }

  // ---------------------------------------------------------------------
  // Paths relative to the build directory

  /** `file.relative_to(build_dir)` for each file in order; a file outside raises `ValueError`. */
  function RelPaths(files: seq<Path>, base: Path): (r: Result<seq<Path>>)
    requires forall i :: 0 <= i < |files| ==> WellFormed(files[i])
    ensures r.Ok? <==> forall i :: 0 <= i < |files| ==> IsWithin(files[i], base)
    ensures r.Ok? ==> |r.value| == |files|
    ensures r.Ok? ==> forall i :: 0 <= i < |files| ==> IsWithin(files[i], base) && r.value[i] == files[i][|base|..]
    decreases |files|
  {
    if files == [] then Ok([])
    else
      var last := files[|files| - 1];
      match RelPaths(files[..|files| - 1], base)
      case Err(e) => Err(e)
      case Ok(rels) =>
        if !IsWithin(last, base) then Err(ValueError("is not in the subpath"))
        else Ok(rels + [last[|base|..]])
  }

  /** The relative paths of well-formed files are well-formed. */
  lemma RelPathsWellFormed(files: seq<Path>, base: Path)
    requires forall i :: 0 <= i < |files| ==> WellFormed(files[i])
    requires RelPaths(files, base).Ok?
    ensures forall i :: 0 <= i < |files| ==> WellFormed(RelPaths(files, base).value[i])
  {
    forall i | 0 <= i < |files|
      ensures WellFormed(RelPaths(files, base).value[i])
    {
      RelativeWellFormed(files[i], base);
    }
  }

  /** `str(p)` for each path. */
  function Names(rels: seq<Path>): (r: seq<string>)
    requires forall i :: 0 <= i < |rels| ==> WellFormed(rels[i])
    ensures |r| == |rels| && forall i :: 0 <= i < |rels| ==> r[i] == ToStr(rels[i])
  {
    seq(|rels|, i requires 0 <= i < |rels| => ToStr(rels[i]))
  }

  /** `[str(f.relative_to(build_dir)) for f in files]`. */
  function RelNames(files: seq<Path>, base: Path): (r: Result<seq<string>>)
    requires forall i :: 0 <= i < |files| ==> WellFormed(files[i])
    ensures r.Ok? <==> forall i :: 0 <= i < |files| ==> IsWithin(files[i], base)
    ensures r.Ok? ==> |r.value| == |files|
    ensures r.Ok? ==> forall i :: 0 <= i < |files| ==> IsWithin(files[i], base) && r.value[i] == RelStr(files[i], base)
  {
    match RelPaths(files, base)
    case Err(e) => Err(e)
    case Ok(rels) =>
      RelPathsWellFormed(files, base);
      Ok(Names(rels))
  }

  /** The string of a path below `base`, relative to it. */
  function RelStr(f: Path, base: Path): string
    requires WellFormed(f) && IsWithin(f, base)
  {
    RelativeWellFormed(f, base);
    ToStr(f[|base|..])
  }

  /** A relative name, resolved against the build directory as quarto does, is its file again. */
  lemma RelStrResolves(f: Path, base: Path, cwd: Path)
    requires Normal(f) && Normal(base) && Normal(cwd) && IsWithin(f, base)
    ensures ResolvePath(Parse(RelStr(f, base)), Some(base), cwd) == f
  {
    var rel := f[|base|..];
    RelativeWellFormed(f, base);
    ParseToStr(rel);
    assert base + rel == f;
    if rel != [] {
      assert rel[0] == f[|base|];
    }
    ResolveNormal(f, cwd);
  }

  /** The strings as YAML strings. */
  function Strs(names: seq<string>): (r: seq<Yaml>)
    ensures |r| == |names| && forall i :: 0 <= i < |names| ==> r[i] == YStr(names[i])
  {
    seq(|names|, i requires 0 <= i < |names| => YStr(names[i]))
  }

  // ---------------------------------------------------------------------
  // The edits of `base_pre_renderer2.py`

  /**
   * The `project` step: the section is created when absent (it must be a
   * mapping, or `.get` raises), its type is set, and `render` is set to the
   * files to render when it is absent and there are some. `files` is only
   * asked for when `render` is absent, so only then does its error count.
   */
  function ProjectStep(params: map<string, Yaml>, pt: string, files: Result<Option<seq<string>>>): (r: Result<map<string, Yaml>>)
    ensures var pv := if "project" in params then params["project"] else YMap(map[]);
      && (r.Ok? <==> pv.YMap? && ("render" in pv.entries || files.Ok?))
      && (r.Ok? ==>
        && r.value.Keys == params.Keys + {"project"}
        && (forall k :: k in params && k != "project" ==> r.value[k] == params[k])
        && r.value["project"].YMap?
        && var proj := r.value["project"].entries;
        && "type" in proj && proj["type"] == YStr(pt)
        && (forall k :: k in pv.entries && k != "type" ==> k in proj)
        && (forall k :: k in proj && k != "type" && k != "render" ==> k in pv.entries && proj[k] == pv.entries[k])
        && ("render" in pv.entries ==> proj["render"] == pv.entries["render"])
        && ("render" !in pv.entries && files.value.Some? ==> "render" in proj && proj["render"] == YList(Strs(files.value.value)))
        && ("render" !in pv.entries && files.value.None? ==> "render" !in proj))
  {
    var pv := if "project" in params then params["project"] else YMap(map[]);
    if !pv.YMap? then Err(AttributeError("object has no attribute 'get'"))
    else
      var proj := pv.entries["type" := YStr(pt)];
      if "render" in pv.entries then Ok(params["project" := YMap(proj)])
      else
        match files
        case Err(e) => Err(e)
        case Ok(None) => Ok(params["project" := YMap(proj)])
        case Ok(Some(names)) => Ok(params["project" := YMap(proj["render" := YList(Strs(names))])])
  }

  /** `"docgen-" + fmt`: the format key the docgen extension answers to. */
  function FormatKey(f: string): string {
    "docgen-" + f
  }

  function FormatKeys(formats: seq<string>): set<string> {
    set f | f in formats :: FormatKey(f)
  }

  /** The `format` mapping once every format's key maps to "default". */
  function WithFormatKeys(m: map<string, Yaml>, formats: seq<string>): map<string, Yaml>
    decreases |formats|
  {
    if formats == [] then m
    else WithFormatKeys(m, formats[..|formats| - 1])[FormatKey(formats[|formats| - 1]) := YStr("default")]
  }

  /** Every format gets its key, set to "default"; the other entries stay; nothing else is added. */
  lemma {:induction false} FormatKeysSet(m: map<string, Yaml>, formats: seq<string>)
    ensures WithFormatKeys(m, formats).Keys == m.Keys + FormatKeys(formats)
    ensures forall f :: f in formats ==> WithFormatKeys(m, formats)[FormatKey(f)] == YStr("default")
    ensures forall k :: k in m && k !in FormatKeys(formats) ==> WithFormatKeys(m, formats)[k] == m[k]
    decreases |formats|
  {
    if formats != [] {
      var init, f := formats[..|formats| - 1], formats[|formats| - 1];
      assert formats == init + [f];
      assert FormatKeys(formats) == FormatKeys(init) + {FormatKey(f)};
      FormatKeysSet(m, init);
    }
  }

  /** The `format` step: a missing section becomes an empty mapping; only a mapping receives the keys. */
  function FormatStep(params: map<string, Yaml>, formats: seq<string>): (r: map<string, Yaml>)
    ensures r.Keys == params.Keys + {"format"}
    ensures forall k :: k in params && k != "format" ==> r[k] == params[k]
    ensures "format" in params && !params["format"].YMap? ==> r["format"] == params["format"]
    ensures "format" !in params ==> r["format"] == YMap(WithFormatKeys(map[], formats))
    ensures "format" in params && params["format"].YMap? ==> r["format"] == YMap(WithFormatKeys(params["format"].entries, formats))
  {
    var fv := if "format" in params then params["format"] else YMap(map[]);
    if fv.YMap? then params["format" := YMap(WithFormatKeys(fv.entries, formats))] else params
  }

  /** The loop over the formats: each one's key maps to "default". */
  method AddFormatKeys(m: map<string, Yaml>, formats: seq<string>) returns (fm: map<string, Yaml>)
    ensures fm == WithFormatKeys(m, formats)
  {
    fm := m;
    for i := 0 to |formats|
      invariant fm == WithFormatKeys(m, formats[..i])
    {
      assert formats[..i + 1][..i] == formats[..i];
      fm := fm[FormatKey(formats[i]) := YStr("default")];
    }
    assert formats[..|formats|] == formats;
  }

  /** Where `"docgen"` goes: the index of the first `"quarto"` filter, else 0. */
  function InsertAt(items: seq<Yaml>): (r: nat)
    ensures r <= |items|
    ensures YStr("quarto") in items ==> r < |items| && items[r] == YStr("quarto") && YStr("quarto") !in items[..r]
    ensures YStr("quarto") !in items ==> r == 0
  {
    if items == [] then 0
    else if items[0] == YStr("quarto") then 0
    else if YStr("quarto") in items[1..] then 1 + InsertAt(items[1..])
    else 0
  }

  /** `filters.insert(pos, "docgen")`. */
  function WithDocgen(items: seq<Yaml>): (r: seq<Yaml>) {
    items[..InsertAt(items)] + [YStr("docgen")] + items[InsertAt(items)..]
  }

  /**
   * "docgen" comes right before the first "quarto" filter, or first; the
   * other filters keep their order; and a second insertion adds a second
   * "docgen", so the edit is not idempotent.
   */
  lemma DocgenPlaced(items: seq<Yaml>)
    ensures var r, p := WithDocgen(items), InsertAt(items);
      && |r| == |items| + 1 && r[p] == YStr("docgen")
      && r[..p] + r[p + 1..] == items
      && (YStr("quarto") in items ==> r[p + 1] == YStr("quarto") && YStr("quarto") !in r[..p])
      && multiset(r)[YStr("docgen")] == multiset(items)[YStr("docgen")] + 1
  {
    var r, p := WithDocgen(items), InsertAt(items);
    assert r[..p] == items[..p];
    assert r[p + 1..] == items[p..];
    assert items[..p] + items[p..] == items;
    assert r == items[..p] + ([YStr("docgen")] + items[p..]);
  }

  /** The `filters` step: a missing list is created; anything but a list fails on `in`, `.index` or `.insert`. */
  function FiltersStep(params: map<string, Yaml>): (r: Result<map<string, Yaml>>)
    ensures var fl := if "filters" in params then params["filters"] else YList([]);
      && (r.Ok? <==> fl.YList?)
      && (r.Ok? ==> r.value == params["filters" := YList(WithDocgen(fl.items))])
  {
    var fl := if "filters" in params then params["filters"] else YList([]);
    match fl
    case YList(items) => Ok(params["filters" := YList(WithDocgen(items))])
    case YStr(_) => Err(AttributeError("object has no attribute 'insert'"))
    case YMap(_) => Err(AttributeError("object has no attribute 'insert'"))
    case _ => Err(TypeError("argument is not iterable"))
  }

  /** `BasePreRenderer2.prepare_quarto_yml_content` on a copy of the base content. */
  function BasePrepared(base: map<string, Yaml>, pt: string, files: Result<Option<seq<string>>>, formats: seq<string>): Result<map<string, Yaml>> {
    match ProjectStep(base, pt, files)
    case Err(e) => Err(e)
    case Ok(p) => FiltersStep(FormatStep(p, formats))
  }

  /**
   * What the base edits leave: the keys of the base content other than
   * `project`, `format` and `filters` keep their values, and only those
   * three are added; `project.type` is the renderer's type.
   */
  lemma BasePreparedKeeps(base: map<string, Yaml>, pt: string, files: Result<Option<seq<string>>>, formats: seq<string>)
    requires BasePrepared(base, pt, files, formats).Ok?
    ensures var r := BasePrepared(base, pt, files, formats).value;
      && r.Keys == base.Keys + {"project", "format", "filters"}
      && (forall k :: k in base && k !in {"project", "format", "filters"} ==> r[k] == base[k])
      && r["project"].YMap? && "type" in r["project"].entries && r["project"].entries["type"] == YStr(pt)
  {
  }

  // ---------------------------------------------------------------------
  // The type-specific edits

  /** The chapter list: the index name first unless it is already listed, where it then stays. */
  function Chapters(names: seq<string>, index: string): (r: seq<string>)
    ensures index in r
    ensures forall x :: x in r <==> x in names || x == index
    ensures index in names ==> r == names
    ensures index !in names ==> r[0] == index && r[1..] == names
  {
    if index in names then names else [index] + names
  }

  /** The placeholder text of a book index the build directory lacks. */
  const IndexText: string := "<!--Book Index Obligatoire.-->"

  /** The suffixes tried for the book index, in order. */
  const IndexSuffixes: seq<string> := [".md", ".qmd"]

  /** The book's own section. */
  function BookSection(chapters: seq<string>): Yaml {
    YMap(map["title" := YStr("Book Title"), "chapters" := YList(Strs(chapters))])
  }

  /** One navbar entry of a website: the page's path relative to the build directory, and its stem. */
  function PageOf(rel: Path): Yaml
    requires WellFormed(rel)
  {
    YMap(map["href" := YStr(ToStr(rel)), "text" := YStr(Stem(rel))])
  }

  /** The navbar entries, one per relative path, in order. */
  function PagesOf(rels: seq<Path>): (r: seq<Yaml>)
    requires forall i :: 0 <= i < |rels| ==> WellFormed(rels[i])
    ensures |r| == |rels| && forall i :: 0 <= i < |rels| ==> r[i] == PageOf(rels[i])
  {
    seq(|rels|, i requires 0 <= i < |rels| => PageOf(rels[i]))
  }

  /** The website's own section. */
  function WebsiteSection(pages: seq<Yaml>): Yaml {
    YMap(map["title" := YStr("Website Title"), "navbar" := YMap(map["right" := YList(pages)])])
  }

  // ---------------------------------------------------------------------
  // The renderer objects

  class TypeRenderer {
    const parent: Renderer.Renderer
    const kind: Kind
    /** `output_dir`: where the rendered result is mirrored to. */
    const outputDir: Path
    /** `_internal_output_dir`: where quarto renders, inside the build directory. */
    const internalOutputDir: Path
    var formats: seq<string>

    ghost predicate Valid()
      reads this, parent
    {
      parent.Valid() && Placed()
    }

    /** The directories fixed at construction: both normal, the internal one inside the build directory. */
    predicate Placed() {
      && Normal(outputDir)
      && internalOutputDir == parent.buildDir + [SubOutputDir(kind)]
      && Normal(internalOutputDir)
    }

    /**
     * `from_type(parent, type, formats)` followed by `__post_init__`: the
     * output directories are fixed, and the classes that pre-render
     * validate their formats.
     */
    constructor (parent: Renderer.Renderer, kind: Kind, formats: seq<string>)
      requires parent.Valid() && parent.outputDir.Some?
      ensures Valid()
      ensures this.parent == parent && this.kind == kind
      ensures outputDir == BuildOutputDir(parent.outputDir.value, parent.autoOutputDir, kind)
      ensures internalOutputDir == parent.buildDir + [SubOutputDir(kind)]
      ensures this.formats == (if PreRenders(kind) then ValidateFormats(kind, formats) else [])
    {
      this.parent := parent;
      this.kind := kind;
      outputDir := BuildOutputDir(parent.outputDir.value, parent.autoOutputDir, kind);
      Renderer.ChildNormal(parent.buildDir, SubOutputDir(kind));
      internalOutputDir := parent.buildDir + [SubOutputDir(kind)];
      this.formats := if PreRenders(kind) then ValidateFormats(kind, formats) else [];
    }

    /**
     * `make_quarto_render_cmd_args`: `render --output-dir <sub-directory>`,
     * then the log arguments; the user renderer adds the `--to` arguments.
     */
    method CmdArgs() returns (args: seq<string>)
      requires Valid()
      ensures |args| >= 3 && args[..3] == ["render", "--output-dir", SubOutputDir(kind)]
      ensures args[3..] == Renderer.LogArgs(parent.quartoRenderArgs, Renderer.LogFlags)
        + (if kind == User && !parent.autoFormats then Renderer.ToArgs(parent.formats) else [])
    {
      var rel := RelativeTo(internalOutputDir, parent.buildDir).value;
      assert rel == [SubOutputDir(kind)];
      var head := ["render", "--output-dir", ToStr(rel)];
      var rest := parent.QuartoLogCmd();
      if kind == User {
        var vanilla := parent.QuartoVanillaCmd();
        rest := rest + vanilla;
      }
      args := head + rest;
      assert args[..3] == head && args[3..] == rest;
    }

    /** The mirror call of `mirror_output`. */
    function OutputCall(now: int, faults: set<Path>): (c: Mirror.Call)
      reads this, parent
      requires Valid()
      ensures Mirror.CallValid(c)
    {
      Mirror.Call(internalOutputDir, outputDir, RmOrphans(parent.quartoRenderArgs, parent.sourceDir, outputDir), [], [], faults, now)
    }

    /** `mirror_output`: the internal output directory is mirrored to the output directory. */
    method MirrorOutput(fs: FS, now: int, faults: set<Path>) returns (fs': FS, raised: Option<Error>)
      requires Valid() && FileSystem.Valid(fs)
      ensures Outcome(fs', raised) == Mirror.MirrorSpec(fs, OutputCall(now, faults))
    {
      var progress;
      fs', raised, progress := Mirror.Run(fs, OutputCall(now, faults));
    }

    /** The loop that makes every not-included file relative to the build directory. */
    method RelativePaths() returns (r: Result<seq<Path>>)
      requires Valid()
      ensures r == RelPaths(parent.notIncludedFiles, parent.buildDir)
    {
      var files := parent.notIncludedFiles;
      var rels: seq<Path> := [];
      for i := 0 to |files|
        invariant RelPaths(files[..i], parent.buildDir) == Ok(rels)
      {
        assert files[..i + 1][..i] == files[..i];
        var rel := RelativeTo(files[i], parent.buildDir);
        if rel.Err? {
          RelPathsStop(files, parent.buildDir, i + 1);
          return Err(rel.error);
        }
        rels := rels + [rel.value];
      }
      assert files[..|files|] == files;
      return Ok(rels);
    }

    /** `get_files_to_render`: the default renderer lists the not-included files; the others give None. */
    function FilesToRender(): Result<Option<seq<string>>>
      reads this, parent
      requires Valid()
    {
      if kind != DefaultType then Ok(None)
      else
        match RelNames(parent.notIncludedFiles, parent.buildDir)
        case Err(e) => Err(e)
        case Ok(names) => Ok(Some(names))
    }

    method GetFilesToRender() returns (r: Result<Option<seq<string>>>)
      requires Valid()
      ensures r == FilesToRender()
    {
      if kind != DefaultType {
        return Ok(None);
      }
      var rels := RelativePaths();
      if rels.Err? {
        return Err(rels.error);
      }
      RelPathsWellFormed(parent.notIncludedFiles, parent.buildDir);
      return Ok(Some(Names(rels.value)));
    }

    /** The `project` edits of `BasePreRenderer2.prepare_quarto_yml_content`. */
    method ProjectPrepare(base: map<string, Yaml>) returns (r: Result<map<string, Yaml>>)
      requires Valid()
      ensures r == ProjectStep(base, ProjectType(kind), FilesToRender())
    {
      var pv := if "project" in base then base["project"] else YMap(map[]);
      if !pv.YMap? {
        return Err(AttributeError("object has no attribute 'get'"));
      }
      var proj := pv.entries["type" := YStr(ProjectType(kind))];
      if "render" !in pv.entries {
        var toRender := GetFilesToRender();
        if toRender.Err? {
          return Err(toRender.error);
        }
        if toRender.value.Some? {
          proj := proj["render" := YList(Strs(toRender.value.value))];
        }
      }
      return Ok(base["project" := YMap(proj)]);
    }

    /** `BasePreRenderer2.prepare_quarto_yml_content` on a copy of the base content: project, formats, filters. */
    method BasePrepare(base: map<string, Yaml>) returns (r: Result<map<string, Yaml>>)
      requires Valid()
      ensures r == BasePrepared(base, ProjectType(kind), FilesToRender(), formats)
    {
      var project := ProjectPrepare(base);
      if project.Err? {
        return Err(project.error);
      }
      var params := project.value;
      var fv := if "format" in params then params["format"] else YMap(map[]);
      if fv.YMap? {
        var fm := AddFormatKeys(fv.entries, formats);
        params := params["format" := YMap(fm)];
      }
      r := FiltersStep(params);
    }

    /** The index the book uses: `index.md`, else `index.qmd`, either existing; None when neither exists. */
    function ExistingIndex(fs: FS): (r: Option<string>)
      reads this, parent
    {
      if Exists(fs, parent.buildDir + ["index.md"]) then Some("index.md")
      else if Exists(fs, parent.buildDir + ["index.qmd"]) then Some("index.qmd")
      else None
    }

    /** The book edits after the base ones: the index is found or written, then the book section is added when absent. */
    function BookPrepared(params: map<string, Yaml>, fs: FS, now: int, faults: set<Path>): (r: (Result<map<string, Yaml>>, FS))
      reads this, parent
      requires Valid() && FileSystem.Valid(fs)
      ensures FileSystem.Valid(r.1)
    {
      Renderer.ChildNormal(parent.buildDir, "index.qmd");
      var index := ExistingIndex(fs);
      var w := if index.None? then WriteText(fs, parent.buildDir + ["index.qmd"], IndexText, now, faults) else Outcome(fs, None);
      if w.raised.Some? then (Err(w.raised.value), w.fs)
      else if "book" in params then (Ok(params), w.fs)
      else
        match RelNames(parent.notIncludedFiles, parent.buildDir)
        case Err(e) => (Err(e), w.fs)
        case Ok(names) =>
          var name := if index.Some? then index.value else "index.qmd";
          (Ok(params["book" := BookSection(Chapters(names, name))]), w.fs)
    }

    /** The index loop: `index.md`, then `index.qmd`, the first that exists; `index.qmd` when neither does. */
    method FindIndex(fs: FS) returns (found: bool, index: Path)
      requires Valid()
      ensures found <==> ExistingIndex(fs).Some?
      ensures found ==> index == parent.buildDir + [ExistingIndex(fs).value]
      ensures !found ==> index == parent.buildDir + ["index.qmd"]
    {
      assert IndexSuffixes == [".md", ".qmd"];
      assert "index" + ".md" == "index.md" && "index" + ".qmd" == "index.qmd";
      found := false;
      index := parent.buildDir + ["index.qmd"];
      for i := 0 to |IndexSuffixes|
        invariant !found && index == parent.buildDir + ["index.qmd"]
        invariant forall k :: 0 <= k < i ==> !Exists(fs, parent.buildDir + ["index" + IndexSuffixes[k]])
      {
        var candidate := parent.buildDir + ["index" + IndexSuffixes[i]];
        if Exists(fs, candidate) {
          assert ExistingIndex(fs) == Some("index" + IndexSuffixes[i]);
          found := true;
          index := candidate;
          break;
        }
      }
      if !found {
        assert !Exists(fs, parent.buildDir + ["index" + IndexSuffixes[0]]);
        assert !Exists(fs, parent.buildDir + ["index" + IndexSuffixes[1]]);
      }
    }

    /** `BookRenderer.prepare_quarto_yml_content`, after the base edits. */
    method BookPrepare(params: map<string, Yaml>, fs: FS, now: int, faults: set<Path>) returns (r: Result<map<string, Yaml>>, fs': FS)
      requires Valid() && FileSystem.Valid(fs)
      ensures (r, fs') == BookPrepared(params, fs, now, faults)
    {
      Renderer.ChildNormal(parent.buildDir, "index.qmd");
      var found, index := FindIndex(fs);
      fs' := fs;
      if !found {
        var w := WriteText(fs, index, IndexText, now, faults);
        fs' := w.fs;
        if w.raised.Some? {
          return Err(w.raised.value), fs';
        }
      }
      if "book" in params {
        return Ok(params), fs';
      }
      var rels := RelativePaths();
      if rels.Err? {
        return Err(rels.error), fs';
      }
      var name := Name(index);
      assert name == if found then ExistingIndex(fs).value else "index.qmd";
      RelPathsWellFormed(parent.notIncludedFiles, parent.buildDir);
      return Ok(params["book" := BookSection(Chapters(Names(rels.value), name))]), fs';
    }

    /** The website edits after the base ones: the website section is added when absent. */
    function WebsitePrepared(params: map<string, Yaml>): Result<map<string, Yaml>>
      reads this, parent
      requires Valid()
    {
      if "website" in params then Ok(params)
      else
        match RelPaths(parent.notIncludedFiles, parent.buildDir)
        case Err(e) => Err(e)
        case Ok(rels) =>
          RelPathsWellFormed(parent.notIncludedFiles, parent.buildDir);
          Ok(params["website" := WebsiteSection(PagesOf(rels))])
    }

    /** `WebsiteRenderer.prepare_quarto_yml_content`, after the base edits: one navbar entry per not-included file. */
    method WebsitePrepare(params: map<string, Yaml>) returns (r: Result<map<string, Yaml>>)
      requires Valid()
      ensures r == WebsitePrepared(params)
    {
      if "website" in params {
        return Ok(params);
      }
      var rels := RelativePaths();
      if rels.Err? {
        return Err(rels.error);
      }
      RelPathsWellFormed(parent.notIncludedFiles, parent.buildDir);
      return Ok(params["website" := WebsiteSection(PagesOf(rels.value))]);
    }

    /** `prepare_quarto_yml_content` of the renderer's class. */
    function Prepared(base: map<string, Yaml>, fs: FS, now: int, faults: set<Path>): (r: (Result<map<string, Yaml>>, FS))
      reads this, parent
      requires Valid() && FileSystem.Valid(fs)
      ensures FileSystem.Valid(r.1)
    {
      if kind == User then (Ok(base), fs)
      else
        match BasePrepared(base, ProjectType(kind), FilesToRender(), formats)
        case Err(e) => (Err(e), fs)
        case Ok(params) =>
          if kind == Book then BookPrepared(params, fs, now, faults)
          else if kind == Website then (WebsitePrepared(params), fs)
          else (Ok(params), fs)
    }

    method Prepare(base: map<string, Yaml>, fs: FS, now: int, faults: set<Path>) returns (r: Result<map<string, Yaml>>, fs': FS)
      requires Valid() && FileSystem.Valid(fs)
      ensures (r, fs') == Prepared(base, fs, now, faults)
    {
      if kind == User {
        return Ok(base), fs;
      }
      var params := BasePrepare(base);
      if params.Err? {
        return Err(params.error), fs;
      }
      if kind == Book {
        r, fs' := BookPrepare(params.value, fs, now, faults);
      } else if kind == Website {
        r := WebsitePrepare(params.value);
        fs' := fs;
      } else {
        r, fs' := params, fs;
      }
    }

    /**
     * The rest of `render` once the content is edited: it is written as the
     * build directory's `_quarto.yml` (`dump` stands for the YAML writer),
     * quarto runs with the command arguments (`returnCode` is its exit
     * status), the output is mirrored only when quarto succeeded, and the
     * output directory is marked against mirroring in either case.
     */
    function Published(params: map<string, Yaml>, dump: map<string, Yaml> -> string, returnCode: int, fs: FS, now: int, faults: set<Path>): (r: Outcome)
      reads this, parent
      requires Valid() && FileSystem.Valid(fs) && parent.outputDir.Some?
      ensures FileSystem.Valid(r.fs)
    {
      Renderer.ChildNormal(parent.buildDir, "_quarto.yml");
      var w := WriteText(fs, parent.buildDir + ["_quarto.yml"], dump(params), now, faults);
      if w.raised.Some? then w
      else
        var m := if returnCode == 0 then Mirror.MirrorSpec(w.fs, OutputCall(now, faults)) else Outcome(w.fs, None);
        if m.raised.Some? then m
        else Renderer.PreventOutputMirror(m.fs, parent.outputDir.value, now, faults)
    }

    method Publish(params: map<string, Yaml>, dump: map<string, Yaml> -> string, returnCode: int, fs: FS, now: int, faults: set<Path>)
      returns (fs': FS, raised: Option<Error>, cmd: seq<string>)
      requires Valid() && FileSystem.Valid(fs) && parent.outputDir.Some?
      ensures Outcome(fs', raised) == Published(params, dump, returnCode, fs, now, faults)
      ensures raised.None? ==> |cmd| >= 3 && cmd[..3] == ["render", "--output-dir", SubOutputDir(kind)]
      ensures raised.None? ==>
        cmd[3..] == Renderer.LogArgs(parent.quartoRenderArgs, Renderer.LogFlags)
                    + (if kind == User && !parent.autoFormats then Renderer.ToArgs(parent.formats) else [])
    {
      cmd := [];
      Renderer.ChildNormal(parent.buildDir, "_quarto.yml");
      var w := WriteText(fs, parent.buildDir + ["_quarto.yml"], dump(params), now, faults);
      fs' := w.fs;
      if w.raised.Some? {
        return fs', w.raised, cmd;
      }
      cmd := CmdArgs();
      if returnCode == 0 {
        fs', raised := MirrorOutput(fs', now, faults);
        if raised.Some? {
          return;
        }
      }
      var p := Renderer.PreventOutputMirror(fs', parent.outputDir.value, now, faults);
      fs', raised := p.fs, p.raised;
    }

    /** `render`: the content is edited, then published; any exception ends it. */
    function Rendered(base: map<string, Yaml>, dump: map<string, Yaml> -> string, returnCode: int, fs: FS, now: int, faults: set<Path>): (r: Outcome)
      reads this, parent
      requires Valid() && FileSystem.Valid(fs) && parent.outputDir.Some?
      ensures FileSystem.Valid(r.fs)
    {
      var prepared := Prepared(base, fs, now, faults);
      if prepared.0.Err? then Outcome(prepared.1, Some(prepared.0.error))
      else Published(prepared.0.value, dump, returnCode, prepared.1, now, faults)
    }

    method Render(base: map<string, Yaml>, dump: map<string, Yaml> -> string, returnCode: int, fs: FS, now: int, faults: set<Path>)
      returns (fs': FS, raised: Option<Error>, cmd: seq<string>)
      requires Valid() && FileSystem.Valid(fs) && parent.outputDir.Some?
      ensures Outcome(fs', raised) == Rendered(base, dump, returnCode, fs, now, faults)
      ensures raised.None? ==> |cmd| >= 3 && cmd[..3] == ["render", "--output-dir", SubOutputDir(kind)]
      ensures raised.None? ==>
        cmd[3..] == Renderer.LogArgs(parent.quartoRenderArgs, Renderer.LogFlags)
                    + (if kind == User && !parent.autoFormats then Renderer.ToArgs(parent.formats) else [])
    {
      var params, prepared := Prepare(base, fs, now, faults);
      if params.Err? {
        return prepared, Some(params.error), [];
      }
      fs', raised, cmd := Publish(params.value, dump, returnCode, prepared, now, faults);
      assert Prepared(base, fs, now, faults) == (params, prepared);
    }
  }

  /** Once a file has raised, the later files are never reached. */
  lemma {:induction false} RelPathsStop(files: seq<Path>, base: Path, j: nat)
    requires forall i :: 0 <= i < |files| ==> WellFormed(files[i])
    requires j <= |files| && RelPaths(files[..j], base).Err?
    ensures RelPaths(files, base) == RelPaths(files[..j], base)
    decreases |files| - j
  {
    if j < |files| {
      var init := files[..|files| - 1];
      assert init[..j] == files[..j];
      RelPathsStop(init, base, j);
    } else {
      assert files[..j] == files;
    }
  }

  /** `TypeRenderer.from_type(self, pt, self.formats).render()` for a known type: `tr` is the renderer. */
  method RenderKind(parent: Renderer.Renderer, kind: Kind, base: map<string, Yaml>, dump: map<string, Yaml> -> string,
                    returnCode: int, fs: FS, now: int, faults: set<Path>)
    returns (fs': FS, raised: Option<Error>, tr: TypeRenderer)
    requires parent.Valid() && parent.outputDir.Some? && FileSystem.Valid(fs)
    ensures fresh(tr) && tr.Valid() && tr.parent == parent && tr.kind == kind
    ensures tr.formats == (if PreRenders(kind) then ValidateFormats(kind, parent.formats) else [])
    ensures Outcome(fs', raised) == tr.Rendered(base, dump, returnCode, fs, now, faults)
  {
    tr := new TypeRenderer(parent, kind, parent.formats);
    var cmd;
    fs', raised, cmd := tr.Render(base, dump, returnCode, fs, now, faults);
  }

  /**
   * The renderers `tried` render in turn, each on the tree the one before it
   * left, until one raises: the first exception ends the sequence.
   * `returnCodes[i]` is quarto's exit status for the i-th renderer.
   */
  ghost function Sequenced(parent: Renderer.Renderer, tried: seq<TypeRenderer>, base: map<string, Yaml>, dump: map<string, Yaml> -> string,
                           returnCodes: seq<int>, fs: FS, now: int, faults: set<Path>): (r: Outcome)
    reads parent, tried
    requires parent.Valid() && parent.outputDir.Some? && FileSystem.Valid(fs) && |tried| <= |returnCodes|
    requires Parented(parent, tried)
    ensures FileSystem.Valid(r.fs)
    ensures tried == [] ==> r == Outcome(fs, None)
    decreases |tried|
  {
    if tried == [] then Outcome(fs, None)
    else
      var n := |tried| - 1;
      var o := Sequenced(parent, tried[..n], base, dump, returnCodes, fs, now, faults);
      if o.raised.Some? then o else tried[n].Rendered(base, dump, returnCodes[n], o.fs, now, faults)
  }

  /** One more renderer after a sequence that raised nothing renders the tree the sequence left. */
  lemma SequencedStep(parent: Renderer.Renderer, tried: seq<TypeRenderer>, tr: TypeRenderer, base: map<string, Yaml>, dump: map<string, Yaml> -> string,
                      returnCodes: seq<int>, start: FS, mid: FS, now: int, faults: set<Path>)
    requires parent.Valid() && parent.outputDir.Some? && FileSystem.Valid(start) && |tried| < |returnCodes|
    requires Parented(parent, tried) && Parented(parent, tried + [tr])
    requires Sequenced(parent, tried, base, dump, returnCodes, start, now, faults) == Outcome(mid, None)
    ensures FileSystem.Valid(mid)
    ensures Sequenced(parent, tried + [tr], base, dump, returnCodes, start, now, faults) == tr.Rendered(base, dump, returnCodes[|tried|], mid, now, faults)
  {
    assert (tried + [tr])[..|tried|] == tried;
  }

  /** `tried` are renderers of `parent`, one for each of the first types, in order. */
  predicate MadeFor(parent: Renderer.Renderer, types: seq<string>, tried: seq<TypeRenderer>) {
    && |tried| <= |types| && Parented(parent, tried)
    && forall i :: 0 <= i < |tried| ==> ProjectType(tried[i].kind) == types[i]
  }

  /** Every renderer of `tried` belongs to `parent` and has its directories placed. */
  predicate Parented(parent: Renderer.Renderer, tried: seq<TypeRenderer>) {
    forall i :: 0 <= i < |tried| ==> tried[i].parent == parent && tried[i].Placed()
  }

  lemma MadeForStep(parent: Renderer.Renderer, types: seq<string>, tried: seq<TypeRenderer>, tr: TypeRenderer)
    requires MadeFor(parent, types, tried) && |tried| < |types|
    requires tr.parent == parent && tr.Placed() && ProjectType(tr.kind) == types[|tried|]
    ensures MadeFor(parent, types, tried + [tr])
  {
    assert forall i :: 0 <= i < |tried| ==> (tried + [tr])[i] == tried[i];
  }

  /**
   * The project-type loop of `Renderer.render`: the output directory is
   * created, then each type is rendered in turn.
   */
  method RenderTypes(parent: Renderer.Renderer, types: seq<string>, base: map<string, Yaml>, dump: map<string, Yaml> -> string,
                     returnCodes: seq<int>, fs: FS, now: int, faults: set<Path>)
    returns (fs': FS, raised: Option<Error>, kinds: seq<Kind>, ghost tried: seq<TypeRenderer>)
    requires parent.Valid() && parent.outputDir.Some? && FileSystem.Valid(fs) && |returnCodes| == |types|
    ensures FileSystem.Valid(fs') && |kinds| <= |types|
    ensures Mkdirs(fs, parent.outputDir.value, faults, now).raised.Some? ==>
      fs' == Mkdirs(fs, parent.outputDir.value, faults, now).fs && raised == Mkdirs(fs, parent.outputDir.value, faults, now).raised && kinds == [] && tried == []
    ensures Mkdirs(fs, parent.outputDir.value, faults, now).raised.None? ==>
      RenderedEach(parent, types, base, dump, returnCodes, Mkdirs(fs, parent.outputDir.value, faults, now).fs, now, faults, fs', raised, kinds, tried)
  {
    var made := Mkdirs(fs, parent.outputDir.value, faults, now);
    if made.raised.Some? {
      return made.fs, made.raised, [], [];
    }
    fs', raised, kinds, tried := RenderEach(parent, types, base, dump, returnCodes, made.fs, now, faults);
  }

  /**
   * Each type rendered in turn from the tree `start`: an unknown type raises
   * `ValueError` when the loop reaches it. `kinds` are the renderers that
   * finished without an exception, and `tried` the renderers made, in order,
   * the last of them the one that raised, if one did.
   */
  ghost predicate RenderedEach(parent: Renderer.Renderer, types: seq<string>, base: map<string, Yaml>, dump: map<string, Yaml> -> string,
                               returnCodes: seq<int>, start: FS, now: int, faults: set<Path>,
                               fs': FS, raised: Option<Error>, kinds: seq<Kind>, tried: seq<TypeRenderer>)
    reads parent, tried
    requires parent.Valid() && parent.outputDir.Some? && FileSystem.Valid(start) && |returnCodes| == |types|
  {
    && FileSystem.Valid(fs') && |kinds| <= |types|
    && (raised.None? ==> |kinds| == |types|)
    && (|kinds| < |types| ==> raised.Some?)
    && (forall i :: 0 <= i < |kinds| ==> ProjectType(kinds[i]) == types[i])
    && MadeFor(parent, types, tried) && |kinds| <= |tried| <= |kinds| + 1
    && var o := Sequenced(parent, tried, base, dump, returnCodes, start, now, faults);
      && fs' == o.fs
      && (o.raised.Some? ==> raised == o.raised && |tried| == |kinds| + 1)
      && (o.raised.None? ==> |tried| == |kinds| && (raised.Some? ==> |kinds| < |types| && FromType(types[|kinds|]).Err? && raised == Some(FromType(types[|kinds|]).error)))
  }

  /** The loop over the types once the output directory exists. */
  method RenderEach(parent: Renderer.Renderer, types: seq<string>, base: map<string, Yaml>, dump: map<string, Yaml> -> string,
                    returnCodes: seq<int>, start: FS, now: int, faults: set<Path>)
    returns (fs': FS, raised: Option<Error>, kinds: seq<Kind>, ghost tried: seq<TypeRenderer>)
    requires parent.Valid() && parent.outputDir.Some? && FileSystem.Valid(start) && |returnCodes| == |types|
    ensures RenderedEach(parent, types, base, dump, returnCodes, start, now, faults, fs', raised, kinds, tried)
  {
    fs', raised, kinds, tried := start, None, [], [];
    while |kinds| < |types|
      invariant FileSystem.Valid(fs') && |kinds| <= |types| && raised.None?
      invariant forall i :: 0 <= i < |kinds| ==> ProjectType(kinds[i]) == types[i]
      invariant |tried| == |kinds| && MadeFor(parent, types, tried)
      invariant Sequenced(parent, tried, base, dump, returnCodes, start, now, faults) == Outcome(fs', None)
    {
      var kind := FromType(types[|kinds|]);
      if kind.Err? {
        return fs', Some(kind.error), kinds, tried;
      }
      var tr;
      fs', raised, tr := RenderNext(parent, kind.value, base, dump, returnCodes, start, now, faults, tried, |kinds|, fs');
      MadeForStep(parent, types, tried, tr);
      tried := tried + [tr];
      if raised.Some? {
        return;
      }
      Matched(kinds, kind.value, types);
      kinds := kinds + [kind.value];
    }
  }

  /** The body of the project-type loop for a known type: its renderer is made and renders the tree the ones before it left. */
  method RenderNext(parent: Renderer.Renderer, kind: Kind, base: map<string, Yaml>, dump: map<string, Yaml> -> string,
                    returnCodes: seq<int>, start: FS, now: int, faults: set<Path>, ghost tried: seq<TypeRenderer>, n: nat, fs: FS)
    returns (fs': FS, raised: Option<Error>, tr: TypeRenderer)
    requires parent.Valid() && parent.outputDir.Some? && FileSystem.Valid(start)
    requires Parented(parent, tried) && n == |tried| < |returnCodes|
    requires Sequenced(parent, tried, base, dump, returnCodes, start, now, faults) == Outcome(fs, None)
    ensures tr.parent == parent && tr.Placed() && tr.kind == kind
    ensures Sequenced(parent, tried + [tr], base, dump, returnCodes, start, now, faults) == Outcome(fs', raised)
  {
    fs', raised, tr := RenderKind(parent, kind, base, dump, returnCodes[n], fs, now, faults);
    ParentedStep(parent, tried, tr);
    SequencedStep(parent, tried, tr, base, dump, returnCodes, start, fs, now, faults);
  }

  lemma ParentedStep(parent: Renderer.Renderer, tried: seq<TypeRenderer>, tr: TypeRenderer)
    requires Parented(parent, tried) && tr.parent == parent && tr.Placed()
    ensures Parented(parent, tried + [tr])
  {
    assert forall i :: 0 <= i < |tried| ==> (tried + [tr])[i] == tried[i];
  }

  lemma Matched(kinds: seq<Kind>, k: Kind, types: seq<string>)
    requires |kinds| < |types| && ProjectType(k) == types[|kinds|]
    requires forall i :: 0 <= i < |kinds| ==> ProjectType(kinds[i]) == types[i]
    ensures forall i :: 0 <= i < |kinds + [k]| ==> ProjectType((kinds + [k])[i]) == types[i]
  {
  }
}
