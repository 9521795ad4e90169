/**
 * `CoreExcelOutput` of `outputs/excel.py`: one range of one workbook, the
 * class-level cache of loaded workbooks, and `build`, which renders the
 * range into a file next to the workbook or in a given directory when the
 * workbook is newer than that file.
 *
 * The fields of a `CoreExcelOutput` are all set while it is constructed and
 * never changed afterwards, so an instance is the value `Core`.
 */
module ExcelCore {
  import opened Wrappers
  import opened Text
  import opened Paths
  import opened FileSystem
  import opened PathUtils
  import opened Table
  import opened Excel

  /** `openpyxl.load_workbook` of the file at a path string. */
  type Loader = string -> Result<Workbook>

  // ---------------------------------------------------------------------------
  // The workbook cache

  /** What the `wb` property returns for `key`: the cached workbook, else a fresh load. */
  function Lookup(loaded: map<string, Workbook>, key: string, load: Loader): Result<Workbook> {
    if key in loaded then Ok(loaded[key]) else load(key)
  }

  /** The cache after `wb` was asked for `key`: a successful fresh load is kept. */
  function AfterLoad(loaded: map<string, Workbook>, key: string, load: Loader): map<string, Workbook> {
    if key in loaded || load(key).Err? then loaded else loaded[key := load(key).value]
  }

  /** The keys in the order their workbooks were loaded, after `wb` was asked for `key`. */
  function OrderAfter(loadOrder: seq<string>, loaded: map<string, Workbook>, key: string, load: Loader): seq<string> {
    if key in loaded || load(key).Err? then loadOrder else loadOrder + [key]
  }

  /**
   * A workbook is read from its file at most once: after a successful
   * lookup, every later lookup of the same key returns the same workbook,
   * whatever the file now holds; a failed load leaves the cache as it was;
   * other keys are untouched.
   */
  lemma CachedWorkbookStays(loaded: map<string, Workbook>, key: string, load: Loader, later: Loader)
    ensures Lookup(loaded, key, load).Ok? ==> Lookup(AfterLoad(loaded, key, load), key, later) == Lookup(loaded, key, load)
    ensures Lookup(loaded, key, load).Err? ==> AfterLoad(loaded, key, load) == loaded && key !in loaded
    ensures forall k :: k != key ==> (k in AfterLoad(loaded, key, load) <==> k in loaded)
    ensures forall k :: k != key && k in loaded ==> AfterLoad(loaded, key, load)[k] == loaded[k]
  {
  }

  /** The class-level `_workbook_cache`, with the keys in load order and the workbooks closed so far. */
  class WorkbookCache {
    var loaded: map<string, Workbook>
    var loadOrder: seq<string>
    var closed: seq<string>

    /** Every cached workbook is listed once, in load order. */
    ghost predicate Valid()
      reads this
    {
      && (forall i, j :: 0 <= i < j < |loadOrder| ==> loadOrder[i] != loadOrder[j])
      && (forall k :: k in loaded <==> k in loadOrder)
    }

    constructor ()
      ensures Valid()
      ensures loaded == map[] && loadOrder == [] && closed == []
    {
      loaded := map[];
      loadOrder := [];
      closed := [];
    }

    /** The `wb` property: load and keep the workbook unless it is cached; a failing load raises. */
    method Load(key: string, load: Loader) returns (r: Result<Workbook>)
      requires Valid()
      modifies this
      ensures Valid()
      ensures r == Lookup(old(loaded), key, load)
      ensures loaded == AfterLoad(old(loaded), key, load)
      ensures loadOrder == OrderAfter(old(loadOrder), old(loaded), key, load)
      ensures closed == old(closed)
    {
      if key in loaded {
        r := Ok(loaded[key]);
      } else {
        r := load(key);
        if r.Ok? {
          loaded := loaded[key := r.value];
          loadOrder := loadOrder + [key];
        }
      }
    }

    /**
     * `clear_caches`: every cached workbook is closed, in load order, and
     * the cache emptied. A failing `close` is only logged, so it is not
     * modelled.
     */
    method Clear()
      requires Valid()
      modifies this
      ensures Valid()
      ensures loaded == map[] && loadOrder == []
      ensures closed == old(closed) + old(loadOrder)
    {
      var i := 0;
      while i < |loadOrder|
        invariant 0 <= i <= |loadOrder|
        invariant loadOrder == old(loadOrder) && loaded == old(loaded)
        invariant closed == old(closed) + loadOrder[..i]
      {
        closed := closed + [loadOrder[i]];
        i := i + 1;
      }
      assert loadOrder[..i] == loadOrder;
      loaded := map[];
      loadOrder := [];
    }
  }

  // ---------------------------------------------------------------------------
  // Construction

  /** A constructed `CoreExcelOutput`. */
  datatype Core = Core(
    wbPath: Path,
    rangeName: string,
    wbName: string,
    sheetName: string,
    bounds: Bounds,
    rangeStr: string,
    outname: string)

  /** What construction guarantees: a resolved workbook path and an output name that is one hidden-free part. */
  predicate CoreValid(c: Core) {
    Normal(c.wbPath) && IsPart(c.outname) && c.outname[0] != '.'
  }

  /**
   * `__post_init__` with `wb` the workbook the `wb` property gives: the
   * path resolved, its stem as the workbook name, the range parsed, and the
   * output name made of both.
   */
  function MakeCore(wbPath: Path, rangeName: string, parse: RangeParser, wb: Result<Workbook>, cwd: Path): (r: Result<Core>)
    requires WellFormed(wbPath) && Normal(cwd)
    ensures r.Err? <==> ParseRange(parse, wb, rangeName).Err?
    ensures r.Err? ==> r.error == ParseRange(parse, wb, rangeName).error
    ensures r.Ok? ==> CoreValid(r.value)
    ensures r.Ok? ==> r.value.wbPath == Resolve(wbPath, cwd) && r.value.wbName == Stem(r.value.wbPath)
    ensures r.Ok? ==> r.value.rangeName == rangeName
    ensures r.Ok? ==> parse(r.value.rangeStr) == Some(Parsed(r.value.sheetName, r.value.bounds))
    ensures r.Ok? ==> r.value.outname == Outname(r.value.wbName, r.value.rangeStr)
    ensures parse(rangeName).Some? ==> r.Ok? && r.value.rangeStr == rangeName
  {
    var p := Resolve(wbPath, cwd);
    var found :- ParseRange(parse, wb, rangeName);
    Ok(Core(p, rangeName, Stem(p), found.parsed.sheet, found.parsed.bounds, found.text, Outname(Stem(p), found.text)))
  }

  /** A range that parses on its own needs no workbook: any workbook, or none, gives the same output. */
  lemma MakeCoreIgnoresWorkbook(wbPath: Path, rangeName: string, parse: RangeParser, wb1: Result<Workbook>, wb2: Result<Workbook>, cwd: Path)
    requires WellFormed(wbPath) && Normal(cwd) && parse(rangeName).Some?
    ensures MakeCore(wbPath, rangeName, parse, wb1, cwd) == MakeCore(wbPath, rangeName, parse, wb2, cwd)
  {
  }

  /**
   * Constructing a `CoreExcelOutput`: the workbook is loaded, through the
   * cache, only when the range does not parse on its own.
   */
  method NewCore(cache: WorkbookCache, wbPath: Path, rangeName: string, parse: RangeParser, load: Loader, cwd: Path)
    returns (r: Result<Core>)
    requires cache.Valid() && WellFormed(wbPath) && Normal(cwd)
    modifies cache
    ensures cache.Valid()
    ensures r == MakeCore(wbPath, rangeName, parse, Lookup(old(cache.loaded), ToStr(Resolve(wbPath, cwd)), load), cwd)
    ensures parse(rangeName).Some? ==> cache.loaded == old(cache.loaded) && cache.loadOrder == old(cache.loadOrder)
    ensures parse(rangeName).None? ==>
      && cache.loaded == AfterLoad(old(cache.loaded), ToStr(Resolve(wbPath, cwd)), load)
      && cache.loadOrder == OrderAfter(old(cache.loadOrder), old(cache.loaded), ToStr(Resolve(wbPath, cwd)), load)
    ensures cache.closed == old(cache.closed)
  {
    var key := ToStr(Resolve(wbPath, cwd));
    ghost var wb := Lookup(cache.loaded, key, load);
    if parse(rangeName).Some? {
      r := MakeCore(wbPath, rangeName, parse, Err(RuntimeError("unused")), cwd);
      MakeCoreIgnoresWorkbook(wbPath, rangeName, parse, Err(RuntimeError("unused")), wb, cwd);
    } else {
      var loaded := cache.Load(key, load);
      r := MakeCore(wbPath, rangeName, parse, loaded, cwd);
    }
  }

  // ---------------------------------------------------------------------------
  // Reading the range

  /** The position of the first sheet called `name`, as `wb[name]` finds it. */
  function SheetIndex(sheets: seq<Sheet>, name: string): (r: Option<nat>)
    ensures r.Some? ==> r.value < |sheets| && sheets[r.value].name == name
    ensures r.Some? ==> forall i :: 0 <= i < r.value ==> sheets[i].name != name
    ensures r.None? ==> forall i :: 0 <= i < |sheets| ==> sheets[i].name != name
    decreases |sheets|
  {
    if |sheets| == 0 then None
    else if sheets[0].name == name then Some(0)
    else
      match SheetIndex(sheets[1..], name)
      case None => None
      case Some(i) => Some(i + 1)
  }

  /**
   * `_get_range_values` with `wb` what the `wb` property gives: the values
   * of the range on the sheet of the core; a missing sheet raises `KeyError`.
   */
  function RangeRows(c: Core, wb: Result<Workbook>): (r: Result<Rows>)
    ensures r.Ok? <==> wb.Ok? && exists i :: 0 <= i < |wb.value.sheets| && wb.value.sheets[i].name == c.sheetName
    ensures r.Ok? ==> exists i :: (0 <= i < |wb.value.sheets| && wb.value.sheets[i].name == c.sheetName &&
      r.value == RangeValues(wb.value.sheets[i], c.bounds))
    ensures wb.Err? ==> r == Err(wb.error)
    ensures wb.Ok? && r.Err? ==> r.error.KeyError?
  {
    var w :- wb;
    match SheetIndex(w.sheets, c.sheetName)
    case None => Err(KeyError("Worksheet " + c.sheetName + " does not exist."))
    case Some(i) => Ok(RangeValues(w.sheets[i], c.bounds))
  }

  // ---------------------------------------------------------------------------
  // Building

  /** The directory `build` writes in: the given one, else the workbook's own. */
  function TargetDir(c: Core, parent: Option<Path>): Path {
    if parent.Some? then parent.value else Parent(c.wbPath)
  }

  /** An output name with one of the builder suffixes is a part other than "..". */
  lemma OutnameSuffixPart(outname: string, b: Builder)
    requires IsPart(outname) && outname[0] != '.'
    ensures IsPart(outname + BuilderSuffix(b)) && outname + BuilderSuffix(b) != ".."
  {
    var s := outname + BuilderSuffix(b);
    assert s[0] == outname[0];
    assert forall i :: 0 <= i < |s| ==> s[i] == if i < |outname| then outname[i] else BuilderSuffix(b)[i - |outname|];
  }

  /**
   * The path `build` returns for `mode`, as the name and suffix intend it
   * (see `Excel.OutputPath`); an unknown mode raises `ValueError`.
   */
  function CoreTarget(c: Core, mode: string, parent: Option<Path>): (r: Result<Path>)
    requires CoreValid(c) && (parent.Some? ==> Normal(parent.value))
    ensures r.Ok? <==> BuilderFor(mode).Ok?
    ensures r.Err? ==> r.error == BuilderFor(mode).error
    ensures r.Ok? ==> Normal(r.value) && r.value != Root
    ensures r.Ok? ==> Parent(r.value) == TargetDir(c, parent)
    ensures r.Ok? ==> Name(r.value) == c.outname + BuilderSuffix(BuilderFor(mode).value)
  {
    var b :- BuilderFor(mode);
    ParentNormal(c.wbPath);
    OutnameSuffixPart(c.outname, b);
    Ok(OutputPath(TargetDir(c, parent), c.outname, BuilderSuffix(b)))
  }

  /** `path.parent.mkdir(parents=True, exist_ok=True)` followed by `path.write_text(text)`. */
  function MkdirsThenWrite(fs: FS, path: Path, text: string, now: int, faults: set<Path>): (r: Outcome)
    requires Valid(fs) && Normal(path)
    ensures Valid(r.fs)
  {
    ParentNormal(path);
    var m := Mkdirs(fs, Parent(path), faults, now);
    if m.raised.Some? then m else WriteText(m.fs, path, text, now, faults)
  }

  /**
   * The write succeeds when no file or refusing path blocks the parents and
   * the path is no directory; it then holds `text`, dated `now`. Whatever
   * happens, every other node that was there stays as it was.
   */
  lemma MkdirsThenWriteLands(fs: FS, path: Path, text: string, now: int, faults: set<Path>)
    requires Valid(fs) && Normal(path) && path != Root
    ensures var r := MkdirsThenWrite(fs, path, text, now, faults);
      r.raised.None? ==> path in r.fs.nodes && r.fs.nodes[path] == File(now, text)
    ensures CanMkdirs(fs, Parent(path), faults) && !IsDir(fs, path) && path !in faults ==>
      MkdirsThenWrite(fs, path, text, now, faults).raised.None?
    ensures var r := MkdirsThenWrite(fs, path, text, now, faults);
      forall q :: q in fs.nodes && q != path ==> q in r.fs.nodes && r.fs.nodes[q] == fs.nodes[q]
  {
    ParentNormal(path);
    var m := Mkdirs(fs, Parent(path), faults, now);
    if m.raised.None? {
      MkdirsKeeps(fs, m.fs, path, now);
    }
  }

  /** The HTML table `build_html` writes: no header, no index, the output name as id. */
  function HtmlText(c: Core, rows: Rows, toHtml: HtmlRenderer): string {
    toHtml(rows, false, false, c.outname)
  }

  /** The text `build_quarto_markdown` writes: the table with header and index, fenced, no caption. */
  function QuartoText(c: Core, rows: Rows, toHtml: HtmlRenderer): (r: string)
    ensures r == FenceOpen + toHtml(rows, true, true, c.outname) + FenceClose
  {
    ToQuartoMarkdown(Frame(toHtml(rows, true, true, c.outname)), None).value
  }

  /**
   * One builder writing to `path`, with `wb` what the `wb` property gives.
   * `build_image` needs Windows' clipboard and raises `RuntimeError`
   * before reading anything; `build_markdown` reads the range and then
   * raises on the missing `with_rows` attribute; `build_html` writes
   * without creating the parent.
   */
  function RunBuilder(b: Builder, c: Core, path: Path, fs: FS, wb: Result<Workbook>, now: int, faults: set<Path>, toHtml: HtmlRenderer): (r: Outcome)
    requires Valid(fs) && Normal(path)
    ensures Valid(r.fs)
    ensures b == Image ==> r == Outcome(fs, Some(RuntimeError("xlwings and ctypes.windll are required for image output.")))
    ensures b != Image && RangeRows(c, wb).Err? ==> r == Outcome(fs, Some(RangeRows(c, wb).error))
    ensures b == Markdown && RangeRows(c, wb).Ok? ==> r.fs == fs && r.raised.Some? && r.raised.value.AttributeError?
  {
    if b == Image then Outcome(fs, Some(RuntimeError("xlwings and ctypes.windll are required for image output.")))
    else
      match RangeRows(c, wb)
      case Err(e) => Outcome(fs, Some(e))
      case Ok(rows) =>
        match b
        case Paragraph => MkdirsThenWrite(fs, path, ParagraphText(rows), now, faults)
        case HtmlTable => WriteText(fs, path, HtmlText(c, rows, toHtml), now, faults)
        case Markdown => Outcome(fs, Some(AttributeError("'CoreExcelOutput' object has no attribute 'with_rows'")))
        case QuartoMarkdown => MkdirsThenWrite(fs, path, QuartoText(c, rows, toHtml), now, faults)
  }

  /** The text a text-writing builder puts in its file. */
  function BuilderText(b: Builder, c: Core, rows: Rows, toHtml: HtmlRenderer): string {
    match b
    case Paragraph => ParagraphText(rows)
    case HtmlTable => HtmlText(c, rows, toHtml)
    case QuartoMarkdown => QuartoText(c, rows, toHtml)
    case _ => ""
  }

  /** The builders that write the range as text. */
  predicate Writes(b: Builder) {
    b == Paragraph || b == HtmlTable || b == QuartoMarkdown
  }

  /**
   * A text-writing builder that read the range and succeeded left its text
   * at `path`, dated `now`; it succeeds whenever the way to `path` is free
   * (for `build_html`, when the parent already is a directory). No other
   * node that was there changes.
   */
  lemma RunBuilderWrites(b: Builder, c: Core, path: Path, fs: FS, wb: Result<Workbook>, now: int, faults: set<Path>, toHtml: HtmlRenderer)
    requires Valid(fs) && Normal(path) && path != Root && Writes(b) && RangeRows(c, wb).Ok?
    ensures var r := RunBuilder(b, c, path, fs, wb, now, faults, toHtml);
      r.raised.None? ==> path in r.fs.nodes && r.fs.nodes[path] == File(now, BuilderText(b, c, RangeRows(c, wb).value, toHtml))
    ensures var r := RunBuilder(b, c, path, fs, wb, now, faults, toHtml);
      forall q :: q in fs.nodes && q != path ==> q in r.fs.nodes && r.fs.nodes[q] == fs.nodes[q]
    ensures !IsDir(fs, path) && path !in faults && (if b == HtmlTable then IsDir(fs, Parent(path)) else CanMkdirs(fs, Parent(path), faults)) ==>
      RunBuilder(b, c, path, fs, wb, now, faults, toHtml).raised.None?
  {
    var rows := RangeRows(c, wb).value;
    var text := BuilderText(b, c, rows, toHtml);
    if b != HtmlTable {
      MkdirsThenWriteLands(fs, path, text, now, faults);
    }
  }

  /**
   * `build(mode, parent_path)` with `wb` what the `wb` property gives: the
   * target is computed first (an unknown mode raises before anything else);
   * the builder runs only when the workbook is newer than the target or
   * either is missing.
   */
  function CoreBuild(c: Core, mode: string, parent: Option<Path>, fs: FS, wb: Result<Workbook>, now: int, faults: set<Path>, toHtml: HtmlRenderer): (r: Outcome)
    requires Valid(fs) && CoreValid(c) && (parent.Some? ==> Normal(parent.value))
    ensures Valid(r.fs)
    ensures BuilderFor(mode).Err? ==> r == Outcome(fs, Some(BuilderFor(mode).error))
    ensures BuilderFor(mode).Ok? && !Modified(fs, c.wbPath, CoreTarget(c, mode, parent).value) ==> r == Outcome(fs, None)
    ensures BuilderFor(mode).Ok? && Modified(fs, c.wbPath, CoreTarget(c, mode, parent).value) ==>
      r == RunBuilder(BuilderFor(mode).value, c, CoreTarget(c, mode, parent).value, fs, wb, now, faults, toHtml)
  {
    match CoreTarget(c, mode, parent)
    case Err(e) => Outcome(fs, Some(e))
    case Ok(path) =>
      if Modified(fs, c.wbPath, path) then RunBuilder(BuilderFor(mode).value, c, path, fs, wb, now, faults, toHtml)
      else Outcome(fs, None)
  }

  /** What `build` returns: the target, or what was raised. */
  function BuildResult(c: Core, mode: string, parent: Option<Path>, o: Outcome): (r: Result<Path>)
    requires CoreValid(c) && (parent.Some? ==> Normal(parent.value))
    ensures o.raised.Some? ==> r == Err(o.raised.value)
    ensures o.raised.None? && BuilderFor(mode).Ok? ==> r == CoreTarget(c, mode, parent)
  {
    if o.raised.Some? then Err(o.raised.value)
    else CoreTarget(c, mode, parent)
  }

  /**
   * An up-to-date target is left alone: building again right after a
   * successful build, with the target now dated `now`, no later than the
   * workbook only if the workbook is newer, does nothing.
   */
  lemma BuildSkipsFreshTarget(c: Core, mode: string, parent: Option<Path>, fs: FS, wb: Result<Workbook>, now: int, faults: set<Path>, toHtml: HtmlRenderer)
    requires Valid(fs) && CoreValid(c) && (parent.Some? ==> Normal(parent.value)) && BuilderFor(mode).Ok?
    requires c.wbPath in fs.nodes && CoreTarget(c, mode, parent).value in fs.nodes
    requires fs.nodes[CoreTarget(c, mode, parent).value].mtime >= fs.nodes[c.wbPath].mtime
    ensures CoreBuild(c, mode, parent, fs, wb, now, faults, toHtml) == Outcome(fs, None)
    ensures BuildResult(c, mode, parent, CoreBuild(c, mode, parent, fs, wb, now, faults, toHtml)) == CoreTarget(c, mode, parent)
  {
  }

  /**
   * A paragraph build of a stale target, on a free way, succeeds and leaves
   * one line per row of the range, in order, at the target.
   */
  lemma ParagraphBuildWrites(c: Core, parent: Option<Path>, fs: FS, wb: Result<Workbook>, now: int, faults: set<Path>, toHtml: HtmlRenderer)
    requires Valid(fs) && CoreValid(c) && (parent.Some? ==> Normal(parent.value))
    requires RangeRows(c, wb).Ok? && |RangeRows(c, wb).value| >= 1
    requires var t := CoreTarget(c, "paragraph", parent).value;
      Modified(fs, c.wbPath, t) && !IsDir(fs, t) && t !in faults && CanMkdirs(fs, Parent(t), faults)
    ensures var t := CoreTarget(c, "paragraph", parent).value;
      var r := CoreBuild(c, "paragraph", parent, fs, wb, now, faults, toHtml);
      && r.raised.None?
      && t in r.fs.nodes && r.fs.nodes[t].File?
      && Split(r.fs.nodes[t].content, '\n') == Lines(RangeRows(c, wb).value)
  {
    var t := CoreTarget(c, "paragraph", parent).value;
    RunBuilderWrites(Paragraph, c, t, fs, wb, now, faults, toHtml);
    ParagraphLines(RangeRows(c, wb).value);
  }

  /** Whether `build` reads the workbook: a known mode other than "image", on a stale target. */
  predicate ReadsWorkbook(c: Core, mode: string, parent: Option<Path>, fs: FS)
    requires CoreValid(c) && (parent.Some? ==> Normal(parent.value))
  {
    BuilderFor(mode).Ok? && BuilderFor(mode).value != Image && Modified(fs, c.wbPath, CoreTarget(c, mode, parent).value)
  }

  /** `build` over the workbook cache: the workbook is loaded only when a builder reads the range. */
  method Build(cache: WorkbookCache, c: Core, mode: string, parent: Option<Path>, fs: FS, load: Loader, now: int, faults: set<Path>, toHtml: HtmlRenderer)
    returns (fs': FS, r: Result<Path>)
    requires cache.Valid() && Valid(fs) && CoreValid(c) && (parent.Some? ==> Normal(parent.value))
    modifies cache
    ensures cache.Valid()
    ensures var o := CoreBuild(c, mode, parent, fs, Lookup(old(cache.loaded), ToStr(c.wbPath), load), now, faults, toHtml);
      fs' == o.fs && r == BuildResult(c, mode, parent, o)
    ensures ReadsWorkbook(c, mode, parent, fs) ==>
      && cache.loaded == AfterLoad(old(cache.loaded), ToStr(c.wbPath), load)
      && cache.loadOrder == OrderAfter(old(cache.loadOrder), old(cache.loaded), ToStr(c.wbPath), load)
    ensures !ReadsWorkbook(c, mode, parent, fs) ==> cache.loaded == old(cache.loaded) && cache.loadOrder == old(cache.loadOrder)
    ensures cache.closed == old(cache.closed)
  {
    ghost var wb := Lookup(cache.loaded, ToStr(c.wbPath), load);
    var t := CoreTarget(c, mode, parent);
    if t.Err? {
      fs', r := fs, Err(t.error);
      return;
    }
    if !Modified(fs, c.wbPath, t.value) {
      fs', r := fs, t;
      return;
    }
    var b := BuilderFor(mode).value;
    var o: Outcome;
    if b == Image {
      o := RunBuilder(b, c, t.value, fs, Err(RuntimeError("unused")), now, faults, toHtml);
    } else {
      var loaded := cache.Load(ToStr(c.wbPath), load);
      o := RunBuilder(b, c, t.value, fs, loaded, now, faults, toHtml);
    }
    fs', r := o.fs, BuildResult(c, mode, parent, o);
  }
}
