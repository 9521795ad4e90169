/**
 * `outputs/excel.py`: a range of an Excel workbook rendered as an artefact
 * (a paragraph of text, an image, an HTML or Markdown table) in the build
 * tree, and the two outputs that splice such an artefact into a document.
 *
 * A workbook is a list of sheets, each with its cells and its defined
 * names, plus the workbook's own defined names. openpyxl's `range_to_tuple`
 * is a parameter, a partial parser of "Sheet!A1:B2" strings; pandas'
 * `to_html` is a parameter too.
 */
module Excel {
  import opened Wrappers
  import opened Text
  import opened Paths
  import opened FileSystem
  import opened PathUtils
  import opened Descriptor
  import opened Patterns
  import opened Outputs
  import opened Table

  /** `_range_boudaries`: `(min_col, min_row, max_col, max_row)`. */
  datatype Bounds = Bounds(minCol: int, minRow: int, maxCol: int, maxRow: int)

  /** What `range_to_tuple` returns: a sheet name and the bounds. */
  datatype Parsed = Parsed(sheet: string, bounds: Bounds)

  /** openpyxl's `range_to_tuple`; `None` stands for the `ValueError` it raises. */
  type RangeParser = string -> Option<Parsed>

  /** One destination of a defined name: a sheet and a range on it. */
  datatype Dest = Dest(sheet: string, area: string)

  /** A worksheet: its title, its non-empty cells by (row, column), its defined names. */
  datatype Sheet = Sheet(name: string, cells: map<(int, int), string>, names: map<string, seq<Dest>>)

  datatype Workbook = Workbook(sheets: seq<Sheet>, names: map<string, seq<Dest>>)

  /** The values of a range, row by row; `None` is an empty cell. */
  type Rows = seq<seq<Option<string>>>

  /** pandas' `DataFrame.to_html(header=…, index=…, table_id=…)` of the range values. */
  type HtmlRenderer = (Rows, bool, bool, string) -> string

  function CellAt(sh: Sheet, row: int, col: int): Option<string> {
    if (row, col) in sh.cells then Some(sh.cells[(row, col)]) else None
  }

  /** `iter_rows(min_row, max_row, min_col, max_col, values_only=True)`. */
  function RangeValues(sh: Sheet, b: Bounds): (r: Rows)
    ensures |r| == if b.maxRow >= b.minRow then b.maxRow - b.minRow + 1 else 0
    ensures forall i :: 0 <= i < |r| ==> |r[i]| == if b.maxCol >= b.minCol then b.maxCol - b.minCol + 1 else 0
    ensures forall i, j :: 0 <= i < |r| && 0 <= j < |r[i]| ==> r[i][j] == CellAt(sh, b.minRow + i, b.minCol + j)
  {
    var h := if b.maxRow >= b.minRow then b.maxRow - b.minRow + 1 else 0;
    var w := if b.maxCol >= b.minCol then b.maxCol - b.minCol + 1 else 0;
    seq(h, i requires 0 <= i < h => seq(w, j requires 0 <= j < w => CellAt(sh, b.minRow + i, b.minCol + j)))
  }

  // ---------------------------------------------------------------------------
  // The paragraph text of `build_paragraph`

  /** `fillna('').astype(str)` of one cell. */
  function CellText(c: Option<string>): string {
    if c.None? then "" else c.value
  }

  function CellTexts(row: seq<Option<string>>): (r: seq<string>)
    ensures |r| == |row| && forall j :: 0 <= j < |row| ==> r[j] == CellText(row[j])
  {
    seq(|row|, j requires 0 <= j < |row| => CellText(row[j]))
  }

  /**
   * One line of the paragraph: the cells joined by a space, every run of
   * whitespace collapsed to one space, then stripped.
   */
  function RowLine(row: seq<Option<string>>): string {
    Strip(CollapseSpaces(JoinWith(" ", CellTexts(row))))
  }

  /** A line holds no newline, no whitespace but single spaces, and none at either end. */
  lemma RowLineTidy(row: seq<Option<string>>)
    ensures '\n' !in RowLine(row) && Tidy(RowLine(row))
  {
    var c := CollapseSpaces(JoinWith(" ", CellTexts(row)));
    var r := Strip(c);
    var k :| OccursAt(c, r, k);
    InfixKeeps(c, r, k);
  }

  /** What holds of every character, and of every adjacent pair, of a string holds of its infixes. */
  lemma InfixKeeps(c: string, r: string, k: int)
    requires OccursAt(c, r, k)
    requires forall i :: 0 <= i < |c| && IsSpace(c[i]) ==> c[i] == ' '
    requires forall i :: 0 <= i < |c| - 1 ==> !(c[i] == ' ' && c[i + 1] == ' ')
    requires '\n' !in c
    ensures forall i :: 0 <= i < |r| && IsSpace(r[i]) ==> r[i] == ' '
    ensures forall i :: 0 <= i < |r| - 1 ==> !(r[i] == ' ' && r[i + 1] == ' ')
    ensures '\n' !in r
  {
    assert forall i :: 0 <= i < |r| ==> r[i] == c[k + i] by {
      forall i | 0 <= i < |r| { OccursAtChar(c, r, k, i); }
    }
  }

  function Lines(rows: Rows): (r: seq<string>)
    ensures |r| == |rows| && forall i :: 0 <= i < |rows| ==> r[i] == RowLine(rows[i])
  {
    seq(|rows|, i requires 0 <= i < |rows| => RowLine(rows[i]))
  }

  /** The text `build_paragraph` writes: the lines joined by "\n". */
  function ParagraphText(rows: Rows): string {
    JoinWith("\n", Lines(rows))
  }

  /** The paragraph has one line per row, in order: splitting it on "\n" gives the row lines back. */
  lemma ParagraphLines(rows: Rows)
    requires |rows| >= 1
    ensures Split(ParagraphText(rows), '\n') == Lines(rows)
  {
    forall i | 0 <= i < |rows| { RowLineTidy(rows[i]); }
    SplitJoin(Lines(rows), '\n');
  }

  /** A string made only of whitespace strips to nothing. */
  lemma StripBlank(s: string)
    requires forall i :: 0 <= i < |s| ==> IsSpace(s[i])
    ensures Strip(s) == ""
  {
    var r := Strip(s);
    var k :| OccursAt(s, r, k);
    assert forall i :: 0 <= i < |r| ==> r[i] == s[k + i] by {
      forall i | 0 <= i < |r| { OccursAtChar(s, r, k, i); }
    }
  }

  /** Joining empty cell texts gives only spaces. */
  lemma {:induction false} JoinBlank(ts: seq<string>)
    requires forall j :: 0 <= j < |ts| ==> ts[j] == ""
    ensures forall i :: 0 <= i < |JoinWith(" ", ts)| ==> JoinWith(" ", ts)[i] == ' '
  {
    if |ts| > 1 {
      JoinBlank(ts[1..]);
      assert JoinWith(" ", ts) == " " + JoinWith(" ", ts[1..]);
    }
  }

  /** Collapsing a run of spaces leaves at most one space. */
  lemma CollapseBlank(s: string)
    requires forall i :: 0 <= i < |s| ==> s[i] == ' '
    ensures forall i :: 0 <= i < |CollapseSpaces(s)| ==> IsSpace(CollapseSpaces(s)[i])
  {
    if s != [] {
      var t := TrimStart(s, IsSpace);
    }
  }

  /** An empty row is kept, as an empty line. */
  lemma EmptyRowKept(row: seq<Option<string>>)
    requires forall j :: 0 <= j < |row| ==> row[j].None?
    ensures RowLine(row) == ""
  {
    var s := JoinWith(" ", CellTexts(row));
    JoinBlank(CellTexts(row));
    CollapseBlank(s);
    StripBlank(CollapseSpaces(s));
  }

  /** A word: a non-empty cell text without whitespace. */
  predicate Word(w: string) {
    w != [] && forall i :: 0 <= i < |w| ==> !IsSpace(w[i])
  }

  /** A string in the shape `CollapseSpaces` and `strip` leave alone. */
  predicate Tidy(s: string) {
    && (s != [] ==> !IsSpace(s[0]) && !IsSpace(s[|s| - 1]))
    && (forall i :: 0 <= i < |s| && IsSpace(s[i]) ==> s[i] == ' ')
    && (forall i :: 0 <= i < |s| - 1 ==> !(s[i] == ' ' && s[i + 1] == ' '))
  }

  /** Words joined by single spaces are tidy. */
  lemma {:induction false} JoinWordsTidy(ws: seq<string>)
    requires forall j :: 0 <= j < |ws| ==> Word(ws[j])
    ensures Tidy(JoinWith(" ", ws))
  {
    if |ws| > 1 {
      JoinWordsTidy(ws[1..]);
      var w, rest := ws[0], JoinWith(" ", ws[1..]);
      var s := JoinWith(" ", ws);
      assert s == w + " " + rest;
      assert rest != [] && !IsSpace(rest[0]);
      forall i | 0 <= i < |s| && IsSpace(s[i])
        ensures s[i] == ' '
      {
        if i > |w| { assert s[i] == rest[i - |w| - 1]; }
      }
      forall i | 0 <= i < |s| - 1
        ensures !(s[i] == ' ' && s[i + 1] == ' ')
      {
        if i > |w| { assert s[i] == rest[i - |w| - 1] && s[i + 1] == rest[i - |w|]; }
        else if i == |w| { assert s[i + 1] == rest[0]; }
      }
    }
  }

  /** Whitespace only as single spaces: the shape `CollapseSpaces` leaves. */
  predicate Collapsed(s: string) {
    && (forall i :: 0 <= i < |s| && IsSpace(s[i]) ==> s[i] == ' ')
    && (forall i :: 0 <= i < |s| - 1 ==> !(s[i] == ' ' && s[i + 1] == ' '))
  }

  lemma CollapsedTail(s: string)
    requires s != [] && Collapsed(s)
    ensures Collapsed(s[1..])
  {
    var t := s[1..];
    forall i | 0 <= i < |t| && IsSpace(t[i]) ensures t[i] == ' ' {
      assert t[i] == s[i + 1];
    }
    forall i | 0 <= i < |t| - 1 ensures !(t[i] == ' ' && t[i + 1] == ' ') {
      assert t[i] == s[i + 1] && t[i + 1] == s[i + 2];
    }
  }

  /** A single leading space is all that `TrimStart` drops from a collapsed string. */
  lemma TrimOneSpace(s: string)
    requires s != [] && Collapsed(s) && IsSpace(s[0])
    ensures TrimStart(s, IsSpace) == s[1..]
  {
    var t := s[1..];
    if t != [] {
      assert s[1] == t[0];
      assert !IsSpace(t[0]);
    }
    assert TrimStart(t, IsSpace) == t;
  }

  /** A tidy string goes through `CollapseSpaces` unchanged. */
  lemma {:induction false} CollapseTidy(s: string)
    requires Collapsed(s)
    ensures CollapseSpaces(s) == s
    decreases |s|
  {
    if s != [] {
      var t := s[1..];
      CollapsedTail(s);
      CollapseTidy(t);
      if IsSpace(s[0]) {
        TrimOneSpace(s);
      }
      assert [s[0]] + t == s;
    }
  }

  /** Cells that are single words give exactly those words joined by a space. */
  lemma WordsLine(row: seq<Option<string>>)
    requires forall j :: 0 <= j < |row| ==> row[j].Some? && Word(row[j].value)
    ensures RowLine(row) == JoinWith(" ", CellTexts(row))
  {
    var s := JoinWith(" ", CellTexts(row));
    JoinWordsTidy(CellTexts(row));
    CollapseTidy(s);
    assert TrimStart(s, IsSpace) == s;
    assert TrimEnd(s, IsSpace) == s;
  }

  // ---------------------------------------------------------------------------
  // `_parse_range`

  /** A range that parsed, and the string that parsed (`_range_str`). */
  datatype Found = Found(parsed: Parsed, text: string)

  /** The string the k-th nested call of the written `_parse_range` tries: `k` sheet prefixes. */
  function Prefixed(sheet: string, r: string, k: nat): string {
    if k == 0 then r else sheet + "!" + Prefixed(sheet, r, k - 1)
  }

  /**
   * `_parse_range` as written, with `depth` the stack frames left before
   * Python raises `RecursionError`; `wb` is what the `wb` property gives.
   * A failed parse recurses on the range prefixed by the first sheet, and
   * the nested call starts over, so it prefixes again. The defined-name
   * step is reached only after a `ValueError` that no nested call raises,
   * and it would read a sheet named `None` (`KeyError`).
   */
  function ParseRangeAsWritten(parse: RangeParser, wb: Result<Workbook>, r: string, depth: nat): (res: Result<Found>)
    ensures depth > 0 && parse(r).Some? ==> res == Ok(Found(parse(r).value, r))
    ensures res.Ok? ==> parse(res.value.text) == Some(res.value.parsed)
    decreases depth
  {
    if depth == 0 then Err(RecursionError)
    else if parse(r).Some? then Ok(Found(parse(r).value, r))
    else if wb.Err? then Err(wb.error)
    else if |wb.value.sheets| == 0 then Err(IndexError("list index out of range"))
    else
      match ParseRangeAsWritten(parse, wb, wb.value.sheets[0].name + "!" + r, depth - 1)
      case Ok(f) => Ok(f)
      case Err(e) => if e.ValueError? then Err(KeyError("Worksheet None does not exist.")) else Err(e)
  }

  /**
   * With a loaded workbook, the written `_parse_range` either finds a
   * string with `k` sheet prefixes that parses, or runs out of stack: it
   * never raises the `ValueError` of an invalid range, and never consults
   * a defined name.
   */
  lemma {:induction false} AsWrittenOutcomes(parse: RangeParser, wb: Result<Workbook>, r: string, depth: nat)
    requires wb.Ok? && |wb.value.sheets| > 0
    ensures var res := ParseRangeAsWritten(parse, wb, r, depth);
      && (res.Err? ==> res.error == RecursionError)
      && (res.Ok? ==> exists k :: 0 <= k < depth && parse(Prefixed(wb.value.sheets[0].name, r, k)).Some?
                                      && res.value == Found(parse(Prefixed(wb.value.sheets[0].name, r, k)).value, Prefixed(wb.value.sheets[0].name, r, k)))
    decreases depth
  {
    var first := wb.value.sheets[0].name;
    if depth > 0 && parse(r).None? {
      var inner := first + "!" + r;
      AsWrittenOutcomes(parse, wb, inner, depth - 1);
      var res := ParseRangeAsWritten(parse, wb, inner, depth - 1);
      if res.Ok? {
        var k :| 0 <= k < depth - 1 && parse(Prefixed(first, inner, k)).Some?
                 && res.value == Found(parse(Prefixed(first, inner, k)).value, Prefixed(first, inner, k));
        PrefixedShift(first, r, k);
      }
    } else if depth > 0 {
      assert Prefixed(first, r, 0) == r;
    }
  }

  /** Prefixing `k` more times after one prefix is prefixing `k + 1` times. */
  lemma {:induction false} PrefixedShift(sheet: string, r: string, k: nat)
    ensures Prefixed(sheet, sheet + "!" + r, k) == Prefixed(sheet, r, k + 1)
  {
    if k > 0 {
      PrefixedShift(sheet, r, k - 1);
    }
  }

  /** The defined name `r`: on the first sheet, else on the workbook. */
  function DefinedName(wb: Workbook, r: string): (d: Option<seq<Dest>>)
    requires |wb.sheets| > 0
    ensures r in wb.sheets[0].names ==> d == Some(wb.sheets[0].names[r])
    ensures r !in wb.sheets[0].names ==> d == if r in wb.names then Some(wb.names[r]) else None
  {
    if r in wb.sheets[0].names then Some(wb.sheets[0].names[r])
    else if r in wb.names then Some(wb.names[r])
    else None
  }

  /**
   * `_parse_range` as its steps describe it: the range itself, then the
   * range on the first sheet, tried once; then a defined name of the first
   * sheet or of the workbook, by its first destination, refusing a second
   * destination; otherwise an invalid range.
   */
  function ParseRange(parse: RangeParser, wb: Result<Workbook>, r: string): (res: Result<Found>)
    ensures parse(r).Some? ==> res == Ok(Found(parse(r).value, r))
    ensures res.Ok? ==> parse(res.value.text) == Some(res.value.parsed)
    ensures res.Err? && parse(r).None? && wb.Ok? && |wb.value.sheets| > 0 && DefinedName(wb.value, r).None? ==>
      res == Err(ValueError("Invalid range: " + r))
  {
    if parse(r).Some? then Ok(Found(parse(r).value, r))
    else if wb.Err? then Err(wb.error)
    else if |wb.value.sheets| == 0 then Err(IndexError("list index out of range"))
    else
      var w := wb.value;
      var pre := w.sheets[0].name + "!" + r;
      if parse(pre).Some? then Ok(Found(parse(pre).value, pre))
      else
        match DefinedName(w, r)
        case None => Err(ValueError("Invalid range: " + r))
        case Some(ds) =>
          if |ds| == 0 then Err(StopIteration)
          else
            var t := ds[0].sheet + "!" + ds[0].area;
            if parse(t).None? then Err(ValueError("Invalid range: " + t))
            else if |ds| > 1 then Err(ValueError("Les plages multidestinations ne sont pas supportées"))
            else Ok(Found(parse(t).value, t))
  }

  /**
   * The order of the steps: the range on the first sheet is tried only when
   * the range itself fails, and a defined name only when both fail.
   */
  lemma ParseRangeOrder(parse: RangeParser, w: Workbook, r: string)
    requires |w.sheets| > 0 && parse(r).None?
    ensures var pre := w.sheets[0].name + "!" + r;
      && (parse(pre).Some? ==> ParseRange(parse, Ok(w), r) == Ok(Found(parse(pre).value, pre)))
      && (parse(pre).None? && DefinedName(w, r).Some? && |DefinedName(w, r).value| == 1 ==>
            var d := DefinedName(w, r).value[0];
            ParseRange(parse, Ok(w), r) ==
              if parse(d.sheet + "!" + d.area).Some? then Ok(Found(parse(d.sheet + "!" + d.area).value, d.sheet + "!" + d.area))
              else Err(ValueError("Invalid range: " + (d.sheet + "!" + d.area))))
      && (parse(pre).None? && DefinedName(w, r).Some? && |DefinedName(w, r).value| > 1 ==>
            ParseRange(parse, Ok(w), r).Err?)
  {
  }

  /** Both agree whenever the range parses as given or on the first sheet. */
  lemma AsWrittenAgrees(parse: RangeParser, w: Workbook, r: string, depth: nat)
    requires |w.sheets| > 0 && depth >= 2
    requires parse(r).Some? || parse(w.sheets[0].name + "!" + r).Some?
    ensures ParseRangeAsWritten(parse, Ok(w), r, depth) == ParseRange(parse, Ok(w), r)
  {
  }

  /**
   * A defined name that no sheet-prefixed string parses (the name "N" of a
   * sheet "S", which `range_to_tuple` rejects as "N", "S!N", "S!S!N", …) is
   * resolved by the steps as described, while the written code recurses
   * until the stack runs out.
   */
  lemma DefinedNameRecursion(parse: RangeParser, w: Workbook, r: string, depth: nat, p: Parsed)
    requires |w.sheets| > 0
    requires forall k: nat :: parse(Prefixed(w.sheets[0].name, r, k)).None?
    requires r in w.sheets[0].names && |w.sheets[0].names[r]| == 1
    requires var d := w.sheets[0].names[r][0]; parse(d.sheet + "!" + d.area) == Some(p)
    ensures ParseRangeAsWritten(parse, Ok(w), r, depth) == Err(RecursionError)
    ensures var d := w.sheets[0].names[r][0]; ParseRange(parse, Ok(w), r) == Ok(Found(p, d.sheet + "!" + d.area))
  {
    AsWrittenOutcomes(parse, Ok(w), r, depth);
    var first := w.sheets[0].name;
    assert parse(Prefixed(first, r, 0)).None? && parse(Prefixed(first, r, 1)).None?;
  }

  // ---------------------------------------------------------------------------
  // Naming and the target of `build`

  /** `sanitize_path_part(wbname + "_" + range_str).lower()`. */
  function Outname(wbName: string, rangeStr: string): (r: string)
    ensures IsPart(r) && r != ".." && r[0] != '.'
    ensures forall i :: 0 <= i < |r| ==> !BaseProhibited(r[i])
    ensures r == Lower(SanitizePathPart(wbName + "_" + rangeStr, {}))
  {
    Lower(SanitizePathPart(wbName + "_" + rangeStr, {}))
  }

  /** The five builders `build` dispatches to. */
  datatype Builder = Paragraph | Image | HtmlTable | Markdown | QuartoMarkdown

  /** The dispatch on `mode`: an unknown mode raises `ValueError`. */
  function BuilderFor(mode: string): (r: Result<Builder>)
    ensures r.Ok? <==> mode in {"paragraph", "image", "html", "markdown", "quarto_markdown"}
    ensures r.Err? ==> r.error.ValueError?
    ensures r.Ok? ==> BuilderMode(r.value) == mode || (mode == "markdown" && r.value == Markdown)
  {
    if mode == "paragraph" then Ok(Paragraph)
    else if mode == "image" then Ok(Image)
    else if mode == "html" then Ok(HtmlTable)
    else if mode == "markdown" then Ok(Markdown)
    else if mode == "quarto_markdown" then Ok(QuartoMarkdown)
    else Err(ValueError("Mode " + mode + " non supporté. Utiliser 'paragraph', 'image' ou 'html'."))
  }

  /** The mode that selects a builder. */
  function BuilderMode(b: Builder): string {
    match b
    case Paragraph => "paragraph"
    case Image => "image"
    case HtmlTable => "html"
    case Markdown => "markdown"
    case QuartoMarkdown => "quarto_markdown"
  }

  /** Each mode selects its own builder back. */
  lemma BuilderRoundTrip(b: Builder)
    ensures BuilderFor(BuilderMode(b)) == Ok(b)
  {
  }

  /** The suffix of each builder's artefact. */
  function BuilderSuffix(b: Builder): (s: string)
    ensures ValidSuffix(s) && |s| >= 2 && '.' !in s[1..]
    ensures b == Paragraph <==> s == ".txt"
    ensures b == Image <==> s == ".png"
    ensures b == HtmlTable <==> s == ".html"
    ensures b == Markdown || b == QuartoMarkdown <==> s == ".md"
  {
    match b
    case Paragraph => ".txt"
    case Image => ".png"
    case HtmlTable => ".html"
    case Markdown => ".md"
    case QuartoMarkdown => ".md"
  }

  /** The target as written: `(parent / outname).with_suffix(suffix)`. */
  function OutputPathAsWritten(parent: Path, outname: string, suffix: string): (r: Result<Path>)
    requires WellFormed(parent)
    ensures IsPart(outname) && r.Ok? ==> Parent(r.value) == parent && Name(r.value) == NameStem(outname) + suffix
  {
    WithSuffix(Join(parent, [outname]), suffix)
  }

  /** The target as intended: the suffix appended to the output name. */
  function OutputPath(parent: Path, outname: string, suffix: string): (p: Path)
    requires WellFormed(parent) && IsPart(outname + suffix)
    ensures WellFormed(p) && Parent(p) == parent && Name(p) == outname + suffix
    ensures Normal(parent) && outname + suffix != ".." ==> Normal(p)
  {
    var p := parent + [outname + suffix];
    assert IsAbsolute(parent) ==> Tail(p) == Tail(parent) + [outname + suffix];
    assert Normal(parent) && outname + suffix != ".." ==> Normal(p) by {
      if Normal(parent) && outname + suffix != ".." {
        assert forall i :: 1 <= i < |p| ==> p[i] == if i < |parent| then parent[i] else outname + suffix;
      }
    }
    p
  }

  /** Different output names never share a target. */
  lemma OutputPathInjective(parent: Path, a: string, b: string, suffix: string)
    requires WellFormed(parent) && IsPart(a + suffix) && IsPart(b + suffix)
    requires OutputPath(parent, a, suffix) == OutputPath(parent, b, suffix)
    ensures a == b
  {
    assert a + suffix == b + suffix;
    assert a == (a + suffix)[..|a|];
    assert b == (b + suffix)[..|b|];
  }

  /** A dot-free output name gets the same target either way. */
  lemma AsWrittenTargetAgrees(parent: Path, outname: string, suffix: string)
    requires WellFormed(parent) && IsPart(outname) && '.' !in outname && ValidSuffix(suffix)
    requires IsPart(outname + suffix)
    ensures OutputPathAsWritten(parent, outname, suffix) == Ok(OutputPath(parent, outname, suffix))
  {
    var q := Join(parent, [outname]);
    assert q == parent + [outname];
    assert Name(q) == outname by {
      assert IsAbsolute(parent) ==> Tail(q) == Tail(parent) + [outname];
    }
    assert LastIndexOf(outname, '.') == -1;
    assert NameStem(outname) == outname;
    var r := OutputPathAsWritten(parent, outname, suffix);
    assert r.Ok?;
    assert Parent(q) == parent;
  }

  /** As written, the target of a dotted output name keeps only what precedes its last dot. */
  lemma DottedTarget(parent: Path, head: string, tail: string, suffix: string)
    requires WellFormed(parent) && ValidSuffix(suffix)
    requires head != [] && tail != [] && '.' !in tail
    requires IsPart(head + "." + tail) && IsPart(head + suffix)
    ensures OutputPathAsWritten(parent, head + "." + tail, suffix) == Ok(parent + [head + suffix])
  {
    var q := Join(parent, [head + "." + tail]);
    assert q == parent + [head + "." + tail];
    assert Name(q) == head + "." + tail by {
      assert IsAbsolute(parent) ==> Tail(q) == Tail(parent) + [head + "." + tail];
    }
    LastDotStem(head, tail);
    var r := OutputPathAsWritten(parent, head + "." + tail, suffix);
    assert r.Ok?;
    assert Tail(r.value) != [];
  }

  /**
   * As written, two output names that differ only after their last dot
   * share a target: the names "report.v2_sheet1!a1_b2" and
   * "report.v2_sheet1!c1_d2" of two ranges of "report.v2.xlsx" both target
   * "report.txt". As intended, they get two targets.
   */
  lemma AsWrittenTargetsCollide(parent: Path, head: string, t1: string, t2: string, suffix: string)
    requires WellFormed(parent) && ValidSuffix(suffix)
    requires head != [] && t1 != [] && t2 != [] && '.' !in t1 && '.' !in t2 && t1 != t2
    requires IsPart(head + "." + t1) && IsPart(head + "." + t2) && IsPart(head + suffix)
    requires IsPart(head + "." + t1 + suffix) && IsPart(head + "." + t2 + suffix)
    ensures OutputPathAsWritten(parent, head + "." + t1, suffix).Ok?
    ensures OutputPathAsWritten(parent, head + "." + t1, suffix) == OutputPathAsWritten(parent, head + "." + t2, suffix)
    ensures OutputPath(parent, head + "." + t1, suffix) != OutputPath(parent, head + "." + t2, suffix)
  {
    DottedTarget(parent, head, t1, suffix);
    DottedTarget(parent, head, t2, suffix);
    DottedNamesDiffer(head, t1, t2);
    OutputPathsDiffer(parent, head + "." + t1, head + "." + t2, suffix);
  }

  /** Distinct names give distinct targets. */
  lemma OutputPathsDiffer(parent: Path, a: string, b: string, suffix: string)
    requires WellFormed(parent) && IsPart(a + suffix) && IsPart(b + suffix) && a != b
    ensures OutputPath(parent, a, suffix) != OutputPath(parent, b, suffix)
  {
    var x, y := OutputPath(parent, a, suffix), OutputPath(parent, b, suffix);
    assert x[|parent|] == a + suffix;
    assert y[|parent|] == b + suffix;
    assert (a + suffix)[..|a|] == a;
    assert (b + suffix)[..|b|] == b;
  }

  lemma DottedNamesDiffer(head: string, t1: string, t2: string)
    requires t1 != t2
    ensures head + "." + t1 != head + "." + t2
  {
    assert (head + "." + t1)[|head| + 1..] == t1;
    assert (head + "." + t2)[|head| + 1..] == t2;
  }
}
