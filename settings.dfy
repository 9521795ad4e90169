/**
 * `settings.py`: the default and available formats and project types, kept
 * as comma-joined strings, and `_enforce_list`, which turns a list, a
 * comma-separated string or None into a duplicate-free list.
 */
module Settings {
  import opened Wrappers
  import opened Text
  import opened Paths

  const DefaultFormats: seq<string> := ["html"]
  const AvailableFormats: seq<string> := ["pdf", "docx", "html"]
  const DefaultProjectTypes: seq<string> := ["default"]
  const AvailableProjectTypes: seq<string> := ["default", "website", "book", "manuscript", "user"]

  /** `default_output_dir_name`. */
  const DefaultOutputDirName: string := "docgen_output"

  /** The `value` argument of `_enforce_list`: None, a list of strings, or a string. */
  datatype Value = Absent | AList(items: seq<string>) | AString(text: string)

  predicate Unique(s: seq<string>) {
    forall i, j :: 0 <= i < j < |s| ==> s[i] != s[j]
  }

  /**
   * `list(set(xs))`: the same elements, each once. Python leaves the order to
   * the set's hashing; here it is the order of first occurrence.
   */
  function Dedup(xs: seq<string>): (r: seq<string>)
    ensures forall x :: x in r <==> x in xs
    ensures Unique(r)
    ensures |r| <= |xs|
  {
    if xs == [] then []
    else
      var r := Dedup(xs[..|xs| - 1]);
      var last := xs[|xs| - 1];
      assert xs == xs[..|xs| - 1] + [last];
      if last in r then r else r + [last]
  }

  /** `_enforce_list(value)`. */
  function EnforceList(v: Value): (r: Option<seq<string>>)
    ensures r.None? <==> v.Absent?
    ensures r.Some? ==> Unique(r.value)
    ensures v.AList? ==> forall x :: x in r.value <==> x in v.items
    ensures v.AString? ==> forall x :: x in r.value <==> x in Split(v.text, ',')
    decreases if v.AString? then 1 else 0
  {
    match v
    case Absent => None
    case AList(items) => Some(Dedup(items))
    case AString(s) => EnforceList(AList(Split(s, ',')))
  }

  /** `value or fallback` for a list that may be None: an empty list falls back too. */
  function OrElse(r: Option<seq<string>>, fallback: seq<string>): seq<string> {
    if r.None? || r.value == [] then fallback else r.value
  }

  function GetDefaultFormats(): seq<string> {
    EnforceList(AString(JoinWith(",", DefaultFormats))).value
  }

  function GetAvailableFormats(): seq<string> {
    EnforceList(AString(JoinWith(",", AvailableFormats))).value
  }

  function GetDefaultProjectTypes(): seq<string> {
    EnforceList(AString(JoinWith(",", DefaultProjectTypes))).value
  }

  function GetAvailableProjectTypes(): seq<string> {
    EnforceList(AString(JoinWith(",", AvailableProjectTypes))).value
  }

  // ---------------------------------------------------------------------
  // What `_enforce_list` and the getters give

  /** A string never yields an empty list: the empty string gives `[""]`, which defeats an `or` fallback. */
  lemma StringNeverEmpty(s: string, fallback: seq<string>)
    ensures EnforceList(AString(s)).value != []
    ensures OrElse(EnforceList(AString(s)), fallback) == EnforceList(AString(s)).value
  {
    var pieces := Split(s, ',');
    assert pieces[0] in pieces;
  }

  /** `_enforce_list("")` is `[""]`. */
  lemma EmptyStringGivesEmptyName()
    ensures EnforceList(AString("")) == Some([""])
  {
    assert Split("", ',') == [""];
    assert Dedup([""]) == [""] by {
      assert [""][..0] == [];
    }
  }

  /** Splitting a comma-joined list of comma-free names gives the names back. */
  lemma JoinedList(names: seq<string>)
    requires |names| >= 1 && forall i :: 0 <= i < |names| ==> ',' !in names[i]
    ensures forall x :: x in EnforceList(AString(JoinWith(",", names))).value <==> x in names
  {
    SplitJoin(names, ',');
  }

  /** The settings strings read back as the lists they were joined from. */
  lemma GettersGiveLists()
    ensures forall x :: x in GetDefaultFormats() <==> x in DefaultFormats
    ensures forall x :: x in GetAvailableFormats() <==> x in AvailableFormats
    ensures forall x :: x in GetDefaultProjectTypes() <==> x in DefaultProjectTypes
    ensures forall x :: x in GetAvailableProjectTypes() <==> x in AvailableProjectTypes
  {
    CommaFree(DefaultFormats);
    JoinedList(DefaultFormats);
    CommaFree(AvailableFormats);
    JoinedList(AvailableFormats);
    CommaFree(DefaultProjectTypes);
    JoinedList(DefaultProjectTypes);
    CommaFree(AvailableProjectTypes);
    JoinedList(AvailableProjectTypes);
  }

  /** The names of the settings lists hold no comma. */
  lemma CommaFree(names: seq<string>)
    requires names in {DefaultFormats, AvailableFormats, DefaultProjectTypes, AvailableProjectTypes}
    ensures forall i :: 0 <= i < |names| ==> ',' !in names[i]
  {
  }

  /** A list of one element deduplicates to itself. */
  lemma SingleDedup(x: string)
    ensures Dedup([x]) == [x]
  {
    assert [x][..0] == [];
  }

  /** The defaults are exactly `["html"]` and `["default"]`. */
  lemma Defaults()
    ensures GetDefaultFormats() == ["html"]
    ensures GetDefaultProjectTypes() == ["default"]
  {
    SplitNone("html", ',');
    SingleDedup("html");
    SplitNone("default", ',');
    SingleDedup("default");
  }
}
