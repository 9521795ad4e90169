/**
 * `utils/yml.py`: YAML documents as values; `update_path`, which walks a
 * dotted path into a document and fills the keys missing there from a
 * source; and `nested_update`, which cannot run to completion, beside
 * the update its body evidently intends.
 */
module Yml {
  import opened Wrappers
  import Text

  /**
   * A YAML node as PyYAML loads it. Mappings are keyed by strings and carry
   * no order: `yaml.dump` writes their keys sorted.
   */
  datatype Yaml =
    | YNull
    | YBool(b: bool)
    | YNum(n: int)
    | YStr(s: string)
    | YList(items: seq<Yaml>)
    | YMap(entries: map<string, Yaml>)

  /**
   * The walk of `update_path` along the pieces of `path.split(".")`: empty
   * pieces are skipped, a missing key raises `KeyError`, subscripting
   * anything but a mapping with a string raises `TypeError`.
   */
  function Walk(data: Yaml, parts: seq<string>): (r: Result<Yaml>)
    ensures r.Err? ==> r.error.KeyError? || r.error.TypeError?
    decreases |parts|
  {
    if parts == [] then Ok(data)
    else if parts[0] == "" then Walk(data, parts[1..])
    else if !data.YMap? then Err(TypeError("object is not subscriptable"))
    else if parts[0] !in data.entries then Err(KeyError(parts[0]))
    else Walk(data.entries[parts[0]], parts[1..])
  }

  /** The first non-empty piece: the top-level key the walk enters, if any. */
  function Head(parts: seq<string>): Option<string> {
    if parts == [] then None
    else if parts[0] == "" then Head(parts[1..])
    else Some(parts[0])
  }

  /**
   * The document once the node at the end of the walk is `v`: the change
   * `update_path` makes in place, seen from the root.
   */
  function Replace(data: Yaml, parts: seq<string>, v: Yaml): (r: Yaml)
    requires Walk(data, parts).Ok?
    ensures Walk(r, parts) == Ok(v)
    decreases |parts|
  {
    if parts == [] then v
    else if parts[0] == "" then Replace(data, parts[1..], v)
    else YMap(data.entries[parts[0] := Replace(data.entries[parts[0]], parts[1..], v)])
  }

  /**
   * Only the branch the walk enters changes: the other top-level keys keep
   * their values, and no key appears or goes.
   */
  lemma {:induction false} ReplaceKeepsSiblings(data: Yaml, parts: seq<string>, v: Yaml)
    requires Walk(data, parts).Ok? && Head(parts).Some?
    ensures data.YMap? && Replace(data, parts, v).YMap?
    ensures Replace(data, parts, v).entries.Keys == data.entries.Keys
    ensures forall k :: k in data.entries && k != Head(parts).value ==> Replace(data, parts, v).entries[k] == data.entries[k]
    decreases |parts|
  {
    if parts[0] == "" {
      ReplaceKeepsSiblings(data, parts[1..], v);
    }
  }

  /** Putting back the node the walk reaches leaves the document as it was. */
  lemma {:induction false} ReplaceSame(data: Yaml, parts: seq<string>)
    requires Walk(data, parts).Ok?
    ensures Replace(data, parts, Walk(data, parts).value) == data
    decreases |parts|
  {
    if parts != [] && parts[0] == "" {
      ReplaceSame(data, parts[1..]);
    } else if parts != [] {
      ReplaceSame(data.entries[parts[0]], parts[1..]);
    }
  }

  /** Replacing twice at the same place is replacing once. */
  lemma {:induction false} ReplaceTwice(data: Yaml, parts: seq<string>, v: Yaml)
    requires Walk(data, parts).Ok?
    ensures Replace(Replace(data, parts, v), parts, v) == Replace(data, parts, v)
    decreases |parts|
  {
    if parts != [] && parts[0] == "" {
      ReplaceTwice(data, parts[1..], v);
    } else if parts != [] {
      ReplaceTwice(data.entries[parts[0]], parts[1..], v);
    }
  }

  /** `getter(k)`: `source.get(k)` on a mapping, `getattr(source, k, None)` on an object; None when absent. */
  function Fetch(source: map<string, Yaml>, k: string): Yaml {
    if k in source then source[k] else YNull
  }

  /** `key` occurs in `s` as a substring. */
  predicate Substring(key: string, s: string) {
    exists i :: 0 <= i <= |s| && key <= s[i..]
  }

  /** `key in node`: a key of a mapping, an element of a list, a substring of a string; other nodes raise `TypeError`. */
  function Contains(node: Yaml, key: string): (r: Result<bool>)
    ensures r.Err? <==> node.YNull? || node.YBool? || node.YNum?
  {
    match node
    case YMap(m) => Ok(key in m)
    case YList(items) => Ok(YStr(key) in items)
    case YStr(s) => Ok(Substring(key, s))
    case _ => Err(TypeError("argument is not iterable"))
  }

  /**
   * The keys loop of `update_path` on the node the walk reached, key after
   * key: a key already there is left alone, a missing key with a value is
   * assigned, which only a mapping supports.
   */
  function Fill(node: Yaml, source: map<string, Yaml>, keys: seq<string>): (r: Result<Yaml>)
    ensures r.Ok? && !node.YMap? ==> r.value == node
    ensures r.Ok? && node.YMap? ==> r.value.YMap?
    decreases |keys|
  {
    if keys == [] then Ok(node)
    else
      match Fill(node, source, keys[..|keys| - 1])
      case Err(e) => Err(e)
      case Ok(cur) =>
        var k := keys[|keys| - 1];
        match Contains(cur, k)
        case Err(e) => Err(e)
        case Ok(present) =>
          if present || Fetch(source, k) == YNull then Ok(cur)
          else if cur.YMap? then Ok(YMap(cur.entries[k := Fetch(source, k)]))
          else Err(TypeError("object does not support item assignment"))
  }

  /**
   * The keys loop on a mapping: the keys it had keep their values, and the
   * keys added are exactly the listed ones that were missing and that the
   * source gives a value other than None, with that value.
   */
  function Filled(target: map<string, Yaml>, source: map<string, Yaml>, keys: seq<string>): (r: map<string, Yaml>)
    ensures forall k :: k in target ==> k in r && r[k] == target[k]
    ensures forall k :: k in r <==> k in target || (k in keys && Fetch(source, k) != YNull)
    ensures forall k :: k in r && k !in target ==> k in source && r[k] == source[k]
    decreases |keys|
  {
    if keys == [] then target
    else
      var before := Filled(target, source, keys[..|keys| - 1]);
      var k := keys[|keys| - 1];
      assert keys == keys[..|keys| - 1] + [k];
      if k !in before && Fetch(source, k) != YNull then before[k := Fetch(source, k)] else before
  }

  /** Once a key has raised, the later keys are never reached. */
  lemma {:induction false} FillStops(node: Yaml, source: map<string, Yaml>, keys: seq<string>, j: nat)
    requires j <= |keys| && Fill(node, source, keys[..j]).Err?
    ensures Fill(node, source, keys) == Fill(node, source, keys[..j])
    decreases |keys| - j
  {
    if j < |keys| {
      var init := keys[..|keys| - 1];
      assert init[..j] == keys[..j];
      FillStops(node, source, init, j);
    } else {
      assert keys[..j] == keys;
    }
  }

  /** On a mapping the keys loop never raises, and it gives the filled mapping. */
  lemma {:induction false} FillMap(m: map<string, Yaml>, source: map<string, Yaml>, keys: seq<string>)
    ensures Fill(YMap(m), source, keys) == Ok(YMap(Filled(m, source, keys)))
    decreases |keys|
  {
    if keys != [] {
      FillMap(m, source, keys[..|keys| - 1]);
    }
  }

  /** Filling a second time adds nothing. */
  lemma FilledTwice(target: map<string, Yaml>, source: map<string, Yaml>, keys: seq<string>)
    ensures Filled(Filled(target, source, keys), source, keys) == Filled(target, source, keys)
  {
    var once := Filled(target, source, keys);
    var twice := Filled(once, source, keys);
    assert forall k :: k in twice <==> k in once;
  }

  /** A keys loop that went through leaves its result as it is when run again. */
  lemma FillStable(node: Yaml, source: map<string, Yaml>, keys: seq<string>)
    requires Fill(node, source, keys).Ok?
    ensures Fill(Fill(node, source, keys).value, source, keys) == Fill(node, source, keys)
  {
    if node.YMap? {
      FillMap(node.entries, source, keys);
      FillMap(Filled(node.entries, source, keys), source, keys);
      FilledTwice(node.entries, source, keys);
    }
  }

  /** `update_path(data, path, source, keys)` as a whole: the walk, then the keys loop on the node it reached. */
  function Updated(data: Yaml, path: string, source: map<string, Yaml>, keys: seq<string>): Result<Yaml> {
    var parts := Text.Split(path, '.');
    match Walk(data, parts)
    case Err(e) => Err(e)
    case Ok(node) =>
      match Fill(node, source, keys)
      case Err(e) => Err(e)
      case Ok(filled) => Ok(Replace(data, parts, filled))
  }

  /** A second `update_path` with the same arguments changes nothing. */
  lemma UpdatedIdempotent(data: Yaml, path: string, source: map<string, Yaml>, keys: seq<string>)
    requires Updated(data, path, source, keys).Ok?
    ensures Updated(Updated(data, path, source, keys).value, path, source, keys) == Updated(data, path, source, keys)
  {
    var parts := Text.Split(path, '.');
    var node := Walk(data, parts).value;
    FillStable(node, source, keys);
    ReplaceTwice(data, parts, Fill(node, source, keys).value);
  }

  /**
   * On a document whose path leads to a mapping, `update_path` only adds
   * keys there: every key already present keeps its value, and each added
   * key is a listed one with the source's non-None value.
   */
  lemma UpdatedOnMapping(data: Yaml, path: string, source: map<string, Yaml>, keys: seq<string>)
    requires Walk(data, Text.Split(path, '.')).Ok? && Walk(data, Text.Split(path, '.')).value.YMap?
    ensures Updated(data, path, source, keys).Ok?
    ensures var parts := Text.Split(path, '.');
            var node := Walk(data, parts).value.entries;
            var after := Walk(Updated(data, path, source, keys).value, parts);
            && after.Ok? && after.value.YMap?
            && (forall k :: k in node ==> k in after.value.entries && after.value.entries[k] == node[k])
            && (forall k :: k in after.value.entries && k !in node ==> k in keys && k in source && after.value.entries[k] == source[k] != YNull)
  {
    FillMap(Walk(data, Text.Split(path, '.')).value.entries, source, keys);
  }

  /** `update_path`: the walk, then the keys loop, assigning into the node the walk reached. */
  method UpdatePath(data: Yaml, path: string, source: map<string, Yaml>, keys: seq<string>) returns (r: Result<Yaml>)
    ensures r == Updated(data, path, source, keys)
  {
    var parts := Text.Split(path, '.');
    var node := data;
    for i := 0 to |parts|
      invariant Walk(data, parts) == Walk(node, parts[i..])
    {
      assert parts[i..][1..] == parts[i + 1..];
      if parts[i] != "" {
        if !node.YMap? {
          return Err(TypeError("object is not subscriptable"));
        }
        if parts[i] !in node.entries {
          return Err(KeyError(parts[i]));
        }
        node := node.entries[parts[i]];
      }
    }
    var cur := node;
    for j := 0 to |keys|
      invariant Fill(node, source, keys[..j]) == Ok(cur)
    {
      assert keys[..j + 1][..j] == keys[..j];
      var key := keys[j];
      var present := Contains(cur, key);
      if present.Err? {
        FillStops(node, source, keys, j + 1);
        return Err(present.error);
      }
      if !present.value {
        var value := Fetch(source, key);
        if value != YNull {
          if !cur.YMap? {
            FillStops(node, source, keys, j + 1);
            return Err(TypeError("object does not support item assignment"));
          }
          cur := YMap(cur.entries[key := value]);
        }
      }
    }
    assert keys[..|keys|] == keys;
    return Ok(Replace(data, parts, cur));
  }

  /**
   * `nested_update`: a non-mapping `data` fails the first assertion, and
   * for a mapping the second assertion calls `isinstance` with three
   * arguments, which raises `TypeError`; it never returns normally.
   */
  function NestedUpdate(data: Yaml, source: Yaml): (r: Result<Yaml>)
    ensures r.Err?
    ensures r.error.AssertionError? <==> !data.YMap?
    ensures r.error.TypeError? <==> data.YMap?
  {
    if !data.YMap? then Err(AssertionError("data doit être un dictionnaire"))
    else Err(TypeError("isinstance expected 2 arguments, got 3"))
  }

  // ---------------------------------------------------------------------
  // `nested_update` with its second assertion as intended

  /**
   * Whether `nested_update` gets through its assertions once the second one
   * reads `isinstance(source, dict)`: both nodes are mappings, and so is
   * every pair it recurses into, a nested mapping of `data` under a key
   * that `source` also has.
   */
  predicate Mergeable(data: Yaml, source: Yaml)
    decreases data
  {
    && data.YMap? && source.YMap?
    && forall k :: k in data.entries && data.entries[k].YMap? && k in source.entries ==>
         Mergeable(data.entries[k], source.entries[k])
  }

  /**
   * The document after the loop over the keys of `data`: a nested mapping
   * is updated from the source's node under the same key, a list is
   * extended by the source's list under that key, and any other value
   * stays as it is.
   */
  function Merged(data: Yaml, source: Yaml): (r: Yaml)
    requires Mergeable(data, source)
    ensures r.YMap? && r.entries.Keys == data.entries.Keys
    decreases data
  {
    YMap(map k | k in data.entries ::
      var v := data.entries[k];
      if v.YMap? && k in source.entries then Merged(v, source.entries[k])
      else if v.YList? && k in source.entries && source.entries[k].YList? then YList(v.items + source.entries[k].items)
      else v)
  }

  /** The corrected `nested_update`: it returns exactly when both assertions hold at every level. */
  function NestedUpdateIntended(data: Yaml, source: Yaml): (r: Result<Yaml>)
    ensures r.Ok? <==> Mergeable(data, source)
    ensures r.Err? ==> r.error.AssertionError?
  {
    if Mergeable(data, source) then Ok(Merged(data, source))
    else Err(AssertionError("source doit être un dictionnaire"))
  }

  /**
   * `b` is `a` with some lists grown at their end: the same mappings with
   * the same keys at every depth, each list a prefix of its counterpart,
   * and every other value unchanged.
   */
  predicate Extends(a: Yaml, b: Yaml)
    decreases a
  {
    match a
    case YMap(m) => b.YMap? && b.entries.Keys == m.Keys && forall k :: k in m ==> Extends(m[k], b.entries[k])
    case YList(items) => b.YList? && items <= b.items
    case _ => b == a
  }

  /** The update only appends to lists: no key is added or dropped and no scalar changes, at any depth. */
  lemma {:induction false} MergedExtends(data: Yaml, source: Yaml)
    requires Mergeable(data, source)
    ensures Extends(data, Merged(data, source))
    decreases data
  {
    var r := Merged(data, source);
    forall k | k in data.entries
      ensures Extends(data.entries[k], r.entries[k])
    {
      var v := data.entries[k];
      if v.YMap? && k in source.entries {
        MergedExtends(v, source.entries[k]);
      } else if v.YList? && k in source.entries && source.entries[k].YList? {
        assert v.items <= v.items + source.entries[k].items;
      } else {
        ExtendsRefl(v);
      }
    }
  }

  lemma {:induction false} ExtendsRefl(a: Yaml)
    ensures Extends(a, a)
    decreases a
  {
    match a
    case YMap(m) =>
      forall k | k in m
        ensures Extends(m[k], m[k])
      {
        ExtendsRefl(m[k]);
      }
    case _ =>
  }

  /** A node holding no list at any depth. */
  predicate ListFree(y: Yaml)
    decreases y
  {
    match y
    case YList(_) => false
    case YMap(m) => forall k :: k in m ==> ListFree(m[k])
    case _ => true
  }

  /** A source without lists leaves the document as it was: only lists ever change. */
  lemma {:induction false} MergedListFree(data: Yaml, source: Yaml)
    requires Mergeable(data, source) && ListFree(source)
    ensures Merged(data, source) == data
    decreases data
  {
    var r := Merged(data, source);
    forall k | k in data.entries
      ensures r.entries[k] == data.entries[k]
    {
      var v := data.entries[k];
      if v.YMap? && k in source.entries {
        MergedListFree(v, source.entries[k]);
      }
    }
  }

  /**
   * Two empty mappings: the update as written raises `TypeError`, where the
   * corrected one returns the empty mapping.
   */
  lemma AsWrittenNeverUpdates()
    ensures NestedUpdate(YMap(map[]), YMap(map[])) == Err(TypeError("isinstance expected 2 arguments, got 3"))
    ensures NestedUpdateIntended(YMap(map[]), YMap(map[])) == Ok(YMap(map[]))
  {
    assert Merged(YMap(map[]), YMap(map[])).entries == map[];
  }
}
