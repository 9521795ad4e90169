/**
 * The part of POSIX `pathlib` the modelled code uses. A path is the tuple of
 * its `parts`: an absolute path starts with the root part "/", and every
 * other part is a non-empty name that is neither "." nor contains "/".
 * `Path.resolve()` is lexical normalisation against a working directory
 * given as a parameter (symbolic links are not followed).
 */
module Paths {
  import opened Wrappers
  import opened Text

  type Path = seq<string>

  const Root: Path := ["/"]

  predicate IsPart(s: string) {
    s != "" && s != "." && '/' !in s
  }

  predicate Plain(ps: seq<string>) {
    forall i :: 0 <= i < |ps| ==> IsPart(ps[i])
  }

  predicate IsAbsolute(p: Path) {
    |p| > 0 && p[0] == "/"
  }

  /** The parts after the root, if any. */
  function Tail(p: Path): seq<string> {
    if IsAbsolute(p) then p[1..] else p
  }

  /** A value `Path(...).parts` can take. */
  predicate WellFormed(p: Path) {
    Plain(Tail(p))
  }

  /** What `resolve()` returns: absolute, without "..". */
  predicate Normal(p: Path) {
    IsAbsolute(p) && Plain(p[1..]) && forall i :: 1 <= i < |p| ==> p[i] != ".."
  }

  /** Drops the empty and "." pieces of a split path string. */
  function Clean(pieces: seq<string>): (r: seq<string>)
    ensures (forall i :: 0 <= i < |pieces| ==> '/' !in pieces[i]) ==> Plain(r)
    ensures |r| <= |pieces|
  {
    if pieces == [] then []
    else if pieces[0] == "" || pieces[0] == "." then Clean(pieces[1..])
    else [pieces[0]] + Clean(pieces[1..])
  }

  /** `Path(s).parts` for a POSIX string (the special "//" root is not modelled). */
  function Parse(s: string): (r: Path)
    ensures WellFormed(r)
    ensures IsAbsolute(r) <==> StartsWith(s, "/")
  {
    var pieces := Split(s, '/');
    SplitNoSep(s, '/');
    CleanNoSep(pieces);
    if StartsWith(s, "/") then Root + Clean(pieces) else Clean(pieces)
  }

  lemma {:induction false} CleanNoSep(pieces: seq<string>)
    requires forall i :: 0 <= i < |pieces| ==> '/' !in pieces[i]
    ensures Clean(pieces) == [] || Clean(pieces)[0] != "/"
  {
    if pieces != [] {
      CleanNoSep(pieces[1..]);
    }
  }

  lemma SplitNoSep(s: string, sep: char)
    ensures forall i :: 0 <= i < |Split(s, sep)| ==> sep !in Split(s, sep)[i]
  {
  }

  /** `p.as_posix()` (also `str(p)` on POSIX). */
  function ToStr(p: Path): string
    requires WellFormed(p)
  {
    if IsAbsolute(p) then "/" + JoinWith("/", p[1..])
    else if p == [] then "."
    else JoinWith("/", p)
  }

  /** Splitting a string that holds no separator gives it back whole. */
  lemma {:induction false} SplitNone(x: string, sep: char)
    requires sep !in x
    ensures Split(x, sep) == [x]
  {
    if x != [] {
      SplitNone(x[1..], sep);
      assert [x[0]] + x[1..] == x;
    }
  }

  /** A separator after a separator-free prefix ends the first piece. */
  lemma {:induction false} SplitAfter(x: string, y: string, sep: char)
    requires sep !in x
    ensures Split(x + [sep] + y, sep) == [x] + Split(y, sep)
  {
    if x == [] {
      assert x + [sep] + y == [sep] + y;
      assert ([sep] + y)[1..] == y;
    } else {
      assert (x + [sep] + y)[1..] == x[1..] + [sep] + y;
      SplitAfter(x[1..], y, sep);
      assert [x[0]] + x[1..] == x;
    }
  }

  /** Joining separator-free pieces and splitting again gives the pieces back. */
  lemma {:induction false} SplitJoin(parts: seq<string>, sep: char)
    requires |parts| >= 1
    requires forall i :: 0 <= i < |parts| ==> sep !in parts[i]
    ensures Split(JoinWith([sep], parts), sep) == parts
  {
    if |parts| == 1 {
      SplitNone(parts[0], sep);
    } else {
      SplitJoin(parts[1..], sep);
      SplitAfter(parts[0], JoinWith([sep], parts[1..]), sep);
    }
  }

  lemma {:induction false} CleanPlain(ps: seq<string>)
    requires Plain(ps)
    ensures Clean(ps) == ps
  {
    if ps != [] {
      CleanPlain(ps[1..]);
    }
  }

  /** Parsing the string of a path gives the path back: `Path(str(p)).parts == p.parts`. */
  lemma ParseToStr(p: Path)
    requires WellFormed(p)
    ensures Parse(ToStr(p)) == p
  {
    if IsAbsolute(p) {
      ParseAbsolute(p);
    } else if p == [] {
      ParseDot();
    } else {
      SplitJoin(p, '/');
      CleanPlain(p);
      assert ToStr(p)[0] == p[0][0];
    }
  }

  lemma ParseDot()
    ensures Parse(".") == []
  {
    var s := ".";
    assert s[1..] == [] && s[0] != '/';
    assert Split(s[1..], '/') == [""];
    assert Split(s, '/') == [[s[0]] + ""];
  }

  lemma ParseAbsolute(p: Path)
    requires WellFormed(p) && IsAbsolute(p)
    ensures Parse(ToStr(p)) == p
  {
    var rest := p[1..];
    var j := JoinWith("/", rest);
    assert ToStr(p) == [] + ['/'] + j;
    SplitAfter([], j, '/');
    var pieces := Split(j, '/');
    assert ([""] + pieces)[1..] == pieces;
    if rest == [] {
      assert pieces == [""];
    } else {
      SplitJoin(rest, '/');
      CleanPlain(rest);
    }
    assert Clean([""] + pieces) == Clean(pieces) == rest;
    assert p == Root + rest;
  }

  /** `Path(a, b)` and `a / b`: an absolute `b` replaces `a`. */
  function Join(a: Path, b: Path): (r: Path)
    ensures WellFormed(a) && WellFormed(b) ==> WellFormed(r)
    ensures IsAbsolute(b) ==> r == b
    ensures !IsAbsolute(b) ==> r == a + b
  {
    if IsAbsolute(b) then b
    else
      assert WellFormed(a) && WellFormed(b) ==> Tail(a + b) == Tail(a) + b;
      a + b
  }

  /** One step of lexical normalisation: ".." climbs, stopping at the root. */
  function Step(acc: Path, part: string): (r: Path)
    requires Normal(acc)
    requires IsPart(part)
    ensures Normal(r)
  {
    if part == ".." then (if |acc| > 1 then acc[..|acc| - 1] else acc)
    else acc + [part]
  }

  function NormFrom(acc: Path, rest: seq<string>): (r: Path)
    requires Normal(acc)
    requires Plain(rest)
    ensures Normal(r)
    decreases |rest|
  {
    if rest == [] then acc else NormFrom(Step(acc, rest[0]), rest[1..])
  }

  /** `p.resolve()` with `cwd` as the working directory. */
  function Resolve(p: Path, cwd: Path): (r: Path)
    requires WellFormed(p)
    requires Normal(cwd)
    ensures Normal(r)
  {
    NormFrom(if IsAbsolute(p) then Root else cwd, Tail(p))
  }

  lemma {:induction false} NormFromNormal(acc: Path, rest: seq<string>)
    requires Normal(acc)
    requires Plain(rest)
    requires Normal(acc + rest)
    ensures NormFrom(acc, rest) == acc + rest
    decreases |rest|
  {
    if rest != [] {
      assert (acc + rest)[|acc|] == rest[0];
      assert Step(acc, rest[0]) == acc + [rest[0]];
      assert acc + [rest[0]] + rest[1..] == acc + rest;
      assert (acc + [rest[0]]) + rest[1..] == acc + rest;
      NormFromNormal(acc + [rest[0]], rest[1..]);
    }
  }

  /** A resolved path resolves to itself, so `resolve()` is idempotent. */
  lemma ResolveNormal(p: Path, cwd: Path)
    requires Normal(p)
    requires Normal(cwd)
    ensures Resolve(p, cwd) == p
  {
    assert Root + p[1..] == p;
    NormFromNormal(Root, p[1..]);
  }

  /** Resolving keeps a last part that is not "..". */
  lemma {:induction false} NormFromLast(acc: Path, rest: seq<string>)
    requires Normal(acc) && Plain(rest)
    requires rest != [] && rest[|rest| - 1] != ".."
    ensures |NormFrom(acc, rest)| >= 2
    ensures NormFrom(acc, rest)[|NormFrom(acc, rest)| - 1] == rest[|rest| - 1]
    decreases |rest|
  {
    if |rest| > 1 {
      NormFromLast(Step(acc, rest[0]), rest[1..]);
    }
  }

  /** `p.resolve().name == p.name` when that name is a real part and not "..". */
  lemma ResolveKeepsName(p: Path, cwd: Path)
    requires WellFormed(p) && Normal(cwd)
    requires Name(p) != "" && Name(p) != ".."
    ensures Name(Resolve(p, cwd)) == Name(p)
  {
    NormFromLast(if IsAbsolute(p) then Root else cwd, Tail(p));
  }

  /** Renaming the last part of a resolved path keeps it resolved. */
  lemma WithNameNormal(p: Path, n: string)
    requires Normal(p) && Name(p) != "" && IsPart(n) && n != ".."
    ensures WithName(p, n).Ok? && Normal(WithName(p, n).value)
  {
    var q := WithName(p, n).value;
    assert q == p[..|p| - 1] + [n];
    assert forall i :: 1 <= i < |q| ==> q[i] == (if i < |p| - 1 then p[i] else n);
  }

  /** `a in p.parents`: a proper prefix, and never "." for an absolute path. */
  predicate IsStrictAncestor(a: Path, p: Path) {
    |a| < |p| && p[..|a|] == a && (IsAbsolute(p) ==> |a| >= 1)
  }

  /** `p == base or base in p.parents` (`p.is_relative_to(base)`). */
  predicate IsWithin(p: Path, base: Path) {
    p == base || IsStrictAncestor(base, p)
  }

  /** `p.relative_to(base)`: the remaining parts, or `ValueError`. */
  function RelativeTo(p: Path, base: Path): (r: Result<Path>)
    ensures r.Ok? <==> IsWithin(p, base)
    ensures r.Ok? ==> base + r.value == p
  {
    if IsWithin(p, base) then Ok(p[|base|..])
    else Err(ValueError("is not in the subpath"))
  }

  /** The parts of a well-formed path below one of its bases are well-formed. */
  lemma RelativeWellFormed(p: Path, base: Path)
    requires WellFormed(p) && IsWithin(p, base)
    ensures WellFormed(p[|base|..])
  {
    var r := p[|base|..];
    if |base| > 0 {
      assert forall i :: 0 <= i < |r| ==> r[i] == p[i + |base|];
      assert forall i :: 1 <= i < |p| ==> IsPart(p[i]);
      assert forall i :: 0 <= i < |r| ==> IsPart(r[i]);
      assert r == [] || !IsAbsolute(r);
    } else {
      assert r == p;
    }
  }

  /** A relative path that only descends: plain parts, none of them "..". */
  predicate Descending(p: Path) {
    Plain(p) && forall i :: 0 <= i < |p| ==> p[i] != ".."
  }

  lemma NormalWellFormed(p: Path)
    requires Normal(p)
    ensures WellFormed(p)
  {
  }

  lemma DescendingWellFormed(p: Path)
    requires Descending(p)
    ensures WellFormed(p) && !IsAbsolute(p)
  {
    assert p != [] ==> IsPart(p[0]);
  }

  /** Descending from a resolved path gives a resolved path, and joining is appending. */
  lemma DescendNormal(p: Path, q: Path)
    requires Normal(p) && Descending(q)
    ensures Join(p, q) == p + q && Normal(p + q)
  {
    assert q != [] ==> IsPart(q[0]);
    var r := p + q;
    assert forall i :: 1 <= i < |r| ==> r[i] == if i < |p| then p[i] else q[i - |p|];
  }

  /** `p.parent`: the root and "." are their own parents. */
  function Parent(p: Path): (r: Path)
    ensures |r| <= |p|
    ensures p == [] || p == Root ==> r == p
    ensures p != [] && p != Root ==> IsStrictAncestor(r, p) && |r| == |p| - 1
  {
    if p == [] || p == Root then p else p[..|p| - 1]
  }

  /** The parent of a resolved path is resolved. */
  lemma ParentNormal(p: Path)
    requires Normal(p)
    ensures Normal(Parent(p))
  {
    if p != Root {
      assert forall i :: 1 <= i < |Parent(p)| ==> Parent(p)[i] == p[i];
    }
  }

  /** `p.name`: the last part, or "" for the root and ".". */
  function Name(p: Path): (r: string)
    ensures Tail(p) == [] ==> r == ""
    ensures Tail(p) != [] ==> r == p[|p| - 1]
  {
    if Tail(p) == [] then "" else p[|p| - 1]
  }

  /** `name.rfind(c)`, -1 when absent. */
  function LastIndexOf(s: string, c: char): (r: int)
    ensures -1 <= r < |s|
    ensures r >= 0 ==> s[r] == c
    ensures forall i :: r < i < |s| ==> s[i] != c
    ensures r == -1 ==> c !in s
  {
    if s == [] then -1
    else if s[|s| - 1] == c then |s| - 1
    else LastIndexOf(s[..|s| - 1], c)
  }

  /** Where the suffix of a name starts, when it has one. */
  function SuffixStart(name: string): (r: Option<nat>)
    ensures r.Some? ==> 0 < r.value < |name| - 1 && name[r.value] == '.'
    ensures r.Some? ==> forall i :: r.value < i < |name| ==> name[i] != '.'
  {
    var i := LastIndexOf(name, '.');
    if 0 < i < |name| - 1 then Some(i) else None
  }

  /** `p.suffix` of a name: from its last "." on, unless that dot leads or ends it. */
  function NameSuffix(name: string): (r: string)
    ensures r == [] || (r[0] == '.' && |r| >= 2 && '.' !in r[1..])
    ensures |r| < |name| || r == []
  {
    match SuffixStart(name)
    case None => ""
    case Some(i) => name[i..]
  }

  /** `p.stem` of a name: the name without its suffix. */
  function NameStem(name: string): (r: string)
    ensures r + NameSuffix(name) == name
    ensures |name| > 0 ==> |r| > 0 && r[0] == name[0]
  {
    match SuffixStart(name)
    case None => name
    case Some(i) => assert name[..i] + name[i..] == name; name[..i]
  }

  /** The stem of `pre.tail`, for a dot-free non-empty `tail` and a non-empty `pre`. */
  lemma LastDotStem(pre: string, tail: string)
    requires pre != [] && tail != [] && '.' !in tail
    ensures NameStem(pre + "." + tail) == pre
  {
    var w := pre + "." + tail;
    var k := |pre|;
    assert w[k] == '.';
    assert forall i :: k < i < |w| ==> w[i] == tail[i - k - 1];
    assert LastIndexOf(w, '.') == k;
    assert w[..k] == pre;
  }

  function Suffix(p: Path): string {
    NameSuffix(Name(p))
  }

  function Stem(p: Path): string {
    NameStem(Name(p))
  }

  /** The name of a well-formed path is a part, or "" for the root and ".". */
  lemma NameIsPart(p: Path)
    requires WellFormed(p)
    ensures Name(p) == "" || IsPart(Name(p))
  {
    if Tail(p) != [] {
      assert Name(p) == Tail(p)[|Tail(p)| - 1];
    }
  }

  /** The suffix of a well-formed path is a valid `with_suffix` argument; its stem has no "/". */
  lemma SuffixIsValid(p: Path)
    requires WellFormed(p)
    ensures ValidSuffix(Suffix(p)) && '/' !in Stem(p)
  {
    NameIsPart(p);
    var name := Name(p);
    assert name == Stem(p) + Suffix(p);
    assert forall i :: 0 <= i < |Suffix(p)| ==> Suffix(p)[i] == name[i + |Stem(p)|];
    assert forall i :: 0 <= i < |Stem(p)| ==> Stem(p)[i] == name[i];
  }

  /** `p.with_name(n)`: `ValueError` for an empty current name or an invalid new one. */
  function WithName(p: Path, n: string): (r: Result<Path>)
    ensures r.Ok? <==> Name(p) != "" && IsPart(n)
    ensures r.Ok? ==> Parent(r.value) == Parent(p) && Name(r.value) == n
    ensures r.Ok? && WellFormed(p) ==> WellFormed(r.value)
  {
    if Name(p) == "" || !IsPart(n) then Err(ValueError("Invalid name"))
    else
      var q := p[..|p| - 1] + [n];
      assert q[..|q| - 1] == p[..|p| - 1];
      assert IsAbsolute(p) ==> Tail(q) == Tail(p)[..|Tail(p)| - 1] + [n];
      Ok(q)
  }

  /** A valid argument of `with_suffix`: empty, or a dot and at least one more character. */
  predicate ValidSuffix(suf: string) {
    '/' !in suf && (suf == [] || (suf[0] == '.' && suf != "."))
  }

  /** `p.with_suffix(suf)`: replaces the current suffix, or appends when there is none. */
  function WithSuffix(p: Path, suf: string): (r: Result<Path>)
    ensures r.Ok? <==> ValidSuffix(suf) && Name(p) != "" && IsPart(NameStem(Name(p)) + suf)
    ensures WellFormed(p) && ValidSuffix(suf) && Name(p) != "" && NameStem(Name(p)) + suf != "." ==> r.Ok?
    ensures r.Ok? ==> Name(r.value) == NameStem(Name(p)) + suf && Parent(r.value) == Parent(p)
    ensures r.Ok? && WellFormed(p) ==> WellFormed(r.value)
  {
    var n := NameStem(Name(p)) + suf;
    if !ValidSuffix(suf) || Name(p) == "" then Err(ValueError("Invalid suffix"))
    else if WellFormed(p) then StemPart(p, suf); WithName(p, n)
    else WithName(p, n)
  }

  lemma StemPart(p: Path, suf: string)
    requires WellFormed(p) && Name(p) != "" && ValidSuffix(suf)
    ensures NameStem(Name(p)) + suf != "" && '/' !in NameStem(Name(p)) + suf
  {
    var name := Name(p);
    assert IsPart(name) by { assert name == Tail(p)[|Tail(p)| - 1]; }
    assert name == NameStem(name) + NameSuffix(name);
    if NameSuffix(name) != [] {
      assert |NameStem(name)| > 0;
    }
    assert forall c :: c in NameStem(name) ==> c in name;
  }

  /** `p.with_stem(s)`, which is `p.with_name(s + p.suffix)`. */
  function WithStem(p: Path, s: string): (r: Result<Path>)
    ensures r.Ok? <==> Name(p) != "" && IsPart(s + Suffix(p))
    ensures r.Ok? ==> Name(r.value) == s + Suffix(p) && Parent(r.value) == Parent(p)
    ensures r.Ok? && WellFormed(p) ==> WellFormed(r.value)
  {
    WithName(p, s + Suffix(p))
  }

  /** Code-point order on strings, shorter prefix first (Python `str <`). */
  function StrLess(a: string, b: string): bool {
    if a == [] then b != []
    else if b == [] then false
    else if a[0] == b[0] then StrLess(a[1..], b[1..])
    else a[0] < b[0]
  }

  /** Pathlib's `<` on POSIX paths: lexicographic on the parts. */
  function PathLess(a: Path, b: Path): bool {
    if a == [] then b != []
    else if b == [] then false
    else if a[0] == b[0] then PathLess(a[1..], b[1..])
    else StrLess(a[0], b[0])
  }

  /** A path never sorts before a path it extends. */
  lemma {:induction false} PrefixNotLess(base: Path, p: Path)
    requires |base| <= |p| && p[..|base|] == base
    ensures !PathLess(p, base)
  {
    if base != [] {
      assert p[1..][..|base| - 1] == base[1..];
      PrefixNotLess(base[1..], p[1..]);
    }
  }

  /** Anything inside `base` (or equal to it) is not `< base`. */
  lemma WithinNotLess(p: Path, base: Path)
    requires IsWithin(p, base)
    ensures !PathLess(p, base)
  {
    PrefixNotLess(base, p);
  }
}
