/**
 * The path helpers of `utils/path.py`: resolving a reference against a base,
 * the staleness test used by every builder, making a string safe as a file
 * name, and naming a directory after a path's digest.
 */
module PathUtils {
  import opened Wrappers
  import opened Text
  import opened Paths
  import opened FileSystem

  /** `resolve_path(path, relative_to)`. */
  function ResolvePath(path: Path, relativeTo: Option<Path>, cwd: Path): (r: Path)
    requires WellFormed(path) && Normal(cwd)
    requires relativeTo.Some? ==> WellFormed(relativeTo.value)
    ensures Normal(r)
    ensures relativeTo.None? ==> r == Resolve(path, cwd)
    ensures relativeTo.Some? ==> r == Resolve(Join(relativeTo.value, path), cwd)
  {
    match relativeTo
    case None => Resolve(path, cwd)
    case Some(base) => Resolve(Join(base, path), cwd)
  }

  /** An absolute `path` makes `relative_to` irrelevant. */
  lemma AbsoluteIgnoresBase(path: Path, a: Option<Path>, b: Option<Path>, cwd: Path)
    requires WellFormed(path) && Normal(cwd) && IsAbsolute(path)
    requires a.Some? ==> WellFormed(a.value)
    requires b.Some? ==> WellFormed(b.value)
    ensures ResolvePath(path, a, cwd) == ResolvePath(path, b, cwd)
  {
  }

  /** Against an absolute base, the working directory plays no part. */
  lemma AbsoluteBaseIgnoresCwd(path: Path, base: Path, cwd1: Path, cwd2: Path)
    requires WellFormed(path) && WellFormed(base) && IsAbsolute(base)
    requires Normal(cwd1) && Normal(cwd2)
    ensures ResolvePath(path, Some(base), cwd1) == ResolvePath(path, Some(base), cwd2)
  {
  }

  /** Resolving an already resolved path again, against any base, changes nothing. */
  lemma ResolvePathIdempotent(path: Path, base: Option<Path>, again: Option<Path>, cwd: Path)
    requires WellFormed(path) && Normal(cwd)
    requires base.Some? ==> WellFormed(base.value)
    requires again.Some? ==> WellFormed(again.value)
    ensures ResolvePath(ResolvePath(path, base, cwd), again, cwd) == ResolvePath(path, base, cwd)
  {
    var r := ResolvePath(path, base, cwd);
    ResolveNormal(r, cwd);
  }

  /** The staleness test in modification-time mode: a missing side counts as modified. */
  predicate Modified(fs: FS, path: Path, reference: Path) {
    !Exists(fs, path) || !Exists(fs, reference) || fs.nodes[path].mtime > fs.nodes[reference].mtime
  }

  /**
   * `has_been_modified(path, reference, hash)`; `digest` stands for the SHA-256
   * hex digest of a file's content. Opening a directory for hashing raises.
   */
  function HasBeenModified(fs: FS, path: Path, reference: Path, hash: bool, digest: string -> string): (r: Result<bool>)
    ensures !Exists(fs, path) || !Exists(fs, reference) ==> r == Ok(true)
    ensures !hash ==> r == Ok(Modified(fs, path, reference))
    ensures hash && IsFile(fs, path) && IsFile(fs, reference) ==>
      r == Ok(digest(fs.nodes[path].content) != digest(fs.nodes[reference].content))
    ensures hash && Exists(fs, path) && Exists(fs, reference) && (IsDir(fs, path) || IsDir(fs, reference)) ==>
      r.Err? && r.error.IsADirectoryError?
  {
    if !Exists(fs, path) || !Exists(fs, reference) then Ok(true)
    else if !hash then Ok(fs.nodes[path].mtime > fs.nodes[reference].mtime)
    else if IsDir(fs, path) || IsDir(fs, reference) then Err(IsADirectoryError("open"))
    else Ok(digest(fs.nodes[path].content) != digest(fs.nodes[reference].content))
  }

  /** Equal modification times mean "not modified": the comparison is strict. */
  lemma EqualTimesNotModified(fs: FS, path: Path, reference: Path, digest: string -> string)
    requires Exists(fs, path) && Exists(fs, reference)
    requires fs.nodes[path].mtime == fs.nodes[reference].mtime
    ensures HasBeenModified(fs, path, reference, false, digest) == Ok(false)
  {
  }

  /** In hash mode identical contents are "not modified", whatever the timestamps. */
  lemma SameContentNotModified(fs: FS, path: Path, reference: Path, digest: string -> string)
    requires IsFile(fs, path) && IsFile(fs, reference)
    requires fs.nodes[path].content == fs.nodes[reference].content
    ensures HasBeenModified(fs, path, reference, true, digest) == Ok(false)
  {
  }

  /** The characters always replaced: `<>:"/\|?*` and the control characters 0 to 31. */
  predicate BaseProhibited(c: char) {
    || c == '<' || c == '>' || c == ':' || c == '"' || c == '/'
    || c == '\\' || c == '|' || c == '?' || c == '*' || c <= '\U{1F}'
  }

  predicate Prohibited(c: char, extra: set<char>) {
    BaseProhibited(c) || c in extra
  }

  /** The `re.sub(prohibited, '_', part)` step. */
  function ReplaceProhibited(s: string, extra: set<char>): (r: string)
    ensures |r| == |s|
    ensures forall i :: 0 <= i < |s| ==> r[i] == (if Prohibited(s[i], extra) then '_' else s[i])
  {
    seq(|s|, i requires 0 <= i < |s| => if Prohibited(s[i], extra) then '_' else s[i])
  }

  const ReservedNames: set<string> := {
    "CON", "PRN", "AUX", "NUL",
    "COM1", "COM2", "COM3", "COM4", "COM5", "COM6", "COM7", "COM8", "COM9",
    "LPT1", "LPT2", "LPT3", "LPT4", "LPT5", "LPT6", "LPT7", "LPT8", "LPT9"
  }

  const DotSpace: set<char> := {'.', ' '}

  /** `sanitize_path_part(part, extra)`. */
  function SanitizePathPart(part: string, extra: set<char>): (r: string)
    ensures r != []
    ensures forall i :: 0 <= i < |r| ==> !BaseProhibited(r[i])
    ensures '_' !in extra ==> r == "unnamed" || forall i :: 0 <= i < |r| ==> r[i] !in extra
    ensures r[0] !in DotSpace && r[|r| - 1] !in DotSpace
    ensures Upper(r) !in ReservedNames
  {
    NamedFacts(part, extra);
    Named(StripChars(ReplaceProhibited(part, extra), DotSpace))
  }

  /** The reserved-name and empty-name steps. */
  function Named(clean: string): string {
    if Upper(clean) in ReservedNames then clean + "_" else if clean == [] then "unnamed" else clean
  }

  lemma NamedFacts(part: string, extra: set<char>)
    ensures var r := Named(StripChars(ReplaceProhibited(part, extra), DotSpace));
      && r != []
      && (forall i :: 0 <= i < |r| ==> !BaseProhibited(r[i]))
      && ('_' !in extra ==> r == "unnamed" || forall i :: 0 <= i < |r| ==> r[i] !in extra)
      && r[0] !in DotSpace && r[|r| - 1] !in DotSpace
      && Upper(r) !in ReservedNames
  {
    CleanChars(part, extra);
    NamedFactsOf(StripChars(ReplaceProhibited(part, extra), DotSpace), extra);
  }

  lemma NamedFactsOf(clean: string, extra: set<char>)
    requires forall c :: c in clean ==> !BaseProhibited(c) && ('_' !in extra ==> c !in extra)
    requires clean != [] ==> clean[0] !in DotSpace && clean[|clean| - 1] !in DotSpace
    ensures Named(clean) != []
    ensures forall i :: 0 <= i < |Named(clean)| ==> !BaseProhibited(Named(clean)[i])
    ensures '_' !in extra ==> Named(clean) == "unnamed" || forall i :: 0 <= i < |Named(clean)| ==> Named(clean)[i] !in extra
    ensures Named(clean)[0] !in DotSpace && Named(clean)[|Named(clean)| - 1] !in DotSpace
    ensures Upper(Named(clean)) !in ReservedNames
  {
    var reserved := Upper(clean) in ReservedNames;
    if reserved {
      UnderscoreNotReserved(clean);
      assert |Upper(clean)| >= 3;
    } else if clean == [] {
      UnnamedNotReserved();
    }
    ShapeOf(clean, extra, reserved, Named(clean));
  }

  lemma ShapeOf(clean: string, extra: set<char>, reserved: bool, r: string)
    requires forall c :: c in clean ==> !BaseProhibited(c) && ('_' !in extra ==> c !in extra)
    requires clean != [] ==> clean[0] !in DotSpace && clean[|clean| - 1] !in DotSpace
    requires reserved ==> clean != []
    requires r == if reserved then clean + "_" else if clean == [] then "unnamed" else clean
    ensures r != []
    ensures forall i :: 0 <= i < |r| ==> !BaseProhibited(r[i])
    ensures '_' !in extra ==> r == "unnamed" || forall i :: 0 <= i < |r| ==> r[i] !in extra
    ensures r[0] !in DotSpace && r[|r| - 1] !in DotSpace
  {
    if reserved {
      forall i | 0 <= i < |r|
        ensures !BaseProhibited(r[i]) && ('_' !in extra ==> r[i] !in extra)
      {
        if i < |clean| {
          assert r[i] == clean[i] && clean[i] in clean;
        }
      }
    } else if clean != [] {
      forall i | 0 <= i < |r|
        ensures !BaseProhibited(r[i]) && ('_' !in extra ==> r[i] !in extra)
      {
        assert r[i] in clean;
      }
    }
  }

  lemma CleanChars(part: string, extra: set<char>)
    ensures forall c :: c in StripChars(ReplaceProhibited(part, extra), DotSpace) ==>
      !BaseProhibited(c) && ('_' !in extra ==> c !in extra)
  {
    var replaced := ReplaceProhibited(part, extra);
    forall c | c in replaced
      ensures !BaseProhibited(c) && ('_' !in extra ==> c !in extra)
    {
      var i :| 0 <= i < |replaced| && replaced[i] == c;
    }
  }

  lemma UnderscoreNotReserved(s: string)
    ensures Upper(s + "_") !in ReservedNames
  {
    var u := Upper(s + "_");
    assert u[|u| - 1] == '_';
  }

  lemma UnnamedNotReserved()
    ensures Upper("unnamed") !in ReservedNames
  {
    assert |Upper("unnamed")| == 7;
  }

  /** A reserved Windows name gets an underscore appended. */
  lemma SanitizeReserved(part: string, extra: set<char>)
    requires Upper(StripChars(ReplaceProhibited(part, extra), DotSpace)) in ReservedNames
    ensures SanitizePathPart(part, extra) == StripChars(ReplaceProhibited(part, extra), DotSpace) + "_"
  {
  }

  /** Sanitising twice is sanitising once, when the extra characters spare `_` and "unnamed". */
  lemma SanitizeIdempotent(part: string, extra: set<char>)
    requires '_' !in extra
    requires forall c :: c in "unnamed" ==> c !in extra
    ensures SanitizePathPart(SanitizePathPart(part, extra), extra) == SanitizePathPart(part, extra)
  {
    var r := SanitizePathPart(part, extra);
    assert forall i :: 0 <= i < |r| ==> !Prohibited(r[i], extra);
    NoProhibitedFixed(r, extra);
    StripNothing(r, DotSpace);
    if Upper(r) in ReservedNames {
      assert false;
    }
  }

  lemma NoProhibitedFixed(s: string, extra: set<char>)
    requires forall i :: 0 <= i < |s| ==> !Prohibited(s[i], extra)
    ensures ReplaceProhibited(s, extra) == s
  {
  }

  lemma StripNothing(s: string, cs: set<char>)
    requires s != [] && s[0] !in cs && s[|s| - 1] !in cs
    ensures StripChars(s, cs) == s
  {
  }

  /** Python's `parts[-k:]`. */
  function PyTail(parts: seq<string>, k: int): (r: seq<string>)
    ensures |r| <= |parts| && r == parts[|parts| - |r|..]
    ensures k > 0 ==> |r| == if k < |parts| then k else |parts|
    ensures k == 0 ==> r == parts
    ensures k < 0 ==> |r| == if -k < |parts| then |parts| + k else 0
  {
    if k > 0 then (if k < |parts| then parts[|parts| - k..] else parts)
    else if -k < |parts| then parts[-k..]
    else []
  }

  /** Python's `s[0:n]`, with `None` meaning to the end. */
  function PyPrefix(s: string, n: Option<int>): (r: string)
    ensures |r| <= |s| && r == s[..|r|]
    ensures n.None? ==> r == s
    ensures n.Some? && n.value >= 0 ==> |r| == if n.value < |s| then n.value else |s|
    ensures n.Some? && n.value < 0 ==> |r| == if -n.value < |s| then |s| + n.value else 0
  {
    match n
    case None => s
    case Some(k) =>
      if k >= 0 then (if k < |s| then s[..k] else s)
      else if -k < |s| then s[..|s| + k]
      else []
  }

  /** How many trailing parts `hash_path` keeps: `min(len(parts) - 1, n_parents)`. */
  function KeptParts(parts: seq<string>, nParents: int): int {
    if |parts| - 1 < nParents then |parts| - 1 else nParents
  }

  /**
   * `hash_path(path, n_hash, n_parents)`: the digest (`sha`, applied to the
   * posix form of the resolved path) cut to `n_hash` characters, then the last
   * parts of the path as given, all sanitized with "." also prohibited.
   */
  function HashPath(path: Path, nHash: Option<int>, nParents: int, cwd: Path, sha: string -> string): (r: string)
    requires WellFormed(path) && Normal(cwd)
    ensures IsPart(r)
    ensures '.' !in r
  {
    SanitizedPart(HashText(path, nHash, nParents, cwd, sha));
    SanitizePathPart(HashText(path, nHash, nParents, cwd, sha), {'.'})
  }

  /** Sanitising with "." prohibited yields a single path part free of dots. */
  lemma SanitizedPart(s: string)
    ensures IsPart(SanitizePathPart(s, {'.'}))
    ensures '.' !in SanitizePathPart(s, {'.'})
  {
    var r := SanitizePathPart(s, {'.'});
    NoDot(r);
    assert r != "." by { assert r[0] !in DotSpace; }
  }

  /** The text `hash_path` sanitises: the cut digest, an underscore, the kept parts joined by underscores. */
  function HashText(path: Path, nHash: Option<int>, nParents: int, cwd: Path, sha: string -> string): string
    requires WellFormed(path) && Normal(cwd)
  {
    PyPrefix(Digest(path, cwd, sha), nHash) + "_" + JoinWith("_", PyTail(path, KeptParts(path, nParents)))
  }

  /** `hashlib.sha256(path.resolve().as_posix()).hexdigest()`, with the hash function a parameter. */
  function Digest(path: Path, cwd: Path, sha: string -> string): string
    requires WellFormed(path) && Normal(cwd)
  {
    sha(ToStr(Resolve(path, cwd)))
  }

  /** Lower-case hexadecimal digits, as `hexdigest()` returns. */
  predicate HexDigits(s: string) {
    forall i :: 0 <= i < |s| ==> '0' <= s[i] <= '9' || 'a' <= s[i] <= 'f'
  }

  /**
   * The value of `hash_path` for a hexadecimal digest: the cut digest and an
   * underscore are kept as they are, and only the joined parts are sanitised
   * (prohibited characters and dots become underscores, trailing spaces and
   * underscores from dots at the end are dropped).
   */
  lemma HashPathValue(path: Path, nHash: Option<int>, nParents: int, cwd: Path, sha: string -> string)
    requires WellFormed(path) && Normal(cwd)
    requires HexDigits(Digest(path, cwd, sha))
    ensures HashPath(path, nHash, nParents, cwd, sha)
         == PyPrefix(Digest(path, cwd, sha), nHash) + "_"
            + TrimEnd(ReplaceProhibited(JoinWith("_", PyTail(path, KeptParts(path, nParents))), {'.'}), InSet(DotSpace))
  {
    var hex := PyPrefix(Digest(path, cwd, sha), nHash);
    assert HexDigits(hex) by {
      forall i | 0 <= i < |hex| ensures '0' <= hex[i] <= '9' || 'a' <= hex[i] <= 'f' {
        assert hex[i] == Digest(path, cwd, sha)[i];
      }
    }
    SanitizeAfterHead(hex + "_", JoinWith("_", PyTail(path, KeptParts(path, nParents))), |hex|);
  }

  /**
   * Sanitising a text whose head is clean and ends in an underscore keeps the
   * head and sanitises the rest on its own.
   */
  lemma SanitizeAfterHead(head: string, rest: string, k: nat)
    requires k == |head| - 1 && head[k] == '_'
    requires forall i :: 0 <= i < |head| ==> !Prohibited(head[i], {'.'})
    requires head[0] !in DotSpace
    ensures SanitizePathPart(head + rest, {'.'})
         == head + TrimEnd(ReplaceProhibited(rest, {'.'}), InSet(DotSpace))
  {
    NoProhibitedFixed(head, {'.'});
    ReplaceJoin(head, rest, {'.'});
    StripAfterHead(head, ReplaceProhibited(rest, {'.'}), k);
    var clean := head + TrimEnd(ReplaceProhibited(rest, {'.'}), InSet(DotSpace));
    assert clean[k] == '_';
    NamedUnderscore(clean, k);
  }

  /** Stripping dots and spaces from a text whose head is kept at both ends trims only the end of the tail. */
  lemma StripAfterHead(head: string, tail: string, k: nat)
    requires k == |head| - 1 && head[k] !in DotSpace && head[0] !in DotSpace
    ensures StripChars(head + tail, DotSpace) == head + TrimEnd(tail, InSet(DotSpace))
  {
    var drop := InSet(DotSpace);
    assert !drop((head + tail)[0]);
    assert TrimStart(head + tail, drop) == head + tail;
    TrimEndAfter(head, tail, drop);
  }

  /** A name holding an underscore is neither reserved nor empty, so naming keeps it. */
  lemma NamedUnderscore(s: string, k: nat)
    requires k < |s| && s[k] == '_'
    ensures Named(s) == s
  {
    assert Upper(s)[k] == '_';
    UnderscoreFreeReserved();
  }

  /** No reserved Windows name contains an underscore. */
  lemma UnderscoreFreeReserved()
    ensures forall n :: n in ReservedNames ==> forall i :: 0 <= i < |n| ==> n[i] != '_'
  {
  }

  lemma ReplaceJoin(x: string, y: string, extra: set<char>)
    ensures ReplaceProhibited(x + y, extra) == ReplaceProhibited(x, extra) + ReplaceProhibited(y, extra)
  {
    var l, r := ReplaceProhibited(x + y, extra), ReplaceProhibited(x, extra) + ReplaceProhibited(y, extra);
    forall i | 0 <= i < |l| ensures l[i] == r[i] {
      if i < |x| {
        assert (x + y)[i] == x[i];
      } else {
        assert (x + y)[i] == y[i - |x|];
      }
    }
  }

  /** Trailing characters are trimmed from the tail alone when the head ends in one that is kept. */
  lemma {:induction false} TrimEndAfter(p: string, q: string, drop: char -> bool)
    requires p != [] && !drop(p[|p| - 1])
    ensures TrimEnd(p + q, drop) == p + TrimEnd(q, drop)
    decreases |q|
  {
    if q == [] {
      assert p + q == p;
    } else if drop(q[|q| - 1]) {
      assert (p + q)[..|p + q| - 1] == p + q[..|q| - 1];
      TrimEndAfter(p, q[..|q| - 1], drop);
    } else {
      assert (p + q)[|p + q| - 1] == q[|q| - 1];
    }
  }

  /** Two paths whose hexadecimal digests, cut to the same length, differ get different names. */
  lemma HashPathDigestsApart(a: Path, b: Path, n: nat, nParents: int, cwd: Path, sha: string -> string)
    requires WellFormed(a) && WellFormed(b) && Normal(cwd)
    requires HexDigits(Digest(a, cwd, sha)) && HexDigits(Digest(b, cwd, sha))
    requires |Digest(a, cwd, sha)| >= n && |Digest(b, cwd, sha)| >= n
    requires Digest(a, cwd, sha)[..n] != Digest(b, cwd, sha)[..n]
    ensures HashPath(a, Some(n), nParents, cwd, sha) != HashPath(b, Some(n), nParents, cwd, sha)
  {
    HashPathValue(a, Some(n), nParents, cwd, sha);
    HashPathValue(b, Some(n), nParents, cwd, sha);
    var pa, pb := PyPrefix(Digest(a, cwd, sha), Some(n)), PyPrefix(Digest(b, cwd, sha), Some(n));
    assert |pa| == n && |pb| == n && pa != pb;
    PrefixesApart(pa, pb,
      TrimEnd(ReplaceProhibited(JoinWith("_", PyTail(a, KeptParts(a, nParents))), {'.'}), InSet(DotSpace)),
      TrimEnd(ReplaceProhibited(JoinWith("_", PyTail(b, KeptParts(b, nParents))), {'.'}), InSet(DotSpace)));
  }

  lemma PrefixesApart(pa: string, pb: string, ja: string, jb: string)
    requires |pa| == |pb| && pa != pb
    ensures pa + "_" + ja != pb + "_" + jb
  {
    PrefixOfJoin(pa, "_", ja);
    PrefixOfJoin(pb, "_", jb);
  }

  lemma PrefixOfJoin(x: string, y: string, z: string)
    ensures (x + y + z)[..|x|] == x
  {
  }

  lemma NoDot(r: string)
    requires r == "unnamed" || forall i :: 0 <= i < |r| ==> r[i] !in {'.'}
    ensures '.' !in r
  {
    if r != "unnamed" {
      forall i | 0 <= i < |r|
        ensures r[i] != '.'
      {
        assert r[i] !in {'.'};
      }
    }
  }

  /** With at least two parts and `n_parents >= 1`, the kept parts never include the root. */
  lemma HashPathKeepsNames(path: Path, nParents: int)
    requires WellFormed(path) && |path| >= 2 && nParents >= 1
    ensures 1 <= |PyTail(path, KeptParts(path, nParents))| <= |path| - 1
    ensures Plain(PyTail(path, KeptParts(path, nParents)))
  {
    var t := PyTail(path, KeptParts(path, nParents));
    assert t == path[|path| - |t|..];
    assert forall i :: 0 <= i < |t| ==> t[i] == path[|path| - |t| + i];
    if IsAbsolute(path) {
      assert forall i :: 1 <= i < |path| ==> path[i] == Tail(path)[i - 1];
    }
  }

  /** A path with a single part keeps all of it: `parts[-0:]` is every part. */
  lemma HashPathOnePart(path: Path, nParents: int)
    requires |path| == 1 && nParents >= 0
    ensures PyTail(path, KeptParts(path, nParents)) == path
  {
  }
}
