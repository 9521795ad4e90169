/**
 * The file system the modelled code reads and writes, as a value. Every
 * present path maps to a file (modification time and text content) or a
 * directory; `order` lists the present paths in the order `iterdir` and
 * `rglob` enumerate them, which is top-down: a directory always comes
 * before what it contains. Operations that can fail at the operating-system
 * level take a set of `faults` (paths whose creation, writing or removal is
 * refused) and return the new file system together with the exception
 * raised, if any: what was done before the failure stays done.
 */
module FileSystem {
  import opened Wrappers
  import opened Paths

  datatype Node = File(mtime: int, content: string) | Dir(mtime: int)

  datatype FS = FS(nodes: map<Path, Node>, order: seq<Path>)

  /** The file system after an operation, and the exception it raised. */
  datatype Outcome = Outcome(fs: FS, raised: Option<Error>)

  predicate Exists(fs: FS, p: Path) {
    p in fs.nodes
  }

  predicate IsFile(fs: FS, p: Path) {
    p in fs.nodes && fs.nodes[p].File?
  }

  predicate IsDir(fs: FS, p: Path) {
    p in fs.nodes && fs.nodes[p].Dir?
  }

  /** `q.parent == d` for a path `q` other than the root. */
  predicate IsChild(d: Path, q: Path) {
    |q| == |d| + 1 && q[..|d|] == d
  }

  predicate Distinct(s: seq<Path>) {
    forall i, j :: 0 <= i < j < |s| ==> s[i] != s[j]
  }

  /** No path is listed after one of its descendants. */
  predicate TopDown(s: seq<Path>) {
    forall i, j :: 0 <= i < j < |s| ==> !IsStrictAncestor(s[j], s[i])
  }

  ghost predicate Valid(fs: FS) {
    && IsDir(fs, Root)
    && (forall p :: p in fs.nodes ==> Normal(p))
    && (forall p :: p in fs.nodes && p != Root ==> IsDir(fs, Parent(p)))
    && Distinct(fs.order)
    && (forall p :: p in fs.nodes <==> p in fs.order)
    && TopDown(fs.order)
  }

  /** Every ancestor of a present path is a present directory. */
  lemma {:induction false} AncestorIsDir(fs: FS, a: Path, p: Path)
    requires Valid(fs)
    requires p in fs.nodes
    requires IsStrictAncestor(a, p)
    ensures IsDir(fs, a)
    decreases |p|
  {
    assert p != Root;
    var up := Parent(p);
    assert IsDir(fs, up);
    if a != up {
      assert up[..|a|] == p[..|a|];
      AncestorIsDir(fs, a, up);
    }
  }

  /** The paths of `s` strictly below `d`, in the order of `s`. */
  function Below(s: seq<Path>, d: Path): (r: seq<Path>)
    ensures forall q :: q in r <==> q in s && IsStrictAncestor(d, q)
    ensures Distinct(s) ==> Distinct(r)
    ensures TopDown(s) ==> TopDown(r)
    ensures |r| <= |s|
  {
    if s == [] then []
    else
      var rest := Below(s[1..], d);
      if IsStrictAncestor(d, s[0]) then
        assert forall q :: q in rest ==> q in s[1..];
        TopDownHead(s, rest);
        [s[0]] + rest
      else rest
  }

  /** The paths of `s` whose parent is `d`, in the order of `s`. */
  function ChildrenIn(s: seq<Path>, d: Path): (r: seq<Path>)
    ensures forall q :: q in r <==> q in s && IsChild(d, q)
    ensures Distinct(s) ==> Distinct(r)
    ensures |r| <= |s|
  {
    if s == [] then []
    else
      var rest := ChildrenIn(s[1..], d);
      if IsChild(d, s[0]) then [s[0]] + rest else rest
  }

  lemma TopDownHead(s: seq<Path>, rest: seq<Path>)
    requires s != []
    requires forall q :: q in rest ==> q in s[1..]
    ensures TopDown(s) && TopDown(rest) ==> TopDown([s[0]] + rest)
  {
    if TopDown(s) && TopDown(rest) {
      var r := [s[0]] + rest;
      forall i, j | 0 <= i < j < |r|
        ensures !IsStrictAncestor(r[j], r[i])
      {
        if i == 0 {
          assert r[j] in s[1..];
          var k :| 0 <= k < |s[1..]| && s[1..][k] == r[j];
          assert s[k + 1] == r[j];
        } else {
          assert r[i] == rest[i - 1] && r[j] == rest[j - 1];
        }
      }
    }
  }

  /** `d.iterdir()`. */
  function Children(fs: FS, d: Path): (r: seq<Path>)
    requires Valid(fs)
    ensures forall q :: q in r <==> q in fs.nodes && IsChild(d, q)
    ensures Distinct(r)
  {
    ChildrenIn(fs.order, d)
  }

  /** `d.rglob("*")`: everything below `d`, top-down. */
  function Descendants(fs: FS, d: Path): (r: seq<Path>)
    requires Valid(fs)
    ensures forall q :: q in r <==> q in fs.nodes && IsStrictAncestor(d, q)
    ensures Distinct(r) && TopDown(r)
  {
    Below(fs.order, d)
  }

  /** The same entries, in the same order, each of the same kind: only contents and times may differ. */
  predicate SameShape(fs: FS, g: FS) {
    && fs.nodes.Keys == g.nodes.Keys
    && fs.order == g.order
    && forall p :: p in fs.nodes ==> (fs.nodes[p].Dir? <==> g.nodes[p].Dir?)
  }

  predicate HasChild(fs: FS, d: Path) {
    exists q :: q in fs.nodes && IsChild(d, q)
  }

  function IndexOf(s: seq<Path>, x: Path): (r: nat)
    requires x in s
    ensures r < |s| && s[r] == x
    ensures forall i :: 0 <= i < r ==> s[i] != x
  {
    if s[0] == x then 0 else 1 + IndexOf(s[1..], x)
  }

  /** A new entry, listed last. */
  function Add(fs: FS, p: Path, n: Node): (r: FS)
    requires Valid(fs)
    requires Normal(p) && p != Root && p !in fs.nodes && IsDir(fs, Parent(p))
    ensures Valid(r)
    ensures r.nodes == fs.nodes[p := n]
    ensures r.order == fs.order + [p]
  {
    var r := FS(fs.nodes[p := n], fs.order + [p]);
    forall q | q in r.nodes && q != Root
      ensures IsDir(r, Parent(q))
    {
      if q != p {
        assert IsDir(fs, Parent(q));
      }
    }
    forall i | 0 <= i < |fs.order|
      ensures !IsStrictAncestor(p, fs.order[i])
    {
      if IsStrictAncestor(p, fs.order[i]) {
        AncestorIsDir(fs, p, fs.order[i]);
      }
    }
    r
  }

  /** A new node for an existing file; its place in `order` is kept. */
  function Replace(fs: FS, p: Path, n: Node): (r: FS)
    requires Valid(fs)
    requires IsFile(fs, p) && n.File?
    ensures Valid(r)
    ensures r.nodes == fs.nodes[p := n]
    ensures r.order == fs.order
  {
    FS(fs.nodes[p := n], fs.order)
  }

  function RemoveAt(s: seq<Path>, k: nat): (r: seq<Path>)
    requires k < |s|
    ensures |r| == |s| - 1
    ensures forall i :: 0 <= i < |r| ==> r[i] == s[if i < k then i else i + 1]
  {
    s[..k] + s[k + 1..]
  }

  /** The entry `p`, which has nothing below it, no longer exists. */
  function Remove(fs: FS, p: Path): (r: FS)
    requires Valid(fs)
    requires p in fs.nodes && p != Root && !HasChild(fs, p)
    ensures Valid(r)
    ensures r.nodes == fs.nodes - {p}
  {
    var k := IndexOf(fs.order, p);
    RemoveValid(fs, p, k);
    FS(fs.nodes - {p}, RemoveAt(fs.order, k))
  }

  lemma RemoveValid(fs: FS, p: Path, k: nat)
    requires Valid(fs)
    requires p in fs.nodes && p != Root && !HasChild(fs, p)
    requires k < |fs.order| && fs.order[k] == p
    ensures Valid(FS(fs.nodes - {p}, RemoveAt(fs.order, k)))
  {
    var order := RemoveAt(fs.order, k);
    var r := FS(fs.nodes - {p}, order);
    forall q | q in r.nodes && q != Root
      ensures IsDir(r, Parent(q))
    {
      assert IsDir(fs, Parent(q));
    }
    RemoveAtKeeps(fs.order, k);
  }

  lemma RemoveAtKeeps(s: seq<Path>, k: nat)
    requires k < |s| && Distinct(s) && TopDown(s)
    ensures Distinct(RemoveAt(s, k)) && TopDown(RemoveAt(s, k))
    ensures forall q :: q in RemoveAt(s, k) <==> q in s && q != s[k]
  {
    var r := RemoveAt(s, k);
    forall q | q in s && q != s[k]
      ensures q in r
    {
      var i := IndexOf(s, q);
      assert r[if i < k then i else i - 1] == q;
    }
  }

  /** `os.mkdir(p)`. */
  function MkdirOne(fs: FS, p: Path, faults: set<Path>, now: int): (r: Outcome)
    requires Valid(fs) && Normal(p)
    ensures Valid(r.fs)
    ensures r.raised.None? <==> p !in fs.nodes && IsDir(fs, Parent(p)) && p !in faults
    ensures r.raised.None? ==> r.fs == Add(fs, p, Dir(now))
    ensures r.raised.Some? ==> r.fs == fs
    ensures r.raised == Some(FileNotFoundError("mkdir")) <==> p !in fs.nodes && Parent(p) !in fs.nodes
  {
    if p in fs.nodes then Outcome(fs, Some(FileExistsError("mkdir")))
    else if Parent(p) !in fs.nodes then Outcome(fs, Some(FileNotFoundError("mkdir")))
    else if IsFile(fs, Parent(p)) then Outcome(fs, Some(NotADirectoryError("mkdir")))
    else if p in faults then Outcome(fs, Some(PermissionError("mkdir")))
    else Outcome(Add(fs, p, Dir(now)), None)
  }

  /** Everything `fs` holds is still in `g`, unchanged, and listed first. */
  predicate Extends(fs: FS, g: FS) {
    && (forall q :: q in fs.nodes ==> q in g.nodes && g.nodes[q] == fs.nodes[q])
    && |fs.order| <= |g.order| && g.order[..|fs.order|] == fs.order
  }

  /** What `g` added to `fs` are directories, modified `now`, on the way down to `p`. */
  ghost predicate AddsDirsTo(fs: FS, g: FS, p: Path, now: int) {
    forall q :: q in g.nodes && q !in fs.nodes ==> IsWithin(p, q) && g.nodes[q] == Dir(now)
  }

  /** No file and no refusing path stands on the way down to `p`. */
  ghost predicate CanMkdirs(fs: FS, p: Path, faults: set<Path>) {
    forall q :: IsWithin(p, q) ==> !IsFile(fs, q) && (q !in fs.nodes ==> q !in faults)
  }

  /** `p.mkdir(parents=True, exist_ok=True)`. */
  function Mkdirs(fs: FS, p: Path, faults: set<Path>, now: int): (r: Outcome)
    requires Valid(fs) && Normal(p)
    ensures Valid(r.fs)
    ensures Extends(fs, r.fs)
    ensures AddsDirsTo(fs, r.fs, p, now)
    ensures r.raised.None? ==> IsDir(r.fs, p)
    ensures IsDir(fs, p) ==> r == Outcome(fs, None)
    ensures CanMkdirs(fs, p, faults) ==> r.raised.None?
    decreases |p|, 1
  {
    if IsDir(fs, p) then Outcome(fs, None)
    else if p in fs.nodes then MkdirsFile(fs, p, faults); Outcome(fs, Some(FileExistsError("mkdir")))
    else if Parent(p) !in fs.nodes then MkdirsParent(fs, p, faults, now)
    else
      var r := MkdirOne(fs, p, faults, now);
      MkdirsHere(fs, p, faults, now, r);
      r
  }

  /** `mkdir(parents=True)` when the parent is missing: the parents first, then `p` itself. */
  function MkdirsParent(fs: FS, p: Path, faults: set<Path>, now: int): (r: Outcome)
    requires Valid(fs) && Normal(p) && p !in fs.nodes && Parent(p) !in fs.nodes
    ensures Valid(r.fs)
    ensures Extends(fs, r.fs)
    ensures AddsDirsTo(fs, r.fs, p, now)
    ensures r.raised.None? ==> IsDir(r.fs, p)
    ensures CanMkdirs(fs, p, faults) ==> r.raised.None?
    decreases |p|, 0
  {
    assert p != Root;
    var up := Mkdirs(fs, Parent(p), faults, now);
    if up.raised.Some? then
      MkdirsUp(fs, p, faults, now, up);
      up
    else
      var r := MkdirOne(up.fs, p, faults, now);
      MkdirsStep(fs, p, faults, now, up, r);
      r
  }

  /** Creating the parents of `dest` does not create `dest`, and keeps every node as it was. */
  lemma MkdirsKeeps(fs: FS, g: FS, dest: Path, now: int)
    requires Valid(fs) && Normal(dest) && Extends(fs, g) && AddsDirsTo(fs, g, Parent(dest), now)
    ensures (dest in g.nodes) == (dest in fs.nodes)
    ensures forall q :: q in fs.nodes ==> q in g.nodes && g.nodes[q] == fs.nodes[q]
  {
    assert forall q :: q in g.nodes && q !in fs.nodes ==> |q| <= |Parent(dest)|;
    assert dest != Root ==> |Parent(dest)| < |dest|;
  }

  lemma MkdirsFile(fs: FS, p: Path, faults: set<Path>)
    requires IsFile(fs, p)
    ensures !CanMkdirs(fs, p, faults)
  {
    assert IsWithin(p, p);
  }

  lemma AncestorsOfParent(p: Path)
    requires Normal(p) && p != Root
    ensures IsWithin(p, Parent(p))
    ensures forall q :: IsWithin(Parent(p), q) ==> IsWithin(p, q)
  {
    forall q | IsWithin(Parent(p), q)
      ensures IsWithin(p, q)
    {
      if q != Parent(p) {
        assert p[..|q|] == Parent(p)[..|q|];
      }
    }
  }

  lemma MkdirsUp(fs: FS, p: Path, faults: set<Path>, now: int, up: Outcome)
    requires Normal(p) && p != Root
    requires AddsDirsTo(fs, up.fs, Parent(p), now)
    requires CanMkdirs(fs, Parent(p), faults) ==> up.raised.None?
    requires up.raised.Some?
    ensures AddsDirsTo(fs, up.fs, p, now)
    ensures !CanMkdirs(fs, p, faults)
  {
    AncestorsOfParent(p);
  }

  lemma MkdirsHere(fs: FS, p: Path, faults: set<Path>, now: int, r: Outcome)
    requires Valid(fs) && Normal(p) && p != Root && p !in fs.nodes && Parent(p) in fs.nodes
    requires r == MkdirOne(fs, p, faults, now)
    ensures Extends(fs, r.fs)
    ensures AddsDirsTo(fs, r.fs, p, now)
    ensures CanMkdirs(fs, p, faults) ==> r.raised.None?
  {
    AncestorsOfParent(p);
    assert IsWithin(p, p);
    if r.raised.None? {
      assert r.fs.order[..|fs.order|] == fs.order;
    }
  }

  /** Creating `p` once its parents exist completes `p.mkdir(parents=True)`. */
  lemma MkdirsStep(fs: FS, p: Path, faults: set<Path>, now: int, up: Outcome, r: Outcome)
    requires Valid(fs) && Normal(p) && p != Root && p !in fs.nodes && Parent(p) !in fs.nodes
    requires Valid(up.fs) && Extends(fs, up.fs) && up.raised.None? && IsDir(up.fs, Parent(p))
    requires AddsDirsTo(fs, up.fs, Parent(p), now)
    requires r == MkdirOne(up.fs, p, faults, now)
    ensures Extends(fs, r.fs)
    ensures AddsDirsTo(fs, r.fs, p, now)
    ensures CanMkdirs(fs, p, faults) ==> r.raised.None?
  {
    AncestorsOfParent(p);
    assert p !in up.fs.nodes;
    assert r.raised.None? <==> p !in faults;
    if r.raised.None? {
      assert r.fs == Add(up.fs, p, Dir(now));
      AddedLast(fs, up.fs, r.fs, p, Dir(now));
      forall q | q in r.fs.nodes && q !in fs.nodes
        ensures IsWithin(p, q) && r.fs.nodes[q] == Dir(now)
      {
        if q != p {
          assert q in up.fs.nodes;
        }
      }
    } else {
      assert r.fs == up.fs;
      assert IsWithin(p, p);
    }
  }

  lemma AddedLast(fs: FS, mid: FS, g: FS, p: Path, n: Node)
    requires Extends(fs, mid) && p !in mid.nodes
    requires g.nodes == mid.nodes[p := n] && g.order == mid.order + [p]
    ensures Extends(fs, g)
  {
    assert g.order[..|mid.order|] == mid.order;
    assert g.order[..|fs.order|] == mid.order[..|fs.order|];
    assert p !in fs.nodes;
  }

  /** `shutil.copyfile(src, dst)` followed by setting the copy's modification time. */
  function CopyFile(fs: FS, src: Path, dst: Path, mtime: int, faults: set<Path>): (r: Outcome)
    requires Valid(fs) && Normal(src) && Normal(dst)
    ensures Valid(r.fs)
    ensures r.raised.None? <==>
      IsFile(fs, src) && src != dst && !IsDir(fs, dst) && IsDir(fs, Parent(dst)) && dst !in faults
    ensures r.raised.None? ==> r.fs.nodes == fs.nodes[dst := File(mtime, fs.nodes[src].content)]
    ensures r.raised.None? ==> Extends(fs, r.fs) || dst in fs.nodes
    ensures r.raised.Some? ==> r.fs == fs
    ensures r.raised.None? && dst in fs.nodes ==> r.fs.order == fs.order
    ensures r.raised.None? && dst !in fs.nodes ==> r.fs.order == fs.order + [dst]
  {
    if src == dst && src in fs.nodes then Outcome(fs, Some(SameFileError("copy")))
    else if src !in fs.nodes then Outcome(fs, Some(FileNotFoundError("copy")))
    else if IsDir(fs, src) then Outcome(fs, Some(IsADirectoryError("copy")))
    else if IsDir(fs, dst) then Outcome(fs, Some(IsADirectoryError("copy")))
    else if Parent(dst) !in fs.nodes then Outcome(fs, Some(FileNotFoundError("copy")))
    else if IsFile(fs, Parent(dst)) then Outcome(fs, Some(NotADirectoryError("copy")))
    else if dst in faults then Outcome(fs, Some(PermissionError("copy")))
    else
      Outcome(Put(fs, dst, File(mtime, fs.nodes[src].content)), None)
  }

  /** A file written at `p`: a new entry goes last, an existing file keeps its place. */
  function Put(fs: FS, p: Path, n: Node): (r: FS)
    requires Valid(fs) && Normal(p) && n.File? && !IsDir(fs, p) && IsDir(fs, Parent(p))
    ensures Valid(r)
    ensures r.nodes == fs.nodes[p := n]
    ensures p in fs.nodes ==> r.order == fs.order
    ensures p !in fs.nodes ==> r.order == fs.order + [p] && Extends(fs, r)
  {
    if p in fs.nodes then Replace(fs, p, n)
    else
      var g := Add(fs, p, n);
      assert g.order[..|fs.order|] == fs.order;
      g
  }

  /** Where `shutil.copy`/`copy2` write: into a directory `dst`, under the source's name. */
  function CopyTarget(fs: FS, src: Path, dst: Path): (r: Path)
    requires Normal(src) && Normal(dst)
    ensures Normal(r)
  {
    if IsDir(fs, dst) && src != Root then dst + [src[|src| - 1]] else dst
  }

  /** `shutil.copy2(src, dst)`: content and modification time are copied. */
  function Copy2(fs: FS, src: Path, dst: Path, faults: set<Path>): (r: Outcome)
    requires Valid(fs) && Normal(src) && Normal(dst)
    ensures Valid(r.fs)
  {
    var mtime := if src in fs.nodes then fs.nodes[src].mtime else 0;
    CopyFile(fs, src, CopyTarget(fs, src, dst), mtime, faults)
  }

  /** `shutil.copy(src, dst)`: content is copied, the copy is modified `now`. */
  function Copy(fs: FS, src: Path, dst: Path, now: int, faults: set<Path>): (r: Outcome)
    requires Valid(fs) && Normal(src) && Normal(dst)
    ensures Valid(r.fs)
  {
    CopyFile(fs, src, CopyTarget(fs, src, dst), now, faults)
  }

  /** `p.unlink()`. */
  function Unlink(fs: FS, p: Path, faults: set<Path>): (r: Outcome)
    requires Valid(fs)
    ensures Valid(r.fs)
    ensures r.raised.None? <==> IsFile(fs, p) && p !in faults
    ensures r.raised.None? ==> r.fs.nodes == fs.nodes - {p}
    ensures r.raised.Some? ==> r.fs == fs
  {
    if p !in fs.nodes then Outcome(fs, Some(FileNotFoundError("unlink")))
    else if IsDir(fs, p) then Outcome(fs, Some(IsADirectoryError("unlink")))
    else if p in faults then Outcome(fs, Some(PermissionError("unlink")))
    else
      FileChildless(fs, p);
      Outcome(Remove(fs, p), None)
  }

  /** A file has nothing below it: the parent of anything present is a directory. */
  lemma FileChildless(fs: FS, p: Path)
    requires Valid(fs) && IsFile(fs, p)
    ensures !HasChild(fs, p)
  {
    forall q | IsChild(p, q)
      ensures q !in fs.nodes
    {
      assert Parent(q) == p;
    }
  }

  /** `p.rmdir()`: only an empty directory other than the root is removed. */
  function Rmdir(fs: FS, p: Path, faults: set<Path>): (r: Outcome)
    requires Valid(fs)
    ensures Valid(r.fs)
    ensures r.raised.None? <==> IsDir(fs, p) && p != Root && !HasChild(fs, p) && p !in faults
    ensures r.raised.None? ==> r.fs.nodes == fs.nodes - {p}
    ensures r.raised.Some? ==> r.fs == fs
  {
    if p !in fs.nodes then Outcome(fs, Some(FileNotFoundError("rmdir")))
    else if IsFile(fs, p) then Outcome(fs, Some(NotADirectoryError("rmdir")))
    else if p == Root || HasChild(fs, p) then Outcome(fs, Some(OSError("Directory not empty")))
    else if p in faults then Outcome(fs, Some(PermissionError("rmdir")))
    else Outcome(Remove(fs, p), None)
  }

  /** `p.write_text(content)`: the file is created or overwritten, modified `now`. */
  function WriteText(fs: FS, p: Path, content: string, now: int, faults: set<Path>): (r: Outcome)
    requires Valid(fs) && Normal(p)
    ensures Valid(r.fs)
    ensures r.raised.None? <==> !IsDir(fs, p) && IsDir(fs, Parent(p)) && p !in faults
    ensures r.raised.None? ==> r.fs.nodes == fs.nodes[p := File(now, content)]
    ensures r.raised.None? && IsFile(fs, p) ==> r.fs.order == fs.order
    ensures r.raised.Some? ==> r.fs == fs
  {
    if IsDir(fs, p) then Outcome(fs, Some(IsADirectoryError("write")))
    else if Parent(p) !in fs.nodes then Outcome(fs, Some(FileNotFoundError("write")))
    else if IsFile(fs, Parent(p)) then Outcome(fs, Some(NotADirectoryError("write")))
    else if p in faults then Outcome(fs, Some(PermissionError("write")))
    else Outcome(Put(fs, p, File(now, content)), None)
  }

  /** `p.read_text()`. */
  function ReadText(fs: FS, p: Path): (r: Result<string>)
    ensures r.Ok? <==> IsFile(fs, p)
    ensures r.Ok? ==> r.value == fs.nodes[p].content
  {
    if p !in fs.nodes then Err(FileNotFoundError("read"))
    else if IsDir(fs, p) then Err(IsADirectoryError("read"))
    else Ok(fs.nodes[p].content)
  }
}
