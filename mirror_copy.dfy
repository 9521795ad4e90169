/**
 * The copy pass of `mirror` (`_recursive_copy` in `utils/mirror.py`): every
 * entry below the source directory, apart from the destination itself,
 * anything inside it and the excluded paths, is brought over to the same
 * relative place under the destination. A file is copied with its
 * modification time when its copy is missing or older; a directory is
 * created and then walked. Failures of a single copy or mkdir are logged and
 * the walk goes on: they appear here as the `faults` of the file system.
 */
module MirrorCopy {
  import opened Wrappers
  import opened Paths
  import opened FileSystem
  import opened PathUtils
  import opened MirrorBar

  /** The arguments of one `mirror` call that the copy pass uses. */
  datatype Plan = Plan(source: Path, dest: Path, excluded: seq<Path>, faults: set<Path>, now: int)

  predicate PlanValid(pl: Plan) {
    Normal(pl.source) && Normal(pl.dest)
  }

  /** The entries the walk passes over: the destination, what it holds, and the excluded paths. */
  predicate Skipped(pl: Plan, item: Path) {
    IsWithin(item, pl.dest) || item in pl.excluded
  }

  /** `dest_dir / item.relative_to(source_dir)`, for an item below the source. */
  function Target(pl: Plan, item: Path): Path {
    if |pl.source| <= |item| then pl.dest + item[|pl.source|..] else pl.dest
  }

  lemma TargetNormal(pl: Plan, item: Path)
    requires PlanValid(pl) && Normal(item) && IsStrictAncestor(pl.source, item)
    ensures Normal(Target(pl, item)) && IsStrictAncestor(pl.dest, Target(pl, item))
  {
    var rel := item[|pl.source|..];
    assert forall i :: 0 <= i < |rel| ==> rel[i] == item[i + |pl.source|];
    assert Descending(rel);
    DescendNormal(pl.dest, rel);
    assert Target(pl, item)[..|pl.dest|] == pl.dest;
  }

  /** The target of a child is the target of its directory, one level down. */
  lemma TargetOfChild(pl: Plan, dir: Path, x: Path)
    requires IsWithin(dir, pl.source) && IsChild(dir, x)
    ensures Target(pl, x) == Target(pl, dir) + [x[|x| - 1]]
  {
    assert x[|pl.source|..] == x[|pl.source|..|dir|] + [x[|x| - 1]];
    assert x[|pl.source|..|dir|] == dir[|pl.source|..];
  }

  /**
   * `g` only adds to `fs` and rewrites files inside `dest`: directories and
   * everything outside `dest` stay as they were, and nothing is removed.
   */
  ghost predicate Grows(fs: FS, g: FS, dest: Path) {
    && (forall q :: q in fs.nodes ==> q in g.nodes)
    && (forall q :: q in fs.nodes && (!IsWithin(q, dest) || fs.nodes[q].Dir?) ==> g.nodes[q] == fs.nodes[q])
    && (forall q :: q in g.nodes && q !in fs.nodes ==> IsWithin(q, dest))
  }

  lemma GrowsTrans(fs: FS, g: FS, h: FS, dest: Path)
    requires Grows(fs, g, dest) && Grows(g, h, dest)
    ensures Grows(fs, h, dest)
  {
  }

  /** The entries strictly below `dir` and outside `dest`: the copy pass never adds or removes one. */
  function Region(fs: FS, dest: Path, dir: Path): set<Path> {
    set q | q in fs.nodes && IsStrictAncestor(dir, q) && !IsWithin(q, dest)
  }

  lemma RegionKept(fs: FS, g: FS, dest: Path, dir: Path)
    requires Grows(fs, g, dest)
    ensures Region(g, dest, dir) == Region(fs, dest, dir)
  {
  }

  lemma RegionShrinks(fs: FS, dest: Path, dir: Path, x: Path)
    requires IsChild(dir, x) && x in fs.nodes && !IsWithin(x, dest) && (IsAbsolute(x) ==> |dir| >= 1)
    ensures |Region(fs, dest, x)| < |Region(fs, dest, dir)|
  {
    forall q | q in Region(fs, dest, x)
      ensures q in Region(fs, dest, dir)
    {
      assert q[..|dir|] == q[..|x|][..|dir|];
    }
    var a, b := Region(fs, dest, x), Region(fs, dest, dir);
    assert x in b - a;
    assert b == a + (b - a);
    assert |b - a| >= 1;
  }

  /** `mkdir(parents=True)` of a path inside an existing `dest` only adds directories inside `dest`. */
  lemma MkdirsGrows(fs: FS, p: Path, dest: Path, faults: set<Path>, now: int)
    requires Valid(fs) && Normal(p) && IsDir(fs, dest) && IsWithin(p, dest)
    ensures Grows(fs, Mkdirs(fs, p, faults, now).fs, dest)
  {
    var g := Mkdirs(fs, p, faults, now).fs;
    AddedDirsGrow(fs, g, p, dest, now);
  }

  lemma AddedDirsGrow(fs: FS, g: FS, p: Path, dest: Path, now: int)
    requires Valid(fs) && Normal(p) && IsDir(fs, dest) && IsWithin(p, dest)
    requires Extends(fs, g) && AddsDirsTo(fs, g, p, now)
    ensures Grows(fs, g, dest)
  {
    forall q | q in g.nodes && q !in fs.nodes
      ensures IsWithin(q, dest)
    {
      assert IsWithin(p, q);
      if |q| < |dest| {
        assert dest[..|q|] == p[..|q|];
        AncestorIsDir(fs, q, dest);
      } else if q != dest {
        assert q[..|dest|] == p[..|dest|];
      }
    }
  }

  /** `shutil.copy2` to a path inside `dest` writes a file inside `dest` and nothing else. */
  lemma Copy2Grows(fs: FS, src: Path, dst: Path, dest: Path, faults: set<Path>)
    requires Valid(fs) && Normal(src) && Normal(dst) && IsStrictAncestor(dest, dst)
    ensures Grows(fs, Copy2(fs, src, dst, faults).fs, dest)
  {
    var t := CopyTarget(fs, src, dst);
    if t != dst {
      assert t[..|dest|] == dst[..|dest|];
    }
  }

  /** `target.parent.mkdir(parents=True, exist_ok=True)` then `shutil.copy2(item, target)`; a failure ends the step. */
  function CopyInto(fs: FS, item: Path, t: Path, faults: set<Path>, now: int): (r: FS)
    requires Valid(fs) && Normal(item) && Normal(t)
    ensures Valid(r)
  {
    ParentNormal(t);
    var up := Mkdirs(fs, Parent(t), faults, now);
    if up.raised.Some? then up.fs else Copy2(up.fs, item, t, faults).fs
  }

  lemma CopyIntoGrows(fs: FS, item: Path, t: Path, dest: Path, faults: set<Path>, now: int)
    requires Valid(fs) && Normal(item) && Normal(t) && IsDir(fs, dest) && IsStrictAncestor(dest, t)
    ensures Grows(fs, CopyInto(fs, item, t, faults, now), dest)
  {
    ParentNormal(t);
    MkdirsGrows(fs, Parent(t), dest, faults, now);
    var up := Mkdirs(fs, Parent(t), faults, now);
    if up.raised.None? {
      var c := Copy2(up.fs, item, t, faults).fs;
      assert CopyInto(fs, item, t, faults, now) == c;
      Copy2Grows(up.fs, item, t, dest, faults);
      GrowsTrans(fs, up.fs, c, dest);
    } else {
      assert CopyInto(fs, item, t, faults, now) == up.fs;
    }
  }

  /** One file of the walk: copied when its copy is missing or older. */
  function SyncFile(fs: FS, pl: Plan, item: Path): (r: FS)
    requires Valid(fs) && PlanValid(pl) && IsDir(fs, pl.dest)
    requires item in fs.nodes && IsStrictAncestor(pl.source, item) && !IsWithin(item, pl.dest)
    ensures Valid(r) && Grows(fs, r, pl.dest)
  {
    TargetNormal(pl, item);
    var t := Target(pl, item);
    if !Exists(fs, t) || Modified(fs, item, t) then
      CopyIntoGrows(fs, item, t, pl.dest, pl.faults, pl.now);
      CopyInto(fs, item, t, pl.faults, pl.now)
    else fs
  }

  /** What the walk needs of the directory it is in. */
  ghost predicate CanWalk(fs: FS, pl: Plan, dir: Path) {
    Valid(fs) && PlanValid(pl) && IsDir(fs, pl.dest) && IsWithin(dir, pl.source)
  }

  /** `_recursive_copy(dir)`: the entries of `dir`, in `iterdir` order, one after another. */
  function CopyDir(fs: FS, pl: Plan, dir: Path): (r: FS)
    requires CanWalk(fs, pl, dir)
    ensures Valid(r) && Grows(fs, r, pl.dest)
    decreases |Region(fs, pl.dest, dir)|, 1
  {
    CopyItems(fs, pl, dir, Children(fs, dir))
  }

  function CopyItems(fs: FS, pl: Plan, dir: Path, items: seq<Path>): (r: FS)
    requires CanWalk(fs, pl, dir)
    requires forall k :: 0 <= k < |items| ==> IsChild(dir, items[k]) && (IsWithin(items[k], pl.dest) || items[k] in fs.nodes)
    ensures Valid(r) && Grows(fs, r, pl.dest)
    decreases |Region(fs, pl.dest, dir)|, 0, |items|
  {
    if items == [] then fs
    else
      var g := Visit(fs, pl, dir, items[0]);
      RegionKept(fs, g, pl.dest, dir);
      var r := CopyItems(g, pl, dir, items[1..]);
      GrowsTrans(fs, g, r, pl.dest);
      r
  }

  /** One entry of the walk. */
  function Visit(fs: FS, pl: Plan, dir: Path, item: Path): (r: FS)
    requires CanWalk(fs, pl, dir)
    requires IsChild(dir, item) && (IsWithin(item, pl.dest) || item in fs.nodes)
    ensures Valid(r) && Grows(fs, r, pl.dest)
    decreases |Region(fs, pl.dest, dir)|, 0, 0
  {
    if Skipped(pl, item) then fs
    else
      assert IsStrictAncestor(pl.source, item) by {
        assert item[..|pl.source|] == item[..|dir|][..|pl.source|];
      }
      if IsFile(fs, item) then SyncFile(fs, pl, item)
      else if IsDir(fs, item) then
        TargetNormal(pl, item);
        var t := Target(pl, item);
        MkdirsGrows(fs, t, pl.dest, pl.faults, pl.now);
        var g := Mkdirs(fs, t, pl.faults, pl.now).fs;
        RegionKept(fs, g, pl.dest, dir);
        RegionKept(fs, g, pl.dest, item);
        RegionShrinks(fs, pl.dest, dir, item);
        var r := CopyDir(g, pl, item);
        GrowsTrans(fs, g, r, pl.dest);
        r
      else fs
  }

  /** `_recursive_copy`, with the progress steps of the walk. */
  method CopyTree(fs: FS, pl: Plan, dir: Path, bar: BarController) returns (r: FS)
    requires CanWalk(fs, pl, dir)
    requires bar.Valid() && bar.nextTotal.Some?
    modifies bar
    ensures r == CopyDir(fs, pl, dir)
    ensures bar.Valid() && bar.nextTotal == old(bar.nextTotal) && bar.phaseBase == old(bar.phaseBase)
    decreases |Region(fs, pl.dest, dir)|, 1
  {
    var items := Children(fs, dir);
    r := fs;
    for k := 0 to |items|
      invariant Valid(r) && Grows(fs, r, pl.dest) && CanWalk(r, pl, dir)
      invariant CopyItems(r, pl, dir, items[k..]) == CopyDir(fs, pl, dir)
      invariant bar.Valid() && bar.nextTotal == old(bar.nextTotal) && bar.phaseBase == old(bar.phaseBase)
    {
      assert items[k..][1..] == items[k + 1..];
      RegionKept(fs, r, pl.dest, dir);
      var g := r;
      r := WalkItem(r, pl, dir, items[k], bar);
      GrowsTrans(fs, g, r, pl.dest);
    }
  }

  /** The body of the loop of `_recursive_copy` for one entry. */
  method WalkItem(fs: FS, pl: Plan, dir: Path, item: Path, bar: BarController) returns (r: FS)
    requires CanWalk(fs, pl, dir)
    requires IsChild(dir, item) && (IsWithin(item, pl.dest) || item in fs.nodes)
    requires bar.Valid() && bar.nextTotal.Some?
    modifies bar
    ensures r == Visit(fs, pl, dir, item)
    ensures bar.Valid() && bar.nextTotal == old(bar.nextTotal) && bar.phaseBase == old(bar.phaseBase)
    decreases |Region(fs, pl.dest, dir)|, 0
  {
    r := fs;
    if !Skipped(pl, item) {
      bar.Update(None);
      assert IsStrictAncestor(pl.source, item) by {
        assert item[..|pl.source|] == item[..|dir|][..|pl.source|];
      }
      if IsFile(fs, item) {
        r := SyncFile(fs, pl, item);
      } else if IsDir(fs, item) {
        TargetNormal(pl, item);
        var t := Target(pl, item);
        MkdirsGrows(fs, t, pl.dest, pl.faults, pl.now);
        var up := Mkdirs(fs, t, pl.faults, pl.now);
        RegionKept(fs, up.fs, pl.dest, item);
        RegionShrinks(fs, pl.dest, dir, item);
        r := CopyTree(up.fs, pl, item, bar);
      }
    }
  }

  // ---------------------------------------------------------------------
  // What a finished walk leaves behind

  /** No entry on the way down from `dir` (exclusive) to `q` is passed over: the walk reaches `q`. */
  predicate Reached(pl: Plan, dir: Path, q: Path) {
    forall n :: |dir| < n <= |q| ==> !Skipped(pl, q[..n])
  }

  /** The copy of `q` is in place: a file's copy exists and is not older, a directory's copy is a directory. */
  ghost predicate UpToDate(fs: FS, pl: Plan, q: Path)
  {
    var t := Target(pl, q);
    && (IsFile(fs, q) ==> Exists(fs, t) && !Modified(fs, q, t))
    && (IsDir(fs, q) ==> IsDir(fs, t))
  }

  /** Every entry the walk from `dir` reaches has its copy in place. */
  ghost predicate Synced(fs: FS, pl: Plan, dir: Path)
  {
    forall q :: q in fs.nodes && IsStrictAncestor(dir, q) && Reached(pl, dir, q) ==> UpToDate(fs, pl, q)
  }

  ghost predicate SyncedItem(fs: FS, pl: Plan, x: Path)
  {
    !Skipped(pl, x) ==> UpToDate(fs, pl, x) && Synced(fs, pl, x)
  }

  /** A file is never copied onto a directory, nor a directory onto a file. */
  ghost predicate KindsAgree(fs: FS, pl: Plan, q: Path)
  {
    var t := Target(pl, q);
    && (IsFile(fs, q) ==> !IsDir(fs, t))
    && (IsDir(fs, q) ==> !IsFile(fs, t))
  }

  ghost predicate Compatible(fs: FS, pl: Plan, dir: Path)
  {
    forall q :: q in fs.nodes && IsStrictAncestor(dir, q) && Reached(pl, dir, q) ==> KindsAgree(fs, pl, q)
  }

  ghost predicate CompatibleItem(fs: FS, pl: Plan, x: Path)
  {
    !Skipped(pl, x) ==> KindsAgree(fs, pl, x) && Compatible(fs, pl, x)
  }

  /** `p` is neither inside `t` nor on the way down to it. */
  predicate Apart(p: Path, t: Path) {
    !IsWithin(p, t) && !IsStrictAncestor(p, t)
  }

  /** `p` holds the same thing, or nothing, in both. */
  ghost predicate Same(fs: FS, g: FS, p: Path) {
    (p in fs.nodes <==> p in g.nodes) && (p in fs.nodes ==> g.nodes[p] == fs.nodes[p])
  }

  lemma ApartSiblings(d: Path, tx: Path, ty: Path, p: Path)
    requires IsChild(d, tx) && IsChild(d, ty) && tx != ty && IsWithin(p, ty)
    ensures Apart(p, tx)
  {
  }

  lemma ApartChild(t: Path, c: Path, p: Path)
    requires IsChild(t, c) && |t| >= 1 && Apart(p, t)
    ensures Apart(p, c)
  {
  }

  lemma ChildInSource(pl: Plan, dir: Path, x: Path)
    requires PlanValid(pl) && IsWithin(dir, pl.source) && IsChild(dir, x)
    ensures IsStrictAncestor(pl.source, x) && IsStrictAncestor(dir, x)
  {
    assert x[..|pl.source|] == x[..|dir|][..|pl.source|];
  }

  /** The walk from `dir` reaches `q` exactly when it reaches the child of `dir` on the way and goes on from there. */
  lemma ReachedThrough(pl: Plan, dir: Path, x: Path, q: Path)
    requires IsChild(dir, x) && IsWithin(q, x)
    ensures Reached(pl, dir, q) <==> !Skipped(pl, x) && Reached(pl, x, q)
  {
    assert q[..|x|] == x;
  }

  /** A file holds nothing. */
  lemma FileIsLeaf(fs: FS, x: Path, q: Path)
    requires Valid(fs) && IsFile(fs, x) && q in fs.nodes
    ensures !IsStrictAncestor(x, q)
  {
    if IsStrictAncestor(x, q) {
      AncestorIsDir(fs, x, q);
    }
  }

  /** The child of `dir` on the way down to `q`. */
  lemma ChildOnTheWay(fs: FS, dir: Path, q: Path) returns (x: Path)
    requires Valid(fs) && q in fs.nodes && IsStrictAncestor(dir, q)
    ensures IsChild(dir, x) && x in fs.nodes && IsWithin(q, x)
  {
    x := q[..|dir| + 1];
    assert x[..|dir|] == dir;
    if x != q {
      AncestorIsDir(fs, x, q);
    }
  }

  lemma SyncedToChildren(fs: FS, pl: Plan, dir: Path, x: Path)
    requires PlanValid(pl) && IsWithin(dir, pl.source) && IsChild(dir, x) && x in fs.nodes
    requires Synced(fs, pl, dir)
    ensures SyncedItem(fs, pl, x)
  {
    ChildInSource(pl, dir, x);
    if !Skipped(pl, x) {
      ReachedThrough(pl, dir, x, x);
      forall q | q in fs.nodes && IsStrictAncestor(x, q) && Reached(pl, x, q)
        ensures UpToDate(fs, pl, q)
      {
        ReachedThrough(pl, dir, x, q);
        assert q[..|dir|] == q[..|x|][..|dir|];
      }
    }
  }

  lemma SyncedFromChildren(fs: FS, pl: Plan, dir: Path)
    requires Valid(fs) && PlanValid(pl) && IsWithin(dir, pl.source)
    requires forall x :: x in fs.nodes && IsChild(dir, x) ==> SyncedItem(fs, pl, x)
    ensures Synced(fs, pl, dir)
  {
    forall q | q in fs.nodes && IsStrictAncestor(dir, q) && Reached(pl, dir, q)
      ensures UpToDate(fs, pl, q)
    {
      var x := ChildOnTheWay(fs, dir, q);
      ChildInSource(pl, dir, x);
      ReachedThrough(pl, dir, x, q);
      assert SyncedItem(fs, pl, x);
    }
  }

  lemma CompatibleToChildren(fs: FS, pl: Plan, dir: Path, x: Path)
    requires PlanValid(pl) && IsWithin(dir, pl.source) && IsChild(dir, x) && x in fs.nodes
    requires Compatible(fs, pl, dir)
    ensures CompatibleItem(fs, pl, x)
  {
    ChildInSource(pl, dir, x);
    if !Skipped(pl, x) {
      ReachedThrough(pl, dir, x, x);
      forall q | q in fs.nodes && IsStrictAncestor(x, q) && Reached(pl, x, q)
        ensures KindsAgree(fs, pl, q)
      {
        ReachedThrough(pl, dir, x, q);
        assert q[..|dir|] == q[..|x|][..|dir|];
      }
    }
  }

  // ---------------------------------------------------------------------
  // A walk already in sync changes nothing

  /**
   * Because `copy2` keeps modification times, a tree whose copies are all in
   * place is left exactly as it is: a second run over an unchanged source
   * copies nothing.
   */
  lemma {:induction false} CopyDirSynced(fs: FS, pl: Plan, dir: Path)
    requires CanWalk(fs, pl, dir) && Synced(fs, pl, dir)
    ensures CopyDir(fs, pl, dir) == fs
    decreases |Region(fs, pl.dest, dir)|, 1
  {
    var items := Children(fs, dir);
    forall x | x in items
      ensures SyncedItem(fs, pl, x)
    {
      SyncedToChildren(fs, pl, dir, x);
    }
    CopyItemsSynced(fs, pl, dir, items);
  }

  lemma {:induction false} CopyItemsSynced(fs: FS, pl: Plan, dir: Path, items: seq<Path>)
    requires CanWalk(fs, pl, dir)
    requires forall k :: 0 <= k < |items| ==> IsChild(dir, items[k]) && items[k] in fs.nodes && SyncedItem(fs, pl, items[k])
    ensures CopyItems(fs, pl, dir, items) == fs
    decreases |Region(fs, pl.dest, dir)|, 0, |items|
  {
    if items != [] {
      VisitSynced(fs, pl, dir, items[0]);
      CopyItemsSynced(fs, pl, dir, items[1..]);
    }
  }

  lemma {:induction false} VisitSynced(fs: FS, pl: Plan, dir: Path, x: Path)
    requires CanWalk(fs, pl, dir) && IsChild(dir, x) && x in fs.nodes
    requires SyncedItem(fs, pl, x)
    ensures Visit(fs, pl, dir, x) == fs
    decreases |Region(fs, pl.dest, dir)|, 0, 0
  {
    if !Skipped(pl, x) && IsDir(fs, x) {
      ChildInSource(pl, dir, x);
      RegionShrinks(fs, pl.dest, dir, x);
      CopyDirSynced(fs, pl, x);
    }
  }

  // ---------------------------------------------------------------------
  // What one entry of the walk may change

  lemma TargetBelow(pl: Plan, x: Path, q: Path)
    requires PlanValid(pl) && |pl.source| <= |x| && IsStrictAncestor(x, q)
    ensures IsStrictAncestor(Target(pl, x), Target(pl, q))
  {
    assert q[|pl.source|..|x|] == x[|pl.source|..];
    assert Target(pl, q)[..|Target(pl, x)|] == pl.dest + q[|pl.source|..|x|];
  }

  /** `mkdir(parents=True)` of `p` touches nothing but `p` and the directories above it. */
  lemma MkdirsFrame(fs: FS, p: Path, faults: set<Path>, now: int)
    requires Valid(fs) && Normal(p)
    ensures forall q :: !IsWithin(p, q) ==> Same(fs, Mkdirs(fs, p, faults, now).fs, q)
  {
  }

  /** `shutil.copy2` to `t` touches nothing but `t` and what is inside it. */
  lemma Copy2Frame(fs: FS, src: Path, t: Path, faults: set<Path>)
    requires Valid(fs) && Normal(src) && Normal(t)
    ensures forall q :: !IsWithin(q, t) ==> Same(fs, Copy2(fs, src, t, faults).fs, q)
  {
    var c := CopyTarget(fs, src, t);
    forall q | !IsWithin(q, t)
      ensures q != c
    {
      if c != t {
        assert c[..|t|] == t;
      }
    }
  }

  /** An ancestor of an ancestor of `t` is one of `t`'s. */
  lemma AboveParent(t: Path, q: Path)
    requires Normal(t) && t != Root && IsWithin(Parent(t), q)
    ensures IsStrictAncestor(q, t)
  {
    if q != Parent(t) {
      assert t[..|q|] == t[..|Parent(t)|][..|q|];
    }
  }

  lemma CopyIntoFrame(fs: FS, item: Path, t: Path, faults: set<Path>, now: int)
    requires Valid(fs) && Normal(item) && Normal(t) && t != Root
    ensures forall p :: Apart(p, t) ==> Same(fs, CopyInto(fs, item, t, faults, now), p)
  {
    ParentNormal(t);
    var up := Mkdirs(fs, Parent(t), faults, now);
    MkdirsFrame(fs, Parent(t), faults, now);
    forall p | Apart(p, t)
      ensures Same(fs, up.fs, p)
    {
      if IsWithin(Parent(t), p) {
        AboveParent(t, p);
      }
    }
    if up.raised.None? {
      Copy2Frame(up.fs, item, t, faults);
    }
  }

  lemma SyncFileFrame(fs: FS, pl: Plan, x: Path)
    requires Valid(fs) && PlanValid(pl) && IsDir(fs, pl.dest)
    requires x in fs.nodes && IsStrictAncestor(pl.source, x) && !IsWithin(x, pl.dest)
    ensures forall p :: Apart(p, Target(pl, x)) ==> Same(fs, SyncFile(fs, pl, x), p)
  {
    TargetNormal(pl, x);
    CopyIntoFrame(fs, x, Target(pl, x), pl.faults, pl.now);
  }

  /** One entry of the walk changes nothing apart from its copy and the directories above it. */
  lemma {:induction false} VisitFrame(fs: FS, pl: Plan, dir: Path, x: Path)
    requires CanWalk(fs, pl, dir) && IsChild(dir, x) && (IsWithin(x, pl.dest) || x in fs.nodes)
    ensures forall p :: Apart(p, Target(pl, x)) ==> Same(fs, Visit(fs, pl, dir, x), p)
    decreases |Region(fs, pl.dest, dir)|, 0, 1
  {
    if !Skipped(pl, x) {
      ChildInSource(pl, dir, x);
      if IsFile(fs, x) {
        SyncFileFrame(fs, pl, x);
      } else if IsDir(fs, x) {
        VisitDirFrame(fs, pl, dir, x);
      }
    }
  }

  /** Making the copy of a directory `x` before walking it. */
  lemma MkdirForChild(fs: FS, pl: Plan, dir: Path, x: Path) returns (g: FS)
    requires CanWalk(fs, pl, dir) && IsChild(dir, x) && IsDir(fs, x) && !Skipped(pl, x)
    ensures Normal(Target(pl, x))
    ensures g == Mkdirs(fs, Target(pl, x), pl.faults, pl.now).fs
    ensures CanWalk(g, pl, x) && Grows(fs, g, pl.dest)
    ensures |Region(g, pl.dest, x)| < |Region(fs, pl.dest, dir)|
    ensures forall p :: !IsWithin(Target(pl, x), p) ==> Same(fs, g, p)
    ensures Visit(fs, pl, dir, x) == CopyDir(g, pl, x)
  {
    ChildInSource(pl, dir, x);
    TargetNormal(pl, x);
    var t := Target(pl, x);
    MkdirsGrows(fs, t, pl.dest, pl.faults, pl.now);
    g := Mkdirs(fs, t, pl.faults, pl.now).fs;
    MkdirsFrame(fs, t, pl.faults, pl.now);
    RegionKept(fs, g, pl.dest, x);
    RegionShrinks(fs, pl.dest, dir, x);
  }

  lemma {:induction false} VisitDirFrame(fs: FS, pl: Plan, dir: Path, x: Path)
    requires CanWalk(fs, pl, dir) && IsChild(dir, x) && IsDir(fs, x) && !Skipped(pl, x)
    ensures forall p :: Apart(p, Target(pl, x)) ==> Same(fs, Visit(fs, pl, dir, x), p)
    decreases |Region(fs, pl.dest, dir)|, 0, 0
  {
    var g := MkdirForChild(fs, pl, dir, x);
    CopyDirFrame(g, pl, x);
  }

  /** The walk from `dir` changes nothing apart from what is inside its copy and the directories above it. */
  lemma {:induction false} CopyDirFrame(fs: FS, pl: Plan, dir: Path)
    requires CanWalk(fs, pl, dir)
    ensures forall p :: Apart(p, Target(pl, dir)) ==> Same(fs, CopyDir(fs, pl, dir), p)
    decreases |Region(fs, pl.dest, dir)|, 2, 0
  {
    var items := Children(fs, dir);
    forall p | Apart(p, Target(pl, dir))
      ensures ApartFromAll(p, pl, items)
    {
      forall x | x in items
        ensures Apart(p, Target(pl, x))
      {
        TargetOfChild(pl, dir, x);
        ApartChild(Target(pl, dir), Target(pl, x), p);
      }
    }
    CopyItemsFrame(fs, pl, dir, items);
  }

  ghost predicate ApartFromAll(p: Path, pl: Plan, items: seq<Path>) {
    forall k :: 0 <= k < |items| ==> Apart(p, Target(pl, items[k]))
  }

  lemma {:induction false} CopyItemsFrame(fs: FS, pl: Plan, dir: Path, items: seq<Path>)
    requires CanWalk(fs, pl, dir)
    requires forall k :: 0 <= k < |items| ==> IsChild(dir, items[k]) && (IsWithin(items[k], pl.dest) || items[k] in fs.nodes)
    ensures forall p :: ApartFromAll(p, pl, items) ==> Same(fs, CopyItems(fs, pl, dir, items), p)
    decreases |Region(fs, pl.dest, dir)|, 1, |items|
  {
    if items != [] {
      var g := Visit(fs, pl, dir, items[0]);
      VisitFrame(fs, pl, dir, items[0]);
      RegionKept(fs, g, pl.dest, dir);
      CopyItemsFrame(g, pl, dir, items[1..]);
      forall p | ApartFromAll(p, pl, items)
        ensures ApartFromAll(p, pl, items[1..]) && Apart(p, Target(pl, items[0]))
      {
      }
    }
  }

  // ---------------------------------------------------------------------
  // A walk without failures brings every copy in place

  /** What holds inside the copy of `x` carries over when nothing there changes. */
  lemma CompatibleKept(fs: FS, g: FS, pl: Plan, x: Path)
    requires PlanValid(pl) && |pl.source| <= |x| && Grows(fs, g, pl.dest)
    requires forall p :: IsStrictAncestor(Target(pl, x), p) ==> Same(fs, g, p)
    requires Compatible(fs, pl, x)
    ensures Compatible(g, pl, x)
  {
    forall q | q in g.nodes && IsStrictAncestor(x, q) && Reached(pl, x, q)
      ensures KindsAgree(g, pl, q)
    {
      assert q[..|q|] == q;
      TargetBelow(pl, x, q);
    }
  }

  lemma SyncedKept(fs: FS, g: FS, pl: Plan, x: Path)
    requires PlanValid(pl) && |pl.source| <= |x| && Grows(fs, g, pl.dest)
    requires forall p :: IsWithin(p, Target(pl, x)) ==> Same(fs, g, p)
    requires SyncedItem(fs, pl, x)
    ensures SyncedItem(g, pl, x)
  {
    if !Skipped(pl, x) {
      assert Same(fs, g, Target(pl, x));
      forall q | q in g.nodes && IsStrictAncestor(x, q) && Reached(pl, x, q)
        ensures UpToDate(g, pl, q)
      {
        assert q[..|q|] == q;
        assert !IsWithin(q, pl.dest) && q in fs.nodes;
        assert UpToDate(fs, pl, q);
        TargetBelow(pl, x, q);
        assert Same(fs, g, Target(pl, q));
      }
    }
  }

  /** Walking one child of a directory leaves what its siblings need as it was. */
  lemma CompatibleItemKept(fs: FS, g: FS, pl: Plan, dir: Path, x: Path, y: Path)
    requires PlanValid(pl) && IsWithin(dir, pl.source) && Grows(fs, g, pl.dest)
    requires IsChild(dir, x) && IsChild(dir, y) && x != y
    requires !Skipped(pl, x) ==> forall p :: Apart(p, Target(pl, x)) ==> Same(fs, g, p)
    requires Skipped(pl, x) ==> g == fs
    requires CompatibleItem(fs, pl, y)
    ensures CompatibleItem(g, pl, y)
  {
    if !Skipped(pl, x) && !Skipped(pl, y) {
      TargetOfChild(pl, dir, x);
      TargetOfChild(pl, dir, y);
      var tx, ty := Target(pl, x), Target(pl, y);
      ApartSiblings(Target(pl, dir), tx, ty, ty);
      forall p | IsStrictAncestor(ty, p)
        ensures Same(fs, g, p)
      {
        ApartSiblings(Target(pl, dir), tx, ty, p);
      }
      CompatibleKept(fs, g, pl, y);
    }
  }

  /** Directories can be made down to a missing or directory path whose parent is a directory. */
  lemma CanMkdirsBelow(fs: FS, d: Path, t: Path)
    requires Valid(fs) && IsDir(fs, d) && IsChild(d, t) && |d| >= 1 && !IsFile(fs, t)
    ensures CanMkdirs(fs, t, {})
  {
    forall q | IsWithin(t, q)
      ensures !IsFile(fs, q)
    {
      if q != t && q != d {
        assert d[..|q|] == t[..|d|][..|q|];
        AncestorIsDir(fs, q, d);
      }
    }
  }

  /** Into an existing directory, with nothing failing, the copy is written with the source's time. */
  lemma CopyIntoWrites(fs: FS, x: Path, t: Path, now: int)
    requires Valid(fs) && Normal(x) && Normal(t) && IsFile(fs, x) && x != t
    requires !IsDir(fs, t) && IsDir(fs, Parent(t))
    ensures CopyInto(fs, x, t, {}, now).nodes == fs.nodes[t := File(fs.nodes[x].mtime, fs.nodes[x].content)]
  {
    ParentNormal(t);
    assert Mkdirs(fs, Parent(t), {}, now) == Outcome(fs, None);
    assert CopyTarget(fs, x, t) == t;
  }

  lemma SyncFileSyncs(fs: FS, pl: Plan, dir: Path, x: Path)
    requires CanWalk(fs, pl, dir) && IsChild(dir, x) && IsFile(fs, x) && !Skipped(pl, x)
    requires IsStrictAncestor(pl.source, x)
    requires pl.faults == {} && IsDir(fs, Target(pl, dir)) && KindsAgree(fs, pl, x)
    ensures UpToDate(SyncFile(fs, pl, x), pl, x)
  {
    TargetNormal(pl, x);
    TargetOfChild(pl, dir, x);
    var t := Target(pl, x);
    assert Parent(t) == Target(pl, dir);
    if !Exists(fs, t) || Modified(fs, x, t) {
      CopyIntoWrites(fs, x, t, pl.now);
      assert SyncFile(fs, pl, x) == CopyInto(fs, x, t, {}, pl.now);
    } else {
      assert SyncFile(fs, pl, x) == fs;
    }
  }

  lemma {:induction false} VisitSyncs(fs: FS, pl: Plan, dir: Path, x: Path)
    requires CanWalk(fs, pl, dir) && IsChild(dir, x) && x in fs.nodes
    requires pl.faults == {} && IsDir(fs, Target(pl, dir)) && CompatibleItem(fs, pl, x)
    ensures SyncedItem(Visit(fs, pl, dir, x), pl, x)
    decreases |Region(fs, pl.dest, dir)|, 0, 1
  {
    var r := Visit(fs, pl, dir, x);
    if !Skipped(pl, x) {
      ChildInSource(pl, dir, x);
      if IsFile(fs, x) {
        SyncFileSyncs(fs, pl, dir, x);
        forall q | q in r.nodes
          ensures !IsStrictAncestor(x, q)
        {
          FileIsLeaf(r, x, q);
        }
      } else {
        VisitDirSyncs(fs, pl, dir, x);
      }
    }
  }

  lemma {:induction false} VisitDirSyncs(fs: FS, pl: Plan, dir: Path, x: Path)
    requires CanWalk(fs, pl, dir) && IsChild(dir, x) && IsDir(fs, x) && !Skipped(pl, x)
    requires pl.faults == {} && IsDir(fs, Target(pl, dir)) && CompatibleItem(fs, pl, x)
    ensures SyncedItem(Visit(fs, pl, dir, x), pl, x)
    decreases |Region(fs, pl.dest, dir)|, 0, 0
  {
    MkdirSucceeds(fs, pl, dir, x);
    var g := MkdirForChild(fs, pl, dir, x);
    MkdirKeepsCompatible(fs, g, pl, x);
    CopyDirSyncs(g, pl, x);
    DirInPlace(g, pl, x);
  }

  lemma MkdirKeepsCompatible(fs: FS, g: FS, pl: Plan, x: Path)
    requires PlanValid(pl) && IsWithin(x, pl.source) && Grows(fs, g, pl.dest)
    requires forall p :: !IsWithin(Target(pl, x), p) ==> Same(fs, g, p)
    requires Compatible(fs, pl, x)
    ensures Compatible(g, pl, x)
  {
    CompatibleKept(fs, g, pl, x);
  }

  lemma DirInPlace(g: FS, pl: Plan, x: Path)
    requires CanWalk(g, pl, x) && IsDir(g, x) && !Skipped(pl, x) && IsDir(g, Target(pl, x))
    requires Synced(CopyDir(g, pl, x), pl, x)
    ensures SyncedItem(CopyDir(g, pl, x), pl, x)
  {
  }

  lemma MkdirSucceeds(fs: FS, pl: Plan, dir: Path, x: Path)
    requires CanWalk(fs, pl, dir) && IsChild(dir, x) && IsDir(fs, x) && !Skipped(pl, x)
    requires pl.faults == {} && IsDir(fs, Target(pl, dir)) && KindsAgree(fs, pl, x)
    ensures Normal(Target(pl, x)) && IsDir(Mkdirs(fs, Target(pl, x), pl.faults, pl.now).fs, Target(pl, x))
  {
    ChildInSource(pl, dir, x);
    TargetNormal(pl, x);
    TargetOfChild(pl, dir, x);
    CanMkdirsBelow(fs, Target(pl, dir), Target(pl, x));
  }

  /**
   * With no failing operation and no file standing where a directory is to
   * be copied (or the other way round), the walk from `dir` leaves every
   * entry it reaches with its copy in place.
   */
  lemma {:induction false} CopyDirSyncs(fs: FS, pl: Plan, dir: Path)
    requires CanWalk(fs, pl, dir) && pl.faults == {} && IsDir(fs, Target(pl, dir)) && Compatible(fs, pl, dir)
    ensures Synced(CopyDir(fs, pl, dir), pl, dir)
    decreases |Region(fs, pl.dest, dir)|, 2, 0
  {
    var items := Children(fs, dir);
    ChildrenCompatible(fs, pl, dir);
    CopyItemsSyncs(fs, pl, dir, items);
    SyncedAfterWalk(fs, pl, dir, CopyDir(fs, pl, dir));
  }

  lemma ChildrenCompatible(fs: FS, pl: Plan, dir: Path)
    requires CanWalk(fs, pl, dir) && Compatible(fs, pl, dir)
    ensures forall k :: 0 <= k < |Children(fs, dir)| ==> CompatibleItem(fs, pl, Children(fs, dir)[k])
  {
    var items := Children(fs, dir);
    forall k | 0 <= k < |items|
      ensures CompatibleItem(fs, pl, items[k])
    {
      assert items[k] in items;
      CompatibleToChildren(fs, pl, dir, items[k]);
    }
  }

  lemma SyncedAfterWalk(fs: FS, pl: Plan, dir: Path, r: FS)
    requires CanWalk(fs, pl, dir) && Valid(r) && Grows(fs, r, pl.dest)
    requires forall k :: 0 <= k < |Children(fs, dir)| ==> SyncedItem(r, pl, Children(fs, dir)[k])
    ensures Synced(r, pl, dir)
  {
    var items := Children(fs, dir);
    forall x | x in r.nodes && IsChild(dir, x)
      ensures SyncedItem(r, pl, x)
    {
      if x in fs.nodes {
        var k :| 0 <= k < |items| && items[k] == x;
      }
    }
    SyncedFromChildren(r, pl, dir);
  }

  lemma {:induction false} CopyItemsSyncs(fs: FS, pl: Plan, dir: Path, items: seq<Path>)
    requires CanWalk(fs, pl, dir) && pl.faults == {} && IsDir(fs, Target(pl, dir)) && Distinct(items)
    requires forall k :: 0 <= k < |items| ==> IsChild(dir, items[k]) && items[k] in fs.nodes && CompatibleItem(fs, pl, items[k])
    ensures forall k :: 0 <= k < |items| ==> SyncedItem(CopyItems(fs, pl, dir, items), pl, items[k])
    decreases |Region(fs, pl.dest, dir)|, 1, |items|
  {
    if items != [] {
      var x, rest := items[0], items[1..];
      assert x !in rest;
      var g := Visit(fs, pl, dir, x);
      VisitSyncs(fs, pl, dir, x);
      SiblingsStayCompatible(fs, pl, dir, x, rest, g);
      assert forall k :: 0 <= k < |rest| ==> IsChild(dir, rest[k]) && rest[k] in g.nodes && CompatibleItem(g, pl, rest[k]);
      RegionKept(fs, g, pl.dest, dir);
      CopyItemsSyncs(g, pl, dir, rest);
      var r := CopyItems(g, pl, dir, rest);
      assert CopyItems(fs, pl, dir, items) == r;
      SiblingsKeepSynced(g, pl, dir, x, rest, r);
      forall k | 0 <= k < |items|
        ensures SyncedItem(r, pl, items[k])
      {
        if k > 0 {
          assert items[k] == rest[k - 1];
        }
      }
    }
  }

  lemma SiblingsStayCompatible(fs: FS, pl: Plan, dir: Path, x: Path, rest: seq<Path>, g: FS)
    requires CanWalk(fs, pl, dir) && IsChild(dir, x) && x in fs.nodes && x !in rest
    requires forall y :: y in rest ==> IsChild(dir, y) && CompatibleItem(fs, pl, y)
    requires g == Visit(fs, pl, dir, x)
    ensures forall y :: y in rest ==> IsChild(dir, y) && CompatibleItem(g, pl, y)
  {
    VisitFrame(fs, pl, dir, x);
    forall y | y in rest
      ensures CompatibleItem(g, pl, y)
    {
      CompatibleItemKept(fs, g, pl, dir, x, y);
    }
  }

  /** The copies of two different children of a directory are apart. */
  lemma ApartFromRest(pl: Plan, dir: Path, x: Path, rest: seq<Path>, p: Path)
    requires PlanValid(pl) && IsWithin(dir, pl.source) && IsChild(dir, x) && x !in rest
    requires forall y :: y in rest ==> IsChild(dir, y)
    requires IsWithin(p, Target(pl, x))
    ensures ApartFromAll(p, pl, rest)
  {
    TargetOfChild(pl, dir, x);
    forall y | y in rest
      ensures Apart(p, Target(pl, y))
    {
      TargetOfChild(pl, dir, y);
      assert x == dir + [x[|x| - 1]] && y == dir + [y[|y| - 1]];
      ApartSiblings(Target(pl, dir), Target(pl, y), Target(pl, x), p);
    }
  }

  lemma SiblingsKeepSynced(g: FS, pl: Plan, dir: Path, x: Path, rest: seq<Path>, r: FS)
    requires CanWalk(g, pl, dir) && IsChild(dir, x) && x !in rest
    requires forall k :: 0 <= k < |rest| ==> IsChild(dir, rest[k]) && rest[k] in g.nodes
    requires SyncedItem(g, pl, x)
    requires r == CopyItems(g, pl, dir, rest)
    ensures SyncedItem(r, pl, x)
  {
    if !Skipped(pl, x) {
      SiblingsFrame(g, pl, dir, x, rest, r);
      SyncedKept(g, r, pl, x);
    }
  }

  lemma SiblingsFrame(g: FS, pl: Plan, dir: Path, x: Path, rest: seq<Path>, r: FS)
    requires CanWalk(g, pl, dir) && IsChild(dir, x) && x !in rest
    requires forall k :: 0 <= k < |rest| ==> IsChild(dir, rest[k]) && rest[k] in g.nodes
    requires r == CopyItems(g, pl, dir, rest)
    ensures forall p :: IsWithin(p, Target(pl, x)) ==> Same(g, r, p)
  {
    CopyItemsFrame(g, pl, dir, rest);
    forall p | IsWithin(p, Target(pl, x))
      ensures Same(g, r, p)
    {
      ApartFromRest(pl, dir, x, rest, p);
    }
  }

  /** Without failures, running the copy pass a second time changes nothing. */
  lemma CopyTwice(fs: FS, pl: Plan)
    requires CanWalk(fs, pl, pl.source) && pl.faults == {} && Compatible(fs, pl, pl.source)
    ensures CopyDir(CopyDir(fs, pl, pl.source), pl, pl.source) == CopyDir(fs, pl, pl.source)
  {
    assert Target(pl, pl.source) == pl.dest;
    CopyDirSyncs(fs, pl, pl.source);
    CopyDirSynced(CopyDir(fs, pl, pl.source), pl, pl.source);
  }
}
