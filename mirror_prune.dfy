/**
 * The orphan pass of `mirror` (`utils/mirror.py`, run when `rm_orphans` is
 * set): every entry below the destination whose counterpart in the source
 * does not exist is marked, unless the kept-orphans tests pass over it;
 * the marked files are unlinked first, then the marked directories are
 * visited deepest first and each is removed only when it is empty. A
 * failing unlink or rmdir is logged and the pass goes on: such failures are
 * the `faults` of the file system.
 */
module MirrorPrune {
  import opened Wrappers
  import opened Paths
  import opened FileSystem
  import opened MirrorBar

  /** The arguments of one `mirror` call that the orphan pass uses. */
  datatype Sweep = Sweep(source: Path, dest: Path, kept: seq<Path>, faults: set<Path>)

  predicate SweepValid(sw: Sweep) {
    Normal(sw.source) && Normal(sw.dest)
  }

  /**
   * Passed over by the kept-orphans tests: a kept path, or anything below a
   * kept path that lies inside the destination (the working list grows by
   * each directory met whose parent is on it).
   */
  predicate Protected(sw: Sweep, item: Path) {
    item in sw.kept || exists a :: a in sw.kept && IsWithin(a, sw.dest) && IsStrictAncestor(a, item)
  }

  /** `source_dir / item.relative_to(dest_dir)`, for an item below the destination. */
  function Counterpart(sw: Sweep, item: Path): Path {
    if |sw.dest| <= |item| then sw.source + item[|sw.dest|..] else sw.source
  }

  predicate Orphan(fs: FS, sw: Sweep, item: Path) {
    !Exists(fs, Counterpart(sw, item))
  }

  /** What the marking loop appends to `items_to_remove`. */
  predicate Candidate(fs: FS, sw: Sweep, item: Path) {
    !Protected(sw, item) && Orphan(fs, sw, item)
  }

  /** The marked entries among `s`, in the order of `s`. */
  function Marked(fs: FS, sw: Sweep, s: seq<Path>): (r: seq<Path>)
    ensures forall q :: q in r <==> q in s && Candidate(fs, sw, q)
    ensures Distinct(s) ==> Distinct(r)
    ensures TopDown(s) ==> TopDown(r)
  {
    if s == [] then []
    else
      var init := Marked(fs, sw, s[..|s| - 1]);
      assert forall q :: q in s <==> q in s[..|s| - 1] || q == s[|s| - 1] by {
        assert s == s[..|s| - 1] + [s[|s| - 1]];
      }
      if Candidate(fs, sw, s[|s| - 1]) then
        SnocKeeps(s, init);
        init + [s[|s| - 1]]
      else init
  }

  /** Appending the last entry of `s` to a selection of the others keeps its order properties. */
  lemma SnocKeeps(s: seq<Path>, r: seq<Path>)
    requires s != [] && forall q :: q in r ==> q in s[..|s| - 1]
    ensures Distinct(s) && Distinct(r) ==> Distinct(r + [s[|s| - 1]])
    ensures TopDown(s) && TopDown(r) ==> TopDown(r + [s[|s| - 1]])
  {
    var t := r + [s[|s| - 1]];
    forall i | 0 <= i < |r|
      ensures Distinct(s) ==> t[i] != s[|s| - 1]
      ensures TopDown(s) ==> !IsStrictAncestor(s[|s| - 1], t[i])
    {
      assert t[i] == r[i];
      assert r[i] in r;
      var k :| 0 <= k < |s| - 1 && s[k] == r[i];
    }
    assert forall i, j :: 0 <= i < j < |r| ==> t[i] == r[i] && t[j] == r[j];
  }

  lemma StrictAncestorTrans(a: Path, b: Path, c: Path)
    requires IsStrictAncestor(a, b) && IsStrictAncestor(b, c)
    ensures IsStrictAncestor(a, c)
  {
    assert c[..|a|] == c[..|b|][..|a|];
  }

  /** A strict ancestor of a path other than its parent is a strict ancestor of the parent. */
  lemma AncestorOfParent(a: Path, p: Path)
    requires IsStrictAncestor(a, p) && a != Parent(p) && p != Root
    ensures IsStrictAncestor(a, Parent(p))
  {
    assert Parent(p)[..|a|] == p[..|a|];
  }

  /**
   * At the `k`-th entry of the enumeration, the working list holds the kept
   * paths and the directories already met that are passed over; the entry
   * is passed over exactly when it is kept or its parent is on that list.
   */
  lemma ProtectedStep(fs: FS, sw: Sweep, items: seq<Path>, k: nat, working: seq<Path>)
    requires Valid(fs) && Normal(sw.dest) && items == Descendants(fs, sw.dest) && k < |items|
    requires Working(fs, sw, items, k, working)
    ensures items[k] in working <==> items[k] in sw.kept
    ensures Protected(sw, items[k]) <==> items[k] in sw.kept || Parent(items[k]) in working
  {
    var item := items[k];
    assert item in items;
    assert item != Root;
    var up := Parent(item);
    assert item !in items[..k];
    assert IsWithin(up, sw.dest) by {
      if up != sw.dest {
        AncestorOfParent(sw.dest, item);
      }
    }
    if up in working && item !in sw.kept {
      if up !in sw.kept {
        assert Protected(sw, up);
        var a :| a in sw.kept && IsWithin(a, sw.dest) && IsStrictAncestor(a, up);
        StrictAncestorTrans(a, up, item);
      }
    }
    if Protected(sw, item) && item !in sw.kept {
      var a :| a in sw.kept && IsWithin(a, sw.dest) && IsStrictAncestor(a, item);
      if a != up {
        AncestorOfParent(a, item);
        assert IsDir(fs, up);
        assert IsStrictAncestor(sw.dest, up) by {
          if a != sw.dest {
            StrictAncestorTrans(sw.dest, a, up);
          }
        }
        assert up in items;
        var j :| 0 <= j < |items| && items[j] == up;
        assert j < k;
        assert items[..k][j] == up;
      }
    }
  }

  /** The working list after the first `k` entries: the kept paths and the directories met so far that are passed over. */
  ghost predicate Working(fs: FS, sw: Sweep, items: seq<Path>, k: nat, working: seq<Path>)
    requires k <= |items|
  {
    forall p :: p in working <==> p in sw.kept || (p in items[..k] && IsDir(fs, p) && Protected(sw, p))
  }

  lemma WorkingNext(fs: FS, sw: Sweep, items: seq<Path>, k: nat, working: seq<Path>)
    requires k < |items| && Working(fs, sw, items, k, working)
    ensures Protected(sw, items[k]) && IsDir(fs, items[k]) && items[k] !in sw.kept ==>
      Working(fs, sw, items, k + 1, working + [items[k]])
    ensures !(Protected(sw, items[k]) && IsDir(fs, items[k])) || items[k] in sw.kept ==>
      Working(fs, sw, items, k + 1, working)
  {
    assert forall p :: p in items[..k + 1] <==> p in items[..k] || p == items[k] by {
      assert items[..k + 1] == items[..k] + [items[k]];
    }
  }

  lemma MarkedNext(fs: FS, sw: Sweep, items: seq<Path>, k: nat)
    requires k < |items|
    ensures Marked(fs, sw, items[..k + 1]) ==
      if Candidate(fs, sw, items[k]) then Marked(fs, sw, items[..k]) + [items[k]] else Marked(fs, sw, items[..k])
  {
    assert items[..k + 1][..k] == items[..k];
  }

  /** The marking loop over `dest_dir.rglob("*")`, with its working copy of the kept orphans. */
  method MarkOrphans(fs: FS, sw: Sweep) returns (marked: seq<Path>)
    requires Valid(fs) && Normal(sw.dest)
    ensures marked == Marked(fs, sw, Descendants(fs, sw.dest))
  {
    var items := Descendants(fs, sw.dest);
    var working := sw.kept;
    marked := [];
    for k := 0 to |items|
      invariant marked == Marked(fs, sw, items[..k])
      invariant Working(fs, sw, items, k, working)
    {
      var item := items[k];
      ProtectedStep(fs, sw, items, k, working);
      WorkingNext(fs, sw, items, k, working);
      MarkedNext(fs, sw, items, k);
      if item in working {
      } else if Parent(item) in working {
        if IsDir(fs, item) {
          working := working + [item];
        }
      } else {
        var counterpart := Counterpart(sw, item);
        if !Exists(fs, counterpart) {
          marked := marked + [item];
        }
      }
    }
    assert items[..|items|] == items;
  }

  /** `g` only lost entries of `ms`: whatever is left is unchanged. */
  ghost predicate Shrinks(fs: FS, g: FS, ms: seq<Path>) {
    && (forall q :: q in g.nodes ==> q in fs.nodes && g.nodes[q] == fs.nodes[q])
    && (forall q :: q in fs.nodes && q !in ms ==> q in g.nodes)
  }

  /** The file loop over the marked entries: each one that is a file when its turn comes is unlinked. */
  function DropFiles(fs: FS, ms: seq<Path>, faults: set<Path>): (r: FS)
    requires Valid(fs)
    ensures Valid(r) && Shrinks(fs, r, ms)
  {
    if ms == [] then fs
    else
      var g := DropFiles(fs, ms[..|ms| - 1], faults);
      assert forall q :: q in ms[..|ms| - 1] ==> q in ms;
      if IsFile(g, ms[|ms| - 1]) then Unlink(g, ms[|ms| - 1], faults).fs else g
  }

  /** One turn of the directory loop: an empty directory is removed. */
  function DirStep(fs: FS, m: Path, faults: set<Path>): (r: FS)
    requires Valid(fs)
    ensures Valid(r) && Shrinks(fs, r, [m])
  {
    if IsDir(fs, m) && Children(fs, m) == [] then Rmdir(fs, m, faults).fs else fs
  }

  /** The directory loop once it has gone from the last marked entry down to the `k`-th. */
  function DropDirsFrom(fs: FS, ms: seq<Path>, faults: set<Path>, k: nat): (r: FS)
    requires Valid(fs) && k <= |ms|
    ensures Valid(r) && Shrinks(fs, r, ms[k..])
    decreases |ms| - k
  {
    if k == |ms| then fs
    else
      var g := DropDirsFrom(fs, ms, faults, k + 1);
      var h := DirStep(g, ms[k], faults);
      ShrinksOnto(fs, g, h, ms, k);
      h
  }

  /** Shrinking by the entries after the `k`-th, then by the `k`-th, shrinks by both. */
  lemma ShrinksOnto(fs: FS, g: FS, h: FS, ms: seq<Path>, k: nat)
    requires k < |ms| && Shrinks(fs, g, ms[k + 1..]) && Shrinks(g, h, [ms[k]])
    ensures Shrinks(fs, h, ms[k..])
  {
    assert ms[k..] == [ms[k]] + ms[k + 1..];
  }

  /** The whole orphan pass. */
  function Prune(fs: FS, sw: Sweep): (r: FS)
    requires Valid(fs) && Normal(sw.dest)
    ensures Valid(r)
  {
    var ms := Marked(fs, sw, Descendants(fs, sw.dest));
    DropDirsFrom(DropFiles(fs, ms, sw.faults), ms, sw.faults, 0)
  }

  /** The first deletion loop, one progress step per file unlinked or attempted. */
  method RemoveFiles(fs: FS, ms: seq<Path>, faults: set<Path>, bar: BarController) returns (r: FS)
    requires Valid(fs) && bar.Valid() && bar.nextTotal.Some?
    modifies bar
    ensures r == DropFiles(fs, ms, faults)
    ensures bar.Valid() && bar.nextTotal == old(bar.nextTotal) && bar.phaseBase == old(bar.phaseBase)
  {
    r := fs;
    for k := 0 to |ms|
      invariant Valid(r) && r == DropFiles(fs, ms[..k], faults)
      invariant bar.Valid() && bar.nextTotal == old(bar.nextTotal) && bar.phaseBase == old(bar.phaseBase)
    {
      assert ms[..k + 1][..k] == ms[..k] && ms[..k + 1][k] == ms[k];
      if IsFile(r, ms[k]) {
        bar.Update(None);
        r := Unlink(r, ms[k], faults).fs;
      }
    }
    assert ms[..|ms|] == ms;
  }

  /** The second deletion loop, in reverse discovery order, one progress step per directory met. */
  method RemoveDirs(fs: FS, ms: seq<Path>, faults: set<Path>, bar: BarController) returns (r: FS)
    requires Valid(fs) && bar.Valid() && bar.nextTotal.Some?
    modifies bar
    ensures r == DropDirsFrom(fs, ms, faults, 0)
    ensures bar.Valid() && bar.nextTotal == old(bar.nextTotal) && bar.phaseBase == old(bar.phaseBase)
  {
    r := fs;
    var k := |ms|;
    while k > 0
      invariant 0 <= k <= |ms| && Valid(r) && r == DropDirsFrom(fs, ms, faults, k)
      invariant bar.Valid() && bar.nextTotal == old(bar.nextTotal) && bar.phaseBase == old(bar.phaseBase)
    {
      k := k - 1;
      ghost var before := r;
      if IsDir(r, ms[k]) {
        bar.Update(None);
        if Children(r, ms[k]) == [] {
          r := Rmdir(r, ms[k], faults).fs;
        }
      }
      assert r == DirStep(before, ms[k], faults);
    }
  }

  /** The orphan pass as `mirror` runs it. */
  method PruneOrphans(fs: FS, sw: Sweep, bar: BarController) returns (r: FS)
    requires Valid(fs) && Normal(sw.dest) && bar.Valid() && bar.nextTotal.Some?
    modifies bar
    ensures r == Prune(fs, sw)
    ensures bar.Valid() && bar.nextTotal == old(bar.nextTotal) && bar.phaseBase == old(bar.phaseBase)
  {
    var ms := MarkOrphans(fs, sw);
    var h := RemoveFiles(fs, ms, sw.faults, bar);
    r := RemoveDirs(h, ms, sw.faults, bar);
  }

  // ---------------------------------------------------------------------
  // What the orphan pass removes and what it keeps

  /** With no failing unlink, no marked entry is left as a file. */
  lemma {:induction false} FilesGone(fs: FS, ms: seq<Path>)
    requires Valid(fs)
    ensures forall m :: m in ms ==> !IsFile(DropFiles(fs, ms, {}), m)
  {
    if ms != [] {
      var init, last := ms[..|ms| - 1], ms[|ms| - 1];
      var g := DropFiles(fs, init, {});
      var r := DropFiles(fs, ms, {});
      FilesGone(fs, init);
      assert r == if IsFile(g, last) then Unlink(g, last, {}).fs else g;
      assert r.nodes.Keys <= g.nodes.Keys && forall q :: q in r.nodes ==> r.nodes[q] == g.nodes[q];
      forall m | m in ms
        ensures !IsFile(r, m)
      {
        if m != last {
          assert ms == init + [last];
          assert m in init;
        }
      }
    }
  }

  /** Everything below `d` is marked. */
  ghost predicate Complete(fs: FS, ms: seq<Path>, d: Path) {
    forall q :: q in fs.nodes && IsStrictAncestor(d, q) ==> q in ms
  }

  /**
   * With no failing rmdir, a marked directory all of whose contents are
   * marked (and no longer files) is gone once the loop has passed it: its
   * contents come later in the marked list, so the loop meets them first.
   */
  lemma {:induction false} DirsGoneFrom(fs: FS, ms: seq<Path>, k: nat)
    requires Valid(fs) && k <= |ms| && Distinct(ms) && TopDown(ms) && Root !in ms
    requires forall m :: m in ms ==> !IsFile(fs, m)
    ensures forall j :: k <= j < |ms| && Complete(fs, ms, ms[j]) ==> ms[j] !in DropDirsFrom(fs, ms, {}, k).nodes
    decreases |ms| - k
  {
    if k < |ms| {
      DirsGoneFrom(fs, ms, k + 1);
      var g := DropDirsFrom(fs, ms, {}, k + 1);
      assert DropDirsFrom(fs, ms, {}, k) == DirStep(g, ms[k], {});
      DirsGoneStep(fs, ms, k, g);
    }
  }

  lemma DirsGoneStep(fs: FS, ms: seq<Path>, k: nat, g: FS)
    requires Valid(fs) && k < |ms| && Distinct(ms) && TopDown(ms) && Root !in ms
    requires forall m :: m in ms ==> !IsFile(fs, m)
    requires Valid(g) && Shrinks(fs, g, ms[k + 1..])
    requires forall j :: k < j < |ms| && Complete(fs, ms, ms[j]) ==> ms[j] !in g.nodes
    ensures forall j :: k <= j < |ms| && Complete(fs, ms, ms[j]) ==> ms[j] !in DirStep(g, ms[k], {}).nodes
  {
    var m := ms[k];
    assert m in ms;
    if Complete(fs, ms, m) && m in g.nodes {
      EmptyWhenContentsGone(fs, ms, k, g);
    }
  }

  lemma EmptyWhenContentsGone(fs: FS, ms: seq<Path>, k: nat, g: FS)
    requires Valid(fs) && k < |ms| && Distinct(ms) && TopDown(ms)
    requires forall m :: m in ms ==> !IsFile(fs, m)
    requires Valid(g) && Shrinks(fs, g, ms[k + 1..])
    requires forall j :: k < j < |ms| && Complete(fs, ms, ms[j]) ==> ms[j] !in g.nodes
    requires Complete(fs, ms, ms[k]) && ms[k] in g.nodes
    ensures Children(g, ms[k]) == []
  {
    var m := ms[k];
    if Children(g, m) != [] {
      var q := Children(g, m)[0];
      assert q in Children(g, m);
      assert Normal(m) && Normal(q);
      assert IsStrictAncestor(m, q);
      assert q in ms;
      var i :| 0 <= i < |ms| && ms[i] == q;
      assert i > k;
      forall p | p in fs.nodes && IsStrictAncestor(q, p)
        ensures p in ms
      {
        StrictAncestorTrans(m, q, p);
      }
      assert Complete(fs, ms, ms[i]);
    }
  }

  /** What is left after the orphan pass was there before, unchanged; only marked entries went. */
  lemma PruneShrinks(fs: FS, sw: Sweep)
    requires Valid(fs) && Normal(sw.dest)
    ensures Shrinks(fs, Prune(fs, sw), Marked(fs, sw, Descendants(fs, sw.dest)))
  {
    var ms := Marked(fs, sw, Descendants(fs, sw.dest));
    assert ms[0..] == ms;
  }

  /**
   * The orphan pass removes only unprotected orphans strictly below the
   * destination: anything outside it, anything kept and anything with a
   * source counterpart stays as it was.
   */
  lemma PruneRemovesOnlyOrphans(fs: FS, sw: Sweep)
    requires Valid(fs) && Normal(sw.dest)
    ensures forall q :: q in Prune(fs, sw).nodes ==> q in fs.nodes && Prune(fs, sw).nodes[q] == fs.nodes[q]
    ensures forall q :: q in fs.nodes && q !in Prune(fs, sw).nodes ==>
      IsStrictAncestor(sw.dest, q) && !Protected(sw, q) && Orphan(fs, sw, q)
  {
    PruneShrinks(fs, sw);
  }

  /** Neither `q` nor anything below it is passed over by the kept-orphans tests. */
  ghost predicate Unkept(fs: FS, sw: Sweep, q: Path) {
    !Protected(sw, q) && forall p :: p in fs.nodes && IsStrictAncestor(q, p) ==> !Protected(sw, p)
  }

  /** What lies below an orphan is an orphan. */
  lemma OrphanBelow(fs: FS, sw: Sweep, q: Path, p: Path)
    requires Valid(fs) && SweepValid(sw) && IsStrictAncestor(sw.dest, q) && IsStrictAncestor(q, p)
    requires Orphan(fs, sw, q)
    ensures Orphan(fs, sw, p)
  {
    var cq, cp := Counterpart(sw, q), Counterpart(sw, p);
    if cp in fs.nodes {
      assert cp[..|cq|] == cq by {
        assert p[|sw.dest|..][..|q| - |sw.dest|] == q[|sw.dest|..] by {
          assert p[..|q|] == q;
        }
      }
      AncestorIsDir(fs, cq, cp);
    }
  }

  /**
   * With no failing deletion, the orphan pass removes every unkept orphan
   * strictly below the destination: a file as soon as it is not kept, a
   * directory when nothing in it is kept either.
   */
  lemma PruneRemovesOrphans(fs: FS, sw: Sweep)
    requires Valid(fs) && SweepValid(sw) && sw.faults == {}
    ensures forall q :: IsStrictAncestor(sw.dest, q) && Orphan(fs, sw, q) && Unkept(fs, sw, q) ==> q !in Prune(fs, sw).nodes
  {
    var ms := Marked(fs, sw, Descendants(fs, sw.dest));
    var h := DropFiles(fs, ms, {});
    FilesGone(fs, ms);
    assert Root !in ms;
    DirsGoneFrom(h, ms, 0);
    forall q | IsStrictAncestor(sw.dest, q) && Orphan(fs, sw, q) && Unkept(fs, sw, q)
      ensures q !in Prune(fs, sw).nodes
    {
      if q in h.nodes {
        assert q in ms;
        var j :| 0 <= j < |ms| && ms[j] == q;
        forall p | p in h.nodes && IsStrictAncestor(q, p)
          ensures p in ms
        {
          StrictAncestorTrans(sw.dest, q, p);
          OrphanBelow(fs, sw, q, p);
        }
        assert Complete(h, ms, ms[j]);
      }
    }
  }

  /** An entry that stays keeps every directory above it: a marked directory holding a kept entry is not removed. */
  lemma PruneKeepsAncestors(fs: FS, sw: Sweep, q: Path, p: Path)
    requires Valid(fs) && Normal(sw.dest) && IsStrictAncestor(q, p) && p in Prune(fs, sw).nodes
    ensures q in Prune(fs, sw).nodes
  {
    AncestorIsDir(Prune(fs, sw), q, p);
  }

  /** A kept entry survives the orphan pass. */
  lemma PruneKeepsProtected(fs: FS, sw: Sweep, p: Path)
    requires Valid(fs) && Normal(sw.dest) && p in fs.nodes && Protected(sw, p)
    ensures p in Prune(fs, sw).nodes && Prune(fs, sw).nodes[p] == fs.nodes[p]
  {
    PruneRemovesOnlyOrphans(fs, sw);
  }
}
