/**
 * `mirror(source_dir, dest_dir, rm_orphans, excluded, kept_orphans)` of
 * `utils/mirror.py`: the destination is checked and created, the source is
 * checked, then the copy pass runs and, when `rm_orphans` is set, the
 * orphan pass; a progress bar of 100 is filled in two phases of 50.
 */
module Mirror {
  import opened Wrappers
  import opened Paths
  import opened FileSystem
  import opened MirrorBar
  import opened MirrorCopy
  import opened MirrorPrune

  /** The arguments of one call, with the paths the file system refuses to change and the clock. */
  datatype Call = Call(
    source: Path, dest: Path, rmOrphans: bool, excluded: seq<Path>, kept: seq<Path>,
    faults: set<Path>, now: int)

  predicate CallValid(c: Call) {
    Normal(c.source) && Normal(c.dest)
  }

  function PlanOf(c: Call): Plan {
    Plan(c.source, c.dest, c.excluded, c.faults, c.now)
  }

  function SweepOf(c: Call): Sweep {
    Sweep(c.source, c.dest, c.kept, c.faults)
  }

  /** `dest_dir.mkdir(parents=True, exist_ok=True)`. */
  function Prepare(fs: FS, c: Call): (r: Outcome)
    requires Valid(fs) && CallValid(c)
    ensures Valid(r.fs)
  {
    Mkdirs(fs, c.dest, c.faults, c.now)
  }

  /** The checks before the walk pass: the destination is now a directory and the source one too. */
  ghost predicate Walks(fs: FS, c: Call) {
    && Valid(fs) && CallValid(c) && !IsFile(fs, c.dest)
    && Prepare(fs, c).raised.None? && IsDir(Prepare(fs, c).fs, c.source)
  }

  /** The file system the copy pass leaves. */
  function Copied(fs: FS, c: Call): (r: FS)
    requires Walks(fs, c)
    ensures Valid(r)
  {
    CopyDir(Prepare(fs, c).fs, PlanOf(c), c.source)
  }

  /** The file system `mirror` leaves and the exception it raises. */
  function MirrorSpec(fs: FS, c: Call): (r: Outcome)
    requires Valid(fs) && CallValid(c)
    ensures Valid(r.fs)
  {
    if IsFile(fs, c.dest) then Outcome(fs, Some(FileExistsError("mirror")))
    else
      var made := Prepare(fs, c);
      if made.raised.Some? then made
      else if !Exists(made.fs, c.source) then Outcome(made.fs, Some(FileNotFoundError("mirror")))
      else if IsFile(made.fs, c.source) then Outcome(made.fs, Some(NotADirectoryError("iterdir")))
      else if c.rmOrphans then Outcome(Prune(Copied(fs, c), SweepOf(c)), None)
      else Outcome(Copied(fs, c), None)
  }

  /** A call that passes the checks leaves the tree of the copy pass, pruned when `rm_orphans` is set. */
  lemma Walked(fs: FS, c: Call)
    requires Walks(fs, c)
    ensures MirrorSpec(fs, c) == Outcome(if c.rmOrphans then Prune(Copied(fs, c), SweepOf(c)) else Copied(fs, c), None)
  {
    var made := Prepare(fs, c);
    assert !IsFile(fs, c.dest) && made.raised.None? && Exists(made.fs, c.source) && !IsFile(made.fs, c.source);
  }

  /** The call raises exactly when one of the checks fails. */
  lemma RaisesIffChecksFail(fs: FS, c: Call)
    requires Valid(fs) && CallValid(c)
    ensures MirrorSpec(fs, c).raised.None? <==> Walks(fs, c)
  {
    if !IsFile(fs, c.dest) {
      var made := Prepare(fs, c);
      if made.raised.None? && IsDir(made.fs, c.source) {
        Walked(fs, c);
      }
    }
  }

  /**
   * `mirror`, with the position the progress bar is left at: on success
   * both phases have filled their 50, and an exception leaves it where it
   * started.
   */
  method Run(fs: FS, c: Call) returns (r: FS, raised: Option<Error>, progress: int)
    requires Valid(fs) && CallValid(c)
    ensures Outcome(r, raised) == MirrorSpec(fs, c)
    ensures raised.None? ==> progress == 100
    ensures raised.Some? ==> progress == 0
  {
    r, raised, progress := fs, None, 0;
    if IsFile(fs, c.dest) {
      raised := Some(FileExistsError("mirror"));
      return;
    }
    var made := Mkdirs(fs, c.dest, c.faults, c.now);
    r := made.fs;
    if made.raised.Some? {
      raised := made.raised;
      return;
    }
    if !Exists(r, c.source) {
      raised := Some(FileNotFoundError("mirror"));
      return;
    }
    var bar := new BarController();
    bar.Update(Some(50));
    assert bar.shown == 0 && bar.phaseBase == 0;
    if IsFile(r, c.source) {
      raised := Some(NotADirectoryError("iterdir"));
      progress := bar.shown;
      return;
    }
    assert Walks(fs, c);
    r := Passes(r, c, bar);
    progress := bar.shown;
  }

  /** The two phases of `mirror` once the checks pass: the copy pass, then the orphan pass when `rm_orphans` is set. */
  method Passes(made: FS, c: Call, bar: BarController) returns (r: FS)
    requires CallValid(c) && CanWalk(made, PlanOf(c), c.source)
    requires bar.Valid() && bar.nextTotal == Some(50) && bar.phaseBase == 0
    modifies bar
    ensures r == if c.rmOrphans then Prune(CopyDir(made, PlanOf(c), c.source), SweepOf(c)) else CopyDir(made, PlanOf(c), c.source)
    ensures bar.shown == 100
  {
    r := CopyTree(made, PlanOf(c), c.source, bar);
    bar.Update(Some(50));
    if c.rmOrphans {
      r := PruneOrphans(r, SweepOf(c), bar);
    }
    bar.End();
  }

  // ---------------------------------------------------------------------
  // What a call promises

  /** A file standing where the destination should be is reported before anything changes. */
  lemma DestIsFile(fs: FS, c: Call)
    requires Valid(fs) && CallValid(c) && IsFile(fs, c.dest)
    ensures MirrorSpec(fs, c) == Outcome(fs, Some(FileExistsError("mirror")))
  {
  }

  /**
   * A missing source is reported only after the destination has been
   * created (when the destination is not itself what would create it).
   */
  lemma MissingSource(fs: FS, c: Call)
    requires Valid(fs) && CallValid(c) && !IsFile(fs, c.dest) && CanMkdirs(fs, c.dest, c.faults)
    requires !Exists(fs, c.source) && !IsWithin(c.dest, c.source)
    ensures MirrorSpec(fs, c).raised == Some(FileNotFoundError("mirror"))
    ensures IsDir(MirrorSpec(fs, c).fs, c.dest)
    ensures forall q :: q in fs.nodes ==> MirrorSpec(fs, c).fs.nodes[q] == fs.nodes[q]
  {
    assert c.source !in Prepare(fs, c).fs.nodes;
  }

  /**
   * Outside the destination nothing changes, whatever fails: the only
   * entries that may appear outside it are the missing directories above it.
   */
  lemma OnlyInsideDest(fs: FS, c: Call)
    requires Valid(fs) && CallValid(c)
    ensures forall q :: q in fs.nodes && !IsWithin(q, c.dest) ==>
      q in MirrorSpec(fs, c).fs.nodes && MirrorSpec(fs, c).fs.nodes[q] == fs.nodes[q]
    ensures forall q :: q in MirrorSpec(fs, c).fs.nodes && q !in fs.nodes ==> IsWithin(c.dest, q) || IsWithin(q, c.dest)
  {
    var r := MirrorSpec(fs, c).fs;
    if !IsFile(fs, c.dest) {
      var made := Prepare(fs, c).fs;
      assert Extends(fs, made) && AddsDirsTo(fs, made, c.dest, c.now);
      if Walks(fs, c) {
        Walked(fs, c);
        var h := Copied(fs, c);
        assert Grows(made, h, c.dest);
        if c.rmOrphans {
          PruneRemovesOnlyOrphans(h, SweepOf(c));
        }
        StagesFrame(fs, made, h, r, c.dest, c.now);
      } else {
        assert r == made;
      }
    }
  }

  /** Creating the destination, then growing it, then removing from inside it, changes nothing outside it. */
  lemma StagesFrame(fs: FS, made: FS, h: FS, r: FS, dest: Path, now: int)
    requires Extends(fs, made) && AddsDirsTo(fs, made, dest, now) && Grows(made, h, dest)
    requires forall q :: q in r.nodes ==> q in h.nodes && r.nodes[q] == h.nodes[q]
    requires forall q :: q in h.nodes && q !in r.nodes ==> IsStrictAncestor(dest, q)
    ensures forall q :: q in fs.nodes && !IsWithin(q, dest) ==> q in r.nodes && r.nodes[q] == fs.nodes[q]
    ensures forall q :: q in r.nodes && q !in fs.nodes ==> IsWithin(dest, q) || IsWithin(q, dest)
  {
  }

  /** Without `rm_orphans` nothing is deleted, and no directory changes. */
  lemma NoPruneKeepsAll(fs: FS, c: Call)
    requires Valid(fs) && CallValid(c) && !c.rmOrphans
    ensures forall q :: q in fs.nodes ==> q in MirrorSpec(fs, c).fs.nodes
    ensures forall q :: IsDir(fs, q) ==> MirrorSpec(fs, c).fs.nodes[q] == fs.nodes[q]
  {
    var r := MirrorSpec(fs, c).fs;
    if !IsFile(fs, c.dest) {
      var made := Prepare(fs, c).fs;
      assert Extends(fs, made);
      if Walks(fs, c) {
        Walked(fs, c);
        assert Grows(made, Copied(fs, c), c.dest);
      } else {
        assert r == made;
      }
    }
  }

  /** The copy of an entry of the source is never an orphan: it survives the orphan pass unchanged. */
  lemma CounterpartOfTarget(c: Call, x: Path)
    requires IsWithin(x, c.source)
    ensures Counterpart(SweepOf(c), Target(PlanOf(c), x)) == x
  {
    var t := Target(PlanOf(c), x);
    assert t[|c.dest|..] == x[|c.source|..];
    assert x == x[..|c.source|] + x[|c.source|..];
  }

  /**
   * The copy of any source entry still present after the copy pass stays:
   * the orphan test only looks at the counterpart, so in particular a stale
   * copy of an excluded entry is never pruned.
   */
  lemma CopiesKept(fs: FS, c: Call, x: Path)
    requires Walks(fs, c) && IsWithin(x, c.source) && x in Copied(fs, c).nodes
    requires Target(PlanOf(c), x) in Copied(fs, c).nodes
    ensures Target(PlanOf(c), x) in MirrorSpec(fs, c).fs.nodes
    ensures MirrorSpec(fs, c).fs.nodes[Target(PlanOf(c), x)] == Copied(fs, c).nodes[Target(PlanOf(c), x)]
  {
    var h := Copied(fs, c);
    Walked(fs, c);
    CounterpartOfTarget(c, x);
    if c.rmOrphans {
      assert MirrorSpec(fs, c).fs == Prune(h, SweepOf(c));
      PruneRemovesOnlyOrphans(h, SweepOf(c));
    }
  }

  /**
   * With `rm_orphans`, only unkept orphans strictly inside the destination
   * go, and with no failing deletion every one of them goes (a directory
   * when nothing in it is kept), judged on the tree the copy pass left.
   */
  lemma PrunesOrphans(fs: FS, c: Call)
    requires Walks(fs, c) && c.rmOrphans
    ensures forall q :: q in Copied(fs, c).nodes && q !in MirrorSpec(fs, c).fs.nodes ==>
      IsStrictAncestor(c.dest, q) && !Protected(SweepOf(c), q) && Orphan(Copied(fs, c), SweepOf(c), q)
    ensures c.faults == {} ==> forall q ::
      IsStrictAncestor(c.dest, q) && Orphan(Copied(fs, c), SweepOf(c), q) && Unkept(Copied(fs, c), SweepOf(c), q) ==>
        q !in MirrorSpec(fs, c).fs.nodes
  {
    var h := Copied(fs, c);
    Walked(fs, c);
    assert MirrorSpec(fs, c).fs == Prune(h, SweepOf(c));
    PruneRemovesOnlyOrphans(h, SweepOf(c));
    if c.faults == {} {
      PruneRemovesOrphans(h, SweepOf(c));
    }
  }

  /** Creating the destination and its parents leaves no file or directory in the way of a copy. */
  lemma PrepareKeepsCompatible(fs: FS, c: Call)
    requires Valid(fs) && CallValid(c) && Compatible(fs, PlanOf(c), c.source)
    ensures Compatible(Prepare(fs, c).fs, PlanOf(c), c.source)
  {
    var pl := PlanOf(c);
    var g := Prepare(fs, c).fs;
    NewOnlyAboveMissing(fs, g, c.dest, c.now);
    forall q | q in g.nodes && IsStrictAncestor(c.source, q) && Reached(pl, c.source, q)
      ensures KindsAgree(g, pl, q)
    {
      KindsAgreeAbove(fs, g, pl, q);
    }
  }

  /** What creating the destination adds lies on the way down to it, and only when it was missing. */
  lemma NewOnlyAboveMissing(fs: FS, g: FS, dest: Path, now: int)
    requires Valid(fs) && Extends(fs, g) && AddsDirsTo(fs, g, dest, now)
    ensures forall q :: q in g.nodes && q !in fs.nodes ==> dest !in fs.nodes && IsWithin(dest, q) && g.nodes[q].Dir?
  {
    forall q | q in g.nodes && q !in fs.nodes
      ensures dest !in fs.nodes
    {
      if dest in fs.nodes && q != dest {
        AncestorIsDir(fs, q, dest);
      }
    }
  }

  lemma KindsAgreeAbove(fs: FS, g: FS, pl: Plan, q: Path)
    requires Valid(fs) && PlanValid(pl) && Extends(fs, g)
    requires forall p :: p in g.nodes && p !in fs.nodes ==> pl.dest !in fs.nodes && IsWithin(pl.dest, p) && g.nodes[p].Dir?
    requires q in g.nodes && IsStrictAncestor(pl.source, q)
    requires q in fs.nodes ==> KindsAgree(fs, pl, q)
    ensures KindsAgree(g, pl, q)
  {
    var t := Target(pl, q);
    assert IsStrictAncestor(pl.dest, t);
    assert t in g.nodes ==> t in fs.nodes;
    if q !in fs.nodes {
      assert t !in fs.nodes by {
        if t in fs.nodes {
          AncestorIsDir(fs, pl.dest, t);
        }
      }
    }
  }

  /** With nothing failing, the source is synchronised into the destination, after the orphan pass too. */
  lemma Syncs(fs: FS, c: Call)
    requires Walks(fs, c) && c.faults == {} && Compatible(fs, PlanOf(c), c.source)
    ensures MirrorSpec(fs, c).raised.None?
    ensures Synced(MirrorSpec(fs, c).fs, PlanOf(c), c.source)
  {
    Walked(fs, c);
    CopiedSyncs(fs, c);
    if c.rmOrphans {
      var h := Copied(fs, c);
      PruneRemovesOnlyOrphans(h, SweepOf(c));
      SyncedThrough(h, Prune(h, SweepOf(c)), c);
    }
  }

  /** With nothing failing, the copy pass alone synchronises the source into the destination. */
  lemma CopiedSyncs(fs: FS, c: Call)
    requires Walks(fs, c) && c.faults == {} && Compatible(fs, PlanOf(c), c.source)
    ensures Synced(Copied(fs, c), PlanOf(c), c.source)
  {
    var pl := PlanOf(c);
    var made := Prepare(fs, c).fs;
    PrepareKeepsCompatible(fs, c);
    assert IsDir(made, c.dest);
    assert Target(pl, c.source) == c.dest;
    CopyDirSyncs(made, pl, c.source);
  }

  /** Removing orphans strictly inside the destination keeps every copy in place. */
  lemma SyncedThrough(h: FS, p: FS, c: Call)
    requires CallValid(c) && Synced(h, PlanOf(c), c.source)
    requires forall q :: q in p.nodes ==> q in h.nodes && p.nodes[q] == h.nodes[q]
    requires forall q :: q in h.nodes && q !in p.nodes ==> IsStrictAncestor(c.dest, q) && Orphan(h, SweepOf(c), q)
    ensures Synced(p, PlanOf(c), c.source)
  {
    var pl := PlanOf(c);
    forall q | q in p.nodes && IsStrictAncestor(c.source, q) && Reached(pl, c.source, q)
      ensures UpToDate(p, pl, q)
    {
      assert q[..|q|] == q;
      assert UpToDate(h, pl, q);
      CounterpartOfTarget(c, q);
    }
  }
}
