/**
 * `utils/source.py`: the files below a directory whose suffix is one of a
 * list of extensions, found depth-first in `iterdir` order, and the
 * markdown sources (`.md` and `.qmd`) as the special case the renderers use.
 */
module Source {
  import opened Wrappers
  import opened Paths
  import opened FileSystem

  /** The `extensions` argument: a list, or a single extension the iterator wraps in one. */
  datatype Extensions = Single(ext: string) | Several(exts: seq<string>)

  function AsList(e: Extensions): (r: seq<string>)
    ensures forall s :: s in r <==> (if e.Single? then s == e.ext else s in e.exts)
  {
    match e
    case Single(s) => [s]
    case Several(l) => l
  }

  /** The entries strictly below `dir`: the walk from `dir` only ever looks at these. */
  function Under(fs: FS, dir: Path): set<Path> {
    set q | q in fs.nodes && IsStrictAncestor(dir, q)
  }

  lemma UnderShrinks(fs: FS, dir: Path, x: Path)
    requires Normal(dir) && IsChild(dir, x) && x in fs.nodes
    ensures |Under(fs, x)| < |Under(fs, dir)|
  {
    forall q | q in Under(fs, x)
      ensures q in Under(fs, dir)
    {
      assert q[..|dir|] == q[..|x|][..|dir|];
    }
    var a, b := Under(fs, x), Under(fs, dir);
    assert x in b - a;
    assert b == a + (b - a);
  }

  /** The child of `dir` on the way down to `q`. */
  function Branch(dir: Path, q: Path): Path {
    if |dir| < |q| then q[..|dir| + 1] else q
  }

  /** `with_extension_file_iterator(dir, exts)` once `extensions` is a list. */
  function FilesIn(fs: FS, dir: Path, exts: seq<string>): (r: seq<Path>)
    requires Valid(fs) && Normal(dir)
    ensures forall q :: q in r ==> IsFile(fs, q) && IsStrictAncestor(dir, q) && Suffix(q) in exts
    ensures Distinct(r)
    decreases |Under(fs, dir)|, 1
  {
    FilesOf(fs, dir, Children(fs, dir), exts)
  }

  /** The loop of the iterator over `items`, children of `dir` in `iterdir` order. */
  function FilesOf(fs: FS, dir: Path, items: seq<Path>, exts: seq<string>): (r: seq<Path>)
    requires Valid(fs) && Normal(dir) && Distinct(items)
    requires forall k :: 0 <= k < |items| ==> items[k] in fs.nodes && IsChild(dir, items[k])
    ensures forall q :: q in r ==> IsFile(fs, q) && IsStrictAncestor(dir, q) && Suffix(q) in exts
    ensures forall q :: q in r ==> Branch(dir, q) in items
    ensures Distinct(r)
    decreases |Under(fs, dir)|, 0, |items|
  {
    if items == [] then []
    else
      var here := FilesAt(fs, dir, items[0], exts);
      var tail := items[1..];
      TailChildren(fs, dir, items);
      var rest := FilesOf(fs, dir, tail, exts);
      Disjoint(here, rest, dir, items[0], items);
      Joined(fs, dir, items, exts, here, rest);
      here + rest
  }

  lemma TailChildren(fs: FS, dir: Path, items: seq<Path>)
    requires items != [] && Distinct(items)
    requires forall k :: 0 <= k < |items| ==> items[k] in fs.nodes && IsChild(dir, items[k])
    ensures Distinct(items[1..])
    ensures forall k :: 0 <= k < |items[1..]| ==> items[1..][k] in fs.nodes && IsChild(dir, items[1..][k])
  {
    forall k | 0 <= k < |items[1..]|
      ensures items[1..][k] in fs.nodes && IsChild(dir, items[1..][k])
    {
      assert items[1..][k] == items[k + 1];
    }
  }

  lemma Joined(fs: FS, dir: Path, items: seq<Path>, exts: seq<string>, here: seq<Path>, rest: seq<Path>)
    requires items != []
    requires forall q :: q in here ==> IsFile(fs, q) && IsStrictAncestor(dir, q) && Suffix(q) in exts && Branch(dir, q) == items[0]
    requires forall q :: q in rest ==> IsFile(fs, q) && IsStrictAncestor(dir, q) && Suffix(q) in exts && Branch(dir, q) in items[1..]
    ensures forall q :: q in here + rest ==> IsFile(fs, q) && IsStrictAncestor(dir, q) && Suffix(q) in exts
    ensures forall q :: q in here + rest ==> Branch(dir, q) in items
  {
    forall q | q in here + rest
      ensures Branch(dir, q) in items
    {
      if q !in here {
        assert Branch(dir, q) in items[1..];
      }
    }
  }

  /** One entry of the loop: a directory is walked, a file is yielded when its suffix matches. */
  function FilesAt(fs: FS, dir: Path, p: Path, exts: seq<string>): (r: seq<Path>)
    requires Valid(fs) && Normal(dir) && p in fs.nodes && IsChild(dir, p)
    ensures forall q :: q in r ==> IsFile(fs, q) && IsStrictAncestor(dir, q) && Suffix(q) in exts
    ensures forall q :: q in r ==> Branch(dir, q) == p
    ensures Distinct(r)
    decreases |Under(fs, dir)|, 0, 0
  {
    if IsDir(fs, p) then
      UnderShrinks(fs, dir, p);
      var below := FilesIn(fs, p, exts);
      BelowBranch(dir, p, below);
      below
    else if Suffix(p) in exts then [p]
    else []
  }

  lemma BelowBranch(dir: Path, p: Path, below: seq<Path>)
    requires IsChild(dir, p) && |dir| >= 1
    requires forall q :: q in below ==> IsStrictAncestor(p, q)
    ensures forall q :: q in below ==> IsStrictAncestor(dir, q) && Branch(dir, q) == p
  {
    forall q | q in below
      ensures IsStrictAncestor(dir, q) && Branch(dir, q) == p
    {
      assert q[..|dir|] == q[..|p|][..|dir|];
      assert q[..|dir| + 1] == q[..|p|];
    }
  }

  lemma Disjoint(here: seq<Path>, rest: seq<Path>, dir: Path, p: Path, items: seq<Path>)
    requires items != [] && p == items[0] && Distinct(items) && Distinct(here) && Distinct(rest)
    requires forall q :: q in here ==> |dir| < |q| && Branch(dir, q) == p
    requires forall q :: q in rest ==> |dir| < |q| && Branch(dir, q) in items[1..]
    ensures Distinct(here + rest)
  {
    var r := here + rest;
    forall i, j | 0 <= i < j < |r|
      ensures r[i] != r[j]
    {
      if i < |here| && j >= |here| {
        assert r[i] in here && r[j] in rest;
      } else if j < |here| {
        assert r[i] == here[i] && r[j] == here[j];
      } else {
        assert r[i] == rest[i - |here|] && r[j] == rest[j - |here|];
      }
    }
  }

  /** The iterator, when it is consumed; `iterdir` raises for a missing directory or a file. */
  function WithExtension(fs: FS, path: Path, e: Extensions): (r: Result<seq<Path>>)
    requires Valid(fs) && Normal(path)
    ensures r.Err? <==> !IsDir(fs, path)
  {
    if path !in fs.nodes then Err(FileNotFoundError("iterdir"))
    else if IsFile(fs, path) then Err(NotADirectoryError("iterdir"))
    else Ok(FilesIn(fs, path, AsList(e)))
  }

  /** `markdown_file_iterator`. */
  function MarkdownFiles(fs: FS, path: Path): (r: Result<seq<Path>>)
    requires Valid(fs) && Normal(path)
  {
    WithExtension(fs, path, Several([".md", ".qmd"]))
  }

  // ---------------------------------------------------------------------
  // What the iterator yields

  /** A file is yielded by the loop over `items` when its branch is one of them. */
  lemma {:induction false} FilesOfHas(fs: FS, dir: Path, items: seq<Path>, exts: seq<string>, q: Path)
    requires Valid(fs) && Normal(dir) && Distinct(items)
    requires forall k :: 0 <= k < |items| ==> items[k] in fs.nodes && IsChild(dir, items[k])
    requires IsFile(fs, q) && IsStrictAncestor(dir, q) && Suffix(q) in exts && Branch(dir, q) in items
    ensures q in FilesOf(fs, dir, items, exts)
    decreases |Under(fs, dir)|, 0, |items|
  {
    var p := items[0];
    if Branch(dir, q) == p {
      if q != p {
        assert IsStrictAncestor(p, q);
        AncestorIsDir(fs, p, q);
        UnderShrinks(fs, dir, p);
        FilesInHas(fs, p, exts, q);
      }
      assert q in FilesAt(fs, dir, p, exts);
    } else {
      FilesOfHas(fs, dir, items[1..], exts, q);
    }
  }

  lemma {:induction false} FilesInHas(fs: FS, dir: Path, exts: seq<string>, q: Path)
    requires Valid(fs) && Normal(dir)
    requires IsFile(fs, q) && IsStrictAncestor(dir, q) && Suffix(q) in exts
    ensures q in FilesIn(fs, dir, exts)
    decreases |Under(fs, dir)|, 1
  {
    var b := Branch(dir, q);
    assert IsChild(dir, b);
    assert b in fs.nodes by {
      if b != q {
        AncestorIsDir(fs, b, q);
      }
    }
    FilesOfHas(fs, dir, Children(fs, dir), exts, q);
  }

  /**
   * On a directory the iterator yields every file below it, at any depth,
   * whose suffix is one of the extensions (a single extension counting as
   * a list of one), each once, and nothing else; on anything else it raises.
   */
  lemma WithExtensionExactly(fs: FS, path: Path, e: Extensions)
    requires Valid(fs) && Normal(path)
    ensures WithExtension(fs, path, e).Ok? <==> IsDir(fs, path)
    ensures WithExtension(fs, path, e).Ok? ==> Distinct(WithExtension(fs, path, e).value)
    ensures WithExtension(fs, path, e).Ok? ==> forall q :: q in WithExtension(fs, path, e).value <==>
      IsFile(fs, q) && IsStrictAncestor(path, q) && Suffix(q) in AsList(e)
  {
    if IsDir(fs, path) {
      forall q | IsFile(fs, q) && IsStrictAncestor(path, q) && Suffix(q) in AsList(e)
        ensures q in FilesIn(fs, path, AsList(e))
      {
        FilesInHas(fs, path, AsList(e), q);
      }
    }
  }

  /** The markdown iterator yields exactly the `.md` and `.qmd` files below the directory. */
  lemma MarkdownExactly(fs: FS, path: Path)
    requires Valid(fs) && IsDir(fs, path) && Normal(path)
    ensures MarkdownFiles(fs, path).Ok?
    ensures forall q :: q in MarkdownFiles(fs, path).value <==>
      IsFile(fs, q) && IsStrictAncestor(path, q) && (Suffix(q) == ".md" || Suffix(q) == ".qmd")
  {
    WithExtensionExactly(fs, path, Several([".md", ".qmd"]));
  }

  // ---------------------------------------------------------------------
  // The walk sees only the shape of the tree

  /** Rewriting files leaves the walk unchanged: it depends only on the entries, their order and their kinds. */
  lemma {:induction false} SameShapeFilesIn(fs: FS, g: FS, dir: Path, exts: seq<string>)
    requires Valid(fs) && Valid(g) && Normal(dir) && SameShape(fs, g)
    ensures FilesIn(fs, dir, exts) == FilesIn(g, dir, exts)
    decreases |Under(fs, dir)|, 1
  {
    assert Children(fs, dir) == Children(g, dir);
    SameShapeFilesOf(fs, g, dir, Children(fs, dir), exts);
  }

  lemma {:induction false} SameShapeFilesOf(fs: FS, g: FS, dir: Path, items: seq<Path>, exts: seq<string>)
    requires Valid(fs) && Valid(g) && Normal(dir) && SameShape(fs, g) && Distinct(items)
    requires forall k :: 0 <= k < |items| ==> items[k] in fs.nodes && IsChild(dir, items[k])
    ensures FilesOf(fs, dir, items, exts) == FilesOf(g, dir, items, exts)
    decreases |Under(fs, dir)|, 0, |items|
  {
    if items != [] {
      SameShapeFilesAt(fs, g, dir, items[0], exts);
      SameShapeFilesOf(fs, g, dir, items[1..], exts);
    }
  }

  lemma {:induction false} SameShapeFilesAt(fs: FS, g: FS, dir: Path, p: Path, exts: seq<string>)
    requires Valid(fs) && Valid(g) && Normal(dir) && SameShape(fs, g) && p in fs.nodes && IsChild(dir, p)
    ensures FilesAt(fs, dir, p, exts) == FilesAt(g, dir, p, exts)
    decreases |Under(fs, dir)|, 0, 0
  {
    if IsDir(fs, p) {
      UnderShrinks(fs, dir, p);
      SameShapeFilesIn(fs, g, p, exts);
    }
  }

  /** The markdown listing of a directory is the same in two trees of the same shape. */
  lemma SameShapeMarkdown(fs: FS, g: FS, path: Path)
    requires Valid(fs) && Valid(g) && Normal(path) && SameShape(fs, g)
    ensures MarkdownFiles(fs, path) == MarkdownFiles(g, path)
  {
    if IsDir(fs, path) {
      SameShapeFilesIn(fs, g, path, [".md", ".qmd"]);
    }
  }
}
