/**
 * `AbstractOutput` of `outputs/abstract.py`: one directive found in a content
 * file, what it is replaced by, and the directory its artefacts go to.
 */
module Outputs {
  import opened Wrappers
  import opened Paths
  import opened Patterns

  /** The subclasses that the container creates, and the base class itself. */
  datatype Kind = BaseOutput | ExcelImgOutput | ExcelMarkdownOutput | ImgCopyOutput

  /** The `source_dir` and `build_dir` of the container an output belongs to. */
  datatype Site = Site(sourceDir: Path, buildDir: Path)

  /**
   * The record: the match it was created from, the file it was found in, its
   * container (None until it is added to one) and its replacement text.
   */
  datatype Output = Output(kind: Kind, rematch: Match, contentPath: Path, container: Option<Site>, subBy: string)

  /** A freshly created output: no container yet and an empty replacement. */
  function NewOutput(kind: Kind, rematch: Match, contentPath: Path): (o: Output)
    ensures o.container == None && o.subBy == ""
    ensures o.kind == kind && o.rematch == rematch && o.contentPath == contentPath
  {
    Output(kind, rematch, contentPath, None, "")
  }

  /**
   * `generated_dir`: `container.build_dir / GENERATED_PATH_IN_BUILD_DIR`;
   * without a container the attribute access raises.
   */
  function GeneratedDir(o: Output, generated: Path): (r: Result<Path>)
    ensures r.Ok? <==> o.container.Some?
    ensures r.Ok? && !IsAbsolute(generated) ==> r.value == o.container.value.buildDir + generated
  {
    match o.container
    case None => Err(AttributeError("'NoneType' object has no attribute 'build_dir'"))
    case Some(site) => Ok(Join(site.buildDir, generated))
  }

  /** A relative, non-empty generated directory lies strictly inside the build directory. */
  lemma GeneratedDirInsideBuild(o: Output, generated: Path)
    requires o.container.Some? && generated != [] && !IsAbsolute(generated)
    ensures IsStrictAncestor(o.container.value.buildDir, GeneratedDir(o, generated).value)
  {
    var b := o.container.value.buildDir;
    assert (b + generated)[..|b|] == b;
  }

  /** The default `build` leaves the output as it is, so `sub_by` stays empty. */
  function BaseBuild(o: Output): (r: Output)
    requires o.kind == BaseOutput
    ensures r == o && r.subBy == o.subBy
  {
    o
  }
}
