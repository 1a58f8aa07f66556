/** Where the serving page looks for the pickled pipeline: first under the
    repository root (three directories above the page's own directory),
    then next to the page. Whether a file exists is a parameter, since the
    file system is outside the model. */
module ModelPath {
  import opened Wrappers

  /** A file-system path as its list of components. */
  type Path = seq<string>

  /** The pipeline file, relative to the directory it is looked up in. */
  const ModelRelPath: Path := ["models", "randomForest_with_area_pipeline.pkl"]

  /** `os.path.dirname`: the parent directory; the root is its own parent. */
  function DirName(p: Path): (q: Path)
    ensures |p| > 0 ==> q == p[..|p| - 1]
    ensures |p| == 0 ==> q == p
  {
    if |p| == 0 then p else p[..|p| - 1]
  }

  /** The first place looked: the model directory of the repository root. */
  function RootCandidate(base: Path): Path {
    DirName(DirName(DirName(base))) + ModelRelPath
  }

  /** The fallback: the model directory next to the page. */
  function LocalCandidate(base: Path): Path {
    base + ModelRelPath
  }

  /** Loading fails only when the file is at neither place. */
  datatype LoadError = PipelineNotFound

  /** The path the pipeline is loaded from: the root candidate whenever it
      exists, otherwise the local candidate if that exists, otherwise an
      error (the page shows a message and stops). */
  function ResolvePipelinePath(base: Path, pathExists: Path -> bool): (r: Result<Path, LoadError>)
    ensures r.Success? ==> pathExists(r.value)
    ensures r.Success? ==> r.value == RootCandidate(base) || r.value == LocalCandidate(base)
    ensures pathExists(RootCandidate(base)) ==> r == Success(RootCandidate(base))
    ensures !pathExists(RootCandidate(base)) && pathExists(LocalCandidate(base)) ==> r == Success(LocalCandidate(base))
    ensures r.Failure? <==> !pathExists(RootCandidate(base)) && !pathExists(LocalCandidate(base))
  {
    var path := if !pathExists(RootCandidate(base)) then LocalCandidate(base) else RootCandidate(base);
    if pathExists(path) then Success(path) else Failure(PipelineNotFound)
  }

  /** Both candidates name the same file; the root candidate sits three
      directories higher than the page's directory whenever the page is at
      least that deep. */
  lemma CandidatesShareFile(base: Path)
    ensures RootCandidate(base)[|RootCandidate(base)| - 2..] == ModelRelPath
    ensures LocalCandidate(base)[|LocalCandidate(base)| - 2..] == ModelRelPath
    ensures |base| >= 3 ==> RootCandidate(base) == base[..|base| - 3] + ModelRelPath
    ensures |base| < 3 ==> RootCandidate(base) == ModelRelPath
  {
  }
}
