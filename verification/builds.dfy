/** The build record the Cloud Build API returns, as far as the handler
    reads it. RFC 3339 parsing is not part of this model: each timestamp is
    held as the instant (in nanoseconds) it parses to, or None when
    time.Parse fails on it. */
module Builds {
  import opened Wrappers

  datatype RepoSource = RepoSource(commitSha: string)

  datatype SourceProvenance = SourceProvenance(resolvedRepoSource: Option<RepoSource>)

  datatype Build = Build(
    status: string,
    startTime: Option<int>,
    finishTime: Option<int>,
    sourceProvenance: Option<SourceProvenance>)

  /** The outcome of one Projects.Builds.Get call. */
  datatype Fetch = Fetched(build: Build) | FetchFailed

  /** The commit the build was made from: present only when the provenance,
      its resolved repository source and a non-empty SHA are all there. */
  function CommitSha(b: Build): (sha: Option<string>)
    ensures sha.Some? <==>
      b.sourceProvenance.Some?
      && b.sourceProvenance.value.resolvedRepoSource.Some?
      && b.sourceProvenance.value.resolvedRepoSource.value.commitSha != ""
    ensures sha.Some? ==> sha.value == b.sourceProvenance.value.resolvedRepoSource.value.commitSha
  {
    match b.sourceProvenance
    case None => None
    case Some(p) =>
      match p.resolvedRepoSource
      case None => None
      case Some(src) => if src.commitSha == "" then None else Some(src.commitSha)
  }
}
