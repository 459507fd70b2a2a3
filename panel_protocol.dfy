/**
 * What the extension posts to its webview panel, and the report an analysis of one
 * file produces: `analysisStarted`, then exactly one of `analysisError` and
 * `analysisComplete`.
 */
module PanelProtocol {
  import opened Common
  import opened HistoryTypes
  import RecentFiles
  import GitService

  /** A message posted from the extension to the webview. */
  datatype Outbound =
    | UpdateCurrentFile(filePath: Option<string>)
    | UpdateFileHistory(files: seq<RecentFiles.RecentFile>)
    | AnalysisStarted(analysedPath: string)
    | AnalysisError(error: string)
    | AnalysisComplete(history: FileHistory)
    | UpdateGitHistory(gitHistory: FileHistory)

  /** `n` copies of `msg`: what `n` identical listeners post for one event. */
  function Copies(msg: Outbound, n: nat): (r: seq<Outbound>)
    ensures |r| == n && forall i :: 0 <= i < n ==> r[i] == msg
  {
    seq(n, _ => msg)
  }

  const NotInRepositoryError := "File is not in a git repository"
  const HistoryUnavailableError := "Failed to retrieve git history"

  /**
   * The history an analysis of `filePath` obtains: none when the file is outside every
   * repository (the history is then never asked for), else what `getFileHistory` resolves to.
   */
  function AnalysedHistory(git: GitService.GitService, filePath: string, now: Timestamp): (h: Option<FileHistory>)
    ensures !git.IsFileInGitRepository(filePath) ==> h.None?
    ensures h.Some? ==> WellFormed(h.value) && Some(h.value) == git.FileHistoryOf(filePath, GitService.DefaultMaxCommits, now)
  {
    if !git.IsFileInGitRepository(filePath) then None
    else
      git.FileHistoryOf(filePath, GitService.DefaultMaxCommits, now)
  }

  /** The messages `analyzeFile(filePath)` posts, in order, when the panel is open. */
  function AnalysisReport(git: GitService.GitService, filePath: string, now: Timestamp): (r: seq<Outbound>)
    ensures |r| == 2
    ensures r[0] == AnalysisStarted(filePath)
    ensures r[1].AnalysisError? || r[1].AnalysisComplete?
    ensures r[1] == AnalysisError(NotInRepositoryError) <==> !git.IsFileInGitRepository(filePath)
    ensures r[1] == AnalysisError(HistoryUnavailableError) <==>
      git.IsFileInGitRepository(filePath) && git.FileHistoryOf(filePath, GitService.DefaultMaxCommits, now).None?
    ensures r[1].AnalysisComplete? <==> AnalysedHistory(git, filePath, now).Some?
    ensures r[1].AnalysisComplete? ==> Some(r[1].history) == AnalysedHistory(git, filePath, now)
  {
    var outcome :=
      if !git.IsFileInGitRepository(filePath) then AnalysisError(NotInRepositoryError)
      else match git.FileHistoryOf(filePath, GitService.DefaultMaxCommits, now)
        case None => AnalysisError(HistoryUnavailableError)
        case Some(history) => AnalysisComplete(history);
    [AnalysisStarted(filePath), outcome]
  }

  /** An analysis succeeds exactly when the file is in a repository whose log can be read. */
  lemma AnalysisSucceedsIff(git: GitService.GitService, filePath: string, now: Timestamp)
    ensures AnalysedHistory(git, filePath, now).Some? <==>
      && git.GetRepository(filePath).Some?
      && git.GetRepository(filePath).value.log(git.asRelativePath(filePath), GitService.DefaultMaxCommits).Ok?
  {
  }
}
