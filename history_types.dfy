/**
 * The records the history normaliser produces and the panel shows:
 * one enriched commit, and the history of one file.
 */
module HistoryTypes {
  import opened Common

  /** A point in time, in milliseconds since the epoch (a JavaScript `Date`). */
  type Timestamp = int

  /** One commit touching the analysed file, after enrichment. */
  datatype GitCommitInfo = GitCommitInfo(
    hash: string,
    author: string,
    email: string,
    date: Timestamp,
    message: string,
    diff: string,
    filesChanged: seq<string>,
    issueReferences: seq<string>)

  /** The history of one file: its commits newest first, and aggregates over them. */
  datatype FileHistory = FileHistory(
    filePath: string,
    commits: seq<GitCommitInfo>,
    totalCommits: nat,
    firstCommit: Option<Timestamp>,
    lastCommit: Option<Timestamp>,
    repositoryRoot: string)

  /**
   * The aggregate fields agree with the commit sequence: the count is its length,
   * `firstCommit` is the date of the oldest (last) commit and `lastCommit` the date
   * of the newest (first) one; both are absent exactly when there are no commits.
   */
  ghost predicate WellFormed(h: FileHistory) {
    && h.totalCommits == |h.commits|
    && (h.commits == [] ==> h.firstCommit == None && h.lastCommit == None)
    && (h.commits != [] ==>
          && h.firstCommit == Some(h.commits[|h.commits| - 1].date)
          && h.lastCommit == Some(h.commits[0].date))
  }
}
