/**
 * The git history normaliser: it asks the editor's git extension for the log of one
 * file and turns each commit whose enrichment succeeds into a `GitCommitInfo`, with
 * its diff and the issue references found in its message; a commit whose enrichment
 * throws is dropped.
 *
 * The host's git extension is an abstract collaborator: each of its calls either
 * returns a value or throws (`Outcome`). The workspace's path relativiser is an
 * opaque function, and the clock is a `now` parameter.
 */
module GitService {
  import opened Common
  import opened HistoryTypes
  import IssueReferences

  /** What a call into the host's git extension did: returned a value, or threw (a rejected promise). */
  datatype Outcome<T> = Ok(value: T) | Threw {
    /** The value, or what the surrounding `catch` falls back to. */
    function OrElse(fallback: T): T {
      match this
      case Ok(v) => v
      case Threw => fallback
    }
  }

  /** The checked-out branch; only its name is used here. */
  datatype Branch = Branch(name: Option<string>)

  /**
   * A commit as the git extension reports it. `message` is absent when the host
   * hands back a record without one: reading it is then the one step of enrichment
   * that throws.
   */
  datatype RawCommit = RawCommit(
    hash: string,
    message: Option<string>,
    parents: seq<string>,
    authorDate: Option<Timestamp>,
    authorName: Option<string>,
    authorEmail: Option<string>)

  /**
   * A repository of the git extension: its root, its HEAD, and the four queries
   * the normaliser makes. `log(path, maxEntries)` lists the commits touching `path`,
   * newest first.
   */
  datatype Repository = Repository(
    rootPath: string,
    head: Option<Branch>,
    log: (string, nat) -> Outcome<seq<RawCommit>>,
    getCommit: string -> Outcome<RawCommit>,
    show: (string, string) -> Outcome<string>,
    diffWith: (string, string, string) -> Outcome<string>)

  /** The git extension's API: its repositories, and the lookup of the repository holding a file. */
  datatype GitApi = GitApi(
    repositories: seq<Repository>,
    getRepository: string -> Option<Repository>)

  /** The number of log entries asked for when the caller names none. */
  const DefaultMaxCommits: nat := 50

  const UnknownAuthor := "Unknown"

  /**
   * The diff of commit `hash` restricted to `path`: the file's content at that commit
   * for a root commit, the diff against the first parent otherwise. Any failure of
   * the host yields the empty string.
   */
  function CommitDiff(repo: Repository, hash: string, path: string): (diff: string)
    ensures repo.getCommit(hash).Threw? ==> diff == ""
    ensures repo.getCommit(hash).Ok? && repo.getCommit(hash).value.parents == [] ==>
      diff == repo.show(hash, path).OrElse("")
    ensures repo.getCommit(hash).Ok? && repo.getCommit(hash).value.parents != [] ==>
      diff == repo.diffWith(repo.getCommit(hash).value.parents[0], hash, path).OrElse("")
  {
    match repo.getCommit(hash)
    case Threw => ""
    case Ok(commit) =>
      if |commit.parents| == 0 then repo.show(hash, path).OrElse("")
      else repo.diffWith(commit.parents[0], hash, path).OrElse("")
  }

  /** `authorName || 'Unknown'`: an absent or empty name falls back. */
  function AuthorOf(c: RawCommit): (author: string)
    ensures author != ""
    ensures author == UnknownAuthor || Some(author) == c.authorName
    ensures c.authorName.Some? && c.authorName.value != "" ==> author == c.authorName.value
  {
    if c.authorName.Some? && c.authorName.value != "" then c.authorName.value else UnknownAuthor
  }

  /** `authorEmail || ''`. */
  function EmailOf(c: RawCommit): string {
    c.authorEmail.GetOr("")
  }

  /** `authorDate || new Date()`: a date object is never falsy, so only absence falls back. */
  function DateOf(c: RawCommit, now: Timestamp): Timestamp {
    c.authorDate.GetOr(now)
  }

  /**
   * One pass of the per-commit `try` block: the enriched commit, or `None` when
   * enrichment throws and the commit is skipped.
   */
  function Enriched(repo: Repository, relPath: string, c: RawCommit, now: Timestamp): Option<GitCommitInfo> {
    match c.message
    case None => None
    case Some(msg) =>
      Some(GitCommitInfo(
        c.hash, AuthorOf(c), EmailOf(c), DateOf(c, now), msg,
        CommitDiff(repo, c.hash, relPath), [relPath], IssueReferences.ReferencesIn(msg)))
  }

  /**
   * The enriched commits of `cs`, in log order, without the ones whose enrichment threw:
   * one per commit that does not throw, each listing the analysed path as changed and
   * naming an author.
   */
  function EnrichAll(repo: Repository, relPath: string, cs: seq<RawCommit>, now: Timestamp): (infos: seq<GitCommitInfo>)
    ensures |infos| == |cs| - FailedCount(cs)
    ensures forall k :: 0 <= k < |infos| ==> infos[k].filesChanged == [relPath] && infos[k].author != ""
  {
    if cs == [] then []
    else
      var init := EnrichAll(repo, relPath, cs[..|cs| - 1], now);
      match Enriched(repo, relPath, cs[|cs| - 1], now)
      case None => init
      case Some(info) => init + [info]
  }

  /** The number of commits of `cs` whose enrichment throws. */
  function FailedCount(cs: seq<RawCommit>): nat {
    if cs == [] then 0
    else FailedCount(cs[..|cs| - 1]) + (if cs[|cs| - 1].message.None? then 1 else 0)
  }

  /** The history record built from the assembled commits: its aggregates agree with them. */
  function Assemble(relPath: string, commits: seq<GitCommitInfo>, root: string): (h: FileHistory)
    ensures WellFormed(h)
    ensures h.filePath == relPath && h.commits == commits && h.repositoryRoot == root
  {
    FileHistory(
      relPath, commits, |commits|,
      if |commits| > 0 then Some(commits[|commits| - 1].date) else None,
      if |commits| > 0 then Some(commits[0].date) else None,
      root)
  }

  /**
   * The service. Its git API is looked up once, when the service starts; it stays
   * absent when the git extension is missing or fails to activate.
   */
  class GitService {
    const gitApi: Option<GitApi>
    const asRelativePath: string -> string

    constructor (gitApi: Option<GitApi>, asRelativePath: string -> string)
      ensures this.gitApi == gitApi && this.asRelativePath == asRelativePath
    {
      this.gitApi := gitApi;
      this.asRelativePath := asRelativePath;
    }

    /** The repository holding `filePath`; absent when the git API is. */
    function GetRepository(filePath: string): (repo: Option<Repository>)
      ensures gitApi.None? ==> repo.None?
      ensures gitApi.Some? ==> repo == gitApi.value.getRepository(filePath)
    {
      if gitApi.None? then None else gitApi.value.getRepository(filePath)
    }

    /** Whether the git extension knows a repository holding `filePath`; false without the API. */
    function IsFileInGitRepository(filePath: string): (inRepo: bool)
      ensures inRepo <==> gitApi.Some? && gitApi.value.getRepository(filePath).Some?
    {
      GetRepository(filePath).Some?
    }

    /** Whether the git extension's API was obtained; without it no file is in a repository. */
    function IsGitAvailable(): (available: bool)
      ensures available <==> gitApi.Some?
      ensures !available ==> forall filePath :: !IsFileInGitRepository(filePath)
    {
      gitApi.Some?
    }

    function GetRepositories(): (repos: seq<Repository>)
      ensures !IsGitAvailable() ==> repos == []
      ensures IsGitAvailable() ==> repos == gitApi.value.repositories
    {
      if gitApi.None? then [] else gitApi.value.repositories
    }

    function GetRepositoryRoot(filePath: string): (root: Option<string>)
      ensures root.Some? <==> IsFileInGitRepository(filePath)
      ensures root.Some? ==> root.value == GetRepository(filePath).value.rootPath
    {
      match GetRepository(filePath)
      case None => None
      case Some(repo) => Some(repo.rootPath)
    }

    /** `HEAD.name || null`: the branch name, never empty. */
    function GetCurrentBranch(filePath: string): (branch: Option<string>)
      ensures branch.Some? ==> branch.value != ""
      ensures branch.Some? <==>
        && GetRepository(filePath).Some?
        && GetRepository(filePath).value.head.Some?
        && GetRepository(filePath).value.head.value.name.Some?
        && GetRepository(filePath).value.head.value.name.value != ""
      ensures branch.Some? ==> GetRepository(filePath).value.head.value.name == branch
    {
      match GetRepository(filePath)
      case None => None
      case Some(repo) =>
        if repo.head.None? then None
        else if repo.head.value.name.None? || repo.head.value.name.value == "" then None
        else repo.head.value.name
    }

    /**
     * What `getFileHistory(filePath, maxCommits)` resolves to when the clock reads `now`.
     * The history is absent exactly when no repository holds the file or its log cannot
     * be read; otherwise it describes the repository-relative path and carries the
     * repository root, its aggregates agree with its commits, and every commit lists
     * exactly that path as changed and names an author.
     */
    function FileHistoryOf(filePath: string, maxCommits: nat, now: Timestamp): (history: Option<FileHistory>)
      ensures history.None? <==>
        || GetRepository(filePath).None?
        || GetRepository(filePath).value.log(asRelativePath(filePath), maxCommits).Threw?
      ensures history.Some? ==>
        && WellFormed(history.value)
        && history.value.filePath == asRelativePath(filePath)
        && history.value.repositoryRoot == GetRepository(filePath).value.rootPath
        && forall k :: 0 <= k < |history.value.commits| ==>
             history.value.commits[k].filesChanged == [history.value.filePath]
             && history.value.commits[k].author != ""
    {
      match GetRepository(filePath)
      case None => None
      case Some(repo) =>
        var relPath := asRelativePath(filePath);
        match repo.log(relPath, maxCommits)
        case Threw => None
        case Ok(commits) =>
          if |commits| == 0 then Some(FileHistory(relPath, [], 0, None, None, repo.rootPath))
          else Some(Assemble(relPath, EnrichAll(repo, relPath, commits, now), repo.rootPath))
    }

    /** The body of the per-commit `try`: `None` when it throws. */
    static method EnrichCommit(repo: Repository, relPath: string, commit: RawCommit, now: Timestamp)
      returns (gitCommit: Option<GitCommitInfo>)
      ensures gitCommit == Enriched(repo, relPath, commit, now)
    {
      var diff := CommitDiff(repo, commit.hash, relPath);
      if commit.message.None? {
        // scanning a missing message for references throws
        return None;
      }
      var issueReferences := IssueReferences.ExtractIssueReferences(commit.message.value);
      gitCommit := Some(GitCommitInfo(
        commit.hash, AuthorOf(commit), EmailOf(commit), DateOf(commit, now),
        commit.message.value, diff, [relPath], issueReferences));
    }

    /**
     * The history of `filePath`: absent when no repository holds the file or the log
     * cannot be read; otherwise the enriched commits in log order and their aggregates.
     */
    method GetFileHistory(filePath: string, maxCommits: nat, now: Timestamp) returns (history: Option<FileHistory>)
      ensures history == FileHistoryOf(filePath, maxCommits, now)
      ensures history.Some? ==> WellFormed(history.value)
    {
      var repo := GetRepository(filePath);
      if repo.None? {
        return None;
      }
      var relPath := asRelativePath(filePath);
      var logged := repo.value.log(relPath, maxCommits);
      if logged.Threw? {
        return None;
      }
      var commits := logged.value;
      if |commits| == 0 {
        return Some(FileHistory(relPath, [], 0, None, None, repo.value.rootPath));
      }

      var gitCommits: seq<GitCommitInfo> := [];
      for i := 0 to |commits|
        invariant gitCommits == EnrichAll(repo.value, relPath, commits[..i], now)
      {
        assert commits[..i + 1][..i] == commits[..i];
        var gitCommit := EnrichCommit(repo.value, relPath, commits[i], now);
        if gitCommit.Some? {
          gitCommits := gitCommits + [gitCommit.value];
        }
        // otherwise the commit is logged and skipped
      }
      assert commits[..|commits|] == commits;

      history := Some(FileHistory(
        relPath, gitCommits, |gitCommits|,
        if |gitCommits| > 0 then Some(gitCommits[|gitCommits| - 1].date) else None,
        if |gitCommits| > 0 then Some(gitCommits[0].date) else None,
        repo.value.rootPath));
    }
  }

  /** No repository for the path (which includes an absent git API): no history. */
  lemma NoRepositoryNoHistory(svc: GitService, filePath: string, maxCommits: nat, now: Timestamp)
    requires !svc.IsFileInGitRepository(filePath)
    ensures svc.FileHistoryOf(filePath, maxCommits, now).None?
  {
  }


  /** An empty log gives an empty history with no dates. */
  lemma EmptyLogHistory(svc: GitService, filePath: string, maxCommits: nat, now: Timestamp)
    requires svc.GetRepository(filePath).Some?
    requires svc.GetRepository(filePath).value.log(svc.asRelativePath(filePath), maxCommits) == Ok([])
    ensures svc.FileHistoryOf(filePath, maxCommits, now) == Some(FileHistory(
      svc.asRelativePath(filePath), [], 0, None, None, svc.GetRepository(filePath).value.rootPath))
  {
  }

  /** The field defaults of an enriched commit, and the fields copied through. */
  lemma EnrichedFields(repo: Repository, relPath: string, c: RawCommit, now: Timestamp)
    ensures Enriched(repo, relPath, c, now).None? <==> c.message.None?
    ensures Enriched(repo, relPath, c, now).Some? ==>
      var info := Enriched(repo, relPath, c, now).value;
      && info.hash == c.hash
      && Some(info.message) == c.message
      && (c.authorName.None? || c.authorName == Some("") ==> info.author == UnknownAuthor)
      && (c.authorName.Some? && c.authorName.value != "" ==> info.author == c.authorName.value)
      && (c.authorEmail.None? ==> info.email == "")
      && (c.authorEmail.Some? ==> info.email == c.authorEmail.value)
      && (c.authorDate.None? ==> info.date == now)
      && (c.authorDate.Some? ==> info.date == c.authorDate.value)
      && info.filesChanged == [relPath]
      && info.diff == CommitDiff(repo, c.hash, relPath)
      && info.issueReferences == IssueReferences.ReferencesIn(info.message)
  {
  }

  /** A failed diff never drops a commit: it is kept, with an empty diff. */
  lemma DiffFailureKeepsCommit(repo: Repository, relPath: string, c: RawCommit, now: Timestamp)
    requires c.message.Some?
    requires || repo.getCommit(c.hash).Threw?
             || (repo.getCommit(c.hash).value.parents == [] && repo.show(c.hash, relPath).Threw?)
             || (repo.getCommit(c.hash).value.parents != []
                 && repo.diffWith(repo.getCommit(c.hash).value.parents[0], c.hash, relPath).Threw?)
    ensures Enriched(repo, relPath, c, now).Some?
    ensures Enriched(repo, relPath, c, now).value.diff == ""
    ensures EnrichAll(repo, relPath, [c], now) == [Enriched(repo, relPath, c, now).value]
  {
    assert [c][..0] == [];
  }

  /** Enriching a log is enriching its two halves. */
  lemma {:induction false} EnrichAllAppend(repo: Repository, relPath: string, a: seq<RawCommit>, b: seq<RawCommit>, now: Timestamp)
    ensures EnrichAll(repo, relPath, a + b, now) == EnrichAll(repo, relPath, a, now) + EnrichAll(repo, relPath, b, now)
    ensures FailedCount(a + b) == FailedCount(a) + FailedCount(b)
    decreases |b|
  {
    if b == [] {
      assert a + b == a;
    } else {
      var b' := b[..|b| - 1];
      assert (a + b)[..|a + b| - 1] == a + b';
      assert (a + b)[|a + b| - 1] == b[|b| - 1];
      EnrichAllAppend(repo, relPath, a, b', now);
    }
  }

  /** A commit whose enrichment throws is left out, and the commits after it are still processed. */
  lemma FailedCommitSkipped(repo: Repository, relPath: string, before: seq<RawCommit>, c: RawCommit, after: seq<RawCommit>, now: Timestamp)
    requires c.message.None?
    ensures EnrichAll(repo, relPath, before + [c] + after, now)
      == EnrichAll(repo, relPath, before, now) + EnrichAll(repo, relPath, after, now)
  {
    EnrichAllAppend(repo, relPath, before + [c], after, now);
    EnrichAllAppend(repo, relPath, before, [c], now);
    assert [c][..0] == [];
  }

  /**
   * The positions in `cs` of the commits whose enrichment does not throw, in
   * increasing order: exactly those positions, each once.
   */
  function SucceedingIndices(cs: seq<RawCommit>): (idx: seq<nat>)
    ensures forall n :: 0 <= n < |idx| ==> idx[n] < |cs| && cs[idx[n]].message.Some?
    ensures forall n, m :: 0 <= n < m < |idx| ==> idx[n] < idx[m]
    ensures forall k: nat :: k < |cs| && cs[k].message.Some? ==> k in idx
  {
    if cs == [] then []
    else
      var init := cs[..|cs| - 1];
      var idx := SucceedingIndices(init);
      if cs[|cs| - 1].message.Some? then idx + [|cs| - 1] else idx
  }

  /**
   * The enriched commits are the commits that do not throw, enriched, in log order:
   * the `n`-th output is the enrichment of the `n`-th commit that succeeds.
   */
  lemma {:induction false} EnrichAllInLogOrder(repo: Repository, relPath: string, cs: seq<RawCommit>, now: Timestamp)
    ensures |EnrichAll(repo, relPath, cs, now)| == |SucceedingIndices(cs)|
    ensures forall n :: 0 <= n < |SucceedingIndices(cs)| ==>
      EnrichAll(repo, relPath, cs, now)[n] == Enriched(repo, relPath, cs[SucceedingIndices(cs)[n]], now).value
  {
    if cs != [] {
      var init := cs[..|cs| - 1];
      EnrichAllInLogOrder(repo, relPath, init, now);
      var idx := SucceedingIndices(init);
      EnrichAllLastStep(repo, relPath, cs, now);
      forall n | 0 <= n < |SucceedingIndices(cs)|
        ensures EnrichAll(repo, relPath, cs, now)[n] == Enriched(repo, relPath, cs[SucceedingIndices(cs)[n]], now).value
      {
        if n < |idx| {
          assert cs[idx[n]] == init[idx[n]];
        }
      }
    }
  }

  /** One commit more at the end of the log: one more position and one more output exactly when it succeeds. */
  lemma EnrichAllLastStep(repo: Repository, relPath: string, cs: seq<RawCommit>, now: Timestamp)
    requires cs != []
    ensures var init := cs[..|cs| - 1]; var last := cs[|cs| - 1];
      && SucceedingIndices(cs)
           == SucceedingIndices(init) + (if last.message.Some? then [|cs| - 1] else [])
      && EnrichAll(repo, relPath, cs, now)
           == EnrichAll(repo, relPath, init, now) + (if last.message.Some? then [Enriched(repo, relPath, last, now).value] else [])
  {
  }

  /** When no enrichment throws, the enriched commits follow the log one for one. */
  lemma {:induction false} EnrichAllKeepsLogOrder(repo: Repository, relPath: string, cs: seq<RawCommit>, now: Timestamp)
    requires forall k :: 0 <= k < |cs| ==> cs[k].message.Some?
    ensures |EnrichAll(repo, relPath, cs, now)| == |cs|
    ensures forall k :: 0 <= k < |cs| ==>
      EnrichAll(repo, relPath, cs, now)[k] == Enriched(repo, relPath, cs[k], now).value
  {
    if cs != [] {
      var init := cs[..|cs| - 1];
      EnrichAllKeepsLogOrder(repo, relPath, init, now);
      var info := Enriched(repo, relPath, cs[|cs| - 1], now).value;
      assert EnrichAll(repo, relPath, cs, now) == EnrichAll(repo, relPath, init, now) + [info];
      forall k | 0 <= k < |cs|
        ensures EnrichAll(repo, relPath, cs, now)[k] == Enriched(repo, relPath, cs[k], now).value
      {
        if k < |init| {
          assert cs[k] == init[k];
        }
      }
    }
  }

  /**
   * Three commits `a`, `b`, `c`, newest first, dated t3 > t2 > t1, where the diff of
   * `a` cannot be fetched: all three are kept in order, `a` with an empty diff, and the
   * history spans t1 to t3.
   */
  lemma ThreeCommitScenario(svc: GitService, filePath: string, now: Timestamp, a: RawCommit, b: RawCommit, c: RawCommit, t1: Timestamp, t2: Timestamp, t3: Timestamp)
    requires svc.GetRepository(filePath).Some?
    requires svc.GetRepository(filePath).value.log(svc.asRelativePath(filePath), DefaultMaxCommits) == Ok([a, b, c])
    requires a.message.Some? && b.message.Some? && c.message.Some?
    requires a.authorDate == Some(t3) && b.authorDate == Some(t2) && c.authorDate == Some(t1)
    requires t3 > t2 > t1
    requires svc.GetRepository(filePath).value.getCommit(a.hash).Threw?
    ensures svc.FileHistoryOf(filePath, DefaultMaxCommits, now).Some?
    ensures
      var h := svc.FileHistoryOf(filePath, DefaultMaxCommits, now).value;
      && h.totalCommits == 3
      && |h.commits| == 3
      && h.commits[0].hash == a.hash && h.commits[1].hash == b.hash && h.commits[2].hash == c.hash
      && h.commits[0].diff == ""
      && h.firstCommit == Some(t1)
      && h.lastCommit == Some(t3)
  {
    var repo := svc.GetRepository(filePath).value;
    var relPath := svc.asRelativePath(filePath);
    EnrichAllKeepsLogOrder(repo, relPath, [a, b, c], now);
  }
}
