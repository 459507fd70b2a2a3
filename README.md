# FileHistoryVSX: a Dafny model of the history normaliser and the history panel

FileHistoryVSX is an editor extension that shows the git history of the file being
edited in a webview panel. This project models its deterministic core:

- **The git history normaliser** (`GitService`, `IssueReferences`, `HistoryTypes`).
  It asks the editor's git extension for the log of one file. It turns each commit
  whose enrichment succeeds into a `GitCommitInfo`, carrying its diff against the
  first parent (the file's content for a root commit) and the issue references
  found in its message; a commit whose enrichment throws is dropped. It then
  assembles a `FileHistory` with its count and date range. The git extension is an abstract collaborator:
  each of `log`, `getCommit`, `show` and `diffWith` either returns a value or throws
  (`Outcome`).
- **Issue references** (`IssueReferences`). Five global regular expressions are run
  over a commit message, one after the other: `#123`, `AB#123` (any case), `!123`,
  `ABC-123`, and `fixes/closes/resolves #123` (any case). Every full match is
  collected and repeats are dropped, keeping first-seen order. Each regular
  expression is a hand-written matcher with the same leftmost, greedy,
  non-overlapping behaviour. The keyword pattern is modelled as written:
  `fixes?` means "fixe" with an optional "s", so `fix #7` is found only as `#7`.
- **The recently viewed list** (`RecentFiles`) of the root `src/` panel. It holds at
  most fifty file names, newest additions first. A name seen again keeps its place
  and only gets a new time.
- **The analysis protocol** (`PanelProtocol`, `LegacyPanel`, `ExtensionPanel`).
  There are two webview providers: the root `src/` one and the extension package's
  one. Each is a class whose panel is either closed or open. An open panel is
  revealed and never created twice, and disposing it closes it. Every message
  posted while the panel is open is appended to `outbox`; one posted while it is
  closed goes nowhere. An analysis posts `analysisStarted`, then exactly one of
  `analysisError` and `analysisComplete`. The current history changes only on
  success.
- **Endpoint settings** (`AiConfig`). The API key, base URL and model are resolved
  from the extension setting, then the environment, then a default. The token
  limit and the temperature are resolved from the setting, then a default; no
  environment variable is read for them. JavaScript's `||` decides, so an empty
  string or a zero falls through.

Three details of the reference patterns
(`packages/extension/src/services/git-service.ts:259-267`) decide what is found,
and the model keeps each of them:

- The keyword alternative `fixes?` accepts "fixe" and "fixes", not "fix".
- One or more whitespace characters (`\s+`) must stand between the keyword and `#`.
- `AB#` is the only tracker prefix recognised, in any case.

Two behaviours of the providers are modelled as they stand:

- Every creation of a panel registers one more active-editor listener, and none is
  ever removed. `panelsCreated` therefore also counts the listeners. After the panel
  has been closed and reopened, one editor change posts one `updateCurrentFile` per
  listener ever registered.
- In the root `src/` provider each of those listeners also records the file in the
  recent list. Recording the same name at the same time twice changes nothing
  (`RecentFiles.TouchIdempotent`), so the list ends up as after one recording.

Times are integers (milliseconds), and the clock is a `now` parameter. Each
provider's `git` is a `GitService.GitService`. The root `src/` provider's own git
service, `src/services/git-service.ts`, is not part of this model. The root `src/`
provider is modelled against the extension package's git service, whose
`isFileInGitRepository` and `getFileHistory` are the ones in the core.

## Model

| member | source | states |
|---|---|---|
| IssueReferences.RunEnd | packages/extension/src/services/git-service.ts:259-267 | the end of the longest run of a character class from a position: every character before it is in the class and the one at it, if any, is not |
| IssueReferences.NonEmptyRunIsLongestRun | packages/extension/src/services/git-service.ts:259-267 | a greedy `x+` ends exactly where the longest non-empty run ends, and fails exactly when there is no such run |
| IssueReferences.MatchAtIsRegexMatch | packages/extension/src/services/git-service.ts:257-268 | for each of the five patterns, what the matcher finds at a position is a match of the regular expression there (`#` digits; `AB#` digits in any case; `!` digits; capitals, `-`, digits; keyword, whitespace, `#`, digits; each digit run greedy), and every such match is exactly what it finds, so no result means no match at that position |
| IssueReferences.ClosingWordSpelled | packages/extension/src/services/git-service.ts:267 | a closing word is one of `fixe`, `fixes`, `close`, `closes`, `resolve`, `resolves`, spelled with each letter in either ASCII case |
| IssueReferences.KeywordEndIsClosingWord | packages/extension/src/services/git-service.ts:267 | the keyword matcher finds a closing word whenever one is spelled at the position, ends it at that word, and takes the optional `s` whenever it follows |
| IssueReferences.PushMatches | packages/extension/src/services/git-service.ts:274-276 | pushing the matches of one pattern appends them, in order, to the references collected so far |
| IssueReferences.CollectMatches | packages/extension/src/services/git-service.ts:270-277 | the pattern passes collect every match of every pattern, pattern by pattern and left to right within a pattern |
| IssueReferences.RemoveRepeats | packages/extension/src/services/git-service.ts:280 | the set-backed pass keeps the first occurrence of each value and leaves no repeats |
| IssueReferences.ExtractIssueReferences | packages/extension/src/services/git-service.ts:256-281 | returns exactly the deduplicated full matches, in pattern order and then match order, with no repeats |
| IssueReferences.ReferencesInSpec | packages/extension/src/services/git-service.ts:270-280 | the references have no duplicates and are exactly the set of matched texts; two references keep the order in which they were first matched; each is the full match of one of the five patterns and a substring of the message |
| IssueReferences.DedupOfMatches | packages/extension/src/services/git-service.ts:270-280 | for any list of patterns, the deduplicated matches have no repeats, are exactly the matched texts, keep first-match order, and each is a full match of one of the patterns and a substring of the message |
| IssueReferences.MatchesOfAllSubstrings | packages/extension/src/services/git-service.ts:272-277 | every collected match occurs in the message |
| IssueReferences.Dedup | packages/extension/src/services/git-service.ts:280 | `Array.from(new Set(xs))` holds no value twice, and holds exactly the values of `xs` |
| IssueReferences.DedupFirstSeenOrder | packages/extension/src/services/git-service.ts:280 | removing repeats lists values in the order of their first occurrence in the input |
| IssueReferences.MatchesFrom | packages/extension/src/services/git-service.ts:273-275 | every text collected by a global scan is the full match of that pattern at some position of the message |
| IssueReferences.MatchesFromComplete | packages/extension/src/services/git-service.ts:273-275 | a match at a position that no earlier match runs into is among the texts the global scan collects |
| IssueReferences.MatchIsReference | packages/extension/src/services/git-service.ts:270-280 | every match of every pattern is among the returned references |
| IssueReferences.HashReferenceFound | packages/extension/src/services/git-service.ts:259 | every `#` followed by digits yields the reference `#` plus all those digits |
| IssueReferences.MergeRequestReferenceFound | packages/extension/src/services/git-service.ts:263 | every `!` followed by digits yields the reference `!` plus all those digits |
| IssueReferences.TicketReferenceFound | packages/extension/src/services/git-service.ts:265 | every word of capitals followed by `-` and digits yields the reference made of the capitals, the dash and all the digits |
| IssueReferences.MatchesOfAllSound | packages/extension/src/services/git-service.ts:272-277 | every text collected over a list of patterns is a full match of one of them |
| IssueReferences.NoMarkerNoReferences | packages/extension/src/services/git-service.ts:257-268 | a message without `#`, `!` and `-` has no references |
| IssueReferences.AllMatchesInPatternOrder | packages/extension/src/services/git-service.ts:270-277 | the collected matches are the five patterns' match lists concatenated in the order the patterns are listed |
| IssueReferences.FixesExample | packages/extension/src/services/git-service.ts:256-281 | `"fixes #12, see #12"` yields exactly `["#12", "fixes #12"]` |
| IssueReferences.AzureBoardsExample | packages/extension/src/services/git-service.ts:256-281 | `"AB#5"` yields exactly `["#5", "AB#5"]` |
| IssueReferences.FixWithoutEsExample | packages/extension/src/services/git-service.ts:267 | `"fix #7"` yields only `["#7"]`: `fix` is not a closing keyword as written |
| GitService.CommitDiff | packages/extension/src/services/git-service.ts:231-250 | a root commit's diff is `show(hash, path)`, any other commit's is `diffWith(parents[0], hash, path)`, and any failure gives `""` |
| GitService.GitService.constructor | packages/extension/src/services/git-service.ts:84-112 | the service holds the git API that initialisation obtained (or none) and the workspace's path relativiser |
| GitService.GitService.GetRepository | packages/extension/src/services/git-service.ts:117-124 | without a git API no repository is found; with one, the result is the API's lookup for the file |
| GitService.GitService.IsFileInGitRepository | packages/extension/src/services/git-service.ts:117-139 | true exactly when the git API is available and it knows a repository holding the file; false without the API |
| GitService.GitService.IsGitAvailable | packages/extension/src/services/git-service.ts:326-328 | true exactly when the git API was obtained, and when it was not no file is in a repository |
| GitService.GitService.GetRepositories | packages/extension/src/services/git-service.ts:333-338 | `[]` without a git API, otherwise the API's repositories |
| GitService.GitService.GetRepositoryRoot | packages/extension/src/services/git-service.ts:306-321 | present exactly when the file is in a repository, and then that repository's root |
| GitService.GitService.GetCurrentBranch | packages/extension/src/services/git-service.ts:286-301 | never the empty string; present exactly when there is a repository, a HEAD and a non-empty HEAD name, and then equal to that name |
| GitService.GitService.EnrichCommit | packages/extension/src/services/git-service.ts:181-207 | one commit is enriched exactly as the enrichment function says: it fails only when its message is missing, and otherwise carries the defaults, the diff and the references |
| GitService.GitService.GetFileHistory | packages/extension/src/services/git-service.ts:144-226 | the enrichment loop returns the history of the file, and a returned history is well formed: count equals length, `firstCommit` is the last commit's date and `lastCommit` the first's, both absent when empty |
| GitService.NoRepositoryNoHistory | packages/extension/src/services/git-service.ts:144-152 | no repository for the path, including an absent git API, gives no history |
| GitService.GitService.FileHistoryOf | packages/extension/src/services/git-service.ts:144-226 | the history is absent exactly when no repository is found or the log throws; otherwise it is well formed, describes the relative path, carries the repository root, and every commit lists exactly that path as changed and names an author |
| GitService.Assemble | packages/extension/src/services/git-service.ts:209-216 | the assembled history is well formed (count equals length, `firstCommit` the last commit's date and `lastCommit` the first's, both absent when empty) and carries the path, the commits and the root given |
| GitService.EmptyLogHistory | packages/extension/src/services/git-service.ts:165-175 | an empty log gives no commits, a count of 0 and no dates |
| GitService.AuthorOf | packages/extension/src/services/git-service.ts:192 | the author is never empty: the commit's name when it has a non-empty one, `Unknown` otherwise |
| GitService.EnrichedFields | packages/extension/src/services/git-service.ts:180-200 | enrichment fails exactly when reading the message throws; otherwise the author defaults to `Unknown` when absent or empty, the email to `""`, the date to now, `filesChanged` is `[relativePath]`, the diff is the commit diff and the references are those of the message |
| GitService.DiffFailureKeepsCommit | packages/extension/src/services/git-service.ts:231-250 | a failing `getCommit`, `show` or `diffWith` keeps the commit, with an empty diff |
| GitService.EnrichAllAppend | packages/extension/src/services/git-service.ts:180-208 | enriching a log is enriching its two halves in order |
| GitService.FailedCommitSkipped | packages/extension/src/services/git-service.ts:180-208 | a commit whose enrichment throws is omitted and the commits after it are still processed |
| GitService.SucceedingIndices | packages/extension/src/services/git-service.ts:180-207 | the positions of the commits whose enrichment does not throw: exactly those, each once, in increasing order |
| GitService.EnrichAllInLogOrder | packages/extension/src/services/git-service.ts:180-207 | the enriched commits are the succeeding commits, enriched, in log order: the n-th output is the enrichment of the n-th commit that does not throw |
| GitService.EnrichAll | packages/extension/src/services/git-service.ts:180-213 | one enriched commit per log entry whose enrichment does not throw, each listing the relative path as its only changed file and naming a non-empty author |
| GitService.EnrichAllKeepsLogOrder | packages/extension/src/services/git-service.ts:180-202 | when no enrichment throws, the output commits follow the log one for one |
| GitService.ThreeCommitScenario | packages/extension/src/services/git-service.ts:144-226 | three commits whose first diff cannot be fetched all stay, in order, the first with an empty diff, and the history spans the oldest to the newest date |
| AiConfig.OrChain | packages/extension/src/ai-config.ts:14-23 | `c0 \|\| c1 \|\| ... \|\| fallback` is the first non-empty candidate, or the fallback when there is none |
| AiConfig.GetApiConfig | packages/extension/src/ai-config.ts:12-27 | the API key is the setting, then `OPENAI_API_KEY`, then `FILEHISTORY_API_KEY`, then `""`; the base URL is the setting, then `OPENAI_BASE_URL`, then `https://api.openai.com/v1`; the model is the setting, then `OPENAI_MODEL`, then `gpt-3.5-turbo`; an absent or zero token limit becomes 1000 and an absent or zero temperature 0.7 |
| AiConfig.FirstTruthyUnique | packages/extension/src/ai-config.ts:14-23 | a `\|\|` chain has exactly one value, so the contract above determines each string field |
| AiConfig.SettingsTakePrecedence | packages/extension/src/ai-config.ts:14-23 | a non-empty setting wins over every environment variable |
| AiConfig.ApiConfigDefaults | packages/extension/src/ai-config.ts:14-24 | the base URL and the model are never empty and the token limit never zero; the API key is empty exactly when neither the setting nor either variable supplies one |
| AiConfig.ZeroTemperatureReplaced | packages/extension/src/ai-config.ts:25 | a configured temperature of 0 is treated like no setting and becomes 0.7 |
| RecentFiles.NameIndex | src/webview-provider.ts:192 | the first position holding the name, or -1 exactly when the name is not listed |
| RecentFiles.TouchListed | src/webview-provider.ts:192-196 | a listed name keeps the list's length and order; only that entry's time changes |
| RecentFiles.TouchUnlisted | src/webview-provider.ts:197-205 | a new name goes to index 0, the earlier entries shift back by one, and the list is cut to 50 |
| RecentFiles.Touch | src/webview-provider.ts:191-207 | a list of at most 50 entries stays within 50, and the name is listed afterwards |
| RecentFiles.TouchKeepsUnique | src/webview-provider.ts:191-207 | names that are unique before stay unique |
| RecentFiles.TouchIdempotent | src/webview-provider.ts:191-207 | recording the same name at the same time twice is recording it once |
| PanelProtocol.AnalysedHistory | src/webview-provider.ts:155-172 | a file outside every repository yields no history without asking for one; a history obtained is well formed and is what `getFileHistory` resolves to |
| PanelProtocol.AnalysisReport | src/webview-provider.ts:146-189 | exactly two messages: `analysisStarted` with the path, then `File is not in a git repository` exactly when the file is outside every repository, `Failed to retrieve git history` exactly when the history is unavailable, or `analysisComplete` with the history exactly when there is one |
| PanelProtocol.AnalysisSucceedsIff | packages/extension/src/webview-provider.ts:128-153 | an analysis succeeds exactly when a repository holds the file and its log can be read |
| LegacyPanel.CurrentFile | src/webview-provider.ts:90 | the active file name, with an empty name read as none |
| LegacyPanel.WebviewProvider.constructor | src/webview-provider.ts:9-18 | no panel, empty recent list, no current history |
| LegacyPanel.WebviewProvider.CreateOrShow | src/webview-provider.ts:20-50 | an open panel is only revealed; otherwise a fresh panel is created, distinct from every earlier one |
| LegacyPanel.WebviewProvider.Dispose | src/webview-provider.ts:47-49 | disposing leaves no panel, so the next call creates a fresh one |
| LegacyPanel.WebviewProvider.Post | src/webview-provider.ts:91-94 | a message reaches the webview only while a panel is open |
| LegacyPanel.WebviewProvider.AddToHistory | src/webview-provider.ts:191-207 | the recent list becomes the touched list, keeping at most 50 entries with unique names |
| LegacyPanel.WebviewProvider.AnalyzeFile | src/webview-provider.ts:146-189 | posts the analysis report and sets the current history only on success, to the history that `analysisComplete` carries |
| LegacyPanel.WebviewProvider.HandleMessage | src/webview-provider.ts:86-127 | `getCurrentFile` posts the active file and records its base name; `getFileHistory` posts the recent list; `analyzeFile` with a path analyses it; `getGitHistory` posts only when there is a current history; anything else changes nothing |
| LegacyPanel.WebviewProvider.OnActiveEditorChanged | src/webview-provider.ts:129-140 | each registered listener records the file and posts `updateCurrentFile`, so the list is touched once in effect and the message is posted once per panel ever created |
| ExtensionPanel.WebviewProvider.constructor | packages/extension/src/webview-provider.ts:11-20 | no panel and no current history |
| ExtensionPanel.WebviewProvider.CreateOrShow | packages/extension/src/webview-provider.ts:22-52 | an open panel is only revealed; otherwise a fresh panel is created |
| ExtensionPanel.WebviewProvider.Dispose | packages/extension/src/webview-provider.ts:49-51 | disposing leaves no panel |
| ExtensionPanel.WebviewProvider.SendMessage | packages/extension/src/webview-provider.ts:112-114 | appends the message while a panel is open and does nothing otherwise |
| ExtensionPanel.WebviewProvider.AnalyzeFile | packages/extension/src/webview-provider.ts:119-162 | posts `analysisStarted` first, then exactly one error or `analysisComplete`; the current history changes only on success, to the result sent |
| ExtensionPanel.WebviewProvider.HandleMessage | packages/extension/src/webview-provider.ts:88-99 | only `analyzeFile` with a non-empty path starts an analysis; every other message changes nothing |
| ExtensionPanel.WebviewProvider.OnActiveEditorChanged | packages/extension/src/webview-provider.ts:101-109 | posts `updateCurrentFile` with the new file once per registered listener while a panel is open |

## Left out

- The `catch` branch of both `analyzeFile` methods is not modelled. The calls it guards, `isFileInGitRepository` and `getFileHistory`, catch every error themselves. Posting does not throw. So in this model the branch cannot be reached, and the `Unknown error occurred` message never appears.
- Asynchrony: every `await` is modelled as completing before the next step. A panel disposed, or a second analysis started, while an analysis is pending is not modelled.
- Host calls: `Uri.file` and the repository lookup are folded into the git API's `getRepository`, taken on the path. `workspace.asRelativePath` is an opaque function. `path.basename` is an opaque function. Panel creation options, `reveal`'s view column and `getWebviewContent`'s HTML are not modelled.
- Git API initialisation (activating the git extension) is not modelled. Its outcome is the `gitApi` argument of the constructor.
- Logging through `logger` and `console` is not modelled.
- GitService.GitService.GetFileHistory: a log entry whose enrichment throws is modelled as one without a message. The only step in the per-commit `try` that can throw is the regular-expression scan of the message; the diff is fetched under its own `catch`.
- GitService.GitService.GetFileHistory: dates are integers, and `new Date()` is the `now` parameter, shared by all commits of one call.
- LegacyPanel.WebviewProvider.OnActiveEditorChanged: every listener reads the same clock value `now`, where each call of `Date.now()` could read a later time.
- AiConfig.GetApiConfig: a `NaN` token limit or temperature, which `||` also replaces, is not modelled: the values are integers and reals.
- Webview messages other than `analyzeFile`: `showHistory` keeps its path and `updateConfig` is modelled without its partial-settings payload; the extension package's provider reads neither (packages/extension/src/webview-provider.ts:88-98), and `getConfig` carries no payload.
- Regular-expression matching is specific to the five patterns. Characters are Unicode code points. Every letter in the five patterns is ASCII, and under the `i` flag without the `u` flag such a letter matches only itself and its ASCII partner of the other case.
