/**
 * The extension package's webview provider: the same on-demand history panel, with a
 * typed message protocol. The webview's only command acted upon is `analyzeFile`;
 * every message goes out through `sendMessage`, which does nothing while no panel is
 * open.
 *
 * As in the root `src/` provider, the panel is identified by the number of panels
 * created before it, posted messages are appended to `outbox`, and `panelsCreated`
 * also counts the active-editor listeners, one registered per panel created.
 */
module ExtensionPanel {
  import opened Common
  import opened HistoryTypes
  import opened PanelProtocol
  import GitService

  /** A message the webview sends. */
  datatype WebviewMessage =
    | AnalyzeFile(filePath: string)
    | ShowHistory(historyPath: string)
    | GetConfig
    | UpdateConfig

  class WebviewProvider {
    const git: GitService.GitService
    var panel: Option<nat>
    var panelsCreated: nat
    var outbox: seq<Outbound>
    var currentFileHistory: Option<FileHistory>

    ghost predicate Valid()
      reads this
    {
      && (panel.Some? ==> panel.value < panelsCreated)
      && (currentFileHistory.Some? ==> WellFormed(currentFileHistory.value))
    }

    constructor (git: GitService.GitService)
      ensures Valid()
      ensures this.git == git
      ensures panel == None && panelsCreated == 0 && outbox == [] && currentFileHistory == None
    {
      this.git := git;
      panel := None;
      panelsCreated := 0;
      outbox := [];
      currentFileHistory := None;
    }

    /** What reaches the webview of `msgs`: all of them while a panel is open, none otherwise. */
    function Delivered(msgs: seq<Outbound>): seq<Outbound>
      reads this
    {
      if panel.Some? then msgs else []
    }

    /** Reveals the open panel, or creates a fresh one when none is open. */
    method CreateOrShow()
      requires Valid()
      modifies this
      ensures Valid()
      ensures old(panel).Some? ==> panel == old(panel) && panelsCreated == old(panelsCreated)
      ensures old(panel).None? ==> panel == Some(old(panelsCreated)) && panelsCreated == old(panelsCreated) + 1
      ensures outbox == old(outbox) && currentFileHistory == old(currentFileHistory)
    {
      if panel.Some? {
        return;
      }
      panel := Some(panelsCreated);
      panelsCreated := panelsCreated + 1;
    }

    /** The panel's dispose handler: back to no panel. */
    method Dispose()
      requires Valid()
      modifies this
      ensures Valid()
      ensures panel == None
      ensures panelsCreated == old(panelsCreated) && outbox == old(outbox)
      ensures currentFileHistory == old(currentFileHistory)
    {
      panel := None;
    }

    /** Posts `msg` to the open panel; a no-op while no panel is open. */
    method SendMessage(msg: Outbound)
      modifies this
      ensures old(panel).Some? ==> outbox == old(outbox) + [msg]
      ensures old(panel).None? ==> outbox == old(outbox)
      ensures panel == old(panel) && panelsCreated == old(panelsCreated)
      ensures currentFileHistory == old(currentFileHistory)
    {
      if panel.Some? {
        outbox := outbox + [msg];
      }
    }

    /**
     * Analyses `filePath`: reports the start, then either the error or the history,
     * which becomes the current one.
     */
    method AnalyzeFile(filePath: string, now: Timestamp)
      requires Valid()
      modifies this
      ensures Valid()
      ensures outbox == old(outbox) + Delivered(AnalysisReport(git, filePath, now))
      ensures currentFileHistory ==
        if AnalysedHistory(git, filePath, now).Some? then AnalysedHistory(git, filePath, now)
        else old(currentFileHistory)
      ensures panel == old(panel) && panelsCreated == old(panelsCreated)
    {
      SendMessage(AnalysisStarted(filePath));
      if !git.IsFileInGitRepository(filePath) {
        SendMessage(AnalysisError(NotInRepositoryError));
        return;
      }
      var gitHistory := git.GetFileHistory(filePath, GitService.DefaultMaxCommits, now);
      if gitHistory.None? {
        SendMessage(AnalysisError(HistoryUnavailableError));
        return;
      }
      currentFileHistory := gitHistory;
      SendMessage(AnalysisComplete(gitHistory.value));
    }

    /** Answers one message from the webview: only `analyzeFile` with a path starts an analysis. */
    method HandleMessage(msg: WebviewMessage, now: Timestamp)
      requires Valid()
      modifies this
      ensures Valid()
      ensures panel == old(panel) && panelsCreated == old(panelsCreated)
      ensures msg.AnalyzeFile? && msg.filePath != "" ==>
        && outbox == old(outbox) + Delivered(AnalysisReport(git, msg.filePath, now))
        && currentFileHistory == (if AnalysedHistory(git, msg.filePath, now).Some?
                                  then AnalysedHistory(git, msg.filePath, now)
                                  else old(currentFileHistory))
      ensures !(msg.AnalyzeFile? && msg.filePath != "") ==>
        outbox == old(outbox) && currentFileHistory == old(currentFileHistory)
    {
      match msg
      case AnalyzeFile(filePath) =>
        if filePath != "" {
          AnalyzeFile(filePath, now);
        }
      case _ =>
    }

    /**
     * The active editor changed to `editor` (`None`: no editor). Every registered
     * listener tells the open panel the new file.
     */
    method OnActiveEditorChanged(editor: Option<string>)
      requires Valid()
      modifies this
      ensures Valid()
      ensures panel == old(panel) && panelsCreated == old(panelsCreated)
      ensures currentFileHistory == old(currentFileHistory)
      ensures editor.None? ==> outbox == old(outbox)
      ensures editor.Some? ==> outbox == old(outbox) + Delivered(Copies(UpdateCurrentFile(editor), panelsCreated))
    {
      if editor.None? {
        return;
      }
      for listener := 0 to panelsCreated
        invariant Valid()
        invariant panel == old(panel) && panelsCreated == old(panelsCreated)
        invariant currentFileHistory == old(currentFileHistory)
        invariant outbox == old(outbox) + Delivered(Copies(UpdateCurrentFile(editor), listener))
      {
        SendMessage(UpdateCurrentFile(editor));
        assert Copies(UpdateCurrentFile(editor), listener + 1) == Copies(UpdateCurrentFile(editor), listener) + [UpdateCurrentFile(editor)];
      }
    }
  }
}
