/**
 * The root `src/` webview provider: one history panel that is created on demand and
 * revealed while open, answers the webview's commands, keeps the list of recently
 * viewed files, and reports file analyses to the webview.
 *
 * The panel is identified by the number of panels created before it, and every
 * message posted while it is open is appended to `outbox`; a message posted while no
 * panel is open goes nowhere. Each creation of a panel registers one more
 * active-editor listener that is never removed, so `panelsCreated` also counts the
 * listeners that fire when the active editor changes.
 */
module LegacyPanel {
  import opened Common
  import opened HistoryTypes
  import opened RecentFiles
  import opened PanelProtocol
  import GitService

  /** A command the webview sends; any other command string is ignored. */
  datatype Command =
    | GetCurrentFile
    | GetFileHistory
    | AnalyzeFile(data: Option<string>)
    | GetGitHistory
    | Unrecognised(command: string)

  /** `fileName || null`: a file name the webview is told about, never empty. */
  function CurrentFile(activeFile: Option<string>): (current: Option<string>)
    ensures current.Some? <==> activeFile.Some? && activeFile.value != ""
    ensures current.Some? ==> current == activeFile
  {
    if activeFile.Some? && activeFile.value != "" then activeFile else None
  }

  class WebviewProvider {
    const git: GitService.GitService
    /** `path.basename`. */
    const basename: string -> string
    var panel: Option<nat>
    var panelsCreated: nat
    var outbox: seq<Outbound>
    var fileHistory: seq<RecentFile>
    var currentFileHistory: Option<FileHistory>

    ghost predicate Valid()
      reads this
    {
      && (panel.Some? ==> panel.value < panelsCreated)
      && |fileHistory| <= MaxRecentFiles
      && UniqueNames(fileHistory)
      && (currentFileHistory.Some? ==> WellFormed(currentFileHistory.value))
    }

    constructor (git: GitService.GitService, basename: string -> string)
      ensures Valid()
      ensures this.git == git && this.basename == basename
      ensures panel == None && panelsCreated == 0 && outbox == []
      ensures fileHistory == [] && currentFileHistory == None
    {
      this.git := git;
      this.basename := basename;
      panel := None;
      panelsCreated := 0;
      outbox := [];
      fileHistory := [];
      currentFileHistory := None;
    }

    /** What reaches the webview of `msgs`: all of them while a panel is open, none otherwise. */
    function Delivered(msgs: seq<Outbound>): seq<Outbound>
      reads this
    {
      if panel.Some? then msgs else []
    }

    /** Reveals the open panel, or creates a fresh one when none is open. */
    method CreateOrShow()
      requires Valid()
      modifies this
      ensures Valid()
      ensures old(panel).Some? ==> panel == old(panel) && panelsCreated == old(panelsCreated)
      ensures old(panel).None? ==> panel == Some(old(panelsCreated)) && panelsCreated == old(panelsCreated) + 1
      ensures outbox == old(outbox) && fileHistory == old(fileHistory)
      ensures currentFileHistory == old(currentFileHistory)
    {
      if panel.Some? {
        return;
      }
      panel := Some(panelsCreated);
      panelsCreated := panelsCreated + 1;
    }

    /** The panel's dispose handler: back to no panel. */
    method Dispose()
      requires Valid()
      modifies this
      ensures Valid()
      ensures panel == None
      ensures panelsCreated == old(panelsCreated) && outbox == old(outbox)
      ensures fileHistory == old(fileHistory) && currentFileHistory == old(currentFileHistory)
    {
      panel := None;
    }

    /** `this.panel?.webview.postMessage(msg)`. */
    method Post(msg: Outbound)
      modifies this
      ensures outbox == old(outbox) + Delivered([msg])
      ensures panel == old(panel) && panelsCreated == old(panelsCreated)
      ensures fileHistory == old(fileHistory) && currentFileHistory == old(currentFileHistory)
    {
      if panel.Some? {
        outbox := outbox + [msg];
      }
    }

    /** Records that `name` was viewed at `now`. */
    method AddToHistory(name: string, now: Timestamp)
      requires Valid()
      modifies this
      ensures Valid()
      ensures fileHistory == Touch(old(fileHistory), name, now)
      ensures panel == old(panel) && panelsCreated == old(panelsCreated)
      ensures outbox == old(outbox) && currentFileHistory == old(currentFileHistory)
    {
      TouchKeepsUnique(fileHistory, name, now);
      var existingIndex := NameIndex(fileHistory, name);
      if existingIndex >= 0 {
        fileHistory := fileHistory[existingIndex := fileHistory[existingIndex].(timestamp := now)];
      } else {
        fileHistory := [RecentFile(name, now)] + fileHistory;
        if |fileHistory| > MaxRecentFiles {
          fileHistory := fileHistory[..MaxRecentFiles];
        }
      }
    }

    /**
     * Analyses `filePath`: reports the start, then either the error or the history,
     * which becomes the current one.
     */
    method AnalyzeFile(filePath: string, now: Timestamp)
      requires Valid()
      modifies this
      ensures Valid()
      ensures outbox == old(outbox) + Delivered(AnalysisReport(git, filePath, now))
      ensures currentFileHistory ==
        if AnalysedHistory(git, filePath, now).Some? then AnalysedHistory(git, filePath, now)
        else old(currentFileHistory)
      ensures panel == old(panel) && panelsCreated == old(panelsCreated) && fileHistory == old(fileHistory)
    {
      Post(AnalysisStarted(filePath));
      if !git.IsFileInGitRepository(filePath) {
        Post(AnalysisError(NotInRepositoryError));
        return;
      }
      var gitHistory := git.GetFileHistory(filePath, GitService.DefaultMaxCommits, now);
      if gitHistory.None? {
        Post(AnalysisError(HistoryUnavailableError));
        return;
      }
      currentFileHistory := gitHistory;
      Post(AnalysisComplete(gitHistory.value));
    }

    /** Answers one command from the webview; `activeFile` is the active editor's file, if any. */
    method HandleMessage(cmd: Command, activeFile: Option<string>, now: Timestamp)
      requires Valid()
      modifies this
      ensures Valid()
      ensures panel == old(panel) && panelsCreated == old(panelsCreated)
      ensures cmd.GetCurrentFile? ==>
        && outbox == old(outbox) + Delivered([UpdateCurrentFile(CurrentFile(activeFile))])
        && fileHistory == (if CurrentFile(activeFile).Some?
                           then Touch(old(fileHistory), basename(activeFile.value), now)
                           else old(fileHistory))
        && currentFileHistory == old(currentFileHistory)
      ensures cmd.GetFileHistory? ==>
        && outbox == old(outbox) + Delivered([UpdateFileHistory(old(fileHistory))])
        && fileHistory == old(fileHistory) && currentFileHistory == old(currentFileHistory)
      ensures cmd.AnalyzeFile? && cmd.data.Some? && cmd.data.value != "" ==>
        && outbox == old(outbox) + Delivered(AnalysisReport(git, cmd.data.value, now))
        && currentFileHistory == (if AnalysedHistory(git, cmd.data.value, now).Some?
                                  then AnalysedHistory(git, cmd.data.value, now)
                                  else old(currentFileHistory))
        && fileHistory == old(fileHistory)
      ensures cmd.GetGitHistory? ==>
        && outbox == old(outbox) + (if old(currentFileHistory).Some?
                                    then Delivered([UpdateGitHistory(old(currentFileHistory).value)])
                                    else [])
        && fileHistory == old(fileHistory) && currentFileHistory == old(currentFileHistory)
      ensures (cmd.AnalyzeFile? && (cmd.data.None? || cmd.data.value == "")) || cmd.Unrecognised? ==>
        outbox == old(outbox) && fileHistory == old(fileHistory) && currentFileHistory == old(currentFileHistory)
    {
      match cmd
      case GetCurrentFile =>
        var currentFile := CurrentFile(activeFile);
        Post(UpdateCurrentFile(currentFile));
        if currentFile.Some? {
          AddToHistory(basename(currentFile.value), now);
        }
      case GetFileHistory =>
        Post(UpdateFileHistory(fileHistory));
      case AnalyzeFile(data) =>
        if data.Some? && data.value != "" {
          AnalyzeFile(data.value, now);
        }
      case GetGitHistory =>
        if currentFileHistory.Some? {
          Post(UpdateGitHistory(currentFileHistory.value));
        }
      case Unrecognised(_) =>
    }

    /**
     * The active editor changed to `editor` (`None`: no editor). Every registered
     * listener records the file in the recent list and tells the open panel about it.
     */
    method OnActiveEditorChanged(editor: Option<string>, now: Timestamp)
      requires Valid()
      modifies this
      ensures Valid()
      ensures panel == old(panel) && panelsCreated == old(panelsCreated)
      ensures currentFileHistory == old(currentFileHistory)
      ensures editor.None? ==> outbox == old(outbox) && fileHistory == old(fileHistory)
      ensures editor.Some? ==>
        && outbox == old(outbox) + Delivered(Copies(UpdateCurrentFile(editor), panelsCreated))
        && fileHistory == (if panelsCreated == 0 then old(fileHistory)
                           else Touch(old(fileHistory), basename(editor.value), now))
    {
      if editor.None? {
        return;
      }
      var name := basename(editor.value);
      for listener := 0 to panelsCreated
        invariant Valid()
        invariant panel == old(panel) && panelsCreated == old(panelsCreated)
        invariant currentFileHistory == old(currentFileHistory)
        invariant outbox == old(outbox) + Delivered(Copies(UpdateCurrentFile(editor), listener))
        invariant fileHistory == if listener == 0 then old(fileHistory) else Touch(old(fileHistory), name, now)
      {
        if listener > 0 {
          TouchIdempotent(old(fileHistory), name, now);
        }
        AddToHistory(name, now);
        Post(UpdateCurrentFile(editor));
        assert Copies(UpdateCurrentFile(editor), listener + 1) == Copies(UpdateCurrentFile(editor), listener) + [UpdateCurrentFile(editor)];
      }
    }
  }
}
