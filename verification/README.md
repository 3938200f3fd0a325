# parallel-claude core in Dafny

parallel-claude is an Electron desktop application. It runs several
interactive `claude` sessions side by side, each in its own git worktree of
a project. This project models the application's core:

- **GitService** and the `project:*` / `worktree:*` IPC handlers:
  - they probe a folder for a repository;
  - they read `git worktree list --porcelain`;
  - they create a worktree on a new branch with a generated city-and-time name;
  - they classify git's failure text;
  - they remove worktrees, deleting the branch on a best-effort basis.
- **TerminalService** and the `terminal:*` handlers. This is the registry
  from a terminal id to its pty process. It covers the spawn, write, resize,
  kill and kill-all operations, the 500 ms startup injection of `claude`,
  and the output and exit callbacks.
- **FileService**: the temporary directory and the names under which pasted
  images and dropped files are stored, plus the age-based clean-up of that
  directory.
- **AppContext**: the renderer's state (projects, open tabs, active tab,
  settings) and its reducers.
- **MainPanel**: `getWorktreePath`, which maps a tab to the path of its
  worktree.

Everything the source does through the outside world is a parameter:
- what a `git` command resolved or rejected with (`ExecOutcome`);
- what a file-system call threw;
- the folder dialog's answer;
- whether `pty.spawn` throws;
- `randomUUID`, `Math.random` (as a city index) and the clock (as ISO text);
- whether the main window is still open.

Operations that issue commands return them with the result (`Run.issued`).
The terminal registry appends every spawn, write, resize, kill and
window event to a trace. This lets "which commands run, in which order"
and "nothing is sent" be stated as properties.

The modules follow the source files:
- `GitService`, `Porcelain` (the listing reader) and `GitIpc`;
- `TerminalService` and `TerminalIpc`;
- `FileService`;
- `AppTypes`, `AppContext` and `MainPanel`.

Helper modules:
- `Text` (JavaScript string methods);
- `Paths` (Node's POSIX `path.basename`, `dirname`, `extname`, `join`);
- `IsoTime` (the shape of `toISOString()`);
- `Seqs` (`filter` and `findIndex`);
- `Optional`.

Two behaviours of the code are worth knowing before reading the model:
- the startup injection checks that the id is still present in the
  registry, not that the same process is (see Findings);
- a listing is never a parse failure: output after the last blank line is
  silently dropped, and only a failing `git` command yields the empty list.

## Model

| member | source | states |
|---|---|---|
| GitService.IsGitRepository | src/main/services/GitService.ts:21-28 | The answer is true exactly when `git rev-parse --git-dir` succeeds, and that is the only command issued. |
| GitService.ListWorktrees | src/main/services/GitService.ts:33-66 | A failing command gives no worktrees. Otherwise the result is the block-by-block reference reading of the output lines. Every record has a non-empty path, a non-empty branch and the path's basename as name, and there are no more records than blank lines. Exactly one listing command is issued. |
| GitService.ProjectName | src/main/services/GitService.ts:191-193 | The project name holds no `/`. For a path without a trailing `/` it is the final segment: non-empty, and either the whole path or what follows its last `/`. Joined back onto any directory, it is again the basename. |
| GitService.Classify | src/main/services/GitService.ts:97-114 | "Branch exists" holds exactly when the diagnostic contains `already exists`. "Checked out elsewhere" holds exactly when it does not, but contains `is already checked out`. Every other diagnostic is a generic failure. |
| GitService.CreateWorktree | src/main/services/GitService.ts:72-116 | The parent directory is made first, and `git worktree add -b` runs only if that succeeded. The result is a success exactly when both succeed, and it carries the given path and branch with the path's basename as name. A mkdir failure is classified by its message. A git failure is classified by `stderr`, or by `message` when `stderr` is empty. |
| GitService.AlreadyExistsWins | src/main/services/GitService.ts:99-103 | Any diagnostic mentioning `already exists` yields the existing-branch message, whatever else it mentions. |
| GitService.CheckedOutClassified | src/main/services/GitService.ts:104-108 | A diagnostic mentioning `is already checked out`, and not `already exists`, yields the checked-out message. |
| GitService.OtherFailureKeepsDiagnostic | src/main/services/GitService.ts:109-114 | An unclassified failure is the fixed prefix followed by the diagnostic verbatim. |
| GitService.RemoveWorktree | src/main/services/GitService.ts:121-150 | The result is a success exactly when the forced removal succeeds; a failure carries the prefixed diagnostic. `git branch -D <basename of the path>` is issued second exactly when branch deletion was asked for and the removal succeeded. |
| GitService.DefaultKeepsBranch | src/main/services/GitService.ts:121-133 | Without `deleteBranch` (it defaults to false) the forced removal is the only command; the branch is kept. |
| GitService.BranchDeletionIsBestEffort | src/main/services/GitService.ts:133-142 | The outcome of the branch deletion never changes the result or the commands issued. |
| GitService.CompactTimestampShape | src/main/services/GitService.ts:180-183 | Deleting `-` and `:` from an ISO time and keeping 15 characters gives exactly `YYYYMMDDTHHMMSS`. |
| GitService.GeneratedNameShape | src/main/services/GitService.ts:155-186 | A generated name is the city, `-` and the compact time. It is 16 characters longer than the city and is a single path segment. |
| GitService.GeneratedNamesCollideOnlyWithin | src/main/services/GitService.ts:179-185 | Two generated names are equal only for the same city and the same second. |
| Porcelain.Emit | src/main/services/GitService.ts:50-58 | A blank line emits one record exactly when a non-empty path was seen. The record is well formed, with `detached` standing in for a missing or empty branch. |
| Porcelain.ParseFrom | src/main/services/GitService.ts:43-60 | Every record the loop emits is well formed, and there are no more records than blank lines. |
| Porcelain.ParseFromBlock | src/main/services/GitService.ts:43-60 | Loop invariant: with the fields of the open block accumulated, the rest of the run emits that block's record and then the records of the following blocks. |
| Porcelain.ParseMatchesRecords | src/main/services/GitService.ts:39-62 | The single pass with one mutable record equals the block-by-block reference. Records come in block order, and fields never leak from one block into the next. |
| Porcelain.NoBlankNoRecords | src/main/services/GitService.ts:50-59 | Lines without a blank one emit nothing. |
| Porcelain.UnterminatedTailDropped | src/main/services/GitService.ts:50-59 | Lines appended without a blank line never change the result, so an unterminated last block is dropped. |
| Porcelain.UnterminatedExample | src/main/services/GitService.ts:50-59 | A concrete instance: a one-block listing with no trailing blank line reports nothing. |
| Porcelain.IgnoredLineHasNoEffect | src/main/services/GitService.ts:43-60 | A line that is not a `worktree ` line, a `branch ` line or a blank line has no effect wherever it stands. |
| Porcelain.InnerHeadsPrefixRemoved | src/main/services/GitService.ts:46-49 | The first `refs/heads/` of a branch line is removed wherever it occurs, not only as a prefix. |
| Porcelain.InnerHeadsPrefixExample | src/main/services/GitService.ts:46-49 | A concrete instance: `branch feature/refs/heads/x` reads as branch `feature/x`. |
| GitIpc.FromListing | src/main/ipc/git.ts:42-48 | There is one renderer worktree per listed one, in order, with the same name, branch and path, the given UUID and time, and no project id. |
| GitIpc.AddProject | src/main/ipc/git.ts:10-51 | A cancelled or empty dialog fails with the cancel message and runs nothing. A non-repository fails with its message after only the probe. Otherwise the project has the first UUID as id, the folder's basename as name and the folder as path, and one worktree per listed worktree; the probe and then the listing are issued. |
| GitIpc.CreateWorktreeHandler | src/main/ipc/git.ts:60-94 | The generated name is both the branch and the last segment of `<dirname of project>/.worktrees/<name>`. The service's commands are issued unchanged. A service failure is returned as it is. A success yields the renderer worktree with the project id. |
| GitIpc.CreatedWorktreeNaming | src/main/ipc/git.ts:63-88 | For a created worktree, the branch equals the name and the path's basename is the name. The service reported the same name, and the first command makes the project's `.worktrees` directory. |
| GitIpc.WorktreesDirShape | src/main/ipc/git.ts:68-69 | The worktrees directory is non-empty and does not end in `/`. |
| GitIpc.RemovalDeletesCreatedBranch | src/main/ipc/git.ts:64-69 | Removing a created worktree with branch deletion issues the forced removal and then deletes exactly the branch that was created. |
| GitIpc.RemoveWorktreeHandler | src/main/ipc/git.ts:97-111 | The arguments are passed to the service unchanged, and it answers with the service's result. |
| GitIpc.ListWorktreesHandler | src/main/ipc/git.ts:114-126 | Always a success, with one renderer worktree per listed one and the i-th taking the i-th UUID. A failing listing gives none. |
| TerminalService.InitialValid | src/main/services/TerminalService.ts:6 | The empty registry satisfies the registry invariant. |
| TerminalService.RegistryInjective | src/main/services/TerminalService.ts:60 | In a valid state no process is registered under two ids. |
| TerminalService.Create | src/main/services/TerminalService.ts:16-78 | A spawn that throws leaves the registry as it was and rethrows the message. Otherwise a fresh process is spawned at 80x30 in the directory and registered under the id, replacing any earlier entry without killing it. Its startup timer is scheduled. The invariant is kept. |
| TerminalService.Write | src/main/services/TerminalService.ts:83-90 | Data goes to the registered process; an unknown id changes nothing. |
| TerminalService.Resize | src/main/services/TerminalService.ts:95-100 | The resize goes to the registered process; an unknown id changes nothing. |
| TerminalService.Kill | src/main/services/TerminalService.ts:105-112 | The registered process is killed and the id removed. Every other id is unchanged, and an unknown id changes nothing. |
| TerminalService.KillIdempotent | src/main/services/TerminalService.ts:105-112 | A second kill of the same id does nothing. |
| TerminalService.KillAll | src/main/services/TerminalService.ts:117-123 | The registry ends empty. Every registered process is killed, the new trace entries are exactly one kill per registered id, and nothing else is touched. |
| TerminalService.Output | src/main/services/TerminalService.ts:36-43 | Output of a spawned process is sent under the id it was created with, whether or not that id still names it, and only while the window is open. |
| TerminalService.SelfExit | src/main/services/TerminalService.ts:46-58 | A process exiting deletes the id it was created under, whatever that id names now. It is marked exited, and the exit event is sent only while the window is open. |
| TerminalService.TimerFire | src/main/services/TerminalService.ts:63-73 | The startup timer writes `claude\r\n` to the process captured at creation exactly when its id is registered at that moment. |
| TerminalService.KillBeforeTimerSuppressesStartup | src/main/services/TerminalService.ts:63-64 | Killing a terminal before its timer fires suppresses the startup command. |
| TerminalService.RecreatedIdReceivesStaleStartupWrite | src/main/services/TerminalService.ts:63-73 | After kill and re-creation of an id inside the timer window, the first timer writes the startup command to the killed first process. |
| TerminalService.OverwrittenProcessExitUnregistersSuccessor | src/main/services/TerminalService.ts:46-60 | Re-creating a registered id and then letting the first process exit unregisters the second, still running, process. |
| TerminalService.KilledProcessExitUnregistersSuccessor | src/main/services/TerminalService.ts:46-50 | After kill and re-creation of an id, the killed process's late exit unregisters the new process, and writes to the id are dropped. |
| TerminalService.OwnExit | src/main/services/TerminalService.ts:46-58 | Corrected exit callback: no other process's registration is removed, nothing is added, and the exiting process ends unregistered. The invariant is kept. |
| TerminalService.KilledProcessExitKeepsSuccessor | src/main/services/TerminalService.ts:46-50 | With the corrected callback, the same kill, re-create and late exit leave the new process registered and running. |
| TerminalService.OwnTimerFire | src/main/services/TerminalService.ts:63-73 | Corrected timer: it writes the startup command exactly when the captured process is still the one registered, and otherwise writes nothing. |
| TerminalService.OwnStartupWriteReachesLiveProcess | src/main/services/TerminalService.ts:63-73 | Under the corrected timer, every startup write goes to a registered process that has not exited. |
| TerminalService.RecreatedIdGetsNoStaleWrite | src/main/services/TerminalService.ts:63-73 | Under the corrected timer, the killed first process receives no write after its id is re-created. |
| TerminalIpc.ErrorText | src/main/ipc/terminal.ts:20 | The error text is never empty: the thrown message, or the default text when that is empty. |
| TerminalIpc.CreateHandler | src/main/ipc/terminal.ts:10-24 | The reply is a success exactly when the spawn succeeds, and the id is then registered to a process no other id had. A thrown error leaves the registry unchanged and fails with its error text. |
| TerminalIpc.WriteHandler | src/main/ipc/terminal.ts:27-33 | Always a success. The write reaches the registered process, and an unknown id changes nothing. |
| TerminalIpc.ResizeHandler | src/main/ipc/terminal.ts:36-42 | Always a success. The resize reaches the registered process, and an unknown id changes nothing. |
| TerminalIpc.KillHandler | src/main/ipc/terminal.ts:45-48 | Always a success, and the id is gone afterwards. |
| TerminalIpc.RepeatedKillSucceeds | src/main/ipc/terminal.ts:45-48 | Killing twice succeeds twice, and the second kill changes nothing. |
| AppContext.AddProject | src/renderer/src/context/AppContext.tsx:53-55 | The project is appended last. Earlier projects, tabs and settings are unchanged. |
| AppContext.ProjectsWithout | src/renderer/src/context/AppContext.tsx:58 | A project survives exactly when its id differs. |
| AppContext.RemoveProject | src/renderer/src/context/AppContext.tsx:57-59 | The projects left are exactly those with another id; tabs and settings are unchanged. |
| AppContext.ProjectsWithoutAppend | src/renderer/src/context/AppContext.tsx:58 | Removal works piecewise, which keeps the survivors in order. |
| AppContext.RemoveAbsentProject | src/renderer/src/context/AppContext.tsx:57-59 | Removing an id no project has changes nothing. |
| AppContext.RemoveProjectIdempotent | src/renderer/src/context/AppContext.tsx:57-59 | Removing twice is removing once. |
| AppContext.RemoveUndoesAddProject | src/renderer/src/context/AppContext.tsx:53-59 | Removing a just-added project with a new id restores the state. |
| AppContext.Patched | src/renderer/src/context/AppContext.tsx:63 | In `{ ...p, ...updates }`, each field the update sets wins, and every other field is kept. |
| AppContext.PatchedTwice | src/renderer/src/context/AppContext.tsx:63 | Two spreads in a row are one spread of the combined update. |
| AppContext.UpdateProject | src/renderer/src/context/AppContext.tsx:61-65 | Every project with the id is patched, the rest are unchanged, and order and length are kept. |
| AppContext.UpdateWithoutChangesIsIdentity | src/renderer/src/context/AppContext.tsx:61-65 | An empty update changes nothing. |
| AppContext.UpdateProjectIdempotent | src/renderer/src/context/AppContext.tsx:61-65 | Repeating an update changes nothing more, even one that changes the id. |
| AppContext.AddWorktreeToProject | src/renderer/src/context/AppContext.tsx:68-74 | The worktree is appended to every project with the id. Their other fields and all other projects are unchanged. |
| AppContext.RemoveWorktreeFromProject | src/renderer/src/context/AppContext.tsx:76-82 | In every project with the id, the worktrees are the filter of the old ones by a different id, in their order; so a worktree survives exactly when its id differs. Nothing else changes. |
| AppContext.RemoveUndoesAddWorktree | src/renderer/src/context/AppContext.tsx:68-82 | Removing a just-added worktree with a new id restores the state. |
| AppContext.OpenTab | src/renderer/src/context/AppContext.tsx:85-94 | A worktree that already has a tab gets that tab activated, and the tabs are unchanged. Otherwise the tab is appended and activated. The active tab is always open afterwards, and one tab per worktree is kept. |
| AppContext.OpenTabIdempotent | src/renderer/src/context/AppContext.tsx:85-94 | Opening the same tab twice is opening it once. |
| AppContext.FilterKeepsUniqueWorktrees | src/renderer/src/context/AppContext.tsx:97 | Filtering tabs keeps at most one tab per worktree. |
| AppContext.CloseTab | src/renderer/src/context/AppContext.tsx:96-105 | The tabs left are the filter of the open tabs by a different id, in their order, so exactly those with another id. If the closed tab was active, the earliest open tab with another id becomes active; with no tab left nothing is active; otherwise the active tab is unchanged. Validity is kept. |
| AppContext.SetActiveTab | src/renderer/src/context/AppContext.tsx:107-109 | The id is taken as given, so the state is valid exactly when the id names an open tab. |
| AppContext.TabsValidInitially | src/renderer/src/context/AppContext.tsx:48-49 | The initial state has unique worktrees per tab and no active tab. |
| AppContext.TabOperationsKeepTabsValid | src/renderer/src/context/AppContext.tsx:85-109 | Opening and closing tabs keep the tab invariant. Setting the active tab keeps it when the tab is open. |
| AppContext.UpdateSettings | src/renderer/src/context/AppContext.tsx:112-114 | In the shallow merge, each top-level group the update sets replaces the old one, and the others are kept. |
| AppContext.UpdateSettingsCompose | src/renderer/src/context/AppContext.tsx:112-114 | Two updates in a row are one update with the later keys winning. |
| AppContext.UpdateSettingsIdempotent | src/renderer/src/context/AppContext.tsx:112-114 | Repeating a settings update changes nothing more. |
| AppContext.UpdateWithoutSettingsIsIdentity | src/renderer/src/context/AppContext.tsx:112-114 | An empty settings update changes nothing. |
| MainPanel.PathAmong | src/renderer/src/components/MainPanel/MainPanel.tsx:21-24 | There is no path exactly when no worktree has the id; otherwise the path belongs to the first worktree with that id. |
| MainPanel.ScanProjects | src/renderer/src/components/MainPanel/MainPanel.tsx:20-26 | There is no path exactly when no worktree of any project has the id; otherwise the path belongs to such a worktree. |
| MainPanel.GetWorktreePath | src/renderer/src/components/MainPanel/MainPanel.tsx:15-27 | No open tab with the id gives no path. A path found belongs to a worktree with the tab's worktree id. An open tab with no path has no worktree in any project. |
| MainPanel.ScanIsFirstOfAll | src/renderer/src/components/MainPanel/MainPanel.tsx:20-26 | The project loop answers with the first matching worktree of all projects' worktrees in order. |
| MainPanel.FirstProjectWins | src/renderer/src/components/MainPanel/MainPanel.tsx:20-24 | The first project holding the worktree answers; earlier projects do not matter. |
| FileService.TempDir | src/main/services/FileService.ts:10 | The working directory is named `parallel-claude-files`, and its parent is the system's temporary directory when that is written without a trailing `/`. |
| FileService.MimeExtension | src/main/services/FileService.ts:26 | The extension is never empty and holds no `/`. |
| FileService.MimeExtensionOfType | src/main/services/FileService.ts:26 | The extension is the text between the first and second `/`, or `png` when that text is empty. |
| FileService.MimeExtensionWithoutSlash | src/main/services/FileService.ts:26 | A MIME type without `/` gets `png`. |
| FileService.FileTimestampShape | src/main/services/FileService.ts:29 | For an ISO time the timestamp is `YYYY-MM-DD_HH-mm-ss`, with no `/`, `:`, `.` or `T`. |
| FileService.SaveClipboardImage | src/main/services/FileService.ts:21-41 | The image is stored exactly when neither the directory nor the write fails, at `<dir>/clipboard-<ts>-<uuid8>.<ext>`. Each failure is rethrown with the save-error prefix. |
| FileService.CopyFileToTemp | src/main/services/FileService.ts:48-70 | The file is stored exactly when neither the directory nor the copy fails, at `<dir>/<stem>-<ts>-<uuid8><ext>`. Each failure is rethrown with the copy-error prefix. |
| FileService.NamePartsLackSlash | src/main/services/FileService.ts:29-31 | The timestamp, the UUID prefix, and the stem and extension of the source hold no `/`. |
| FileService.ClipboardImagePlacement | src/main/services/FileService.ts:29-32 | A stored image lies directly in the directory. Its name starts with `clipboard-` and the timestamp and ends with the extension. |
| FileService.CopiedFilePlacement | src/main/services/FileService.ts:53-61 | A copied file lies directly in the directory, under a name starting with the source's stem. |
| FileService.CopyKeepsExtension | src/main/services/FileService.ts:54-60 | The copy's extension is the source's extension. |
| FileService.DueEntriesAreExpired | src/main/services/FileService.ts:96-103 | Only expired entries of the directory are ever deleted. |
| FileService.DueIsExpiredWhenAllStat | src/main/services/FileService.ts:96-108 | When every entry can be examined, exactly the expired entries are tried, in directory order. |
| FileService.StatFailureStopsScan | src/main/services/FileService.ts:98 | An entry whose `statSync` throws ends the clean-up, and nothing after it is examined. |
| FileService.UnlinkOutcomesDoNotMatter | src/main/services/FileService.ts:102-107 | Failed deletions do not change which files are tried. |
| FileService.ExamineEntry | src/main/services/FileService.ts:101-107 | One entry: an expired entry joins the due list, its path is added to those tried, and it is added to those deleted exactly when its unlink succeeds; an entry that is not expired changes nothing. |
| FileService.UnlinkExpired | src/main/services/FileService.ts:96-109 | The loop tries to delete exactly the due entries, and it deletes exactly those whose unlink succeeds. |
| FileService.CleanupOldFiles | src/main/services/FileService.ts:85-113 | A missing directory or a failing listing deletes nothing. Otherwise exactly the due entries are tried and the successful ones are removed. |
| FileService.Start | src/main/services/FileService.ts:9-13 | The constructor fails exactly when creating the directory fails. Otherwise the directory is the fixed one, a failing listing deletes nothing, and the files tried are exactly the due entries for the default age: each one's path in the directory, for an entry more than 86,400,000 ms old. |
| Seqs.FilterMembers | src/renderer/src/context/AppContext.tsx:58 | `filter` keeps exactly the elements the test accepts. |
| Seqs.FilterAppend | src/renderer/src/context/AppContext.tsx:58 | `filter` distributes over concatenation, so order is kept. |
| Seqs.FilterIdempotent | src/renderer/src/context/AppContext.tsx:58 | Filtering twice with one test is filtering once. |
| Seqs.FirstIndexAppend | src/renderer/src/context/AppContext.tsx:87 | `find` on a concatenation searches the first part, then the second. |

## Left out

- Processes and I/O: `child_process.exec`, `fs`, node-pty, Electron IPC, the
  dialog and the window are replaced by outcome parameters. Promise
  interleavings between handlers are not modelled; each handler runs to its
  end as one step.
- Concurrency in the terminal registry: the process callbacks and the
  startup timer are explicit steps that may happen in any order. Real time
  (the 500 ms delay) is not modelled.
- Shell selection (`COMSPEC`, the `cmd` test): both branches write the same
  text, so only that text is modelled.
- Console logging and warnings: they are not observable to callers.
- Quoting of branch and path inside the `git` command lines: commands are
  modelled as structured values.
- `path.join` and `path.dirname`: modelled for already-normal POSIX paths. The
  `.`/`..` normalisation and Windows separators are not modelled.
- The `project:remove` handler: it does nothing and always succeeds.
- UI components other than `getWorktreePath`, the preload bridge and
  `main/index.ts`: they only wire the core together.
- `FileService.ensureTempDir`: its two steps are folded into one error
  parameter, because either failing throws the same way.
- `getTempDir`: it only returns the stored directory.
- Numbers are integers: `mtimeMs`, `Date.now()`, fractional `maxAgeHours` and
  the settings' numbers are not floating point.
- ISO times are the 24-character form for years 0 to 9999; extended years
  are left out.
- A thrown value without a `message` is treated as one with an empty message.
- `Partial<...>` updates whose keys are present with value `undefined` are
  not modelled; such a key would overwrite with `undefined`.
- TerminalService.KillAll: the order of the kills is not stated. The source
  follows the map's insertion order; the model proves only that each
  registered process is killed once.
- FileService.CopyKeepsExtension: stated only for a source with a non-empty
  extension. For a source whose extension is empty, the appended stamp can
  create one: a base name `..` gives a copy named `..-<stamp>`, whose
  extension runs from its second dot to the end.
- FileService.MimeExtension: it does not state that the extension is the
  MIME subtype for every input. That is stated separately by
  `MimeExtensionOfType` for types of the form `kind/subtype[/...]`.

## Findings

| source | as written | input that shows it | evidently intended | confidence | as-written member | corrected member |
|---|---|---|---|---|---|---|
| src/main/services/TerminalService.ts:46-50 | The exit callback deletes whatever entry its id has when the exit arrives. | Create id `t` (process 1), kill `t`, create `t` again (process 2), then process 1's exit arrives. The terminal view does exactly this when its effect re-runs for the same id. | Only the exiting process's own registration is removed. | medium, not executed | TerminalService.KilledProcessExitUnregistersSuccessor | TerminalService.OwnExit |
| src/main/services/TerminalService.ts:63-70 | The startup timer checks only that its id is registered, then writes to the process it captured. | Create `t` (process 1), kill `t`, create `t` again within 500 ms; process 1's timer fires. | The command is written only while the captured process is the registered one, never to a killed process. | medium, not executed | TerminalService.RecreatedIdReceivesStaleStartupWrite | TerminalService.OwnTimerFire |
