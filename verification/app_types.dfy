/**
  The records shared by the main process and the renderer. Dates travel as
  ISO strings; numbers are modelled as integers.
 */
module AppTypes {
  import opened Optional

  /** A worktree as the renderer keeps it. `projectId` is absent on the
      worktrees built by `project:add` and `worktree:list`, which do not set it. */
  datatype Worktree = Worktree(
    id: string,
    projectId: Option<string>,
    name: string,
    branch: string,
    path: string,
    createdAt: string)

  datatype Project = Project(
    id: string,
    name: string,
    path: string,
    createdAt: string,
    worktrees: seq<Worktree>)

  datatype TerminalTab = TerminalTab(id: string, worktreeId: string, title: string, isActive: bool)

  datatype Size = Size(width: int, height: int)
  datatype Position = Position(x: int, y: int)
  datatype Theme = Dark | Light
  datatype CursorStyle = Block | Underline | Bar

  datatype TerminalSettings = TerminalSettings(fontSize: int, fontFamily: string, cursorStyle: CursorStyle)
  datatype GitSettings = GitSettings(worktreeBasePath: string, deleteBranchOnWorktreeRemove: bool)

  datatype AppSettings = AppSettings(
    windowSize: Size,
    windowPosition: Position,
    sidePanelWidth: int,
    theme: Theme,
    terminal: TerminalSettings,
    git: GitSettings)
}
