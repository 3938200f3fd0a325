/**
  `getWorktreePath` of the main panel: the path of the worktree behind an
  open tab, found by scanning the projects in order.
 */
module MainPanel {
  import opened Optional
  import opened Seqs
  import opened AppTypes
  import opened AppContext

  function TabIdIs(id: string): TerminalTab -> bool {
    (t: TerminalTab) => t.id == id
  }

  function WorktreeIdIs(id: string): Worktree -> bool {
    (w: Worktree) => w.id == id
  }

  /** `worktrees.find(w => w.id === worktreeId)?.path` */
  function PathAmong(ws: seq<Worktree>, worktreeId: string): (r: Option<string>)
    ensures r.None? <==> forall j :: 0 <= j < |ws| ==> ws[j].id != worktreeId
    ensures r.Some? ==>
      exists j ::
        && 0 <= j < |ws| && ws[j].id == worktreeId && ws[j].path == r.value
        && forall m :: 0 <= m < j ==> ws[m].id != worktreeId
  {
    match FirstIndex(ws, WorktreeIdIs(worktreeId))
    case None => None
    case Some(j) => Some(ws[j].path)
  }

  /** The loop over the projects: the first project holding the worktree
      answers. */
  function ScanProjects(projects: seq<Project>, worktreeId: string): (r: Option<string>)
    ensures r.None? <==> forall k, j :: 0 <= k < |projects| && 0 <= j < |projects[k].worktrees| ==>
      projects[k].worktrees[j].id != worktreeId
    ensures r.Some? ==>
      exists k, j :: 0 <= k < |projects| && 0 <= j < |projects[k].worktrees| &&
        projects[k].worktrees[j].id == worktreeId && projects[k].worktrees[j].path == r.value
    decreases |projects|
  {
    if projects == [] then None
    else
      match PathAmong(projects[0].worktrees, worktreeId)
      case Some(p) => Some(p)
      case None =>
        var rest := ScanProjects(projects[1..], worktreeId);
        assert forall k :: 1 <= k < |projects| ==> projects[k] == projects[1..][k - 1];
        rest
  }

  /** `getWorktreePath`: nothing for a tab id no open tab has; otherwise the
      path of a worktree with the tab's worktree id, if any project has one. */
  function GetWorktreePath(st: AppState, tabId: string): (r: Option<string>)
    ensures (forall i :: 0 <= i < |st.openTabs| ==> st.openTabs[i].id != tabId) ==> r == None
    ensures r.Some? ==> exists i, k, j ::
      && 0 <= i < |st.openTabs| && st.openTabs[i].id == tabId
      && 0 <= k < |st.projects| && 0 <= j < |st.projects[k].worktrees|
      && st.projects[k].worktrees[j].id == st.openTabs[i].worktreeId
      && st.projects[k].worktrees[j].path == r.value
    ensures r.None? && IsOpen(st.openTabs, tabId) ==>
      exists i :: 0 <= i < |st.openTabs| && st.openTabs[i].id == tabId &&
        forall k, j :: 0 <= k < |st.projects| && 0 <= j < |st.projects[k].worktrees| ==>
          st.projects[k].worktrees[j].id != st.openTabs[i].worktreeId
  {
    match FirstIndex(st.openTabs, TabIdIs(tabId))
    case None => None
    case Some(i) => ScanProjects(st.projects, st.openTabs[i].worktreeId)
  }

  /** Reference: all worktrees of all projects, project by project. */
  function AllWorktrees(projects: seq<Project>): seq<Worktree>
    decreases |projects|
  {
    if projects == [] then [] else projects[0].worktrees + AllWorktrees(projects[1..])
  }

  /** The scan answers with the first matching worktree of the flattened
      list. */
  lemma {:induction false} ScanIsFirstOfAll(projects: seq<Project>, worktreeId: string)
    ensures ScanProjects(projects, worktreeId) == PathAmong(AllWorktrees(projects), worktreeId)
    decreases |projects|
  {
    if projects != [] {
      var ws := projects[0].worktrees;
      var rest := AllWorktrees(projects[1..]);
      ScanIsFirstOfAll(projects[1..], worktreeId);
      FirstIndexAppend(ws, rest, WorktreeIdIs(worktreeId));
      match FirstIndex(ws, WorktreeIdIs(worktreeId))
      case Some(j) =>
        assert (ws + rest)[j] == ws[j];
      case None =>
        match FirstIndex(rest, WorktreeIdIs(worktreeId))
        case Some(j) =>
          assert (ws + rest)[|ws| + j] == rest[j];
        case None =>
    }
  }

  /** Projects before the first one holding the worktree do not matter. */
  lemma {:induction false} FirstProjectWins(projects: seq<Project>, k: nat, worktreeId: string)
    requires k < |projects|
    requires PathAmong(projects[k].worktrees, worktreeId).Some?
    requires forall m :: 0 <= m < k ==> PathAmong(projects[m].worktrees, worktreeId).None?
    ensures ScanProjects(projects, worktreeId) == PathAmong(projects[k].worktrees, worktreeId)
    decreases k
  {
    if k > 0 {
      assert PathAmong(projects[0].worktrees, worktreeId).None?;
      FirstProjectWins(projects[1..], k - 1, worktreeId);
    }
  }
}
