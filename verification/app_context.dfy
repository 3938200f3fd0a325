/**
  The renderer's application state and the reducers `AppProvider` exposes.
  Each React setter call becomes a function from the current state to the
  next one; the closure over `projects` and `openTabs` is the current state.
 */
module AppContext {
  import opened Optional
  import opened Seqs
  import opened AppTypes

  datatype AppState = AppState(
    projects: seq<Project>,
    openTabs: seq<TerminalTab>,
    activeTabId: Option<string>,
    settings: AppSettings)

  const DefaultSettings := AppSettings(
    Size(1200, 800),
    Position(100, 100),
    250,
    Dark,
    TerminalSettings(14, "Consolas, monospace", Block),
    GitSettings("../.worktrees", false))

  const Initial := AppState([], [], None, DefaultSettings)

  // ---------------------------------------------------------------------
  // Projects

  /** `addProject`: the new project goes last, the others stay as they were. */
  function AddProject(st: AppState, project: Project): (r: AppState)
    ensures |r.projects| == |st.projects| + 1
    ensures r.projects[..|st.projects|] == st.projects
    ensures r.projects[|st.projects|] == project
    ensures r.openTabs == st.openTabs && r.activeTabId == st.activeTabId && r.settings == st.settings
  {
    st.(projects := st.projects + [project])
  }

  function ProjectIdIsNot(id: string): Project -> bool {
    (p: Project) => p.id != id
  }

  /** The projects whose id is not `id`, in their order. */
  function ProjectsWithout(ps: seq<Project>, id: string): (r: seq<Project>)
    ensures forall p :: p in r <==> p in ps && p.id != id
  {
    FilterMembers(ps, ProjectIdIsNot(id));
    Filter(ps, ProjectIdIsNot(id))
  }

  /** `removeProject` */
  function RemoveProject(st: AppState, id: string): (r: AppState)
    ensures forall p :: p in r.projects <==> p in st.projects && p.id != id
    ensures |r.projects| <= |st.projects|
    ensures r.openTabs == st.openTabs && r.activeTabId == st.activeTabId && r.settings == st.settings
  {
    st.(projects := ProjectsWithout(st.projects, id))
  }

  /** Removal keeps the survivors in order: it works piecewise. */
  lemma ProjectsWithoutAppend(a: seq<Project>, b: seq<Project>, id: string)
    ensures ProjectsWithout(a + b, id) == ProjectsWithout(a, id) + ProjectsWithout(b, id)
  {
    FilterAppend(a, b, ProjectIdIsNot(id));
  }

  /** Removing an id no project has changes nothing. */
  lemma RemoveAbsentProject(st: AppState, id: string)
    requires forall i :: 0 <= i < |st.projects| ==> st.projects[i].id != id
    ensures RemoveProject(st, id) == st
  {
    FilterKeepsAll(st.projects, ProjectIdIsNot(id));
  }

  lemma RemoveProjectIdempotent(st: AppState, id: string)
    ensures RemoveProject(RemoveProject(st, id), id) == RemoveProject(st, id)
  {
    FilterIdempotent(st.projects, ProjectIdIsNot(id));
  }

  /** Removing a project just added undoes the addition, provided its id was
      new. */
  lemma RemoveUndoesAddProject(st: AppState, project: Project)
    requires forall i :: 0 <= i < |st.projects| ==> st.projects[i].id != project.id
    ensures RemoveProject(AddProject(st, project), project.id) == st
  {
    ProjectsWithoutAppend(st.projects, [project], project.id);
    FilterKeepsAll(st.projects, ProjectIdIsNot(project.id));
    FilterDropsAll([project], ProjectIdIsNot(project.id));
  }

  /** `Partial<Project>`: the fields an update sets. */
  datatype ProjectPatch = ProjectPatch(
    id: Option<string>,
    name: Option<string>,
    path: Option<string>,
    createdAt: Option<string>,
    worktrees: Option<seq<Worktree>>)

  const NoProjectChanges := ProjectPatch(None, None, None, None, None)

  /** `{ ...p, ...updates }`: a field the update sets wins. */
  function Patched(p: Project, u: ProjectPatch): (r: Project)
    ensures u.id.Some? ==> r.id == u.id.value
    ensures u.id.None? ==> r.id == p.id
    ensures u.name.Some? ==> r.name == u.name.value
    ensures u.name.None? ==> r.name == p.name
    ensures u.path.Some? ==> r.path == u.path.value
    ensures u.path.None? ==> r.path == p.path
    ensures u.createdAt.Some? ==> r.createdAt == u.createdAt.value
    ensures u.createdAt.None? ==> r.createdAt == p.createdAt
    ensures u.worktrees.Some? ==> r.worktrees == u.worktrees.value
    ensures u.worktrees.None? ==> r.worktrees == p.worktrees
  {
    Project(u.id.GetOr(p.id), u.name.GetOr(p.name), u.path.GetOr(p.path),
            u.createdAt.GetOr(p.createdAt), u.worktrees.GetOr(p.worktrees))
  }

  /** The update that applies `first`, then `second`. */
  function ThenPatch(first: ProjectPatch, second: ProjectPatch): ProjectPatch {
    ProjectPatch(
      if second.id.Some? then second.id else first.id,
      if second.name.Some? then second.name else first.name,
      if second.path.Some? then second.path else first.path,
      if second.createdAt.Some? then second.createdAt else first.createdAt,
      if second.worktrees.Some? then second.worktrees else first.worktrees)
  }

  /** Two spreads in a row are one spread of the combined update. */
  lemma PatchedTwice(p: Project, first: ProjectPatch, second: ProjectPatch)
    ensures Patched(Patched(p, first), second) == Patched(p, ThenPatch(first, second))
  {
  }

  /** `updateProject` */
  function UpdateProject(st: AppState, id: string, u: ProjectPatch): (r: AppState)
    ensures |r.projects| == |st.projects|
    ensures forall i :: 0 <= i < |st.projects| && st.projects[i].id != id ==> r.projects[i] == st.projects[i]
    ensures forall i :: 0 <= i < |st.projects| && st.projects[i].id == id ==> r.projects[i] == Patched(st.projects[i], u)
    ensures r.openTabs == st.openTabs && r.activeTabId == st.activeTabId && r.settings == st.settings
  {
    st.(projects := seq(|st.projects|, i requires 0 <= i < |st.projects| =>
          if st.projects[i].id == id then Patched(st.projects[i], u) else st.projects[i]))
  }

  lemma UpdateWithoutChangesIsIdentity(st: AppState, id: string)
    ensures UpdateProject(st, id, NoProjectChanges) == st
  {
    assert UpdateProject(st, id, NoProjectChanges).projects == st.projects;
  }

  /** Repeating an update changes nothing more, even one that renames the
      project's id: the renamed projects no longer match. */
  lemma UpdateProjectIdempotent(st: AppState, id: string, u: ProjectPatch)
    ensures UpdateProject(UpdateProject(st, id, u), id, u) == UpdateProject(st, id, u)
  {
    var once := UpdateProject(st, id, u);
    var twice := UpdateProject(once, id, u);
    forall i | 0 <= i < |st.projects|
      ensures twice.projects[i] == once.projects[i]
    {
      if st.projects[i].id == id && once.projects[i].id == id {
        PatchedTwice(st.projects[i], u, u);
        assert ThenPatch(u, u) == u;
      }
    }
    assert twice.projects == once.projects;
  }

  // ---------------------------------------------------------------------
  // Worktrees of a project

  /** `addWorktreeToProject`: the worktree is appended to every project with
      the id; nothing else changes. */
  function AddWorktreeToProject(st: AppState, projectId: string, w: Worktree): (r: AppState)
    ensures |r.projects| == |st.projects|
    ensures forall i :: 0 <= i < |st.projects| && st.projects[i].id != projectId ==> r.projects[i] == st.projects[i]
    ensures forall i :: 0 <= i < |st.projects| && st.projects[i].id == projectId ==>
      && r.projects[i].worktrees == st.projects[i].worktrees + [w]
      && r.projects[i] == st.projects[i].(worktrees := r.projects[i].worktrees)
    ensures r.openTabs == st.openTabs && r.activeTabId == st.activeTabId && r.settings == st.settings
  {
    st.(projects := seq(|st.projects|, i requires 0 <= i < |st.projects| =>
          var p := st.projects[i];
          if p.id == projectId then p.(worktrees := p.worktrees + [w]) else p))
  }

  function WorktreeIdIsNot(id: string): Worktree -> bool {
    (w: Worktree) => w.id != id
  }

  /** `removeWorktreeFromProject`: inside every project with the id the
      worktrees with `worktreeId` go; nothing else changes. */
  function RemoveWorktreeFromProject(st: AppState, projectId: string, worktreeId: string): (r: AppState)
    ensures |r.projects| == |st.projects|
    ensures forall i :: 0 <= i < |st.projects| && st.projects[i].id != projectId ==> r.projects[i] == st.projects[i]
    ensures forall i :: 0 <= i < |st.projects| && st.projects[i].id == projectId ==>
      && (forall w :: w in r.projects[i].worktrees <==> w in st.projects[i].worktrees && w.id != worktreeId)
      && r.projects[i] == st.projects[i].(worktrees := r.projects[i].worktrees)
    ensures forall i :: 0 <= i < |st.projects| && st.projects[i].id == projectId ==>
      r.projects[i].worktrees == Filter(st.projects[i].worktrees, WorktreeIdIsNot(worktreeId))
    ensures r.openTabs == st.openTabs && r.activeTabId == st.activeTabId && r.settings == st.settings
  {
    FilterMembersEverywhere(WorktreeIdIsNot(worktreeId));
    st.(projects := seq(|st.projects|, i requires 0 <= i < |st.projects| =>
          var p := st.projects[i];
          if p.id == projectId then p.(worktrees := Filter(p.worktrees, WorktreeIdIsNot(worktreeId))) else p))
  }

  /** Removing a worktree just added to a project undoes the addition,
      provided no matching project already had a worktree with its id. */
  lemma RemoveUndoesAddWorktree(st: AppState, projectId: string, w: Worktree)
    requires forall i, j :: 0 <= i < |st.projects| && st.projects[i].id == projectId && 0 <= j < |st.projects[i].worktrees| ==>
      st.projects[i].worktrees[j].id != w.id
    ensures RemoveWorktreeFromProject(AddWorktreeToProject(st, projectId, w), projectId, w.id) == st
  {
    var added := AddWorktreeToProject(st, projectId, w);
    var back := RemoveWorktreeFromProject(added, projectId, w.id);
    forall i | 0 <= i < |st.projects|
      ensures back.projects[i] == st.projects[i]
    {
      if st.projects[i].id == projectId {
        var ws := st.projects[i].worktrees;
        FilterAppend(ws, [w], WorktreeIdIsNot(w.id));
        FilterKeepsAll(ws, WorktreeIdIsNot(w.id));
        FilterDropsAll([w], WorktreeIdIsNot(w.id));
        assert back.projects[i].worktrees == ws;
      }
    }
    assert back.projects == st.projects;
  }

  // ---------------------------------------------------------------------
  // Tabs

  /** At most one open tab per worktree. */
  predicate UniqueWorktrees(tabs: seq<TerminalTab>) {
    forall i, j :: 0 <= i < j < |tabs| ==> tabs[i].worktreeId != tabs[j].worktreeId
  }

  predicate IsOpen(tabs: seq<TerminalTab>, id: string) {
    exists t :: t in tabs && t.id == id
  }

  /** The active id is absent or names an open tab. */
  predicate ActiveIsOpen(st: AppState) {
    st.activeTabId.None? || IsOpen(st.openTabs, st.activeTabId.value)
  }

  predicate TabsValid(st: AppState) {
    UniqueWorktrees(st.openTabs) && ActiveIsOpen(st)
  }

  function OnWorktree(worktreeId: string): TerminalTab -> bool {
    (t: TerminalTab) => t.worktreeId == worktreeId
  }

  /** `openTab`: a worktree that already has a tab gets that tab activated;
      otherwise the new tab is appended and activated. */
  function OpenTab(st: AppState, tab: TerminalTab): (r: AppState)
    ensures (exists i :: 0 <= i < |st.openTabs| && st.openTabs[i].worktreeId == tab.worktreeId) ==>
      && r.openTabs == st.openTabs
      && exists i :: 0 <= i < |st.openTabs| && st.openTabs[i].worktreeId == tab.worktreeId &&
                     r.activeTabId == Some(st.openTabs[i].id)
    ensures (forall i :: 0 <= i < |st.openTabs| ==> st.openTabs[i].worktreeId != tab.worktreeId) ==>
      r.openTabs == st.openTabs + [tab] && r.activeTabId == Some(tab.id)
    ensures ActiveIsOpen(r)
    ensures UniqueWorktrees(st.openTabs) ==> UniqueWorktrees(r.openTabs)
    ensures r.projects == st.projects && r.settings == st.settings
  {
    match FirstIndex(st.openTabs, OnWorktree(tab.worktreeId))
    case Some(i) =>
      assert st.openTabs[i] in st.openTabs;
      st.(activeTabId := Some(st.openTabs[i].id))
    case None =>
      var tabs := st.openTabs + [tab];
      assert tabs[|tabs| - 1] in tabs;
      st.(openTabs := tabs, activeTabId := Some(tab.id))
  }

  /** Opening the tab of a worktree that already has one twice is opening
      it once. */
  lemma OpenTabIdempotent(st: AppState, tab: TerminalTab)
    ensures OpenTab(OpenTab(st, tab), tab) == OpenTab(st, tab)
  {
    var once := OpenTab(st, tab);
    if FirstIndex(st.openTabs, OnWorktree(tab.worktreeId)).None? {
      FirstIndexAppend(st.openTabs, [tab], OnWorktree(tab.worktreeId));
    } else {
      var i := FirstIndex(st.openTabs, OnWorktree(tab.worktreeId)).value;
      assert FirstIndex(once.openTabs, OnWorktree(tab.worktreeId)) == Some(i);
    }
  }

  function TabIdIsNot(id: string): TerminalTab -> bool {
    (t: TerminalTab) => t.id != id
  }

  /** Filtering keeps at most one tab per worktree. */
  lemma {:induction false} FilterKeepsUniqueWorktrees(tabs: seq<TerminalTab>, keep: TerminalTab -> bool)
    requires UniqueWorktrees(tabs)
    ensures UniqueWorktrees(Filter(tabs, keep))
    decreases |tabs|
  {
    if tabs != [] {
      var rest := tabs[1..];
      assert UniqueWorktrees(rest) by {
        forall i, j | 0 <= i < j < |rest| ensures rest[i].worktreeId != rest[j].worktreeId {
          assert rest[i] == tabs[i + 1] && rest[j] == tabs[j + 1];
        }
      }
      FilterKeepsUniqueWorktrees(rest, keep);
      var tail := Filter(rest, keep);
      FilterMembers(rest, keep);
      if keep(tabs[0]) {
        var r := [tabs[0]] + tail;
        forall i, j | 0 <= i < j < |r| ensures r[i].worktreeId != r[j].worktreeId {
          if i == 0 {
            assert r[j] == tail[j - 1];
            assert tail[j - 1] in rest;
            var m :| 0 <= m < |rest| && rest[m] == tail[j - 1];
            assert tabs[m + 1] == rest[m];
          } else {
            assert r[i] == tail[i - 1] && r[j] == tail[j - 1];
          }
        }
        assert Filter(tabs, keep) == r;
      } else {
        assert Filter(tabs, keep) == tail;
      }
    }
  }

  /** `closeTab`: the tab goes and the others keep their order; the first
      remaining tab becomes active if the closed one was active, and nothing
      is active once no tab is left. */
  function CloseTab(st: AppState, tabId: string): (r: AppState)
    ensures forall t :: t in r.openTabs <==> t in st.openTabs && t.id != tabId
    ensures |r.openTabs| <= |st.openTabs|
    ensures r.openTabs == Filter(st.openTabs, TabIdIsNot(tabId))
    ensures st.activeTabId == Some(tabId) ==>
      match FirstIndex(st.openTabs, TabIdIsNot(tabId))
      case Some(k) => r.activeTabId == Some(st.openTabs[k].id)
      case None => r.activeTabId == None
    ensures st.activeTabId == Some(tabId) && |r.openTabs| > 0 ==> r.activeTabId == Some(r.openTabs[0].id)
    ensures |r.openTabs| == 0 ==> r.activeTabId == None
    ensures st.activeTabId != Some(tabId) && |r.openTabs| > 0 ==> r.activeTabId == st.activeTabId
    ensures ActiveIsOpen(st) ==> ActiveIsOpen(r)
    ensures UniqueWorktrees(st.openTabs) ==> UniqueWorktrees(r.openTabs)
    ensures r.projects == st.projects && r.settings == st.settings
  {
    var tabs := Filter(st.openTabs, TabIdIsNot(tabId));
    FilterMembers(st.openTabs, TabIdIsNot(tabId));
    FilterHeadIsFirst(st.openTabs, TabIdIsNot(tabId));
    var active :=
      if st.activeTabId == Some(tabId) && |tabs| > 0 then Some(tabs[0].id)
      else if |tabs| == 0 then None
      else st.activeTabId;
    if UniqueWorktrees(st.openTabs) then
      FilterKeepsUniqueWorktrees(st.openTabs, TabIdIsNot(tabId));
      assert |tabs| > 0 ==> tabs[0] in tabs;
      st.(openTabs := tabs, activeTabId := active)
    else
      assert |tabs| > 0 ==> tabs[0] in tabs;
      st.(openTabs := tabs, activeTabId := active)
  }

  /** `setActiveTab`: the id is taken as given, so the state stays valid
      exactly when it names an open tab. */
  function SetActiveTab(st: AppState, tabId: string): (r: AppState)
    ensures r.activeTabId == Some(tabId)
    ensures r.openTabs == st.openTabs && r.projects == st.projects && r.settings == st.settings
    ensures ActiveIsOpen(r) <==> IsOpen(st.openTabs, tabId)
  {
    st.(activeTabId := Some(tabId))
  }

  /** The tab invariant holds from the start and every tab operation keeps
      it, `setActiveTab` when given an open tab. */
  lemma TabsValidInitially()
    ensures TabsValid(Initial)
  {
  }

  lemma TabOperationsKeepTabsValid(st: AppState, tab: TerminalTab, tabId: string)
    requires TabsValid(st)
    ensures TabsValid(OpenTab(st, tab))
    ensures TabsValid(CloseTab(st, tabId))
    ensures IsOpen(st.openTabs, tabId) ==> TabsValid(SetActiveTab(st, tabId))
  {
  }

  // ---------------------------------------------------------------------
  // Settings

  /** `Partial<AppSettings>`: the top-level keys an update sets. */
  datatype SettingsPatch = SettingsPatch(
    windowSize: Option<Size>,
    windowPosition: Option<Position>,
    sidePanelWidth: Option<int>,
    theme: Option<Theme>,
    terminal: Option<TerminalSettings>,
    git: Option<GitSettings>)

  const NoSettingsChanges := SettingsPatch(None, None, None, None, None, None)

  /** `updateSettings`: a shallow merge, so a nested group the update sets
      is replaced as a whole. */
  function UpdateSettings(st: AppState, u: SettingsPatch): (r: AppState)
    ensures u.windowSize.Some? ==> r.settings.windowSize == u.windowSize.value
    ensures u.windowSize.None? ==> r.settings.windowSize == st.settings.windowSize
    ensures u.windowPosition.Some? ==> r.settings.windowPosition == u.windowPosition.value
    ensures u.windowPosition.None? ==> r.settings.windowPosition == st.settings.windowPosition
    ensures u.sidePanelWidth.Some? ==> r.settings.sidePanelWidth == u.sidePanelWidth.value
    ensures u.sidePanelWidth.None? ==> r.settings.sidePanelWidth == st.settings.sidePanelWidth
    ensures u.theme.Some? ==> r.settings.theme == u.theme.value
    ensures u.theme.None? ==> r.settings.theme == st.settings.theme
    ensures u.terminal.Some? ==> r.settings.terminal == u.terminal.value
    ensures u.terminal.None? ==> r.settings.terminal == st.settings.terminal
    ensures u.git.Some? ==> r.settings.git == u.git.value
    ensures u.git.None? ==> r.settings.git == st.settings.git
    ensures r.projects == st.projects && r.openTabs == st.openTabs && r.activeTabId == st.activeTabId
  {
    var s := st.settings;
    st.(settings := AppSettings(
      u.windowSize.GetOr(s.windowSize),
      u.windowPosition.GetOr(s.windowPosition),
      u.sidePanelWidth.GetOr(s.sidePanelWidth),
      u.theme.GetOr(s.theme),
      u.terminal.GetOr(s.terminal),
      u.git.GetOr(s.git)))
  }

  /** The update that applies `first`, then `second`. */
  function ThenSettings(first: SettingsPatch, second: SettingsPatch): SettingsPatch {
    SettingsPatch(
      if second.windowSize.Some? then second.windowSize else first.windowSize,
      if second.windowPosition.Some? then second.windowPosition else first.windowPosition,
      if second.sidePanelWidth.Some? then second.sidePanelWidth else first.sidePanelWidth,
      if second.theme.Some? then second.theme else first.theme,
      if second.terminal.Some? then second.terminal else first.terminal,
      if second.git.Some? then second.git else first.git)
  }

  lemma UpdateSettingsCompose(st: AppState, first: SettingsPatch, second: SettingsPatch)
    ensures UpdateSettings(UpdateSettings(st, first), second) == UpdateSettings(st, ThenSettings(first, second))
  {
  }

  lemma UpdateSettingsIdempotent(st: AppState, u: SettingsPatch)
    ensures UpdateSettings(UpdateSettings(st, u), u) == UpdateSettings(st, u)
  {
    UpdateSettingsCompose(st, u, u);
    assert ThenSettings(u, u) == u;
  }

  lemma UpdateWithoutSettingsIsIdentity(st: AppState)
    ensures UpdateSettings(st, NoSettingsChanges) == st
  {
  }
}
