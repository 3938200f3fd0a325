/**
  The `project:add`, `worktree:create`, `worktree:remove` and
  `worktree:list` handlers: they derive names and paths, call the git
  service and shape its results for the renderer. The folder dialog,
  `randomUUID` and the clock are parameters: `uuid(n)` is the value of the
  n-th `randomUUID()` call of one handler run, `now` the ISO time.
 */
module GitIpc {
  import opened Optional
  import opened Text
  import opened Paths
  import opened IsoTime
  import opened Porcelain
  import opened GitService
  import opened AppTypes

  /** What `dialog.showOpenDialog` settled with. */
  datatype DialogResult = DialogResult(canceled: bool, filePaths: seq<string>)

  datatype AddProjectReply = ProjectAdded(project: Project) | AddProjectFailed(error: string)

  const CancelledMessage := "キャンセルされました"
  const NotARepositoryMessage := "選択されたフォルダはGitリポジトリではありません"

  /** The renderer's worktrees for listed ones, the i-th taking id `uuid(first + i)`. */
  function FromListing(ws: seq<ListedWorktree>, uuid: nat -> string, first: nat, now: string): (r: seq<Worktree>)
    ensures |r| == |ws|
    ensures forall i :: 0 <= i < |ws| ==>
      && r[i].name == ws[i].name && r[i].branch == ws[i].branch && r[i].path == ws[i].path
      && r[i].id == uuid(first + i) && r[i].projectId == None && r[i].createdAt == now
  {
    seq(|ws|, i requires 0 <= i < |ws| => Worktree(uuid(first + i), None, ws[i].name, ws[i].branch, ws[i].path, now))
  }

  /** `project:add`: pick a folder, check it is a repository, then list its
      worktrees. The project id is the first `randomUUID()` of the run. */
  function AddProject(dialog: DialogResult, probe: ExecOutcome, listing: ExecOutcome,
                      uuid: nat -> string, now: string): (r: Run<AddProjectReply>)
    ensures dialog.canceled || |dialog.filePaths| == 0 ==>
      r.value == AddProjectFailed(CancelledMessage) && r.issued == []
    ensures !dialog.canceled && |dialog.filePaths| > 0 && probe.Err? ==>
      r.value == AddProjectFailed(NotARepositoryMessage) &&
      r.issued == [RevParseGitDir(dialog.filePaths[0])]
    ensures r.value.ProjectAdded? <==> !dialog.canceled && |dialog.filePaths| > 0 && probe.Ok?
    ensures r.value.ProjectAdded? ==>
      var p := dialog.filePaths[0];
      var listed := ListWorktrees(p, listing).value;
      && r.issued == [RevParseGitDir(p), ListPorcelain(p)]
      && r.value.project.id == uuid(0)
      && r.value.project.name == Basename(p)
      && r.value.project.path == p
      && |r.value.project.worktrees| == |listed|
      && forall i :: 0 <= i < |listed| ==>
           && r.value.project.worktrees[i].name == listed[i].name
           && r.value.project.worktrees[i].branch == listed[i].branch
           && r.value.project.worktrees[i].path == listed[i].path
  {
    if dialog.canceled || |dialog.filePaths| == 0 then Run(AddProjectFailed(CancelledMessage), [])
    else
      var p := dialog.filePaths[0];
      var isGit := IsGitRepository(p, probe);
      if !isGit.value then Run(AddProjectFailed(NotARepositoryMessage), isGit.issued)
      else
        var listed := ListWorktrees(p, listing);
        var project := Project(uuid(0), ProjectName(p), p, now, FromListing(listed.value, uuid, 1, now));
        Run(ProjectAdded(project), isGit.issued + listed.issued)
  }

  /** `worktree:create` answers with the renderer's worktree, or with the
      service's failure unchanged. */
  datatype CreateReply = WorktreeCreated(worktree: Worktree) | ServiceFailure(result: CreateResult)

  const WorktreesDirName := ".worktrees"

  /** The directory holding the worktrees of a project: a `.worktrees`
      sibling of the project directory. */
  function WorktreesDir(projectPath: string): string {
    Join(Dirname(projectPath), WorktreesDirName)
  }

  /** `worktree:create`: the generated name is both the branch and the last
      path segment of the new worktree. */
  function CreateWorktreeHandler(projectId: string, projectPath: string, cityIndex: nat, iso: string,
                                 uuid: string, now: string,
                                 mkdirError: Option<string>, add: ExecOutcome): (r: Run<CreateReply>)
    requires cityIndex < |Cities|
    ensures var name := GenerateWorktreeName(cityIndex, iso);
      var service := CreateWorktree(projectPath, name, Join(WorktreesDir(projectPath), name), mkdirError, add);
      && r.issued == service.issued
      && (r.value.ServiceFailure? <==> service.value.CreateFailed?)
      && (r.value.ServiceFailure? ==> r.value.result == service.value)
      && (r.value.WorktreeCreated? ==>
            r.value.worktree == Worktree(uuid, Some(projectId), name, name, Join(WorktreesDir(projectPath), name), now))
  {
    var name := GenerateWorktreeName(cityIndex, iso);
    var branch := name;
    var path := Join(WorktreesDir(projectPath), name);
    var service := CreateWorktree(projectPath, branch, path, mkdirError, add);
    if service.value.Created? then
      Run(WorktreeCreated(Worktree(uuid, Some(projectId), name, branch, path, now)), service.issued)
    else Run(ServiceFailure(service.value), service.issued)
  }

  /** A created worktree is named consistently: its branch is its name, its
      path ends in its name, the service reported that same name, and the
      parent directory made first is the project's `.worktrees` directory. */
  lemma CreatedWorktreeNaming(projectId: string, projectPath: string, cityIndex: nat, iso: string,
                              uuid: string, now: string, mkdirError: Option<string>, add: ExecOutcome)
    requires cityIndex < |Cities| && IsIsoTimestamp(iso)
    requires CreateWorktreeHandler(projectId, projectPath, cityIndex, iso, uuid, now, mkdirError, add).value.WorktreeCreated?
    ensures var r := CreateWorktreeHandler(projectId, projectPath, cityIndex, iso, uuid, now, mkdirError, add);
      var wt := r.value.worktree;
      var service := CreateWorktree(projectPath, wt.branch, wt.path, mkdirError, add);
      && wt.branch == wt.name
      && Basename(wt.path) == wt.name
      && service.value.Created? && service.value.worktree.name == wt.name
      && r.issued[0] == MakeDirs(WorktreesDir(projectPath))
  {
    var name := GenerateWorktreeName(cityIndex, iso);
    var dir := WorktreesDir(projectPath);
    var path := Join(dir, name);
    GeneratedNameShape(cityIndex, iso);
    BasenameJoin(dir, name);
    WorktreesDirShape(projectPath);
    DirnameJoin(dir, name);
    var service := CreateWorktree(projectPath, name, path, mkdirError, add);
    assert service.value.Created?;
    assert service.issued[0] == MakeDirs(dir);
  }

  /** The worktrees directory is a non-empty path without a trailing `/`. */
  lemma WorktreesDirShape(projectPath: string)
    ensures WorktreesDir(projectPath) != ""
    ensures WorktreesDir(projectPath)[|WorktreesDir(projectPath)| - 1] == 's'
  {
    var d := Dirname(projectPath);
    var w := WorktreesDirName;
    if d != "" && d[|d| - 1] != '/' {
      assert (d + "/" + w)[|d + "/" + w| - 1] == w[|w| - 1];
    } else if d != "" {
      assert (d + w)[|d + w| - 1] == w[|w| - 1];
    }
  }

  /** Removing a created worktree with `deleteBranch` set deletes exactly the
      branch that `worktree:create` created, once the removal succeeds. */
  lemma RemovalDeletesCreatedBranch(projectId: string, projectPath: string, cityIndex: nat, iso: string,
                                    uuid: string, now: string, mkdirError: Option<string>, add: ExecOutcome,
                                    removal: ExecOutcome, deletion: ExecOutcome)
    requires cityIndex < |Cities| && IsIsoTimestamp(iso)
    requires CreateWorktreeHandler(projectId, projectPath, cityIndex, iso, uuid, now, mkdirError, add).value.WorktreeCreated?
    requires removal.Ok?
    ensures var wt := CreateWorktreeHandler(projectId, projectPath, cityIndex, iso, uuid, now, mkdirError, add).value.worktree;
      RemoveWorktreeHandler(projectPath, wt.path, true, removal, deletion).issued ==
        [RemoveWorktreeForced(projectPath, wt.path), DeleteBranch(projectPath, wt.branch)]
  {
    CreatedWorktreeNaming(projectId, projectPath, cityIndex, iso, uuid, now, mkdirError, add);
  }

  /** `worktree:remove` passes its arguments to the service unchanged and
      answers with the service's result. */
  function RemoveWorktreeHandler(projectPath: string, worktreePath: string, deleteBranch: bool,
                                 removal: ExecOutcome, deletion: ExecOutcome): (r: Run<RemoveResult>)
    ensures r == RemoveWorktree(projectPath, worktreePath, deleteBranch, removal, deletion)
    ensures r.value.Removed? <==> removal.Ok?
  {
    RemoveWorktree(projectPath, worktreePath, deleteBranch, removal, deletion)
  }

  /** `{ success: true, worktrees }` */
  datatype ListReply = ListReply(success: bool, worktrees: seq<Worktree>)

  /** `worktree:list`: always a success, one worktree per listed one, in order. */
  function ListWorktreesHandler(projectPath: string, listing: ExecOutcome,
                                uuid: nat -> string, now: string): (r: Run<ListReply>)
    ensures r.value.success
    ensures r.issued == [ListPorcelain(projectPath)]
    ensures listing.Err? ==> r.value.worktrees == []
    ensures var listed := ListWorktrees(projectPath, listing).value;
      && |r.value.worktrees| == |listed|
      && forall i :: 0 <= i < |listed| ==>
           && r.value.worktrees[i].name == listed[i].name
           && r.value.worktrees[i].branch == listed[i].branch
           && r.value.worktrees[i].path == listed[i].path
           && r.value.worktrees[i].id == uuid(i)
  {
    var listed := ListWorktrees(projectPath, listing);
    Run(ListReply(true, FromListing(listed.value, uuid, 0, now)), listed.issued)
  }
}
