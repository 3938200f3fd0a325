/**
  `GitService`: drives the `git` command line and interprets its results.
  Every `git` invocation and the directory creation are outcomes passed in
  as parameters (what `execAsync` or `fs.mkdir` resolved or rejected with);
  each operation returns, besides its value, the commands it issued, so
  that which commands run, and in which order, is part of the contract.
 */
module GitService {
  import opened Optional
  import opened Text
  import opened Paths
  import opened IsoTime
  import opened Porcelain

  /** The settled `execAsync` promise: resolved with `stdout`, or rejected
      with an error carrying `stderr` (empty when absent) and `message`. */
  datatype ExecOutcome = Ok(stdout: string) | Err(stderr: string, message: string)

  /** The external commands and file-system calls the service issues. */
  datatype Command =
    | RevParseGitDir(cwd: string)                          // git rev-parse --git-dir
    | ListPorcelain(cwd: string)                           // git worktree list --porcelain
    | MakeDirs(dir: string)                                // fs.mkdir(dir, { recursive: true })
    | AddWorktree(cwd: string, branch: string, path: string) // git worktree add -b <branch> <path> HEAD
    | RemoveWorktreeForced(cwd: string, path: string)      // git worktree remove <path> --force
    | DeleteBranch(cwd: string, branch: string)            // git branch -D <branch>

  /** A value together with the commands issued to compute it. */
  datatype Run<T> = Run(value: T, issued: seq<Command>)

  /** `error.stderr || error.message` */
  function Diagnostic(stderr: string, message: string): (d: string)
    ensures d == (if stderr == "" then message else stderr)
  {
    if stderr != "" then stderr else message
  }

  // ---------------------------------------------------------------------
  // Repository probe and listing

  /** `isGitRepository`: true exactly when the probe succeeds; a failed
      probe is an answer, not an error. */
  function IsGitRepository(projectPath: string, probe: ExecOutcome): (r: Run<bool>)
    ensures r.value <==> probe.Ok?
    ensures r.issued == [RevParseGitDir(projectPath)]
  {
    Run(probe.Ok?, [RevParseGitDir(projectPath)])
  }

  /** `listWorktrees`: the records of the complete blocks of the porcelain
      listing, or no records when the command fails. */
  function ListWorktrees(projectPath: string, listing: ExecOutcome): (r: Run<seq<ListedWorktree>>)
    ensures listing.Err? ==> r.value == []
    ensures listing.Ok? ==> r.value == Records(Split(listing.stdout, '\n'))
    ensures forall i :: 0 <= i < |r.value| ==> WellFormed(r.value[i])
    ensures listing.Ok? ==> |r.value| <= CountBlank(Split(listing.stdout, '\n'))
    ensures r.issued == [ListPorcelain(projectPath)]
  {
    match listing
    case Err(_, _) => Run([], [ListPorcelain(projectPath)])
    case Ok(stdout) =>
      ParseMatchesRecords(Split(stdout, '\n'));
      Run(ParsePorcelain(stdout), [ListPorcelain(projectPath)])
  }

  /** `getProjectName` */
  function ProjectName(projectPath: string): (r: string)
    ensures '/' !in r
    ensures projectPath != "" && projectPath[|projectPath| - 1] != '/' ==>
      r != "" && (r == projectPath || EndsWith(projectPath, "/" + r))
    ensures forall d :: IsSegment(r) ==> r == Basename(Join(d, r))
  {
    var r := Basename(projectPath);
    BasenameOfPlainPath(projectPath);
    forall d | IsSegment(r)
      ensures r == Basename(Join(d, r))
    {
      BasenameJoin(d, r);
    }
    r
  }

  // ---------------------------------------------------------------------
  // Creation and its failure classification

  const AlreadyExists := "already exists"
  const AlreadyCheckedOut := "is already checked out"

  /** The three classes of creation failure the service distinguishes. */
  datatype CreateFailure = BranchExists | CheckedOutElsewhere | OtherFailure

  /** Substring classification of the diagnostic; "already exists" is
      tested first. */
  function Classify(diagnostic: string): (k: CreateFailure)
    ensures k == BranchExists <==> Contains(diagnostic, AlreadyExists)
    ensures k == CheckedOutElsewhere <==>
      !Contains(diagnostic, AlreadyExists) && Contains(diagnostic, AlreadyCheckedOut)
    ensures k == OtherFailure <==>
      !Contains(diagnostic, AlreadyExists) && !Contains(diagnostic, AlreadyCheckedOut)
  {
    if Contains(diagnostic, AlreadyExists) then BranchExists
    else if Contains(diagnostic, AlreadyCheckedOut) then CheckedOutElsewhere
    else OtherFailure
  }

  const CheckedOutMessage := "このブランチは既に別のworktreeでチェックアウトされています。"
  const CreateFailedPrefix := "Worktreeの作成に失敗しました: "

  /** The user-facing text of each failure class. */
  function FailureMessage(k: CreateFailure, branchName: string, diagnostic: string): string {
    match k
    case BranchExists => "ブランチ \"" + branchName + "\" は既に存在します。"
    case CheckedOutElsewhere => CheckedOutMessage
    case OtherFailure => CreateFailedPrefix + diagnostic
  }

  /** `{ success, worktree }` or `{ success: false, error }`. */
  datatype CreateResult = Created(worktree: ListedWorktree) | CreateFailed(error: string)

  /** The result of a failure with diagnostic `d`. */
  function Rejection(branchName: string, d: string): CreateResult {
    CreateFailed(FailureMessage(Classify(d), branchName, d))
  }

  /** `createWorktree`: make the parent directory, then add the worktree on a
      new branch. A failure of either step is classified by its diagnostic
      (a directory error has no `stderr`, so its message is used). */
  function CreateWorktree(projectPath: string, branchName: string, worktreePath: string,
                          mkdirError: Option<string>, add: ExecOutcome): (r: Run<CreateResult>)
    ensures r.issued == [MakeDirs(Dirname(worktreePath))] +
      (if mkdirError.None? then [AddWorktree(projectPath, branchName, worktreePath)] else [])
    ensures r.value.Created? <==> mkdirError.None? && add.Ok?
    ensures r.value.Created? ==>
      r.value.worktree == ListedWorktree(worktreePath, branchName, Basename(worktreePath))
    ensures mkdirError.Some? ==> r.value == Rejection(branchName, mkdirError.value)
    ensures mkdirError.None? && add.Err? ==>
      r.value == Rejection(branchName, Diagnostic(add.stderr, add.message))
  {
    var mkdir := MakeDirs(Dirname(worktreePath));
    match mkdirError
    case Some(message) => Run(Rejection(branchName, message), [mkdir])
    case None =>
      var issued := [mkdir, AddWorktree(projectPath, branchName, worktreePath)];
      match add
      case Ok(_) => Run(Created(ListedWorktree(worktreePath, branchName, Basename(worktreePath))), issued)
      case Err(stderr, message) => Run(Rejection(branchName, Diagnostic(stderr, message)), issued)
  }

  /** Any diagnostic mentioning "already exists" reports an existing
      branch, whatever else it mentions. */
  lemma AlreadyExistsWins(a: string, b: string, branchName: string)
    ensures Classify(a + AlreadyExists + b) == BranchExists
    ensures Rejection(branchName, a + AlreadyExists + b) ==
      CreateFailed("ブランチ \"" + branchName + "\" は既に存在します。")
  {
    ContainsFromParts(a, AlreadyExists, b);
  }

  /** A diagnostic reporting a checked-out branch, and no existing one,
      yields the checked-out message. */
  lemma CheckedOutClassified(a: string, b: string, branchName: string)
    requires !Contains(a + AlreadyCheckedOut + b, AlreadyExists)
    ensures Rejection(branchName, a + AlreadyCheckedOut + b) == CreateFailed(CheckedOutMessage)
  {
    ContainsFromParts(a, AlreadyCheckedOut, b);
  }

  /** An unclassified failure carries the diagnostic verbatim at its end. */
  lemma OtherFailureKeepsDiagnostic(branchName: string, d: string)
    requires Classify(d) == OtherFailure
    ensures Rejection(branchName, d).error == CreateFailedPrefix + d
    ensures EndsWith(Rejection(branchName, d).error, d)
    ensures Contains(Rejection(branchName, d).error, d)
  {
    var e := CreateFailedPrefix + d;
    assert e[|e| - |d|..] == d;
    ContainsFromParts(CreateFailedPrefix, d, "");
    assert CreateFailedPrefix + d + "" == e;
  }

  // ---------------------------------------------------------------------
  // Removal

  const RemoveFailedPrefix := "Worktreeの削除に失敗しました: "

  /** `{ success: true }` or `{ success: false, error }`. */
  datatype RemoveResult = Removed | RemoveFailed(error: string)

  /** `removeWorktree`: forced removal first; only after it succeeds, and
      only when asked, the branch named after the worktree directory is
      deleted, and that deletion's outcome is ignored. */
  function RemoveWorktree(projectPath: string, worktreePath: string, deleteBranch: bool,
                          removal: ExecOutcome, deletion: ExecOutcome): (r: Run<RemoveResult>)
    ensures r.value.Removed? <==> removal.Ok?
    ensures removal.Err? ==>
      r.value == RemoveFailed(RemoveFailedPrefix + Diagnostic(removal.stderr, removal.message))
    ensures 1 <= |r.issued| <= 2 && r.issued[0] == RemoveWorktreeForced(projectPath, worktreePath)
    ensures |r.issued| == 2 <==> deleteBranch && removal.Ok?
    ensures |r.issued| == 2 ==> r.issued[1] == DeleteBranch(projectPath, Basename(worktreePath))
  {
    var remove := RemoveWorktreeForced(projectPath, worktreePath);
    match removal
    case Err(stderr, message) =>
      Run(RemoveFailed(RemoveFailedPrefix + Diagnostic(stderr, message)), [remove])
    case Ok(_) =>
      if deleteBranch then Run(Removed, [remove, DeleteBranch(projectPath, Basename(worktreePath))])
      else Run(Removed, [remove])
  }

  /** `deleteBranch` defaults to false. */
  const DefaultDeleteBranch := false

  /** Called without `deleteBranch`, removal never touches the branch: the
      forced removal is the only command. */
  lemma DefaultKeepsBranch(projectPath: string, worktreePath: string, removal: ExecOutcome, deletion: ExecOutcome)
    ensures RemoveWorktree(projectPath, worktreePath, DefaultDeleteBranch, removal, deletion).issued ==
      [RemoveWorktreeForced(projectPath, worktreePath)]
  {
  }

  /** The branch deletion is best effort: its outcome never changes the
      result, nor anything else the operation does. */
  lemma BranchDeletionIsBestEffort(projectPath: string, worktreePath: string, deleteBranch: bool,
                                   removal: ExecOutcome, deletion1: ExecOutcome, deletion2: ExecOutcome)
    ensures RemoveWorktree(projectPath, worktreePath, deleteBranch, removal, deletion1) ==
            RemoveWorktree(projectPath, worktreePath, deleteBranch, removal, deletion2)
  {
  }

  // ---------------------------------------------------------------------
  // Worktree names

  const Cities: seq<string> := [
    "tokyo", "paris", "london", "newyork", "berlin", "sydney", "toronto",
    "singapore", "seoul", "dubai", "mumbai", "stockholm", "amsterdam",
    "barcelona", "rome", "vienna", "prague", "oslo", "copenhagen", "helsinki"
  ]

  /** `toISOString().replace(/[-:]/g, '').slice(0, 15)` */
  function CompactTimestamp(iso: string): string {
    Take(RemoveChars(iso, {'-', ':'}), 15)
  }

  /** `YYYYMMDDTHHMMSS`, picked by position out of an ISO timestamp. */
  function CompactForm(iso: string): string
    requires |iso| == 24
  {
    iso[..4] + iso[5..7] + iso[8..13] + iso[14..16] + iso[17..19]
  }

  /** `generateWorktreeName`, with `Math.floor(Math.random() * 20)` and the
      clock's ISO text as parameters. */
  function GenerateWorktreeName(cityIndex: nat, iso: string): string
    requires cityIndex < |Cities|
  {
    Cities[cityIndex] + "-" + CompactTimestamp(iso)
  }

  /** Splitting a deletion at index `j`. */
  lemma RemoveCharsAt(s: string, i: nat, j: nat, cs: set<char>)
    requires i <= j <= |s|
    ensures RemoveChars(s[i..], cs) == RemoveChars(s[i..j], cs) + RemoveChars(s[j..], cs)
  {
    assert s[i..] == s[i..j] + s[j..];
    RemoveCharsAppend(s[i..j], s[j..], cs);
  }

  /** The stretches of an ISO timestamp between its `-` and `:` separators. */
  predicate IsKeptStretch(i: nat, j: nat) {
    (i, j) == (0, 4) || (i, j) == (5, 7) || (i, j) == (8, 13) || (i, j) == (14, 16) || (i, j) == (17, 24)
  }

  /** Such a stretch is left alone by the deletion. */
  lemma KeptPiece(iso: string, i: nat, j: nat)
    requires IsIsoTimestamp(iso) && IsKeptStretch(i, j)
    ensures RemoveChars(iso[i..j], {'-', ':'}) == iso[i..j]
  {
    forall k | 0 <= k < j - i
      ensures iso[i..j][k] != '-' && iso[i..j][k] != ':'
    {
      var n := i + k;
      assert iso[i..j][k] == iso[n];
      if n == 10 || n == 19 || n == 23 {
      } else {
        assert !IsPunctuationIndex(n);
        assert IsDigit(iso[n]);
      }
    }
    RemoveAbsentChars(iso[i..j], {'-', ':'});
  }

  /** One step of the deletion: a kept stretch, then a deleted separator. */
  lemma PeelStretch(iso: string, i: nat, j: nat)
    requires IsIsoTimestamp(iso) && IsKeptStretch(i, j) && j < 24
    ensures RemoveChars(iso[i..], {'-', ':'}) == iso[i..j] + RemoveChars(iso[j + 1..], {'-', ':'})
  {
    var cs := {'-', ':'};
    RemoveCharsAt(iso, i, j, cs);
    RemoveCharsAt(iso, j, j + 1, cs);
    KeptPiece(iso, i, j);
    RemoveOnlyChar(iso[j..j + 1], cs);
  }

  /** Keeping the first 15 characters of the five kept stretches. */
  lemma TakeOfStretches(a: string, b: string, c: string, d: string, e: string)
    requires |a| == 4 && |b| == 2 && |c| == 5 && |d| == 2 && |e| >= 2
    ensures Take(a + (b + (c + (d + e))), 15) == a + b + c + d + e[..2]
  {
    var whole := a + (b + (c + (d + e)));
    assert whole == (a + b + c + d) + e;
    assert whole[..15] == (a + b + c + d) + e[..2];
  }

  /** Deleting `-` and `:` from an ISO timestamp leaves its five stretches
      side by side. */
  lemma RemoveSeparators(iso: string)
    requires IsIsoTimestamp(iso)
    ensures RemoveChars(iso, {'-', ':'}) ==
      iso[0..4] + (iso[5..7] + (iso[8..13] + (iso[14..16] + iso[17..])))
  {
    KeptPiece(iso, 17, 24);
    assert iso[17..24] == iso[17..];
    PeelStretch(iso, 14, 16);
    PeelStretch(iso, 8, 13);
    PeelStretch(iso, 5, 7);
    PeelStretch(iso, 0, 4);
    assert iso[0..] == iso;
  }

  /** Deleting `-` and `:` and keeping 15 characters picks exactly the digits
      of date, hour, minute and second and the `T` between them. */
  lemma CompactTimestampShape(iso: string)
    requires IsIsoTimestamp(iso)
    ensures CompactTimestamp(iso) == CompactForm(iso)
  {
    RemoveSeparators(iso);
    TakeOfStretches(iso[0..4], iso[5..7], iso[8..13], iso[14..16], iso[17..]);
    assert iso[17..][..2] == iso[17..19];
    assert iso[0..4] == iso[..4];
  }

  /** A generated name is the chosen city, a dash and the compact timestamp;
      it has no `/`, so it is a single path segment. */
  lemma GeneratedNameShape(cityIndex: nat, iso: string)
    requires cityIndex < |Cities| && IsIsoTimestamp(iso)
    ensures GenerateWorktreeName(cityIndex, iso) == Cities[cityIndex] + "-" + CompactForm(iso)
    ensures |GenerateWorktreeName(cityIndex, iso)| == |Cities[cityIndex]| + 16
    ensures IsSegment(GenerateWorktreeName(cityIndex, iso))
  {
    CompactTimestampShape(iso);
    var name := GenerateWorktreeName(cityIndex, iso);
    assert '/' !in Cities[cityIndex];
    forall i | 0 <= i < |CompactForm(iso)|
      ensures CompactForm(iso)[i] != '/'
    {
      assert CompactForm(iso)[i] in iso;
    }
    assert forall i | 0 <= i < |name| :: name[i] != '/';
  }

  /** Two generated names coincide only for the same city within the same
      second: the city and the timestamp can be read back from the name. */
  lemma GeneratedNamesCollideOnlyWithin(i1: nat, iso1: string, i2: nat, iso2: string)
    requires i1 < |Cities| && IsIsoTimestamp(iso1)
    requires i2 < |Cities| && IsIsoTimestamp(iso2)
    requires GenerateWorktreeName(i1, iso1) == GenerateWorktreeName(i2, iso2)
    ensures Cities[i1] == Cities[i2]
    ensures CompactForm(iso1) == CompactForm(iso2)
  {
    GeneratedNameShape(i1, iso1);
    GeneratedNameShape(i2, iso2);
    var n := GenerateWorktreeName(i1, iso1);
    assert Cities[i1] == n[..|n| - 16] == Cities[i2];
    assert CompactForm(iso1) == n[|n| - 15..] == CompactForm(iso2);
  }
}
