/**
  The reader of `git worktree list --porcelain` output used by
  `GitService.listWorktrees`. The output is a sequence of lines; each
  worktree is a block of `<label> <value>` lines ended by a blank line
  (the PORCELAIN FORMAT section of git-worktree(1)). Only the `worktree`
  and `branch` labels are read; every other line is ignored.

  `ParseFrom` follows the source's single pass with one mutable record;
  `Records` is an independent, block-at-a-time description, and
  `ParseMatchesRecords` proves that the two agree.
 */
module Porcelain {
  import opened Optional
  import opened Text
  import Paths

  /** One listed worktree, as `listWorktrees` reports it. */
  datatype ListedWorktree = ListedWorktree(path: string, branch: string, name: string)

  /** The record being accumulated (`currentWorktree`): fields not yet seen
      are `None` (JavaScript `undefined`). */
  datatype Pending = Pending(path: Option<string>, branch: Option<string>)

  const NoFields := Pending(None, None)
  const WorktreeLabel := "worktree "
  const BranchLabel := "branch "
  const HeadsPrefix := "refs/heads/"
  /** The branch reported for a worktree without a (non-empty) branch. */
  const Detached := "detached"

  /** The path carried by a `worktree ` line. */
  function PathOfLine(line: string): string {
    ReplaceFirst(line, WorktreeLabel, "")
  }

  /** The branch carried by a `branch ` line: the label and then the FIRST
      `refs/heads/`, wherever it occurs, are removed. */
  function BranchOfLine(line: string): string {
    ReplaceFirst(ReplaceFirst(line, BranchLabel, ""), HeadsPrefix, "")
  }

  /** A line that neither starts a field the reader knows nor ends a block. */
  predicate Ignored(line: string) {
    line != "" && !StartsWith(line, WorktreeLabel) && !StartsWith(line, BranchLabel)
  }

  /** The shape of every record the reader emits. */
  predicate WellFormed(w: ListedWorktree) {
    w.path != "" && w.branch != "" && w.name == Paths.Basename(w.path)
  }

  /** What a blank line emits for the accumulated fields: a record only when
      a non-empty path was seen (`if (currentWorktree.path)`). */
  function Emit(acc: Pending): (r: seq<ListedWorktree>)
    ensures |r| <= 1
    ensures forall i :: 0 <= i < |r| ==> WellFormed(r[i])
    ensures |r| == 1 <==> acc.path.Some? && acc.path.value != ""
  {
    match acc.path
    case Some(p) =>
      if p == "" then []
      else
        var b := acc.branch.GetOr("");
        [ListedWorktree(p, if b == "" then Detached else b, Paths.Basename(p))]
    case None => []
  }

  /** Number of blank lines. */
  function CountBlank(lines: seq<string>): nat {
    if |lines| == 0 then 0
    else (if lines[0] == "" then 1 else 0) + CountBlank(lines[1..])
  }

  /** The source's loop over `lines` starting from the accumulator `acc`. */
  function ParseFrom(lines: seq<string>, acc: Pending): (r: seq<ListedWorktree>)
    ensures forall i :: 0 <= i < |r| ==> WellFormed(r[i])
    ensures |r| <= CountBlank(lines)
    decreases |lines|
  {
    if |lines| == 0 then []
    else
      var line := lines[0];
      if StartsWith(line, WorktreeLabel) then
        ParseFrom(lines[1..], acc.(path := Some(PathOfLine(line))))
      else if StartsWith(line, BranchLabel) then
        ParseFrom(lines[1..], acc.(branch := Some(BranchOfLine(line))))
      else if line == "" then
        Emit(acc) + ParseFrom(lines[1..], NoFields)
      else
        ParseFrom(lines[1..], acc)
  }

  /** `stdout.split('\n')` followed by the loop. */
  function ParsePorcelain(stdout: string): seq<ListedWorktree> {
    ParseFrom(Split(stdout, '\n'), NoFields)
  }

  // ---------------------------------------------------------------------
  // Reference description: one record per blank-terminated block.

  /** Index of the first blank line. */
  function FirstBlank(lines: seq<string>): (r: Option<nat>)
    ensures r.Some? ==> r.value < |lines| && lines[r.value] == ""
    ensures r.Some? ==> forall j :: 0 <= j < r.value ==> lines[j] != ""
    ensures r.None? ==> forall j :: 0 <= j < |lines| ==> lines[j] != ""
  {
    if |lines| == 0 then None
    else if lines[0] == "" then Some(0)
    else match FirstBlank(lines[1..])
      case None => None
      case Some(k) => Some(k + 1)
  }

  /** The path of the LAST `worktree ` line of a block. */
  function BlockPath(block: seq<string>): Option<string> {
    if |block| == 0 then None
    else
      var line := block[|block| - 1];
      if StartsWith(line, WorktreeLabel) then Some(PathOfLine(line))
      else BlockPath(block[..|block| - 1])
  }

  /** The branch of the LAST `branch ` line of a block. */
  function BlockBranch(block: seq<string>): Option<string> {
    if |block| == 0 then None
    else
      var line := block[|block| - 1];
      if StartsWith(line, BranchLabel) then Some(BranchOfLine(line))
      else BlockBranch(block[..|block| - 1])
  }

  /** The fields a block carries. */
  function Summary(block: seq<string>): Pending {
    Pending(BlockPath(block), BlockBranch(block))
  }

  /** Records of the complete blocks, in order; lines after the last blank
      line form no record. */
  function Records(lines: seq<string>): seq<ListedWorktree>
    decreases |lines|
  {
    match FirstBlank(lines)
    case None => []
    case Some(k) => Emit(Summary(lines[..k])) + Records(lines[k + 1..])
  }

  /** Effect of one non-blank line on the accumulator, as in the loop. */
  lemma SummaryStep(block: seq<string>, line: string)
    requires line != ""
    ensures StartsWith(line, WorktreeLabel) ==>
      Summary(block + [line]) == Summary(block).(path := Some(PathOfLine(line)))
    ensures !StartsWith(line, WorktreeLabel) && StartsWith(line, BranchLabel) ==>
      Summary(block + [line]) == Summary(block).(branch := Some(BranchOfLine(line)))
    ensures Ignored(line) ==> Summary(block + [line]) == Summary(block)
  {
    var b := block + [line];
    assert b[..|b| - 1] == block;
    assert b[|b| - 1] == line;
    if StartsWith(line, WorktreeLabel) {
      assert line[0] == 'w';
      assert !StartsWith(line, BranchLabel);
    }
  }

  /** What the rest of a run produces, by the block description, when the
      lines `pre` of an open block have been read. */
  function AfterBlock(pre: seq<string>, rest: seq<string>): seq<ListedWorktree> {
    match FirstBlank(rest)
    case None => []
    case Some(k) => Emit(Summary(pre + rest[..k])) + Records(rest[k + 1..])
  }

  /** A non-blank line moves from the rest of the run into the open block. */
  lemma AfterBlockShift(pre: seq<string>, rest: seq<string>)
    requires |rest| > 0 && rest[0] != ""
    ensures AfterBlock(pre, rest) == AfterBlock(pre + [rest[0]], rest[1..])
  {
    match FirstBlank(rest[1..])
    case None => {}
    case Some(k) => {
      assert FirstBlank(rest) == Some(k + 1);
      assert pre + [rest[0]] + rest[1..][..k] == pre + rest[..k + 1];
      assert rest[1..][k + 1..] == rest[k + 2..];
    }
  }

  /** A blank line closes the open block. */
  lemma AfterBlockClose(pre: seq<string>, rest: seq<string>)
    requires |rest| > 0 && rest[0] == ""
    ensures AfterBlock(pre, rest) == Emit(Summary(pre)) + Records(rest[1..])
  {
    assert FirstBlank(rest) == Some(0);
    assert pre + rest[..0] == pre;
  }

  /** With no open block, `AfterBlock` is `Records`. */
  lemma AfterEmptyBlock(lines: seq<string>)
    ensures AfterBlock([], lines) == Records(lines)
  {
    match FirstBlank(lines)
    case None => {}
    case Some(k) => { assert [] + lines[..k] == lines[..k]; }
  }

  /** The loop's treatment of a non-blank line agrees with `Summary`. */
  lemma ParseFromStep(pre: seq<string>, rest: seq<string>)
    requires |rest| > 0 && rest[0] != ""
    ensures ParseFrom(rest, Summary(pre)) == ParseFrom(rest[1..], Summary(pre + [rest[0]]))
  {
    SummaryStep(pre, rest[0]);
  }

  /** Invariant of the loop: with the accumulator holding the fields of the
      open block `pre`, the rest of the run emits the record of that block
      once its blank line arrives, and then the records of what follows. */
  lemma {:induction false} ParseFromBlock(pre: seq<string>, rest: seq<string>)
    requires forall j :: 0 <= j < |pre| ==> pre[j] != ""
    ensures ParseFrom(rest, Summary(pre)) == AfterBlock(pre, rest)
    decreases |rest|
  {
    if |rest| == 0 {
    } else if rest[0] == "" {
      assert Summary([]) == NoFields;
      ParseFromBlock([], rest[1..]);
      AfterEmptyBlock(rest[1..]);
      AfterBlockClose(pre, rest);
    } else {
      ParseFromStep(pre, rest);
      ParseFromBlock(pre + [rest[0]], rest[1..]);
      AfterBlockShift(pre, rest);
    }
  }

  /** The single pass agrees with the block description: records come out
      in block order, each built only from the lines of its own block, the
      path from the block's last `worktree ` line and the branch from its
      last `branch ` line. Fields never leak from one block to the next. */
  lemma ParseMatchesRecords(lines: seq<string>)
    ensures ParseFrom(lines, NoFields) == Records(lines)
  {
    assert Summary([]) == NoFields;
    ParseFromBlock([], lines);
    AfterEmptyBlock(lines);
  }

  /** A run with no blank line emits nothing. */
  lemma {:induction false} NoBlankNoRecords(lines: seq<string>, acc: Pending)
    requires forall j :: 0 <= j < |lines| ==> lines[j] != ""
    ensures ParseFrom(lines, acc) == []
    decreases |lines|
  {
    if |lines| > 0 {
      var line := lines[0];
      if StartsWith(line, WorktreeLabel) {
        NoBlankNoRecords(lines[1..], acc.(path := Some(PathOfLine(line))));
      } else if StartsWith(line, BranchLabel) {
        NoBlankNoRecords(lines[1..], acc.(branch := Some(BranchOfLine(line))));
      } else {
        NoBlankNoRecords(lines[1..], acc);
      }
    }
  }

  /** A final block that no blank line ends is dropped: appending lines
      without a blank one never changes the result. */
  lemma {:induction false} UnterminatedTailDropped(lines: seq<string>, tail: seq<string>, acc: Pending)
    requires forall j :: 0 <= j < |tail| ==> tail[j] != ""
    ensures ParseFrom(lines + tail, acc) == ParseFrom(lines, acc)
    decreases |lines|
  {
    if |lines| == 0 {
      assert lines + tail == tail;
      NoBlankNoRecords(tail, acc);
    } else {
      var line := lines[0];
      assert (lines + tail)[0] == line;
      assert (lines + tail)[1..] == lines[1..] + tail;
      if StartsWith(line, WorktreeLabel) {
        UnterminatedTailDropped(lines[1..], tail, acc.(path := Some(PathOfLine(line))));
      } else if StartsWith(line, BranchLabel) {
        UnterminatedTailDropped(lines[1..], tail, acc.(branch := Some(BranchOfLine(line))));
      } else if line == "" {
        UnterminatedTailDropped(lines[1..], tail, NoFields);
      } else {
        UnterminatedTailDropped(lines[1..], tail, acc);
      }
    }
  }

  /** Lines other than `worktree `, `branch ` and blank lines have no effect,
      wherever they occur. */
  lemma {:induction false} IgnoredLineHasNoEffect(before: seq<string>, line: string, after: seq<string>, acc: Pending)
    requires Ignored(line)
    ensures ParseFrom(before + [line] + after, acc) == ParseFrom(before + after, acc)
    decreases |before|
  {
    if |before| == 0 {
      assert before + [line] + after == [line] + after;
      assert ([line] + after)[1..] == after;
      assert before + after == after;
    } else {
      var first := before[0];
      assert (before + [line] + after)[0] == first;
      assert (before + [line] + after)[1..] == before[1..] + [line] + after;
      assert (before + after)[0] == first;
      assert (before + after)[1..] == before[1..] + after;
      if StartsWith(first, WorktreeLabel) {
        IgnoredLineHasNoEffect(before[1..], line, after, acc.(path := Some(PathOfLine(first))));
      } else if StartsWith(first, BranchLabel) {
        IgnoredLineHasNoEffect(before[1..], line, after, acc.(branch := Some(BranchOfLine(first))));
      } else if first == "" {
        IgnoredLineHasNoEffect(before[1..], line, after, NoFields);
      } else {
        IgnoredLineHasNoEffect(before[1..], line, after, acc);
      }
    }
  }

  /** A `branch ` line that names `refs/heads/` after its first path
      component loses that inner occurrence, not a prefix. */
  lemma InnerHeadsPrefixRemoved(a: string, b: string)
    requires forall j :: 0 <= j < |a| ==> !OccursAt(a + HeadsPrefix + b, HeadsPrefix, j)
    ensures BranchOfLine(BranchLabel + a + HeadsPrefix + b) == a + b
  {
    var line := BranchLabel + a + HeadsPrefix + b;
    assert StartsWith(line, BranchLabel);
    ReplacePrefix(line, BranchLabel);
    assert line[|BranchLabel|..] == a + HeadsPrefix + b;
    ReplaceFirstOccurrence(a, HeadsPrefix, b);
  }

  /** A concrete instance: the line `branch feature/refs/heads/x` reads as
      branch `feature/x`. */
  lemma InnerHeadsPrefixExample()
    ensures BranchOfLine(BranchLabel + "feature/" + HeadsPrefix + "x") == "feature/x"
  {
    var a := "feature/";
    var s := a + HeadsPrefix + "x";
    forall j | 0 <= j < |a|
      ensures !OccursAt(s, HeadsPrefix, j)
    {
      NotOccursByChar(s, j, if j == 5 then 2 else 0);
    }
    InnerHeadsPrefixRemoved(a, "x");
    assert a + "x" == "feature/x";
  }

  /** One mismatching character rules an occurrence of `refs/heads/` out. */
  lemma NotOccursByChar(s: string, j: int, d: nat)
    requires d < |HeadsPrefix| && 0 <= j + d < |s| && s[j + d] != HeadsPrefix[d]
    ensures !OccursAt(s, HeadsPrefix, j)
  {
  }

  /** A concrete instance of the dropped final block: a listing whose last
      block is not followed by a blank line reports nothing for it. */
  lemma UnterminatedExample()
    ensures ParseFrom(["worktree /repo", "branch refs/heads/main"], NoFields) == []
  {
    NoBlankNoRecords(["worktree /repo", "branch refs/heads/main"], NoFields);
  }
}
