/**
 The gate on pushes and pull requests: a change is ordinary, a release finalization, or rejected.
 Git is a table of commits with an ancestor relation; a commit is its tree and its parents.
 */
module FinalizationGate {
  import opened Strings
  import opened Wrappers
  import opened Versions
  import opened UpstreamTable
  import RD = ReleaseDocs
  import F = Finalization
  import R = Regeneration

  type Sha = string

  datatype Commit = Commit(tree: RD.Files, parents: seq<Sha>)

  /** `ancestors` holds the pairs for which `git merge-base --is-ancestor` succeeds. */
  datatype Git = Git(commits: map<Sha, Commit>, ancestors: set<(Sha, Sha)>)

  datatype Error =
    | GitFailed
    | Table(error: F.Error)
    | Branch(nameError: NameError)
    | NotAnAncestor
    | WrongTopology
    | WrongTag
    | WrongBranch
    | NotRegenerated(cause: R.RegenerationError)
    | TreeDiffers
    | TransitionElsewhere

  datatype Finalized = Finalized(tag: string, base: Sha, head: Sha, paths: set<RD.Path>)

  const ZERO_SHA := "0000000000000000000000000000000000000000"
  const PUSH := "push"
  const PULL_REQUEST := "pull_request"

  // ---------------------------------------------------------------- reading

  /** `str.strip` on the content of a file. */
  function StripText(text: Text): Text {
    if text == [] then []
    else if Strip(text[0]) == "" then StripText(text[1..])
    else StripTextEnd([StripLeft(text[0])] + text[1..])
  }

  function StripTextEnd(text: Text): Text {
    if text == [] then []
    else if Strip(text[|text| - 1]) == "" then StripTextEnd(text[..|text| - 1])
    else text[..|text| - 1] + [StripRight(text[|text| - 1])]
  }

  function ReadUpstream(git: Git, commit: Sha): Result<Text, Error> {
    if commit in git.commits && RD.UPSTREAM_PATH in git.commits[commit].tree
    then Ok(StripText(git.commits[commit].tree[RD.UPSTREAM_PATH]))
    else Err(GitFailed)
  }

  function TransitionsBetween(git: Git, base: Sha, head: Sha): Result<seq<string>, Error> {
    var baseText :- ReadUpstream(git, base);
    var headText :- ReadUpstream(git, head);
    match F.TransitionList(baseText, headText)
    case Err(e) => Err(Table(e))
    case Ok(tags) => Ok(tags)
  }

  // ---------------------------------------------------------------- validating

  /** A merge of exactly two parents, the first being the base, with the tree of the second. */
  predicate MainMergeTopology(git: Git, base: Sha, head: Sha) {
    && head in git.commits && |git.commits[head].parents| == 2
    && git.commits[head].parents[0] == base
    && git.commits[head].parents[1] in git.commits
    && git.commits[git.commits[head].parents[1]].tree == git.commits[head].tree
  }

  function Validated(git: Git, base: Sha, head: Sha, expectedTag: Option<string>, branch: Option<string>, mainMerge: bool)
    : Result<Finalized, Error>
  {
    if base !in git.commits || head !in git.commits then Err(GitFailed) else
    if (base, head) !in git.ancestors then Err(NotAnAncestor) else
    if mainMerge && !MainMergeTopology(git, base, head) then Err(WrongTopology) else
    var tags :- TransitionsBetween(git, base, head);
    if |tags| != 1 then Err(Table(F.WrongTransitions(|tags|))) else
    var tag := tags[0];
    if expectedTag.Some? && tag != expectedTag.value then Err(WrongTag) else
    if branch.Some? && FinalizationBranch(tag) != Ok(branch.value) then Err(WrongBranch) else
    match R.Regenerated(git.commits[base].tree, tag)
    case Err(e) => Err(NotRegenerated(e))
    case Ok(expected) =>
      if expected.tree != git.commits[head].tree then Err(TreeDiffers)
      else Ok(Finalized(tag, base, head, expected.paths))
  }

  /** Nothing for an ordinary change, the finalization for a valid one, an error otherwise. */
  function Classified(git: Git, base: Sha, head: Sha, branch: string, defaultBranch: string, event: string)
    : Result<Option<Finalized>, Error>
  {
    if base == "" || head == "" || base == ZERO_SHA then Ok(None) else
    if event != PUSH && event != PULL_REQUEST then Ok(None) else
    var tags :- TransitionsBetween(git, base, head);
    var named := BRANCH_PREFIX <= branch;
    var mainPush := event == PUSH && branch == defaultBranch;
    if !named && !mainPush then
      if tags != [] then Err(TransitionElsewhere) else Ok(None)
    else if tags == [] && !named then Ok(None)
    else
      var expectedTag :- if !named then Ok(None) else
        (match TagFromBranch(branch) case Err(e) => Err(Branch(e)) case Ok(tag) => Ok(Some(tag)));
      var finalized :- Validated(git, base, head, expectedTag, if named then Some(branch) else None, mainPush);
      Ok(Some(finalized))
  }

  // ---------------------------------------------------------------- soundness

  ghost predicate Checked(base: Sha, head: Sha, event: string) {
    base != "" && head != "" && base != ZERO_SHA && (event == PUSH || event == PULL_REQUEST)
  }

  ghost predicate IsRegenerated(git: Git, f: Finalized) {
    && f.base in git.commits && f.head in git.commits
    && R.Regenerated(git.commits[f.base].tree, f.tag) == Ok(R.Regeneration(git.commits[f.head].tree, f.paths))
  }

  /** Whatever the gate lets through publishes nothing, or publishes exactly one row and is byte for
      byte the regenerated tree of its base; on a named branch the branch is the one of that tag. */
  lemma AcceptedIsOrdinaryOrRegenerated(git: Git, base: Sha, head: Sha, branch: string, defaultBranch: string, event: string)
    requires Checked(base, head, event)
    requires Classified(git, base, head, branch, defaultBranch, event).Ok?
    ensures match Classified(git, base, head, branch, defaultBranch, event).value
            case None => TransitionsBetween(git, base, head) == Ok([]) && !(BRANCH_PREFIX <= branch)
            case Some(f) =>
              && f.base == base && f.head == head && (base, head) in git.ancestors
              && TransitionsBetween(git, base, head) == Ok([f.tag])
              && IsRegenerated(git, f)
              && (BRANCH_PREFIX <= branch ==> FinalizationBranch(f.tag) == Ok(branch))
              && (event == PUSH && branch == defaultBranch ==> MainMergeTopology(git, base, head))
              && (BRANCH_PREFIX <= branch || (event == PUSH && branch == defaultBranch))
  {
    hide TransitionsBetween, R.Regenerated, TagFromBranch, FinalizationBranch;
    var c := Classified(git, base, head, branch, defaultBranch, event).value;
    if c.Some? {
      var tags := TransitionsBetween(git, base, head).value;
      assert tags == [tags[0]];
    }
  }

  /** The gate accepts a finalization if and only if the change publishes one row, is the regenerated tree
      of its base, and comes on the branch of the tag or as a merge pushed to the default branch. */
  lemma FinalizationIsAcceptedIff(
    git: Git, base: Sha, head: Sha, branch: string, defaultBranch: string, event: string, f: Finalized)
    requires Checked(base, head, event)
    ensures Classified(git, base, head, branch, defaultBranch, event) == Ok(Some(f)) <==>
            && f.base == base && f.head == head && (base, head) in git.ancestors
            && TransitionsBetween(git, base, head) == Ok([f.tag])
            && IsRegenerated(git, f)
            && (BRANCH_PREFIX <= branch ==> FinalizationBranch(f.tag) == Ok(branch))
            && (event == PUSH && branch == defaultBranch ==> MainMergeTopology(git, base, head))
            && (BRANCH_PREFIX <= branch || (event == PUSH && branch == defaultBranch))
  {
    hide TransitionsBetween, R.Regenerated, TagFromBranch, FinalizationBranch, MainMergeTopology;
    if Classified(git, base, head, branch, defaultBranch, event) == Ok(Some(f)) {
      AcceptedIsOrdinaryOrRegenerated(git, base, head, branch, defaultBranch, event);
    }
    if BRANCH_PREFIX <= branch && FinalizationBranch(f.tag) == Ok(branch) {
      BranchThenTag(f.tag);
    }
  }

  // ---------------------------------------------------------------- stripping and flipping

  lemma FlippedLineEnds(line: string, tag: string)
    requires F.IsPlannedRow(line, tag)
    ensures var flip := F.FlipLine(line, tag);
            flip != "" && flip[0] == '|' && flip[|flip| - 1] == '|'
  {
    hide F.Flipped, F.IsPlannedRow, Split, Join;
    R.FlipLineIs(line, tag);
    F.FlippedCells(line, tag);
    R.PlannedStartsEmpty(line, tag);
    R.RowStartsWithBar(F.FlipLine(line, tag));
  }

  lemma RowLineEnds(line: string)
    requires StrictRow(line).Some?
    ensures line != "" && line[0] == '|' && line[|line| - 1] == '|'
  {
    hide TagCell, StatusCell, NameCell, CommitCell, FinalizableTag, Join, Split;
    JoinSplit(line);
    R.JoinEnds(Split(line));
  }

  lemma PlannedLineEnds(line: string, tag: string)
    requires F.IsPlannedRow(line, tag)
    ensures line != "" && line[0] == '|' && line[|line| - 1] == '|'
  {
    hide StrictRow;
    RowLineEnds(line);
  }

  lemma BarsAreStripped(line: string)
    requires line != "" && line[0] == '|' && line[|line| - 1] == '|'
    ensures StripLeft(line) == line && StripRight(line) == line && Strip(line) == line
  {
    assert SpaceRun(line) == 0;
  }

  /** A line is flipped before or after it is stripped with the same outcome, unless stripping makes it
      the planned row. */
  lemma StripsAndFlips(line: string, tag: string)
    ensures F.IsPlannedRow(line, tag) ==> StripLeft(line) == line && StripRight(line) == line
    ensures (F.IsPlannedRow(StripLeft(line), tag) ==> F.IsPlannedRow(line, tag)) ==>
              StripLeft(F.FlipLine(line, tag)) == F.FlipLine(StripLeft(line), tag)
    ensures (F.IsPlannedRow(StripRight(line), tag) ==> F.IsPlannedRow(line, tag)) ==>
              StripRight(F.FlipLine(line, tag)) == F.FlipLine(StripRight(line), tag)
    ensures Strip(F.FlipLine(line, tag)) == "" <==> Strip(line) == ""
  {
    hide F.IsPlannedRow, StripLeft, StripRight, Strip;
    if F.IsPlannedRow(line, tag) {
      PlannedLineEnds(line, tag);
      BarsAreStripped(line);
      FlippedLineEnds(line, tag);
      BarsAreStripped(F.FlipLine(line, tag));
    }
    assert !F.IsPlannedRow(line, tag) ==> F.FlipLine(line, tag) == line;
  }

  lemma PlannedRowsSnoc(text: Text, line: string, tag: string)
    ensures F.PlannedRows(text + [line], tag) == F.PlannedRows(text, tag) + if F.IsPlannedRow(line, tag) then 1 else 0
  {
    assert (text + [line])[..|text|] == text;
  }

  lemma {:induction false} PlannedRowsCons(line: string, text: Text, tag: string)
    ensures F.PlannedRows([line] + text, tag) == F.PlannedRows(text, tag) + if F.IsPlannedRow(line, tag) then 1 else 0
  {
    hide F.IsPlannedRow;
    if text == [] {
      assert [line] + text == [] + [line];
      PlannedRowsSnoc([], line, tag);
    } else {
      var init, last := text[..|text| - 1], text[|text| - 1];
      assert [line] + text == ([line] + init) + [last];
      PlannedRowsCons(line, init, tag);
      PlannedRowsSnoc([line] + init, last, tag);
      PlannedRowsSnoc(init, last, tag);
      assert text == init + [last];
    }
  }

  /** Stripping the end of a text loses no planned row, and when it makes none it commutes with flipping. */
  lemma {:induction false} StripsEndAndFlips(text: Text, tag: string)
    ensures F.PlannedRows(StripTextEnd(text), tag) >= F.PlannedRows(text, tag)
    ensures F.PlannedRows(StripTextEnd(text), tag) == F.PlannedRows(text, tag) ==>
              StripTextEnd(F.FlipText(text, tag)) == F.FlipText(StripTextEnd(text), tag)
  {
    if text != [] {
      hide F.IsPlannedRow, F.FlipLine, StripRight, Strip, F.PlannedRows;
      var init, last := text[..|text| - 1], text[|text| - 1];
      assert text == init + [last];
      var flipped := F.FlipText(text, tag);
      assert flipped[..|flipped| - 1] == F.FlipText(init, tag);
      StripsAndFlips(last, tag);
      BlankIsNotPlanned(last, tag);
      StripsEndAndFlips(init, tag);
      PlannedRowsSnoc(init, last, tag);
      PlannedRowsSnoc(init, StripRight(last), tag);
      F.FlipTextSnoc(init, StripRight(last), tag);
    }
  }

  lemma BlankIsNotPlanned(line: string, tag: string)
    ensures Strip(line) == "" ==> !F.IsPlannedRow(line, tag)
  {
    if F.IsPlannedRow(line, tag) {
      hide F.IsPlannedRow;
      PlannedLineEnds(line, tag);
      BarsAreStripped(line);
    }
  }

  lemma FlipTextCons(line: string, text: Text, tag: string)
    ensures F.FlipText([line] + text, tag) == [F.FlipLine(line, tag)] + F.FlipText(text, tag)
  {
    hide F.FlipLine;
  }

  lemma StripsFirstAndFlips(first: string, rest: Text, tag: string)
    requires Strip(first) != ""
    ensures var text := [first] + rest;
            && F.PlannedRows(StripText(text), tag) >= F.PlannedRows(text, tag)
            && (F.PlannedRows(StripText(text), tag) == F.PlannedRows(text, tag) ==>
                  StripText(F.FlipText(text, tag)) == F.FlipText(StripText(text), tag))
  {
    hide F.IsPlannedRow, F.FlipLine, StripLeft, Strip, F.PlannedRows, F.FlipText, StripTextEnd;
    var begun := [StripLeft(first)] + rest;
    StripsAndFlips(first, tag);
    PlannedRowsCons(first, rest, tag);
    PlannedRowsCons(StripLeft(first), rest, tag);
    FlipTextCons(first, rest, tag);
    FlipTextCons(StripLeft(first), rest, tag);
    StripsEndAndFlips(begun, tag);
    assert ([first] + rest)[1..] == rest;
    assert ([F.FlipLine(first, tag)] + F.FlipText(rest, tag))[1..] == F.FlipText(rest, tag);
  }

  lemma {:induction false} StripsAndFlipsText(text: Text, tag: string)
    ensures F.PlannedRows(StripText(text), tag) >= F.PlannedRows(text, tag)
    ensures F.PlannedRows(StripText(text), tag) == F.PlannedRows(text, tag) ==>
              StripText(F.FlipText(text, tag)) == F.FlipText(StripText(text), tag)
  {
    hide F.IsPlannedRow, F.FlipLine, StripLeft, Strip, F.PlannedRows, F.FlipText, StripTextEnd;
    if text != [] {
      var first, rest := text[0], text[1..];
      assert text == [first] + rest;
      if Strip(first) == "" {
        StripsAndFlips(first, tag);
        BlankIsNotPlanned(first, tag);
        PlannedRowsCons(first, rest, tag);
        FlipTextCons(first, rest, tag);
        StripsAndFlipsText(rest, tag);
        assert ([F.FlipLine(first, tag)] + F.FlipText(rest, tag))[1..] == F.FlipText(rest, tag);
      } else {
        StripsFirstAndFlips(first, rest, tag);
      }
    }
  }

  /** Distinct rows show a planned row once at most. */
  lemma {:induction false} PlannedOnce(text: Text, tag: string)
    requires F.NoRepeats(F.StrictRows(text))
    ensures F.PlannedRows(text, tag) <= 1
  {
    if text != [] {
      hide StrictRow, F.NoRepeats;
      var init, last := text[..|text| - 1], text[|text| - 1];
      if StrictRow(last).Some? {
        F.NoRepeatsSnoc(F.StrictRows(init), StrictRow(last).value);
      }
      PlannedOnce(init, tag);
      F.FlippedRows(init, tag);
    }
  }

  // ---------------------------------------------------------------- completeness

  /** The head is the regenerated tree of a clean base with one planned row of the tag. */
  ghost predicate Proposed(git: Git, base: Sha, head: Sha, tag: string) {
    && base in git.commits && head in git.commits && (base, head) in git.ancestors
    && base != "" && head != "" && base != ZERO_SHA
    && var tree := git.commits[base].tree;
    && R.CleanTree(tree) && RD.UPSTREAM_PATH in tree && F.PlannedRows(tree[RD.UPSTREAM_PATH], tag) == 1
    && (R.Regenerated(tree, tag).Ok? ==> R.Regenerated(tree, tag).value.tree == git.commits[head].tree)
  }

  /** The gate reads the stripped content of UPSTREAM.md, where the first and the last line may become
      rows that the file does not show; this says that no tag then has two rows. */
  predicate ReadsDistinctRows(git: Git, commit: Sha) {
    commit in git.commits && RD.UPSTREAM_PATH in git.commits[commit].tree &&
    F.NoRepeats(F.StrictRows(StripText(git.commits[commit].tree[RD.UPSTREAM_PATH])))
  }

  /** Distinct rows of the file need not be read as distinct: a first line that is an indented copy of a
      row is none in the file, and repeats the row once the text is stripped. */
  lemma IndentedCopyIsRepeated(line: string)
    requires StrictRow(line).Some?
    ensures F.MappingStatuses([" " + line, line]).Ok? && F.MappingStatuses(StripText([" " + line, line])) == Err(F.RepeatedRow)
  {
    RowLineEnds(line);
    IndentedIsNoRow(line);
    hide StrictRow, StripText, F.MappingStatuses;
    StripsToCopies(line);
    RowsOfTwo(" " + line, line);
    RowsOfTwo(line, line);
  }

  lemma StripsToCopies(line: string)
    requires line != "" && line[0] == '|' && line[|line| - 1] == '|'
    ensures StripText([" " + line, line]) == [line, line]
  {
    BarsAreStripped(line);
    SpaceRunOf(" ", line);
    assert (" " + line)[1..] == line;
    hide StripRight;
    assert StripLeft(" " + line) == line;
    assert [line, line][..1] == [line];
  }

  lemma RowsOfTwo(a: string, b: string)
    requires StrictRow(b).Some?
    ensures StrictRow(a).None? ==> F.MappingStatuses([a, b]).Ok?
    ensures a == b ==> F.MappingStatuses([a, b]) == Err(F.RepeatedRow)
  {
    hide StrictRow, F.RowMap;
    var row := StrictRow(b).value;
    assert [a, b][..1] == [a] && [a][..0] == [];
    assert F.StrictRows([a, b]) == F.StrictRows([a]) + [row];
    assert F.StrictRows([a]) == (if StrictRow(a).Some? then [StrictRow(a).value] else []);
    if a == b {
      assert F.StrictRows([a, b]) == [row, row] && F.StrictRows([a, b])[0].tag == F.StrictRows([a, b])[1].tag;
    } else if StrictRow(a).None? {
      assert F.StrictRows([a, b]) == [row];
    }
  }

  lemma IndentedIsNoRow(line: string)
    ensures StrictRow(" " + line).None?
  {
    assert (" " + line)[0] == ' ' && (" " + line)[1..] == line;
    assert Split(" " + line)[0] != "";
    hide Split, Join, NameCell, CommitCell;
  }

  /** Proposed on the branch of the tag, the regenerated tree is accepted if and only if the gate reads
      distinct rows at the base. */
  lemma RegeneratedIsAcceptedIff(git: Git, base: Sha, head: Sha, tag: string, defaultBranch: string)
    requires Proposed(git, base, head, tag)
    ensures FinalizationBranch(tag).Ok? && R.Regenerated(git.commits[base].tree, tag).Ok?
    ensures Classified(git, base, head, FinalizationBranch(tag).value, defaultBranch, PULL_REQUEST) ==
            if !ReadsDistinctRows(git, base) then Err(Table(F.RepeatedRow))
            else Ok(Some(Finalized(tag, base, head, R.Regenerated(git.commits[base].tree, tag).value.paths)))
  {
    PlannedTagHasBranch(git.commits[base].tree[RD.UPSTREAM_PATH], tag);
    hide R.Regenerated, R.CleanTree, F.PlannedRows, ReadsDistinctRows, FinalizationBranch, TagFromBranch, TransitionsBetween;
    BranchThenTag(tag);
    BranchHasPrefix(tag);
    RegeneratedTransition(git, base, head, tag);
    if ReadsDistinctRows(git, base) {
      AcceptedOnBranch(git, base, head, tag, FinalizationBranch(tag).value, defaultBranch);
    }
  }

  /** The head has the base as its first parent and one more, of the same tree as itself. */
  ghost predicate IsMergeOf(git: Git, base: Sha, head: Sha) {
    exists second :: head in git.commits && second in git.commits && git.commits[head] == Commit(git.commits[second].tree, [base, second])
  }

  lemma MergeIff(git: Git, base: Sha, head: Sha)
    ensures MainMergeTopology(git, base, head) <==> IsMergeOf(git, base, head)
  {
    if MainMergeTopology(git, base, head) {
      var parents := git.commits[head].parents;
      assert parents == [base, parents[1]];
    }
  }

  /** Pushed to the default branch, the regenerated tree is accepted if and only if moreover the head is
      a merge of the base with a commit of the same tree. */
  lemma MergedIsAcceptedIff(git: Git, base: Sha, head: Sha, tag: string, defaultBranch: string)
    requires Proposed(git, base, head, tag) && !(BRANCH_PREFIX <= defaultBranch)
    ensures R.Regenerated(git.commits[base].tree, tag).Ok?
    ensures Classified(git, base, head, defaultBranch, defaultBranch, PUSH) ==
            if !ReadsDistinctRows(git, base) then Err(Table(F.RepeatedRow))
            else if !IsMergeOf(git, base, head) then Err(WrongTopology)
            else Ok(Some(Finalized(tag, base, head, R.Regenerated(git.commits[base].tree, tag).value.paths)))
  {
    MergeIff(git, base, head);
    hide R.Regenerated, R.CleanTree, F.PlannedRows, ReadsDistinctRows, FinalizationBranch, TransitionsBetween, MainMergeTopology, IsMergeOf;
    RegeneratedTransition(git, base, head, tag);
  }

  lemma {:induction false} PlannedTagHasBranch(text: Text, tag: string)
    requires F.PlannedRows(text, tag) > 0
    ensures FinalizationBranch(tag).Ok?
  {
    hide F.IsPlannedRow, FinalizableTag;
    if F.IsPlannedRow(text[|text| - 1], tag) {
      RowTagHasBranch(text[|text| - 1], tag);
    } else {
      PlannedTagHasBranch(text[..|text| - 1], tag);
    }
  }

  lemma RowTagHasBranch(line: string, tag: string)
    requires F.IsPlannedRow(line, tag)
    ensures FinalizableTag(tag).Some?
  {
    hide FinalizableTag, LooseCells, NameCell, CommitCell;
  }

  lemma RegeneratedTransition(git: Git, base: Sha, head: Sha, tag: string)
    requires Proposed(git, base, head, tag)
    ensures R.Regenerated(git.commits[base].tree, tag).Ok?
    ensures TransitionsBetween(git, base, head) ==
            if ReadsDistinctRows(git, base) then Ok([tag]) else Err(Table(F.RepeatedRow))
  {
    var tree := git.commits[base].tree;
    var text := tree[RD.UPSTREAM_PATH];
    var read := StripText(text);
    hide R.Regenerated, R.CleanTree, F.FlipText, F.PlannedRows, F.NoRepeats, StripText, F.Transitions;
    R.CleanBaseRegenerates(tree, tag);
    assert git.commits[head].tree[RD.UPSTREAM_PATH] == F.FlipText(text, tag);
    if ReadsDistinctRows(git, base) {
      PlannedOnce(read, tag);
      StripsAndFlipsText(text, tag);
      SoleTransition(read, tag);
    }
  }

  lemma AcceptedOnBranch(git: Git, base: Sha, head: Sha, tag: string, branch: string, defaultBranch: string)
    requires base in git.commits && head in git.commits && (base, head) in git.ancestors
    requires base != "" && head != "" && base != ZERO_SHA && BRANCH_PREFIX <= branch
    requires FinalizationBranch(tag) == Ok(branch) && TagFromBranch(branch) == Ok(tag)
    requires TransitionsBetween(git, base, head) == Ok([tag])
    requires R.Regenerated(git.commits[base].tree, tag).Ok?
    requires R.Regenerated(git.commits[base].tree, tag).value.tree == git.commits[head].tree
    ensures Classified(git, base, head, branch, defaultBranch, PULL_REQUEST) ==
            Ok(Some(Finalized(tag, base, head, R.Regenerated(git.commits[base].tree, tag).value.paths)))
  {
    hide R.Regenerated, FinalizationBranch, TagFromBranch, TransitionsBetween;
    assert Validated(git, base, head, Some(tag), Some(branch), false).Ok?;
  }

  lemma SoleTransition(text: Text, tag: string)
    requires F.MappingStatuses(text).Ok? && F.PlannedRows(text, tag) == 1
    ensures F.TransitionList(text, F.FlipText(text, tag)) == Ok([tag])
  {
    hide F.FlipText, F.PlannedRows, F.MappingStatuses;
    assert F.ReplacePlannedMapping(text, tag) == Ok(F.FlipText(text, tag));
    F.ReplacementIsTheTransition(text, tag);
    hide F.TransitionList;
    var tags := F.TransitionList(text, F.FlipText(text, tag)).value;
    assert tags == [tags[0]];
  }

  lemma BranchHasPrefix(tag: string)
    requires FinalizationBranch(tag).Ok?
    ensures BRANCH_PREFIX <= FinalizationBranch(tag).value
  {
  }

  // ---------------------------------------------------------------- runs

  /** The status of a tag at a commit, as the gate reads it. */
  function StatusAt(git: Git, commit: Sha, tag: string): Option<string> {
    match ReadUpstream(git, commit)
    case Err(_) => None
    case Ok(text) =>
      match F.MappingStatuses(text)
      case Err(_) => None
      case Ok(statuses) => if tag in statuses then Some(statuses[tag]) else None
  }

  lemma {:induction false} TransitionsAre(rows: seq<Row>, head: map<string, string>, tag: string)
    ensures tag in F.Transitions(rows, head) <==> Row(tag, PLANNED) in rows && tag in head && head[tag] == PUBLISHED
  {
    if rows != [] {
      TransitionsAre(rows[..|rows| - 1], head, tag);
      assert rows == rows[..|rows| - 1] + [rows[|rows| - 1]];
    }
  }

  /** A transition is a tag whose status goes from planned to published. */
  lemma TransitionIsStatusChange(git: Git, base: Sha, head: Sha, tag: string)
    requires TransitionsBetween(git, base, head).Ok?
    ensures tag in TransitionsBetween(git, base, head).value <==>
            StatusAt(git, base, tag) == Some(PLANNED) && StatusAt(git, head, tag) == Some(PUBLISHED)
  {
    hide StrictRow, F.StrictRows, StripText, F.RowMap, F.Transitions, F.NoRepeats;
    var rows := F.StrictRows(ReadUpstream(git, base).value);
    TransitionsAre(rows, F.MappingStatuses(ReadUpstream(git, head).value).value, tag);
    F.RowMapHolds(rows);
    F.RowMapKeys(rows);
    if tag in F.RowMap(rows) {
      var k :| 0 <= k < |rows| && rows[k].tag == tag;
      assert rows[k] in rows;
      assert F.RowMap(rows)[tag] == PLANNED ==> rows[k] == Row(tag, PLANNED);
    }
  }

  predicate HasTable(git: Git, commit: Sha) {
    commit in git.commits && RD.UPSTREAM_PATH in git.commits[commit].tree
  }

  /** This change takes the row of the tag from planned to published. */
  predicate Publishes(git: Git, base: Sha, head: Sha, tag: string) {
    StatusAt(git, base, tag) == Some(PLANNED) && StatusAt(git, head, tag) == Some(PUBLISHED)
  }

  /** When the two tables can be compared, and what is wrong when they cannot. */
  lemma TablesAreCompared(git: Git, base: Sha, head: Sha)
    ensures TransitionsBetween(git, base, head).Ok? <==> ReadsDistinctRows(git, base) && ReadsDistinctRows(git, head)
    ensures TransitionsBetween(git, base, head) == Err(GitFailed) <==> !HasTable(git, base) || !HasTable(git, head)
    ensures TransitionsBetween(git, base, head).Err? ==>
              TransitionsBetween(git, base, head).error in {GitFailed, Table(F.RepeatedRow)}
    ensures TransitionsBetween(git, base, head).Ok? ==>
              (TransitionsBetween(git, base, head).value == [] <==> forall tag :: !Publishes(git, base, head, tag))
  {
    if TransitionsBetween(git, base, head).Ok? {
      var tags := TransitionsBetween(git, base, head).value;
      forall tag ensures tag in tags <==> Publishes(git, base, head, tag) {
        TransitionIsStatusChange(git, base, head, tag);
      }
      hide Publishes, TransitionsBetween;
      if tags != [] {
        assert tags[0] in tags;
      }
    }
    hide StripText, F.StrictRows, F.RowMap, F.Transitions, F.NoRepeats, StatusAt;
  }

  /** A change off the finalization branches is ordinary if and only if both tables are read and it
      publishes no planned row. */
  lemma OrdinaryIff(git: Git, base: Sha, head: Sha, branch: string, defaultBranch: string, event: string)
    requires Checked(base, head, event) && !(BRANCH_PREFIX <= branch)
    ensures Classified(git, base, head, branch, defaultBranch, event) == Ok(None) <==>
            && ReadsDistinctRows(git, base) && ReadsDistinctRows(git, head)
            && forall tag :: !Publishes(git, base, head, tag)
  {
    TablesAreCompared(git, base, head);
    hide TransitionsBetween, ReadsDistinctRows, Publishes, Validated;
  }

  /** Elsewhere than on a push to the default branch, nothing else is accepted: a missing table, a
      repeated row, and a publication each have their own error. */
  lemma OrdinaryErrors(git: Git, base: Sha, head: Sha, branch: string, defaultBranch: string, event: string)
    requires Checked(base, head, event) && !(BRANCH_PREFIX <= branch) && !(event == PUSH && branch == defaultBranch)
    ensures var verdict := Classified(git, base, head, branch, defaultBranch, event);
            && (verdict == Err(GitFailed) <==> !HasTable(git, base) || !HasTable(git, head))
            && (verdict == Err(Table(F.RepeatedRow)) <==>
                  HasTable(git, base) && HasTable(git, head) && !(ReadsDistinctRows(git, base) && ReadsDistinctRows(git, head)))
            && (verdict == Err(TransitionElsewhere) <==>
                  ReadsDistinctRows(git, base) && ReadsDistinctRows(git, head) && exists tag :: Publishes(git, base, head, tag))
            && verdict in {Ok(None), Err(GitFailed), Err(Table(F.RepeatedRow)), Err(TransitionElsewhere)}
  {
    TablesAreCompared(git, base, head);
    DistinctRowsAreInATable(git, base);
    DistinctRowsAreInATable(git, head);
    hide TransitionsBetween, ReadsDistinctRows, Publishes, HasTable;
  }

  lemma DistinctRowsAreInATable(git: Git, commit: Sha)
    ensures ReadsDistinctRows(git, commit) ==> HasTable(git, commit)
  {
  }

  /** On a finalization branch something must be published, and the errors come in this order: unreadable
      tables, a bad branch name, a base that is no ancestor, a push that is no merge, not one publication,
      another tag than that of the branch, a tree that cannot be regenerated or is another one.  A wrong
      branch is always told as a wrong tag. */
  lemma NamedErrors(git: Git, base: Sha, head: Sha, branch: string, defaultBranch: string, event: string)
    requires Checked(base, head, event) && BRANCH_PREFIX <= branch
    requires base in git.commits && head in git.commits
    ensures var tags, named := TransitionsBetween(git, base, head), TagFromBranch(branch);
            Classified(git, base, head, branch, defaultBranch, event) ==
            if tags.Err? then Err(tags.error)
            else if named.Err? then Err(Branch(named.error))
            else if (base, head) !in git.ancestors then Err(NotAnAncestor)
            else if event == PUSH && branch == defaultBranch && !IsMergeOf(git, base, head) then Err(WrongTopology)
            else if |tags.value| != 1 then Err(Table(F.WrongTransitions(|tags.value|)))
            else if tags.value != [named.value] then Err(WrongTag)
            else if R.Regenerated(git.commits[base].tree, named.value).Err?
            then Err(NotRegenerated(R.Regenerated(git.commits[base].tree, named.value).error))
            else if R.Regenerated(git.commits[base].tree, named.value).value.tree != git.commits[head].tree then Err(TreeDiffers)
            else Ok(Some(Finalized(named.value, base, head, R.Regenerated(git.commits[base].tree, named.value).value.paths)))
  {
    MergeIff(git, base, head);
    if TagFromBranch(branch).Ok? {
      TagThenBranch(branch);
    }
    hide R.Regenerated, TransitionsBetween, FinalizationBranch, TagFromBranch, MainMergeTopology, IsMergeOf;
    var tags := TransitionsBetween(git, base, head);
    if tags.Ok? && |tags.value| == 1 {
      assert tags.value == [tags.value[0]];
    }
  }

  /** Without a base or a head, for a new branch, and on other events, nothing is checked. */
  lemma UncheckedIsOrdinary(git: Git, base: Sha, head: Sha, branch: string, defaultBranch: string, event: string)
    ensures !Checked(base, head, event) ==> Classified(git, base, head, branch, defaultBranch, event) == Ok(None)
  {
  }

  datatype Step = Step(branch: string, event: string)

  /** Consecutive commits, each accepted as the successor of the one before. */
  ghost predicate AcceptedRun(git: Git, commits: seq<Sha>, steps: seq<Step>, defaultBranch: string) {
    && |commits| == |steps| + 1
    && forall i :: 0 <= i < |steps| ==>
         && Checked(commits[i], commits[i + 1], steps[i].event)
         && Classified(git, commits[i], commits[i + 1], steps[i].branch, defaultBranch, steps[i].event).Ok?
  }

  /** The gate classified this step of the run as the finalization of the tag. */
  ghost predicate FinalizedAt(git: Git, commits: seq<Sha>, steps: seq<Step>, defaultBranch: string, i: nat, tag: string)
    requires |commits| == |steps| + 1 && i < |steps|
  {
    var verdict := Classified(git, commits[i], commits[i + 1], steps[i].branch, defaultBranch, steps[i].event);
    verdict.Ok? && verdict.value.Some? && verdict.value.value.tag == tag
  }

  /** This step takes the row of the tag from planned to published in one move. */
  predicate PublishedAt(git: Git, commits: seq<Sha>, i: nat, tag: string)
    requires i + 1 < |commits|
  {
    Publishes(git, commits[i], commits[i + 1], tag)
  }

  /** In an accepted run a step is classified as the finalization of a tag if and only if it takes the
      row of the tag from planned to published in one move, and its head is then the regenerated tree
      of its base. */
  lemma FinalizedIffPublished(git: Git, commits: seq<Sha>, steps: seq<Step>, defaultBranch: string, i: nat, tag: string)
    requires AcceptedRun(git, commits, steps, defaultBranch) && i < |steps|
    ensures FinalizedAt(git, commits, steps, defaultBranch, i, tag) <==> PublishedAt(git, commits, i, tag)
    ensures FinalizedAt(git, commits, steps, defaultBranch, i, tag) ==>
              IsRegenerated(git, Classified(git, commits[i], commits[i + 1], steps[i].branch, defaultBranch, steps[i].event).value.value)
  {
    hide Classified, StatusAt, TransitionsBetween, Checked, IsRegenerated, MainMergeTopology, FinalizationBranch;
    AcceptedIsOrdinaryOrRegenerated(git, commits[i], commits[i + 1], steps[i].branch, defaultBranch, steps[i].event);
    TransitionIsStatusChange(git, commits[i], commits[i + 1], tag);
  }

  /** Over any accepted run a release is finalized if and only if some step publishes its planned row
      in one move.  A row that passes through a third status, or is deleted and added again, is
      published by no such step. */
  lemma FinalizedInRunIff(git: Git, commits: seq<Sha>, steps: seq<Step>, defaultBranch: string, tag: string)
    requires AcceptedRun(git, commits, steps, defaultBranch)
    ensures (exists i :: 0 <= i < |steps| && FinalizedAt(git, commits, steps, defaultBranch, i, tag)) <==>
            (exists i :: 0 <= i < |steps| && PublishedAt(git, commits, i, tag))
  {
    hide FinalizedAt, PublishedAt;
    forall i | 0 <= i < |steps|
      ensures FinalizedAt(git, commits, steps, defaultBranch, i, tag) <==> PublishedAt(git, commits, i, tag)
    {
      FinalizedIffPublished(git, commits, steps, defaultBranch, i, tag);
    }
  }

  /** Whatever the commits before it, the head of every finalization in an accepted run passes the
      update check of the release documents. */
  lemma FinalizedHeadIsClean(git: Git, commits: seq<Sha>, steps: seq<Step>, defaultBranch: string, i: nat, tag: string)
    requires AcceptedRun(git, commits, steps, defaultBranch) && i < |steps|
    requires FinalizedAt(git, commits, steps, defaultBranch, i, tag)
    ensures commits[i + 1] in git.commits && R.CleanTree(git.commits[commits[i + 1]].tree)
  {
    hide Classified, TransitionsBetween, R.Regenerated, R.CleanTree, FinalizationBranch, MainMergeTopology;
    AcceptedIsOrdinaryOrRegenerated(git, commits[i], commits[i + 1], steps[i].branch, defaultBranch, steps[i].event);
    R.RegeneratedIsClean(git.commits[commits[i]].tree, tag);
  }

  /** A row that is planned first, published last and always one of the two moves in one step. */
  lemma {:induction false} SomeStepPublishes(git: Git, commits: seq<Sha>, n: nat, tag: string)
    requires n < |commits| && StatusAt(git, commits[0], tag) == Some(PLANNED) && StatusAt(git, commits[n], tag) == Some(PUBLISHED)
    requires forall i :: 0 <= i <= n ==> StatusAt(git, commits[i], tag) in {Some(PLANNED), Some(PUBLISHED)}
    ensures exists i :: 0 <= i < n && PublishedAt(git, commits, i, tag)
  {
    hide StatusAt;
    assert n > 0;
    if StatusAt(git, commits[n - 1], tag) == Some(PLANNED) {
      assert PublishedAt(git, commits, n - 1, tag);
    } else {
      SomeStepPublishes(git, commits, n - 1, tag);
    }
  }

  /** In particular a release that goes from planned to published was finalized, unless on the way its
      row had another status or was missing. */
  lemma PublishedOnlyByFinalization(git: Git, commits: seq<Sha>, steps: seq<Step>, defaultBranch: string, tag: string)
    requires AcceptedRun(git, commits, steps, defaultBranch)
    requires StatusAt(git, commits[0], tag) == Some(PLANNED) && StatusAt(git, commits[|steps|], tag) == Some(PUBLISHED)
    ensures (exists i :: 0 <= i < |steps| && FinalizedAt(git, commits, steps, defaultBranch, i, tag)) ||
            (exists i :: 0 < i < |steps| && StatusAt(git, commits[i], tag) !in {Some(PLANNED), Some(PUBLISHED)})
  {
    hide StatusAt, FinalizedAt, PublishedAt;
    if forall i :: 0 < i < |steps| ==> StatusAt(git, commits[i], tag) in {Some(PLANNED), Some(PUBLISHED)} {
      SomeStepPublishes(git, commits, |steps|, tag);
      FinalizedInRunIff(git, commits, steps, defaultBranch, tag);
    }
  }

  // ---------------------------------------------------------------- why the detour is excepted

  function Pad(x: string): string {
    " " + (x + " ")
  }

  /** A row of the table as it is usually written. */
  function PrintRow(tag: string, name: string, commit: string, status: string): string {
    Join(["", Pad("`" + tag + "`"), Pad("`" + name + "`"), Pad("`" + commit + "`"), Pad(status), ""])
  }

  lemma StripPad(x: string)
    requires x != "" && !IsSpace(x[0]) && !IsSpace(x[|x| - 1])
    ensures Strip(Pad(x)) == x
  {
    SpaceRunOf(" ", x + " ");
    assert Pad(x)[1..] == x + " ";
    StripRightIs(x + " ", x, " ");
  }

  lemma QuotedPad(x: string)
    ensures Quoted(Pad("`" + x + "`")) == Some(x)
  {
    StripPad("`" + x + "`");
    assert ("`" + x + "`")[1..|"`" + x + "`"| - 1] == x;
  }

  lemma PadNoBar(x: string)
    requires NoBar(x)
    ensures NoBar(Pad(x)) && NoBar(Pad("`" + x + "`"))
  {
    NoBarConcat("`", x);
    NoBarConcat("`" + x, "`");
    NoBarConcat(x, " ");
    NoBarConcat(" ", x + " ");
    NoBarConcat("`" + x + "`", " ");
    NoBarConcat(" ", "`" + x + "`" + " ");
  }

  predicate ValidColumns(tag: string, name: string, commit: string, status: string) {
    && FinalizableTag(tag).Some?
    && name != "" && '`' !in name && NoBar(name)
    && |commit| == 40 && AllHex(commit)
    && status != "" && AllLower(status)
  }

  lemma ColumnsNoBar(tag: string, name: string, commit: string, status: string)
    requires ValidColumns(tag, name, commit, status)
    ensures NoBar(tag) && NoBar(commit) && NoBar(status)
  {
    assert ParseAll(GitTag, tag).Some?;
    hide ParseAll;
    forall i | 0 <= i < |tag| ensures tag[i] != '|' {
      TagChars(tag, tag[i]);
    }
  }

  lemma ColumnTag(tag: string, name: string, commit: string, status: string)
    requires ValidColumns(tag, name, commit, status)
    ensures ParseAll(GitTag, tag).Some?
  {
    hide ParseAll;
  }

  lemma ColumnCells(tag: string, name: string, commit: string, status: string)
    requires ValidColumns(tag, name, commit, status)
    ensures TagCell(Pad("`" + tag + "`")) == Some(tag) && NameCell(Pad("`" + name + "`"))
    ensures CommitCell(Pad("`" + commit + "`")) && StatusCell(Pad(status)) == Some(status)
  {
    hide Pad, ParseAll, Strip, Quoted, FinalizableTag;
    ColumnTag(tag, name, commit, status);
    assert 'a' <= status[0] <= 'z' && 'a' <= status[|status| - 1] <= 'z';
    QuotedPad(tag);
    QuotedPad(name);
    QuotedPad(commit);
    StripPad(status);
  }

  lemma SixCells(a: string, b: string, c: string, d: string)
    requires NoBar(a) && NoBar(b) && NoBar(c) && NoBar(d)
    ensures Split(Join(["", a, b, c, d, ""])) == ["", a, b, c, d, ""]
  {
    var cells := ["", a, b, c, d, ""];
    forall i | 0 <= i < |cells| ensures NoBar(cells[i]) {
      if i == 0 || i == 5 {
        assert cells[i] == "";
      }
    }
    SplitJoin(cells);
  }

  lemma SixCellRow(a: string, b: string, c: string, d: string)
    requires TagCell(a).Some? && NameCell(b) && CommitCell(c) && StatusCell(d).Some? && FinalizableTag(TagCell(a).value).Some?
    ensures StrictCells(["", a, b, c, d, ""]) == Some(Row(TagCell(a).value, StatusCell(d).value))
  {
    hide TagCell, NameCell, CommitCell, StatusCell, FinalizableTag;
    var cells := ["", a, b, c, d, ""];
    assert cells[2..3] == [b];
    assert Join([b]) == b;
  }

  /** A printed row is read back by the strict reader. */
  lemma PrintedRowIsRead(tag: string, name: string, commit: string, status: string)
    requires ValidColumns(tag, name, commit, status)
    ensures StrictRow(PrintRow(tag, name, commit, status)) == Some(Row(tag, status))
    ensures var line := PrintRow(tag, name, commit, status); line != "" && line[0] == '|' && line[|line| - 1] == '|'
  {
    hide Pad, NameCell, CommitCell, TagCell, StatusCell, Join, Split, NoBar, FinalizableTag, StrictCells;
    var a, b, c, d := Pad("`" + tag + "`"), Pad("`" + name + "`"), Pad("`" + commit + "`"), Pad(status);
    ColumnsNoBar(tag, name, commit, status);
    ColumnCells(tag, name, commit, status);
    PadNoBar(tag);
    PadNoBar(name);
    PadNoBar(commit);
    PadNoBar(status);
    SixCells(a, b, c, d);
    SixCellRow(a, b, c, d);
    R.JoinEnds(["", a, b, c, d, ""]);
  }

  const WITHDRAWN := "withdrawn"
  const DETOUR_PARTS := Parts("1", "0", "0", "001")

  function DetourCommit(status: string): Commit {
    Commit(map[RD.UPSTREAM_PATH := [PrintRow(Render(GitTag, DETOUR_PARTS), "v1.0.0", ZERO_SHA, status)]], [])
  }

  /** Three commits on the default branch: planned, withdrawn, published. */
  function Detour(): Git {
    Git(map["a" := DetourCommit(PLANNED), "b" := DetourCommit(WITHDRAWN), "c" := DetourCommit(PUBLISHED)], {})
  }

  lemma DetourColumns(status: string)
    requires status in {PLANNED, WITHDRAWN, PUBLISHED}
    ensures ValidColumns(Render(GitTag, DETOUR_PARTS), "v1.0.0", ZERO_SHA, status)
  {
    ParseAllIffRendered(GitTag, Render(GitTag, DETOUR_PARTS), DETOUR_PARTS);
    hide ParseAll, Render;
    assert AllHex(ZERO_SHA);
    assert AllLower(status);
  }

  lemma OneRow(line: string, row: Row)
    requires StrictRow(line) == Some(row)
    ensures F.StrictRows([line]) == [row] && F.MappingStatuses([line]) == Ok(map[row.tag := row.status])
  {
    hide StrictRow;
    assert [line][..0] == [];
    assert F.StrictRows([line]) == [] + [row];
    assert [row][..0] == [];
    assert F.RowMap([row]) == F.RowMap([])[row.tag := row.status] == map[row.tag := row.status];
  }

  lemma OneLineStays(line: string)
    requires line != "" && StripLeft(line) == StripRight(line) == Strip(line) == line
    ensures StripText([line]) == [line]
  {
    hide Strip, StripLeft, StripRight;
    assert [line][..0] == [] && [line][1..] == [];
  }

  lemma DetourStatus(commit: Sha, status: string)
    requires commit in Detour().commits && Detour().commits[commit] == DetourCommit(status)
    requires status in {PLANNED, WITHDRAWN, PUBLISHED}
    ensures var tag := Render(GitTag, DETOUR_PARTS);
            var text := ReadUpstream(Detour(), commit);
            && text.Ok? && F.StrictRows(text.value) == [Row(tag, status)]
            && F.MappingStatuses(text.value) == Ok(map[tag := status])
  {
    var tag := Render(GitTag, DETOUR_PARTS);
    hide PrintRow, Render, StripText, StripLeft, StripRight, Strip, ValidColumns, StrictRow, F.StrictRows, F.MappingStatuses;
    DetourColumns(status);
    PrintedRowIsRead(tag, "v1.0.0", ZERO_SHA, status);
    var line := PrintRow(tag, "v1.0.0", ZERO_SHA, status);
    BarsAreStripped(line);
    OneLineStays(line);
    OneRow(line, Row(tag, status));
  }

  /** The exception is real: both steps of the detour pass as ordinary changes, so a release can
      become published with no finalization at all. */
  lemma DetourIsOrdinary()
    ensures var tag, steps := Render(GitTag, DETOUR_PARTS), [Step("main", PUSH), Step("main", PUSH)];
            && AcceptedRun(Detour(), ["a", "b", "c"], steps, "main")
            && Classified(Detour(), "a", "b", "main", "main", PUSH) == Ok(None)
            && Classified(Detour(), "b", "c", "main", "main", PUSH) == Ok(None)
            && StatusAt(Detour(), "a", tag) == Some(PLANNED)
            && StatusAt(Detour(), "c", tag) == Some(PUBLISHED)
  {
    DetourCommits();
    hide Detour, DetourCommit, Render, StatusAt, Classified, Checked;
    DetourStep("a", "b", PLANNED, WITHDRAWN);
    DetourStep("b", "c", WITHDRAWN, PUBLISHED);
    OrdinaryStep("a", "b");
    OrdinaryStep("b", "c");
  }

  lemma DetourCommits()
    ensures "a" in Detour().commits && Detour().commits["a"] == DetourCommit(PLANNED)
    ensures "b" in Detour().commits && Detour().commits["b"] == DetourCommit(WITHDRAWN)
    ensures "c" in Detour().commits && Detour().commits["c"] == DetourCommit(PUBLISHED)
  {
  }

  lemma DetourStep(base: Sha, head: Sha, before: string, after: string)
    requires base in Detour().commits && Detour().commits[base] == DetourCommit(before)
    requires head in Detour().commits && Detour().commits[head] == DetourCommit(after)
    requires before in {PLANNED, WITHDRAWN, PUBLISHED} && after in {PLANNED, WITHDRAWN, PUBLISHED}
    requires before != PLANNED || after != PUBLISHED
    ensures TransitionsBetween(Detour(), base, head) == Ok([])
    ensures StatusAt(Detour(), base, Render(GitTag, DETOUR_PARTS)) == Some(before)
    ensures StatusAt(Detour(), head, Render(GitTag, DETOUR_PARTS)) == Some(after)
  {
    DetourStatus(base, before);
    DetourStatus(head, after);
    hide Detour, DetourCommit, ReadUpstream, F.MappingStatuses, F.StrictRows, Render, TransitionsBetween, StatusAt;
    OneRowStep(Detour(), base, head, Render(GitTag, DETOUR_PARTS), before, after);
  }

  lemma OneRowStep(git: Git, base: Sha, head: Sha, tag: string, before: string, after: string)
    requires ReadUpstream(git, base).Ok? && ReadUpstream(git, head).Ok?
    requires F.StrictRows(ReadUpstream(git, base).value) == [Row(tag, before)]
    requires F.MappingStatuses(ReadUpstream(git, base).value) == Ok(map[tag := before])
    requires F.MappingStatuses(ReadUpstream(git, head).value) == Ok(map[tag := after])
    requires before != PLANNED || after != PUBLISHED
    ensures TransitionsBetween(git, base, head) == Ok([])
    ensures StatusAt(git, base, tag) == Some(before) && StatusAt(git, head, tag) == Some(after)
  {
    hide ReadUpstream, F.MappingStatuses, F.StrictRows;
    OneRowTransitions(tag, before, after);
  }

  lemma OneRowTransitions(tag: string, before: string, after: string)
    requires before != PLANNED || after != PUBLISHED
    ensures F.Transitions([Row(tag, before)], map[tag := after]) == []
  {
  }

  lemma OrdinaryStep(base: Sha, head: Sha)
    requires base in {"a", "b"} && head in {"b", "c"} && TransitionsBetween(Detour(), base, head) == Ok([])
    ensures Checked(base, head, PUSH) && Classified(Detour(), base, head, "main", "main", PUSH) == Ok(None)
  {
    hide Detour, TransitionsBetween;
    assert |BRANCH_PREFIX| > 4;
  }
}
