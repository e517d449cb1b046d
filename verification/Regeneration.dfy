/**
 Regenerating the tree a release finalization must have: publish one row of UPSTREAM.md in a copy
 of the base tree, run the documentation update there, and accept only allow-listed paths.
 */
module Regeneration {
  import opened Strings
  import opened Wrappers
  import opened Versions
  import opened VersionTokens
  import opened Patterns
  import opened UpstreamTable
  import opened ReleaseDocs
  import opened ReleaseSelection
  import opened ReleaseUpdate
  import F = Finalization
  import LT = LineTokens

  datatype RegenerationError =
    | NoUpstreamFile
    | NotReplaced(error: F.Error)
    | UpdateFailed
    | InvalidPaths(paths: set<Path>)

  datatype Regeneration = Regeneration(tree: Files, paths: set<Path>)

  const ALLOWED_PATHS := {UPSTREAM_PATH, "README.md", "README_CN.md", "README_JA.md", "deploy/README.md"}

  /** `git diff --name-only` between two trees. */
  function DiffPaths(a: Files, b: Files): set<Path> {
    set path | path in a.Keys + b.Keys && (path !in a || path !in b || a[path] != b[path])
  }

  /** What `regenerate_expected_tree` returns. */
  function Regenerated(base: Files, tag: string): Result<Regeneration, RegenerationError> {
    if UPSTREAM_PATH !in base then Err(NoUpstreamFile) else
    match F.ReplacePlannedMapping(base[UPSTREAM_PATH], tag)
    case Err(e) => Err(NotReplaced(e))
    case Ok(text) =>
      var flipped := base[UPSTREAM_PATH := text];
      match Generated(flipped)
      case Err(_) => Err(UpdateFailed)
      case Ok(g) =>
        var after := flipped + g.updates;
        var paths := DiffPaths(base, after);
        if UPSTREAM_PATH !in paths || !(paths <= ALLOWED_PATHS) then Err(InvalidPaths(paths))
        else Ok(Regeneration(after, paths))
  }

  method RegenerateExpectedTree(base: Files, tag: string) returns (r: Result<Regeneration, RegenerationError>)
    ensures r == Regenerated(base, tag)
  {
    hide Generated;
    if UPSTREAM_PATH !in base {
      return Err(NoUpstreamFile);
    }
    var worktree := new Worktree(base);
    var replaced := F.ReplacePlannedMapping(worktree.files[UPSTREAM_PATH], tag);
    if replaced.Err? {
      return Err(NotReplaced(replaced.error));
    }
    worktree.files := worktree.files[UPSTREAM_PATH := replaced.value];
    var report := worktree.Update(false);
    if report.exitCode != 0 {
      return Err(UpdateFailed);
    }
    var paths := DiffPaths(base, worktree.files);
    if UPSTREAM_PATH !in paths || !(paths <= ALLOWED_PATHS) {
      return Err(InvalidPaths(paths));
    }
    r := Ok(Regeneration(worktree.files, paths));
  }

  // ---------------------------------------------------------------- documents with another rollback

  /** Every line of the text is left alone by every pass. */
  ghost predicate SettledText(passes: seq<LT.Pass>, text: Text) {
    forall i :: 0 <= i < |text| ==> LT.Settled(passes, Tokens(text[i]))
  }

  lemma UnchangedIsSettled(passes: seq<LT.Pass>, text: Text)
    requires LT.ValidPasses(passes) && LT.AllCompatible(passes) && RunText(passes, text) == text
    ensures SettledText(passes, text)
  {
    hide Tokenize, LT.RunPasses, LT.Settled, Good;
    forall i | 0 <= i < |text| ensures LT.Settled(passes, Tokens(text[i])) {
      TokenizeGood(true, text[i]);
      LT.RunSettles(passes, Tokens(text[i]));
      RunPrints(passes, text[i]);
      assert RunText(passes, text)[i] == text[i];
    }
  }

  function RunOne(a: LT.Pass, text: Text): (r: Text)
    ensures |r| == |text|
  {
    seq(|text|, i requires 0 <= i < |text| => RenderTokens(LT.RunPass(a, Tokens(text[i]))))
  }

  lemma RollbackChanges(rule: DocumentRule, text: Text, current: Parts, old': Parts, new': Parts)
    requires ValidRule(rule) && WellFormed(current) && WellFormed(old') && WellFormed(new')
    requires RunText(PassesOf(rule, current, old'), text) == text
    ensures RunText(PassesOf(rule, current, new'), text) == RunOne(LT.Pass(ROLLBACK, new'), text)
  {
    var before, after := PassesOf(rule, current, old'), PassesOf(rule, current, new');
    var a := LT.Pass(ROLLBACK, new');
    PassesAreValid(rule, current, old');
    PassesAreValid(rule, current, new');
    PassesCompatible(rule, current, old');
    PassesCompatible(rule, current, new');
    UnchangedIsSettled(before, text);
    assert after == before[1 := a];
    hide LT.RunPasses, LT.RunPass, LT.Settled, LT.ValidPass, LT.Compatible, Good, Tokenize, PassesOf;
    forall i | 0 <= i < |text| ensures RunText(after, text)[i] == RunOne(a, text)[i] {
      TokenizeGood(true, text[i]);
      assert after[1] == a;
      forall k | 0 <= k < |before| && k != 1 ensures LT.Compatible(before[k], a) {
        assert before[k] == after[k] && LT.Compatible(after[k], after[1]);
      }
      LT.ChangeOnePass(before, 1, a, Tokens(text[i]));
    }
  }

  lemma {:induction false} CountZero(marks: seq<bool>)
    ensures Count(marks) == 0 <==> forall i :: 0 <= i < |marks| ==> !marks[i]
  {
    if marks != [] {
      CountZero(marks[1..]);
      assert forall i :: 0 < i < |marks| ==> marks[i] == marks[1..][i - 1];
      if Count(marks) == 0 {
      } else if marks[0] {
      } else {
        var i :| 0 <= i < |marks| - 1 && marks[1..][i];
        assert marks[i + 1];
      }
    }
  }

  /** A line without the expression is left alone; a line with it changes when the version does. */
  lemma RunOneLine(p: Pattern, old': Parts, new': Parts, line: string)
    requires WellBuilt(p) && WellFormed(old') && WellFormed(new') && old' != new'
    requires LT.RunPass(LT.Pass(p, old'), Tokens(line)) == Tokens(line)
    ensures Count(LT.LineMarks(p, Tokens(line))) == 0 <==> RenderTokens(LT.RunPass(LT.Pass(p, new'), Tokens(line))) == line
  {
    var ts := Tokens(line);
    var marks, a := LT.LineMarks(p, ts), LT.Pass(p, new');
    TokenizeGood(true, line);
    LT.RunPassShape(a, ts);
    GoodTokenizes(true, LT.RunPass(a, ts));
    LT.SettledIffWritten(a, ts);
    LT.SettledIffWritten(LT.Pass(p, old'), ts);
    CountZero(marks);
    hide Tokenize, RenderTokens, Good, WellBuilt, Count, LT.RunPass, LT.LineMarks;
    if Count(marks) == 0 {
      assert LT.Written(a, marks, ts);
    } else {
      var i :| 0 <= i < |marks| && marks[i];
      MarkedVersion(p, ts, i);
      assert ts[i].parts == old';
      assert !LT.Written(a, marks, ts);
    }
  }

  lemma MarkedVersion(p: Pattern, ts: seq<Token>, i: nat)
    requires i < |ts| && LT.LineMarks(p, ts)[i]
    ensures ts[i].Version?
  {
  }

  lemma {:induction false} NoOccurrences(p: Pattern, text: Text)
    ensures Occurrences(p, text) == 0 <==>
            forall i :: 0 <= i < |text| ==> Count(LT.LineMarks(p, Tokens(text[i]))) == 0
  {
    hide LT.LineMarks, Count, Tokens;
    if text != [] {
      NoOccurrences(p, text[1..]);
      assert forall i :: 0 < i < |text| ==> text[i] == text[1..][i - 1];
      if Occurrences(p, text) == 0 {
      } else if Count(LT.LineMarks(p, Tokens(text[0]))) == 0 {
        var i :| 0 <= i < |text| - 1 && Count(LT.LineMarks(p, Tokens(text[1..][i]))) != 0;
        assert text[i + 1] == text[1..][i];
      }
    }
  }

  /** A clean document, rewritten for another rollback release: it is rewritten, and it changes
      exactly when it has rollback commands and the release is another one. */
  lemma RewriteForAnotherRollback(rule: DocumentRule, text: Text, current: Parts, old': Parts, new': Parts)
    requires ValidRule(rule) && WellFormed(current) && WellFormed(old') && WellFormed(new')
    requires Rewritten(rule, text, Render(GitTag, current), Render(GitTag, old')) == Ok(text)
    ensures var r := Rewritten(rule, text, Render(GitTag, current), Render(GitTag, new'));
            r.Ok? && (r.value != text <==> old' != new' && rule.rollbacks > 0)
  {
    hide Render, WellBuilt, LT.Exclusive, PassesOf, Tokens, LT.RunPass, LT.LineMarks, Count, Occurrences, Rewritten;
    RewriteRuns(rule, text, current, old');
    RewriteRuns(rule, text, current, new');
    if old' != new' {
      var before := PassesOf(rule, current, old');
      RollbackChanges(rule, text, current, old', new');
      PassesAreValid(rule, current, old');
      PassesCompatible(rule, current, old');
      UnchangedIsSettled(before, text);
      RollbackIsValid();
      NoOccurrences(ROLLBACK, text);
      SecondPass(rule, current, old');
      var a := LT.Pass(ROLLBACK, new');
      forall i | 0 <= i < |text|
        ensures Count(LT.LineMarks(ROLLBACK, Tokens(text[i]))) == 0 <==> RunOne(a, text)[i] == text[i]
      {
        assert LT.Settled(before, Tokens(text[i]));
        RunOneLine(ROLLBACK, old', new', text[i]);
      }
      assert RunOne(a, text) == text <==> forall i :: 0 <= i < |text| ==> RunOne(a, text)[i] == text[i];
      assert Occurrences(ROLLBACK, text) == rule.rollbacks;
    }
  }

  lemma SecondPass(rule: DocumentRule, current: Parts, rollback: Parts)
    ensures PassesOf(rule, current, rollback)[1] == LT.Pass(ROLLBACK, rollback)
  {
  }

  // ---------------------------------------------------------------- UPSTREAM.md with one row flipped

  lemma StatusUntouched(p: Pattern, value: string, cell: string)
    requires RowSafe(p) && (forall c <- cell :: IsSpace(c) || 'a' <= c <= 'z')
    ensures Subn(p, value, false, cell + ("|" + "")) == (cell + ("|" + ""), 0) || p.anchored
  {
    hide Subn, MatchAt;
    if !p.anchored {
      var z := p.literal[|p.literal| - 1];
      assert z !in cell;
      UnmatchedIsUnchanged(p, value, false, cell);
      UnmatchedIsUnchanged(p, value, false, "");
      SubnBar(p, value, false, cell, "");
    }
  }

  /** The status cell decides nothing: with any status the rewriting of the rest is the same. */
  lemma AroundStatus(p: Pattern, value: string, pre: string, cell: string)
    requires RowSafe(p) && !p.anchored && (forall c <- cell :: IsSpace(c) || 'a' <= c <= 'z')
    ensures var (left, n) := Subn(p, value, false, pre);
            Subn(p, value, true, pre + ("|" + (cell + ("|" + "")))) == (left + ("|" + (cell + ("|" + ""))), n)
  {
    assert p.literal != "";
    hide Subn, RowSafe;
    StatusUntouched(p, value, cell);
    SubnBar(p, value, false, pre, cell + ("|" + ""));
    StartIrrelevant(p, value, pre + ("|" + (cell + ("|" + ""))));
  }

  lemma BarLine(p: Pattern, value: string, line: string)
    requires RowSafe(p) && p.anchored && line != "" && line[0] == '|'
    ensures Subn(p, value, true, line) == (line, 0)
  {
    NeverAnchored(p, value, line[1..]);
    assert line == [line[0]] + line[1..];
    assert p.literal[0] != '|';
    assert MatchAt(p, true, line) == None;
    SubnSkip(p, value, true, line);
  }

  lemma SameTail(a: string, b: string, tail: string)
    requires a + tail == b + tail
    ensures a == b
  {
    assert |a| == |b|;
    assert a == (a + tail)[..|a|] == (b + tail)[..|b|] == b;
  }

  function AroundCell(pre: string, cell: string): string {
    pre + ("|" + (cell + ("|" + "")))
  }

  lemma SettledAround(p: Pattern, value: string, pre: string, cell: string, flipped: string)
    requires RowSafe(p) && !p.anchored && (forall c :: c in cell || c in flipped ==> IsSpace(c) || 'a' <= c <= 'z')
    requires Subn(p, value, true, AroundCell(pre, cell)).0 == AroundCell(pre, cell)
    ensures Subn(p, value, true, AroundCell(pre, flipped)) ==
            (AroundCell(pre, flipped), Subn(p, value, true, AroundCell(pre, cell)).1)
  {
    assert p.literal != "";
    hide Subn, RowSafe;
    AroundStatus(p, value, pre, cell);
    AroundStatus(p, value, pre, flipped);
    SameTail(Subn(p, value, false, pre).0, pre, "|" + (cell + ("|" + "")));
  }

  /** A line no substitution changes stays so when its status is flipped, with the same counts. */
  lemma FlipKeepsSettled(p: Pattern, value: string, line: string, tag: string)
    requires p.literal != "" && RowSafe(p) && Subn(p, value, true, line).0 == line
    ensures Subn(p, value, true, F.FlipLine(line, tag)) == (F.FlipLine(line, tag), Subn(p, value, true, line).1)
  {
    if F.IsPlannedRow(line, tag) {
      hide Subn, F.FlipLine, F.IsPlannedRow, RowSafe;
      if p.anchored {
        FlipKeepsAnchored(p, value, line, tag);
      } else {
        FlipKeepsUnanchored(p, value, line, tag);
      }
    }
  }

  lemma FlipKeepsAnchored(p: Pattern, value: string, line: string, tag: string)
    requires p.literal != "" && RowSafe(p) && p.anchored && F.IsPlannedRow(line, tag) && Subn(p, value, true, line).0 == line
    ensures Subn(p, value, true, F.FlipLine(line, tag)) == (F.FlipLine(line, tag), Subn(p, value, true, line).1)
  {
    hide Subn, F.FlipLine, StatusCell, F.IsPlannedRow, F.Flipped, Join, Split, RowSafe;
    F.FlippedCells(line, tag);
    var flip := F.FlipLine(line, tag);
    PlannedStartsEmpty(line, tag);
    RowStartsWithBar(line);
    RowStartsWithBar(flip);
    BarLine(p, value, line);
    BarLine(p, value, flip);
  }

  lemma FlipKeepsUnanchored(p: Pattern, value: string, line: string, tag: string)
    requires p.literal != "" && RowSafe(p) && !p.anchored && F.IsPlannedRow(line, tag) && Subn(p, value, true, line).0 == line
    ensures Subn(p, value, true, F.FlipLine(line, tag)) == (F.FlipLine(line, tag), Subn(p, value, true, line).1)
  {
    hide Subn, F.FlipLine, StatusCell, F.IsPlannedRow, F.Flipped, Join, Split, RowSafe;
    F.FlippedCells(line, tag);
    var cells := Split(line);
    var n := |cells|;
    var pre, cell := Join(cells[..n - 2]), cells[n - 2];
    var flipped := F.Flipped(cell);
    forall c | c in cell || c in flipped ensures IsSpace(c) || 'a' <= c <= 'z' {
      F.FlippedChars(cell, c);
    }
    FlipLineIs(line, tag);
    SettledAround(p, value, pre, cell, flipped);
  }

  lemma PlannedStartsEmpty(line: string, tag: string)
    requires F.IsPlannedRow(line, tag)
    ensures Split(line)[0] == ""
  {
  }

  lemma FlipLineIs(line: string, tag: string)
    requires F.IsPlannedRow(line, tag)
    ensures var cells := Split(line);
            |cells| >= 6 && F.FlipLine(line, tag) ==
            Join(cells[..|cells| - 2]) + ("|" + (F.Flipped(cells[|cells| - 2]) + ("|" + "")))
  {
    hide F.Flipped, Join, Split, StatusCell, TagCell, F.IsPlannedRow;
    F.FlippedCells(line, tag);
  }

  lemma JoinEnds(cells: seq<string>)
    requires |cells| >= 3 && cells[0] == "" && cells[|cells| - 1] == ""
    ensures var line := Join(cells);
            line != "" && line[0] == '|' && line[|line| - 1] == '|'
  {
    F.JoinAround(cells, cells[|cells| - 2]);
    assert cells[|cells| - 2 := cells[|cells| - 2]] == cells;
  }

  lemma RowStartsWithBar(line: string)
    requires |Split(line)| > 1 && Split(line)[0] == ""
    ensures line != "" && line[0] == '|'
  {
  }

  ghost predicate Identity(r: Replacement, text: Text)
    requires r.pattern.literal != ""
  {
    CountText(r.pattern, r.value, text) == r.expected && SubnText(r.pattern, r.value, text) == text
  }

  lemma {:induction false} ReplaceAllIdentity(path: Path, text: Text, rs: seq<Replacement>)
    requires Literals(rs) && forall r <- rs :: Identity(r, text)
    ensures ReplaceAll(path, text, rs) == Ok(text)
  {
    hide CountText, SubnText;
    if rs != [] {
      ReplaceAllIdentity(path, text, rs[..|rs| - 1]);
      assert Identity(rs[|rs| - 1], text);
    }
  }

  lemma {:induction false} FlipKeepsIdentity(r: Replacement, text: Text, tag: string)
    requires r.pattern.literal != "" && RowSafe(r.pattern) && SubnText(r.pattern, r.value, text) == text
    ensures SubnText(r.pattern, r.value, F.FlipText(text, tag)) == F.FlipText(text, tag)
    ensures CountText(r.pattern, r.value, F.FlipText(text, tag)) == CountText(r.pattern, r.value, text)
  {
    hide Subn, RowSafe, F.FlipLine;
    if text != [] {
      assert SubnText(r.pattern, r.value, text)[0] == text[0];
      FlipKeepsSettled(r.pattern, r.value, text[0], tag);
      var rest := text[1..];
      assert SubnText(r.pattern, r.value, text)[1..] == SubnText(r.pattern, r.value, rest);
      FlipKeepsIdentity(r, rest, tag);
      var flip := F.FlipText(text, tag);
      assert flip[1..] == F.FlipText(rest, tag);
      assert SubnText(r.pattern, r.value, flip) == [flip[0]] + SubnText(r.pattern, r.value, flip[1..]);
      assert flip == [flip[0]] + flip[1..];
    }
  }

  /** In a clean text every single substitution is without effect. */
  lemma CleanIsIdentity(rule: DocumentRule, text: Text, current: Parts, rollback: Parts)
    requires ValidRule(rule) && WellFormed(current) && WellFormed(rollback)
    requires Rewritten(rule, text, Render(GitTag, current), Render(GitTag, rollback)) == Ok(text)
    ensures forall r <- Replacements(rule, Render(GitTag, current), Render(GitTag, rollback)) ::
              r.pattern.literal != "" && Identity(r, text)
  {
    hide Render, WellBuilt, LT.Exclusive, PassesOf, Tokens, LT.RunPass, LT.LineMarks, Count, Occurrences,
         Subn, CountText, Replacements, LT.ValidPass, ReplaceAll;
    var rs, passes := Replacements(rule, Render(GitTag, current), Render(GitTag, rollback)), PassesOf(rule, current, rollback);
    RewriteRuns(rule, text, current, rollback);
    ReplacementsPrint(rule, current, rollback);
    PassesAreValid(rule, current, rollback);
    PassesCompatible(rule, current, rollback);
    UnchangedIsSettled(passes, text);
    CountedFits(rule, text, Render(GitTag, current), Render(GitTag, rollback));
    forall k | 0 <= k < |rs| ensures Identity(rs[k], text) {
      CountIsOccurrences(passes[k], text);
      forall i | 0 <= i < |text| ensures SubnText(rs[k].pattern, rs[k].value, text)[i] == text[i] {
        assert LT.Settled(passes, Tokens(text[i]));
        LineSubn(passes[k], text[i]);
        TokensPrint(text[i]);
      }
    }
  }

  lemma TokensPrint(line: string)
    ensures RenderTokens(Tokens(line)) == line
  {
    TokenizeGood(true, line);
  }

  /** A clean UPSTREAM.md with one row published is clean again, also for another rollback. */
  lemma FlippedUpstreamIsClean(text: Text, tag: string, current: Parts, old': Parts, new': Parts)
    requires WellFormed(current) && WellFormed(old') && WellFormed(new')
    requires ValidRule(UPSTREAM_RULE)
    requires Rewritten(UPSTREAM_RULE, text, Render(GitTag, current), Render(GitTag, old')) == Ok(text)
    ensures Rewritten(UPSTREAM_RULE, F.FlipText(text, tag), Render(GitTag, current), Render(GitTag, new')) ==
            Ok(F.FlipText(text, tag))
  {
    var flip := F.FlipText(text, tag);
    var rs := Replacements(UPSTREAM_RULE, Render(GitTag, current), Render(GitTag, old'));
    hide Render, WellBuilt, LT.Exclusive, Subn, CountText, SubnText, Replacements, ReplaceAll, RowSafe, NoBar, F.FlipText;
    CleanIsIdentity(UPSTREAM_RULE, text, current, old');
    UpstreamReplacements(current, old');
    forall r <- rs ensures Identity(r, flip) {
      assert RowSafeReplacement(r) && Identity(r, text);
      FlipKeepsIdentity(r, text, tag);
    }
    ReplaceAllIdentity(UPSTREAM_PATH, flip, rs);
    RewriteForAnotherRollback(UPSTREAM_RULE, flip, current, old', new');
  }

  // ---------------------------------------------------------------- a clean base always regenerates

  /** The update check passes on this tree. */
  ghost predicate CleanTree(files: Files) {
    Generated(files).Ok? && forall path <- Generated(files).value.updates ::
      path in files && files[path] == Generated(files).value.updates[path]
  }

  /** That is: a checking run of the update tool exits with 0. */
  lemma CleanIffCheckPasses(files: Files)
    ensures CleanTree(files) <==>
            Generated(files).Ok? && Changed(files, Generated(files).value.updates, DOCUMENT_RULES) == []
  {
    if Generated(files).Ok? {
      var g := Generated(files).value;
      TableLiterals();
      hide Changed, RewrittenFiles, ResolvedVersions;
      UpdatedPaths(files, DOCUMENT_RULES, g.current, g.rollback);
      NothingChanged(files, g.updates, DOCUMENT_RULES);
    }
  }

  const ROLLBACK_DOCUMENTS := {"README.md", "README_CN.md", "README_JA.md", "deploy/README.md"}

  lemma RollbackDocuments()
    ensures forall rule <- DOCUMENT_RULES :: rule.rollbacks > 0 <==> rule.path in ROLLBACK_DOCUMENTS
    ensures forall path <- ROLLBACK_DOCUMENTS :: exists rule <- DOCUMENT_RULES :: rule.path == path
  {
    assert DOCUMENT_RULES[0].path == "README.md" && DOCUMENT_RULES[1].path == "README_CN.md";
    assert DOCUMENT_RULES[2].path == "README_JA.md" && DOCUMENT_RULES[3].path == "deploy/README.md";
  }

  lemma AllowedPaths()
    ensures {UPSTREAM_PATH} + ROLLBACK_DOCUMENTS == ALLOWED_PATHS && UPSTREAM_PATH !in ROLLBACK_DOCUMENTS
  {
  }

  /** Publishing a row keeps the current version and never lowers the rollback release. */
  lemma VersionsAfterFlip(base: Files, tag: string)
    requires ResolvedVersions(base).Ok? && UPSTREAM_PATH in base
    ensures var after := ResolvedVersions(base[UPSTREAM_PATH := F.FlipText(base[UPSTREAM_PATH], tag)]);
            && after.Ok? && after.value.0 == ResolvedVersions(base).value.0
            && VersionKey(after.value.1).Some? && VersionKey(ResolvedVersions(base).value.1).Some?
            && !KeyLess(VersionKey(after.value.1).value, VersionKey(ResolvedVersions(base).value.1).value)
  {
    var (current, rollback) := ResolvedVersions(base).value;
    var text := base[UPSTREAM_PATH];
    var tags, statuses := StatusTags(text), Statuses(text);
    F.FlippedStatuses(text, tag);
    hide VersionKey, KeyLess, Statuses, StatusTags, F.FlipText, Selected, Content, Strip;
    SelectionIsMonotone(tags, statuses, tag, PUBLISHED, current, DOCUMENT_ROLLBACK_STATUSES);
    NotBelowItself(VersionKey(rollback).value);
  }

  lemma NotBelowItself(key: Key)
    ensures !KeyLess(key, key)
  {
  }

  lemma CleanRewrites(base: Files, current: Parts, rollback: Parts, rule: DocumentRule)
    requires CleanTree(base) && rule in DOCUMENT_RULES && RuleLiterals(rule)
    requires ResolvedVersions(base) == Ok((Render(GitTag, current), Render(GitTag, rollback)))
    ensures rule.path in base
    ensures Rewritten(rule, base[rule.path], Render(GitTag, current), Render(GitTag, rollback)) == Ok(base[rule.path])
  {
    TableLiterals();
    TablePaths();
    hide Render, Rewritten, ResolvedVersions, RewrittenFiles, RuleLiterals;
    RewrittenFilesHold(base, DOCUMENT_RULES, Render(GitTag, current), Render(GitTag, rollback));
  }

  /** Every document of a clean tree with one row flipped, rewritten for the new rollback. */
  lemma FlippedRewrites(base: Files, tag: string, current: Parts, old': Parts, new': Parts, rule: DocumentRule)
    requires CleanTree(base) && rule in DOCUMENT_RULES && ValidRule(rule) && UPSTREAM_PATH in base
    requires WellFormed(current) && WellFormed(old') && WellFormed(new')
    requires ResolvedVersions(base) == Ok((Render(GitTag, current), Render(GitTag, old')))
    ensures var flipped := base[UPSTREAM_PATH := F.FlipText(base[UPSTREAM_PATH], tag)];
            && rule.path in flipped
            && var r := Rewritten(rule, flipped[rule.path], Render(GitTag, current), Render(GitTag, new'));
               && r.Ok?
               && (rule.path == UPSTREAM_PATH ==> r.value == flipped[rule.path])
               && (rule.path != UPSTREAM_PATH ==> (r.value != base[rule.path] <==> old' != new' && rule.rollbacks > 0))
  {
    TablePaths();
    hide Render, Rewritten, ResolvedVersions, F.FlipText, CleanTree;
    CleanRewrites(base, current, old', rule);
    if rule.path == UPSTREAM_PATH {
      FlippedUpstreamIsClean(base[UPSTREAM_PATH], tag, current, old', new');
    } else {
      RewriteForAnotherRollback(rule, base[rule.path], current, old', new');
    }
  }

  lemma FlipTextDiffers(text: Text, tag: string)
    requires F.PlannedRows(text, tag) == 1
    ensures F.FlipText(text, tag) != text
  {
    hide F.FlipLine, StrictRow;
    F.FlippedRows(text, tag);
    var rows := F.StrictRows(text);
    var k :| 0 <= k < |rows| && rows[k] == Row(tag, PLANNED);
    assert F.RestateAll(rows, tag)[k] != rows[k];
  }

  lemma RenderInjective(a: Parts, b: Parts)
    requires WellFormed(a) && WellFormed(b)
    ensures Render(GitTag, a) == Render(GitTag, b) <==> a == b
  {
    ParseAllIffRendered(GitTag, Render(GitTag, a), a);
    ParseAllIffRendered(GitTag, Render(GitTag, a), b);
  }

  ghost predicate FlippedUpdates(base: Files, flip: Text, g: Generation, moved: bool) {
    && g.updates.Keys == (set rule | rule in DOCUMENT_RULES :: rule.path)
    && forall rule <- DOCUMENT_RULES ::
         && rule.path in base
         && if rule.path == UPSTREAM_PATH then g.updates[rule.path] == flip
            else (g.updates[rule.path] != base[rule.path] <==> moved && rule.rollbacks > 0)
  }

  lemma GeneratedFrom(files: Files, c: string, r: string)
    requires RulesLiteral(DOCUMENT_RULES) && ResolvedVersions(files) == Ok((c, r))
    requires forall rule <- DOCUMENT_RULES :: rule.path in files && Rewritten(rule, files[rule.path], c, r).Ok?
    ensures Generated(files).Ok?
    ensures var g := Generated(files).value;
            && g.current == c && g.rollback == r
            && g.updates.Keys == (set rule | rule in DOCUMENT_RULES :: rule.path)
            && forall rule <- DOCUMENT_RULES ::
                 rule.path in g.updates && Ok(g.updates[rule.path]) == Rewritten(rule, files[rule.path], c, r)
  {
    TablePaths();
    hide Rewritten, ResolvedVersions, RewrittenFiles, RuleLiterals;
    RewrittenFilesHold(files, DOCUMENT_RULES, c, r);
  }

  lemma VersionsOfFlipped(base: Files, tag: string) returns (current: Parts, old': Parts, new': Parts)
    requires ResolvedVersions(base).Ok? && UPSTREAM_PATH in base
    ensures WellFormed(current) && WellFormed(old') && WellFormed(new')
    ensures ResolvedVersions(base) == Ok((Render(GitTag, current), Render(GitTag, old')))
    ensures ResolvedVersions(base[UPSTREAM_PATH := F.FlipText(base[UPSTREAM_PATH], tag)]) ==
            Ok((Render(GitTag, current), Render(GitTag, new')))
    ensures old' == new' <==> Render(GitTag, old') == Render(GitTag, new')
  {
    hide Render, ResolvedVersions, F.FlipText, WellFormed, KeyLess, VersionKey;
    var c;
    current, old' := ResolvedParts(base);
    VersionsAfterFlip(base, tag);
    c, new' := ResolvedParts(base[UPSTREAM_PATH := F.FlipText(base[UPSTREAM_PATH], tag)]);
    RenderInjective(current, c);
    RenderInjective(old', new');
  }

  lemma CleanHasVersions(base: Files)
    requires CleanTree(base)
    ensures ResolvedVersions(base) == Ok((Generated(base).value.current, Generated(base).value.rollback))
  {
    hide ResolvedVersions, RewrittenFiles;
  }

  /** What the rewrite for `c` and `r` makes of one document of the flipped tree. */
  ghost predicate FlippedDocument(base: Files, flip: Text, c: string, r: string, moved: bool, rule: DocumentRule) {
    var flipped := base[UPSTREAM_PATH := flip];
    && RuleLiterals(rule) && rule.path in flipped && rule.path in base
    && var text := Rewritten(rule, flipped[rule.path], c, r);
    && text.Ok?
    && (rule.path == UPSTREAM_PATH ==> text.value == flip)
    && (rule.path != UPSTREAM_PATH ==> (text.value != base[rule.path] <==> moved && rule.rollbacks > 0))
  }

  lemma FlippedDocumentsGenerate(base: Files, flip: Text, c: string, r: string, moved: bool)
    requires RulesLiteral(DOCUMENT_RULES) && ResolvedVersions(base[UPSTREAM_PATH := flip]) == Ok((c, r))
    requires forall rule <- DOCUMENT_RULES :: FlippedDocument(base, flip, c, r, moved, rule)
    ensures var after := Generated(base[UPSTREAM_PATH := flip]);
            && after.Ok? && after.value.current == c && after.value.rollback == r
            && FlippedUpdates(base, flip, after.value, moved)
  {
    hide Rewritten, ResolvedVersions, Generated, RulesLiteral, RuleLiterals, DOCUMENT_RULES;
    GeneratedFrom(base[UPSTREAM_PATH := flip], c, r);
  }

  lemma FlippedGenerates(base: Files, tag: string)
    requires CleanTree(base) && UPSTREAM_PATH in base
    ensures var flip := F.FlipText(base[UPSTREAM_PATH], tag);
            var after := Generated(base[UPSTREAM_PATH := flip]);
            && after.Ok? && after.value.current == Generated(base).value.current
            && FlippedUpdates(base, flip, after.value, after.value.rollback != Generated(base).value.rollback)
  {
    CleanHasVersions(base);
    TableLiterals();
    hide Render, Rewritten, ResolvedVersions, F.FlipText, ValidRule, WellFormed, Generated, CleanTree, RulesLiteral, DOCUMENT_RULES, RuleLiterals, FlippedUpdates;
    var flip := F.FlipText(base[UPSTREAM_PATH], tag);
    var current, old', new' := VersionsOfFlipped(base, tag);
    forall rule <- DOCUMENT_RULES
      ensures FlippedDocument(base, flip, Render(GitTag, current), Render(GitTag, new'), old' != new', rule)
    {
      TableIsValid(rule);
      ValidRuleLiterals(rule);
      FlippedRewrites(base, tag, current, old', new', rule);
    }
    FlippedDocumentsGenerate(base, flip, Render(GitTag, current), Render(GitTag, new'), old' != new');
  }

  lemma ValidRuleLiterals(rule: DocumentRule)
    requires ValidRule(rule)
    ensures RuleLiterals(rule)
  {
  }

  lemma FlippedDiff(base: Files, flip: Text, g: Generation, moved: bool)
    requires UPSTREAM_PATH in base && flip != base[UPSTREAM_PATH] && FlippedUpdates(base, flip, g, moved)
    ensures DiffPaths(base, base[UPSTREAM_PATH := flip] + g.updates) ==
            {UPSTREAM_PATH} + if moved then ROLLBACK_DOCUMENTS else {}
    ensures g.updates[UPSTREAM_PATH] == flip
  {
    TablePaths();
    RollbackDocuments();
    AllowedPaths();
    var after := base[UPSTREAM_PATH := flip] + g.updates;
    assert UPSTREAM_RULE.path == UPSTREAM_PATH;
    hide FlippedUpdates, DOCUMENT_RULES, UPSTREAM_RULE, ROLLBACK_DOCUMENTS;
    forall path
      ensures path in DiffPaths(base, after) <==> path == UPSTREAM_PATH || (moved && path in ROLLBACK_DOCUMENTS)
    {
      if rule :| rule in DOCUMENT_RULES && rule.path == path {
        UpdateOf(base, flip, g, moved, rule);
      } else {
        NoUpdateOf(base, flip, g, moved, path);
      }
    }
  }

  lemma UpdateOf(base: Files, flip: Text, g: Generation, moved: bool, rule: DocumentRule)
    requires FlippedUpdates(base, flip, g, moved) && rule in DOCUMENT_RULES
    ensures rule.path in base && rule.path in g.updates
    ensures rule.path == UPSTREAM_PATH ==> g.updates[rule.path] == flip
    ensures rule.path != UPSTREAM_PATH ==> (g.updates[rule.path] != base[rule.path] <==> moved && rule.rollbacks > 0)
  {
  }

  lemma NoUpdateOf(base: Files, flip: Text, g: Generation, moved: bool, path: Path)
    requires FlippedUpdates(base, flip, g, moved) && forall rule <- DOCUMENT_RULES :: rule.path != path
    ensures path !in g.updates
  {
  }

  /** On a base tree that passes the update check, publishing one planned row always regenerates.
      UPSTREAM.md keeps exactly the flipped text, the current version stays, the rollback release
      does not get lower, and the changed paths are UPSTREAM.md, plus the four documents with
      rollback commands exactly when the rollback release is another one.  So neither the failing
      update nor the rejection of unexpected paths can be reached. */
  lemma CleanBaseRegenerates(base: Files, tag: string)
    requires CleanTree(base) && UPSTREAM_PATH in base && F.PlannedRows(base[UPSTREAM_PATH], tag) == 1
    ensures var flip := F.FlipText(base[UPSTREAM_PATH], tag);
            var after := Generated(base[UPSTREAM_PATH := flip]);
            && after.Ok? && after.value.current == Generated(base).value.current
            && UPSTREAM_PATH in after.value.updates && after.value.updates[UPSTREAM_PATH] == flip
            && Regenerated(base, tag) == Ok(Regeneration(base[UPSTREAM_PATH := flip] + after.value.updates,
                 {UPSTREAM_PATH} + if after.value.rollback != Generated(base).value.rollback then ROLLBACK_DOCUMENTS else {}))
  {
    assert Generated(base).Ok?;
    hide F.FlipText, F.PlannedRows, FlippedUpdates, CleanTree, Generated, DiffPaths, Regenerated;
    var flip := F.FlipText(base[UPSTREAM_PATH], tag);
    FlippedGenerates(base, tag);
    FlipTextDiffers(base[UPSTREAM_PATH], tag);
    var g := Generated(base[UPSTREAM_PATH := flip]).value;
    var moved := g.rollback != Generated(base).value.rollback;
    FlippedDiff(base, flip, g, moved);
    UpstreamUpdate(base, flip, g, moved);
    AllowedPaths();
    RegeneratedIs(base, tag, g);
  }

  lemma UpstreamUpdate(base: Files, flip: Text, g: Generation, moved: bool)
    requires FlippedUpdates(base, flip, g, moved)
    ensures UPSTREAM_PATH in g.updates
  {
    TablePaths();
    UpdateOf(base, flip, g, moved, UPSTREAM_RULE);
  }

  lemma RegeneratedIs(base: Files, tag: string, g: Generation)
    requires UPSTREAM_PATH in base && F.PlannedRows(base[UPSTREAM_PATH], tag) == 1
    requires Generated(base[UPSTREAM_PATH := F.FlipText(base[UPSTREAM_PATH], tag)]) == Ok(g)
    ensures var after := base[UPSTREAM_PATH := F.FlipText(base[UPSTREAM_PATH], tag)] + g.updates;
            var paths := DiffPaths(base, after);
            UPSTREAM_PATH in paths && paths <= ALLOWED_PATHS ==> Regenerated(base, tag) == Ok(Regeneration(after, paths))
  {
    hide F.FlipText, F.PlannedRows, Generated, DiffPaths;
  }

  /** Clean base or not, a regenerated tree passes the update check. */
  lemma RegeneratedIsClean(base: Files, tag: string)
    requires Regenerated(base, tag).Ok?
    ensures CleanTree(Regenerated(base, tag).value.tree)
  {
    hide Generated, F.ReplacePlannedMapping, DiffPaths;
    var flipped := base[UPSTREAM_PATH := F.ReplacePlannedMapping(base[UPSTREAM_PATH], tag).value];
    UpdateSettles(flipped);
  }

  /** For any base: the regeneration succeeds if and only if one line shows the tag as planned, the documents
      can be generated from the tree with that row published, and writing them changes UPSTREAM.md and at
      most the four documents with rollback commands; the tree is then that tree with these documents, and
      the paths are all that changed. */
  lemma RegeneratedIff(base: Files, tag: string, g: Regeneration)
    ensures Regenerated(base, tag) == Ok(g) <==>
            && UPSTREAM_PATH in base && F.PlannedRows(base[UPSTREAM_PATH], tag) == 1
            && var flipped := base[UPSTREAM_PATH := F.FlipText(base[UPSTREAM_PATH], tag)];
            && Generated(flipped).Ok? && g.tree == flipped + Generated(flipped).value.updates
            && (forall path :: path in g.paths <==> Differs(base, g.tree, path))
            && "UPSTREAM.md" in g.paths
            && forall path <- g.paths ::
                 path == "UPSTREAM.md" || path == "README.md" || path == "README_CN.md" || path == "README_JA.md" || path == "deploy/README.md"
  {
    hide Generated, F.PlannedRows, F.FlipText;
    if UPSTREAM_PATH in base && F.PlannedRows(base[UPSTREAM_PATH], tag) == 1 {
      var flipped := base[UPSTREAM_PATH := F.FlipText(base[UPSTREAM_PATH], tag)];
      if Generated(flipped).Ok? {
        var after := flipped + Generated(flipped).value.updates;
        forall path ensures path in DiffPaths(base, after) <==> Differs(base, after, path) {
          DiffPathsAre(base, after, path);
        }
        hide DiffPaths, Differs;
        FiveAllowed(DiffPaths(base, after));
        if g.tree == after && forall path :: path in g.paths <==> Differs(base, after, path) {
          assert g.paths == DiffPaths(base, after);
        }
      }
    }
  }

  predicate Differs(a: Files, b: Files, path: Path) {
    if path in a then path !in b || a[path] != b[path] else path in b
  }

  lemma DiffPathsAre(a: Files, b: Files, path: Path)
    ensures path in DiffPaths(a, b) <==> Differs(a, b, path)
  {
  }

  lemma FiveAllowed(paths: set<Path>)
    ensures paths <= ALLOWED_PATHS <==> forall path <- paths ::
              path == "UPSTREAM.md" || path == "README.md" || path == "README_CN.md" || path == "README_JA.md" || path == "deploy/README.md"
  {
  }
}
