/**
 Regenerating the release documentation of a working tree: resolving the versions, rewriting every
 document, and writing (or only reporting) what changed.
 */
module ReleaseUpdate {
  import opened Strings
  import opened Wrappers
  import opened Versions
  import opened VersionTokens
  import opened Patterns
  import opened UpstreamTable
  import opened ReleaseDocs
  import opened ReleaseSelection

  // ---------------------------------------------------------------- specification

  /** The content of a file as one string. */
  function Content(text: Text): string {
    if text == [] then "" else if |text| == 1 then text[0] else text[0] + ("\n" + Content(text[1..]))
  }

  /** Lines are joined by line feeds. */
  lemma {:induction false} ContentOfConcat(a: Text, b: Text)
    requires a != [] && b != []
    ensures Content(a + b) == Content(a) + ("\n" + Content(b))
  {
    if |a| == 1 {
      assert (a + b)[1..] == b;
    } else {
      assert (a + b)[1..] == a[1..] + b;
      ContentOfConcat(a[1..], b);
      Associate("\n", Content(a[1..]), "\n" + Content(b));
      Associate(a[0], "\n" + Content(a[1..]), "\n" + Content(b));
    }
  }

  function ResolvedVersions(files: Files): Result<(string, string), Error> {
    if VERSION_PATH !in files then Err(MissingFile(VERSION_PATH)) else
    var current := "v" + Strip(Content(files[VERSION_PATH]));
    if VersionKey(current).None? then Err(UnsupportedVersion) else
    if UPSTREAM_PATH !in files then Err(MissingFile(UPSTREAM_PATH)) else
    var statuses := Statuses(files[UPSTREAM_PATH]);
    if current !in statuses then Err(NoMappingRow) else
    match Selected(StatusTags(files[UPSTREAM_PATH]), statuses, current, DOCUMENT_ROLLBACK_STATUSES)
    case None => Err(NoEarlierRelease)
    case Some(rollback) => Ok((current, rollback))
  }

  /** The versions resolve to a current and a rollback tag exactly when the current one is the trimmed
      VERSION with a row in the table, and the rollback one the greatest published one below it. */
  lemma ResolvedVersionsAre(files: Files, current: string, rollback: string)
    ensures ResolvedVersions(files) == Ok((current, rollback)) <==>
            && VERSION_PATH in files && UPSTREAM_PATH in files
            && current == "v" + Strip(Content(files[VERSION_PATH])) && VersionKey(current).Some?
            && var statuses := Statuses(files[UPSTREAM_PATH]);
            && current in statuses
            && IsPrevious(rollback, statuses.Keys, statuses, VersionKey(current).value, {"published"})
  {
    hide Strip, Content, VersionKey, Statuses, StatusTags, Selected, IsPrevious;
    if VERSION_PATH in files && UPSTREAM_PATH in files && current == "v" + Strip(Content(files[VERSION_PATH])) {
      var statuses, tags := Statuses(files[UPSTREAM_PATH]), StatusTags(files[UPSTREAM_PATH]);
      assert TagSet(tags) == statuses.Keys;
      if VersionKey(current).Some? {
        SelectedIsPrevious(tags, statuses, current, DOCUMENT_ROLLBACK_STATUSES);
        assert Selected(tags, statuses, current, DOCUMENT_ROLLBACK_STATUSES) == Some(rollback) <==>
               IsPrevious(rollback, TagSet(tags), statuses, VersionKey(current).value, DOCUMENT_ROLLBACK_STATUSES);
      }
    }
  }

  /** What each failure of the resolution means. */
  lemma ResolutionFails(files: Files, e: Error)
    ensures ResolvedVersions(files) == Err(e) <==>
            var supported := VERSION_PATH in files && VersionKey("v" + Strip(Content(files[VERSION_PATH]))).Some?;
            match e
            case MissingFile(path) =>
              (path == "backend/cmd/server/VERSION" && path !in files) || (path == "UPSTREAM.md" && supported && path !in files)
            case UnsupportedVersion => VERSION_PATH in files && !supported
            case NoMappingRow =>
              supported && UPSTREAM_PATH in files && "v" + Strip(Content(files[VERSION_PATH])) !in Statuses(files[UPSTREAM_PATH])
            case NoEarlierRelease =>
              && supported && UPSTREAM_PATH in files
              && var current, statuses := "v" + Strip(Content(files[VERSION_PATH])), Statuses(files[UPSTREAM_PATH]);
              current in statuses && forall tag <- statuses :: !Eligible(tag, statuses, VersionKey(current).value, {"published"})
            case WrongCount(_, _, _) => false
  {
    hide Strip, Content, VersionKey, Statuses, StatusTags, Selected, Eligible;
    if VERSION_PATH in files && UPSTREAM_PATH in files && VersionKey("v" + Strip(Content(files[VERSION_PATH]))).Some? {
      var current := "v" + Strip(Content(files[VERSION_PATH]));
      var statuses, tags := Statuses(files[UPSTREAM_PATH]), StatusTags(files[UPSTREAM_PATH]);
      assert TagSet(tags) == statuses.Keys;
      SelectedIsPrevious(tags, statuses, current, DOCUMENT_ROLLBACK_STATUSES);
    }
  }

  predicate RulesLiteral(rules: seq<DocumentRule>) {
    forall rule <- rules :: RuleLiterals(rule)
  }

  function RewrittenFiles(files: Files, rules: seq<DocumentRule>, current: string, rollback: string): Result<Files, Error>
    requires RulesLiteral(rules)
  {
    if rules == [] then Ok(map[]) else
    var rule := rules[|rules| - 1];
    match RewrittenFiles(files, rules[..|rules| - 1], current, rollback)
    case Err(e) => Err(e)
    case Ok(updates) =>
      if rule.path !in files then Err(MissingFile(rule.path)) else
      match Rewritten(rule, files[rule.path], current, rollback)
      case Err(e) => Err(e)
      case Ok(text) => Ok(updates[rule.path := text])
  }

  datatype Generation = Generation(current: string, rollback: string, updates: Files)

  /** What `generate_release_doc_updates` computes. */
  function Generated(files: Files): Result<Generation, Error> {
    TableLiterals();
    match ResolvedVersions(files)
    case Err(e) => Err(e)
    case Ok((current, rollback)) =>
      match RewrittenFiles(files, DOCUMENT_RULES, current, rollback)
      case Err(e) => Err(e)
      case Ok(updates) => Ok(Generation(current, rollback, updates))
  }

  lemma TableLiterals()
    ensures RulesLiteral(DOCUMENT_RULES)
  {
    forall rule <- DOCUMENT_RULES ensures RuleLiterals(rule) {
      TableIsValid(rule);
    }
  }

  /** The rule paths whose file differs from its update, in table order. */
  function Changed(files: Files, updates: Files, rules: seq<DocumentRule>): seq<Path> {
    if rules == [] then [] else
    var before, path := Changed(files, updates, rules[..|rules| - 1]), rules[|rules| - 1].path;
    if path in files && path in updates && files[path] != updates[path] then before + [path] else before
  }

  // ---------------------------------------------------------------- the working tree

  datatype Report = Report(exitCode: int, changed: seq<Path>)

  class Worktree {
    var files: Files

    constructor (files: Files)
      ensures this.files == files
    {
      this.files := files;
    }

    method ResolveDocumentVersions() returns (r: Result<(string, string), Error>)
      ensures r == ResolvedVersions(files)
    {
      if VERSION_PATH !in files {
        return Err(MissingFile(VERSION_PATH));
      }
      var current := "v" + Strip(Content(files[VERSION_PATH]));
      if VersionKey(current).None? {
        return Err(UnsupportedVersion);
      }
      if UPSTREAM_PATH !in files {
        return Err(MissingFile(UPSTREAM_PATH));
      }
      var statuses := Statuses(files[UPSTREAM_PATH]);
      if current !in statuses {
        return Err(NoMappingRow);
      }
      var rollback := SelectPreviousReleaseTag(StatusTags(files[UPSTREAM_PATH]), statuses, current, DOCUMENT_ROLLBACK_STATUSES);
      if rollback.None? {
        return Err(NoEarlierRelease);
      }
      r := Ok((current, rollback.value));
    }

    method RewriteDocuments(rules: seq<DocumentRule>, current: string, rollback: string) returns (r: Result<Files, Error>)
      requires RulesLiteral(rules)
      ensures r == RewrittenFiles(files, rules, current, rollback)
    {
      hide Rewritten, RuleLiterals;
      var updates: Files := map[];
      for i := 0 to |rules|
        invariant Ok(updates) == RewrittenFiles(files, rules[..i], current, rollback)
      {
        assert rules[..i + 1][..i] == rules[..i];
        FailureSticks(files, rules, i + 1, current, rollback);
        var rule := rules[i];
        if rule.path !in files {
          return Err(MissingFile(rule.path));
        }
        var text := RewriteDocument(rule, files[rule.path], current, rollback);
        if text.Err? {
          return Err(text.error);
        }
        updates := updates[rule.path := text.value];
      }
      assert rules[..|rules|] == rules;
      r := Ok(updates);
    }

    method GenerateReleaseDocUpdates() returns (r: Result<Generation, Error>)
      ensures r == Generated(files)
    {
      hide RewrittenFiles;
      TableLiterals();
      var versions := ResolveDocumentVersions();
      if versions.Err? {
        return Err(versions.error);
      }
      var (current, rollback) := versions.value;
      var updates := RewriteDocuments(DOCUMENT_RULES, current, rollback);
      if updates.Err? {
        return Err(updates.error);
      }
      r := Ok(Generation(current, rollback, updates.value));
    }

    method CollectChanged(rules: seq<DocumentRule>, updates: Files) returns (changed: seq<Path>)
      requires forall rule <- rules :: rule.path in files && rule.path in updates
      ensures changed == Changed(files, updates, rules)
    {
      changed := [];
      for i := 0 to |rules|
        invariant changed == Changed(files, updates, rules[..i])
      {
        assert rules[..i + 1][..i] == rules[..i];
        var path := rules[i].path;
        assert rules[i] in rules;
        if files[path] != updates[path] {
          changed := changed + [path];
        }
      }
      assert rules[..|rules|] == rules;
    }

    method WriteChanged(changed: seq<Path>, updates: Files)
      requires forall path <- changed :: path in files && path in updates
      modifies this
      ensures files.Keys == old(files.Keys)
      ensures forall path <- files :: files[path] == if path in changed then updates[path] else old(files)[path]
    {
      ghost var before := files;
      for i := 0 to |changed|
        invariant files.Keys == before.Keys
        invariant forall path <- before :: files[path] == if path in changed[..i] then updates[path] else before[path]
      {
        assert changed[i] in changed;
        assert changed[..i + 1] == changed[..i] + [changed[i]];
        files := files[changed[i] := updates[changed[i]]];
      }
      assert changed[..|changed|] == changed;
    }

    /** `main` of the update tool: with `check` nothing is written and stale documents fail. */
    method Update(check: bool) returns (r: Report)
      modifies this
      ensures match Generated(old(files))
              case Err(_) => r == Report(1, []) && files == old(files)
              case Ok(g) =>
                && r.changed == Changed(old(files), g.updates, DOCUMENT_RULES)
                && r.exitCode == (if check && r.changed != [] then 1 else 0)
                && files == if check then old(files) else old(files) + g.updates
    {
      hide RewrittenFiles, Changed, ResolvedVersions;
      var generation := GenerateReleaseDocUpdates();
      if generation.Err? {
        return Report(1, []);
      }
      var updates := generation.value.updates;
      TableLiterals();
      UpdatedPaths(files, DOCUMENT_RULES, generation.value.current, generation.value.rollback);
      var changed := CollectChanged(DOCUMENT_RULES, updates);
      if check {
        return Report(if changed != [] then 1 else 0, changed);
      }
      ChangedPaths(files, updates, DOCUMENT_RULES);
      WriteChanged(changed, updates);
      assert files == old(files) + updates;
      r := Report(0, changed);
    }
  }

  // ---------------------------------------------------------------- lemmas about generation

  lemma {:induction false} FailureSticks(files: Files, rules: seq<DocumentRule>, k: nat, current: string, rollback: string)
    requires RulesLiteral(rules) && k <= |rules|
    ensures RewrittenFiles(files, rules[..k], current, rollback).Err? ==>
              RewrittenFiles(files, rules, current, rollback) == RewrittenFiles(files, rules[..k], current, rollback)
  {
    if k == |rules| {
      assert rules[..k] == rules;
    } else {
      assert rules[..|rules| - 1][..k] == rules[..k];
      FailureSticks(files, rules[..|rules| - 1], k, current, rollback);
    }
  }

  /** A failing generation is stopped by the first document that is missing or cannot be rewritten. */
  lemma {:induction false} FirstFailingDocument(files: Files, rules: seq<DocumentRule>, current: string, rollback: string) returns (k: nat)
    requires RulesLiteral(rules) && RewrittenFiles(files, rules, current, rollback).Err?
    ensures k < |rules|
    ensures forall j :: 0 <= j < k ==> rules[j].path in files && Rewritten(rules[j], files[rules[j].path], current, rollback).Ok?
    ensures var e := RewrittenFiles(files, rules, current, rollback).error;
            if rules[k].path in files then Rewritten(rules[k], files[rules[k].path], current, rollback) == Err(e)
            else e == MissingFile(rules[k].path)
  {
    hide Rewritten, RuleLiterals;
    var n := |rules| - 1;
    if RewrittenFiles(files, rules[..n], current, rollback).Err? {
      k := FirstFailingDocument(files, rules[..n], current, rollback);
      assert rules[..n][k] == rules[k];
    } else {
      AllRewritten(files, rules[..n], current, rollback);
      k := n;
    }
    assert forall j :: 0 <= j < n ==> rules[..n][j] == rules[j];
  }

  lemma {:induction false} AllRewritten(files: Files, rules: seq<DocumentRule>, current: string, rollback: string)
    requires RulesLiteral(rules) && RewrittenFiles(files, rules, current, rollback).Ok?
    ensures forall j :: 0 <= j < |rules| ==> rules[j].path in files && Rewritten(rules[j], files[rules[j].path], current, rollback).Ok?
  {
    hide Rewritten, RuleLiterals;
    if rules != [] {
      AllRewritten(files, rules[..|rules| - 1], current, rollback);
    }
  }

  ghost predicate DistinctPaths(rules: seq<DocumentRule>) {
    forall i, j :: 0 <= i < j < |rules| ==> rules[i].path != rules[j].path
  }

  /** A generation succeeds exactly when every document exists and can be rewritten; it then holds
      the rewrite of every document and nothing else. */
  lemma {:induction false} RewrittenFilesHold(files: Files, rules: seq<DocumentRule>, current: string, rollback: string)
    requires RulesLiteral(rules) && DistinctPaths(rules)
    ensures var r := RewrittenFiles(files, rules, current, rollback);
            && (r.Ok? <==> forall rule <- rules ::
                             rule.path in files && Rewritten(rule, files[rule.path], current, rollback).Ok?)
            && (r.Ok? ==> && r.value.Keys == set rule | rule in rules :: rule.path)
            && (r.Ok? ==> forall rule <- rules ::
                            rule.path in r.value && Ok(r.value[rule.path]) == Rewritten(rule, files[rule.path], current, rollback))
  {
    hide Rewritten, RuleLiterals;
    if rules == [] {
    } else {
      var n := |rules| - 1;
      RewrittenFilesHold(files, rules[..n], current, rollback);
      assert rules == rules[..n] + [rules[n]];
    }
  }

  lemma UpdatedPaths(files: Files, rules: seq<DocumentRule>, current: string, rollback: string)
    requires RulesLiteral(rules) && RewrittenFiles(files, rules, current, rollback).Ok?
    ensures forall rule <- rules :: rule.path in files && rule.path in RewrittenFiles(files, rules, current, rollback).value
    ensures forall path <- RewrittenFiles(files, rules, current, rollback).value :: exists rule <- rules :: rule.path == path
  {
    hide Rewritten, RuleLiterals;
    if rules != [] {
      var n := |rules| - 1;
      UpdatedPaths(files, rules[..n], current, rollback);
      assert rules == rules[..n] + [rules[n]];
    }
  }

  lemma {:induction false} ChangedPaths(files: Files, updates: Files, rules: seq<DocumentRule>)
    ensures forall path :: path in Changed(files, updates, rules) <==>
              (exists rule <- rules :: rule.path == path) && path in files && path in updates && files[path] != updates[path]
  {
    if rules != [] {
      var n := |rules| - 1;
      ChangedPaths(files, updates, rules[..n]);
      assert rules == rules[..n] + [rules[n]];
    }
  }

  // ---------------------------------------------------------------- an update settles the tree

  lemma CommandsAreRowSafe()
    ensures RowSafe(INSTALL) && RowSafe(ROLLBACK)
  {
  }

  lemma MappingsAreRowSafe()
    ensures RowSafe(GIT_TAG_MAPPING) && RowSafe(APPLICATION_MAPPING)
  {
  }

  lemma ImageIsRowSafe()
    ensures RowSafe(GHCR_IMAGE)
  {
  }

  lemma UpstreamIsRowSafe()
    ensures RowSafe(INSTALL) && RowSafe(ROLLBACK)
    ensures RowSafe(GIT_TAG_MAPPING) && RowSafe(APPLICATION_MAPPING) && RowSafe(GHCR_IMAGE)
  {
    hide RowSafe;
    CommandsAreRowSafe();
    MappingsAreRowSafe();
    ImageIsRowSafe();
  }

  ghost predicate SameRows(a: Text, b: Text) {
    |a| == |b| && forall i :: 0 <= i < |a| ==> LooseRow(a[i]) == LooseRow(b[i])
  }

  lemma {:induction false} ReplaceAllKeepsRows(path: Path, text: Text, rs: seq<Replacement>)
    requires Literals(rs)
    requires forall r <- rs :: RowSafeReplacement(r)
    ensures ReplaceAll(path, text, rs).Ok? ==> SameRows(ReplaceAll(path, text, rs).value, text)
  {
    hide RowSafe, NoBar, LooseRow, Subn, CountText;
    if rs != [] && ReplaceAll(path, text, rs).Ok? {
      var n := |rs| - 1;
      ReplaceAllKeepsRows(path, text, rs[..n]);
      var before, r := ReplaceAll(path, text, rs[..n]).value, rs[n];
      forall i | 0 <= i < |text| ensures LooseRow(SubnText(r.pattern, r.value, before)[i]) == LooseRow(text[i]) {
        assert RowSafeReplacement(r);
        RowSurvives(r.pattern, r.value, before[i]);
      }
    }
  }

  lemma VersionHasNoBar(kind: Kind, p: Parts)
    requires WellFormed(p)
    ensures NoBar(Render(kind, p))
  {
    VersionChars(kind, p);
  }

  lemma {:induction false} RowsDecideStatuses(a: Text, b: Text)
    requires SameRows(a, b)
    ensures Statuses(a) == Statuses(b) && StatusTags(a) == StatusTags(b)
  {
    hide LooseRow;
    if a != [] {
      RowsDecideStatuses(a[..|a| - 1], b[..|b| - 1]);
    }
  }

  ghost predicate RowSafeReplacement(r: Replacement) {
    RowSafe(r.pattern) && NoBar(r.value)
  }

  lemma UpstreamReplacements(current: Parts, rollback: Parts)
    requires WellFormed(current) && WellFormed(rollback)
    ensures forall r <- Replacements(UPSTREAM_RULE, Render(GitTag, current), Render(GitTag, rollback)) :: RowSafeReplacement(r)
  {
    UpstreamIsRowSafe();
    hide RowSafe, Render, NoBar;
    DerivedNames(current);
    forall k: Kind ensures NoBar(Render(k, current)) && NoBar(Render(k, rollback)) {
      VersionHasNoBar(k, current);
      VersionHasNoBar(k, rollback);
    }
    var rs := Replacements(UPSTREAM_RULE, Render(GitTag, current), Render(GitTag, rollback));
    assert rs == [rs[0], rs[1], rs[2], rs[3], rs[4]];
    assert RowSafeReplacement(rs[0]) && RowSafeReplacement(rs[1]);
    assert RowSafeReplacement(rs[2]) && RowSafeReplacement(rs[3]) && RowSafeReplacement(rs[4]);
  }

  /** Rewriting UPSTREAM.md does not change the statuses the versions are chosen from. */
  lemma RewriteKeepsStatuses(text: Text, current: Parts, rollback: Parts)
    requires WellFormed(current) && WellFormed(rollback) && RuleLiterals(UPSTREAM_RULE)
    ensures var r := Rewritten(UPSTREAM_RULE, text, Render(GitTag, current), Render(GitTag, rollback));
            r.Ok? ==> SameRows(r.value, text) && Statuses(r.value) == Statuses(text) && StatusTags(r.value) == StatusTags(text)
  {
    hide RowSafe, NoBar, Render, ReplaceAll, Replacements, Statuses, StatusTags, RowSafeReplacement;
    var rs := Replacements(UPSTREAM_RULE, Render(GitTag, current), Render(GitTag, rollback));
    UpstreamReplacements(current, rollback);
    ReplaceAllKeepsRows(UPSTREAM_PATH, text, rs);
    var r := ReplaceAll(UPSTREAM_PATH, text, rs);
    if r.Ok? {
      RowsDecideStatuses(r.value, text);
    }
  }

  lemma TablePaths()
    ensures DistinctPaths(DOCUMENT_RULES)
    ensures forall rule <- DOCUMENT_RULES :: rule.path != VERSION_PATH
    ensures UPSTREAM_RULE in DOCUMENT_RULES
    ensures forall rule <- DOCUMENT_RULES :: rule.path == UPSTREAM_PATH ==> rule == UPSTREAM_RULE
  {
    assert UPSTREAM_RULE == DOCUMENT_RULES[7];
  }

  lemma KeyedTag(tag: string) returns (p: Parts)
    requires VersionKey(tag).Some?
    ensures WellFormed(p) && tag == Render(GitTag, p)
  {
    p := ParseAll(GitTag, tag).value;
    ParseAllIffRendered(GitTag, tag, p);
  }

  lemma ResolvedParts(files: Files) returns (current: Parts, rollback: Parts)
    requires ResolvedVersions(files).Ok?
    ensures WellFormed(current) && WellFormed(rollback)
    ensures ResolvedVersions(files) == Ok((Render(GitTag, current), Render(GitTag, rollback)))
  {
    var (c, r) := ResolvedVersions(files).value;
    var text := files[UPSTREAM_PATH];
    SelectedIsPrevious(StatusTags(text), Statuses(text), c, DOCUMENT_ROLLBACK_STATUSES);
    assert IsPrevious(r, TagSet(StatusTags(text)), Statuses(text), VersionKey(c).value, DOCUMENT_ROLLBACK_STATUSES);
    current := KeyedTag(c);
    rollback := KeyedTag(r);
  }

  lemma RewrittenAgain(files: Files, updates: Files, current: Parts, rollback: Parts)
    requires WellFormed(current) && WellFormed(rollback)
    requires RulesLiteral(DOCUMENT_RULES)
    requires RewrittenFiles(files, DOCUMENT_RULES, Render(GitTag, current), Render(GitTag, rollback)) == Ok(updates)
    ensures RewrittenFiles(files + updates, DOCUMENT_RULES, Render(GitTag, current), Render(GitTag, rollback)) == Ok(updates)
  {
    hide Render, Rewritten, RuleLiterals, RewrittenFiles;
    var c, r := Render(GitTag, current), Render(GitTag, rollback);
    var after := files + updates;
    TablePaths();
    RewrittenFilesHold(files, DOCUMENT_RULES, c, r);
    RewrittenFilesHold(after, DOCUMENT_RULES, c, r);
    forall rule <- DOCUMENT_RULES ensures Rewritten(rule, after[rule.path], c, r) == Ok(updates[rule.path]) {
      TableIsValid(rule);
      RewriteIdempotent(rule, files[rule.path], current, rollback);
    }
    var again := RewrittenFiles(after, DOCUMENT_RULES, c, r).value;
    assert again == updates;
  }

  lemma GeneratedIs(files: Files, c: string, r: string)
    requires RulesLiteral(DOCUMENT_RULES) && ResolvedVersions(files) == Ok((c, r))
    ensures var rewritten := RewrittenFiles(files, DOCUMENT_RULES, c, r);
            Generated(files) == if rewritten.Ok? then Ok(Generation(c, r, rewritten.value)) else Err(rewritten.error)
  {
    hide ResolvedVersions, RewrittenFiles, RulesLiteral;
  }

  lemma UpstreamUpdate(files: Files, updates: Files, c: string, r: string)
    requires RulesLiteral(DOCUMENT_RULES) && RewrittenFiles(files, DOCUMENT_RULES, c, r) == Ok(updates)
    ensures RuleLiterals(UPSTREAM_RULE) && VERSION_PATH !in updates
    ensures UPSTREAM_PATH in files && UPSTREAM_PATH in updates
    ensures Rewritten(UPSTREAM_RULE, files[UPSTREAM_PATH], c, r) == Ok(updates[UPSTREAM_PATH])
  {
    TablePaths();
    assert UPSTREAM_RULE.path == UPSTREAM_PATH;
    hide Rewritten, RuleLiterals, RewrittenFiles, DOCUMENT_RULES, UPSTREAM_RULE;
    RewrittenFilesHold(files, DOCUMENT_RULES, c, r);
  }

  /** Writing the updates changes neither VERSION nor the rows that select the versions. */
  lemma UpdatesKeepVersions(files: Files, updates: Files, current: Parts, rollback: Parts)
    requires WellFormed(current) && WellFormed(rollback) && RulesLiteral(DOCUMENT_RULES)
    requires ResolvedVersions(files).Ok?
    requires RewrittenFiles(files, DOCUMENT_RULES, Render(GitTag, current), Render(GitTag, rollback)) == Ok(updates)
    ensures ResolvedVersions(files + updates) == ResolvedVersions(files)
  {
    hide Render, Rewritten, ResolvedVersions, Statuses, StatusTags, RulesLiteral, RuleLiterals, RewrittenFiles, WellFormed, SameRows;
    UpstreamUpdate(files, updates, Render(GitTag, current), Render(GitTag, rollback));
    ResolvedPaths(files);
    RewriteKeepsStatuses(files[UPSTREAM_PATH], current, rollback);
    VersionsKept(files, files + updates);
  }

  /** A successful update leaves nothing to update: generating again from the written tree gives
      the same versions and the same documents, all of which are already there. */
  lemma UpdateSettles(files: Files)
    requires Generated(files).Ok?
    ensures Generated(files + Generated(files).value.updates) == Generated(files)
  {
    TableLiterals();
    assert ResolvedVersions(files).Ok?;
    hide Render, ResolvedVersions, RulesLiteral, RewrittenFiles, WellFormed, Generated;
    var current, rollback := ResolvedParts(files);
    var c, r := Render(GitTag, current), Render(GitTag, rollback);
    GeneratedIs(files, c, r);
    var updates := Generated(files).value.updates;
    RewrittenAgain(files, updates, current, rollback);
    UpdatesKeepVersions(files, updates, current, rollback);
    GeneratedIs(files + updates, c, r);
  }

  lemma ResolvedPaths(files: Files)
    requires ResolvedVersions(files).Ok?
    ensures VERSION_PATH in files && UPSTREAM_PATH in files
  {
  }

  lemma VersionsKept(files: Files, after: Files)
    requires ResolvedVersions(files).Ok? && VERSION_PATH in after && UPSTREAM_PATH in after
    requires after[VERSION_PATH] == files[VERSION_PATH]
    requires Statuses(after[UPSTREAM_PATH]) == Statuses(files[UPSTREAM_PATH])
    requires StatusTags(after[UPSTREAM_PATH]) == StatusTags(files[UPSTREAM_PATH])
    ensures ResolvedVersions(after) == ResolvedVersions(files)
  {
  }

  /** Nothing is stale in a tree exactly when every document already equals its rewrite. */
  lemma {:induction false} NothingChanged(files: Files, updates: Files, rules: seq<DocumentRule>)
    ensures Changed(files, updates, rules) == [] <==>
            forall rule <- rules :: rule.path in files && rule.path in updates ==> files[rule.path] == updates[rule.path]
  {
    ChangedPaths(files, updates, rules);
    if Changed(files, updates, rules) != [] {
      assert Changed(files, updates, rules)[0] in Changed(files, updates, rules);
    }
  }

  /** The check passes right after an update, and the update can be repeated without effect. */
  method UpdateThenCheck(tree: Worktree) returns (first: Report, second: Report)
    modifies tree
    ensures first.exitCode == 0 ==> second == Report(0, []) && Generated(tree.files) == Generated(old(tree.files))
  {
    first := tree.Update(false);
    ghost var written := tree.files;
    ghost var g := Generated(old(tree.files));
    if first.exitCode == 0 {
      UpdateSettles(old(tree.files));
      NothingChanged(written, g.value.updates, DOCUMENT_RULES);
    }
    second := tree.Update(true);
  }
}
