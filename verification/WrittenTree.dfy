/**
 A working tree written from three versions: a current, a rollback and a planned release.  It passes
 the update check and has one planned row, so what is proved about finalizing such trees is not about
 nothing.
 */
module WrittenTree {
  import opened Strings
  import opened Wrappers
  import opened Versions
  import opened VersionTokens
  import opened Patterns
  import opened UpstreamTable
  import opened ReleaseDocs
  import opened ReleaseSelection
  import opened ReleaseUpdate
  import LT = LineTokens
  import F = Finalization
  import R = Regeneration
  import G = FinalizationGate

  // ---------------------------------------------------------------- a line for one expression

  function TextBefore(p: Pattern): string {
    p.literal + if p.gap then " " else ""
  }

  function TextAfter(p: Pattern): string {
    match p.tail
    case Literal(text) => text
    case BlankToEnd => ""
    case BackslashToEnd => " \\"
  }

  function WrittenTokens(p: Pattern, parts: Parts): seq<Token> {
    Plains(TextBefore(p)) + ([Version(p.kind, parts)] + Plains(TextAfter(p)))
  }

  function WrittenLine(p: Pattern, parts: Parts): string {
    RenderTokens(WrittenTokens(p, parts))
  }

  lemma HeadOfVersion(s: string)
    ensures ParseAny(s).Some? ==> |s| >= 2 && (s[0] == 'v' || IsDigit(s[0])) && (s[1] == '.' || IsDigit(s[1]))
  {
    hide ParseAny, Render;
    ParseAnyRenders(s);
    if ParseAny(s).Some? {
      var (kind, p, after) := ParseAny(s).value;
      VersionChars(kind, p);
    }
  }

  lemma NoVersionHere(x: string, rest: string)
    requires x != "" && NoStart(x)
    ensures ParseAny(x + rest).None?
  {
    hide ParseAny;
    HeadOfVersion(x + rest);
    assert (x + rest)[0] == x[0] && (|x| > 1 ==> (x + rest)[1] == x[1]);
  }

  lemma {:induction false} PlainsGood(boundary: bool, x: string, rest: seq<Token>)
    requires NoStart(x) && Good(if x == "" then boundary else !IsVersionChar(x[|x| - 1]), rest)
    ensures Good(boundary, Plains(x) + rest)
    ensures RenderTokens(Plains(x) + rest) == x + RenderTokens(rest)
    decreases |x|
  {
    hide ParseAny, NoStart;
    if x == "" {
      assert Plains(x) + rest == rest;
    } else {
      var ts := Plains(x) + rest;
      assert ts[0] == Plain(x[0]) && ts[1..] == Plains(x[1..]) + rest;
      NoStartRest(x);
      PlainsGood(!IsVersionChar(x[0]), x[1..], rest);
      NoVersionHere(x, RenderTokens(rest));
      assert x == [x[0]] + x[1..];
      Associate([x[0]], x[1..], RenderTokens(rest));
    }
  }

  lemma NoStartRest(x: string)
    requires x != "" && NoStart(x)
    ensures NoStart(x[1..])
  {
  }

  /** The line is read as its tokens. */
  lemma WrittenIsRead(p: Pattern, parts: Parts)
    requires WellBuilt(p) && WellFormed(parts)
    ensures Tokens(WrittenLine(p, parts)) == WrittenTokens(p, parts)
  {
    hide Good, RenderTokens, ParseAny;
    var before, after := TextBefore(p), TextAfter(p);
    assert NoStart(before) && NoStart(after);
    assert !IsVersionChar(before[|before| - 1]);
    assert Good(if after == "" then false else !IsVersionChar(after[|after| - 1]), []) by { NothingIsGood(); }
    PlainsGood(false, after, []);
    assert Plains(after) + [] == Plains(after);
    VersionGood(p.kind, parts, Plains(after));
    PlainsGood(true, before, [Version(p.kind, parts)] + Plains(after));
    GoodTokenizes(true, WrittenTokens(p, parts));
  }

  lemma NothingIsGood()
    ensures forall boundary :: Good(boundary, [])
  {
  }

  lemma VersionGood(kind: Kind, parts: Parts, rest: seq<Token>)
    requires WellFormed(parts) && Good(false, rest)
    ensures Good(true, [Version(kind, parts)] + rest)
  {
    assert ([Version(kind, parts)] + rest)[1..] == rest;
  }

  /** Only the version can be marked. */
  lemma OnlyTheVersion(q: Pattern, p: Pattern, parts: Parts)
    ensures var marks := LT.LineMarks(q, WrittenTokens(p, parts));
            && |TextBefore(p)| < |marks|
            && (forall i :: 0 <= i < |marks| && marks[i] ==> i == |TextBefore(p)|)
            && (marks[|TextBefore(p)|] ==> q.kind == p.kind)
  {
    hide Marks;
  }

  lemma {:induction false} PlainSpaces(x: string, rest: seq<Token>)
    requires (forall i :: 0 <= i < |x| ==> IsSpace(x[i])) && (rest == [] || rest[0].Version? || !IsSpace(rest[0].c))
    ensures TokenSpaceRun(Plains(x) + rest) == |x|
  {
    var ts := Plains(x) + rest;
    if x == "" {
      assert ts == rest;
    } else {
      assert ts[0] == Plain(x[0]) && ts[1..] == Plains(x[1..]) + rest;
      PlainSpaces(x[1..], rest);
    }
  }

  lemma OwnTail(p: Pattern)
    ensures TokenTail(p.tail, Plains(TextAfter(p))) == Some(|TextAfter(p)|)
  {
    match p.tail {
      case Literal(_) =>
      case BlankToEnd =>
      case BackslashToEnd =>
        assert Plains(" \\") == Plains(" ") + [Plain('\\')];
        PlainSpaces(" ", [Plain('\\')]);
        assert Plains(" \\")[1..] == [Plain('\\')];
    }
  }

  lemma OwnFront(p: Pattern, parts: Parts)
    ensures TokenFront(p, true, WrittenTokens(p, parts)) == Some(|TextBefore(p)|)
  {
    var n, ts := |p.literal|, WrittenTokens(p, parts);
    var rest := [Version(p.kind, parts)] + Plains(TextAfter(p));
    assert ts[..n] == Plains(p.literal);
    if p.gap {
      assert ts[n..] == Plains(" ") + rest;
      PlainSpaces(" ", rest);
    }
  }

  /** The expression the line is written for marks it. */
  lemma OwnMark(p: Pattern, parts: Parts)
    requires p.literal != ""
    ensures LT.LineMarks(p, WrittenTokens(p, parts))[|TextBefore(p)|]
  {
    var ts, at := WrittenTokens(p, parts), |TextBefore(p)|;
    hide Marks, Falses, TokenFront, TokenTail, TextBefore, TextAfter;
    OwnFront(p, parts);
    OwnTail(p);
    assert ts[at] == Version(p.kind, parts) && ts[at + 1..] == Plains(TextAfter(p));
    var m := TokenMatch(at, |TextAfter(p)|);
    assert TokenMatchAt(p, true, ts) == Some(m);
    MarksHead(p, true, ts, m);
  }

  lemma {:induction false} CountOnly(marks: seq<bool>, at: nat)
    requires at < |marks| && forall i :: 0 <= i < |marks| && marks[i] ==> i == at
    ensures Count(marks) == if marks[at] then 1 else 0
  {
    if at > 0 {
      CountOnly(marks[1..], at - 1);
    } else {
      R.CountZero(marks[1..]);
    }
  }

  /** No version can be marked by both expressions. */
  predicate Separate(p: Pattern, q: Pattern) {
    p.kind != q.kind || LT.Exclusive(p, q)
  }

  /** A line holds its own expression once and no separate one. */
  lemma LineHolds(q: Pattern, p: Pattern, parts: Parts)
    requires WellBuilt(p) && WellBuilt(q) && WellFormed(parts) && (p == q || Separate(p, q))
    ensures var marks := LT.LineMarks(q, Tokens(WrittenLine(p, parts)));
            && Count(marks) == (if p == q then 1 else 0)
            && (p != q ==> forall i :: 0 <= i < |marks| ==> !marks[i])
  {
    hide LT.LineMarks, LT.Exclusive, WellBuilt, WrittenTokens, WrittenLine, TextBefore;
    WrittenIsRead(p, parts);
    OnlyTheVersion(q, p, parts);
    var marks, at := LT.LineMarks(q, WrittenTokens(p, parts)), |TextBefore(p)|;
    CountOnly(marks, at);
    LiteralIsLong(p);
    OwnMark(p, parts);
    if p != q && marks[at] {
      LT.ExclusiveMarks(p, q, WrittenTokens(p, parts), at);
    }
  }

  lemma LiteralIsLong(p: Pattern)
    requires WellBuilt(p)
    ensures |p.literal| >= 3
  {
  }

  // ---------------------------------------------------------------- a text for several expressions

  function Repeated(line: string, n: nat): (r: Text)
    ensures |r| == n && forall i :: 0 <= i < n ==> r[i] == line
  {
    seq(n, _ => line)
  }

  function WrittenText(passes: seq<LT.Pass>, counts: seq<nat>): Text
    requires |passes| == |counts|
  {
    if passes == [] then [] else
    var n := |passes| - 1;
    WrittenText(passes[..n], counts[..n]) + Repeated(WrittenLine(passes[n].pattern, passes[n].parts), counts[n])
  }

  predicate AllSeparate(passes: seq<LT.Pass>) {
    forall i, j :: 0 <= i < j < |passes| ==> Separate(passes[i].pattern, passes[j].pattern)
  }

  lemma {:induction false} OccurrencesConcat(q: Pattern, a: Text, b: Text)
    ensures Occurrences(q, a + b) == Occurrences(q, a) + Occurrences(q, b)
  {
    hide Tokenize, LT.LineMarks;
    if a == [] {
      assert a + b == b;
    } else {
      assert (a + b)[1..] == a[1..] + b;
      OccurrencesConcat(q, a[1..], b);
    }
  }

  lemma {:induction false} OccurrencesRepeated(q: Pattern, line: string, n: nat)
    requires Count(LT.LineMarks(q, Tokens(line))) <= 1
    ensures Occurrences(q, Repeated(line, n)) == if Count(LT.LineMarks(q, Tokens(line))) == 1 then n else 0
  {
    hide Tokenize, LT.LineMarks, Count;
    if n > 0 {
      assert Repeated(line, n)[1..] == Repeated(line, n - 1);
      OccurrencesRepeated(q, line, n - 1);
    }
  }

  lemma SeparateSymmetric(p: Pattern, q: Pattern)
    ensures Separate(p, q) <==> Separate(q, p)
  {
  }

  /** What `q` finds in the last lines, and before them if it is what they are written for. */
  lemma LastLines(passes: seq<LT.Pass>, counts: seq<nat>, q: Pattern)
    requires 0 < |passes| == |counts| && LT.ValidPass(passes[|passes| - 1]) && WellBuilt(q)
    requires var p := passes[|passes| - 1].pattern; p == q || Separate(p, q)
    ensures var n := |passes| - 1;
            Occurrences(q, WrittenText(passes, counts)) ==
            Occurrences(q, WrittenText(passes[..n], counts[..n])) + if passes[n].pattern == q then counts[n] else 0
  {
    hide Separate, WellBuilt, Occurrences, WrittenLine, LT.LineMarks, Tokenize;
    var n := |passes| - 1;
    var p, parts := passes[n].pattern, passes[n].parts;
    OccurrencesConcat(q, WrittenText(passes[..n], counts[..n]), Repeated(WrittenLine(p, parts), counts[n]));
    LineHolds(q, p, parts);
    OccurrencesRepeated(q, WrittenLine(p, parts), counts[n]);
  }

  lemma {:induction false} NotWritten(passes: seq<LT.Pass>, counts: seq<nat>, q: Pattern)
    requires |passes| == |counts| && LT.ValidPasses(passes) && WellBuilt(q)
    requires forall i :: 0 <= i < |passes| ==> passes[i].pattern != q && Separate(passes[i].pattern, q)
    ensures Occurrences(q, WrittenText(passes, counts)) == 0
  {
    hide Separate, WellBuilt, LT.ValidPass;
    if passes != [] {
      LastLines(passes, counts, q);
      NotWritten(passes[..|passes| - 1], counts[..|passes| - 1], q);
    }
  }

  /** Every expression occurs as often as it was written. */
  lemma {:induction false} WrittenCounts(passes: seq<LT.Pass>, counts: seq<nat>, k: nat)
    requires k < |passes| == |counts| && LT.ValidPasses(passes) && AllSeparate(passes)
    ensures Occurrences(passes[k].pattern, WrittenText(passes, counts)) == counts[k]
  {
    hide WellBuilt, Occurrences, WrittenText, Separate;
    var n, q := |passes| - 1, passes[k].pattern;
    assert LT.ValidPass(passes[k]) && LT.ValidPass(passes[n]);
    OwnIsNotSeparate(q);
    forall i | 0 <= i < |passes| && i != k ensures Separate(passes[i].pattern, q) {
      SeparateSymmetric(passes[i].pattern, q);
    }
    LastLines(passes, counts, q);
    if k < n {
      WrittenCounts(passes[..n], counts[..n], k);
    } else {
      NotWritten(passes[..n], counts[..n], q);
    }
  }

  /** No pass changes a line that was written with the versions of the passes. */
  lemma WrittenIsSettled(passes: seq<LT.Pass>, k: nat)
    requires k < |passes| && LT.ValidPasses(passes) && AllSeparate(passes)
    ensures LT.Settled(passes, Tokens(WrittenLine(passes[k].pattern, passes[k].parts)))
  {
    hide Separate, WellBuilt, LT.LineMarks, LT.RunPass, WrittenTokens, TextBefore, WrittenLine, LT.Written;
    var p, parts := passes[k].pattern, passes[k].parts;
    assert LT.ValidPass(passes[k]);
    var ts := Tokens(WrittenLine(p, parts));
    WrittenIsRead(p, parts);
    forall j | 0 <= j < |passes| ensures LT.RunPass(passes[j], ts) == ts {
      LT.SettledIffWritten(passes[j], ts);
      if j == k {
        OwnIsWritten(p, parts);
      } else {
        assert LT.ValidPass(passes[j]);
        SeparateSymmetric(p, passes[j].pattern);
        if passes[j].pattern == p {
          OwnIsNotSeparate(p);
        }
        LineHolds(passes[j].pattern, p, parts);
        UnmarkedIsWritten(passes[j], ts);
      }
    }
  }

  lemma OwnIsWritten(p: Pattern, parts: Parts)
    ensures LT.Written(LT.Pass(p, parts), LT.LineMarks(p, WrittenTokens(p, parts)), WrittenTokens(p, parts))
  {
    hide LT.LineMarks;
    OnlyTheVersion(p, p, parts);
  }

  lemma UnmarkedIsWritten(a: LT.Pass, ts: seq<Token>)
    requires forall i :: 0 <= i < |LT.LineMarks(a.pattern, ts)| ==> !LT.LineMarks(a.pattern, ts)[i]
    ensures LT.Written(a, LT.LineMarks(a.pattern, ts), ts)
  {
  }

  lemma OwnIsNotSeparate(p: Pattern)
    ensures !Separate(p, p)
  {
  }

  lemma {:induction false} WrittenTextIsSettled(passes: seq<LT.Pass>, k: nat, counts: seq<nat>)
    requires k <= |passes| == |counts| && LT.ValidPasses(passes) && AllSeparate(passes)
    ensures R.SettledText(passes, WrittenText(passes[..k], counts[..k]))
  {
    hide AllSeparate, LT.Settled, WrittenLine, LT.ValidPass;
    if k > 0 {
      WrittenTextIsSettled(passes, k - 1, counts);
      WrittenIsSettled(passes, k - 1);
      assert passes[..k][..k - 1] == passes[..k - 1] && counts[..k][..k - 1] == counts[..k - 1];
    }
  }

  lemma SettledIsUnchanged(passes: seq<LT.Pass>, text: Text)
    requires R.SettledText(passes, text)
    ensures RunText(passes, text) == text
  {
    hide LT.Settled, LT.RunPasses, Tokenize;
    forall i | 0 <= i < |text| ensures RunText(passes, text)[i] == text[i] {
      LT.SettledStays(passes, Tokens(text[i]));
      R.TokensPrint(text[i]);
    }
  }

  // ---------------------------------------------------------------- a document

  function Counts(rule: DocumentRule): (counts: seq<nat>)
    ensures |counts| == 2 + |rule.currentValues|
  {
    [rule.installs, rule.rollbacks] +
    seq(|rule.currentValues|, k requires 0 <= k < |rule.currentValues| => rule.currentValues[k].expected)
  }

  /** A line that no pass of the rule looks at. */
  predicate Foreign(rule: DocumentRule, line: string) {
    && '\'' !in line
    && forall k :: 0 <= k < |rule.currentValues| && rule.currentValues[k].pattern.literal != "" ==>
         var literal := rule.currentValues[k].pattern.literal;
         literal[|literal| - 1] !in line
  }

  lemma ForeignLine(a: LT.Pass, line: string)
    requires LT.ValidPass(a) && a.pattern.literal != "" && a.pattern.literal[|a.pattern.literal| - 1] !in line
    ensures Count(LT.LineMarks(a.pattern, Tokens(line))) == 0 && LT.RunPass(a, Tokens(line)) == Tokens(line)
  {
    hide LT.LineMarks, LT.RunPass, WellBuilt, Render, Tokenize, LT.Written;
    UnmatchedIsUnchanged(a.pattern, Render(a.pattern.kind, a.parts), true, line);
    LineSubn(a, line);
    R.CountZero(LT.LineMarks(a.pattern, Tokens(line)));
    UnmarkedIsWritten(a, Tokens(line));
    LT.SettledIffWritten(a, Tokens(line));
  }

  lemma {:induction false} ForeignLines(rule: DocumentRule, current: Parts, rollback: Parts, rows: Text, q: Pattern)
    requires ValidRule(rule) && WellFormed(current) && WellFormed(rollback)
    requires forall row <- rows :: Foreign(rule, row)
    requires exists k :: 0 <= k < 2 + |rule.currentValues| && PassesOf(rule, current, rollback)[k].pattern == q
    ensures Occurrences(q, rows) == 0
    ensures R.SettledText(PassesOf(rule, current, rollback), rows)
  {
    hide LT.LineMarks, LT.RunPass, WellBuilt, Tokenize, Foreign, PassesOf, ValidRule;
    var passes := PassesOf(rule, current, rollback);
    PassesAreValid(rule, current, rollback);
    if rows != [] {
      var row := rows[0];
      assert row in rows;
      forall k | 0 <= k < |passes|
        ensures Count(LT.LineMarks(passes[k].pattern, Tokens(row))) == 0 && LT.RunPass(passes[k], Tokens(row)) == Tokens(row)
      {
        ForeignToPass(rule, current, rollback, row, k);
        ForeignLine(passes[k], row);
      }
      ForeignLines(rule, current, rollback, rows[1..], q);
      forall i | 0 <= i < |rows| ensures LT.Settled(passes, Tokens(rows[i])) {
        assert i > 0 ==> rows[i] == rows[1..][i - 1];
      }
    }
  }

  lemma ForeignToPass(rule: DocumentRule, current: Parts, rollback: Parts, line: string, k: nat)
    requires ValidRule(rule) && Foreign(rule, line) && k < 2 + |rule.currentValues|
    ensures var literal := PassesOf(rule, current, rollback)[k].pattern.literal;
            literal != "" && literal[|literal| - 1] !in line
  {
    assert INSTALL.literal[|INSTALL.literal| - 1] == '\'' && ROLLBACK.literal[|ROLLBACK.literal| - 1] == '\'';
  }

  /** Rows that concern no pass, and the lines the rule asks for. */
  function DocumentText(rule: DocumentRule, current: Parts, rollback: Parts, rows: Text): Text {
    rows + WrittenText(PassesOf(rule, current, rollback), Counts(rule))
  }

  /** Such a document is its own rewrite. */
  lemma DocumentIsRewritten(rule: DocumentRule, current: Parts, rollback: Parts, rows: Text)
    requires ValidRule(rule) && WellFormed(current) && WellFormed(rollback)
    requires AllSeparate(PassesOf(rule, current, rollback)) && forall row <- rows :: Foreign(rule, row)
    ensures Rewritten(rule, DocumentText(rule, current, rollback, rows), Render(GitTag, current), Render(GitTag, rollback)) ==
            Ok(DocumentText(rule, current, rollback, rows))
  {
    var text := DocumentText(rule, current, rollback, rows);
    hide *;
    RewriteRuns(rule, text, current, rollback);
    forall k: nat | k < 2 + |rule.currentValues|
      ensures Occurrences(PassesOf(rule, current, rollback)[k].pattern, text) == Counts(rule)[k]
    {
      DocumentCounts(rule, current, rollback, rows, k);
    }
    CountedIs(rule, current, rollback, text);
    DocumentIsSettled(rule, current, rollback, rows);
    SettledIsUnchanged(PassesOf(rule, current, rollback), text);
  }

  lemma DocumentIsSettled(rule: DocumentRule, current: Parts, rollback: Parts, rows: Text)
    requires ValidRule(rule) && WellFormed(current) && WellFormed(rollback)
    requires AllSeparate(PassesOf(rule, current, rollback)) && forall row <- rows :: Foreign(rule, row)
    ensures R.SettledText(PassesOf(rule, current, rollback), DocumentText(rule, current, rollback, rows))
  {
    var passes, counts := PassesOf(rule, current, rollback), Counts(rule);
    hide Separate, AllSeparate, WellBuilt, WrittenText, ValidRule, Foreign, LT.Settled, Tokenize;
    PassesAreValid(rule, current, rollback);
    assert passes[0].pattern == INSTALL;
    ForeignLines(rule, current, rollback, rows, INSTALL);
    hide PassesOf, LT.ValidPass;
    WrittenTextIsSettled(passes, |passes|, counts);
    assert passes[..|passes|] == passes && counts[..|counts|] == counts;
  }

  lemma CountedIs(rule: DocumentRule, current: Parts, rollback: Parts, text: Text)
    requires forall k :: 0 <= k < 2 + |rule.currentValues| ==>
               Occurrences(PassesOf(rule, current, rollback)[k].pattern, text) == Counts(rule)[k]
    ensures Counted(rule, text)
  {
    hide Occurrences;
    var passes, counts := PassesOf(rule, current, rollback), Counts(rule);
    assert passes[0].pattern == INSTALL && passes[1].pattern == ROLLBACK;
    forall k | 0 <= k < |rule.currentValues|
      ensures Occurrences(rule.currentValues[k].pattern, text) == rule.currentValues[k].expected
    {
      assert passes[k + 2].pattern == rule.currentValues[k].pattern && counts[k + 2] == rule.currentValues[k].expected;
    }
  }

  lemma DocumentCounts(rule: DocumentRule, current: Parts, rollback: Parts, rows: Text, k: nat)
    requires ValidRule(rule) && WellFormed(current) && WellFormed(rollback) && k < 2 + |rule.currentValues|
    requires AllSeparate(PassesOf(rule, current, rollback)) && forall row <- rows :: Foreign(rule, row)
    ensures Occurrences(PassesOf(rule, current, rollback)[k].pattern, DocumentText(rule, current, rollback, rows)) == Counts(rule)[k]
  {
    var passes, counts := PassesOf(rule, current, rollback), Counts(rule);
    var q := passes[k].pattern;
    PassesAreValid(rule, current, rollback);
    hide Separate, WellBuilt, WrittenText, Occurrences, ValidRule, Foreign, PassesOf;
    assert LT.ValidPass(passes[k]);
    OccurrencesConcat(q, rows, WrittenText(passes, counts));
    ForeignLines(rule, current, rollback, rows, q);
    WrittenCounts(passes, counts, k);
  }

  // ---------------------------------------------------------------- the table of rules

  lemma LastChars()
    ensures !IsSpace(LT.FromEnd(INSTALL.literal, 1)) && !IsSpace(LT.FromEnd(DOCKER_BUILD_VERSION.literal, 1))
    ensures LT.FromEnd(GHCR_IMAGE.literal, 1) == ':' && LT.FromEnd(OCI_EXAMPLE.literal, 1) == '`'
  {
  }

  lemma PatternsAreSeparate()
    ensures Separate(INSTALL, ROLLBACK) && Separate(INSTALL, GIT_TAG_MAPPING) && Separate(ROLLBACK, GIT_TAG_MAPPING)
    ensures Separate(APPLICATION_MAPPING, DOCKER_BUILD_VERSION) && Separate(GHCR_IMAGE, OCI_EXAMPLE)
  {
    LastChars();
    InstallIsValid();
    GitTagIsValid();
    SeparateSymmetric(GIT_TAG_MAPPING, ROLLBACK);
    hide LT.FromEnd;
  }

  lemma RulePatterns(rule: DocumentRule, current: Parts, rollback: Parts)
    ensures var passes := PassesOf(rule, current, rollback);
            && passes[0].pattern == INSTALL && passes[1].pattern == ROLLBACK
            && forall k :: 2 <= k < |passes| ==> passes[k].pattern == rule.currentValues[k - 2].pattern
  {
  }

  lemma RuleIsSeparate(rule: DocumentRule, current: Parts, rollback: Parts)
    requires rule in DOCUMENT_RULES
    ensures AllSeparate(PassesOf(rule, current, rollback))
  {
    PatternsAreSeparate();
    RulePatterns(rule, current, rollback);
    hide LT.Exclusive, PassesOf;
  }

  // ---------------------------------------------------------------- the tree

  /** The table shows the rollback and the current release as published and one more as planned. */
  function Rows(current: Parts, rollback: Parts, planned: Parts): Text {
    [RowOf(rollback, PUBLISHED), RowOf(current, PUBLISHED), RowOf(planned, PLANNED)]
  }

  function RowOf(parts: Parts, status: string): string {
    G.PrintRow(Render(GitTag, parts), "upstream", G.ZERO_SHA, status)
  }

  function FileText(rule: DocumentRule, current: Parts, rollback: Parts, planned: Parts): Text {
    DocumentText(rule, current, rollback, if rule.path == UPSTREAM_PATH then Rows(current, rollback, planned) else [])
  }

  function Documents(rules: seq<DocumentRule>, current: Parts, rollback: Parts, planned: Parts): Files {
    if rules == [] then map[] else
    var rule := rules[|rules| - 1];
    Documents(rules[..|rules| - 1], current, rollback, planned)[rule.path := FileText(rule, current, rollback, planned)]
  }

  function Tree(current: Parts, rollback: Parts, planned: Parts): Files {
    Documents(DOCUMENT_RULES, current, rollback, planned)[VERSION_PATH := [Render(Application, current)]]
  }

  lemma {:induction false} DocumentsHold(rules: seq<DocumentRule>, current: Parts, rollback: Parts, planned: Parts)
    requires DistinctPaths(rules)
    ensures forall rule <- rules :: rule.path in Documents(rules, current, rollback, planned) &&
              Documents(rules, current, rollback, planned)[rule.path] == FileText(rule, current, rollback, planned)
  {
    hide FileText;
    if rules != [] {
      DocumentsHold(rules[..|rules| - 1], current, rollback, planned);
    }
  }

  lemma {:induction false} JoinChars(cells: seq<string>, c: char)
    requires c in Join(cells) && c != '|'
    ensures exists i :: 0 <= i < |cells| && c in cells[i]
  {
    if |cells| > 1 {
      if c in cells[0] {
      } else {
        assert c in Join(cells[1..]);
        JoinChars(cells[1..], c);
        var i :| 0 <= i < |cells| - 1 && c in cells[1..][i];
        assert c in cells[i + 1];
      }
    }
  }

  /** A release that may have a row: its overlay number is not 000. */
  predicate Release(parts: Parts) {
    WellFormed(parts) && parts.custom != "000"
  }

  lemma NotInPad(x: string, c: char)
    requires c !in x && c != ' '
    ensures c !in G.Pad(x)
  {
  }

  lemma NotQuoted(x: string, c: char)
    requires c !in x && c != '`'
    ensures c !in "`" + x + "`"
  {
  }

  lemma NotInRow(tag: string, status: string, c: char)
    requires (c == '\'' || c == ':') && AllVersionChars(tag) && status in {PUBLISHED, PLANNED}
    ensures c !in G.PrintRow(tag, "upstream", G.ZERO_SHA, status)
  {
    assert AllHex(G.ZERO_SHA) && c !in "upstream" && c !in status;
    hide G.Pad, Join;
    NotQuoted(tag, c);
    NotQuoted("upstream", c);
    NotQuoted(G.ZERO_SHA, c);
    NotInPad("`" + tag + "`", c);
    NotInPad("`" + "upstream" + "`", c);
    NotInPad("`" + G.ZERO_SHA + "`", c);
    NotInPad(status, c);
    var cells := ["", G.Pad("`" + tag + "`"), G.Pad("`" + "upstream" + "`"), G.Pad("`" + G.ZERO_SHA + "`"), G.Pad(status), ""];
    if c in Join(cells) {
      JoinChars(cells, c);
    }
  }

  lemma RowIsForeign(parts: Parts, status: string)
    requires Release(parts) && status in {PUBLISHED, PLANNED}
    ensures Foreign(UPSTREAM_RULE, RowOf(parts, status))
  {
    VersionChars(GitTag, parts);
    NotInRow(Render(GitTag, parts), status, '\'');
    NotInRow(Render(GitTag, parts), status, ':');
    hide Render, WellFormed, G.PrintRow;
    assert GIT_TAG_MAPPING.literal[|GIT_TAG_MAPPING.literal| - 1] == ':';
    assert APPLICATION_MAPPING.literal[|APPLICATION_MAPPING.literal| - 1] == ':';
    assert GHCR_IMAGE.literal[|GHCR_IMAGE.literal| - 1] == ':';
  }

  lemma RowIsRead(parts: Parts, status: string)
    requires Release(parts) && status in {PUBLISHED, PLANNED}
    ensures StrictRow(RowOf(parts, status)) == LooseRow(RowOf(parts, status)) == Some(Row(Render(GitTag, parts), status))
  {
    var tag := Render(GitTag, parts);
    ParseAllIffRendered(GitTag, tag, parts);
    hide ParseAll, Render, G.PrintRow, LooseCells, Split, NameCell, CommitCell, Join;
    assert AllHex(G.ZERO_SHA) && AllLower(status) && NoBar("upstream");
    G.PrintedRowIsRead(tag, "upstream", G.ZERO_SHA, status);
  }

  /** The lines of a document are no rows. */
  lemma NoRow(line: string)
    requires line != "" && line[0] != '|'
    ensures LooseRow(line).None? && StrictRow(line).None?
  {
    assert Split(line)[0] != "";
    hide Split, Join, NameCell, CommitCell, TagCell, StatusCell;
  }

  lemma {:induction false} WrittenTextHasNoRow(passes: seq<LT.Pass>, counts: seq<nat>)
    requires |passes| == |counts|
    requires forall k :: 0 <= k < |passes| ==> passes[k].pattern.literal != "" && passes[k].pattern.literal[0] != '|'
    ensures forall line <- WrittenText(passes, counts) :: LooseRow(line).None? && StrictRow(line).None?
  {
    if passes != [] {
      hide LooseRow, StrictRow, WrittenLine;
      var n := |passes| - 1;
      WrittenTextHasNoRow(passes[..n], counts[..n]);
      WrittenLineStarts(passes[n].pattern, passes[n].parts);
      NoRow(WrittenLine(passes[n].pattern, passes[n].parts));
    }
  }

  lemma WrittenLineStarts(p: Pattern, parts: Parts)
    requires p.literal != ""
    ensures WrittenLine(p, parts) != "" && WrittenLine(p, parts)[0] == p.literal[0]
  {
    assert WrittenTokens(p, parts)[0] == Plain(p.literal[0]);
  }

  /** Lines that are no rows do not show in what is read. */
  lemma {:induction false} NoRowsAdded(rows: Text, lines: Text, tag: string)
    requires forall line <- lines :: LooseRow(line).None? && StrictRow(line).None?
    ensures Statuses(rows + lines) == Statuses(rows) && F.PlannedRows(rows + lines, tag) == F.PlannedRows(rows, tag)
  {
    hide LooseRow, StrictRow;
    if lines == [] {
      assert rows + lines == rows;
    } else {
      var init, last := lines[..|lines| - 1], lines[|lines| - 1];
      assert last in lines;
      assert (rows + lines)[..|rows + lines| - 1] == rows + init;
      NoRowsAdded(rows, init, tag);
    }
  }

  lemma RowsAreRead(current: Parts, rollback: Parts, planned: Parts)
    requires Release(current) && Release(rollback) && Release(planned)
    requires current != rollback && planned != current && planned != rollback
    ensures Statuses(Rows(current, rollback, planned)) ==
            map[Render(GitTag, rollback) := PUBLISHED, Render(GitTag, current) := PUBLISHED, Render(GitTag, planned) := PLANNED]
    ensures F.PlannedRows(Rows(current, rollback, planned), Render(GitTag, planned)) == 1
  {
    RowIsRead(rollback, PUBLISHED);
    RowIsRead(current, PUBLISHED);
    RowIsRead(planned, PLANNED);
    R.RenderInjective(planned, current);
    R.RenderInjective(planned, rollback);
    hide Render, LooseRow, StrictRow, RowOf, WellFormed, Statuses, F.PlannedRows;
    ThreeRows(RowOf(rollback, PUBLISHED), RowOf(current, PUBLISHED), RowOf(planned, PLANNED),
              Render(GitTag, rollback), Render(GitTag, current), Render(GitTag, planned));
  }

  lemma ThreeRows(a: string, b: string, c: string, x: string, y: string, z: string)
    requires StrictRow(a) == LooseRow(a) == Some(Row(x, PUBLISHED)) && StrictRow(b) == LooseRow(b) == Some(Row(y, PUBLISHED))
    requires StrictRow(c) == LooseRow(c) == Some(Row(z, PLANNED)) && x != z && y != z
    ensures Statuses([a, b, c]) == map[x := PUBLISHED, y := PUBLISHED, z := PLANNED]
    ensures F.PlannedRows([a, b, c], z) == 1
  {
    hide LooseRow, StrictRow, Statuses, StatusTags, F.PlannedRows;
    NothingIsRead(z);
    F.StatusesSnoc([], a);
    F.StatusesSnoc([a], b);
    F.StatusesSnoc([a, b], c);
    G.PlannedRowsSnoc([], a, z);
    G.PlannedRowsSnoc([a], b, z);
    G.PlannedRowsSnoc([a, b], c, z);
    assert [] + [a] == [a] && [a] + [b] == [a, b] && [a, b] + [c] == [a, b, c];
  }

  lemma NothingIsRead(tag: string)
    ensures Statuses([]) == map[] && F.PlannedRows([], tag) == 0
  {
  }

  lemma UpstreamIsRead(current: Parts, rollback: Parts, planned: Parts)
    requires Release(current) && Release(rollback) && Release(planned)
    requires current != rollback && planned != current && planned != rollback
    ensures var text := FileText(UPSTREAM_RULE, current, rollback, planned);
            && Statuses(text) == Statuses(Rows(current, rollback, planned))
            && F.PlannedRows(text, Render(GitTag, planned)) == 1
  {
    var passes := PassesOf(UPSTREAM_RULE, current, rollback);
    RulePatterns(UPSTREAM_RULE, current, rollback);
    forall k | 0 <= k < |passes| ensures passes[k].pattern.literal != "" && passes[k].pattern.literal[0] != '|' {
    }
    WrittenTextHasNoRow(passes, Counts(UPSTREAM_RULE));
    hide WrittenText, Rows, LooseRow, StrictRow, PassesOf, Render, WellFormed;
    RowsAreRead(current, rollback, planned);
    NoRowsAdded(Rows(current, rollback, planned), WrittenText(passes, Counts(UPSTREAM_RULE)), Render(GitTag, planned));
  }

  lemma FileIsRewritten(rule: DocumentRule, current: Parts, rollback: Parts, planned: Parts)
    requires rule in DOCUMENT_RULES && RuleLiterals(rule) && Release(current) && Release(rollback) && Release(planned)
    ensures Rewritten(rule, FileText(rule, current, rollback, planned), Render(GitTag, current), Render(GitTag, rollback)) ==
            Ok(FileText(rule, current, rollback, planned))
  {
    TablePaths();
    TableIsValid(rule);
    hide DOCUMENT_RULES, UPSTREAM_RULE, Foreign, ValidRule, RuleLiterals, Rewritten, Render, WellFormed, DocumentText, RowOf;
    RuleIsSeparate(rule, current, rollback);
    RowIsForeign(rollback, PUBLISHED);
    RowIsForeign(current, PUBLISHED);
    RowIsForeign(planned, PLANNED);
    DocumentIsRewritten(rule, current, rollback, if rule.path == UPSTREAM_PATH then Rows(current, rollback, planned) else []);
  }

  lemma NoSpaceAround(s: string)
    requires s != "" && !IsSpace(s[0]) && !IsSpace(s[|s| - 1])
    ensures Strip(s) == s
  {
    assert SpaceRun(s) == 0;
  }

  lemma VersionIsRead(current: Parts)
    requires WellFormed(current)
    ensures "v" + Strip(Content([Render(Application, current)])) == Render(GitTag, current)
    ensures VersionKey(Render(GitTag, current)) == Some(KeyOf(current))
  {
    assert "v" + Render(Application, current) == Render(GitTag, current);
    ParseAllIffRendered(GitTag, Render(GitTag, current), current);
    hide WellFormed, Render, ParseAll, Strip, KeyOf;
    VersionHasNoSpaceAround(current);
    NoSpaceAround(Render(Application, current));
  }

  lemma VersionHasNoSpaceAround(current: Parts)
    requires WellFormed(current)
    ensures var version := Render(Application, current);
            version != "" && !IsSpace(version[0]) && !IsSpace(version[|version| - 1])
  {
    VersionChars(Application, current);
    hide WellFormed, Render;
    var version := Render(Application, current);
    assert version[|version| - 1] == version[|version| - 3..][2];
  }

  lemma TreeHolds(current: Parts, rollback: Parts, planned: Parts)
    ensures var tree := Tree(current, rollback, planned);
            && VERSION_PATH in tree && tree[VERSION_PATH] == [Render(Application, current)]
            && UPSTREAM_PATH in tree && tree[UPSTREAM_PATH] == FileText(UPSTREAM_RULE, current, rollback, planned)
            && forall rule <- DOCUMENT_RULES :: rule.path in tree && tree[rule.path] == FileText(rule, current, rollback, planned)
  {
    TablePaths();
    assert UPSTREAM_RULE.path == UPSTREAM_PATH;
    hide DOCUMENT_RULES, UPSTREAM_RULE, FileText, Documents, Render;
    DocumentsHold(DOCUMENT_RULES, current, rollback, planned);
  }

  lemma OnlyRollbackIsBefore(x: string, y: string, z: string, statuses: map<string, string>)
    requires statuses == map[x := PUBLISHED, y := PUBLISHED, z := PLANNED] && z != x && z != y
    requires VersionKey(x).Some? && VersionKey(y).Some? && KeyLess(VersionKey(x).value, VersionKey(y).value)
    ensures IsPrevious(x, statuses.Keys, statuses, VersionKey(y).value, DOCUMENT_ROLLBACK_STATUSES)
  {
    hide VersionKey, Before;
    var target := VersionKey(y).value;
    R.NotBelowItself(target);
    assert PUBLISHED in DOCUMENT_ROLLBACK_STATUSES && PLANNED !in DOCUMENT_ROLLBACK_STATUSES;
    hide KeyLess;
    assert x in statuses && statuses[x] == PUBLISHED && statuses[z] == PLANNED;
    forall t | t in statuses.Keys && Eligible(t, statuses, target, DOCUMENT_ROLLBACK_STATUSES) ensures t == x {
    }
  }

  lemma TreeResolves(current: Parts, rollback: Parts, planned: Parts)
    requires Release(current) && Release(rollback) && Release(planned)
    requires KeyLess(KeyOf(rollback), KeyOf(current)) && planned != current && planned != rollback
    ensures ResolvedVersions(Tree(current, rollback, planned)) == Ok((Render(GitTag, current), Render(GitTag, rollback)))
    ensures F.PlannedRows(FileText(UPSTREAM_RULE, current, rollback, planned), Render(GitTag, planned)) == 1
  {
    var tree := Tree(current, rollback, planned);
    TreeHolds(current, rollback, planned);
    UpstreamIsRead(current, rollback, planned);
    RowsAreRead(current, rollback, planned);
    R.RenderInjective(planned, current);
    R.RenderInjective(planned, rollback);
    VersionIsRead(current);
    VersionIsRead(rollback);
    hide Render, WellFormed, KeyOf, KeyLess, VersionKey, FileText, Tree, Statuses, Rows, Content, Strip, IsPrevious, F.PlannedRows, DOCUMENT_RULES, UPSTREAM_RULE;
    OnlyRollbackIsBefore(Render(GitTag, rollback), Render(GitTag, current), Render(GitTag, planned), Statuses(tree[UPSTREAM_PATH]));
    ResolvedVersionsAre(tree, Render(GitTag, current), Render(GitTag, rollback));
  }

  /** From any release, an earlier one and a third to be planned, the written tree is clean, resolves to
      the first two, and shows the third as its one planned row. */
  lemma WrittenTreeIsClean(current: Parts, rollback: Parts, planned: Parts)
    requires Release(current) && Release(rollback) && Release(planned)
    requires KeyLess(KeyOf(rollback), KeyOf(current)) && planned != current && planned != rollback
    ensures var tree := Tree(current, rollback, planned);
            && R.CleanTree(tree)
            && Generated(tree).value.current == Render(GitTag, current) && Generated(tree).value.rollback == Render(GitTag, rollback)
            && UPSTREAM_PATH in tree && F.PlannedRows(tree[UPSTREAM_PATH], Render(GitTag, planned)) == 1
  {
    var tree, c, r := Tree(current, rollback, planned), Render(GitTag, current), Render(GitTag, rollback);
    TableLiterals();
    TreeHolds(current, rollback, planned);
    TreeResolves(current, rollback, planned);
    hide Render, KeyOf, KeyLess, FileText, Tree, Rewritten, ResolvedVersions, RewrittenFiles, DOCUMENT_RULES, RuleLiterals, Release, F.PlannedRows, Generated;
    forall rule <- DOCUMENT_RULES ensures rule.path in tree && Rewritten(rule, tree[rule.path], c, r) == Ok(tree[rule.path]) {
      assert RuleLiterals(rule);
      FileIsRewritten(rule, current, rollback, planned);
    }
    R.GeneratedFrom(tree, c, r);
  }

  /** So there are clean trees that can be finalized. */
  lemma SomeTreeCanBeFinalized()
    ensures exists base: Files, tag: string ::
              R.CleanTree(base) && UPSTREAM_PATH in base && F.PlannedRows(base[UPSTREAM_PATH], tag) == 1
  {
    var current, rollback, planned := Parts("1", "2", "0", "002"), Parts("1", "1", "0", "001"), Parts("1", "3", "0", "003");
    assert Release(current) && Release(rollback) && Release(planned);
    hide R.CleanTree, F.PlannedRows, Tree, Render;
    assert KeyLess(KeyOf(rollback), KeyOf(current));
    WrittenTreeIsClean(current, rollback, planned);
    var base, tag := Tree(current, rollback, planned), Render(GitTag, planned);
    assert R.CleanTree(base) && UPSTREAM_PATH in base && F.PlannedRows(base[UPSTREAM_PATH], tag) == 1;
  }
}
