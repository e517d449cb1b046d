/**
 Resolving the release versions and writing them into the documentation.
 */
module ReleaseDocs {
  import opened Strings
  import opened Wrappers
  import opened Versions
  import opened VersionTokens
  import opened Patterns
  import opened UpstreamTable
  import LT = LineTokens

  type Path = string
  type Files = map<Path, Text>

  datatype Error =
    | MissingFile(path: Path)
    | UnsupportedVersion
    | NoMappingRow
    | NoEarlierRelease
    | WrongCount(path: Path, name: string, count: nat)

  // ---------------------------------------------------------------- the rule table

  datatype CurrentValueRule = CurrentValueRule(pattern: Pattern, expected: nat, valueType: Kind, name: string)

  datatype DocumentRule = DocumentRule(path: Path, installs: nat, rollbacks: nat, currentValues: seq<CurrentValueRule>)

  const INSTALL := Pattern(false, "install --version '", false, GitTag, Literal("'"))
  const ROLLBACK := Pattern(false, "rollback '", false, GitTag, Literal("'"))
  const GIT_TAG_MAPPING := Pattern(true, "Git/GitHub:", true, GitTag, BlankToEnd)
  const APPLICATION_MAPPING := Pattern(true, "Application:", true, Application, BlankToEnd)
  const GHCR_IMAGE := Pattern(false, "ghcr.io/luckykuang/sub2api-plus:", false, OciTag, Literal(""))
  const APPLE_SOURCE_IMAGE :=
    Pattern(false, "this source revision is " + "tagged sub2api-plus:", false, OciTag, Literal("; use that value"))
  const OCI_EXAMPLE := Pattern(false, "for example `", false, OciTag, Literal("`"))
  const DOCKER_BUILD_VERSION := Pattern(false, "--build-arg VERSION=", false, Application, BackslashToEnd)

  const VERSION_PATH := "backend/cmd/server/VERSION"
  const UPSTREAM_PATH := "UPSTREAM.md"

  const GIT_RULE := CurrentValueRule(GIT_TAG_MAPPING, 1, GitTag, "Git/GitHub release mapping")
  const GHCR_RULE := CurrentValueRule(GHCR_IMAGE, 1, OciTag, "GHCR image mapping")
  const APPLICATION_RULE := CurrentValueRule(APPLICATION_MAPPING, 1, Application, "application version mapping")

  const UPSTREAM_RULE := DocumentRule(UPSTREAM_PATH, 0, 0, [GIT_RULE, APPLICATION_RULE, GHCR_RULE])

  const DOCUMENT_RULES: seq<DocumentRule> := [
    DocumentRule("README.md", 1, 1, []),
    DocumentRule("README_CN.md", 1, 1, []),
    DocumentRule("README_JA.md", 1, 1, []),
    DocumentRule("deploy/README.md", 2, 2, [GIT_RULE, GHCR_RULE]),
    DocumentRule("deploy/DOCKER.md", 0, 0,
                 [GIT_RULE, GHCR_RULE, CurrentValueRule(OCI_EXAMPLE, 1, OciTag, "OCI tag example")]),
    DocumentRule("deploy/APPLE_CONTAINER.md", 0, 0,
                 [GIT_RULE, APPLICATION_RULE, CurrentValueRule(GHCR_IMAGE, 3, OciTag, "Apple/OCI image"),
                  CurrentValueRule(DOCKER_BUILD_VERSION, 1, Application, "Docker build version")]),
    DocumentRule("deploy/.env.example", 0, 0,
                 [CurrentValueRule(APPLE_SOURCE_IMAGE, 1, OciTag, "Apple Container image example")]),
    UPSTREAM_RULE
  ]

  // ---------------------------------------------------------------- rewriting one document

  function SubnText(p: Pattern, replacement: string, text: Text): (r: Text)
    requires p.literal != ""
    ensures |r| == |text|
  {
    seq(|text|, i requires 0 <= i < |text| => Subn(p, replacement, true, text[i]).0)
  }

  function CountText(p: Pattern, replacement: string, text: Text): nat
    requires p.literal != ""
  {
    if text == [] then 0 else Subn(p, replacement, true, text[0]).1 + CountText(p, replacement, text[1..])
  }

  /** One substitution that must happen an exact number of times. */
  datatype Replacement = Replacement(pattern: Pattern, value: string, expected: nat, name: string)

  function ReplaceExact(path: Path, text: Text, r: Replacement): Result<Text, Error>
    requires r.pattern.literal != ""
  {
    var count := CountText(r.pattern, r.value, text);
    if count != r.expected then Err(WrongCount(path, r.name, count))
    else Ok(SubnText(r.pattern, r.value, text))
  }

  function CurrentValue(currentTag: string, valueType: Kind): string {
    match valueType
    case GitTag => currentTag
    case Application => RemovePrefix(currentTag, "v")
    case OciTag => ReplaceChar(currentTag, '+', '-')
  }

  predicate Literals(rs: seq<Replacement>) {
    forall k :: 0 <= k < |rs| ==> rs[k].pattern.literal != ""
  }

  predicate RuleLiterals(rule: DocumentRule) {
    forall k :: 0 <= k < |rule.currentValues| ==> rule.currentValues[k].pattern.literal != ""
  }

  function Replacements(rule: DocumentRule, currentTag: string, rollbackTag: string): (rs: seq<Replacement>)
    ensures |rs| == 2 + |rule.currentValues|
    ensures RuleLiterals(rule) ==> Literals(rs)
  {
    [Replacement(INSTALL, currentTag, rule.installs, "install command"),
     Replacement(ROLLBACK, rollbackTag, rule.rollbacks, "rollback command")] +
    seq(|rule.currentValues|, k requires 0 <= k < |rule.currentValues| =>
      var c := rule.currentValues[k];
      Replacement(c.pattern, CurrentValue(currentTag, c.valueType), c.expected, c.name))
  }

  function ReplaceAll(path: Path, text: Text, rs: seq<Replacement>): Result<Text, Error>
    requires Literals(rs)
  {
    if rs == [] then Ok(text) else
    match ReplaceAll(path, text, rs[..|rs| - 1])
    case Err(e) => Err(e)
    case Ok(updated) => ReplaceExact(path, updated, rs[|rs| - 1])
  }

  /** What `rewrite_document` computes. */
  function Rewritten(rule: DocumentRule, text: Text, currentTag: string, rollbackTag: string): Result<Text, Error>
    requires RuleLiterals(rule)
  {
    ReplaceAll(rule.path, text, Replacements(rule, currentTag, rollbackTag))
  }

  method RewriteDocument(rule: DocumentRule, text: Text, currentTag: string, rollbackTag: string)
    returns (r: Result<Text, Error>)
    requires RuleLiterals(rule)
    ensures r == Rewritten(rule, text, currentTag, rollbackTag)
  {
    ghost var rs := Replacements(rule, currentTag, rollbackTag);
    CommandReplacements(rule, currentTag, rollbackTag);
    hide ReplaceExact, CurrentValue, ReplaceAll, Replacements;
    NothingReplaced(rule.path, text);
    assert rs[..0] == [];
    ReplaceStep(rule.path, text, rs, 0);
    r := ReplaceExact(rule.path, text, Replacement(INSTALL, currentTag, rule.installs, "install command"));
    ReplaceStep(rule.path, text, rs, 1);
    if r.Ok? {
      r := ReplaceExact(rule.path, r.value, Replacement(ROLLBACK, rollbackTag, rule.rollbacks, "rollback command"));
    }
    var i := 0;
    while i < |rule.currentValues| && r.Ok?
      invariant 0 <= i <= |rule.currentValues|
      invariant r == ReplaceAll(rule.path, text, rs[..2 + i])
    {
      ReplaceStep(rule.path, text, rs, 2 + i);
      CurrentReplacement(rule, currentTag, rollbackTag, i);
      var c := rule.currentValues[i];
      r := ReplaceExact(rule.path, r.value,
                        Replacement(c.pattern, CurrentValue(currentTag, c.valueType), c.expected, c.name));
      i := i + 1;
    }
    ErrorSticks(rule.path, text, rs, 2 + i);
    assert rs[..|rs|] == rs;
    assert Rewritten(rule, text, currentTag, rollbackTag) == ReplaceAll(rule.path, text, rs);
  }

  lemma NothingReplaced(path: Path, text: Text)
    ensures ReplaceAll(path, text, []) == Ok(text)
  {
  }

  lemma ReplaceStep(path: Path, text: Text, rs: seq<Replacement>, k: nat)
    requires Literals(rs) && k < |rs|
    ensures var before := ReplaceAll(path, text, rs[..k]);
            ReplaceAll(path, text, rs[..k + 1]) == if before.Ok? then ReplaceExact(path, before.value, rs[k]) else before
  {
    hide ReplaceExact;
    assert rs[..k + 1][..k] == rs[..k];
  }

  lemma CommandReplacements(rule: DocumentRule, currentTag: string, rollbackTag: string)
    ensures var rs := Replacements(rule, currentTag, rollbackTag);
            && rs[0] == Replacement(INSTALL, currentTag, rule.installs, "install command")
            && rs[1] == Replacement(ROLLBACK, rollbackTag, rule.rollbacks, "rollback command")
  {
  }

  lemma CurrentReplacement(rule: DocumentRule, currentTag: string, rollbackTag: string, i: nat)
    requires i < |rule.currentValues|
    ensures var c := rule.currentValues[i];
            Replacements(rule, currentTag, rollbackTag)[2 + i] ==
            Replacement(c.pattern, CurrentValue(currentTag, c.valueType), c.expected, c.name)
  {
    hide CurrentValue;
  }

  lemma {:induction false} ErrorSticks(path: Path, text: Text, rs: seq<Replacement>, k: nat)
    requires Literals(rs) && k <= |rs|
    ensures ReplaceAll(path, text, rs[..k]).Err? ==> ReplaceAll(path, text, rs) == ReplaceAll(path, text, rs[..k])
  {
    if k == |rs| {
      assert rs[..k] == rs;
    } else {
      assert rs[..|rs| - 1][..k] == rs[..k];
      ErrorSticks(path, text, rs[..|rs| - 1], k);
    }
  }

  // ---------------------------------------------------------------- the rewrite, token by token

  function Tokens(line: string): seq<Token> {
    Tokenize(true, line)
  }

  /** What the rule table must satisfy; every rule of the table does (`TableIsValid`). */
  ghost predicate ValidRule(rule: DocumentRule) {
    && RuleLiterals(rule)
    && forall k :: 0 <= k < |rule.currentValues| ==>
         var c := rule.currentValues[k];
         WellBuilt(c.pattern) && c.valueType == c.pattern.kind && LT.Exclusive(c.pattern, ROLLBACK)
  }

  function PassesOf(rule: DocumentRule, current: Parts, rollback: Parts): (passes: seq<LT.Pass>)
    ensures |passes| == 2 + |rule.currentValues|
  {
    [LT.Pass(INSTALL, current), LT.Pass(ROLLBACK, rollback)] +
    seq(|rule.currentValues|, k requires 0 <= k < |rule.currentValues| =>
      LT.Pass(rule.currentValues[k].pattern, current))
  }

  function RunText(passes: seq<LT.Pass>, text: Text): (r: Text)
    ensures |r| == |text|
  {
    seq(|text|, i requires 0 <= i < |text| => RenderTokens(LT.RunPasses(passes, Tokens(text[i]))))
  }

  /** How often an expression occurs in a text, whatever is written into it. */
  function Occurrences(p: Pattern, text: Text): nat {
    if text == [] then 0 else Count(LT.LineMarks(p, Tokens(text[0]))) + Occurrences(p, text[1..])
  }

  ghost predicate Prints(rs: seq<Replacement>, passes: seq<LT.Pass>) {
    && |rs| == |passes|
    && forall k :: 0 <= k < |rs| ==>
         && rs[k].pattern == passes[k].pattern
         && rs[k].value == Render(passes[k].pattern.kind, passes[k].parts)
  }

  /** No `v` and no digit. */
  predicate Quiet(x: string) {
    forall i :: 0 <= i < |x| ==> x[i] != 'v' && !IsDigit(x[i])
  }

  lemma QuietNoStart(x: string)
    requires Quiet(x)
    ensures NoStart(x)
  {
  }

  lemma NoStartAround(a: string, c: char, b: string)
    requires Quiet(a) && NoStart(b) && b != "" && b[0] != '.' && !IsDigit(b[0])
    ensures NoStart(a + ([c] + b))
  {
  }

  lemma NoStartConcat(a: string, b: string)
    requires NoStart(a) && NoStart(b)
    ensures NoStart(a + b)
  {
  }

  lemma InstallLiterals()
    ensures NoStart(INSTALL.literal) && NoStart(INSTALL.tail.text)
  {
    hide NoStart;
    QuietNoStart("ersion '");
    NoStartAround("install --", 'v', "ersion '");
    assert INSTALL.literal == "install --" + (['v'] + "ersion '");
    QuietNoStart("'");
  }

  lemma InstallIsValid()
    ensures WellBuilt(INSTALL) && LT.Exclusive(INSTALL, ROLLBACK)
  {
    hide NoStart;
    InstallLiterals();
    assert !IsVersionChar(INSTALL.literal[..3][0]);
  }

  lemma RollbackLiterals()
    ensures NoStart(ROLLBACK.literal) && NoStart(ROLLBACK.tail.text)
  {
    hide NoStart;
    QuietNoStart("rollback '");
    QuietNoStart("'");
  }

  lemma RollbackIsValid()
    ensures WellBuilt(ROLLBACK)
  {
    hide NoStart;
    RollbackLiterals();
    assert !IsVersionChar(ROLLBACK.literal[..3][0]);
  }

  lemma GitTagLiterals()
    ensures NoStart(GIT_TAG_MAPPING.literal)
  {
    hide NoStart;
    QuietNoStart("Git/GitHub:");
  }

  lemma GitTagIsValid()
    ensures WellBuilt(GIT_TAG_MAPPING) && LT.Exclusive(GIT_TAG_MAPPING, ROLLBACK)
  {
    hide NoStart;
    GitTagLiterals();
    assert !IsVersionChar(GIT_TAG_MAPPING.literal[..3][0]);
  }

  lemma ApplicationLiterals()
    ensures NoStart(APPLICATION_MAPPING.literal)
  {
    hide NoStart;
    QuietNoStart("Application:");
  }

  lemma ApplicationIsValid()
    ensures WellBuilt(APPLICATION_MAPPING) && LT.Exclusive(APPLICATION_MAPPING, ROLLBACK)
  {
    hide NoStart;
    ApplicationLiterals();
    assert !IsVersionChar(APPLICATION_MAPPING.literal[..3][0]);
  }

  lemma GhcrLiterals()
    ensures NoStart(GHCR_IMAGE.literal) && NoStart(GHCR_IMAGE.tail.text)
  {
    hide NoStart;
    QuietNoStart("api-plus:");
    NoStartAround("ghcr.io/luckykuang/sub", '2', "api-plus:");
    assert GHCR_IMAGE.literal == "ghcr.io/luckykuang/sub" + (['2'] + "api-plus:");
    QuietNoStart("");
  }

  lemma GhcrIsValid()
    ensures WellBuilt(GHCR_IMAGE) && LT.Exclusive(GHCR_IMAGE, ROLLBACK)
  {
    hide NoStart;
    GhcrLiterals();
    assert !IsVersionChar(GHCR_IMAGE.literal[..3][0]);
  }

  lemma AppleHead()
    ensures NoStart("this source revision is ")
  {
    hide NoStart;
    QuietNoStart("ision is ");
    NoStartAround("this source re", 'v', "ision is ");
    assert "this source revision is " == "this source re" + (['v'] + "ision is ");
  }

  lemma AppleLiterals()
    ensures NoStart(APPLE_SOURCE_IMAGE.literal)
  {
    hide NoStart;
    AppleHead();
    QuietNoStart("api-plus:");
    NoStartAround("tagged sub", '2', "api-plus:");
    assert "tagged sub2api-plus:" == "tagged sub" + (['2'] + "api-plus:");
    NoStartConcat("this source revision is ", "tagged sub2api-plus:");
  }

  lemma AppleIsValid()
    ensures WellBuilt(APPLE_SOURCE_IMAGE) && LT.Exclusive(APPLE_SOURCE_IMAGE, ROLLBACK)
  {
    hide NoStart;
    AppleLiterals();
    AppleTail();
    assert "this source revision is "[1] == 'h' && !IsVersionChar('h');
    assert !IsVersionChar(APPLE_SOURCE_IMAGE.literal[..3][1]);
  }

  lemma AppleTail()
    ensures NoStart(APPLE_SOURCE_IMAGE.tail.text)
  {
    hide NoStart;
    QuietNoStart("alue");
    NoStartAround("; use that ", 'v', "alue");
    assert APPLE_SOURCE_IMAGE.tail.text == "; use that " + (['v'] + "alue");
  }

  lemma OciLiterals()
    ensures NoStart(OCI_EXAMPLE.literal) && NoStart(OCI_EXAMPLE.tail.text)
  {
    hide NoStart;
    QuietNoStart("for example `");
    QuietNoStart("`");
  }

  lemma OciIsValid()
    ensures WellBuilt(OCI_EXAMPLE) && LT.Exclusive(OCI_EXAMPLE, ROLLBACK)
  {
    hide NoStart;
    OciLiterals();
    assert !IsVersionChar(OCI_EXAMPLE.literal[..3][0]);
  }

  lemma DockerLiterals()
    ensures NoStart(DOCKER_BUILD_VERSION.literal)
  {
    hide NoStart;
    QuietNoStart("--build-arg VERSION=");
  }

  lemma DockerIsValid()
    ensures WellBuilt(DOCKER_BUILD_VERSION) && LT.Exclusive(DOCKER_BUILD_VERSION, ROLLBACK)
  {
    hide NoStart;
    DockerLiterals();
    assert !IsVersionChar(DOCKER_BUILD_VERSION.literal[..3][2]);
  }

  /** The rule table fits the theory of passes. */
  lemma TableIsValid(rule: DocumentRule)
    requires rule in DOCUMENT_RULES
    ensures ValidRule(rule)
  {
    hide WellBuilt, LT.Exclusive;
    GitTagIsValid();
    ApplicationIsValid();
    GhcrIsValid();
    AppleIsValid();
    OciIsValid();
    DockerIsValid();
  }

  // ---------------------------------------------------------------- substitutions as passes

  lemma LineSubn(a: LT.Pass, line: string)
    requires LT.ValidPass(a)
    ensures var ts := Tokens(line);
            Subn(a.pattern, Render(a.pattern.kind, a.parts), true, line) ==
            (RenderTokens(LT.RunPass(a, ts)), Count(LT.LineMarks(a.pattern, ts)))
  {
    TokenizeGood(true, line);
    SubnIsTokenwise(a.pattern, a.parts, true, true, Tokens(line));
  }

  lemma {:induction false} CountIsOccurrences(a: LT.Pass, text: Text)
    requires LT.ValidPass(a)
    ensures CountText(a.pattern, Render(a.pattern.kind, a.parts), text) == Occurrences(a.pattern, text)
  {
    if text != [] {
      LineSubn(a, text[0]);
      CountIsOccurrences(a, text[1..]);
    }
  }

  /** Running passes on a line and printing it: the printed line reads back as the tokens. */
  lemma RunPrints(passes: seq<LT.Pass>, line: string)
    requires LT.ValidPasses(passes)
    ensures Tokens(RenderTokens(LT.RunPasses(passes, Tokens(line)))) == LT.RunPasses(passes, Tokens(line))
  {
    TokenizeGood(true, line);
    LT.RunPassesShape(passes, Tokens(line));
    GoodTokenizes(true, LT.RunPasses(passes, Tokens(line)));
  }

  lemma {:induction false} OccurrencesStay(passes: seq<LT.Pass>, p: Pattern, text: Text)
    requires LT.ValidPasses(passes)
    ensures Occurrences(p, RunText(passes, text)) == Occurrences(p, text)
  {
    if text != [] {
      var ts := Tokens(text[0]);
      OccurrencesStay(passes, p, text[1..]);
      assert RunText(passes, text)[1..] == RunText(passes, text[1..]);
      RunPrints(passes, text[0]);
      TokenizeGood(true, text[0]);
      LT.RunPassesShape(passes, ts);
      LT.MarksShape(p, true, ts, LT.RunPasses(passes, ts));
    }
  }

  lemma RunTextStep(passes: seq<LT.Pass>, text: Text)
    requires LT.ValidPasses(passes) && passes != []
    ensures var a := passes[|passes| - 1];
            SubnText(a.pattern, Render(a.pattern.kind, a.parts), RunText(passes[..|passes| - 1], text)) ==
            RunText(passes, text)
  {
    var a, before := passes[|passes| - 1], passes[..|passes| - 1];
    forall i | 0 <= i < |text|
      ensures Subn(a.pattern, Render(a.pattern.kind, a.parts), true, RunText(before, text)[i]).0 == RunText(passes, text)[i]
    {
      RunPrints(before, text[i]);
      LineSubn(a, RunText(before, text)[i]);
    }
  }

  lemma RunNothing(text: Text)
    ensures RunText([], text) == text
  {
    forall i | 0 <= i < |text| ensures RunText([], text)[i] == text[i] {
      TokenizeGood(true, text[i]);
    }
  }

  ghost predicate CountsFit(rs: seq<Replacement>, text: Text) {
    forall k :: 0 <= k < |rs| ==> Occurrences(rs[k].pattern, text) == rs[k].expected
  }

  /** The substitutions succeed exactly when every expression occurs as often as expected in the
      original text, and then the result is one run of passes over it. */
  lemma {:induction false} ReplaceAllRuns(path: Path, text: Text, rs: seq<Replacement>, passes: seq<LT.Pass>)
    requires Literals(rs) && LT.ValidPasses(passes) && Prints(rs, passes)
    ensures ReplaceAll(path, text, rs).Ok? <==> CountsFit(rs, text)
    ensures CountsFit(rs, text) ==> ReplaceAll(path, text, rs) == Ok(RunText(passes, text))
  {
    hide CountText, SubnText, RunText, Occurrences, LT.ValidPass, Render;
    if rs == [] {
      RunNothing(text);
    } else {
      var n := |rs| - 1;
      ReplaceAllRuns(path, text, rs[..n], passes[..n]);
      assert CountsFit(rs, text) <==> CountsFit(rs[..n], text) && Occurrences(rs[n].pattern, text) == rs[n].expected by {
        assert forall k :: 0 <= k < n ==> rs[..n][k] == rs[k];
      }
      if CountsFit(rs[..n], text) {
        CountIsOccurrences(passes[n], RunText(passes[..n], text));
        OccurrencesStay(passes[..n], rs[n].pattern, text);
        RunTextStep(passes, text);
      }
    }
  }

  ghost predicate Counted(rule: DocumentRule, text: Text) {
    && Occurrences(INSTALL, text) == rule.installs
    && Occurrences(ROLLBACK, text) == rule.rollbacks
    && forall k :: 0 <= k < |rule.currentValues| ==>
         Occurrences(rule.currentValues[k].pattern, text) == rule.currentValues[k].expected
  }

  /** When they fail, the error is that of the first expression, in the order of the rule, that does not
      occur as often as it should in the original text, and tells how often it does. */
  lemma {:induction false} FirstMismatchIsReported(path: Path, text: Text, rs: seq<Replacement>, passes: seq<LT.Pass>)
    requires Literals(rs) && LT.ValidPasses(passes) && Prints(rs, passes) && !CountsFit(rs, text)
    ensures exists k :: 0 <= k < |rs| && CountsFit(rs[..k], text) && Occurrences(rs[k].pattern, text) != rs[k].expected
                        && ReplaceAll(path, text, rs) == Err(WrongCount(path, rs[k].name, Occurrences(rs[k].pattern, text)))
  {
    hide CountText, SubnText, RunText, Occurrences, LT.ValidPass, Render;
    var n := |rs| - 1;
    ReplaceAllRuns(path, text, rs[..n], passes[..n]);
    assert CountsFit(rs, text) <==> CountsFit(rs[..n], text) && Occurrences(rs[n].pattern, text) == rs[n].expected by {
      assert forall k :: 0 <= k < n ==> rs[..n][k] == rs[k];
    }
    if CountsFit(rs[..n], text) {
      CountIsOccurrences(passes[n], RunText(passes[..n], text));
      OccurrencesStay(passes[..n], rs[n].pattern, text);
    } else {
      FirstMismatchIsReported(path, text, rs[..n], passes[..n]);
      var k :| 0 <= k < n && CountsFit(rs[..n][..k], text) && Occurrences(rs[..n][k].pattern, text) != rs[..n][k].expected
        && ReplaceAll(path, text, rs[..n]) == Err(WrongCount(path, rs[..n][k].name, Occurrences(rs[..n][k].pattern, text)));
      assert rs[..n][..k] == rs[..k] && rs[..n][k] == rs[k];
    }
  }

  lemma PassesAreValid(rule: DocumentRule, current: Parts, rollback: Parts)
    requires ValidRule(rule) && WellFormed(current) && WellFormed(rollback)
    ensures LT.ValidPasses(PassesOf(rule, current, rollback))
    ensures forall i :: 0 <= i < 2 + |rule.currentValues| && i != 1 ==>
              var a := PassesOf(rule, current, rollback)[i];
              LT.Exclusive(a.pattern, ROLLBACK) && a.parts == current
  {
    InstallIsValid();
    RollbackIsValid();
    hide WellBuilt, LT.Exclusive;
    var passes := PassesOf(rule, current, rollback);
    forall i | 0 <= i < |passes|
      ensures LT.ValidPass(passes[i]) && (i != 1 ==> LT.Exclusive(passes[i].pattern, ROLLBACK) && passes[i].parts == current)
    {
      if i >= 2 {
        assert passes[i].pattern == rule.currentValues[i - 2].pattern;
      }
    }
  }

  lemma ReplacementsPrint(rule: DocumentRule, current: Parts, rollback: Parts)
    requires ValidRule(rule) && WellFormed(current)
    ensures Prints(Replacements(rule, Render(GitTag, current), Render(GitTag, rollback)), PassesOf(rule, current, rollback))
  {
    hide WellBuilt, LT.Exclusive, Render;
    DerivedNames(current);
    var rs := Replacements(rule, Render(GitTag, current), Render(GitTag, rollback));
    var passes := PassesOf(rule, current, rollback);
    forall k | 0 <= k < |rs|
      ensures rs[k].pattern == passes[k].pattern && rs[k].value == Render(passes[k].pattern.kind, passes[k].parts)
    {
      if k >= 2 {
        assert rule.currentValues[k - 2].valueType == rule.currentValues[k - 2].pattern.kind;
      }
    }
  }

  lemma CountedFits(rule: DocumentRule, text: Text, currentTag: string, rollbackTag: string)
    ensures CountsFit(Replacements(rule, currentTag, rollbackTag), text) <==> Counted(rule, text)
  {
    hide Occurrences, CurrentValue;
    var rs := Replacements(rule, currentTag, rollbackTag);
    assert rs[0].pattern == INSTALL && rs[1].pattern == ROLLBACK;
    forall k | 0 <= k < |rule.currentValues|
      ensures rs[k + 2].pattern == rule.currentValues[k].pattern && rs[k + 2].expected == rule.currentValues[k].expected
    {
    }
    if Counted(rule, text) {
      forall k | 0 <= k < |rs| ensures Occurrences(rs[k].pattern, text) == rs[k].expected {
        if k >= 2 {
          assert rs[k].pattern == rule.currentValues[k - 2].pattern;
        }
      }
    }
  }

  /** `rewrite_document` succeeds exactly on documents with the expected number of slots, whatever
      the versions, and writes every slot in one run. */
  lemma RewriteRuns(rule: DocumentRule, text: Text, current: Parts, rollback: Parts)
    requires ValidRule(rule) && WellFormed(current) && WellFormed(rollback)
    ensures var r := Rewritten(rule, text, Render(GitTag, current), Render(GitTag, rollback));
            && (r.Ok? <==> Counted(rule, text))
            && (r.Ok? ==> r.value == RunText(PassesOf(rule, current, rollback), text))
  {
    hide WellBuilt, LT.Exclusive, Render, Counted, CountsFit, RunText, ReplaceAll, Replacements, PassesOf;
    PassesAreValid(rule, current, rollback);
    ReplacementsPrint(rule, current, rollback);
    ReplaceAllRuns(rule.path, text, Replacements(rule, Render(GitTag, current), Render(GitTag, rollback)),
                   PassesOf(rule, current, rollback));
    CountedFits(rule, text, Render(GitTag, current), Render(GitTag, rollback));
  }

  /** A failing rewrite names the first expression of the rule, installs and rollbacks first, whose count in
      the document is not the expected one, with that count. */
  lemma RewriteReportsFirstMismatch(rule: DocumentRule, text: Text, current: Parts, rollback: Parts)
    requires ValidRule(rule) && WellFormed(current) && WellFormed(rollback)
    requires Rewritten(rule, text, Render(GitTag, current), Render(GitTag, rollback)).Err?
    ensures var e := Rewritten(rule, text, Render(GitTag, current), Render(GitTag, rollback)).error;
            var installs, rollbacks := Occurrences(INSTALL, text), Occurrences(ROLLBACK, text);
            if installs != rule.installs then e == WrongCount(rule.path, "install command", installs)
            else if rollbacks != rule.rollbacks then e == WrongCount(rule.path, "rollback command", rollbacks)
            else exists k :: 0 <= k < |rule.currentValues| && IsFirstMismatch(rule.currentValues, text, k)
                   && e == WrongCount(rule.path, rule.currentValues[k].name, Occurrences(rule.currentValues[k].pattern, text))
  {
    var rs := Replacements(rule, Render(GitTag, current), Render(GitTag, rollback));
    var passes := PassesOf(rule, current, rollback);
    RewriteRuns(rule, text, current, rollback);
    PassesAreValid(rule, current, rollback);
    ReplacementsPrint(rule, current, rollback);
    CountedFits(rule, text, Render(GitTag, current), Render(GitTag, rollback));
    hide WellBuilt, LT.Exclusive, Render, Counted, RunText, ReplaceAll, PassesOf, Occurrences, Replacements, CountsFit, IsFirstMismatch, ValidRule;
    FirstMismatchIsReported(rule.path, text, rs, passes);
    var k :| 0 <= k < |rs| && CountsFit(rs[..k], text) && Occurrences(rs[k].pattern, text) != rs[k].expected
      && ReplaceAll(rule.path, text, rs) == Err(WrongCount(rule.path, rs[k].name, Occurrences(rs[k].pattern, text)));
    MismatchOfRule(rule, Render(GitTag, current), Render(GitTag, rollback), text, k);
  }

  /** The first mismatch among the replacements of a rule. */
  lemma MismatchOfRule(rule: DocumentRule, currentTag: string, rollbackTag: string, text: Text, k: nat)
    requires k < 2 + |rule.currentValues|
    requires var rs := Replacements(rule, currentTag, rollbackTag);
             CountsFit(rs[..k], text) && Occurrences(rs[k].pattern, text) != rs[k].expected
    ensures var name := Replacements(rule, currentTag, rollbackTag)[k].name;
            var pattern := Replacements(rule, currentTag, rollbackTag)[k].pattern;
            && (k == 0 <==> Occurrences(INSTALL, text) != rule.installs)
            && (k == 0 ==> name == "install command" && pattern == INSTALL)
            && (k == 1 ==> Occurrences(ROLLBACK, text) != rule.rollbacks && name == "rollback command" && pattern == ROLLBACK)
            && (k >= 2 ==> Occurrences(ROLLBACK, text) == rule.rollbacks && IsFirstMismatch(rule.currentValues, text, k - 2)
                           && name == rule.currentValues[k - 2].name && pattern == rule.currentValues[k - 2].pattern)
  {
    hide Occurrences, CurrentValue;
    var rs := Replacements(rule, currentTag, rollbackTag);
    assert rs[0] == Replacement(INSTALL, currentTag, rule.installs, "install command");
    assert rs[1] == Replacement(ROLLBACK, rollbackTag, rule.rollbacks, "rollback command");
    assert k > 0 ==> rs[..k][0] == rs[0];
    assert k > 1 ==> rs[..k][1] == rs[1];
    if k >= 2 {
      forall j | 0 <= j <= k - 2
        ensures rs[j + 2].pattern == rule.currentValues[j].pattern && rs[j + 2].expected == rule.currentValues[j].expected
        ensures j < k - 2 ==> Occurrences(rule.currentValues[j].pattern, text) == rule.currentValues[j].expected
      {
        assert j < k - 2 ==> rs[..k][j + 2] == rs[j + 2];
      }
    }
  }

  predicate IsFirstMismatch(rules: seq<CurrentValueRule>, text: Text, k: nat)
    requires k < |rules|
  {
    Occurrences(rules[k].pattern, text) != rules[k].expected &&
    forall j :: 0 <= j < k ==> Occurrences(rules[j].pattern, text) == rules[j].expected
  }

  /** The rewrite is idempotent: a rewritten document is rewritten to itself. */
  lemma RewriteIdempotent(rule: DocumentRule, text: Text, current: Parts, rollback: Parts)
    requires ValidRule(rule) && WellFormed(current) && WellFormed(rollback)
    ensures var r := Rewritten(rule, text, Render(GitTag, current), Render(GitTag, rollback));
            r.Ok? ==> Rewritten(rule, r.value, Render(GitTag, current), Render(GitTag, rollback)) == r
  {
    var passes := PassesOf(rule, current, rollback);
    RewriteRuns(rule, text, current, rollback);
    if Counted(rule, text) {
      var once := RunText(passes, text);
      RewriteRuns(rule, once, current, rollback);
      PassesAreValid(rule, current, rollback);
      hide WellBuilt, LT.Exclusive, Render;
      forall p ensures Occurrences(p, once) == Occurrences(p, text) {
        OccurrencesStay(passes, p, text);
      }
      PassesCompatible(rule, current, rollback);
      forall i | 0 <= i < |text| ensures RunText(passes, once)[i] == once[i] {
        RunPrints(passes, text[i]);
        TokenizeGood(true, text[i]);
        LT.RunSettles(passes, Tokens(text[i]));
        LT.SettledStays(passes, LT.RunPasses(passes, Tokens(text[i])));
      }
      assert RunText(passes, once) == once;
    }
  }

  lemma PassesCompatible(rule: DocumentRule, current: Parts, rollback: Parts)
    requires ValidRule(rule) && WellFormed(current) && WellFormed(rollback)
    requires LT.ValidPasses(PassesOf(rule, current, rollback))
    ensures LT.AllCompatible(PassesOf(rule, current, rollback))
  {
    hide WellBuilt;
    PassesAreValid(rule, current, rollback);
    var passes := PassesOf(rule, current, rollback);
    forall i, j | 0 <= i < |passes| && 0 <= j < |passes| ensures LT.Compatible(passes[i], passes[j]) {
      if i != 1 && j == 1 {
        assert LT.Exclusive(passes[i].pattern, ROLLBACK);
      } else if i == 1 && j != 1 {
        assert LT.Exclusive(passes[j].pattern, ROLLBACK);
      }
    }
  }
}
