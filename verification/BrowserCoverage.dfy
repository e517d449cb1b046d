/**
 The coverage gate on a browser test report: a recursive visit of the tree of suites that fills a
 list of errors and a set of observed titles, and the meaning of its verdict.
 */
module BrowserCoverage {
  import opened Sequences
  import opened Wrappers

  /** One test of a spec; a field that is missing reads as none. */
  datatype Test = Test(
    projectName: Option<string>, expectedStatus: Option<string>, status: Option<string>, results: seq<Option<string>>)

  datatype Spec = Spec(title: Option<string>, tests: seq<Test>)

  datatype Suite = Suite(specs: seq<Spec>, suites: seq<Suite>)

  datatype Report = Report(suites: seq<Suite>, hasErrors: bool)

  datatype Error =
    | NothingSelected
    | Unexpected(found: Option<string>)
    | Duplicate(title: string)
    | NotOneTest(title: string)
    | NotSuccessful(title: string)
    | MissingScenario(title: string)
    | GlobalError

  /** One run in Chromium that was expected to pass, and passed at the first try. */
  const PASSED := Test(Some("chromium"), Some("passed"), Some("expected"), [Some("passed")])

  /** The scenario ran once, in Chromium, and passed. */
  predicate Succeeded(spec: Spec) {
    && |spec.tests| == 1
    && var test := spec.tests[0];
    && test.projectName == Some("chromium") && test.expectedStatus == Some("passed") && test.status == Some("expected")
    && test.results == [Some("passed")]
  }

  /** The specs of a tree, at whatever depth. */
  function Flatten(suites: seq<Suite>): seq<Spec> {
    if suites == [] then [] else suites[0].specs + Flatten(suites[0].suites) + Flatten(suites[1..])
  }

  function Titles(specs: seq<Spec>): seq<Option<string>> {
    seq(|specs|, i requires 0 <= i < |specs| => specs[i].title)
  }

  function Somes(titles: set<string>): set<Option<string>> {
    set title | title in titles :: Some(title)
  }

  // ---------------------------------------------------------------- the visit

  datatype State = State(errors: seq<Error>, observed: set<string>)

  function Note(errors: seq<Error>, when: bool, error: Error): seq<Error> {
    if when then errors + [error] else errors
  }

  function Step(expected: set<string>, state: State, spec: Spec): State {
    if spec.title.None? || spec.title.value !in expected then state.(errors := state.errors + [Unexpected(spec.title)])
    else
      var title := spec.title.value;
      var noted := Note(state.errors, title in state.observed, Duplicate(title));
      State(Note(Note(noted, |spec.tests| != 1, NotOneTest(title)), |spec.tests| == 1 && !Succeeded(spec), NotSuccessful(title)),
            state.observed + {title})
  }

  function Scan(expected: set<string>, state: State, specs: seq<Spec>): State
    decreases |specs|
  {
    if specs == [] then state else Scan(expected, Step(expected, state, specs[0]), specs[1..])
  }

  lemma {:induction false} ScanConcat(expected: set<string>, state: State, a: seq<Spec>, b: seq<Spec>)
    ensures Scan(expected, state, a + b) == Scan(expected, Scan(expected, state, a), b)
    decreases |a|
  {
    if a == [] {
      assert a + b == b;
    } else {
      assert (a + b)[0] == a[0] && (a + b)[1..] == a[1..] + b;
      ScanConcat(expected, Step(expected, state, a[0]), a[1..], b);
    }
  }

  class Visitor {
    const expected: set<string>
    var errors: seq<Error>
    var observed: set<string>

    constructor (expected: set<string>, errors: seq<Error>)
      ensures this.expected == expected && Now() == State(errors, {})
    {
      this.expected, this.errors, observed := expected, errors, {};
    }

    function Now(): State
      reads this
    {
      State(errors, observed)
    }

    /** The visit of a forest treats its specs in the order of the flattened tree. */
    method Visit(suites: seq<Suite>)
      modifies this
      ensures Now() == Scan(expected, old(Now()), Flatten(suites))
      decreases suites
    {
      for k := 0 to |suites|
        invariant Scan(expected, Now(), Flatten(suites[k..])) == Scan(expected, old(Now()), Flatten(suites))
      {
        var suite := suites[k];
        var rest := Flatten(suites[k + 1..]);
        assert suites[k..][0] == suite && suites[k..][1..] == suites[k + 1..];
        ScanConcat(expected, Now(), suite.specs + Flatten(suite.suites), rest);
        ScanConcat(expected, Now(), suite.specs, Flatten(suite.suites));
        VisitSpecs(suite.specs);
        Visit(suite.suites);
      }
    }

    method VisitSpecs(specs: seq<Spec>)
      modifies this
      ensures Now() == Scan(expected, old(Now()), specs)
    {
      for k := 0 to |specs|
        invariant Scan(expected, Now(), specs[k..]) == Scan(expected, old(Now()), specs)
      {
        assert specs[k..][0] == specs[k] && specs[k..][1..] == specs[k + 1..];
        var spec := specs[k];
        assert Scan(expected, Now(), specs[k..]) == Scan(expected, Step(expected, Now(), spec), specs[k + 1..]);
        if spec.title.None? || spec.title.value !in expected {
          errors := errors + [Unexpected(spec.title)];
          continue;
        }
        var title := spec.title.value;
        if title in observed {
          errors := errors + [Duplicate(title)];
        }
        observed := observed + {title};
        if |spec.tests| != 1 {
          errors := errors + [NotOneTest(title)];
          continue;
        }
        var test := spec.tests[0];
        if test.projectName != Some("chromium") || test.expectedStatus != Some("passed") || test.status != Some("expected")
           || |test.results| != 1 || test.results[0] != Some("passed") {
          errors := errors + [NotSuccessful(title)];
        }
      }
    }
  }

  // ---------------------------------------------------------------- the verdict

  /** The report shows each expected scenario exactly once, nothing else, and each succeeding. */
  predicate Complete(specs: seq<Spec>, expected: set<string>) {
    && multiset(Titles(specs)) == multiset(Somes(expected))
    && forall spec <- specs :: spec.tests == [PASSED]
  }

  lemma SucceededIffPassedOnce(spec: Spec)
    ensures Succeeded(spec) <==> spec.tests == [PASSED]
  {
  }

  function Seen(specs: seq<Spec>, expected: set<string>): set<string> {
    set spec | spec in specs && spec.title.Some? && spec.title.value in expected :: spec.title.value
  }

  lemma {:induction false} ScanIsClean(expected: set<string>, state: State, specs: seq<Spec>)
    ensures var after := Scan(expected, state, specs);
            && (after.errors == [] <==>
                  && state.errors == []
                  && (forall spec <- specs :: Succeeded(spec) && spec.title.Some? && spec.title.value in expected - state.observed)
                  && Distinct(Titles(specs)))
            && after.observed == state.observed + Seen(specs, expected)
    decreases |specs|
  {
    if specs != [] {
      hide Succeeded;
      var first, rest := specs[0], specs[1..];
      assert specs == [first] + rest;
      ScanIsClean(expected, Step(expected, state, first), rest);
      DistinctTitles(first, rest);
    }
  }

  lemma DistinctTitles(first: Spec, rest: seq<Spec>)
    ensures Distinct(Titles([first] + rest)) <==> Distinct(Titles(rest)) && forall spec <- rest :: spec.title != first.title
  {
    var specs := [first] + rest;
    if Distinct(Titles(specs)) {
      forall i | 0 <= i < |rest| ensures rest[i].title != first.title {
        assert Titles(specs)[i + 1] == rest[i].title && Titles(specs)[0] == first.title;
      }
      forall i, j | 0 <= i < j < |rest| ensures Titles(rest)[i] != Titles(rest)[j] {
        assert Titles(specs)[i + 1] == rest[i].title && Titles(specs)[j + 1] == rest[j].title;
      }
    } else {
      var i, j :| 0 <= i < j < |specs| && Titles(specs)[i] == Titles(specs)[j];
      if i > 0 {
        assert Titles(rest)[i - 1] == Titles(rest)[j - 1];
      } else {
        assert rest[j - 1].title == first.title;
      }
    }
  }

  lemma CompleteIff(specs: seq<Spec>, expected: set<string>)
    ensures Complete(specs, expected) <==>
            var after := Scan(expected, State([], {}), specs);
            after.errors == [] && expected <= after.observed
  {
    hide Succeeded, Distinct;
    forall spec | spec in specs ensures Succeeded(spec) <==> spec.tests == [PASSED] {
      SucceededIffPassedOnce(spec);
    }
    ScanIsClean(expected, State([], {}), specs);
    OnceEachIsTheSet(Titles(specs), Somes(expected));
    ShowsExactly(specs, expected);
  }

  lemma ShowsExactly(specs: seq<Spec>, expected: set<string>)
    ensures Elements(Titles(specs)) == Somes(expected) <==>
            (forall spec <- specs :: spec.title.Some? && spec.title.value in expected) && expected <= Seen(specs, expected)
  {
    TitlesAre(specs);
    if Elements(Titles(specs)) == Somes(expected) {
      forall spec | spec in specs ensures spec.title.Some? && spec.title.value in expected {
        assert spec.title in Titles(specs) && spec.title in Somes(expected);
      }
      forall title | title in expected ensures title in Seen(specs, expected) {
        assert Some(title) in Somes(expected) && Some(title) in Elements(Titles(specs));
        var spec :| spec in specs && spec.title == Some(title);
      }
    }
    if (forall spec <- specs :: spec.title.Some? && spec.title.value in expected) && expected <= Seen(specs, expected) {
      forall title ensures title in Elements(Titles(specs)) <==> title in Somes(expected) {
        if title in Elements(Titles(specs)) {
          var spec :| spec in specs && spec.title == title;
        }
        if title in Somes(expected) {
          assert title.value in Seen(specs, expected);
        }
      }
    }
  }

  lemma TitlesAre(specs: seq<Spec>)
    ensures forall title :: title in Titles(specs) <==> exists spec <- specs :: spec.title == title
  {
    forall title ensures title in Titles(specs) <==> exists spec <- specs :: spec.title == title {
      if title in Titles(specs) {
        var i :| 0 <= i < |specs| && Titles(specs)[i] == title;
        assert specs[i] in specs;
      }
      if spec :| spec in specs && spec.title == title {
        var i :| 0 <= i < |specs| && specs[i] == spec;
        assert Titles(specs)[i] == title;
      }
    }
  }

  /** What is reported of scenario `k`, given the titles seen before the scenarios. */
  ghost predicate SpecReports(specs: seq<Spec>, expected: set<string>, observed: set<string>, k: nat, e: Error)
    requires k < |specs|
  {
    var spec := specs[k];
    match e
    case Unexpected(found) => spec.title == found && (found.None? || found.value !in expected)
    case Duplicate(title) =>
      spec.title == Some(title) && title in expected && (title in observed || exists j :: 0 <= j < k && specs[j].title == Some(title))
    case NotOneTest(title) => spec.title == Some(title) && title in expected && |spec.tests| != 1
    case NotSuccessful(title) => spec.title == Some(title) && title in expected && |spec.tests| == 1 && spec.tests != [PASSED]
    case _ => false
  }

  ghost predicate SomeSpecReports(specs: seq<Spec>, expected: set<string>, observed: set<string>, e: Error) {
    exists k :: 0 <= k < |specs| && SpecReports(specs, expected, observed, k, e)
  }

  lemma StepReports(expected: set<string>, state: State, spec: Spec, rest: seq<Spec>, e: Error)
    ensures e in Step(expected, state, spec).errors <==> e in state.errors || SpecReports([spec] + rest, expected, state.observed, 0, e)
  {
    SucceededIffPassedOnce(spec);
    hide Succeeded;
  }

  lemma LaterReports(expected: set<string>, state: State, spec: Spec, rest: seq<Spec>, k: nat, e: Error)
    requires k < |rest|
    ensures SpecReports([spec] + rest, expected, state.observed, k + 1, e) <==>
            SpecReports(rest, expected, Step(expected, state, spec).observed, k, e)
  {
    var specs := [spec] + rest;
    assert specs[k + 1] == rest[k];
    if e.Duplicate? && rest[k].title == Some(e.title) && e.title in expected {
      if j :| 0 <= j < k && rest[j].title == Some(e.title) {
        assert specs[j + 1].title == Some(e.title);
      }
      if spec.title == Some(e.title) {
        assert specs[0].title == Some(e.title);
      }
      if j :| 0 < j < k + 1 && specs[j].title == Some(e.title) {
        assert rest[j - 1].title == Some(e.title);
      }
    }
  }

  /** The visit reports what is to be said of each scenario, and nothing else. */
  lemma {:induction false} ScanReports(expected: set<string>, state: State, specs: seq<Spec>, e: Error)
    ensures e in Scan(expected, state, specs).errors <==> e in state.errors || SomeSpecReports(specs, expected, state.observed, e)
    decreases |specs|
  {
    if specs != [] {
      hide Step, SpecReports;
      var first, rest := specs[0], specs[1..];
      assert specs == [first] + rest;
      var next := Step(expected, state, first);
      ScanReports(expected, next, rest, e);
      StepReports(expected, state, first, rest, e);
      forall k | 0 <= k < |rest|
        ensures SpecReports(specs, expected, state.observed, k + 1, e) <==> SpecReports(rest, expected, next.observed, k, e)
      {
        LaterReports(expected, state, first, rest, k, e);
      }
      if k :| 0 <= k < |specs| && SpecReports(specs, expected, state.observed, k, e) {
        if k > 0 {
          assert SpecReports(rest, expected, next.observed, k - 1, e);
        }
      }
    }
  }

  /** What is reported of the whole report, beside its scenarios. */
  ghost predicate ReportReports(report: Report, expected: set<string>, e: Error) {
    match e
    case NothingSelected => expected == {}
    case MissingScenario(title) => title in expected && forall spec <- Flatten(report.suites) :: spec.title != Some(title)
    case GlobalError => report.hasErrors
    case _ => false
  }

  lemma NothingLeft(a: set<string>, b: set<string>)
    ensures a - b == {} <==> a <= b
  {
    if a - b == {} {
      forall x | x in a ensures x in b {
        assert x !in a - b;
      }
    }
  }

  method MissingScenarios(titles: set<string>) returns (errors: seq<Error>)
    ensures |errors| == |titles| && (errors == [] <==> titles == {})
    ensures forall error :: error in errors <==> error.MissingScenario? && error.title in titles
  {
    errors := [];
    var todo := titles;
    while todo != {}
      invariant todo <= titles && |errors| + |todo| == |titles|
      invariant forall error :: error in errors <==> error.MissingScenario? && error.title in titles - todo
      decreases |todo|
    {
      var title :| title in todo;
      errors := errors + [MissingScenario(title)];
      todo := todo - {title};
    }
  }

  /** `browser_coverage_errors` for the required titles that the filter selects. */
  method BrowserCoverageErrors(report: Report, required: set<string>, selects: string -> bool) returns (errors: seq<Error>)
    ensures var expected := set title | title in required && selects(title);
            && (errors == [] <==> expected != {} && !report.hasErrors && Complete(Flatten(report.suites), expected))
            && forall e :: e in errors <==>
                 SomeSpecReports(Flatten(report.suites), expected, {}, e) || ReportReports(report, expected, e)
  {
    var expected := set title | title in required && selects(title);
    var visitor := new Visitor(expected, if expected == {} then [NothingSelected] else []);
    visitor.Visit(report.suites);
    hide Flatten, Scan, Complete;
    CompleteIff(Flatten(report.suites), expected);
    errors := visitor.errors;
    ErrorsStay(expected, State([NothingSelected], {}), Flatten(report.suites));
    SeenIsObserved(expected, State(if expected == {} then [NothingSelected] else [], {}), Flatten(report.suites));
    forall e ensures e in visitor.errors <==>
                     (e == NothingSelected && expected == {}) || SomeSpecReports(Flatten(report.suites), expected, {}, e)
    {
      ScanReports(expected, State(if expected == {} then [NothingSelected] else [], {}), Flatten(report.suites), e);
    }
    hide SomeSpecReports;
    var missing := MissingScenarios(expected - visitor.observed);
    NothingLeft(expected, visitor.observed);
    errors := errors + missing;
    if report.hasErrors {
      errors := errors + [GlobalError];
    }
  }

  lemma SeenIsObserved(expected: set<string>, state: State, specs: seq<Spec>)
    requires state.observed == {}
    ensures forall title <- expected :: title in Scan(expected, state, specs).observed <==> exists spec <- specs :: spec.title == Some(title)
  {
    ScanIsClean(expected, state, specs);
    hide Scan, Succeeded;
  }

  lemma {:induction false} ErrorsStay(expected: set<string>, state: State, specs: seq<Spec>)
    requires state.errors != []
    ensures Scan(expected, state, specs).errors != []
    decreases |specs|
  {
    if specs != [] {
      ErrorsStay(expected, Step(expected, state, specs[0]), specs[1..]);
    }
  }

  /** The verdict depends on the scenarios alone, not on their order or nesting. */
  lemma NestingDoesNotMatter(a: seq<Suite>, b: seq<Suite>, expected: set<string>)
    requires multiset(Flatten(a)) == multiset(Flatten(b))
    ensures Complete(Flatten(a), expected) <==> Complete(Flatten(b), expected)
  {
    hide Succeeded, Flatten, Titles;
    SameTitles(Flatten(a), Flatten(b));
    forall spec ensures spec in Flatten(a) <==> spec in Flatten(b) {
      assert spec in multiset(Flatten(a)) <==> spec in multiset(Flatten(b));
    }
  }

  lemma {:induction false} SameTitles(a: seq<Spec>, b: seq<Spec>)
    requires multiset(a) == multiset(b)
    ensures multiset(Titles(a)) == multiset(Titles(b))
    decreases |a|
  {
    if a == [] {
      assert |multiset(b)| == 0;
      return;
    }
    assert a[0] in multiset(b);
    var k :| 0 <= k < |b| && b[k] == a[0];
    SameWithout(a, 0, b, k);
    SameTitles(Without(a, 0), Without(b, k));
    TitlesWithout(a, 0);
    TitlesWithout(b, k);
    SameWithout(Titles(a), 0, Titles(b), k);
  }

  lemma TitlesWithout(specs: seq<Spec>, k: nat)
    requires k < |specs|
    ensures Titles(Without(specs, k)) == Without(Titles(specs), k)
  {
  }
}
