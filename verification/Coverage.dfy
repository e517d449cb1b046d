/**
 The coverage gate on the event log of a Go test run: the loop over the lines, and the declarative
 meaning of its verdict.
 */
module Coverage {
  import opened Sequences
  import opened Strings
  import opened Wrappers

  /** The `Test` field of an event. */
  datatype TestField = Absent | NotString | Name(name: string)

  /** A line of the log: blank, not JSON, JSON but no event, or an event. */
  datatype Line =
    | Blank
    | Malformed
    | NoEvent
    | Event(action: string, package: Option<string>, test: TestField)

  datatype Error =
    | InvalidLine(number: nat)
    | InvalidTestName(number: nat)
    | BuildFailed
    | PackageFailed(action: string)
    | TestFailed(test: string, action: string)
    | PassWithoutRun(test: string)
    | MissingRun(test: string)
    | MissingPass(test: string)
    | Incomplete(test: string)
    | MissingPackagePass
    | Exited(code: int)

  // ---------------------------------------------------------------- what the log says

  predicate OfPackage(line: Line, package: string) {
    line.Event? && line.package == Some(package)
  }

  /** An event of the package itself: without a test, or with an empty one. */
  predicate OfWholePackage(line: Line, package: string, action: string) {
    OfPackage(line, package) && line.action == action && (line.test.Absent? || line.test == Name(""))
  }

  predicate OfTest(line: Line, package: string, action: string, test: string) {
    OfPackage(line, package) && line.action == action && line.test == Name(test) && test != ""
  }

  predicate WellFormed(line: Line, package: string) {
    line.Blank? || (line.Event? && (OfPackage(line, package) ==> !line.test.NotString?))
  }

  predicate Fails(line: Line, package: string) {
    || (line.Event? && line.action == "build-fail")
    || (OfPackage(line, package) && !line.test.NotString? && line.action in {"fail", "skip"})
  }

  predicate RunsBefore(lines: seq<Line>, package: string, test: string, before: nat)
    requires before <= |lines|
  {
    exists j :: 0 <= j < before && OfTest(lines[j], package, "run", test)
  }

  function Tests(lines: seq<Line>, package: string, action: string): set<string> {
    set line | line in lines && line.Event? && line.test.Name? && OfTest(line, package, action, line.test.name) :: line.test.name
  }

  function Ran(lines: seq<Line>, package: string): set<string> { Tests(lines, package, "run") }

  function Passed(lines: seq<Line>, package: string): set<string> { Tests(lines, package, "pass") }

  function Finished(lines: seq<Line>, package: string): set<string> {
    Passed(lines, package) + Tests(lines, package, "fail") + Tests(lines, package, "skip")
  }

  /** The gate's meaning: a clean log in which every test that ran finished and passed after it ran,
      with all required ones among them. */
  ghost predicate Covered(lines: seq<Line>, package: string, required: seq<string>, code: int) {
    && (forall line <- lines :: WellFormed(line, package) && !Fails(line, package))
    && (exists line <- lines :: OfWholePackage(line, package, "pass"))
    && (forall k, test :: 0 <= k < |lines| && OfTest(lines[k], package, "pass", test) ==> RunsBefore(lines, package, test, k))
    && Ran(lines, package) == Passed(lines, package)
    && (forall test <- required :: test in Ran(lines, package))
    && code == 0
  }

  lemma InTests(lines: seq<Line>, package: string, action: string, test: string)
    ensures test in Tests(lines, package, action) <==> exists line <- lines :: OfTest(line, package, action, test)
  {
  }

  lemma TestsSnoc(lines: seq<Line>, line: Line, package: string, action: string)
    ensures Tests(lines + [line], package, action) ==
            Tests(lines, package, action) +
            if line.Event? && line.test.Name? && OfTest(line, package, action, line.test.name) then {line.test.name} else {}
  {
    assert forall l :: l in lines + [line] <==> l in lines || l == line;
    hide OfTest;
  }

  // ---------------------------------------------------------------- the loop

  /** What the loop has established after some lines, and whether it has reported no error. */
  ghost predicate Clean(lines: seq<Line>, package: string) {
    && (forall line <- lines :: WellFormed(line, package) && !Fails(line, package))
    && forall k, test :: 0 <= k < |lines| && OfTest(lines[k], package, "pass", test) ==> RunsBefore(lines, package, test, k)
  }

  lemma RunsBeforeIffRan(lines: seq<Line>, package: string, test: string)
    ensures RunsBefore(lines, package, test, |lines|) <==> test in Ran(lines, package)
  {
    InTests(lines, package, "run", test);
    if test in Ran(lines, package) {
      var line :| line in lines && OfTest(line, package, "run", test);
      var j :| 0 <= j < |lines| && lines[j] == line;
    }
    hide OfTest;
  }

  lemma CleanSnoc(lines: seq<Line>, line: Line, package: string)
    ensures Clean(lines + [line], package) <==>
            && Clean(lines, package) && WellFormed(line, package) && !Fails(line, package)
            && (line.Event? && line.test.Name? && OfTest(line, package, "pass", line.test.name) ==>
                  line.test.name in Ran(lines, package))
  {
    hide WellFormed, Fails, Ran;
    var all := lines + [line];
    assert all[|lines|] == line;
    assert forall l :: l in all <==> l in lines || l == line;
    forall k, test | 0 <= k <= |lines|
      ensures RunsBefore(all, package, test, k) <==> RunsBefore(lines, package, test, k)
    {
      if j :| 0 <= j < k && OfTest(lines[j], package, "run", test) {
        assert OfTest(all[j], package, "run", test);
      }
      if j :| 0 <= j < k && OfTest(all[j], package, "run", test) {
        assert OfTest(lines[j], package, "run", test);
      }
    }
    forall test ensures RunsBefore(lines, package, test, |lines|) <==> test in Ran(lines, package) {
      RunsBeforeIffRan(lines, package, test);
    }
    if Clean(all, package) {
      forall k, test | 0 <= k < |lines| && OfTest(lines[k], package, "pass", test)
        ensures RunsBefore(lines, package, test, k)
      {
        assert all[k] == lines[k];
        assert RunsBefore(all, package, test, k);
      }
      if line.Event? && line.test.Name? && OfTest(line, package, "pass", line.test.name) {
        assert RunsBefore(all, package, line.test.name, |lines|);
      }
    }
  }

  /** What the gate reports of line `k` of the log. */
  predicate LineReports(lines: seq<Line>, package: string, k: nat, e: Error)
    requires k < |lines|
  {
    var line := lines[k];
    match e
    case InvalidLine(number) => number == k + 1 && (line.Malformed? || line.NoEvent?)
    case InvalidTestName(number) => number == k + 1 && OfPackage(line, package) && line.test.NotString?
    case BuildFailed => line.Event? && line.action == "build-fail"
    case PackageFailed(action) => (action == "fail" || action == "skip") && OfWholePackage(line, package, action)
    case TestFailed(test, action) => (action == "fail" || action == "skip") && OfTest(line, package, action, test)
    case PassWithoutRun(test) => OfTest(line, package, "pass", test) && !RunsBefore(lines, package, test, k)
    case _ => false
  }

  /** One of the first `n` lines is reported so. */
  ghost predicate SomeLineReports(lines: seq<Line>, package: string, n: nat, e: Error)
    requires n <= |lines|
  {
    exists k :: 0 <= k < n && LineReports(lines, package, k, e)
  }

  /** The errors of one line, given the tests that ran before. */
  function LineErrors(line: Line, number: nat, package: string, ran: set<string>): seq<Error> {
    match line
    case Blank => []
    case Malformed => [InvalidLine(number)]
    case NoEvent => [InvalidLine(number)]
    case Event(action, from, test) =>
      (if action == "build-fail" then [BuildFailed] else []) +
      if from != Some(package) then []
      else if test.NotString? then [InvalidTestName(number)]
      else if test.Absent? || test.name == "" then if action in {"fail", "skip"} then [PackageFailed(action)] else []
      else if action in {"fail", "skip"} then [TestFailed(test.name, action)]
      else if action == "pass" && test.name !in ran then [PassWithoutRun(test.name)]
      else []
  }

  lemma LineErrorIs(lines: seq<Line>, package: string, k: nat, e: Error)
    requires k < |lines|
    ensures e in LineErrors(lines[k], k + 1, package, Ran(lines[..k], package)) <==> LineReports(lines, package, k, e)
  {
    hide RunsBefore, Ran;
    if e.PassWithoutRun? {
      RanSoFar(lines, package, k, e.test);
    }
    var line := lines[k];
    if line.Event? && line.package == Some(package) && line.test.Name? {
      RanSoFar(lines, package, k, line.test.name);
    }
  }

  lemma RanSoFar(lines: seq<Line>, package: string, k: nat, test: string)
    requires k <= |lines|
    ensures test in Ran(lines[..k], package) <==> RunsBefore(lines, package, test, k)
  {
    hide OfTest, Ran;
    RunsBeforeIffRan(lines[..k], package, test);
    if j :| 0 <= j < k && OfTest(lines[j], package, "run", test) {
      assert lines[..k][j] == lines[j];
    }
  }

  function AllLineErrors(lines: seq<Line>, package: string): seq<Error> {
    if lines == [] then [] else
    var init, last := lines[..|lines| - 1], lines[|lines| - 1];
    AllLineErrors(init, package) + LineErrors(last, |lines|, package, Ran(init, package))
  }

  lemma {:induction false} AllLineErrorsAre(lines: seq<Line>, package: string, n: nat, e: Error)
    requires n <= |lines|
    ensures e in AllLineErrors(lines[..n], package) <==> SomeLineReports(lines, package, n, e)
  {
    hide LineReports, LineErrors, Ran;
    if n > 0 {
      AllLineErrorsAre(lines, package, n - 1, e);
      LineErrorIs(lines, package, n - 1, e);
      assert lines[..n][..n - 1] == lines[..n - 1];
    }
  }

  /** The tests that passed after they had run, as the loop collects them. */
  function Collected(lines: seq<Line>, package: string): set<string> {
    if lines == [] then {} else
    var init, last := lines[..|lines| - 1], lines[|lines| - 1];
    Collected(init, package) +
    if last.Event? && last.test.Name? && OfTest(last, package, "pass", last.test.name) && last.test.name in Ran(init, package)
    then {last.test.name} else {}
  }

  /** The test passed after it had run, within the first `n` lines. */
  ghost predicate PassedAfterRun(lines: seq<Line>, package: string, test: string, n: nat)
    requires n <= |lines|
  {
    exists k :: 0 <= k < n && OfTest(lines[k], package, "pass", test) && RunsBefore(lines, package, test, k)
  }

  lemma {:induction false} CollectedAre(lines: seq<Line>, package: string, n: nat, test: string)
    requires n <= |lines|
    ensures test in Collected(lines[..n], package) <==> PassedAfterRun(lines, package, test, n)
  {
    hide Ran, RunsBefore;
    if n > 0 {
      CollectedAre(lines, package, n - 1, test);
      RanSoFar(lines, package, n - 1, test);
      assert lines[..n][..n - 1] == lines[..n - 1];
    }
  }

  lemma NoErrorOfLine(line: Line, number: nat, package: string, ran: set<string>)
    ensures LineErrors(line, number, package, ran) == [] <==>
            && WellFormed(line, package) && !Fails(line, package)
            && (line.Event? && line.test.Name? && OfTest(line, package, "pass", line.test.name) ==> line.test.name in ran)
  {
  }

  lemma {:induction false} NoErrorsIffClean(lines: seq<Line>, package: string)
    ensures AllLineErrors(lines, package) == [] <==> Clean(lines, package)
  {
    if lines != [] {
      var init, last := lines[..|lines| - 1], lines[|lines| - 1];
      assert lines == init + [last];
      NoErrorsIffClean(init, package);
      NoErrorOfLine(last, |lines|, package, Ran(init, package));
      CleanSnoc(init, last, package);
    } else {
      NothingLogged(package);
    }
  }

  /** What one more line adds to what the loop has. */
  lemma ScanStep(init: seq<Line>, line: Line, package: string)
    ensures AllLineErrors(init + [line], package) == AllLineErrors(init, package) + LineErrors(line, |init| + 1, package, Ran(init, package))
    ensures var named := line.Event? && line.package == Some(package) && line.test.Name? && line.test.name != "";
            && Ran(init + [line], package) == Ran(init, package) + (if named && line.action == "run" then {line.test.name} else {})
            && Finished(init + [line], package) ==
               Finished(init, package) + (if named && line.action in {"pass", "fail", "skip"} then {line.test.name} else {})
            && Collected(init + [line], package) ==
               Collected(init, package) + (if named && line.action == "pass" && line.test.name in Ran(init, package) then {line.test.name} else {})
  {
    assert (init + [line])[..|init|] == init;
    hide Tests, LineErrors;
    TestsSnoc(init, line, package, "run");
    TestsSnoc(init, line, package, "pass");
    TestsSnoc(init, line, package, "fail");
    TestsSnoc(init, line, package, "skip");
  }

  method ScanLog(lines: seq<Line>, package: string)
    returns (ran: set<string>, passed: set<string>, finished: set<string>, packagePassed: bool, errors: seq<Error>)
    ensures ran == Ran(lines, package) && finished == Finished(lines, package)
    ensures forall test :: test in passed <==> PassedAfterRun(lines, package, test, |lines|)
    ensures packagePassed <==> exists line <- lines :: OfWholePackage(line, package, "pass")
    ensures errors == [] <==> Clean(lines, package)
    ensures forall e :: e in errors <==> SomeLineReports(lines, package, |lines|, e)
  {
    ran, passed, finished, packagePassed, errors := {}, {}, {}, false, [];
    hide Clean, Tests, Ran, Finished, SomeLineReports, PassedAfterRun, AllLineErrors, Collected;
    NothingLogged(package);
    for k := 0 to |lines|
      invariant errors == AllLineErrors(lines[..k], package) && passed == Collected(lines[..k], package)
      invariant ran == Ran(lines[..k], package) && finished == Finished(lines[..k], package)
      invariant packagePassed <==> exists i :: 0 <= i < k && OfWholePackage(lines[i], package, "pass")
    {
      var line := lines[k];
      ScanStep(lines[..k], line, package);
      assert lines[..k + 1] == lines[..k] + [line];
      match line {
        case Blank =>
        case Malformed => errors := errors + [InvalidLine(k + 1)];
        case NoEvent => errors := errors + [InvalidLine(k + 1)];
        case Event(action, from, test) =>
          if action == "build-fail" {
            errors := errors + [BuildFailed];
          }
          if from == Some(package) {
            if test.NotString? {
              errors := errors + [InvalidTestName(k + 1)];
            } else if test.Absent? || test.name == "" {
              if action == "pass" {
                packagePassed := true;
              } else if action in {"fail", "skip"} {
                errors := errors + [PackageFailed(action)];
              }
            } else if action == "run" {
              ran := ran + {test.name};
            } else if action in {"pass", "fail", "skip"} {
              finished := finished + {test.name};
              if action != "pass" {
                errors := errors + [TestFailed(test.name, action)];
              } else if test.name !in ran {
                errors := errors + [PassWithoutRun(test.name)];
              } else {
                passed := passed + {test.name};
              }
            }
          }
      }
    }
    assert lines[..|lines|] == lines;
    NoErrorsIffClean(lines, package);
    forall e ensures e in errors <==> SomeLineReports(lines, package, |lines|, e) {
      AllLineErrorsAre(lines, package, |lines|, e);
    }
    forall test ensures test in passed <==> PassedAfterRun(lines, package, test, |lines|) {
      CollectedAre(lines, package, |lines|, test);
    }
  }

  lemma NothingLogged(package: string)
    ensures Clean([], package) && AllLineErrors([], package) == [] && Collected([], package) == {}
    ensures Ran([], package) == {} == Finished([], package)
    ensures forall action :: Tests([], package, action) == {}
  {
  }

  /** In a clean log, what finished passed, and what passed had run. */
  lemma CleanSets(lines: seq<Line>, package: string)
    requires Clean(lines, package)
    ensures Finished(lines, package) == Passed(lines, package) <= Ran(lines, package)
  {
    hide Tests, Ran, WellFormed;
    forall test | test in Passed(lines, package) ensures test in Ran(lines, package) {
      InTests(lines, package, "pass", test);
      var line :| line in lines && OfTest(line, package, "pass", test);
      var k :| 0 <= k < |lines| && lines[k] == line;
      assert RunsBefore(lines, package, test, k);
      RunsBeforeIffRan(lines, package, test);
    }
    forall test ensures test !in Tests(lines, package, "fail") && test !in Tests(lines, package, "skip") {
      InTests(lines, package, "fail", test);
      InTests(lines, package, "skip", test);
      assert forall line <- lines :: !Fails(line, package);
    }
  }

  /** What the gate reports of the whole log, beside its lines. */
  ghost predicate LogReports(lines: seq<Line>, package: string, required: seq<string>, code: int, e: Error) {
    match e
    case MissingRun(test) => test in required && test !in Ran(lines, package)
    case MissingPass(test) => test in required && test in Ran(lines, package) && !PassedAfterRun(lines, package, test, |lines|)
    case Incomplete(test) => test in Ran(lines, package) && test !in Finished(lines, package)
    case MissingPackagePass => !exists line <- lines :: OfWholePackage(line, package, "pass")
    case Exited(c) => c == code && code != 0
    case _ => false
  }

  method MissingTests(required: seq<string>, ran: set<string>, passed: set<string>) returns (missing: seq<Error>)
    ensures forall e :: e in missing <==>
              (e.MissingRun? && e.test in required && e.test !in ran) ||
              (e.MissingPass? && e.test in required && e.test in ran && e.test !in passed)
  {
    missing := [];
    for k := 0 to |required|
      invariant forall e :: e in missing <==>
                  (e.MissingRun? && e.test in required[..k] && e.test !in ran) ||
                  (e.MissingPass? && e.test in required[..k] && e.test in ran && e.test !in passed)
    {
      assert required[..k + 1] == required[..k] + [required[k]];
      if required[k] !in ran {
        missing := missing + [MissingRun(required[k])];
      } else if required[k] !in passed {
        missing := missing + [MissingPass(required[k])];
      }
    }
    assert required[..|required|] == required;
  }

  method IncompleteTests(tests: set<string>) returns (incomplete: seq<Error>)
    ensures forall e :: e in incomplete <==> e.Incomplete? && e.test in tests
  {
    incomplete := [];
    var todo := tests;
    while todo != {}
      invariant todo <= tests
      invariant forall e :: e in incomplete <==> e.Incomplete? && e.test in tests - todo
      decreases |todo|
    {
      var test :| test in todo;
      incomplete := incomplete + [Incomplete(test)];
      todo := todo - {test};
    }
  }

  /** `coverage_errors`: what is reported of each line and of the whole log, and nothing else. */
  method CoverageErrors(lines: seq<Line>, package: string, tests: seq<string>, subtests: seq<string>, code: int)
    returns (errors: seq<Error>)
    ensures errors == [] <==> Covered(lines, package, tests + subtests, code)
    ensures forall e :: e in errors <==>
              SomeLineReports(lines, package, |lines|, e) || LogReports(lines, package, tests + subtests, code, e)
  {
    hide Tests, Ran, Passed, Finished, WellFormed, Fails, OfTest, OfWholePackage, SomeLineReports, PassedAfterRun;
    var ran, passed, finished, packagePassed, scanned := ScanLog(lines, package);
    var missing := MissingTests(tests + subtests, ran, passed);
    var incomplete := IncompleteTests(ran - finished);
    errors := scanned + missing + incomplete;
    if !packagePassed {
      errors := errors + [MissingPackagePass];
    }
    if code != 0 {
      errors := errors + [Exited(code)];
    }
    assert forall e :: e in errors <==> e in scanned || LogReports(lines, package, tests + subtests, code, e);
    NothingReported(lines, package, tests + subtests, code, scanned);
    assert errors == [] <==> forall e :: e !in errors by { NothingListed(errors); }
  }

  lemma NothingListed(errors: seq<Error>)
    ensures errors == [] <==> forall e :: e !in errors
  {
    if errors != [] {
      assert errors[0] in errors;
    }
  }

  lemma NothingReported(lines: seq<Line>, package: string, required: seq<string>, code: int, scanned: seq<Error>)
    requires scanned == [] <==> Clean(lines, package)
    ensures (forall e :: e !in scanned && !LogReports(lines, package, required, code, e)) <==> Covered(lines, package, required, code)
  {
    NothingListed(scanned);
    CoveredIsClean(lines, package, required, code);
    hide Tests, WellFormed, Fails, OfTest, OfWholePackage, PassedAfterRun, Clean;
    if Clean(lines, package) {
      CleanSets(lines, package);
      CleanPassed(lines, package);
    }
    if forall e :: e !in scanned && !LogReports(lines, package, required, code, e) {
      assert !LogReports(lines, package, required, code, MissingPackagePass) && !LogReports(lines, package, required, code, Exited(code));
      forall test | test in required ensures test in Ran(lines, package) {
        assert !LogReports(lines, package, required, code, MissingRun(test));
      }
      forall test | test in Ran(lines, package) ensures test in Passed(lines, package) {
        assert !LogReports(lines, package, required, code, Incomplete(test));
      }
    }
  }

  lemma CleanPassed(lines: seq<Line>, package: string)
    requires Clean(lines, package)
    ensures forall test :: test in Passed(lines, package) <==> PassedAfterRun(lines, package, test, |lines|)
  {
    hide OfTest, Tests, WellFormed, Fails;
    forall test ensures test in Passed(lines, package) <==> PassedAfterRun(lines, package, test, |lines|) {
      InTests(lines, package, "pass", test);
      if line :| line in lines && OfTest(line, package, "pass", test) {
        var k :| 0 <= k < |lines| && lines[k] == line;
        assert RunsBefore(lines, package, test, k);
      }
    }
  }

  lemma CoveredIsClean(lines: seq<Line>, package: string, required: seq<string>, code: int)
    ensures Covered(lines, package, required, code) <==>
      && Clean(lines, package) && (exists line <- lines :: OfWholePackage(line, package, "pass"))
      && Ran(lines, package) == Passed(lines, package) && (forall test <- required :: test in Ran(lines, package)) && code == 0
  {
  }

  // ---------------------------------------------------------------- test by test

  /** What a line says of one test, or of the package itself under the empty name. */
  function ActionOf(line: Line, package: string, name: string): seq<string> {
    if line.Event? && line.package == Some(package) && (line.test == Name(name) || (name == "" && line.test == Absent))
    then [line.action] else []
  }

  /** What the log says of it, in order. */
  function ActionsOf(lines: seq<Line>, package: string, name: string): seq<string> {
    if lines == [] then [] else
    ActionsOf(lines[..|lines| - 1], package, name) + ActionOf(lines[|lines| - 1], package, name)
  }

  /** The actions of one test that is fine: it never fails, passes if it runs, and runs before it passes. */
  predicate Fine(actions: seq<string>) {
    && "fail" !in actions && "skip" !in actions
    && ("run" in actions ==> "pass" in actions)
    && forall k :: 0 <= k < |actions| && actions[k] == "pass" ==> "run" in actions[..k]
  }

  /** A line that can be read: blank, or an event that reports no failed build and, for this package,
      names its test if it has one. */
  predicate Readable(line: Line, package: string) {
    match line
    case Blank => true
    case Event(action, from, test) => action != "build-fail" && (from == Some(package) ==> test != NotString)
    case _ => false
  }

  lemma ActionsSnoc(lines: seq<Line>, line: Line, package: string, name: string)
    ensures ActionsOf(lines + [line], package, name) == ActionsOf(lines, package, name) + ActionOf(line, package, name)
  {
    assert (lines + [line])[..|lines|] == lines;
  }

  lemma {:induction false} ActionsAreOfTest(lines: seq<Line>, package: string, action: string, name: string)
    requires name != ""
    ensures action in ActionsOf(lines, package, name) <==> name in Tests(lines, package, action)
  {
    if lines != [] {
      hide Tests;
      var init, last := lines[..|lines| - 1], lines[|lines| - 1];
      assert lines == init + [last];
      ActionsAreOfTest(init, package, action, name);
      TestsSnoc(init, last, package, action);
    }
  }

  lemma {:induction false} ActionsAreOfPackage(lines: seq<Line>, package: string, action: string)
    ensures action in ActionsOf(lines, package, "") <==> exists line <- lines :: OfWholePackage(line, package, action)
  {
    if lines != [] {
      var init, last := lines[..|lines| - 1], lines[|lines| - 1];
      assert lines == init + [last];
      ActionsAreOfPackage(init, package, action);
      assert OfWholePackage(last, package, action) <==> action in ActionOf(last, package, "");
      hide OfWholePackage;
      assert forall line :: line in lines <==> line in init || line == last;
    }
  }

  /** Every prefix of a test's actions is what a prefix of the log says of it. */
  ghost predicate Orderly(lines: seq<Line>, package: string, name: string) {
    var actions := ActionsOf(lines, package, name);
    forall k :: 0 <= k < |actions| && actions[k] == "pass" ==> "run" in actions[..k]
  }

  lemma OrderlySnoc(lines: seq<Line>, line: Line, package: string, name: string)
    requires name != ""
    ensures Orderly(lines + [line], package, name) <==>
            Orderly(lines, package, name) && (OfTest(line, package, "pass", name) ==> name in Ran(lines, package))
  {
    ActionsSnoc(lines, line, package, name);
    ActionsAreOfTest(lines, package, "run", name);
    var before, more := ActionsOf(lines, package, name), ActionOf(line, package, name);
    assert OfTest(line, package, "pass", name) <==> more == ["pass"];
    hide Tests, OfTest, ActionsOf, ActionOf;
    var all := before + more;
    assert forall k :: 0 <= k < |before| ==> all[k] == before[k] && all[..k] == before[..k];
    assert more != [] ==> all[|before|] == more[0] && all[..|before|] == before;
  }

  /** A clean log has readable lines, no failure of anything, and passes only of tests that ran. */
  lemma {:induction false} CleanByTest(lines: seq<Line>, package: string)
    ensures Clean(lines, package) <==>
            && (forall line <- lines :: WellFormed(line, package) && !Fails(line, package))
            && forall name | name != "" :: Orderly(lines, package, name)
  {
    if lines == [] {
      return;
    }
    var init, last := lines[..|lines| - 1], lines[|lines| - 1];
    assert lines == init + [last];
    CleanByTest(init, package);
    CleanSnoc(init, last, package);
    hide Clean, Orderly, WellFormed, Fails, Tests;
    forall name | name != ""
      ensures Orderly(lines, package, name) <==>
              Orderly(init, package, name) && (OfTest(last, package, "pass", name) ==> name in Ran(init, package))
    {
      OrderlySnoc(init, last, package, name);
    }
  }

  ghost predicate NeverFails(lines: seq<Line>, package: string) {
    forall name :: "fail" !in ActionsOf(lines, package, name) && "skip" !in ActionsOf(lines, package, name)
  }

  ghost predicate ReportsNoFailure(line: Line, package: string) {
    forall name :: "fail" !in ActionOf(line, package, name) && "skip" !in ActionOf(line, package, name)
  }

  lemma NeverFailsSnoc(lines: seq<Line>, line: Line, package: string)
    ensures NeverFails(lines + [line], package) <==> NeverFails(lines, package) && ReportsNoFailure(line, package)
  {
    forall name ensures ActionsOf(lines + [line], package, name) == ActionsOf(lines, package, name) + ActionOf(line, package, name) {
      ActionsSnoc(lines, line, package, name);
    }
    hide ActionsOf, ActionOf;
    if NeverFails(lines + [line], package) {
      forall name
        ensures "fail" !in ActionsOf(lines, package, name) && "skip" !in ActionsOf(lines, package, name)
        ensures "fail" !in ActionOf(line, package, name) && "skip" !in ActionOf(line, package, name)
      {
        assert "fail" !in ActionsOf(lines + [line], package, name) && "skip" !in ActionsOf(lines + [line], package, name);
      }
    }
  }

  /** Readable lines without a failure, told by their actions. */
  lemma {:induction false} NothingFails(lines: seq<Line>, package: string)
    ensures (forall line <- lines :: WellFormed(line, package) && !Fails(line, package)) <==>
            (forall line <- lines :: Readable(line, package)) && NeverFails(lines, package)
  {
    if lines != [] {
      var init, last := lines[..|lines| - 1], lines[|lines| - 1];
      assert lines == init + [last];
      NothingFails(init, package);
      LineFails(last, package);
      NeverFailsSnoc(init, last, package);
      hide WellFormed, Fails, Readable, NeverFails, ReportsNoFailure;
      assert forall line :: line in lines <==> line in init || line == last;
    }
  }

  lemma LineFails(line: Line, package: string)
    ensures WellFormed(line, package) && !Fails(line, package) <==> Readable(line, package) && ReportsNoFailure(line, package)
  {
    if line.Event? && line.package == Some(package) && !line.test.NotString? {
      var name := if line.test.Absent? then "" else line.test.name;
      assert ActionOf(line, package, name) == [line.action];
      assert line.action in ActionOf(line, package, name);
    }
  }

  /** The verdict looks at each test alone: the exit code is 0, all lines can be read, the package passes
      and does not fail, every test is fine, and the required ones ran.  How the events of different
      tests interleave does not matter. */
  lemma CoveredTestByTest(lines: seq<Line>, package: string, required: seq<string>, code: int)
    ensures Covered(lines, package, required, code) <==>
            && code == 0 && (forall line <- lines :: Readable(line, package))
            && "pass" in ActionsOf(lines, package, "") && "fail" !in ActionsOf(lines, package, "") && "skip" !in ActionsOf(lines, package, "")
            && AllFine(lines, package)
            && forall name <- required :: name != "" && "run" in ActionsOf(lines, package, name)
  {
    CleanByTest(lines, package);
    NothingFails(lines, package);
    ActionsAreOfPackage(lines, package, "pass");
    NoEmptyName(lines, package);
    SameSets(lines, package);
    AllFineIff(lines, package);
    hide WellFormed, Fails, Readable, OfWholePackage, ActionsOf, Tests, OfTest, Clean, Orderly, NeverFails, AllFine;
    forall name | name != "" ensures "run" in ActionsOf(lines, package, name) <==> name in Ran(lines, package) {
      ActionsAreOfTest(lines, package, "run", name);
    }
    assert Covered(lines, package, required, code) <==>
      && Clean(lines, package) && (exists line <- lines :: OfWholePackage(line, package, "pass"))
      && Ran(lines, package) == Passed(lines, package) && (forall test <- required :: test in Ran(lines, package)) && code == 0
      by { CoveredIsClean(lines, package, required, code); }
  }

  ghost predicate AllFine(lines: seq<Line>, package: string) {
    forall name | name != "" :: Fine(ActionsOf(lines, package, name))
  }

  lemma FineIff(lines: seq<Line>, package: string, name: string)
    requires name != ""
    ensures Fine(ActionsOf(lines, package, name)) <==>
            && "fail" !in ActionsOf(lines, package, name) && "skip" !in ActionsOf(lines, package, name)
            && Orderly(lines, package, name)
            && (name in Ran(lines, package) ==> name in Passed(lines, package))
  {
    ActionsAreOfTest(lines, package, "run", name);
    ActionsAreOfTest(lines, package, "pass", name);
    hide ActionsOf, Tests;
  }

  lemma AllFineIff(lines: seq<Line>, package: string)
    ensures AllFine(lines, package) && "fail" !in ActionsOf(lines, package, "") && "skip" !in ActionsOf(lines, package, "") <==>
            && NeverFails(lines, package)
            && (forall name | name != "" :: Orderly(lines, package, name))
            && (forall name <- Ran(lines, package) :: name in Passed(lines, package))
  {
    NoEmptyName(lines, package);
    forall name | name != ""
      ensures Fine(ActionsOf(lines, package, name)) <==>
              && "fail" !in ActionsOf(lines, package, name) && "skip" !in ActionsOf(lines, package, name)
              && Orderly(lines, package, name)
              && (name in Ran(lines, package) ==> name in Passed(lines, package))
    {
      FineIff(lines, package, name);
    }
    hide ActionsOf, Tests, Fine, Orderly;
    if AllFine(lines, package) && "fail" !in ActionsOf(lines, package, "") && "skip" !in ActionsOf(lines, package, "") {
      forall name
        ensures "fail" !in ActionsOf(lines, package, name) && "skip" !in ActionsOf(lines, package, name)
        ensures name != "" ==> Orderly(lines, package, name)
        ensures name in Ran(lines, package) ==> name in Passed(lines, package)
      {
        assert name != "" ==> Fine(ActionsOf(lines, package, name));
      }
    }
  }

  lemma NoEmptyName(lines: seq<Line>, package: string)
    ensures forall action :: "" !in Tests(lines, package, action)
  {
  }

  lemma SameSets(lines: seq<Line>, package: string)
    ensures Clean(lines, package) ==>
              (Ran(lines, package) == Passed(lines, package) <==> forall name <- Ran(lines, package) :: name in Passed(lines, package))
  {
    if Clean(lines, package) {
      CleanSets(lines, package);
    }
  }

  // ---------------------------------------------------------------- what does not matter

  /** A well-formed event of another package, unless it reports a failed build. */
  predicate Foreign(line: Line, package: string) {
    line.Event? && line.package != Some(package) && line.action != "build-fail"
  }

  function WithoutForeign(lines: seq<Line>, package: string): seq<Line> {
    if lines == [] then [] else
    var before, last := WithoutForeign(lines[..|lines| - 1], package), lines[|lines| - 1];
    if Foreign(last, package) || last.Blank? then before else before + [last]
  }

  lemma {:induction false} ForeignKeepsClean(lines: seq<Line>, package: string)
    ensures Clean(lines, package) <==> Clean(WithoutForeign(lines, package), package)
    ensures forall action :: Tests(lines, package, action) == Tests(WithoutForeign(lines, package), package, action)
    ensures (exists line <- lines :: OfWholePackage(line, package, "pass")) <==>
            (exists line <- WithoutForeign(lines, package) :: OfWholePackage(line, package, "pass"))
  {
    if lines == [] {
      return;
    }
    var init, last := lines[..|lines| - 1], lines[|lines| - 1];
    var kept := WithoutForeign(init, package);
    ForeignKeepsClean(init, package);
    assert lines == init + [last];
    hide Clean, Tests, OfWholePackage;
    CleanSnoc(init, last, package);
    CleanSnoc(kept, last, package);
    forall action ensures Tests(lines, package, action) == Tests(WithoutForeign(lines, package), package, action) {
      TestsSnoc(init, last, package, action);
      TestsSnoc(kept, last, package, action);
    }
    NotForTheWholePackage(last, package);
    assert forall line :: line in lines <==> line in init || line == last;
  }

  lemma NotForTheWholePackage(line: Line, package: string)
    ensures Foreign(line, package) || line.Blank? ==> !OfWholePackage(line, package, "pass")
  {
  }

  /** Blank lines and events of other packages never change the verdict. */
  lemma OtherPackagesDoNotMatter(lines: seq<Line>, package: string, required: seq<string>, code: int)
    ensures Covered(lines, package, required, code) <==> Covered(WithoutForeign(lines, package), package, required, code)
  {
    hide Tests, Fails, WellFormed, OfWholePackage, OfTest, WithoutForeign;
    ForeignKeepsClean(lines, package);
  }

  // ---------------------------------------------------------------- tests that are started again

  predicate PassesLater(lines: seq<Line>, package: string, test: string, from: nat) {
    exists j :: from < j < |lines| && OfTest(lines[j], package, "pass", test)
  }

  /** Every start of a test is followed by a pass of that test. */
  ghost predicate EveryRunPasses(lines: seq<Line>, package: string) {
    forall i, test :: 0 <= i < |lines| && OfTest(lines[i], package, "run", test) ==> PassesLater(lines, package, test, i)
  }

  /** Where the last pass of a test stands, if it ever passes. */
  function LastPass(lines: seq<Line>, package: string, test: string): (at: Option<nat>)
    ensures at.Some? ==> at.value < |lines|
  {
    if lines == [] then None
    else if OfTest(lines[|lines| - 1], package, "pass", test) then Some(|lines| - 1)
    else LastPass(lines[..|lines| - 1], package, test)
  }

  lemma {:induction false} LastPassIsLast(lines: seq<Line>, package: string, test: string)
    ensures match LastPass(lines, package, test)
            case None => forall j :: 0 <= j < |lines| ==> !OfTest(lines[j], package, "pass", test)
            case Some(k) => OfTest(lines[k], package, "pass", test) &&
                            forall j :: k < j < |lines| ==> !OfTest(lines[j], package, "pass", test)
  {
    if lines != [] && !OfTest(lines[|lines| - 1], package, "pass", test) {
      var init := lines[..|lines| - 1];
      LastPassIsLast(init, package, test);
      assert forall j :: 0 <= j < |init| ==> lines[j] == init[j];
    }
  }

  ghost predicate StartedAfterLastPass(lines: seq<Line>, package: string, test: string)
    requires LastPass(lines, package, test).Some?
  {
    exists i :: LastPass(lines, package, test).value < i < |lines| && OfTest(lines[i], package, "run", test)
  }

  /** In a covered log every start is followed by a pass if and only if no test is started after its
      last pass. */
  lemma EveryRunPassesIff(lines: seq<Line>, package: string, required: seq<string>, code: int)
    requires Covered(lines, package, required, code)
    ensures forall test <- Passed(lines, package) :: LastPass(lines, package, test).Some?
    ensures EveryRunPasses(lines, package) <==>
            forall test <- Passed(lines, package) :: !StartedAfterLastPass(lines, package, test)
  {
    hide Tests, OfTest, WellFormed, Fails, LastPass, PassesLater;
    forall test | test in Passed(lines, package) ensures LastPass(lines, package, test).Some? {
      InTests(lines, package, "pass", test);
      LastPassIsLast(lines, package, test);
    }
    forall i, test | 0 <= i < |lines| && OfTest(lines[i], package, "run", test)
      ensures test in Passed(lines, package)
      ensures PassesLater(lines, package, test, i) <==> !(LastPass(lines, package, test).value < i)
    {
      InTests(lines, package, "run", test);
      assert lines[i] in lines;
      NotStartedAgainPasses(lines, package, test);
    }
  }

  lemma NotStartedAgainPasses(lines: seq<Line>, package: string, test: string)
    requires LastPass(lines, package, test).Some?
    ensures var k := LastPass(lines, package, test).value;
            forall i :: 0 <= i < |lines| && OfTest(lines[i], package, "run", test) ==>
              (PassesLater(lines, package, test, i) <==> !(k < i))
  {
    LastPassIsLast(lines, package, test);
    var k := LastPass(lines, package, test).value;
    assert OfTest(lines[k], package, "pass", test);
    assert !OfTest(lines[k], package, "run", test);
    hide OfTest, LastPass;
  }

  ghost predicate RunsOnce(lines: seq<Line>, package: string, test: string) {
    forall i, j :: 0 <= i < j < |lines| ==> !(OfTest(lines[i], package, "run", test) && OfTest(lines[j], package, "run", test))
  }

  /** When no test is started twice, every start in a covered log is followed by a pass. */
  lemma RunsOncePass(lines: seq<Line>, package: string, required: seq<string>, code: int)
    requires Covered(lines, package, required, code)
    requires forall test <- Ran(lines, package) :: RunsOnce(lines, package, test)
    ensures EveryRunPasses(lines, package)
  {
    hide Tests, OfTest, WellFormed, Fails;
    forall i, test | 0 <= i < |lines| && OfTest(lines[i], package, "run", test) ensures PassesLater(lines, package, test, i) {
      InTests(lines, package, "run", test);
      assert lines[i] in lines && RunsOnce(lines, package, test);
      PassesAfterRun(lines, package, required, code, test);
      var m, j :| 0 <= m < j < |lines| && OfTest(lines[m], package, "run", test) && OfTest(lines[j], package, "pass", test);
      assert m == i;
    }
  }

  lemma PassesAfterRun(lines: seq<Line>, package: string, required: seq<string>, code: int, test: string)
    requires Covered(lines, package, required, code) && test in Ran(lines, package)
    ensures exists i, j :: 0 <= i < j < |lines| && OfTest(lines[i], package, "run", test) && OfTest(lines[j], package, "pass", test)
  {
    InTests(lines, package, "pass", test);
    hide Tests, WellFormed, Fails, OfTest;
    var line :| line in lines && OfTest(line, package, "pass", test);
    var j :| 0 <= j < |lines| && lines[j] == line;
    assert RunsBefore(lines, package, test, j);
    var i :| 0 <= i < j && OfTest(lines[i], package, "run", test);
  }

  /** Starting a test of a covered log once more keeps it covered, although that start never passes. */
  lemma StartingAgainStaysCovered(lines: seq<Line>, package: string, required: seq<string>, code: int, test: string)
    requires Covered(lines, package, required, code) && test in Ran(lines, package)
    ensures var again := lines + [Event("run", Some(package), Name(test))];
            Covered(again, package, required, code) && !EveryRunPasses(again, package)
  {
    var start := Event("run", Some(package), Name(test));
    var again := lines + [start];
    InTests(lines, package, "run", test);
    assert OfTest(start, package, "run", test) && again[|lines|] == start;
    CleanSnoc(lines, start, package);
    TestsSnoc(lines, start, package, "run");
    TestsSnoc(lines, start, package, "pass");
    hide Tests, WellFormed, Fails;
    var whole :| whole in lines && OfWholePackage(whole, package, "pass");
    assert whole in again;
    assert Ran(again, package) == Ran(lines, package);
  }

  // ---------------------------------------------------------------- the manifest

  datatype RegressionGroup = RegressionGroup(package: string, tests: seq<string>, requiredSubtests: seq<string>)

  datatype ManifestError = Groups | Package | NoTests | TestName | RepeatedSubtest | ForeignSubtest

  predicate IsPackagePath(s: string) {
    |s| > 11 && s[..11] == "./internal/" &&
    forall i :: 11 <= i < |s| ==> 'a' <= s[i] <= 'z' || '0' <= s[i] <= '9' || s[i] == '_' || s[i] == '/'
  }

  predicate IsTestName(s: string) {
    |s| > 4 && s[..4] == "Test" &&
    forall i :: 4 <= i < |s| ==> 'a' <= s[i] <= 'z' || 'A' <= s[i] <= 'Z' || '0' <= s[i] <= '9' || s[i] == '_'
  }

  /** The text is the prefix followed by some of these characters. */
  ghost predicate Continues(s: string, prefix: string, chars: string) {
    exists x :: x != "" && s == prefix + x && forall c <- x :: c in chars
  }

  lemma ContinuesIff(s: string, prefix: string, chars: string)
    ensures Continues(s, prefix, chars) <==> |s| > |prefix| && prefix <= s && forall i :: |prefix| <= i < |s| ==> s[i] in chars
  {
    if |s| > |prefix| && prefix <= s && forall i :: |prefix| <= i < |s| ==> s[i] in chars {
      assert s == prefix + s[|prefix|..];
    }
    if x :| x != "" && s == prefix + x && forall c <- x :: c in chars {
      assert forall i :: |prefix| <= i < |s| ==> s[i] == x[i - |prefix|] && x[i - |prefix|] in x;
    }
  }

  /** A package path is the internal directory and a name of lower-case letters, digits, underscores and
      slashes; a test name is `Test` and a name of letters, digits and underscores. */
  lemma ManifestNamesAre(s: string)
    ensures IsPackagePath(s) <==> Continues(s, "./internal/", LOWER + DIGITS + "_/")
    ensures IsTestName(s) <==> Continues(s, "Test", LOWER + UPPER + DIGITS + "_")
  {
    Alphabets();
    hide LOWER, UPPER, DIGITS, Continues;
    ContinuesIff(s, "./internal/", LOWER + DIGITS + "_/");
    ContinuesIff(s, "Test", LOWER + UPPER + DIGITS + "_");
  }

  /** What stands before the first slash. */
  function TopLevel(name: string): (top: string)
    ensures top <= name && '/' !in top
    ensures '/' in name ==> |top| < |name| && name[|top|] == '/'
  {
    if name == "" || name[0] == '/' then ""
    else [name[0]] + TopLevel(name[1..])
  }

  predicate ValidGroup(group: RegressionGroup) {
    && IsPackagePath(group.package)
    && group.tests != [] && Distinct(group.tests) && (forall name <- group.tests :: IsTestName(name))
    && Distinct(group.requiredSubtests)
    && forall name <- group.requiredSubtests :: '/' in name && TopLevel(name) in group.tests
  }

  function Packages(groups: seq<RegressionGroup>): seq<string> {
    seq(|groups|, i requires 0 <= i < |groups| => groups[i].package)
  }

  /** `validate_manifest`: no error exactly for distinct packages with valid groups. */
  method ValidateManifest(groups: seq<RegressionGroup>) returns (error: Option<ManifestError>)
    ensures error.None? <==> groups != [] && Distinct(Packages(groups)) && forall group <- groups :: ValidGroup(group)
  {
    DistinctIffAsManyElements(Packages(groups));
    hide Distinct, IsPackagePath, IsTestName, TopLevel;
    if |groups| == 0 || |Elements(Packages(groups))| != |groups| {
      return Some(Groups);
    }
    for k := 0 to |groups|
      invariant forall i :: 0 <= i < k ==> ValidGroup(groups[i])
    {
      var group := groups[k];
      assert group in groups;
      DistinctIffAsManyElements(group.tests);
      DistinctIffAsManyElements(group.requiredSubtests);
      if !IsPackagePath(group.package) {
        return Some(Package);
      }
      if |group.tests| == 0 || |Elements(group.tests)| != |group.tests| {
        return Some(NoTests);
      }
      if exists name <- group.tests :: !IsTestName(name) {
        return Some(TestName);
      }
      if |Elements(group.requiredSubtests)| != |group.requiredSubtests| {
        return Some(RepeatedSubtest);
      }
      if exists name <- group.requiredSubtests :: TopLevel(name) !in group.tests || '/' !in name {
        return Some(ForeignSubtest);
      }
    }
    error := None;
  }

  /** With a valid manifest, a covered log shows every required subtest and the test it belongs to
      passing, each after it ran. */
  lemma RequiredSubtestAndParentPass(group: RegressionGroup, lines: seq<Line>, package: string, code: int, subtest: string)
    requires ValidGroup(group) && Covered(lines, package, group.tests + group.requiredSubtests, code)
    requires subtest in group.requiredSubtests
    ensures exists i, j :: 0 <= i < j < |lines| && OfTest(lines[i], package, "run", subtest) && OfTest(lines[j], package, "pass", subtest)
    ensures var top := TopLevel(subtest);
            top != subtest &&
            exists i, j :: 0 <= i < j < |lines| && OfTest(lines[i], package, "run", top) && OfTest(lines[j], package, "pass", top)
  {
    PassesAfterRun(lines, package, group.tests + group.requiredSubtests, code, subtest);
    PassesAfterRun(lines, package, group.tests + group.requiredSubtests, code, TopLevel(subtest));
  }
}
