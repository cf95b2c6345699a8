/** The controller: what it does with each test, its counters and lists, and its exit status. */
module TestController {
  import opened ChildReports
  import opened Verdicts
  import opened Wrappers

  const DISALLOWED_PREFIXES := ["cheriostest_", "test_"]

  /** What one call of cheriostest_run_test meets: the answers of the test's skip and expected-failure checks,
      what an uninitialised pointer happens to hold, what write() to the child's stdin returns, and the child's
      page, status and output. */
  datatype World = World(skip: Option<string>, xfail: Option<string>, flaky: Option<string>,
                         garbage: Option<string>, written: int,
                         page: ChildState, status: Status, out: Option<string>)

  datatype Job = Job(test: Test, world: World)

  // ---- one test ---------------------------------------------------------------------------------

  datatype Outcome =
    | Filtered
    | Skipped(why: string)
    | Passed
    | XPassed(why: string)
    | Failed(reason: Reason)
    | XFailed(reason: Reason)

  function FirstPrefix(name: string, prefixes: seq<string>): Option<string> {
    if prefixes == [] then None
    else if prefixes[0] <= name then Some(prefixes[0])
    else FirstPrefix(name, prefixes[1..])
  }

  function BadPrefix(t: Test): Option<string> { FirstPrefix(t.name, DISALLOWED_PREFIXES) }

  function StdinFault(t: Test, written: int): Option<Reason> {
    if StdinString !in t.flags then None
    else if written < 0 then Some(StdinFailed)
    else if written != |t.stdinText| then Some(StdinShort(|t.stdinText|, written))
    else None
  }

  function Failing(r: Reason, xfail: Option<string>, flaky: Option<string>): Outcome {
    if xfail.None? && flaky.None? then Failed(r) else XFailed(r)
  }

  function Judged(t: Test, w: World): Option<Reason> {
    match StdinFault(t, w.written)
    case Some(r) => Some(r)
    case None => Fault(t, w.page, w.status, w.out)
  }

  function OutcomeOf(fast: bool, j: Job): Outcome {
    var t, w := j.test, j.world;
    if BadPrefix(t).Some? then Failing(BadName(BadPrefix(t).value), None, w.garbage)
    else if fast && Slow in t.flags then Filtered
    else if w.skip.Some? then Skipped(w.skip.value)
    else
      match Judged(t, w)
      case Some(r) => if Fatal(r) then Failed(r) else Failing(r, w.xfail, w.flaky)
      case None => if w.xfail.Some? then XPassed(w.xfail.value) else Passed
  }

  /** The test got as far as having its reasons for failure looked up. */
  predicate Considered(fast: bool, j: Job) {
    BadPrefix(j.test).None? && !OutcomeOf(fast, j).Filtered? && !OutcomeOf(fast, j).Skipped?
  }

  /** The name begins with a prefix that is not allowed, the first of the two to be looked for. */
  predicate Prefixed(name: string, prefix: string) {
    (prefix == "cheriostest_" || prefix == "test_") && prefix <= name
  }

  predicate Allowed(t: Test) { !("cheriostest_" <= t.name) && !("test_" <= t.name) }

  /** A failure for reason r, of a considered test. */
  predicate FailsFor(t: Test, w: World, r: Reason) {
    match r
    case StdinFailed => StdinString in t.flags && w.written < 0
    case StdinShort(e, g) => StdinString in t.flags && g == w.written >= 0 && e == |t.stdinText| && g != e
    case _ => InputWritten(t, w) && Because(t, w.page, w.status, w.out, r)
  }

  predicate InputWritten(t: Test, w: World) { StdinString in t.flags ==> w.written == |t.stdinText| }

  predicate Succeeds(t: Test, w: World) { InputWritten(t, w) && Passes(t, w.page, w.status, w.out) }

  /** The test gets past the checks of its name, its speed and its own skip check. */
  predicate Starts(fast: bool, j: Job) {
    Allowed(j.test) && !(fast && Slow in j.test.flags) && j.world.skip.None?
  }

  /** When each outcome comes about. */
  predicate Arises(fast: bool, j: Job, o: Outcome) {
    var t, w := j.test, j.world;
    var starts, unexpected := Starts(fast, j), w.xfail.None? && w.flaky.None?;
    match o
    case Filtered => Allowed(t) && fast && Slow in t.flags
    case Skipped(why) => Allowed(t) && !(fast && Slow in t.flags) && w.skip == Some(why)
    case Passed => starts && Succeeds(t, w) && w.xfail.None?
    case XPassed(why) => starts && Succeeds(t, w) && w.xfail == Some(why)
    case Failed(r) =>
      || (r.BadName? && Prefixed(t.name, r.prefix) && w.garbage.None?)
      || (starts && FailsFor(t, w, r) && (Fatal(r) || unexpected))
    case XFailed(r) =>
      || (r.BadName? && Prefixed(t.name, r.prefix) && w.garbage.Some?)
      || (starts && FailsFor(t, w, r) && !Fatal(r) && !unexpected)
  }

  lemma PrefixIs(t: Test)
    ensures BadPrefix(t).None? <==> Allowed(t)
    ensures forall p :: BadPrefix(t) == Some(p) <==> Prefixed(t.name, p)
  {
    var tail := DISALLOWED_PREFIXES[1..];
    assert tail == ["test_"] && tail[1..] == [];
    assert FirstPrefix(t.name, tail) == if "test_" <= t.name then Some("test_") else None;
    if "cheriostest_" <= t.name { assert t.name[0] == 'c'; }
    if "test_" <= t.name { assert t.name[0] == 't'; }
  }

  lemma JudgedExactly(t: Test, w: World, r: Reason)
    ensures Judged(t, w) == Some(r) <==> FailsFor(t, w, r)
    ensures Judged(t, w).None? <==> Succeeds(t, w)
  {
    FaultExactly(t, w.page, w.status, w.out);
    ReasonExactly(t, w.page, w.status, w.out, r);
  }

  /** Every outcome of a call comes about exactly then. */
  lemma OutcomeExactly(fast: bool, j: Job, o: Outcome)
    ensures OutcomeOf(fast, j) == o <==> Arises(fast, j, o)
    ensures Considered(fast, j) <==> Starts(fast, j)
  {
    PrefixIs(j.test);
    JudgedExactly(j.test, j.world, if o.Failed? || o.XFailed? then o.reason else NoResult);
  }

  // ---- the books --------------------------------------------------------------------------------

  datatype Tally = Tally(run: nat, skipped: nat, passed: nat, failed: nat, xfailed: nat, xpassed: nat,
                         expected: nat, skips: seq<(string, string)>, failures: seq<(string, Reason)>,
                         xfailures: seq<(string, Reason)>, xpasses: seq<(string, string)>,
                         warnings: seq<(string, string)>)

  const EMPTY := Tally(0, 0, 0, 0, 0, 0, 0, [], [], [], [], [])

  /** The child was forked. */
  predicate Ran(fast: bool, j: Job) { Considered(fast, j) && StdinFault(j.test, j.world.written).None? }

  /** The failure was expected, or would have been but for a pass or a harness error. */
  predicate Expected(fast: bool, j: Job) {
    OutcomeOf(fast, j).XFailed? || (Considered(fast, j) && j.world.xfail.Some?)
  }

  predicate Warned(fast: bool, j: Job) {
    (OutcomeOf(fast, j).Passed? || OutcomeOf(fast, j).XPassed?) && j.world.page.warn
  }

  function Bit(b: bool): nat { if b then 1 else 0 }

  /** The books after one more test. */
  function Booked(y: Tally, fast: bool, j: Job): Tally {
    var o, name := OutcomeOf(fast, j), j.test.name;
    Tally(y.run + Bit(Ran(fast, j)), y.skipped + Bit(o.Skipped?), y.passed + Bit(o.Passed?),
          y.failed + Bit(o.Failed?), y.xfailed + Bit(o.XFailed?), y.xpassed + Bit(o.XPassed?),
          y.expected + Bit(Expected(fast, j)),
          if o.Skipped? then y.skips + [(name, o.why)] else y.skips,
          if o.Failed? then y.failures + [(name, o.reason)] else y.failures,
          if o.XFailed? then y.xfailures + [(name, o.reason)] else y.xfailures,
          if o.XPassed? then y.xpasses + [(name, o.why)] else y.xpasses,
          if Warned(fast, j) then y.warnings + [(name, j.world.page.message)] else y.warnings)
  }

  function Books(fast: bool, js: seq<Job>): Tally {
    if js == [] then EMPTY else Booked(Books(fast, js[..|js| - 1]), fast, js[|js| - 1])
  }

  function Count(js: seq<Job>, p: Job -> bool): nat {
    if js == [] then 0 else Count(js[..|js| - 1], p) + Bit(p(js[|js| - 1]))
  }

  /** Every counter counts exactly the tests with its outcome, and each list has one entry for each of them. */
  lemma {:induction false} BooksCount(fast: bool, js: seq<Job>)
    ensures var y := Books(fast, js);
      && y.skipped == |y.skips| == Count(js, j => OutcomeOf(fast, j).Skipped?)
      && y.passed == Count(js, j => OutcomeOf(fast, j).Passed?)
      && y.failed == |y.failures| == Count(js, j => OutcomeOf(fast, j).Failed?)
      && y.xfailed == |y.xfailures| == Count(js, j => OutcomeOf(fast, j).XFailed?)
      && y.xpassed == |y.xpasses| == Count(js, j => OutcomeOf(fast, j).XPassed?)
    decreases |js|
  {
    if js != [] {
      BooksCount(fast, js[..|js| - 1]);
    }
  }

  /** What f makes of the jobs, in order, where it makes something. */
  function Collect<T>(js: seq<Job>, f: Job -> Option<T>): seq<T> {
    if js == [] then []
    else
      var before, last := Collect(js[..|js| - 1], f), f(js[|js| - 1]);
      if last.Some? then before + [last.value] else before
  }

  /** The lists name the tests in the order of the calls, each with what is to be said of it. */
  lemma {:induction false} BooksList(fast: bool, js: seq<Job>)
    ensures var y := Books(fast, js);
      && y.skips == Collect(js, Skip(fast)) && y.failures == Collect(js, Failure(fast))
      && y.xfailures == Collect(js, Xfailure(fast)) && y.xpasses == Collect(js, Xpass(fast))
      && y.warnings == Collect(js, Warning(fast))
    decreases |js|
  {
    if js != [] {
      BooksList(fast, js[..|js| - 1]);
    }
  }

  function Skip(fast: bool): Job -> Option<(string, string)> {
    j => match OutcomeOf(fast, j) case Skipped(why) => Some((j.test.name, why)) case _ => None
  }

  function Failure(fast: bool): Job -> Option<(string, Reason)> {
    j => match OutcomeOf(fast, j) case Failed(r) => Some((j.test.name, r)) case _ => None
  }

  function Xfailure(fast: bool): Job -> Option<(string, Reason)> {
    j => match OutcomeOf(fast, j) case XFailed(r) => Some((j.test.name, r)) case _ => None
  }

  function Xpass(fast: bool): Job -> Option<(string, string)> {
    j => match OutcomeOf(fast, j) case XPassed(why) => Some((j.test.name, why)) case _ => None
  }

  /** Of a test that passed, expected or not, with a warning. */
  function Warning(fast: bool): Job -> Option<(string, string)> {
    j => if (OutcomeOf(fast, j).Passed? || OutcomeOf(fast, j).XPassed?) && j.world.page.warn
         then Some((j.test.name, j.world.page.message)) else None
  }

  /** Skipped, passed, failed, expectedly failed and unexpectedly passed tests make up all the calls but the slow
      tests filtered out. */
  lemma {:induction false} NothingIsLost(fast: bool, js: seq<Job>)
    ensures var y := Books(fast, js);
      y.skipped + y.passed + y.failed + y.xfailed + y.xpassed == |js| - Count(js, j => OutcomeOf(fast, j).Filtered?)
    decreases |js|
  {
    if js != [] {
      NothingIsLost(fast, js[..|js| - 1]);
    }
  }

  /** A harness error in a test whose failure was expected. */
  predicate FatalXfail(fast: bool, j: Job) {
    && OutcomeOf(fast, j).Failed? && Considered(fast, j) && j.world.xfail.Some?
  }

  /** The tests run are the finished ones that were not refused before the fork; and the failures expected are
      the expected failures, the unexpected passes and the harness errors of tests expected to fail. */
  lemma {:induction false} ExpectationsAddUp(fast: bool, js: seq<Job>)
    ensures var y := Books(fast, js);
      && y.expected == y.xfailed + y.xpassed + Count(js, j => FatalXfail(fast, j))
      && y.run + Count(js, j => Refused(fast, j)) == y.passed + y.failed + y.xfailed + y.xpassed
    decreases |js|
  {
    if js != [] {
      ExpectationsAddUp(fast, js[..|js| - 1]);
    }
  }

  /** Failed before the fork, for its name or its input. */
  predicate Refused(fast: bool, j: Job) {
    || BadPrefix(j.test).Some?
    || (Considered(fast, j) && StdinFault(j.test, j.world.written).Some?)
  }

  /** A considered test fails outright exactly when it is judged to fail and either no failure of it was expected,
      or it ended without an error and without declaring anything. */
  lemma FailsExactly(fast: bool, j: Job)
    requires Considered(fast, j)
    ensures OutcomeOf(fast, j).Failed? <==>
      && Judged(j.test, j.world).Some?
      && (Fatal(Judged(j.test, j.world).value) || (j.world.xfail.None? && j.world.flaky.None?))
    ensures FatalXfail(fast, j) ==>
      && Fatal(Judged(j.test, j.world).value)
      && j.world.page.result != TESTRESULT_FAILURE && j.world.page.result != TESTRESULT_SUCCESS
  {
    FaultExactly(j.test, j.world.page, j.world.status, j.world.out);
  }

  /** The outcome of a test done by a single process, by what that process did. */
  lemma OutcomeByRun(fast: bool, j: Job, r: Run)
    requires Considered(fast, j) && StdinFault(j.test, j.world.written).None? && ProperRun(r)
    requires j.world.page == After(EventsOf(r)) && j.world.status == StatusOf(r)
    ensures OutcomeOf(fast, j).Passed? || OutcomeOf(fast, j).XPassed? <==>
      && PassingEnd(j.test, ExpectedAddr(r.expected), r.end)
      && (SigExit in j.test.flags || OutputAsExpected(j.test, j.world.out))
  {
    RunPassesExactly(j.test, r, j.world.out);
  }

  lemma {:induction false} CountPositive(js: seq<Job>, p: Job -> bool)
    ensures Count(js, p) > 0 <==> exists j :: j in js && p(j)
    decreases |js|
  {
    if js != [] {
      var n := |js| - 1;
      CountPositive(js[..n], p);
      assert js == js[..n] + [js[n]];
    }
  }

  // ---- the books as the program writes them ------------------------------------------------------

  function WithPass(y: Tally, name: string, xfail: Option<string>, page: ChildState): Tally {
    var z := if xfail.Some? then y.(xpassed := y.xpassed + 1, xpasses := y.xpasses + [(name, xfail.value)])
             else y.(passed := y.passed + 1);
    if page.warn then z.(warnings := z.warnings + [(name, page.message)]) else z
  }

  function WithFailure(y: Tally, name: string, r: Reason, xfail: Option<string>, flaky: Option<string>): Tally {
    if xfail.None? && flaky.None? then y.(failed := y.failed + 1, failures := y.failures + [(name, r)])
    else y.(xfailed := y.xfailed + 1, xfailures := y.xfailures + [(name, r)], expected := y.expected + Bit(xfail.None?))
  }

  function Concluded(y: Tally, name: string, xfail: Option<string>, flaky: Option<string>, page: ChildState,
      fault: Option<Reason>): Tally
  {
    match fault
    case None => WithPass(y, name, xfail, page)
    case Some(r) => if Fatal(r) then WithFailure(y, name, r, None, None) else WithFailure(y, name, r, xfail, flaky)
  }

  lemma BookedConsidered(y: Tally, fast: bool, j: Job)
    requires Considered(fast, j)
    ensures var w := j.world;
      var z := y.(run := y.run + Bit(StdinFault(j.test, w.written).None?), expected := y.expected + Bit(w.xfail.Some?));
      Booked(y, fast, j) == Concluded(z, j.test.name, w.xfail, w.flaky, w.page, Judged(j.test, w))
  {}

  // ---- the program ------------------------------------------------------------------------------

  class Controller {
    const fastTestsOnly: bool
    var testsRun: nat
    var testsSkipped: nat
    var testsPassed: nat
    var testsFailed: nat
    var testsXfailed: nat
    var testsXpassed: nat
    var expectedFailures: nat
    var skippedTests: seq<(string, string)>
    var failedTests: seq<(string, Reason)>
    var xfailedTests: seq<(string, Reason)>
    var xpassedTests: seq<(string, string)>
    var testWarnings: seq<(string, string)>

    ghost function Abs(): Tally
      reads this
    {
      Tally(testsRun, testsSkipped, testsPassed, testsFailed, testsXfailed, testsXpassed, expectedFailures,
            skippedTests, failedTests, xfailedTests, xpassedTests, testWarnings)
    }

    constructor (fast: bool)
      ensures Abs() == EMPTY && fastTestsOnly == fast
    {
      fastTestsOnly := fast;
      testsRun, testsSkipped, testsPassed, testsFailed, testsXfailed, testsXpassed := 0, 0, 0, 0, 0, 0;
      expectedFailures := 0;
      skippedTests, failedTests, xfailedTests, xpassedTests, testWarnings := [], [], [], [], [];
    }

    method RunTest(t: Test, w: World)
      modifies this
      ensures Abs() == Booked(old(Abs()), fastTestsOnly, Job(t, w))
    {
      for i := 0 to |DISALLOWED_PREFIXES|
        invariant Abs() == old(Abs())
        invariant BadPrefix(t) == FirstPrefix(t.name, DISALLOWED_PREFIXES[i..])
      {
        if DISALLOWED_PREFIXES[i] <= t.name {
          Fail(t, BadName(DISALLOWED_PREFIXES[i]), None, w.garbage);
          return;
        }
      }
      if fastTestsOnly && Slow in t.flags {
        return;
      }
      if w.skip.Some? {
        testsSkipped := testsSkipped + 1;
        skippedTests := skippedTests + [(t.name, w.skip.value)];
        return;
      }
      RunConsidered(t, w);
    }

    /** From the expected-failure check on. */
    method RunConsidered(t: Test, w: World)
      requires Considered(fastTestsOnly, Job(t, w))
      modifies this
      ensures Abs() == Booked(old(Abs()), fastTestsOnly, Job(t, w))
    {
      BookedConsidered(Abs(), fastTestsOnly, Job(t, w));
      if w.xfail.Some? {
        expectedFailures := expectedFailures + 1;
      }
      if StdinString in t.flags {
        if w.written < 0 {
          Fail(t, StdinFailed, w.xfail, w.flaky);
          return;
        }
        if w.written != |t.stdinText| {
          Fail(t, StdinShort(|t.stdinText|, w.written), w.xfail, w.flaky);
          return;
        }
      }
      testsRun := testsRun + 1;
      var fault := Judge(t, w.page, w.status, w.out);
      Conclude(t, w.xfail, w.flaky, w.page, fault);
    }

    /** One of the labels pass and fail, by what the checks have found. */
    method Conclude(t: Test, xfail: Option<string>, flaky: Option<string>, page: ChildState, fault: Option<Reason>)
      modifies this
      ensures Abs() == Concluded(old(Abs()), t.name, xfail, flaky, page, fault)
    {
      match fault {
        case None => Pass(t, xfail, page);
        case Some(r) =>
          if Fatal(r) {
            Fail(t, r, None, None);
          } else {
            Fail(t, r, xfail, flaky);
          }
      }
    }

    /** The label pass. */
    method Pass(t: Test, xfail: Option<string>, page: ChildState)
      modifies this
      ensures Abs() == WithPass(old(Abs()), t.name, xfail, page)
    {
      if xfail.Some? {
        testsXpassed := testsXpassed + 1;
        xpassedTests := xpassedTests + [(t.name, xfail.value)];
      } else {
        testsPassed := testsPassed + 1;
      }
      if page.warn {
        testWarnings := testWarnings + [(t.name, page.message)];
      }
    }

    /** The label fail. */
    method Fail(t: Test, r: Reason, xfail: Option<string>, flaky: Option<string>)
      modifies this
      ensures Abs() == WithFailure(old(Abs()), t.name, r, xfail, flaky)
    {
      if xfail.None? && flaky.None? {
        testsFailed := testsFailed + 1;
        failedTests := failedTests + [(t.name, r)];
      } else {
        if xfail.None? {
          expectedFailures := expectedFailures + 1;
        }
        testsXfailed := testsXfailed + 1;
        xfailedTests := xfailedTests + [(t.name, r)];
      }
    }

    /** The calls main makes, one after the other, and its exit status: non-zero exactly when some test failed
        outright. */
    method RunTests(js: seq<Job>) returns (exit: int)
      requires Abs() == EMPTY
      modifies this
      ensures Abs() == Books(fastTestsOnly, js)
      ensures exit != 0 <==> exists j :: j in js && OutcomeOf(fastTestsOnly, j).Failed?
    {
      for i := 0 to |js|
        invariant Abs() == Books(fastTestsOnly, js[..i])
      {
        RunTest(js[i].test, js[i].world);
        assert js[..i + 1][..i] == js[..i];
      }
      assert js[..|js|] == js;
      BooksCount(fastTestsOnly, js);
      CountPositive(js, j => OutcomeOf(fastTestsOnly, j).Failed?);
      if testsFailed > 0 {
        return -1;
      }
      return 0;
    }
  }
}
