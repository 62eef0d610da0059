/**
 * CxxTest's TestTracker: the counters behind every report, as a class over unsigned 32-bit counters, and what the
 * counters mean in terms of the whole stream of events.
 */
module Tracking {
  import opened Bytes

  /** How a call into test or fixture code ended; AbortTest and SkipTest are CxxTest's own exceptions. */
  datatype Outcome = Returned(ok: bool) | ThrewAbort | ThrewSkip | ThrewOther(standard: bool)

  /** The global test-abort flag and dump size. */
  datatype Settings = Settings(abortOnFail: bool, maxDumpSize: nat)

  datatype Report = Fail | Warn | Skip | Trace

  /** What one call into user code comes to: how it ends, the settings it leaves, and what it reports. */
  datatype Reply = Reply(outcome: Outcome, settings: Settings, reports: seq<Report>)

  datatype Callback =
    | WorldSetUp(g: nat) | WorldTearDown(g: nat)
    | SuiteCreate(s: nat) | SuiteDestroy(s: nat)
    | FixtureSetUp(g: nat) | FixtureTearDown(g: nat)
    | TestSetUp(s: nat, t: nat) | TestRun(s: nat, t: nat) | TestTearDown(s: nat, t: nat)

  /** Failed stands for failedTest and for every failedAssert report: all of them count alike. */
  datatype Event =
    | EnterWorld | LeaveWorld | EnterSuite(s: nat) | LeaveSuite(s: nat) | EnterTest(s: nat, t: nat) | LeaveTest(s: nat, t: nat)
    | Failed | FixtureError | Warned | Skipped | Traced | Initialize
    | WorldReady | SuiteReady(s: nat) | Call(cb: Callback, reply: Reply)  // not tracker calls

  datatype Counters = Counters(
    warnings: nat, skippedTests: nat, testSkipped: bool,
    failedTests: nat, testFailedAsserts: nat, suiteFailedTests: nat, failedSuites: nat,
    world: bool, suite: Option<nat>, test: Option<nat>)

  const ZERO := Counters(0, 0, false, 0, 0, 0, 0, false, None, None)

  /** ++ of an unsigned counter. */
  function Bump(n: nat): nat {
    (n + 1) % U32
  }

  function CountFailure(k: Counters): Counters {
    if Bump(k.testFailedAsserts) != 1 then k.(testFailedAsserts := Bump(k.testFailedAsserts))
    else if Bump(k.suiteFailedTests) != 1 then
      k.(testFailedAsserts := 1, failedTests := Bump(k.failedTests), suiteFailedTests := Bump(k.suiteFailedTests))
    else
      k.(testFailedAsserts := 1, failedTests := Bump(k.failedTests), suiteFailedTests := 1, failedSuites := Bump(k.failedSuites))
  }

  /** What one event does to the tracker; the current suite and test are None for the dummies. */
  function Step(k: Counters, e: Event): Counters {
    match e
    case EnterWorld => ZERO.(world := true)
    case EnterSuite(s) => k.(suite := Some(s), test := None, testFailedAsserts := 0, suiteFailedTests := 0, testSkipped := false)
    case EnterTest(_, t) => k.(test := Some(t), testFailedAsserts := 0, testSkipped := false)
    case LeaveTest(_, _) => k.(test := None)
    case LeaveSuite(_) => k.(suite := None, test := None)
    case LeaveWorld => k.(world := false, suite := None, test := None)
    case Failed => CountFailure(k)
    case FixtureError => CountFailure(k)
    case Warned => k.(warnings := Bump(k.warnings))
    case Skipped => k.(skippedTests := Bump(k.skippedTests), testSkipped := true)
    case Initialize => ZERO
    case _ => k
  }

  function Fold(es: seq<Event>, k: Counters := ZERO): Counters {
    if es == [] then k else Step(Fold(es[..|es| - 1], k), es[|es| - 1])
  }

  // ---------------------------------------------------------------- the class

  class TestTracker {
    var warnings: nat
    var skippedTests: nat
    var testSkipped: bool
    var failedTests: nat
    var testFailedAsserts: nat
    var suiteFailedTests: nat
    var failedSuites: nat
    var world: bool
    var suite: Option<nat>
    var test: Option<nat>

    function Value(): Counters
      reads this
    {
      Counters(warnings, skippedTests, testSkipped, failedTests, testFailedAsserts, suiteFailedTests, failedSuites,
               world, suite, test)
    }

    constructor ()
      ensures Value() == ZERO
    {
      warnings, skippedTests, testSkipped := 0, 0, false;
      failedTests, testFailedAsserts, suiteFailedTests, failedSuites := 0, 0, 0, 0;
      world, suite, test := false, None, None;
    }

    method SetWorld(w: bool)
      modifies this`world, this`suite, this`test
      ensures world == w && suite == None && test == None
    {
      world := w;
      SetSuite(None);
    }

    method SetSuite(s: Option<nat>)
      modifies this`suite, this`test
      ensures suite == s && test == None
    {
      suite := s;
      SetTest(None);
    }

    method SetTest(t: Option<nat>)
      modifies this`test
      ensures test == t
    {
      test := t;
    }

    method CountAFailure()
      modifies this
      ensures Value() == CountFailure(old(Value()))
    {
      testFailedAsserts := Bump(testFailedAsserts);
      if testFailedAsserts == 1 {
        failedTests := Bump(failedTests);
        suiteFailedTests := Bump(suiteFailedTests);
        if suiteFailedTests == 1 {
          failedSuites := Bump(failedSuites);
        }
      }
    }

    /** The tracker call that stands for event e, if it is one. */
    method On(e: Event)
      modifies this
      ensures Value() == Step(old(Value()), e)
    {
      match e {
        case EnterWorld =>
          SetWorld(true);
          warnings, skippedTests, failedTests, testFailedAsserts, suiteFailedTests, failedSuites := 0, 0, 0, 0, 0, 0;
          testSkipped := false;
        case EnterSuite(s) =>
          SetSuite(Some(s));
          testFailedAsserts, suiteFailedTests, testSkipped := 0, 0, false;
        case EnterTest(_, t) =>
          SetTest(Some(t));
          testFailedAsserts, testSkipped := 0, false;
        case LeaveTest(_, _) => SetTest(None);
        case LeaveSuite(_) => SetSuite(None);
        case LeaveWorld => SetWorld(false);
        case Failed => CountAFailure();
        case FixtureError => CountAFailure();
        case Warned => warnings := Bump(warnings);
        case Skipped =>
          skippedTests := Bump(skippedTests);
          testSkipped := true;
        case Initialize =>
          warnings, skippedTests, testSkipped := 0, 0, false;
          failedTests, testFailedAsserts, suiteFailedTests, failedSuites := 0, 0, 0, 0;
          world, suite, test := false, None, None;
        case _ =>
      }
    }
  }

  // ---------------------------------------------------------------- what the counters mean

  predicate IsFailure(e: Event) {
    e.Failed? || e.FixtureError?
  }

  predicate StartsTest(e: Event) {
    e.EnterTest? || e.EnterSuite?
  }

  predicate StartsSuite(e: Event) {
    e.EnterSuite?
  }

  /** The stream cut before every event that starts a new stretch; the first stretch may be empty. */
  function Stretches(es: seq<Event>, starts: Event -> bool): (r: seq<seq<Event>>)
    ensures r != []
  {
    if es == [] then [[]]
    else
      var before, last := Stretches(es[..|es| - 1], starts), es[|es| - 1];
      if starts(last) then before + [[last]]
      else before[..|before| - 1] + [before[|before| - 1] + [last]]
  }

  predicate HasFailure(es: seq<Event>) {
    exists i :: 0 <= i < |es| && IsFailure(es[i])
  }

  function Failing(stretches: seq<seq<Event>>): nat {
    if stretches == [] then 0
    else Failing(stretches[..|stretches| - 1]) + if HasFailure(stretches[|stretches| - 1]) then 1 else 0
  }

  function Last<T>(s: seq<T>): T
    requires s != []
  {
    s[|s| - 1]
  }

  function CountFailures(es: seq<Event>): nat {
    if es == [] then 0 else CountFailures(es[..|es| - 1]) + if IsFailure(es[|es| - 1]) then 1 else 0
  }

  lemma FailingGrows(stretches: seq<seq<Event>>, e: Event)
    requires stretches != []
    ensures var grown := stretches[..|stretches| - 1] + [Last(stretches) + [e]];
            Failing(grown) == Failing(stretches) + if IsFailure(e) && !HasFailure(Last(stretches)) then 1 else 0
    ensures HasFailure(Last(stretches) + [e]) == (HasFailure(Last(stretches)) || IsFailure(e))
  {
    var grown := stretches[..|stretches| - 1] + [Last(stretches) + [e]];
    assert grown[..|grown| - 1] == stretches[..|stretches| - 1];
    var l := Last(stretches);
    assert IsFailure(e) ==> IsFailure((l + [e])[|l|]);
    assert forall i :: 0 <= i < |l| ==> (l + [e])[i] == l[i];
  }

  lemma {:induction false} FailuresInside(es: seq<Event>)
    ensures CountFailures(es) > 0 <==> HasFailure(es)
  {
    if es != [] {
      var before := es[..|es| - 1];
      FailuresInside(before);
      assert es == before + [es[|es| - 1]];
      assert forall i :: 0 <= i < |before| ==> es[i] == before[i];
    }
  }

  lemma StretchesAppend(es: seq<Event>, e: Event, starts: Event -> bool)
    ensures var before := Stretches(es, starts);
            Stretches(es + [e], starts)
            == if starts(e) then before + [[e]] else before[..|before| - 1] + [Last(before) + [e]]
  {
    assert (es + [e])[..|es|] == es;
  }

  lemma NoFailureIn(e: Event)
    ensures !IsFailure(e) ==> !HasFailure([e])
  {
  }

  /** How the last stretch and the failing stretches change with one more event. */
  lemma OneMore(es: seq<Event>, e: Event, starts: Event -> bool)
    requires !(starts(e) && IsFailure(e))
    ensures var before, after := Stretches(es, starts), Stretches(es + [e], starts);
            && Last(after) == (if starts(e) then [e] else Last(before) + [e])
            && Failing(after) == Failing(before) + (if IsFailure(e) && !HasFailure(Last(before)) then 1 else 0)
            && CountFailures(Last(after)) == if starts(e) then 0 else CountFailures(Last(before)) + if IsFailure(e) then 1 else 0
  {
    hide Stretches, HasFailure;
    var before := Stretches(es, starts);
    StretchesAppend(es, e, starts);
    if starts(e) {
      NoFailureIn(e);
      assert (before + [[e]])[..|before|] == before;
      assert [e][..0] == [] && CountFailures([]) == 0;
    } else {
      FailingGrows(before, e);
      assert (Last(before) + [e])[..|Last(before)|] == Last(before);
    }
  }

  lemma OneEmptyStretch()
    ensures Failing([[]]) == 0
  {
    var none: seq<seq<Event>> := [[]];
    assert none[..0] == [];
  }

  /** Some stretch fails exactly when the stream holds a failure. */
  lemma {:induction false} SomeStretchFails(es: seq<Event>)
    ensures Failing(Stretches(es, StartsTest)) > 0 <==> HasFailure(es)
    ensures HasFailure(Last(Stretches(es, StartsTest))) ==> HasFailure(es)
  {
    if es == [] {
      OneEmptyStretch();
    } else {
      var before, e := es[..|es| - 1], es[|es| - 1];
      assert es == before + [e];
      SomeStretchFails(before);
      OneMore(before, e, StartsTest);
      FailingGrows([before], e);
      FailingGrows(Stretches(before, StartsTest), e);
    }
  }

  /** The counters' meaning over the events since the last enterWorld or initialize. */
  ghost predicate Means(es: seq<Event>, r: Counters) {
    var suite := Last(Stretches(es, StartsSuite));
    && r.failedTests == Failing(Stretches(es, StartsTest)) <= |es|
    && r.failedSuites == Failing(Stretches(es, StartsSuite)) <= |es|
    && r.testFailedAsserts == CountFailures(Last(Stretches(es, StartsTest))) <= |es|
    && r.suiteFailedTests == Failing(Stretches(suite, StartsTest)) <= |es|
    && Last(Stretches(suite, StartsTest)) == Last(Stretches(es, StartsTest))
  }

  lemma StepKeepsMeaning(es: seq<Event>, e: Event, r: Counters)
    requires |es| + 1 < U32 && Means(es, r) && !e.EnterWorld? && !e.Initialize?
    ensures Means(es + [e], Step(r, e))
  {
    hide Stretches, Failing, CountFailures, HasFailure;
    var suite := Last(Stretches(es, StartsSuite));
    OneMore(es, e, StartsTest);
    OneMore(es, e, StartsSuite);
    OneMore(suite, e, StartsTest);
    FailuresInside(Last(Stretches(es, StartsTest)));
    SomeStretchFails(suite);
    if e.EnterSuite? {
      FreshSuite(e);
    }
  }

  lemma FreshSuite(e: Event)
    requires e.EnterSuite?
    ensures Stretches([e], StartsTest) == [[], [e]] && Failing([[], [e]]) == 0
  {
    assert [e][..0] == [];
    assert [[], [e]][..1] == [[]];
    OneEmptyStretch();
  }

  /**
   * After enterWorld (or initialize), over any events but those two: failedTests is the number of stretches between
   * test and suite starts that hold a failure, failedSuites the same between suite starts, testFailedAsserts the
   * failures since the last start, and suiteFailedTests the failing test stretches of the current suite.
   */
  lemma {:induction false} CountersAreFolds(es: seq<Event>, k: Counters)
    requires |es| < U32 && k.(warnings := 0, skippedTests := 0, testSkipped := false, world := false, suite := None, test := None) == ZERO
    requires forall i :: 0 <= i < |es| ==> !es[i].EnterWorld? && !es[i].Initialize?
    ensures Means(es, Fold(es, k))
  {
    if es == [] {
      OneEmptyStretch();
      assert Failing([[]]) == 0;
    } else {
      var before := es[..|es| - 1];
      CountersAreFolds(before, k);
      StepKeepsMeaning(before, es[|es| - 1], Fold(before, k));
      assert es == before + [es[|es| - 1]];
    }
  }

  /** A failed test makes its suite failed, a failed suite the world; and no more suites fail than tests. */
  lemma FailurePropagates(es: seq<Event>, k: Counters)
    requires |es| < U32 && k.(warnings := 0, skippedTests := 0, testSkipped := false, world := false, suite := None, test := None) == ZERO
    requires forall i :: 0 <= i < |es| ==> !es[i].EnterWorld? && !es[i].Initialize?
    ensures var r := Fold(es, k);
            && (r.testFailedAsserts > 0 ==> r.suiteFailedTests > 0) && (r.suiteFailedTests > 0 ==> r.failedSuites > 0)
            && r.failedSuites <= r.failedTests
  {
    hide Stretches, Failing, CountFailures, HasFailure, Fold;
    CountersAreFolds(es, k);
    var suite := Last(Stretches(es, StartsSuite));
    FailuresInside(Last(Stretches(suite, StartsTest)));
    SomeStretchFails(suite);
    LastFails(Stretches(es, StartsSuite));
    FewerSuites(es);
  }

  lemma LastFails(stretches: seq<seq<Event>>)
    requires stretches != []
    ensures HasFailure(Last(stretches)) ==> Failing(stretches) > 0
  {
  }

  lemma {:induction false} FewerSuites(es: seq<Event>)
    ensures Failing(Stretches(es, StartsSuite)) <= Failing(Stretches(es, StartsTest))
    ensures HasFailure(Last(Stretches(es, StartsTest))) ==> HasFailure(Last(Stretches(es, StartsSuite)))
  {
    if es != [] {
      var before, e := es[..|es| - 1], es[|es| - 1];
      assert es == before + [e];
      FewerSuites(before);
      OneMore(before, e, StartsTest);
      OneMore(before, e, StartsSuite);
      FailingGrows(Stretches(before, StartsTest), e);
      FailingGrows(Stretches(before, StartsSuite), e);
    }
  }

  // ---------------------------------------------------------------- the other counters and the current position

  /** How many events are of this kind. */
  function Tally(es: seq<Event>, kind: Event -> bool): nat {
    if es == [] then 0 else Tally(es[..|es| - 1], kind) + if kind(Last(es)) then 1 else 0
  }

  function IsWarning(e: Event): bool {
    e.Warned?
  }

  function IsSkip(e: Event): bool {
    e.Skipped?
  }

  lemma StepTallies(k: Counters, e: Event)
    requires !e.EnterWorld? && !e.Initialize?
    ensures Step(k, e).warnings == (if IsWarning(e) then (k.warnings + 1) % U32 else k.warnings)
    ensures Step(k, e).skippedTests == (if IsSkip(e) then (k.skippedTests + 1) % U32 else k.skippedTests)
  {
  }

  /** Warnings and skipped tests are counted since enterWorld, modulo 2^32. */
  lemma {:induction false} TalliesAreCounts(es: seq<Event>, k: Counters)
    requires k.warnings < U32 && k.skippedTests < U32
    requires forall i :: 0 <= i < |es| ==> !es[i].EnterWorld? && !es[i].Initialize?
    ensures Fold(es, k).warnings == (k.warnings + Tally(es, IsWarning)) % U32
    ensures Fold(es, k).skippedTests == (k.skippedTests + Tally(es, IsSkip)) % U32
  {
    hide Step, IsWarning, IsSkip;
    if es != [] {
      TalliesAreCounts(es[..|es| - 1], k);
      StepTallies(Fold(es[..|es| - 1], k), Last(es));
    }
  }

  /** The last event of this kind. */
  function Latest(es: seq<Event>, kind: Event -> bool): Option<Event> {
    if es == [] then None else if kind(Last(es)) then Some(Last(es)) else Latest(es[..|es| - 1], kind)
  }

  function MovesWorld(e: Event): bool {
    e.EnterWorld? || e.LeaveWorld? || e.Initialize?
  }

  function MovesSuite(e: Event): bool {
    MovesWorld(e) || e.EnterSuite? || e.LeaveSuite?
  }

  function MovesTest(e: Event): bool {
    MovesSuite(e) || e.EnterTest? || e.LeaveTest?
  }

  function MovesSkip(e: Event): bool {
    e.Skipped? || e.EnterTest? || e.EnterSuite? || e.EnterWorld? || e.Initialize?
  }

  /** Which events move the current world, suite, test and skip flag, and where to. */
  lemma Moves(k: Counters, e: Event)
    ensures Step(k, e).world == if MovesWorld(e) then e.EnterWorld? else k.world
    ensures Step(k, e).suite == if !MovesSuite(e) then k.suite else if e.EnterSuite? then Some(e.s) else None
    ensures Step(k, e).test == if !MovesTest(e) then k.test else if e.EnterTest? then Some(e.t) else None
    ensures Step(k, e).testSkipped == if MovesSkip(e) then e.Skipped? else k.testSkipped
  {
  }

  /**
   * The current world, suite and test are those entered last, if nothing above or at their level was entered or left
   * since; and the skip flag tells whether something was skipped since the last start.
   */
  lemma {:induction false} CurrentIsLatest(es: seq<Event>)
    ensures Fold(es, ZERO).world <==> Latest(es, MovesWorld).Some? && Latest(es, MovesWorld).value.EnterWorld?
    ensures var e := Latest(es, MovesSuite);
            Fold(es, ZERO).suite == if e.Some? && e.value.EnterSuite? then Some(e.value.s) else None
    ensures var e := Latest(es, MovesTest);
            Fold(es, ZERO).test == if e.Some? && e.value.EnterTest? then Some(e.value.t) else None
    ensures Fold(es, ZERO).testSkipped <==> Latest(es, MovesSkip).Some? && Latest(es, MovesSkip).value.Skipped?
  {
    hide MovesWorld, MovesSuite, MovesTest, MovesSkip, Step;
    if es != [] {
      CurrentIsLatest(es[..|es| - 1]);
      Moves(Fold(es[..|es| - 1], ZERO), Last(es));
    }
  }
}
