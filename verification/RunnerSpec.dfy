/**
 * CxxTest's TestRunner as a function: every call into fixtures and tests is answered by an oracle, so the theorems
 * hold for whatever that code does - return, fail, throw, report, or change the global settings.
 */
module RunnerSpec {
  import opened Descriptions
  import opened Tracking

  type Oracle = nat -> Reply

  datatype Entry = Entry(event: Event, settings: Settings)

  /** The suites, the number of active global fixtures, and the settings a world run starts from. */
  datatype World = World(suites: seq<SuiteState>, fixtures: nat, defaults: Settings)

  /** The run so far; `escaped` when an AbortTest is propagating out of the runner. */
  datatype Machine = Machine(trace: seq<Entry>, settings: Settings, calls: nat, tracker: Counters, escaped: bool)

  function Emit(m: Machine, e: Event): Machine {
    m.(trace := m.trace + [Entry(e, m.settings)], tracker := Step(m.tracker, e))
  }

  function EventOf(r: Report): Event {
    match r
    case Fail => Failed
    case Warn => Warned
    case Skip => Skipped
    case Trace => Traced
  }

  function EmitReports(m: Machine, rs: seq<Report>): Machine {
    if rs == [] then m else Emit(EmitReports(m, rs[..|rs| - 1]), EventOf(rs[|rs| - 1]))
  }

  function Invoke(m: Machine, cb: Callback, oracle: Oracle): (Machine, Outcome) {
    var reply := oracle(m.calls);
    var m1 := Emit(m, Call(cb, reply)).(calls := m.calls + 1, settings := reply.settings);
    (EmitReports(m1, reply.reports), reply.outcome)
  }

  /** doFailTest for a failed global fixture: with abort-on-fail set it throws where nothing catches. */
  function FailFixture(m: Machine): Machine {
    var m1 := Emit(m, FixtureError);
    if m1.settings.abortOnFail then m1.(escaped := true) else m1
  }

  // ---------------------------------------------------------------- one test

  function FixturesUp(n: nat, m: Machine, g: nat, oracle: Oracle): (Machine, bool)
    requires g <= n
    decreases n - g
  {
    if g == n then (m, true)
    else
      var (m1, outcome) := Invoke(m, FixtureSetUp(g), oracle);
      if outcome == Returned(true) then FixturesUp(n, m1, g + 1, oracle) else (FailFixture(m1), false)
  }

  /** Fixtures below g, last first. */
  function FixturesDown(m: Machine, g: nat, oracle: Oracle): Machine
    decreases g
  {
    if g == 0 then m
    else
      var (m1, outcome) := Invoke(m, FixtureTearDown(g - 1), oracle);
      if outcome == Returned(true) then FixturesDown(m1, g - 1, oracle) else FailFixture(m1)
  }

  /** The reports of an assert-throws-nothing whose statement threw: the exception's text if it has one, the message, the assert. */
  function ThrewReports(m: Machine, outcome: Outcome): Machine {
    if outcome.ThrewSkip? then EmitReports(m, [Fail, Fail])
    else if outcome.ThrewOther? then EmitReports(m, if outcome.standard then [Fail, Fail, Fail] else [Fail, Fail])
    else m
  }

  function SetUpTest(n: nat, m: Machine, s: nat, t: nat, oracle: Oracle): (Machine, bool) {
    var (m1, ok) := FixturesUp(n, m, 0, oracle);
    if !ok then (m1, false)
    else
      var (m2, outcome) := Invoke(m1, TestSetUp(s, t), oracle);
      (ThrewReports(m2, outcome), outcome.Returned?)
  }

  function RunBody(m: Machine, s: nat, t: nat, oracle: Oracle): Machine {
    var (m1, outcome) := Invoke(m, TestRun(s, t), oracle);
    if outcome.ThrewOther? then Emit(m1, Failed) else m1
  }

  /** An abort, thrown or asked for by the settings after another exception, leaves the fixtures up. */
  function TearDownTest(n: nat, m: Machine, s: nat, t: nat, oracle: Oracle): Machine {
    var (m1, outcome) := Invoke(m, TestTearDown(s, t), oracle);
    var m2 := ThrewReports(m1, outcome);
    if outcome.ThrewAbort? || (!outcome.Returned? && m2.settings.abortOnFail) then m2
    else FixturesDown(m2, n, oracle)
  }

  function RunTest(n: nat, m: Machine, s: nat, t: nat, oracle: Oracle): Machine {
    var (m1, ok) := SetUpTest(n, Emit(m, EnterTest(s, t)), s, t, oracle);
    var m2 := if ok then TearDownTest(n, RunBody(m1, s, t, oracle), s, t, oracle) else m1;
    (if m2.escaped then m2 else Emit(m2, LeaveTest(s, t))).(settings := m.settings)
  }

  // ---------------------------------------------------------------- one suite

  function NextActiveTest(tests: seq<TestState>, i: nat): (k: nat)
    requires i <= |tests|
    ensures i <= k <= |tests| && (k < |tests| ==> tests[k].active) && forall j :: i <= j < k ==> !tests[j].active
    decreases |tests| - i
  {
    if i == |tests| || tests[i].active then i else NextActiveTest(tests, i + 1)
  }

  function RunTests(c: World, m: Machine, s: nat, t: nat, oracle: Oracle): Machine
    requires s < |c.suites| && t <= |c.suites[s].tests|
    decreases |c.suites[s].tests| - t
  {
    var k := NextActiveTest(c.suites[s].tests, t);
    if k == |c.suites[s].tests| then m
    else
      var m1 := RunTest(c.fixtures, m, s, k, oracle);
      if m1.escaped then m1 else RunTests(c, m1, s, k + 1, oracle)
  }

  /** setUp of a static suite does nothing; a dynamic one creates the suite object and asserts that it exists. */
  function SetUpSuite(c: World, m: Machine, s: nat, oracle: Oracle): (Machine, bool)
    requires s < |c.suites|
  {
    if !c.suites[s].dynamic then (Emit(m, SuiteReady(s)), true)
    else
      var (m1, outcome) := Invoke(m, SuiteCreate(s), oracle);
      if outcome == Returned(true) then (Emit(m1, SuiteReady(s)), true)
      else
        var m2 := ThrewReports(m1, outcome);
        // Without an abort the assert that the suite exists fails as well.
        (if outcome.ThrewAbort? || (!outcome.Returned? && m2.settings.abortOnFail) then m2
         else EmitReports(m2, [Fail, Fail]), false)
  }

  function TearDownSuite(c: World, m: Machine, s: nat, oracle: Oracle): Machine
    requires s < |c.suites|
  {
    if !c.suites[s].dynamic then m
    else
      var (m1, outcome) := Invoke(m, SuiteDestroy(s), oracle);
      ThrewReports(m1, outcome)
  }

  function RunSuite(c: World, m: Machine, s: nat, oracle: Oracle): Machine
    requires s < |c.suites|
  {
    var (m1, ok) := SetUpSuite(c, Emit(m, EnterSuite(s)), s, oracle);
    var m2 := if ok then RunTests(c, m1, s, 0, oracle) else m1;
    var m3 := if ok && !m2.escaped then TearDownSuite(c, m2, s, oracle) else m2;
    (if m3.escaped then m3 else Emit(m3, LeaveSuite(s))).(settings := m.settings)
  }

  // ---------------------------------------------------------------- the world

  function NextActiveSuite(w: seq<SuiteState>, i: nat): (k: nat)
    requires i <= |w|
    ensures i <= k <= |w| && (k < |w| ==> w[k].active) && forall j :: i <= j < k ==> !w[j].active
    decreases |w| - i
  {
    if i == |w| || w[i].active then i else NextActiveSuite(w, i + 1)
  }

  function RunSuites(c: World, m: Machine, s: nat, oracle: Oracle): Machine
    requires s <= |c.suites|
    decreases |c.suites| - s
  {
    var k := NextActiveSuite(c.suites, s);
    if k == |c.suites| then m
    else
      var m1 := RunSuite(c, m, k, oracle);
      if m1.escaped then m1 else RunSuites(c, m1, k + 1, oracle)
  }

  /** A failure reported while a world fixture sets up wipes the tracker and counts as a failed set-up. */
  function WorldUp(n: nat, m: Machine, g: nat, oracle: Oracle): (Machine, bool)
    requires g <= n
    decreases n - g
  {
    if g == n then (Emit(m, WorldReady), true)
    else
      var (m1, outcome) := Invoke(m, WorldSetUp(g), oracle);
      if outcome.Returned? && m1.tracker.testFailedAsserts > 0 then (Emit(Emit(m1, Initialize), Warned), false)
      else if outcome != Returned(true) then (Emit(m1, Warned), false)
      else WorldUp(n, m1, g + 1, oracle)
  }

  function WorldDown(m: Machine, g: nat, oracle: Oracle): Machine
    decreases g
  {
    if g == 0 then m
    else
      var (m1, outcome) := Invoke(m, WorldTearDown(g - 1), oracle);
      if outcome == Returned(true) then WorldDown(m1, g - 1, oracle) else Emit(m1, Warned)
  }

  function RunWorld(c: World, m: Machine, oracle: Oracle): Machine {
    var (m1, ok) := WorldUp(c.fixtures, Emit(m.(settings := c.defaults), EnterWorld), 0, oracle);
    var m2 := if ok then RunSuites(c, m1, 0, oracle) else m1;
    var m3 := if ok && !m2.escaped then WorldDown(m2, c.fixtures, oracle) else m2;
    (if m3.escaped then m3 else Emit(m3, LeaveWorld)).(settings := m.settings)
  }

  /** An escaped AbortTest ends here, as a failure reported outside any test. */
  function RunAllTests(c: World, m: Machine, oracle: Oracle): Machine {
    var m1 := RunWorld(c, m, oracle);
    if m1.escaped then Emit(m1, Failed).(escaped := false) else m1
  }
}
