/**
 * The runner's protocol, stated as a monitor that reads the trace of a run entry by entry, and the proof that no
 * run - whatever fixtures and tests do - ever violates it.
 */
module RunnerTheorems {
  import opened Bytes
  import opened Descriptions
  import opened Tracking
  import opened RunnerSpec

  // ---------------------------------------------------------------- the monitor

  datatype Stage = SettingUp(g: nat) | SetUp | Ran | TearDownThrew | TearingDown(g: nat) | Over

  /** The world's fixtures: g of them set up, all of them, g of them still to tear down, or one of them failed. */
  datatype Level = Rising(g: nat) | Up | Falling(g: nat) | Broken

  /** The object of a dynamic suite; a static one stays Absent. */
  datatype Life = Absent | Created | NotCreated | Destroyed

  /**
   * Where a run stands. `suiteNext`/`testNext` is the first index not yet considered, `worldBase`/`suiteBase` the
   * settings in force when that level's set-up had succeeded.
   */
  datatype Phase =
    | Bad
    | Outside
    | Done
    | InWorld(suiteNext: nat, worldBase: Option<Settings>, level: Level)
    | InSuite(suiteNext: nat, worldBase: Option<Settings>, s: nat, life: Life, testNext: nat, suiteBase: Option<Settings>)
    | InTest(suiteNext: nat, worldBase: Option<Settings>, s: nat, life: Life, testNext: nat, suiteBase: Option<Settings>,
             t: nat, stage: Stage)

  /** Inside a test: set-ups first to last, the test only after all of them, tear-downs last to first. */
  function NextStage(n: nat, p: Phase, cb: Callback, outcome: Outcome, abort: bool): Option<Stage>
    requires p.InTest?
  {
    match p.stage
    case SettingUp(g) =>
      if g < n && cb == FixtureSetUp(g) then Some(if outcome == Returned(true) then SettingUp(g + 1) else Over)
      else if g == n && cb == TestSetUp(p.s, p.t) then Some(if outcome.Returned? then SetUp else Over)
      else None
    case SetUp => if cb == TestRun(p.s, p.t) then Some(Ran) else None
    case Ran => if cb == TestTearDown(p.s, p.t) then
      Some(if outcome.Returned? then TearingDown(n) else if outcome.ThrewAbort? then Over else TearDownThrew) else None
    case TearDownThrew => if abort then None else FixtureDown(n, cb, outcome)
    case TearingDown(g) => FixtureDown(g, cb, outcome)
    case Over => None
  }

  function FixtureDown(g: nat, cb: Callback, outcome: Outcome): Option<Stage> {
    if g > 0 && cb == FixtureTearDown(g - 1) then Some(if outcome == Returned(true) then TearingDown(g - 1) else Over) else None
  }

  /** Nothing of the test is pending; a tear-down that threw aborts the test if the settings say so. */
  predicate Finished(n: nat, stage: Stage, abort: bool) {
    stage == Over || stage == TearingDown(0) || (stage == TearDownThrew && (abort || n == 0))
  }

  /** The suite's tests with an index in [from, upto) are all inactive. */
  ghost predicate NoActiveTest(c: World, s: nat, from: nat, upto: nat) {
    s < |c.suites| && upto <= |c.suites[s].tests| && forall j :: from <= j < upto ==> !c.suites[s].tests[j].active
  }

  ghost predicate NoActiveSuite(c: World, from: nat, upto: nat) {
    upto <= |c.suites| && forall j :: from <= j < upto ==> !c.suites[j].active
  }

  /** The world's fixtures: set up first to last, torn down last to first; a failing one is the last. */
  function NextLevel(n: nat, level: Level, cb: Callback, outcome: Outcome): Option<Level> {
    if cb.WorldSetUp? then
      if level.Rising? && level.g < n && cb.g == level.g then Some(if outcome == Returned(true) then Rising(cb.g + 1) else Broken)
      else None
    else if cb.WorldTearDown? then
      var g := if level.Up? then n else if level.Falling? then level.g else 0;
      if g > 0 && cb.g == g - 1 then Some(if outcome == Returned(true) then Falling(g - 1) else Broken) else None
    else None
  }

  function WithLife(p: Phase, life: Life): Phase
    requires p.InSuite?
  {
    InSuite(p.suiteNext, p.worldBase, p.s, life, p.testNext, p.suiteBase)
  }

  function Readied(p: Phase, settings: Settings): Phase
    requires p.InSuite?
  {
    InSuite(p.suiteNext, p.worldBase, p.s, p.life, p.testNext, Some(settings))
  }

  /** A suite object is created before its suite is ready, and destroyed once, when no active test is left over. */
  ghost predicate Destroyable(c: World, p: Phase)
    requires p.InSuite?
  {
    p.life == Created && p.suiteBase.Some? && p.s < |c.suites| && NoActiveTest(c, p.s, p.testNext, |c.suites[p.s].tests|)
  }

  /** One entry of the trace. Anything the protocol does not allow here leads to Bad. */
  ghost function Next(c: World, p: Phase, e: Entry): Phase {
    match e.event
    // Reports are allowed everywhere and change nothing.
    case Failed => p
    case FixtureError => p
    case Warned => p
    case Skipped => p
    case Traced => p
    // A failure reported during a world fixture's set-up.
    case Initialize =>
      if p.InWorld? && p.worldBase == None && ((p.level.Rising? && p.level.g > 0) || p.level.Broken?) then InWorld(0, None, Broken) else Bad
    case EnterWorld => if p == Outside && e.settings == c.defaults then InWorld(0, None, Rising(0)) else Bad
    case WorldReady => if p == InWorld(0, None, Rising(c.fixtures)) then InWorld(0, Some(e.settings), Up) else Bad
    // A suite is entered in its turn, with the settings the world's set-up left.
    case EnterSuite(s) =>
      if p.InWorld? && p.level.Up? && p.worldBase == Some(e.settings) && p.suiteNext <= s < |c.suites| && c.suites[s].active
         && NoActiveSuite(c, p.suiteNext, s) then
        InSuite(s + 1, p.worldBase, s, Absent, 0, None)
      else Bad
    case SuiteReady(s) =>
      if p.InSuite? && p.s == s && p.suiteBase == None && s < |c.suites|
         && p.life == (if c.suites[s].dynamic then Created else Absent) then
        Readied(p, e.settings)
      else Bad
    // A test is entered in its turn, with the settings its suite's set-up left.
    case EnterTest(s, t) =>
      if p.InSuite? && p.s == s && p.suiteBase == Some(e.settings) && p.life != Destroyed && s < |c.suites|
         && p.testNext <= t < |c.suites[s].tests| && c.suites[s].tests[t].active && NoActiveTest(c, s, p.testNext, t) then
        InTest(p.suiteNext, p.worldBase, s, p.life, t + 1, p.suiteBase, t, SettingUp(0))
      else Bad
    // A test is left when nothing of it is pending; a suite and a world when no active member is left over, the
    // suite's object is gone and the world's fixtures are down.
    case LeaveTest(s, t) =>
      if p.InTest? && p.s == s && p.t == t && Finished(c.fixtures, p.stage, e.settings.abortOnFail) then
        InSuite(p.suiteNext, p.worldBase, s, p.life, p.testNext, p.suiteBase)
      else Bad
    case LeaveSuite(s) =>
      if p.InSuite? && p.s == s && s < |c.suites|
         && (if p.suiteBase.Some? then
               NoActiveTest(c, s, p.testNext, |c.suites[s].tests|) && p.life == (if c.suites[s].dynamic then Destroyed else Absent)
             else c.suites[s].dynamic && p.life == NotCreated) then
        InWorld(p.suiteNext, p.worldBase, Up)
      else Bad
    case LeaveWorld =>
      if p.InWorld?
         && (if p.worldBase.Some? then
               NoActiveSuite(c, p.suiteNext, |c.suites|) && (p.level == Falling(0) || p.level.Broken? || (p.level.Up? && c.fixtures == 0))
             else p.level.Broken?) then
        Done
      else Bad
    case Call(cb, Reply(outcome, _, _)) =>
      if p.InTest? then
        match NextStage(c.fixtures, p, cb, outcome, e.settings.abortOnFail)
        case Some(stage) => p.(stage := stage)
        case None => Bad
      else if p.InSuite? then
        if cb == SuiteCreate(p.s) && p.s < |c.suites| && c.suites[p.s].dynamic && p.life == Absent && p.suiteBase == None then
          WithLife(p, if outcome == Returned(true) then Created else NotCreated)
        else if cb == SuiteDestroy(p.s) && Destroyable(c, p) then WithLife(p, Destroyed)
        else Bad
      else if p.InWorld? && (p.worldBase.Some? ==> NoActiveSuite(c, p.suiteNext, |c.suites|)) then
        match NextLevel(c.fixtures, p.level, cb, outcome)
        case Some(level) => p.(level := level)
        case None => Bad
      else Bad
  }

  ghost function Monitor(c: World, trace: seq<Entry>): Phase {
    if trace == [] then Outside else Next(c, Monitor(c, trace[..|trace| - 1]), trace[|trace| - 1])
  }

  /** A global fixture's set-up or tear-down around a test does not succeed and leaves abort-on-fail set. */
  predicate Breaks(e: Event) {
    e.Call? && (e.cb.FixtureSetUp? || e.cb.FixtureTearDown?) && e.reply.outcome != Returned(true) && e.reply.settings.abortOnFail
  }

  /** Somewhere in the run that happened. */
  predicate Aborted(trace: seq<Entry>) {
    exists i :: 0 <= i < |trace| && Breaks(trace[i].event)
  }

  function Events(trace: seq<Entry>): (r: seq<Event>)
    ensures |r| == |trace| && forall i :: 0 <= i < |trace| ==> r[i] == trace[i].event
  {
    seq(|trace|, i requires 0 <= i < |trace| => trace[i].event)
  }

  /** The run so far is at phase p, and what the tracker counts can be read off the trace. */
  ghost predicate Follows(c: World, m: Machine, p: Phase) {
    Monitor(c, m.trace) == p && p != Bad && m.tracker == Fold(Events(m.trace))
  }

  /** And so can what escaped. */
  ghost predicate At(c: World, m: Machine, p: Phase) {
    Follows(c, m, p) && m.escaped == Aborted(m.trace)
  }

  // ---------------------------------------------------------------- single events

  lemma EmitFollows(c: World, m: Machine, p: Phase, e: Event)
    requires Follows(c, m, p) && Next(c, p, Entry(e, m.settings)) != Bad
    ensures Follows(c, Emit(m, e), Next(c, p, Entry(e, m.settings)))
    ensures Aborted(Emit(m, e).trace) <==> Aborted(m.trace) || Breaks(e)
  {
    hide Next, Step, Breaks;
    var m1 := Emit(m, e);
    assert m1.trace[..|m.trace|] == m.trace;
    assert Events(m1.trace)[..|m.trace|] == Events(m.trace);
    assert forall i :: 0 <= i < |m.trace| ==> m1.trace[i] == m.trace[i];
    assert m1.trace[|m.trace|].event == e;
  }

  lemma EmitAt(c: World, m: Machine, p: Phase, e: Event)
    requires At(c, m, p) && Next(c, p, Entry(e, m.settings)) != Bad && !Breaks(e)
    ensures At(c, Emit(m, e), Next(c, p, Entry(e, m.settings)))
  {
    hide Next, Breaks, Aborted, Follows;
    assert Follows(c, m, p);
    EmitFollows(c, m, p, e);
  }

  lemma {:induction false} ReportsFollow(c: World, m: Machine, p: Phase, rs: seq<Report>)
    requires Follows(c, m, p)
    ensures Follows(c, EmitReports(m, rs), p)
    ensures EmitReports(m, rs).settings == m.settings && EmitReports(m, rs).escaped == m.escaped
    ensures Aborted(EmitReports(m, rs).trace) <==> Aborted(m.trace)
    decreases |rs|
  {
    hide Follows, Aborted;
    if rs != [] {
      ReportsFollow(c, m, p, rs[..|rs| - 1]);
      var m1 := EmitReports(m, rs[..|rs| - 1]);
      assert p != Bad by { FollowsMeans(c, m, p); }
      EmitFollows(c, m1, p, EventOf(rs[|rs| - 1]));
    }
  }

  lemma FollowsMeans(c: World, m: Machine, p: Phase)
    requires Follows(c, m, p)
    ensures p != Bad
  {
  }

  lemma ReportsAt(c: World, m: Machine, p: Phase, rs: seq<Report>)
    requires At(c, m, p)
    ensures At(c, EmitReports(m, rs), p) && EmitReports(m, rs).settings == m.settings && EmitReports(m, rs).escaped == m.escaped
  {
    hide Follows, Aborted, EmitReports;
    ReportsFollow(c, m, p, rs);
  }

  lemma AtFrom(c: World, m: Machine, p: Phase, settings: Settings, calls: nat)
    requires At(c, m, p)
    ensures At(c, m.(settings := settings, calls := calls), p)
  {
  }

  lemma InvokeFollows(c: World, m: Machine, p: Phase, cb: Callback, oracle: Oracle)
    requires Follows(c, m, p) && Next(c, p, Entry(Call(cb, oracle(m.calls)), m.settings)) != Bad
    ensures var (m1, outcome) := Invoke(m, cb, oracle);
            && Follows(c, m1, Next(c, p, Entry(Call(cb, oracle(m.calls)), m.settings)))
            && outcome == oracle(m.calls).outcome && m1.settings == oracle(m.calls).settings && m1.escaped == m.escaped
            && (Aborted(m1.trace) <==> Aborted(m.trace) || Breaks(Call(cb, oracle(m.calls))))
  {
    hide Follows, Next, Aborted, EmitReports, Breaks;
    var reply := oracle(m.calls);
    var e := Call(cb, reply);
    EmitFollows(c, m, p, e);
    var p1 := Next(c, p, Entry(e, m.settings));
    var m1 := Emit(m, e).(calls := m.calls + 1, settings := reply.settings);
    assert Follows(c, m1, p1) by { FollowsFrom(c, Emit(m, e), p1, reply.settings, m.calls + 1); }
    ReportsFollow(c, m1, p1, reply.reports);
  }

  lemma FollowsFrom(c: World, m: Machine, p: Phase, settings: Settings, calls: nat)
    requires Follows(c, m, p)
    ensures Follows(c, m.(settings := settings, calls := calls), p)
  {
  }

  lemma InvokeAt(c: World, m: Machine, p: Phase, cb: Callback, oracle: Oracle)
    requires At(c, m, p) && Next(c, p, Entry(Call(cb, oracle(m.calls)), m.settings)) != Bad
    requires !Breaks(Call(cb, oracle(m.calls)))
    ensures At(c, Invoke(m, cb, oracle).0, Next(c, p, Entry(Call(cb, oracle(m.calls)), m.settings)))
    ensures Invoke(m, cb, oracle).0.escaped == m.escaped
  {
    hide Follows, Next, Aborted, Breaks, Invoke;
    InvokeFollows(c, m, p, cb, oracle);
  }

  lemma ThrewAt(c: World, m: Machine, p: Phase, outcome: Outcome)
    requires At(c, m, p)
    ensures At(c, ThrewReports(m, outcome), p) && ThrewReports(m, outcome).escaped == m.escaped
  {
    hide At, EmitReports;
    ReportsAt(c, m, p, [Fail, Fail]);
    ReportsAt(c, m, p, [Fail, Fail, Fail]);
  }

  /** A fixture that does not succeed escapes exactly if it leaves abort-on-fail set. */
  lemma FailedFixtureAt(c: World, m: Machine, p: Phase, cb: Callback, oracle: Oracle)
    requires At(c, m, p) && !m.escaped && Next(c, p, Entry(Call(cb, oracle(m.calls)), m.settings)) != Bad
    requires (cb.FixtureSetUp? || cb.FixtureTearDown?) && oracle(m.calls).outcome != Returned(true)
    ensures At(c, FailFixture(Invoke(m, cb, oracle).0), Next(c, p, Entry(Call(cb, oracle(m.calls)), m.settings)))
  {
    hide Follows, Next, Aborted, Invoke;
    InvokeFollows(c, m, p, cb, oracle);
    var p1 := Next(c, p, Entry(Call(cb, oracle(m.calls)), m.settings));
    var m1 := Invoke(m, cb, oracle).0;
    assert Next(c, p1, Entry(FixtureError, m1.settings)) == p1 by { ReportsStay(c, p1, FixtureError, m1.settings); }
    EmitFollows(c, m1, p1, FixtureError);
    Escaping(c, Emit(m1, FixtureError), p1);
  }

  lemma ReportsStay(c: World, p: Phase, e: Event, settings: Settings)
    requires e == FixtureError
    ensures Next(c, p, Entry(e, settings)) == p
  {
  }

  lemma Escaping(c: World, m: Machine, p: Phase)
    requires Follows(c, m, p)
    ensures Follows(c, m.(escaped := true), p)
  {
  }

  // ---------------------------------------------------------------- one test

  lemma {:induction false} FixturesUpAt(c: World, m: Machine, p: Phase, g: nat, oracle: Oracle)
    requires g <= c.fixtures && p.InTest? && p.stage == SettingUp(g) && At(c, m, p) && !m.escaped
    ensures var (m1, ok) := FixturesUp(c.fixtures, m, g, oracle);
            At(c, m1, p.(stage := if ok then SettingUp(c.fixtures) else Over)) && (ok ==> !m1.escaped)
    decreases c.fixtures - g
  {
    hide At, Invoke, FailFixture;
    if g < c.fixtures {
      var (m1, outcome) := Invoke(m, FixtureSetUp(g), oracle);
      InvokeOutcome(m, FixtureSetUp(g), oracle);
      if outcome == Returned(true) {
        InvokeAt(c, m, p, FixtureSetUp(g), oracle);
        FixturesUpAt(c, m1, p.(stage := SettingUp(g + 1)), g + 1, oracle);
      } else {
        FailedFixtureAt(c, m, p, FixtureSetUp(g), oracle);
      }
    }
  }

  lemma InvokeOutcome(m: Machine, cb: Callback, oracle: Oracle)
    ensures Invoke(m, cb, oracle).1 == oracle(m.calls).outcome
  {
  }

  /** Tear-down from stage Ran on ends with nothing of the test pending. */
  lemma {:induction false} FixturesDownAt(c: World, m: Machine, p: Phase, g: nat, oracle: Oracle) returns (p1: Phase)
    requires p.InTest? && At(c, m, p) && !m.escaped
    requires p.stage == TearingDown(g) || (p.stage == TearDownThrew && g == c.fixtures && !m.settings.abortOnFail)
    ensures p1.InTest? && p1 == p.(stage := p1.stage) && At(c, FixturesDown(m, g, oracle), p1)
    ensures Finished(c.fixtures, p1.stage, FixturesDown(m, g, oracle).settings.abortOnFail)
    decreases g
  {
    hide At, Invoke, FailFixture;
    if g == 0 { return p; }
    InvokeOutcome(m, FixtureTearDown(g - 1), oracle);
    var (m1, outcome) := Invoke(m, FixtureTearDown(g - 1), oracle);
    if outcome == Returned(true) {
      InvokeAt(c, m, p, FixtureTearDown(g - 1), oracle);
      p1 := FixturesDownAt(c, m1, p.(stage := TearingDown(g - 1)), g - 1, oracle);
    } else {
      p1 := p.(stage := Over);
      FailedFixtureAt(c, m, p, FixtureTearDown(g - 1), oracle);
    }
  }

  lemma SetUpTestAt(c: World, m: Machine, p: Phase, oracle: Oracle)
    requires p.InTest? && p.stage == SettingUp(0) && At(c, m, p) && !m.escaped
    ensures var (m1, ok) := SetUpTest(c.fixtures, m, p.s, p.t, oracle);
            At(c, m1, p.(stage := if ok then SetUp else Over)) && (ok ==> !m1.escaped)
  {
    hide At, Invoke, FixturesUp, ThrewReports;
    FixturesUpAt(c, m, p, 0, oracle);
    var (m1, ok) := FixturesUp(c.fixtures, m, 0, oracle);
    if ok {
      var cb := Callback.TestSetUp(p.s, p.t);
      InvokeAt(c, m1, p.(stage := SettingUp(c.fixtures)), cb, oracle);
      InvokeOutcome(m1, cb, oracle);
      var (m2, outcome) := Invoke(m1, cb, oracle);
      ThrewAt(c, m2, p.(stage := if outcome.Returned? then SetUp else Over), outcome);
    }
  }

  lemma RunBodyAt(c: World, m: Machine, p: Phase, oracle: Oracle)
    requires p.InTest? && p.stage == SetUp && At(c, m, p) && !m.escaped
    ensures At(c, RunBody(m, p.s, p.t, oracle), p.(stage := Ran)) && !RunBody(m, p.s, p.t, oracle).escaped
  {
    hide At, Invoke;
    InvokeAt(c, m, p, TestRun(p.s, p.t), oracle);
    EmitAtFailed(c, Invoke(m, TestRun(p.s, p.t), oracle).0, p.(stage := Ran));
    InvokeOutcome(m, TestRun(p.s, p.t), oracle);
  }

  lemma EmitAtFailed(c: World, m: Machine, p: Phase)
    requires At(c, m, p)
    ensures At(c, Emit(m, Failed), p)
  {
    EmitAt(c, m, p, Failed);
  }

  lemma TearDownTestAt(c: World, m: Machine, p: Phase, oracle: Oracle) returns (p1: Phase)
    requires p.InTest? && p.stage == Ran && At(c, m, p) && !m.escaped
    ensures p1.InTest? && p1 == p.(stage := p1.stage)
    ensures var m1 := TearDownTest(c.fixtures, m, p.s, p.t, oracle);
            At(c, m1, p1) && Finished(c.fixtures, p1.stage, m1.settings.abortOnFail)
  {
    hide At, Invoke, ThrewReports, FixturesDown;
    var cb := Callback.TestTearDown(p.s, p.t);
    InvokeAt(c, m, p, cb, oracle);
    InvokeOutcome(m, cb, oracle);
    var (m1, outcome) := Invoke(m, cb, oracle);
    p1 := p.(stage := if outcome.Returned? then TearingDown(c.fixtures) else if outcome.ThrewAbort? then Over else TearDownThrew);
    ThrewAt(c, m1, p1, outcome);
    var m2 := ThrewReports(m1, outcome);
    if !(outcome.ThrewAbort? || (!outcome.Returned? && m2.settings.abortOnFail)) {
      p1 := FixturesDownAt(c, m2, p1, c.fixtures, oracle);
    }
  }

  /** Where a run stands after an escape: still inside the test whose fixture failed. */
  ghost predicate Stuck(p: Phase, m: Machine) {
    m.escaped && p.InTest?
  }

  lemma RunTestAt(c: World, m: Machine, p: Phase, t: nat, oracle: Oracle) returns (p1: Phase)
    requires p.InSuite? && p.suiteBase == Some(m.settings) && p.life != Destroyed
    requires p.s < |c.suites| && p.testNext <= t < |c.suites[p.s].tests|
    requires c.suites[p.s].tests[t].active && NoActiveTest(c, p.s, p.testNext, t)
    requires At(c, m, p) && !m.escaped
    ensures var m1 := RunTest(c.fixtures, m, p.s, t, oracle);
            && m1.settings == m.settings && At(c, m1, p1)
            && (Stuck(p1, m1) || (!m1.escaped && p1 == InSuite(p.suiteNext, p.worldBase, p.s, p.life, t + 1, p.suiteBase)))
  {
    hide At, SetUpTest, TearDownTest, RunBody;
    var e := EnterTest(p.s, t);
    EmitAt(c, m, p, e);
    var m0 := Emit(m, e);
    var p0 := InTest(p.suiteNext, p.worldBase, p.s, p.life, t + 1, p.suiteBase, t, SettingUp(0));
    SetUpTestAt(c, m0, p0, oracle);
    var (m1, ok) := SetUpTest(c.fixtures, m0, p.s, t, oracle);
    var m2 := m1;
    p1 := p0.(stage := Over);
    if ok {
      RunBodyAt(c, m1, p0.(stage := SetUp), oracle);
      p1 := TearDownTestAt(c, RunBody(m1, p.s, t, oracle), p0.(stage := Ran), oracle);
      m2 := TearDownTest(c.fixtures, RunBody(m1, p.s, t, oracle), p.s, t, oracle);
    }
    if m2.escaped {
      AtFrom(c, m2, p1, m.settings, m2.calls);
    } else {
      EmitAt(c, m2, p1, LeaveTest(p.s, t));
      p1 := InSuite(p.suiteNext, p.worldBase, p.s, p.life, t + 1, p.suiteBase);
      AtFrom(c, Emit(m2, LeaveTest(p.s, t)), p1, m.settings, m2.calls);
    }
  }

  // ---------------------------------------------------------------- one suite

  lemma {:induction false} RunTestsAt(c: World, m: Machine, p: Phase, oracle: Oracle) returns (p1: Phase)
    requires p.InSuite? && p.suiteBase == Some(m.settings) && p.life != Destroyed
    requires p.s < |c.suites| && p.testNext <= |c.suites[p.s].tests|
    requires At(c, m, p) && !m.escaped
    ensures var m1 := RunTests(c, m, p.s, p.testNext, oracle);
            && m1.settings == m.settings && At(c, m1, p1)
            && (Stuck(p1, m1)
                || (!m1.escaped && p1.InSuite? && p1 == InSuite(p.suiteNext, p.worldBase, p.s, p.life, p1.testNext, p.suiteBase)
                    && NoActiveTest(c, p.s, p1.testNext, |c.suites[p.s].tests|)))
    decreases |c.suites[p.s].tests| - p.testNext
  {
    hide At, RunTest;
    var k := NextActiveTest(c.suites[p.s].tests, p.testNext);
    if k == |c.suites[p.s].tests| {
      return p;
    }
    p1 := RunTestAt(c, m, p, k, oracle);
    var m1 := RunTest(c.fixtures, m, p.s, k, oracle);
    if !m1.escaped {
      p1 := RunTestsAt(c, m1, p1, oracle);
    }
  }

  lemma SetUpSuiteAt(c: World, m: Machine, p: Phase, oracle: Oracle) returns (p1: Phase)
    requires p.InSuite? && p.suiteBase == None && p.testNext == 0 && p.life == Absent && p.s < |c.suites|
    requires At(c, m, p) && !m.escaped
    ensures var (m1, ok) := SetUpSuite(c, m, p.s, oracle);
            && At(c, m1, p1) && !m1.escaped && p1.InSuite?
            && p1 == InSuite(p.suiteNext, p.worldBase, p.s, p1.life, 0, if ok then Some(m1.settings) else None)
            && p1.life == (if ok then LifeOf(c, p.s) else NotCreated) && (!ok ==> c.suites[p.s].dynamic)
  {
    hide At, Invoke, ThrewReports, EmitReports;
    if !c.suites[p.s].dynamic {
      EmitAt(c, m, p, SuiteReady(p.s));
      return Readied(p, m.settings);
    }
    InvokeAt(c, m, p, SuiteCreate(p.s), oracle);
    InvokeOutcome(m, SuiteCreate(p.s), oracle);
    var (m1, outcome) := Invoke(m, SuiteCreate(p.s), oracle);
    p1 := WithLife(p, if outcome == Returned(true) then Created else NotCreated);
    if outcome == Returned(true) {
      EmitAt(c, m1, p1, SuiteReady(p.s));
      p1 := Readied(p1, m1.settings);
    } else {
      ThrewAt(c, m1, p1, outcome);
      ReportsAt(c, ThrewReports(m1, outcome), p1, [Fail, Fail]);
    }
  }

  /** The object of a suite that is ready. */
  function LifeOf(c: World, s: nat): Life
    requires s < |c.suites|
  {
    if c.suites[s].dynamic then Created else Absent
  }

  lemma TearDownSuiteAt(c: World, m: Machine, p: Phase, oracle: Oracle) returns (p1: Phase)
    requires p.InSuite? && p.suiteBase.Some? && p.s < |c.suites| && p.life == LifeOf(c, p.s) && At(c, m, p) && !m.escaped
    requires NoActiveTest(c, p.s, p.testNext, |c.suites[p.s].tests|)
    ensures p1 == WithLife(p, if c.suites[p.s].dynamic then Destroyed else Absent)
    ensures At(c, TearDownSuite(c, m, p.s, oracle), p1) && !TearDownSuite(c, m, p.s, oracle).escaped
  {
    hide At, Invoke, ThrewReports, NoActiveTest;
    p1 := p;
    if c.suites[p.s].dynamic {
      InvokeAt(c, m, p, SuiteDestroy(p.s), oracle);
      var (m1, outcome) := Invoke(m, SuiteDestroy(p.s), oracle);
      p1 := WithLife(p, Destroyed);
      ThrewAt(c, m1, p1, outcome);
    }
  }

  lemma RunSuiteAt(c: World, m: Machine, p: Phase, s: nat, oracle: Oracle) returns (p1: Phase)
    requires p.InWorld? && p.worldBase == Some(m.settings) && p.level.Up? && p.suiteNext <= s < |c.suites| && c.suites[s].active
    requires NoActiveSuite(c, p.suiteNext, s) && At(c, m, p) && !m.escaped
    ensures var m1 := RunSuite(c, m, s, oracle);
            && m1.settings == m.settings && At(c, m1, p1)
            && (Stuck(p1, m1) || (!m1.escaped && p1 == InWorld(s + 1, p.worldBase, Up)))
  {
    hide At, SetUpSuite, RunTests, TearDownSuite, NoActiveTest;
    EmitAt(c, m, p, EnterSuite(s));
    var m0 := Emit(m, EnterSuite(s));
    p1 := SetUpSuiteAt(c, m0, InSuite(s + 1, p.worldBase, s, Absent, 0, None), oracle);
    var (m1, ok) := SetUpSuite(c, m0, s, oracle);
    var m3 := m1;
    if ok {
      p1 := RunTestsAt(c, m1, p1, oracle);
      m3 := RunTests(c, m1, s, 0, oracle);
      if !m3.escaped {
        p1 := TearDownSuiteAt(c, m3, p1, oracle);
        m3 := TearDownSuite(c, m3, s, oracle);
      }
    }
    if m3.escaped {
      AtFrom(c, m3, p1, m.settings, m3.calls);
    } else {
      EmitAt(c, m3, p1, LeaveSuite(s));
      p1 := InWorld(s + 1, p.worldBase, Up);
      AtFrom(c, Emit(m3, LeaveSuite(s)), p1, m.settings, m3.calls);
    }
  }

  // ---------------------------------------------------------------- the world

  lemma {:induction false} RunSuitesAt(c: World, m: Machine, p: Phase, oracle: Oracle) returns (p1: Phase)
    requires p.InWorld? && p.worldBase == Some(m.settings) && p.level.Up? && p.suiteNext <= |c.suites| && At(c, m, p) && !m.escaped
    ensures var m1 := RunSuites(c, m, p.suiteNext, oracle);
            && m1.settings == m.settings && At(c, m1, p1)
            && (Stuck(p1, m1) || (!m1.escaped && p1.InWorld? && p1.worldBase == p.worldBase && p1.level.Up?
                                  && NoActiveSuite(c, p1.suiteNext, |c.suites|)))
    decreases |c.suites| - p.suiteNext
  {
    hide At, RunSuite;
    var k := NextActiveSuite(c.suites, p.suiteNext);
    if k == |c.suites| {
      return p;
    }
    p1 := RunSuiteAt(c, m, p, k, oracle);
    var m1 := RunSuite(c, m, k, oracle);
    if !m1.escaped {
      p1 := RunSuitesAt(c, m1, p1, oracle);
    }
  }

  lemma {:induction false} WorldUpAt(c: World, m: Machine, g: nat, oracle: Oracle)
    requires g <= c.fixtures && At(c, m, InWorld(0, None, Rising(g))) && !m.escaped
    ensures var (m1, ok) := WorldUp(c.fixtures, m, g, oracle);
            At(c, m1, if ok then InWorld(0, Some(m1.settings), Up) else InWorld(0, None, Broken)) && !m1.escaped
    decreases c.fixtures - g
  {
    hide At, Invoke;
    var p, failed := InWorld(0, None, Rising(g)), InWorld(0, None, Broken);
    if g == c.fixtures {
      EmitAt(c, m, p, WorldReady);
    } else {
      InvokeAt(c, m, p, WorldSetUp(g), oracle);
      InvokeOutcome(m, WorldSetUp(g), oracle);
      var (m1, outcome) := Invoke(m, WorldSetUp(g), oracle);
      var p1 := InWorld(0, None, if outcome == Returned(true) then Rising(g + 1) else Broken);
      if outcome.Returned? && m1.tracker.testFailedAsserts > 0 {
        EmitAt(c, m1, p1, Initialize);
        EmitAt(c, Emit(m1, Initialize), failed, Warned);
      } else if outcome != Returned(true) {
        EmitAt(c, m1, failed, Warned);
      } else {
        WorldUpAt(c, m1, g + 1, oracle);
      }
    }
  }

  lemma {:induction false} WorldDownAt(c: World, m: Machine, p: Phase, g: nat, oracle: Oracle) returns (p1: Phase)
    requires p.InWorld? && p.worldBase.Some? && NoActiveSuite(c, p.suiteNext, |c.suites|)
    requires p.level == Falling(g) || (p.level.Up? && g == c.fixtures)
    requires At(c, m, p) && !m.escaped
    ensures At(c, WorldDown(m, g, oracle), p1) && !WorldDown(m, g, oracle).escaped
    ensures p1.InWorld? && p1 == p.(level := p1.level)
    ensures p1.level == Falling(0) || p1.level.Broken? || (p1.level.Up? && c.fixtures == 0)
    decreases g
  {
    hide At, Invoke, NoActiveSuite;
    p1 := p;
    if g > 0 {
      InvokeAt(c, m, p, WorldTearDown(g - 1), oracle);
      InvokeOutcome(m, WorldTearDown(g - 1), oracle);
      var (m1, outcome) := Invoke(m, WorldTearDown(g - 1), oracle);
      if outcome == Returned(true) {
        p1 := WorldDownAt(c, m1, p.(level := Falling(g - 1)), g - 1, oracle);
      } else {
        p1 := p.(level := Broken);
        EmitAt(c, m1, p1, Warned);
      }
    }
  }

  lemma RunWorldAt(c: World, m: Machine, oracle: Oracle) returns (p1: Phase)
    requires At(c, m, Outside) && !m.escaped
    ensures var m1 := RunWorld(c, m, oracle);
            m1.settings == m.settings && At(c, m1, p1) && (Stuck(p1, m1) || (!m1.escaped && p1 == Done))
  {
    hide At, WorldUp, RunSuites, WorldDown, NoActiveSuite;
    AtFrom(c, m, Outside, c.defaults, m.calls);
    EmitAt(c, m.(settings := c.defaults), Outside, EnterWorld);
    var m0 := Emit(m.(settings := c.defaults), EnterWorld);
    WorldUpAt(c, m0, 0, oracle);
    var (m1, ok) := WorldUp(c.fixtures, m0, 0, oracle);
    p1 := if ok then InWorld(0, Some(m1.settings), Up) else InWorld(0, None, Broken);
    var m3 := m1;
    if ok {
      p1 := RunSuitesAt(c, m1, p1, oracle);
      m3 := RunSuites(c, m1, 0, oracle);
      if !m3.escaped {
        p1 := WorldDownAt(c, m3, p1, c.fixtures, oracle);
        m3 := WorldDown(m3, c.fixtures, oracle);
      }
    }
    if m3.escaped {
      AtFrom(c, m3, p1, m.settings, m3.calls);
    } else {
      EmitAt(c, m3, p1, LeaveWorld);
      p1 := Done;
      AtFrom(c, Emit(m3, LeaveWorld), p1, m.settings, m3.calls);
    }
  }

  // ---------------------------------------------------------------- the theorems

  function Start(settings: Settings): Machine {
    Machine([], settings, 0, ZERO, false)
  }

  /**
   * For every world and every behaviour of fixtures and tests the trace obeys the protocol, the settings from before
   * the run are restored, and the tracker's counters are the fold of the trace. The trace is completely nested -
   * every enter has its leave - exactly when no fixture called around a test answered anything but success while
   * leaving abort-on-fail set.
   */
  lemma RunObeysProtocol(c: World, settings: Settings, oracle: Oracle)
    ensures var m := RunWorld(c, Start(settings), oracle);
            && Monitor(c, m.trace) != Bad
            && (Monitor(c, m.trace) == Done <==> !Aborted(m.trace))
            && (m.escaped <==> Aborted(m.trace))
            && m.settings == settings
            && m.tracker == Fold(Events(m.trace))
  {
    hide RunWorld;
    assert At(c, Start(settings), Outside);
    var p := RunWorldAt(c, Start(settings), oracle);
  }

  // ---------------------------------------------------------------- every test exactly once, in order

  /** The tests entered, in the order of the trace. */
  function Entered(trace: seq<Entry>): seq<(nat, nat)> {
    if trace == [] then []
    else
      var e := trace[|trace| - 1].event;
      Entered(trace[..|trace| - 1]) + if e.EnterTest? then [(e.s, e.t)] else []
  }

  /** The suites whose set-up succeeded. */
  function Ready(trace: seq<Entry>): set<nat> {
    if trace == [] then {}
    else
      var e := trace[|trace| - 1].event;
      Ready(trace[..|trace| - 1]) + if e.SuiteReady? then {e.s} else {}
  }

  /** The active tests of suite s below k, in list order. */
  function Tests(c: World, s: nat, k: nat): seq<(nat, nat)>
    requires s < |c.suites| && k <= |c.suites[s].tests|
  {
    if k == 0 then [] else Tests(c, s, k - 1) + if c.suites[s].tests[k - 1].active then [(s, k - 1)] else []
  }

  /** All active tests of the ready suites below n, suite by suite. */
  function AllTests(c: World, ready: set<nat>, n: nat): seq<(nat, nat)>
    requires n <= |c.suites|
  {
    if n == 0 then []
    else AllTests(c, ready, n - 1) + if n - 1 in ready then Tests(c, n - 1, |c.suites[n - 1].tests|) else []
  }

  lemma {:induction false} SkipTests(c: World, s: nat, from: nat, upto: nat)
    requires from <= upto && NoActiveTest(c, s, from, upto)
    ensures Tests(c, s, upto) == Tests(c, s, from)
    decreases upto
  {
    if from < upto {
      SkipTests(c, s, from, upto - 1);
    }
  }

  lemma {:induction false} SkipSuites(c: World, ready: set<nat>, from: nat, upto: nat)
    requires from <= upto <= |c.suites| && forall s :: s in ready ==> s < from
    ensures AllTests(c, ready, upto) == AllTests(c, ready, from)
    decreases upto
  {
    if from < upto {
      SkipSuites(c, ready, from, upto - 1);
    }
  }

  lemma {:induction false} ReadyAbove(c: World, ready: set<nat>, s: nat, n: nat)
    requires n <= s && n <= |c.suites|
    ensures AllTests(c, ready + {s}, n) == AllTests(c, ready, n)
  {
    if n > 0 {
      ReadyAbove(c, ready, s, n - 1);
    }
  }

  /** What has been entered and made ready when the monitor stands at p. */
  ghost predicate Progress(c: World, p: Phase, entered: seq<(nat, nat)>, ready: set<nat>) {
    match p
    case Bad => true
    case Outside => entered == [] && ready == {}
    case Done => entered == AllTests(c, ready, |c.suites|)
    case InWorld(next, worldBase, _) =>
      && next <= |c.suites| && (forall s :: s in ready ==> s < next) && entered == AllTests(c, ready, next)
      && (worldBase == None ==> next == 0)
    case InSuite(next, worldBase, s, _, testNext, base) =>
      worldBase.Some? && InSuiteProgress(c, next, s, testNext, base, entered, ready)
    case InTest(next, worldBase, s, _, testNext, base, _, _) =>
      worldBase.Some? && InSuiteProgress(c, next, s, testNext, base, entered, ready)
  }

  ghost predicate InSuiteProgress(c: World, next: nat, s: nat, testNext: nat, base: Option<Settings>,
                                  entered: seq<(nat, nat)>, ready: set<nat>) {
    && next == s + 1 <= |c.suites| && testNext <= |c.suites[s].tests| && (base == None ==> testNext == 0)
    && (s in ready <==> base.Some?) && (forall x :: x in ready ==> x <= s)
    && entered == AllTests(c, ready, s) + Tests(c, s, testNext)
  }

  lemma ProgressStep(c: World, p: Phase, e: Entry, entered: seq<(nat, nat)>, ready: set<nat>)
    requires Progress(c, p, entered, ready)
    ensures Progress(c, Next(c, p, e), entered + (if e.event.EnterTest? then [(e.event.s, e.event.t)] else []),
                     ready + (if e.event.SuiteReady? then {e.event.s} else {}))
  {
    hide NextStage;
    var p1 := Next(c, p, e);
    assert entered + [] == entered && ready + {} == ready;
    if p1 != Bad {
      match e.event {
        case EnterSuite(s) => SkipSuites(c, ready, p.suiteNext, s);
        case SuiteReady(s) => ReadyAbove(c, ready, s, s);
        case EnterTest(s, t) =>
          SkipTests(c, s, p.testNext, t);
          assert entered + [(s, t)] == AllTests(c, ready, s) + (Tests(c, s, t) + [(s, t)]);
        case LeaveSuite(s) =>
          if p.suiteBase.Some? { SkipTests(c, s, p.testNext, |c.suites[s].tests|); }
        case LeaveWorld => SkipSuites(c, ready, p.suiteNext, |c.suites|);
        case _ =>
      }
    }
  }

  lemma {:induction false} ProgressHolds(c: World, trace: seq<Entry>)
    ensures Progress(c, Monitor(c, trace), Entered(trace), Ready(trace))
  {
    hide Next, Progress;
    if trace == [] {
      ProgressStart(c);
    } else {
      ProgressHolds(c, trace[..|trace| - 1]);
      ProgressStep(c, Monitor(c, trace[..|trace| - 1]), trace[|trace| - 1], Entered(trace[..|trace| - 1]), Ready(trace[..|trace| - 1]));
    }
  }

  lemma ProgressStart(c: World)
    ensures Progress(c, Outside, [], {})
  {
  }

  /** Unless a run aborts, it enters exactly the active tests of the ready suites, each once, in list order. */
  lemma EveryTestOnce(c: World, settings: Settings, oracle: Oracle)
    ensures var m := RunWorld(c, Start(settings), oracle);
            !Aborted(m.trace) ==> Entered(m.trace) == AllTests(c, Ready(m.trace), |c.suites|)
  {
    hide RunWorld, Monitor;
    RunObeysProtocol(c, settings, oracle);
    ProgressHolds(c, RunWorld(c, Start(settings), oracle).trace);
  }

  lemma {:induction false} CountTests(c: World, s: nat, k: nat)
    requires s < |c.suites| && k <= |c.suites[s].tests|
    ensures |Tests(c, s, k)| == CountActive(c.suites[s].tests[..k])
  {
    if k > 0 {
      CountTests(c, s, k - 1);
      assert c.suites[s].tests[..k][..k - 1] == c.suites[s].tests[..k - 1];
    }
  }

  lemma {:induction false} CountAllTests(c: World, ready: set<nat>, n: nat)
    requires n <= |c.suites| && forall s :: 0 <= s < n ==> (s in ready <==> c.suites[s].active)
    ensures |AllTests(c, ready, n)| == TotalTests(c.suites[..n])
  {
    if n > 0 {
      CountAllTests(c, ready, n - 1);
      CountTests(c, n - 1, |c.suites[n - 1].tests|);
      assert c.suites[n - 1].tests[..|c.suites[n - 1].tests|] == c.suites[n - 1].tests;
      assert c.suites[..n][..n - 1] == c.suites[..n - 1];
    }
  }

  /** When every active suite got ready, the run enters as many tests as numTotalTests announces. */
  lemma EntriesAreTotal(c: World, settings: Settings, oracle: Oracle)
    ensures var m := RunWorld(c, Start(settings), oracle);
            !Aborted(m.trace) && (forall s :: 0 <= s < |c.suites| ==> (s in Ready(m.trace) <==> c.suites[s].active))
            ==> |Entered(m.trace)| == TotalTests(c.suites)
  {
    hide RunWorld, Aborted, Entered, Ready;
    var m := RunWorld(c, Start(settings), oracle);
    EveryTestOnce(c, settings, oracle);
    if forall s :: 0 <= s < |c.suites| ==> (s in Ready(m.trace) <==> c.suites[s].active) {
      CountAllTests(c, Ready(m.trace), |c.suites|);
      assert c.suites[..|c.suites|] == c.suites;
    }
  }

  // ---------------------------------------------------------------- settings do not leak

  ghost predicate Logged(trace: seq<Entry>, e: Entry) {
    exists j :: 0 <= j < |trace| && trace[j] == e
  }

  /** The settings a phase remembers are those of a set-up entry in the trace. */
  ghost predicate BasesLogged(p: Phase, trace: seq<Entry>) {
    && ((p.InWorld? || p.InSuite? || p.InTest?) && p.worldBase.Some? ==> Logged(trace, Entry(WorldReady, p.worldBase.value)))
    && ((p.InSuite? || p.InTest?) && p.suiteBase.Some? ==> Logged(trace, Entry(SuiteReady(p.s), p.suiteBase.value)))
  }

  lemma LoggedGrows(trace: seq<Entry>, e: Entry, last: Entry)
    ensures Logged(trace, e) ==> Logged(trace + [last], e)
    ensures Logged(trace + [last], last)
  {
    assert (trace + [last])[|trace|] == last;
    assert forall j :: 0 <= j < |trace| ==> (trace + [last])[j] == trace[j];
  }

  lemma {:induction false} BasesAreLogged(c: World, trace: seq<Entry>)
    ensures BasesLogged(Monitor(c, trace), trace)
  {
    hide NextStage, NoActiveTest, NoActiveSuite, Logged;
    if trace != [] {
      var before, last := trace[..|trace| - 1], trace[|trace| - 1];
      assert trace == before + [last];
      BasesAreLogged(c, before);
      var p := Monitor(c, before);
      if (p.InWorld? || p.InSuite? || p.InTest?) && p.worldBase.Some? {
        LoggedGrows(before, Entry(WorldReady, p.worldBase.value), last);
      }
      if (p.InSuite? || p.InTest?) && p.suiteBase.Some? {
        LoggedGrows(before, Entry(SuiteReady(p.s), p.suiteBase.value), last);
      }
      LoggedGrows(before, last, last);
    }
  }

  lemma {:induction false} PrefixNotBad(c: World, trace: seq<Entry>, i: nat)
    requires i <= |trace| && Monitor(c, trace) != Bad
    ensures Monitor(c, trace[..i]) != Bad
    decreases |trace|
  {
    if i == |trace| {
      assert trace[..i] == trace;
    } else {
      assert trace[..|trace| - 1][..i] == trace[..i];
      PrefixNotBad(c, trace[..|trace| - 1], i);
    }
  }

  /**
   * Whatever tests and fixtures do to the global settings, every suite starts with those the world's set-up left and
   * every test with those its suite's set-up left.
   */
  lemma SettingsDoNotLeak(c: World, settings: Settings, oracle: Oracle, i: nat)
    requires i < |RunWorld(c, Start(settings), oracle).trace|
    ensures var trace := RunWorld(c, Start(settings), oracle).trace;
            var e := trace[i];
            && (e.event.EnterTest? ==> Logged(trace[..i], Entry(SuiteReady(e.event.s), e.settings)))
            && (e.event.EnterSuite? ==> Logged(trace[..i], Entry(WorldReady, e.settings)))
            && (e.event.EnterWorld? ==> e.settings == c.defaults)
  {
    hide RunWorld, Logged, NextStage, NoActiveTest, NoActiveSuite;
    var trace := RunWorld(c, Start(settings), oracle).trace;
    RunObeysProtocol(c, settings, oracle);
    PrefixNotBad(c, trace, i + 1);
    assert trace[..i + 1][..i] == trace[..i];
    BasesAreLogged(c, trace[..i]);
  }

  // ---------------------------------------------------------------- a clean test

  function Calls(trace: seq<Entry>): seq<Callback> {
    if trace == [] then []
    else
      var e := trace[|trace| - 1].event;
      Calls(trace[..|trace| - 1]) + if e.Call? then [e.cb] else []
  }

  function Ups(g: nat, n: nat): seq<Callback>
    requires g <= n
    decreases n - g
  {
    if g == n then [] else [FixtureSetUp(g)] + Ups(g + 1, n)
  }

  function Downs(g: nat): seq<Callback> {
    if g == 0 then [] else [FixtureTearDown(g - 1)] + Downs(g - 1)
  }

  lemma CallsOfEmit(m: Machine, e: Event)
    ensures Calls(Emit(m, e).trace) == Calls(m.trace) + if e.Call? then [e.cb] else []
  {
    assert Emit(m, e).trace[..|m.trace|] == m.trace;
  }

  lemma {:induction false} CallsOfReports(m: Machine, rs: seq<Report>)
    ensures var m1 := EmitReports(m, rs);
            Calls(m1.trace) == Calls(m.trace) && m1.calls == m.calls && m1.settings == m.settings && m1.escaped == m.escaped
    decreases |rs|
  {
    if rs != [] {
      CallsOfReports(m, rs[..|rs| - 1]);
      CallsOfEmit(EmitReports(m, rs[..|rs| - 1]), EventOf(rs[|rs| - 1]));
    }
  }

  lemma CallsOfInvoke(m: Machine, cb: Callback, oracle: Oracle)
    ensures Calls(Invoke(m, cb, oracle).0.trace) == Calls(m.trace) + [cb]
    ensures Invoke(m, cb, oracle).1 == oracle(m.calls).outcome && Invoke(m, cb, oracle).0.settings == oracle(m.calls).settings
    ensures Invoke(m, cb, oracle).0.calls == m.calls + 1 && Invoke(m, cb, oracle).0.escaped == m.escaped
  {
    hide Calls, EmitReports;
    var reply := oracle(m.calls);
    CallsOfEmit(m, Call(cb, reply));
    CallsOfReports(Emit(m, Call(cb, reply)).(calls := m.calls + 1, settings := reply.settings), reply.reports);
  }

  lemma {:induction false} CallsUp(n: nat, m: Machine, g: nat, oracle: Oracle)
    requires g <= n && forall k :: m.calls <= k < m.calls + n - g ==> oracle(k).outcome == Returned(true)
    ensures var (m1, ok) := FixturesUp(n, m, g, oracle);
            ok && Calls(m1.trace) == Calls(m.trace) + Ups(g, n) && m1.calls == m.calls + n - g && m1.escaped == m.escaped
    decreases n - g
  {
    hide Calls, Invoke;
    if g < n {
      CallsOfInvoke(m, FixtureSetUp(g), oracle);
      CallsUp(n, Invoke(m, FixtureSetUp(g), oracle).0, g + 1, oracle);
      assert Calls(m.trace) + [FixtureSetUp(g)] + Ups(g + 1, n) == Calls(m.trace) + Ups(g, n);
    }
  }

  /** What the last fixture answers does not matter any more. */
  lemma {:induction false} CallsDown(m: Machine, g: nat, oracle: Oracle)
    requires forall k :: m.calls <= k < m.calls + g - 1 ==> oracle(k).outcome == Returned(true)
    ensures Calls(FixturesDown(m, g, oracle).trace) == Calls(m.trace) + Downs(g)
    decreases g
  {
    hide Calls, Invoke;
    if g > 0 {
      var cb := FixtureTearDown(g - 1);
      CallsOfInvoke(m, cb, oracle);
      var m1 := Invoke(m, cb, oracle).0;
      if oracle(m.calls).outcome == Returned(true) {
        CallsDown(m1, g - 1, oracle);
        assert Calls(m.trace) + [cb] + Downs(g - 1) == Calls(m.trace) + Downs(g);
      } else {
        CallsOfEmit(m1, FixtureError);
        assert Downs(g) == [cb];
      }
    }
  }

  /** Does this answer let a test's tear-down go on to the fixtures? */
  predicate GoesOn(reply: Reply) {
    reply.outcome.Returned? || (!reply.outcome.ThrewAbort? && !reply.settings.abortOnFail)
  }

  /**
   * Whatever the test itself does, its tear-downs mirror its set-ups as long as the code around it succeeds: the
   * fixtures' set-ups, the suite's set-up, its tear-down, and the fixtures' tear-downs up to the last one.
   */
  lemma CleanTestMirrors(n: nat, m: Machine, s: nat, t: nat, oracle: Oracle)
    requires !m.escaped
    requires forall k :: m.calls <= k < m.calls + n ==> oracle(k).outcome == Returned(true)
    requires oracle(m.calls + n).outcome.Returned? && GoesOn(oracle(m.calls + n + 2))
    requires forall k :: m.calls + n + 3 <= k < m.calls + 2 * n + 2 ==> oracle(k).outcome == Returned(true)
    ensures Calls(RunTest(n, m, s, t, oracle).trace)
            == Calls(m.trace) + Ups(0, n)
               + [Callback.TestSetUp(s, t), TestRun(s, t), Callback.TestTearDown(s, t)] + Downs(n)
  {
    hide Calls, Invoke, FixturesUp, FixturesDown, EmitReports;
    var m0 := Emit(m, EnterTest(s, t));
    CallsOfEmit(m, EnterTest(s, t));
    CallsUp(n, m0, 0, oracle);
    var m1 := FixturesUp(n, m0, 0, oracle).0;
    CallsOfInvoke(m1, Callback.TestSetUp(s, t), oracle);
    var m2 := Invoke(m1, Callback.TestSetUp(s, t), oracle).0;
    CallsOfInvoke(m2, TestRun(s, t), oracle);
    CallsOfEmit(Invoke(m2, TestRun(s, t), oracle).0, Failed);
    var m3 := RunBody(m2, s, t, oracle);
    CallsOfInvoke(m3, Callback.TestTearDown(s, t), oracle);
    var (m4, outcome) := Invoke(m3, Callback.TestTearDown(s, t), oracle);
    var m5 := ThrewReports(m4, outcome);
    CallsOfThrew(m4, outcome);
    CallsDown(m5, n, oracle);
    CallsOfEmit(FixturesDown(m5, n, oracle), LeaveTest(s, t));
  }

  lemma CallsOfThrew(m: Machine, outcome: Outcome)
    ensures var m1 := ThrewReports(m, outcome);
            Calls(m1.trace) == Calls(m.trace) && m1.calls == m.calls && m1.settings == m.settings && m1.escaped == m.escaped
  {
    hide Calls, EmitReports;
    CallsOfReports(m, [Fail, Fail]);
    CallsOfReports(m, [Fail, Fail, Fail]);
  }
}
