/**
 * What a run reports, in terms of what user code answered: which answers count as failures, warnings and skipped
 * tests, and the tracker's counters as numbers of such answers.
 */
module RunnerReports {
  import opened Descriptions
  import opened Tracking
  import opened RunnerSpec
  import opened RunnerTheorems

  // ---------------------------------------------------------------- what follows an answer

  function OwnReports(rs: seq<Report>): (es: seq<Event>)
    ensures |es| == |rs|
    ensures forall i :: 0 <= i < |rs| ==> es[i] == match rs[i] case Fail => Failed case Warn => Warned case Skip => Skipped case Trace => Traced
  {
    seq(|rs|, i requires 0 <= i < |rs| => match rs[i] case Fail => Failed case Warn => Warned case Skip => Skipped case Trace => Traced)
  }

  /** An assert-throws-nothing reports a skip and any other exception, the text of a std::exception included, but no abort. */
  function ThrewEvents(outcome: Outcome): seq<Event> {
    match outcome
    case Returned(_) => []
    case ThrewAbort => []
    case ThrewSkip => [Failed, Failed]
    case ThrewOther(standard) => if standard then [Failed, Failed, Failed] else [Failed, Failed]
  }

  predicate HasFail(rs: seq<Report>) {
    Fail in rs
  }

  /** What the runner adds to the reports of an answer. */
  function Added(cb: Callback, reply: Reply): seq<Event> {
    match cb
    case WorldSetUp(_) =>
      if reply.outcome.Returned? && HasFail(reply.reports) then [Initialize, Warned]
      else if reply.outcome == Returned(true) then [] else [Warned]
    case WorldTearDown(_) => if reply.outcome == Returned(true) then [] else [Warned]
    case SuiteCreate(_) =>
      ThrewEvents(reply.outcome)
      + (if reply.outcome == Returned(true) || reply.outcome.ThrewAbort? then []
         else if !reply.outcome.Returned? && reply.settings.abortOnFail then [] else [Failed, Failed])
    case SuiteDestroy(_) => ThrewEvents(reply.outcome)
    case FixtureSetUp(_) => if reply.outcome == Returned(true) then [] else [FixtureError]
    case FixtureTearDown(_) => if reply.outcome == Returned(true) then [] else [FixtureError]
    case TestSetUp(_, _) => ThrewEvents(reply.outcome)
    case TestRun(_, _) => if reply.outcome.ThrewOther? then [Failed] else []
    case TestTearDown(_, _) => ThrewEvents(reply.outcome)
  }

  /** The events behind the answer of one call, up to the next call or the next enter or leave. */
  function Reported(cb: Callback, reply: Reply): seq<Event> {
    OwnReports(reply.reports) + Added(cb, reply)
  }

  /** Enters, leaves and calls; everything else is a report on a call. */
  predicate Skeletal(e: Event) {
    e.EnterWorld? || e.LeaveWorld? || e.EnterSuite? || e.LeaveSuite? || e.EnterTest? || e.LeaveTest? || e.WorldReady? || e.SuiteReady?
    || e.Call?
  }

  function Skeleton(es: seq<Event>): (sk: seq<Event>)
    ensures forall i :: 0 <= i < |sk| ==> Skeletal(sk[i])
  {
    if es == [] then [] else Skeleton(es[..|es| - 1]) + if Skeletal(Last(es)) then [Last(es)] else []
  }

  function WithReports(e: Event): seq<Event> {
    if e.Call? then [e] + Reported(e.cb, e.reply) else [e]
  }

  /** The skeleton with each call's reports behind it. */
  function Expand(sk: seq<Event>): seq<Event> {
    if sk == [] then [] else Expand(sk[..|sk| - 1]) + WithReports(Last(sk))
  }

  /** The answers, in the order of the calls. */
  function Answers(sk: seq<Event>): seq<Reply> {
    if sk == [] then [] else Answers(sk[..|sk| - 1]) + if Last(sk).Call? then [Last(sk).reply] else []
  }

  lemma NoneSkeletal(cb: Callback, reply: Reply)
    ensures forall i :: 0 <= i < |Reported(cb, reply)| ==> !Skeletal(Reported(cb, reply)[i])
  {
  }

  lemma {:induction false} SkeletonSkips(es: seq<Event>, more: seq<Event>)
    requires forall i :: 0 <= i < |more| ==> !Skeletal(more[i])
    ensures Skeleton(es + more) == Skeleton(es)
    decreases |more|
  {
    if more == [] {
      assert es + more == es;
    } else {
      assert (es + more)[..|es + more| - 1] == es + more[..|more| - 1];
      assert Last(es + more) == Last(more);
      SkeletonSkips(es, more[..|more| - 1]);
    }
  }

  // ---------------------------------------------------------------- every run is its skeleton expanded

  /** The run so far: its events are its skeleton with the reports of each answer, and the answers are the oracle's. */
  ghost predicate Told(m: Machine, oracle: Oracle) {
    var es := Events(m.trace);
    && es == Expand(Skeleton(es))
    && |Answers(Skeleton(es))| == m.calls
    && forall k :: 0 <= k < m.calls ==> Answers(Skeleton(es))[k] == oracle(k)
  }

  lemma EventsOfEmit(m: Machine, e: Event)
    ensures Events(Emit(m, e).trace) == Events(m.trace) + [e]
  {
  }

  lemma {:induction false} EventsOfReports(m: Machine, rs: seq<Report>)
    ensures Events(EmitReports(m, rs).trace) == Events(m.trace) + OwnReports(rs) && EmitReports(m, rs).calls == m.calls
    ensures EmitReports(m, rs).settings == m.settings && EmitReports(m, rs).escaped == m.escaped
    decreases |rs|
  {
    hide Events;
    if rs == [] {
      assert Events(m.trace) + [] == Events(m.trace);
    } else {
      var before := rs[..|rs| - 1];
      EventsOfReports(m, before);
      EventsOfEmit(EmitReports(m, before), EventOf(rs[|rs| - 1]));
      assert OwnReports(rs) == OwnReports(before) + [EventOf(rs[|rs| - 1])];
    }
  }

  lemma EventsOfInvoke(m: Machine, cb: Callback, oracle: Oracle)
    ensures var (m1, outcome) := Invoke(m, cb, oracle);
            && Events(m1.trace) == Events(m.trace) + [Call(cb, oracle(m.calls))] + OwnReports(oracle(m.calls).reports)
            && m1.calls == m.calls + 1 && outcome == oracle(m.calls).outcome
            && m1.settings == oracle(m.calls).settings && m1.escaped == m.escaped
  {
    hide Events, EmitReports;
    var reply := oracle(m.calls);
    EventsOfEmit(m, Call(cb, reply));
    EventsOfReports(Emit(m, Call(cb, reply)).(calls := m.calls + 1, settings := reply.settings), reply.reports);
  }

  lemma EventsOfThrew(m: Machine, outcome: Outcome)
    ensures var m1 := ThrewReports(m, outcome);
            && Events(m1.trace) == Events(m.trace) + ThrewEvents(outcome) && m1.calls == m.calls
            && m1.settings == m.settings && m1.escaped == m.escaped
  {
    hide Events, EmitReports;
    EventsOfReports(m, [Fail, Fail]);
    EventsOfReports(m, [Fail, Fail, Fail]);
    assert OwnReports([Fail, Fail]) == [Failed, Failed] && OwnReports([Fail, Fail, Fail]) == [Failed, Failed, Failed];
    assert Events(m.trace) + [] == Events(m.trace);
  }

  /** One more enter or leave. */
  lemma ToldEmit(m: Machine, e: Event, oracle: Oracle)
    requires Told(m, oracle) && Skeletal(e) && !e.Call?
    ensures Told(Emit(m, e), oracle)
  {
    hide Events;
    EventsOfEmit(m, e);
    SkeletonGrows(Events(m.trace), e);
  }

  lemma SkeletonGrows(es: seq<Event>, e: Event)
    requires Skeletal(e)
    ensures Skeleton(es + [e]) == Skeleton(es) + [e] && Expand(Skeleton(es) + [e]) == Expand(Skeleton(es)) + WithReports(e)
    ensures Answers(Skeleton(es) + [e]) == Answers(Skeleton(es)) + if e.Call? then [e.reply] else []
  {
    assert (es + [e])[..|es|] == es;
    assert (Skeleton(es) + [e])[..|Skeleton(es)|] == Skeleton(es);
  }

  /** One more call with everything that its answer makes the runner report. */
  lemma ToldCall(m: Machine, m1: Machine, cb: Callback, oracle: Oracle)
    requires Told(m, oracle) && m1.calls == m.calls + 1
    requires Events(m1.trace) == Events(m.trace) + [Call(cb, oracle(m.calls))] + Reported(cb, oracle(m.calls))
    ensures Told(m1, oracle)
  {
    hide Events, Reported, Expand, Skeleton, Answers;
    var es, e, reported := Events(m.trace), Call(cb, oracle(m.calls)), Reported(cb, oracle(m.calls));
    SkeletonGrows(es, e);
    NoneSkeletal(cb, oracle(m.calls));
    SkeletonSkips(es + [e], reported);
    var es1, sk := es + [e] + reported, Skeleton(es);
    assert Skeleton(es1) == sk + [e];
    assert WithReports(e) == [e] + reported;
    assert es1 == es + ([e] + reported);
    assert Answers(sk + [e]) == Answers(sk) + [oracle(m.calls)];
  }

  lemma ToldFrom(m: Machine, oracle: Oracle, settings: Settings, escaped: bool)
    requires Told(m, oracle)
    ensures Told(m.(settings := settings), oracle) && Told(m.(settings := settings, escaped := escaped), oracle)
  {
  }

  /** A call on whose answer the runner reports nothing of its own. */
  lemma PlainCall(m: Machine, cb: Callback, oracle: Oracle)
    requires Told(m, oracle) && Reported(cb, oracle(m.calls)) == OwnReports(oracle(m.calls).reports)
    ensures Told(Invoke(m, cb, oracle).0, oracle)
  {
    hide Told, Events, Invoke, Reported;
    EventsOfInvoke(m, cb, oracle);
    ToldCall(m, Invoke(m, cb, oracle).0, cb, oracle);
  }

  /** A call whose exceptions are reported. */
  lemma ThrewCall(m: Machine, cb: Callback, oracle: Oracle)
    requires Told(m, oracle) && (cb.SuiteDestroy? || cb.TestSetUp? || cb.TestTearDown?)
    ensures var (m1, outcome) := Invoke(m, cb, oracle); Told(ThrewReports(m1, outcome), oracle)
  {
    hide Told, Events, Invoke, ThrewReports;
    EventsOfInvoke(m, cb, oracle);
    var (m1, outcome) := Invoke(m, cb, oracle);
    EventsOfThrew(m1, outcome);
    var m2 := ThrewReports(m1, outcome);
    assert Events(m2.trace) == Events(m.trace) + [Call(cb, oracle(m.calls))] + Reported(cb, oracle(m.calls));
    ToldCall(m, m2, cb, oracle);
  }

  /** A fixture's call: one more failure unless it succeeds. */
  lemma FixtureCall(m: Machine, cb: Callback, oracle: Oracle)
    requires Told(m, oracle) && (cb.FixtureSetUp? || cb.FixtureTearDown?)
    ensures var (m1, outcome) := Invoke(m, cb, oracle); Told(if outcome == Returned(true) then m1 else FailFixture(m1), oracle)
  {
    hide Told, Events, Invoke;
    EventsOfInvoke(m, cb, oracle);
    var (m1, outcome) := Invoke(m, cb, oracle);
    if outcome == Returned(true) {
      assert OwnReports(oracle(m.calls).reports) + [] == OwnReports(oracle(m.calls).reports);
      PlainCall(m, cb, oracle);
    } else {
      EventsOfEmit(m1, FixtureError);
      var m2 := Emit(m1, FixtureError);
      assert Events(m2.trace) == Events(m.trace) + [Call(cb, oracle(m.calls))] + Reported(cb, oracle(m.calls));
      ToldCall(m, m2, cb, oracle);
      ToldFrom(m2, oracle, m2.settings, true);
    }
  }

  // ---------------------------------------------------------------- one test

  lemma {:induction false} FixturesUpTold(n: nat, m: Machine, g: nat, oracle: Oracle)
    requires g <= n && Told(m, oracle)
    ensures Told(FixturesUp(n, m, g, oracle).0, oracle)
    decreases n - g
  {
    hide Told, Invoke, FailFixture;
    if g < n {
      FixtureCall(m, FixtureSetUp(g), oracle);
      var (m1, outcome) := Invoke(m, FixtureSetUp(g), oracle);
      if outcome == Returned(true) {
        FixturesUpTold(n, m1, g + 1, oracle);
      }
    }
  }

  lemma {:induction false} FixturesDownTold(m: Machine, g: nat, oracle: Oracle)
    requires Told(m, oracle)
    ensures Told(FixturesDown(m, g, oracle), oracle)
    decreases g
  {
    hide Told, Invoke, FailFixture;
    if g > 0 {
      FixtureCall(m, FixtureTearDown(g - 1), oracle);
      var (m1, outcome) := Invoke(m, FixtureTearDown(g - 1), oracle);
      if outcome == Returned(true) {
        FixturesDownTold(m1, g - 1, oracle);
      }
    }
  }

  lemma RunBodyTold(m: Machine, s: nat, t: nat, oracle: Oracle)
    requires Told(m, oracle)
    ensures Told(RunBody(m, s, t, oracle), oracle)
  {
    hide Told, Events, Invoke;
    var cb := TestRun(s, t);
    EventsOfInvoke(m, cb, oracle);
    var (m1, outcome) := Invoke(m, cb, oracle);
    EventsOfEmit(m1, Failed);
    var m2 := RunBody(m, s, t, oracle);
    assert Events(m2.trace) == Events(m.trace) + [Call(cb, oracle(m.calls))] + Reported(cb, oracle(m.calls));
    ToldCall(m, m2, cb, oracle);
  }

  lemma RunTestTold(n: nat, m: Machine, s: nat, t: nat, oracle: Oracle)
    requires Told(m, oracle)
    ensures Told(RunTest(n, m, s, t, oracle), oracle)
  {
    hide Told, Invoke, ThrewReports, FixturesUp, FixturesDown, RunBody, Emit;
    var m0 := Emit(m, EnterTest(s, t));
    ToldEmit(m, EnterTest(s, t), oracle);
    FixturesUpTold(n, m0, 0, oracle);
    var (mf, up) := FixturesUp(n, m0, 0, oracle);
    if up {
      ThrewCall(mf, Callback.TestSetUp(s, t), oracle);
    }
    var (m1, ok) := SetUpTest(n, m0, s, t, oracle);
    assert Told(m1, oracle);
    var m2 := m1;
    if ok {
      RunBodyTold(m1, s, t, oracle);
      var mb := RunBody(m1, s, t, oracle);
      ThrewCall(mb, Callback.TestTearDown(s, t), oracle);
      var (mi, outcome) := Invoke(mb, Callback.TestTearDown(s, t), oracle);
      FixturesDownTold(ThrewReports(mi, outcome), n, oracle);
      m2 := TearDownTest(n, mb, s, t, oracle);
    }
    assert Told(m2, oracle);
    ToldEmit(m2, LeaveTest(s, t), oracle);
    ToldFrom(m2, oracle, m.settings, m2.escaped);
    ToldFrom(Emit(m2, LeaveTest(s, t)), oracle, m.settings, false);
  }

  // ---------------------------------------------------------------- suites and the world

  lemma {:induction false} RunTestsTold(c: World, m: Machine, s: nat, t: nat, oracle: Oracle)
    requires s < |c.suites| && t <= |c.suites[s].tests| && Told(m, oracle)
    ensures Told(RunTests(c, m, s, t, oracle), oracle)
    decreases |c.suites[s].tests| - t
  {
    hide Told, RunTest;
    var k := NextActiveTest(c.suites[s].tests, t);
    if k < |c.suites[s].tests| {
      RunTestTold(c.fixtures, m, s, k, oracle);
      var m1 := RunTest(c.fixtures, m, s, k, oracle);
      if !m1.escaped {
        RunTestsTold(c, m1, s, k + 1, oracle);
      }
    }
  }

  lemma SetUpSuiteTold(c: World, m: Machine, s: nat, oracle: Oracle)
    requires s < |c.suites| && Told(m, oracle)
    ensures Told(SetUpSuite(c, m, s, oracle).0, oracle)
  {
    hide Told, Events, Invoke, ThrewReports, EmitReports, Emit;
    if !c.suites[s].dynamic {
      ToldEmit(m, SuiteReady(s), oracle);
      return;
    }
    var cb := SuiteCreate(s);
    EventsOfInvoke(m, cb, oracle);
    var (m1, outcome) := Invoke(m, cb, oracle);
    if outcome == Returned(true) {
      assert Reported(cb, oracle(m.calls)) == OwnReports(oracle(m.calls).reports);
      PlainCall(m, cb, oracle);
      ToldEmit(m1, SuiteReady(s), oracle);
    } else {
      EventsOfThrew(m1, outcome);
      var m2 := ThrewReports(m1, outcome);
      EventsOfReports(m2, [Fail, Fail]);
      assert OwnReports([Fail, Fail]) == [Failed, Failed];
      var m3 := SetUpSuite(c, m, s, oracle).0;
      assert Events(m3.trace) == Events(m.trace) + [Call(cb, oracle(m.calls))] + Reported(cb, oracle(m.calls));
      ToldCall(m, m3, cb, oracle);
    }
  }

  lemma RunSuiteTold(c: World, m: Machine, s: nat, oracle: Oracle)
    requires s < |c.suites| && Told(m, oracle)
    ensures Told(RunSuite(c, m, s, oracle), oracle)
  {
    hide Told, SetUpSuite, RunTests, Invoke, ThrewReports, Emit;
    var m0 := Emit(m, EnterSuite(s));
    ToldEmit(m, EnterSuite(s), oracle);
    SetUpSuiteTold(c, m0, s, oracle);
    var (m1, ok) := SetUpSuite(c, m0, s, oracle);
    var m3 := m1;
    if ok {
      RunTestsTold(c, m1, s, 0, oracle);
      m3 := RunTests(c, m1, s, 0, oracle);
      if !m3.escaped {
        ThrewCall(m3, SuiteDestroy(s), oracle);
        m3 := TearDownSuite(c, m3, s, oracle);
      }
    }
    ToldEmit(m3, LeaveSuite(s), oracle);
    ToldFrom(m3, oracle, m.settings, m3.escaped);
    ToldFrom(Emit(m3, LeaveSuite(s)), oracle, m.settings, false);
  }

  lemma {:induction false} RunSuitesTold(c: World, m: Machine, s: nat, oracle: Oracle)
    requires s <= |c.suites| && Told(m, oracle)
    ensures Told(RunSuites(c, m, s, oracle), oracle)
    decreases |c.suites| - s
  {
    hide Told, RunSuite;
    var k := NextActiveSuite(c.suites, s);
    if k < |c.suites| {
      RunSuiteTold(c, m, k, oracle);
      var m1 := RunSuite(c, m, k, oracle);
      if !m1.escaped {
        RunSuitesTold(c, m1, k + 1, oracle);
      }
    }
  }

  /** Fewer than 2^32 reports in answer to any one call, so that the tracker's failure counter does not wrap. */
  ghost predicate FewReports(oracle: Oracle) {
    forall k :: |oracle(k).reports| < 0x1_0000_0000
  }

  lemma {:induction false} FailuresSeen(m: Machine, rs: seq<Report>)
    requires m.tracker.testFailedAsserts == 0 && |rs| < 0x1_0000_0000
    ensures var n := EmitReports(m, rs).tracker.testFailedAsserts; n <= |rs| && (n > 0 <==> HasFail(rs))
    decreases |rs|
  {
    if rs != [] {
      var before := rs[..|rs| - 1];
      FailuresSeen(m, before);
      assert HasFail(rs) <==> HasFail(before) || Last(rs) == Fail;
    }
  }

  lemma {:induction false} WorldUpTold(n: nat, m: Machine, g: nat, oracle: Oracle)
    requires g <= n && Told(m, oracle) && FewReports(oracle) && m.tracker.testFailedAsserts == 0
    ensures Told(WorldUp(n, m, g, oracle).0, oracle) && (WorldUp(n, m, g, oracle).1 ==> WorldUp(n, m, g, oracle).0.escaped == m.escaped)
    decreases n - g
  {
    hide Told, Events, EmitReports;
    if g == n {
      ToldEmit(m, WorldReady, oracle);
      return;
    }
    var cb, reply := WorldSetUp(g), oracle(m.calls);
    EventsOfInvoke(m, cb, oracle);
    FailuresSeen(Emit(m, Call(cb, reply)).(calls := m.calls + 1, settings := reply.settings), reply.reports);
    var (m1, outcome) := Invoke(m, cb, oracle);
    if outcome == Returned(true) && !HasFail(reply.reports) {
      assert Reported(cb, reply) == OwnReports(reply.reports);
      PlainCall(m, cb, oracle);
      WorldUpTold(n, m1, g + 1, oracle);
    } else {
      EventsOfEmit(m1, Initialize);
      EventsOfEmit(m1, Warned);
      EventsOfEmit(Emit(m1, Initialize), Warned);
      var m2 := WorldUp(n, m, g, oracle).0;
      assert Events(m2.trace) == Events(m.trace) + [Call(cb, reply)] + Reported(cb, reply);
      ToldCall(m, m2, cb, oracle);
    }
  }

  lemma {:induction false} WorldDownTold(m: Machine, g: nat, oracle: Oracle)
    requires Told(m, oracle)
    ensures Told(WorldDown(m, g, oracle), oracle)
    decreases g
  {
    hide Told, Events, Invoke;
    if g > 0 {
      var cb, reply := WorldTearDown(g - 1), oracle(m.calls);
      EventsOfInvoke(m, cb, oracle);
      var (m1, outcome) := Invoke(m, cb, oracle);
      if outcome == Returned(true) {
        assert Reported(cb, reply) == OwnReports(reply.reports);
        PlainCall(m, cb, oracle);
        WorldDownTold(m1, g - 1, oracle);
      } else {
        EventsOfEmit(m1, Warned);
        assert Events(Emit(m1, Warned).trace) == Events(m.trace) + [Call(cb, reply)] + Reported(cb, reply);
        ToldCall(m, Emit(m1, Warned), cb, oracle);
      }
    }
  }

  lemma StartTold(settings: Settings, oracle: Oracle)
    ensures Told(Start(settings), oracle)
  {
  }

  /**
   * Every run is determined by its calls, its enters and its leaves: the k-th call is answered by oracle(k), and behind
   * each call stand exactly the reports that its answer makes.
   */
  lemma RunIsTold(c: World, settings: Settings, oracle: Oracle)
    requires FewReports(oracle)
    ensures Told(RunWorld(c, Start(settings), oracle), oracle)
  {
    hide Told, WorldUp, RunSuites, WorldDown, FewReports, Emit;
    var m := Start(settings);
    StartTold(settings, oracle);
    ToldFrom(m, oracle, c.defaults, false);
    var m0 := Emit(m.(settings := c.defaults), EnterWorld);
    ToldEmit(m.(settings := c.defaults), EnterWorld, oracle);
    FreshTracker(m.(settings := c.defaults));
    WorldUpTold(c.fixtures, m0, 0, oracle);
    var (m1, ok) := WorldUp(c.fixtures, m0, 0, oracle);
    var m3 := m1;
    if ok {
      RunSuitesTold(c, m1, 0, oracle);
      m3 := RunSuites(c, m1, 0, oracle);
      if !m3.escaped {
        WorldDownTold(m3, c.fixtures, oracle);
        m3 := WorldDown(m3, c.fixtures, oracle);
      }
    }
    ToldEmit(m3, LeaveWorld, oracle);
    ToldFrom(m3, oracle, m.settings, m3.escaped);
    ToldFrom(Emit(m3, LeaveWorld), oracle, m.settings, false);
  }

  lemma FreshTracker(m: Machine)
    ensures Emit(m, EnterWorld).tracker.testFailedAsserts == 0 && Emit(m, EnterWorld).escaped == m.escaped
  {
  }

  // ---------------------------------------------------------------- what the counters count

  /** The answers that are failures. */
  predicate Fails(cb: Callback, reply: Reply) {
    || HasFail(reply.reports)
    || (cb.TestRun? && reply.outcome.ThrewOther?)
    || ((cb.TestSetUp? || cb.TestTearDown? || cb.SuiteCreate? || cb.SuiteDestroy?) && (reply.outcome.ThrewSkip? || reply.outcome.ThrewOther?))
    || (cb.SuiteCreate? && reply.outcome == Returned(false))
    || ((cb.FixtureSetUp? || cb.FixtureTearDown?) && reply.outcome != Returned(true))
  }

  /** A world fixture's set-up that reported a failure and returned: the tracker starts over. */
  predicate StartsOver(cb: Callback, reply: Reply) {
    cb.WorldSetUp? && reply.outcome.Returned? && HasFail(reply.reports)
  }

  predicate FailedCall(e: Event) {
    e.Call? && Fails(e.cb, e.reply)
  }

  /** Some call in this stretch of the run failed. */
  predicate HasFailedCall(sk: seq<Event>) {
    exists i :: 0 <= i < |sk| && FailedCall(sk[i])
  }

  function FailedStretches(stretches: seq<seq<Event>>): nat {
    if stretches == [] then 0
    else FailedStretches(stretches[..|stretches| - 1]) + if HasFailedCall(Last(stretches)) then 1 else 0
  }

  function Number(rs: seq<Report>, r: Report): nat {
    if rs == [] then 0 else Number(rs[..|rs| - 1], r) + if Last(rs) == r then 1 else 0
  }

  /** The warnings that user code reported, and one for each world fixture that did not succeed. */
  function Warnings(sk: seq<Event>): nat {
    if sk == [] then 0
    else
      var e := Last(sk);
      Warnings(sk[..|sk| - 1])
      + if e.Call? then
          Number(e.reply.reports, Warn) + (if ForWorld(e.cb) && e.reply.outcome != Returned(true) then 1 else 0)
        else 0
  }

  function Skips(sk: seq<Event>): nat {
    if sk == [] then 0 else Skips(sk[..|sk| - 1]) + if Last(sk).Call? then Number(Last(sk).reply.reports, Skip) else 0
  }

  lemma {:induction false} TallyConcat(a: seq<Event>, b: seq<Event>, kind: Event -> bool)
    ensures Tally(a + b, kind) == Tally(a, kind) + Tally(b, kind)
    decreases |b|
  {
    if b == [] {
      assert a + b == a;
    } else {
      assert (a + b)[..|a + b| - 1] == a + b[..|b| - 1] && Last(a + b) == Last(b);
      TallyConcat(a, b[..|b| - 1], kind);
    }
  }

  lemma FailureConcat(a: seq<Event>, b: seq<Event>)
    ensures HasFailure(a + b) <==> HasFailure(a) || HasFailure(b)
  {
    if HasFailure(a) {
      var i :| 0 <= i < |a| && IsFailure(a[i]);
      assert IsFailure((a + b)[i]);
    }
    if HasFailure(b) {
      var i :| 0 <= i < |b| && IsFailure(b[i]);
      assert IsFailure((a + b)[|a| + i]);
    }
  }

  lemma {:induction false} OwnTally(rs: seq<Report>)
    ensures Tally(OwnReports(rs), IsWarning) == Number(rs, Warn) && Tally(OwnReports(rs), IsSkip) == Number(rs, Skip)
    decreases |rs|
  {
    if rs != [] {
      var before := rs[..|rs| - 1];
      OwnTally(before);
      assert OwnReports(rs)[..|rs| - 1] == OwnReports(before);
    }
  }

  lemma OwnFails(rs: seq<Report>)
    ensures HasFailure(OwnReports(rs)) <==> HasFail(rs)
  {
    var es := OwnReports(rs);
    if HasFail(rs) {
      var i :| 0 <= i < |rs| && rs[i] == Fail;
      assert IsFailure(es[i]);
    }
    if HasFailure(es) {
      var i :| 0 <= i < |es| && IsFailure(es[i]);
      assert rs[i] == Fail;
    }
  }

  lemma {:induction false} OnlyFailures(es: seq<Event>)
    requires forall i :: 0 <= i < |es| ==> IsFailure(es[i])
    ensures Tally(es, IsWarning) == 0 && Tally(es, IsSkip) == 0 && (HasFailure(es) <==> es != [])
    decreases |es|
  {
    if es != [] {
      OnlyFailures(es[..|es| - 1]);
      assert IsFailure(es[0]);
    }
  }

  lemma OneWarning()
    ensures Tally([Warned], IsWarning) == 1 && Tally([Warned], IsSkip) == 0 && !HasFailure([Warned])
  {
    assert [Warned][..0] == [];
  }

  predicate ForWorld(cb: Callback) {
    cb.WorldSetUp? || cb.WorldTearDown?
  }

  lemma AddedFailures(cb: Callback, reply: Reply)
    requires !ForWorld(cb)
    ensures forall i :: 0 <= i < |Added(cb, reply)| ==> IsFailure(Added(cb, reply)[i])
    ensures HasFail(reply.reports) || Added(cb, reply) != [] <==> Fails(cb, reply)
  {
    hide HasFail;
  }

  lemma AddedForWorld(cb: Callback, reply: Reply)
    requires ForWorld(cb) && !StartsOver(cb, reply)
    ensures Added(cb, reply) == if reply.outcome == Returned(true) then [] else [Warned]
    ensures Fails(cb, reply) <==> HasFail(reply.reports)
  {
    hide HasFail;
  }

  lemma AddedIs(cb: Callback, reply: Reply)
    requires !StartsOver(cb, reply)
    ensures HasFail(reply.reports) || HasFailure(Added(cb, reply)) <==> Fails(cb, reply)
    ensures Tally(Added(cb, reply), IsSkip) == 0
    ensures Tally(Added(cb, reply), IsWarning) == if ForWorld(cb) && reply.outcome != Returned(true) then 1 else 0
    ensures forall i :: 0 <= i < |Added(cb, reply)| ==> !Added(cb, reply)[i].Initialize?
  {
    hide Added, Fails, StartsOver, Tally, HasFailure, HasFail, IsFailure;
    OneWarning();
    NoTally();
    OnlyFailures([]);
    if ForWorld(cb) {
      AddedForWorld(cb, reply);
    } else {
      AddedFailures(cb, reply);
      OnlyFailures(Added(cb, reply));
      FailuresAreNoStarts(Added(cb, reply));
    }
  }

  lemma FailuresAreNoStarts(es: seq<Event>)
    requires forall i :: 0 <= i < |es| ==> IsFailure(es[i])
    ensures forall i :: 0 <= i < |es| ==> !es[i].Initialize?
  {
  }

  /** The reports of an answer hold a failure exactly if it fails; and so for warnings and skips. */
  lemma ReportedIs(cb: Callback, reply: Reply)
    requires !StartsOver(cb, reply)
    ensures HasFailure(Reported(cb, reply)) <==> Fails(cb, reply)
    ensures Tally(Reported(cb, reply), IsSkip) == Number(reply.reports, Skip)
    ensures Tally(Reported(cb, reply), IsWarning)
            == Number(reply.reports, Warn) + if ForWorld(cb) && reply.outcome != Returned(true) then 1 else 0
    ensures forall i :: 0 <= i < |Reported(cb, reply)| ==> !Reported(cb, reply)[i].Initialize?
  {
    hide Added, Fails, StartsOver, Tally, HasFailure, HasFail, ForWorld;
    var own, added := OwnReports(reply.reports), Added(cb, reply);
    FailureConcat(own, added);
    OwnFails(reply.reports);
    OwnTally(reply.reports);
    TallyConcat(own, added, IsWarning);
    TallyConcat(own, added, IsSkip);
    AddedIs(cb, reply);
  }

  predicate NoStartOver(sk: seq<Event>) {
    forall i :: 0 <= i < |sk| && sk[i].Call? ==> !StartsOver(sk[i].cb, sk[i].reply)
  }

  lemma WithReportsIs(e: Event)
    requires Skeletal(e) && (e.Call? ==> !StartsOver(e.cb, e.reply))
    ensures HasFailure(WithReports(e)) <==> FailedCall(e)
    ensures Tally(WithReports(e), IsWarning) == Warnings([e]) && Tally(WithReports(e), IsSkip) == Skips([e])
    ensures forall i :: 0 <= i < |WithReports(e)| ==> !WithReports(e)[i].Initialize?
  {
    hide Reported, Fails, Tally, HasFailure;
    assert [e][..0] == [];
    NoReport(e);
    if e.Call? {
      ReportedIs(e.cb, e.reply);
      FailureConcat([e], Reported(e.cb, e.reply));
      TallyConcat([e], Reported(e.cb, e.reply), IsWarning);
      TallyConcat([e], Reported(e.cb, e.reply), IsSkip);
    }
  }

  lemma NoReport(e: Event)
    requires Skeletal(e)
    ensures !HasFailure([e]) && Tally([e], IsWarning) == 0 && Tally([e], IsSkip) == 0 && !e.Initialize?
  {
    assert [e][..0] == [];
  }

  predicate AllSkeletal(sk: seq<Event>) {
    forall i :: 0 <= i < |sk| ==> Skeletal(sk[i])
  }

  lemma {:induction false} ExpandTallies(sk: seq<Event>)
    requires AllSkeletal(sk) && NoStartOver(sk)
    ensures Tally(Expand(sk), IsWarning) == Warnings(sk) && Tally(Expand(sk), IsSkip) == Skips(sk)
    ensures HasFailure(Expand(sk)) <==> HasFailedCall(sk)
    ensures forall i :: 0 <= i < |Expand(sk)| ==> !Expand(sk)[i].Initialize?
    decreases |sk|
  {
    hide WithReports, Tally, FailedCall;
    if sk == [] {
      assert Tally([], IsWarning) == 0 && Tally([], IsSkip) == 0 by { NoTally(); }
    } else {
      var before, e := sk[..|sk| - 1], Last(sk);
      ExpandTallies(before);
      WithReportsIs(e);
      TallyConcat(Expand(before), WithReports(e), IsWarning);
      TallyConcat(Expand(before), WithReports(e), IsSkip);
      FailureConcat(Expand(before), WithReports(e));
      LastWarning(sk);
      assert HasFailedCall(sk) <==> HasFailedCall(before) || FailedCall(e);
    }
  }

  lemma NoTally()
    ensures Tally([], IsWarning) == 0 && Tally([], IsSkip) == 0
  {
  }

  lemma LastWarning(sk: seq<Event>)
    requires sk != []
    ensures Warnings(sk) == Warnings(sk[..|sk| - 1]) + Warnings([Last(sk)]) && Skips(sk) == Skips(sk[..|sk| - 1]) + Skips([Last(sk)])
  {
    assert [Last(sk)][..0] == [];
  }

  // ---------------------------------------------------------------- stretches

  lemma {:induction false} StretchesMore(es: seq<Event>, more: seq<Event>, starts: Event -> bool)
    requires forall i :: 0 <= i < |more| ==> !starts(more[i])
    ensures var before := Stretches(es, starts); Stretches(es + more, starts) == before[..|before| - 1] + [Last(before) + more]
    decreases |more|
  {
    hide Stretches;
    var before := Stretches(es, starts);
    if more == [] {
      assert es + more == es && Last(before) + more == Last(before);
    } else {
      var m1, e := more[..|more| - 1], Last(more);
      StretchesMore(es, m1, starts);
      assert es + more == (es + m1) + [e];
      StretchesAppend(es + m1, e, starts);
      assert Last(before) + m1 + [e] == Last(before) + more;
    }
  }

  function ExpandAll(ss: seq<seq<Event>>): (r: seq<seq<Event>>)
    ensures |r| == |ss| && forall i :: 0 <= i < |ss| ==> r[i] == Expand(ss[i])
  {
    seq(|ss|, i requires 0 <= i < |ss| => Expand(ss[i]))
  }

  lemma ExpandOne(e: Event)
    ensures Expand([e]) == WithReports(e)
  {
    assert [e][..0] == [] && Expand([]) + WithReports(e) == WithReports(e);
  }

  lemma ExpandMore(sk: seq<Event>, e: Event)
    ensures Expand(sk + [e]) == Expand(sk) + WithReports(e)
  {
    assert (sk + [e])[..|sk|] == sk;
  }

  /** No report starts a stretch, so expanding and cutting commute. */
  lemma {:induction false} StretchesExpand(sk: seq<Event>, starts: Event -> bool)
    requires AllSkeletal(sk) && forall e :: starts(e) ==> e.EnterTest? || e.EnterSuite?
    ensures Stretches(Expand(sk), starts) == ExpandAll(Stretches(sk, starts))
    decreases |sk|
  {
    hide Expand, WithReports, Stretches;
    if sk == [] {
      NoStretches(starts);
    } else {
      var before, e := sk[..|sk| - 1], Last(sk);
      assert sk == before + [e];
      StretchesExpand(before, starts);
      ExpandMore(before, e);
      StretchesAppend(before, e, starts);
      var ss := Stretches(before, starts);
      Quiet(e, starts);
      if starts(e) {
        assert WithReports(e) == [e];
        StretchesAppend(Expand(before), e, starts);
        ExpandOne(e);
        assert ExpandAll(ss + [[e]]) == ExpandAll(ss) + [Expand([e])];
      } else {
        StretchesMore(Expand(before), WithReports(e), starts);
        ExpandMore(Last(ss), e);
        assert ExpandAll(ss[..|ss| - 1] + [Last(ss) + [e]]) == ExpandAll(ss)[..|ss| - 1] + [Expand(Last(ss) + [e])];
      }
    }
  }

  lemma NoStretches(starts: Event -> bool)
    ensures Stretches(Expand([]), starts) == ExpandAll(Stretches([], starts))
  {
  }

  lemma Quiet(e: Event, starts: Event -> bool)
    requires Skeletal(e) && forall x :: starts(x) ==> x.EnterTest? || x.EnterSuite?
    ensures starts(e) ==> WithReports(e) == [e]
    ensures !starts(e) ==> forall i :: 0 <= i < |WithReports(e)| ==> !starts(WithReports(e)[i])
  {
    if e.Call? {
      NoneSkeletal(e.cb, e.reply);
    }
  }

  lemma {:induction false} FailingExpanded(ss: seq<seq<Event>>)
    requires forall i :: 0 <= i < |ss| ==> AllSkeletal(ss[i]) && NoStartOver(ss[i])
    ensures Failing(ExpandAll(ss)) == FailedStretches(ss)
    decreases |ss|
  {
    hide Expand, HasFailure, HasFailedCall, AllSkeletal, NoStartOver;
    if ss != [] {
      var before := ss[..|ss| - 1];
      FailingExpanded(before);
      ExpandTallies(Last(ss));
      assert ExpandAll(ss)[..|ss| - 1] == ExpandAll(before);
    }
  }

  lemma {:induction false} StretchesInherit(sk: seq<Event>, starts: Event -> bool)
    requires AllSkeletal(sk) && NoStartOver(sk)
    ensures forall i :: 0 <= i < |Stretches(sk, starts)| ==> AllSkeletal(Stretches(sk, starts)[i]) && NoStartOver(Stretches(sk, starts)[i])
    decreases |sk|
  {
    if sk != [] {
      var before, e := sk[..|sk| - 1], Last(sk);
      StretchesInherit(before, starts);
      assert sk == before + [e];
      StretchesAppend(before, e, starts);
    }
  }
}
