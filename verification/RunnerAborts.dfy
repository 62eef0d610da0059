/**
 * When a run leaves its world: every behaviour of fixtures and tests gives a completely nested trace exactly if the
 * world has no global fixture or no test to run; otherwise some answer of a fixture lets an abort escape the runner.
 */
module RunnerAborts {
  import opened Descriptions
  import opened Tracking
  import opened RunnerSpec
  import opened RunnerTheorems

  ghost predicate Nested(c: World, settings: Settings, oracle: Oracle) {
    Monitor(c, RunWorld(c, Start(settings), oracle).trace) == Done
  }

  lemma AlwaysNestedIff(c: World, settings: Settings)
    ensures (forall oracle: Oracle :: Nested(c, settings, oracle)) <==> c.fixtures == 0 || TotalTests(c.suites) == 0
  {
    hide Monitor, RunWorld;
    if c.fixtures == 0 || TotalTests(c.suites) == 0 {
      forall oracle: Oracle ensures Nested(c, settings, oracle) {
        RunObeysProtocol(c, settings, oracle);
        NothingBreaks(c, RunWorld(c, Start(settings), oracle).trace);
      }
    } else {
      var call := EscapingCall(c, settings);
      RunObeysProtocol(c, settings, FailingAt(call));
      assert !Nested(c, settings, FailingAt(call));
    }
  }


  // ---------------------------------------------------------------- nothing to break

  /** What the monitor knows of the suite and the test it is in. */
  ghost predicate InRange(c: World, p: Phase) {
    && (p.InSuite? || p.InTest? ==> p.s < |c.suites| && c.suites[p.s].active)
    && (p.InTest? ==> p.t < |c.suites[p.s].tests| && c.suites[p.s].tests[p.t].active)
    && (p.InTest? && p.stage.TearingDown? ==> p.stage.g <= c.fixtures)
  }

  lemma StaysInRange(c: World, p: Phase, e: Entry)
    requires InRange(c, p)
    ensures InRange(c, Next(c, p, e))
  {
    hide NoActiveTest, NoActiveSuite, NextLevel, Destroyable;
  }

  lemma {:induction false} MonitorInRange(c: World, trace: seq<Entry>)
    ensures InRange(c, Monitor(c, trace))
  {
    hide InRange, Next;
    if trace == [] {
      assert InRange(c, Outside) by { OutsideInRange(c); }
    } else {
      MonitorInRange(c, trace[..|trace| - 1]);
      StaysInRange(c, Monitor(c, trace[..|trace| - 1]), trace[|trace| - 1]);
    }
  }

  lemma OutsideInRange(c: World)
    ensures InRange(c, Outside)
  {
  }

  /** Fixtures are called around active tests only. */
  lemma BreakNeeds(c: World, p: Phase, e: Entry)
    requires InRange(c, p) && Next(c, p, e) != Bad && Breaks(e.event)
    ensures c.fixtures > 0 && TotalTests(c.suites) > 0
  {
    hide NoActiveTest, NoActiveSuite, Destroyable;
    ActiveCounts(c.suites[p.s].tests, p.t);
    TotalCovers(c.suites, p.s);
  }

  lemma {:induction false} ActiveCounts(tests: seq<TestState>, t: nat)
    requires t < |tests| && tests[t].active
    ensures CountActive(tests) > 0
    decreases |tests|
  {
    if t < |tests| - 1 {
      ActiveCounts(tests[..|tests| - 1], t);
    }
  }

  lemma {:induction false} TotalCovers(w: seq<SuiteState>, s: nat)
    requires s < |w| && w[s].active
    ensures TotalTests(w) >= CountActive(w[s].tests)
    decreases |w|
  {
    if s < |w| - 1 {
      TotalCovers(w[..|w| - 1], s);
    }
  }

  lemma NothingBreaks(c: World, trace: seq<Entry>)
    requires Monitor(c, trace) != Bad && (c.fixtures == 0 || TotalTests(c.suites) == 0)
    ensures !Aborted(trace)
  {
    hide Next, InRange, Breaks;
    forall i | 0 <= i < |trace| ensures !Breaks(trace[i].event) {
      PrefixNotBad(c, trace, i + 1);
      assert trace[..i + 1][..i] == trace[..i];
      MonitorInRange(c, trace[..i]);
      if Breaks(trace[i].event) {
        BreakNeeds(c, Monitor(c, trace[..i]), trace[i]);
      }
    }
  }

  // ---------------------------------------------------------------- a run that breaks

  /** User code that always succeeds but for one call, and always leaves abort-on-fail set. */
  function FailingAt(call: nat): Oracle {
    k => Reply(Returned(k != call), Settings(true, 0), [])
  }

  lemma GoodCall(m: Machine, cb: Callback, call: nat)
    ensures var (m1, outcome) := Invoke(m, cb, FailingAt(call));
            && outcome == Returned(m.calls != call) && m1.calls == m.calls + 1 && m1.escaped == m.escaped
            && m1.settings == Settings(true, 0) && m1.tracker == m.tracker
  {
  }

  /** The calls that the suites from i up to s make when they have no test to run. */
  function SuiteCalls(c: World, i: nat, s: nat): nat
    requires i <= s <= |c.suites|
    decreases s - i
  {
    if i == s then 0 else SuiteCalls(c, i + 1, s) + if c.suites[i].active && c.suites[i].dynamic then 2 else 0
  }

  lemma {:induction false} SkipCalls(c: World, i: nat, k: nat, s: nat)
    requires i <= k <= s <= |c.suites| && forall j :: i <= j < k ==> !c.suites[j].active
    ensures SuiteCalls(c, i, s) == SuiteCalls(c, k, s)
    decreases k - i
  {
    if i < k {
      SkipCalls(c, i + 1, k, s);
    }
  }

  lemma {:induction false} WorldGetsUp(n: nat, m: Machine, g: nat, call: nat)
    requires g <= n && m.calls + n - g <= call && m.tracker.testFailedAsserts == 0
    ensures var (m1, ok) := WorldUp(n, m, g, FailingAt(call)); ok && m1.calls == m.calls + n - g && m1.escaped == m.escaped
    decreases n - g
  {
    hide Invoke, FailingAt;
    if g < n {
      GoodCall(m, WorldSetUp(g), call);
      WorldGetsUp(n, Invoke(m, WorldSetUp(g), FailingAt(call)).0, g + 1, call);
    }
  }

  ghost predicate HasTest(c: World, s: nat) {
    s < |c.suites| && c.suites[s].active && NextActiveTest(c.suites[s].tests, 0) < |c.suites[s].tests|
  }

  function CreateCalls(c: World, s: nat): nat
    requires s < |c.suites|
  {
    if c.suites[s].dynamic then 1 else 0
  }

  lemma SuiteGetsReady(c: World, m: Machine, s: nat, call: nat)
    requires s < |c.suites| && m.calls + CreateCalls(c, s) <= call && !m.escaped
    ensures var (m1, ok) := SetUpSuite(c, m, s, FailingAt(call));
            ok && m1.calls == m.calls + CreateCalls(c, s) && !m1.escaped
  {
    hide Invoke, FailingAt;
    GoodCall(m, SuiteCreate(s), call);
  }

  /** A suite without a test to run. */
  lemma EmptySuite(c: World, m: Machine, s: nat, call: nat)
    requires s < |c.suites| && !HasTest(c, s) && c.suites[s].active && m.calls + 2 * CreateCalls(c, s) <= call && !m.escaped
    ensures var m1 := RunSuite(c, m, s, FailingAt(call)); m1.calls == m.calls + 2 * CreateCalls(c, s) && !m1.escaped
  {
    hide Invoke, FailingAt, SetUpSuite;
    var m0 := Emit(m, EnterSuite(s));
    SuiteGetsReady(c, m0, s, call);
    GoodCall(SetUpSuite(c, m0, s, FailingAt(call)).0, SuiteDestroy(s), call);
  }

  /** A suite whose first test meets the failing fixture. */
  lemma BrokenSuite(c: World, m: Machine, s: nat, call: nat)
    requires HasTest(c, s) && m.calls + CreateCalls(c, s) == call && !m.escaped && c.fixtures > 0
    ensures RunSuite(c, m, s, FailingAt(call)).escaped
  {
    hide Invoke, FailingAt, SetUpSuite;
    var oracle := FailingAt(call);
    var m0 := Emit(m, EnterSuite(s));
    SuiteGetsReady(c, m0, s, call);
    var m1 := SetUpSuite(c, m0, s, oracle).0;
    var t := NextActiveTest(c.suites[s].tests, 0);
    GoodCall(Emit(m1, EnterTest(s, t)), FixtureSetUp(0), call);
    assert RunTest(c.fixtures, m1, s, t, oracle).escaped;
    assert RunTests(c, m1, s, 0, oracle).escaped;
  }

  lemma {:induction false} SuitesBreak(c: World, m: Machine, i: nat, s: nat, call: nat)
    requires i <= s && HasTest(c, s) && c.fixtures > 0 && !m.escaped && forall k :: i <= k < s ==> !HasTest(c, k)
    requires m.calls + SuiteCalls(c, i, s) + CreateCalls(c, s) == call
    ensures RunSuites(c, m, i, FailingAt(call)).escaped
    decreases s - i
  {
    hide RunSuite, FailingAt;
    var k := NextActiveSuite(c.suites, i);
    SkipCalls(c, i, k, s);
    if k < s {
      EmptySuite(c, m, k, call);
      SuitesBreak(c, RunSuite(c, m, k, FailingAt(call)), k + 1, s, call);
    } else {
      BrokenSuite(c, m, s, call);
    }
  }

  lemma {:induction false} FirstTest(c: World, n: nat) returns (s: nat)
    requires n <= |c.suites| && TotalTests(c.suites[..n]) > 0
    ensures HasTest(c, s) && forall k :: 0 <= k < s ==> !HasTest(c, k)
  {
    var before := c.suites[..n][..n - 1];
    assert before == c.suites[..n - 1];
    if TotalTests(before) > 0 {
      s := FirstTest(c, n - 1);
    } else {
      s := n - 1;
      CountedHasTest(c.suites[s].tests);
      forall k | 0 <= k < s ensures !HasTest(c, k) {
        if HasTest(c, k) {
          ActiveCounts(c.suites[k].tests, NextActiveTest(c.suites[k].tests, 0));
          TotalCovers(before, k);
        }
      }
    }
  }

  lemma {:induction false} CountedHasTest(tests: seq<TestState>)
    ensures CountActive(tests) > 0 ==> NextActiveTest(tests, 0) < |tests|
  {
    if NextActiveTest(tests, 0) == |tests| {
      NoneCounted(tests);
    }
  }

  lemma {:induction false} NoneCounted(tests: seq<TestState>)
    requires forall j :: 0 <= j < |tests| ==> !tests[j].active
    ensures CountActive(tests) == 0
    decreases |tests|
  {
    if tests != [] {
      NoneCounted(tests[..|tests| - 1]);
    }
  }

  lemma EscapingCall(c: World, settings: Settings) returns (call: nat)
    requires c.fixtures > 0 && TotalTests(c.suites) > 0
    ensures RunWorld(c, Start(settings), FailingAt(call)).escaped
  {
    hide RunSuites, WorldUp, FailingAt;
    assert c.suites[..|c.suites|] == c.suites;
    var s := FirstTest(c, |c.suites|);
    call := c.fixtures + SuiteCalls(c, 0, s) + CreateCalls(c, s);
    var m0 := Emit(Start(settings).(settings := c.defaults), EnterWorld);
    WorldGetsUp(c.fixtures, m0, 0, call);
    SuitesBreak(c, WorldUp(c.fixtures, m0, 0, FailingAt(call)).0, 0, s, call);
  }
}
