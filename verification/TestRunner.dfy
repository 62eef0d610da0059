/**
 * TestRunner over the real lists: runWorld, runSuite and runTest drive the tracker and the settings guards, and
 * come out exactly where RunnerSpec says.
 */
module TestRunners {
  import opened LinkedList
  import opened Descriptions
  import opened Tracking
  import opened RunnerSpec

  class TestRunner {
    const tracker: TestTracker
    var settings: Settings
    var calls: nat
    ghost var trace: seq<Entry>

    constructor (settings: Settings)
      ensures Value() == Machine([], settings, 0, ZERO, false) && fresh(tracker)
    {
      tracker := new TestTracker();
      this.settings, calls, trace := settings, 0, [];
    }

    ghost function Value(escaped: bool := false): Machine
      reads this, tracker
    {
      Machine(trace, settings, calls, tracker.Value(), escaped)
    }

    method Emit(e: Event)
      modifies this`trace, tracker
      ensures Value() == RunnerSpec.Emit(old(Value()), e)
    {
      tracker.On(e);
      trace := trace + [Entry(e, settings)];
    }

    method EmitReports(rs: seq<Report>)
      modifies this`trace, tracker
      ensures Value() == RunnerSpec.EmitReports(old(Value()), rs)
    {
      ghost var m := Value();
      assert rs[..0] == [];
      for i := 0 to |rs|
        invariant Value() == RunnerSpec.EmitReports(m, rs[..i])
      {
        Emit(EventOf(rs[i]));
        assert rs[..i + 1][..i] == rs[..i];
      }
      assert rs[..|rs|] == rs;
    }

    /** A call into user code. */
    method Invoke(cb: Callback, oracle: Oracle) returns (outcome: Outcome)
      modifies this, tracker
      ensures (Value(), outcome) == RunnerSpec.Invoke(old(Value()), cb, oracle)
    {
      var reply := oracle(calls);
      outcome := reply.outcome;
      Emit(Call(cb, reply));
      calls := calls + 1;
      settings := reply.settings;
      EmitReports(reply.reports);
    }

    method FailFixture() returns (escaped: bool)
      modifies this`trace, tracker
      ensures Value(escaped) == RunnerSpec.FailFixture(old(Value()))
    {
      Emit(FixtureError);
      escaped := settings.abortOnFail;
    }

    method ThrewReports(outcome: Outcome)
      modifies this`trace, tracker
      ensures Value() == RunnerSpec.ThrewReports(old(Value()), outcome)
    {
      if outcome.ThrewSkip? {
        EmitReports([Fail, Fail]);
      } else if outcome.ThrewOther? {
        EmitReports(if outcome.standard then [Fail, Fail, Fail] else [Fail, Fail]);
      }
    }

    method SetUpTest(n: nat, s: nat, t: nat, oracle: Oracle) returns (ok: bool, escaped: bool)
      modifies this, tracker
      ensures (Value(escaped), ok) == RunnerSpec.SetUpTest(n, old(Value()), s, t, oracle)
      ensures ok ==> !escaped
    {
      hide RunnerSpec.Invoke, RunnerSpec.ThrewReports, RunnerSpec.FailFixture;
      ghost var goal := FixturesUp(n, Value(), 0, oracle);
      for g := 0 to n
        invariant FixturesUp(n, Value(), g, oracle) == goal
      {
        var outcome := Invoke(FixtureSetUp(g), oracle);
        if outcome != Returned(true) {
          escaped := FailFixture();
          return false, escaped;
        }
      }
      var outcome := Invoke(Callback.TestSetUp(s, t), oracle);
      ThrewReports(outcome);
      return outcome.Returned?, false;
    }

    method RunBody(s: nat, t: nat, oracle: Oracle)
      modifies this, tracker
      ensures Value() == RunnerSpec.RunBody(old(Value()), s, t, oracle)
    {
      hide RunnerSpec.Invoke;
      var outcome := Invoke(TestRun(s, t), oracle);
      if outcome.ThrewOther? {
        Emit(Failed);
      }
    }

    method TearDownTest(n: nat, s: nat, t: nat, oracle: Oracle) returns (escaped: bool)
      modifies this, tracker
      ensures Value(escaped) == RunnerSpec.TearDownTest(n, old(Value()), s, t, oracle)
    {
      hide RunnerSpec.Invoke, RunnerSpec.ThrewReports, RunnerSpec.FailFixture;
      var outcome := Invoke(Callback.TestTearDown(s, t), oracle);
      ThrewReports(outcome);
      if outcome.ThrewAbort? || (!outcome.Returned? && settings.abortOnFail) {
        return false;
      }
      ghost var goal := FixturesDown(Value(), n, oracle);
      var g := n;
      while g > 0
        invariant 0 <= g <= n && FixturesDown(Value(), g, oracle) == goal
      {
        outcome := Invoke(FixtureTearDown(g - 1), oracle);
        if outcome != Returned(true) {
          escaped := FailFixture();
          return;
        }
        g := g - 1;
      }
      escaped := false;
    }

    method RunTest(n: nat, s: nat, t: nat, oracle: Oracle) returns (escaped: bool)
      modifies this, tracker
      ensures Value(escaped) == RunnerSpec.RunTest(n, old(Value()), s, t, oracle)
    {
      hide RunnerSpec.SetUpTest, RunnerSpec.TearDownTest, RunnerSpec.RunBody;
      var saved := settings;
      Emit(EnterTest(s, t));
      var ok;
      ok, escaped := SetUpTest(n, s, t, oracle);
      if ok {
        RunBody(s, t, oracle);
        escaped := TearDownTest(n, s, t, oracle);
      }
      if !escaped {
        Emit(LeaveTest(s, t));
      }
      settings := saved;
    }

    /** The loop over a suite's tests. */
    method RunTests(tests: List<TestInfo>, n: nat, ghost c: World, ghost s: nat, id: nat, oracle: Oracle) returns (escaped: bool)
      requires tests.Valid() && s == id && s < |c.suites| && c.fixtures == n && TestStates(tests.elems) == c.suites[s].tests
      requires NumberedTests(tests.elems)
      modifies this, tracker
      ensures Value(escaped) == RunnerSpec.RunTests(c, old(Value()), s, 0, oracle)
    {
      hide FirstActive, TestStates, List.Valid, RunnerSpec.RunTest, NextActiveTest;
      ghost var goal, states, es := RunnerSpec.RunTests(c, Value(), s, 0, oracle), c.suites[s].tests, tests.elems;
      var td, k := WalkTests(tests, null, 0, states);
      ghost var t := 0;
      while td != null
        invariant 0 <= t <= k <= |es| && td == (if k < |es| then es[k] else null) && k == NextActiveTest(states, t)
        invariant tests.elems == es && tests.Valid() && TestStates(es) == states
        invariant RunnerSpec.RunTests(c, Value(), s, t, oracle) == goal
        decreases |es| - k
      {
        assert td.item.id == k;
        escaped := RunTest(n, id, td.item.id, oracle);
        if escaped { return; }
        t := k + 1;
        td, k := WalkTests(tests, td, t, states);
      }
      escaped := false;
    }

    method SetUpSuite(dynamic: bool, ghost c: World, id: nat, oracle: Oracle) returns (ok: bool)
      requires id < |c.suites| && c.suites[id].dynamic == dynamic
      modifies this, tracker
      ensures (Value(), ok) == RunnerSpec.SetUpSuite(c, old(Value()), id, oracle)
    {
      hide RunnerSpec.Invoke, RunnerSpec.ThrewReports, RunnerSpec.EmitReports;
      if !dynamic {
        Emit(SuiteReady(id));
        return true;
      }
      var outcome := Invoke(SuiteCreate(id), oracle);
      if outcome == Returned(true) {
        Emit(SuiteReady(id));
        return true;
      }
      ThrewReports(outcome);
      if !(outcome.ThrewAbort? || (!outcome.Returned? && settings.abortOnFail)) {
        EmitReports([Fail, Fail]);
      }
      ok := false;
    }

    method TearDownSuite(dynamic: bool, ghost c: World, id: nat, oracle: Oracle)
      requires id < |c.suites| && c.suites[id].dynamic == dynamic
      modifies this, tracker
      ensures Value() == RunnerSpec.TearDownSuite(c, old(Value()), id, oracle)
    {
      hide RunnerSpec.Invoke, RunnerSpec.ThrewReports;
      if dynamic {
        var outcome := Invoke(SuiteDestroy(id), oracle);
        ThrewReports(outcome);
      }
    }

    method RunSuite(sd: SuiteInfo, n: nat, ghost c: World, oracle: Oracle) returns (escaped: bool)
      requires sd.tests.Valid() && sd.id < |c.suites| && c.fixtures == n && c.suites[sd.id].dynamic == sd.dynamic
      requires TestStates(sd.tests.elems) == c.suites[sd.id].tests
      requires NumberedTests(sd.tests.elems)
      modifies this, tracker
      ensures Value(escaped) == RunnerSpec.RunSuite(c, old(Value()), sd.id, oracle)
    {
      hide RunnerSpec.SetUpSuite, RunnerSpec.RunTests, RunnerSpec.TearDownSuite, List.Valid, TestStates;
      var saved := settings;
      Emit(EnterSuite(sd.id));
      var ok := SetUpSuite(sd.dynamic, c, sd.id, oracle);
      escaped := false;
      if ok {
        escaped := RunTests(sd.tests, n, c, sd.id, sd.id, oracle);
        if !escaped {
          TearDownSuite(sd.dynamic, c, sd.id, oracle);
        }
      }
      if !escaped {
        Emit(LeaveSuite(sd.id));
      }
      settings := saved;
    }

    method WorldUp(n: nat, oracle: Oracle) returns (ok: bool)
      modifies this, tracker
      ensures (Value(), ok) == RunnerSpec.WorldUp(n, old(Value()), 0, oracle)
    {
      hide RunnerSpec.Invoke;
      ghost var goal := RunnerSpec.WorldUp(n, Value(), 0, oracle);
      for g := 0 to n
        invariant RunnerSpec.WorldUp(n, Value(), g, oracle) == goal
      {
        var outcome := Invoke(WorldSetUp(g), oracle);
        ok := outcome == Returned(true);
        if outcome.Returned? && tracker.testFailedAsserts > 0 {
          Emit(Initialize);
          ok := false;
        }
        if !ok {
          Emit(Warned);
          return;
        }
      }
      Emit(WorldReady);
      ok := true;
    }

    method WorldDown(n: nat, oracle: Oracle)
      modifies this, tracker
      ensures Value() == RunnerSpec.WorldDown(old(Value()), n, oracle)
    {
      hide RunnerSpec.Invoke;
      ghost var goal := RunnerSpec.WorldDown(Value(), n, oracle);
      var g := n;
      while g > 0
        invariant 0 <= g && RunnerSpec.WorldDown(Value(), g, oracle) == goal
      {
        var outcome := Invoke(WorldTearDown(g - 1), oracle);
        if outcome != Returned(true) {
          Emit(Warned);
          return;
        }
        g := g - 1;
      }
    }

    /** The suites a world's lists show, as the specification's world. */
    ghost predicate Shows(wd: RealWorldDescription, c: World)
      reads wd.suites, wd.suites.elems`active, wd.suites.elems`next, wd.suites.elems`prev
      reads TestLists(wd.suites.elems), TestLinks(wd.suites.elems)
    {
      && wd.suites.Valid() && |c.suites| == |wd.suites.elems|
      && forall i :: 0 <= i < |c.suites| ==>
           var x := wd.suites.elems[i];
           && x.item.id == i && x.item.tests.Valid()
           && NumberedTests(x.item.tests.elems)
           && c.suites[i] == SuiteState(x.item.name, x.item.dynamic, x.active, TestStates(x.item.tests.elems))
    }

    method RunSuites(wd: RealWorldDescription, n: nat, ghost c: World, oracle: Oracle) returns (escaped: bool)
      requires Shows(wd, c) && c.fixtures == n
      modifies this, tracker
      ensures Value(escaped) == RunnerSpec.RunSuites(c, old(Value()), 0, oracle)
    {
      hide RunnerSpec.RunSuite, NextActiveSuite, Shows;
      ghost var goal := RunnerSpec.RunSuites(c, Value(), 0, oracle);
      var sd, k := WalkSuites(wd, null, 0, c);
      ghost var s := 0;
      while sd != null
        invariant 0 <= s <= k <= |c.suites| && Shows(wd, c) && k == NextActiveSuite(c.suites, s)
        invariant (sd == null <==> k == |c.suites|) && (sd != null ==> IsSuite(wd, sd, k))
        invariant RunnerSpec.RunSuites(c, Value(), s, oracle) == goal
        decreases |c.suites| - k
      {
        escaped := RunSuiteOf(wd, sd, n, c, k, oracle);
        if escaped { return; }
        s := k + 1;
        sd, k := WalkSuites(wd, sd, s, c);
      }
      escaped := false;
    }

    ghost predicate IsSuite(wd: RealWorldDescription, sd: Link<SuiteInfo>, k: nat)
      reads wd.suites`elems
    {
      k < |wd.suites.elems| && sd == wd.suites.elems[k]
    }

    method RunSuiteOf(wd: RealWorldDescription, sd: Link<SuiteInfo>, n: nat, ghost c: World, ghost k: nat, oracle: Oracle)
      returns (escaped: bool)
      requires Shows(wd, c) && IsSuite(wd, sd, k) && k < |c.suites| && c.fixtures == n
      modifies this, tracker
      ensures Shows(wd, c) && IsSuite(wd, sd, k) && Value(escaped) == RunnerSpec.RunSuite(c, old(Value()), k, oracle)
    {
      hide TestStates, List.Valid, RunnerSpec.RunSuite, NumberedTests;
      escaped := RunSuite(sd.item, n, c, oracle);
    }

    /** firstSuite (from null) or next. */
    method WalkSuites(wd: RealWorldDescription, from: Link?<SuiteInfo>, ghost s: nat, ghost c: World)
      returns (sd: Link?<SuiteInfo>, ghost k: nat)
      requires Shows(wd, c) && s <= |c.suites|
      requires if s == 0 then from == null else from != null && IsSuite(wd, from, s - 1)
      ensures Shows(wd, c) && s <= k <= |c.suites| && k == NextActiveSuite(c.suites, s)
      ensures (sd == null <==> k == |c.suites|) && (sd != null ==> IsSuite(wd, sd, k))
    {
      hide FirstActive, TestStates, List.Valid, NextActiveSuite, NumberedTests;
      if from == null {
        sd := wd.suites.Head();
      } else {
        sd := from.Next(wd.suites, s - 1);
      }
      k := FirstActive(wd.suites.elems, s);
      NextSuiteIs(c.suites, s, k);
    }

    method RunWorld(wd: RealWorldDescription, n: nat, defaults: Settings, ghost c: World, oracle: Oracle) returns (escaped: bool)
      requires Shows(wd, c) && c.fixtures == n && c.defaults == defaults
      modifies this, tracker
      ensures Value(escaped) == RunnerSpec.RunWorld(c, old(Value()), oracle)
    {
      hide TestStates, List.Valid, NumberedTests, RunnerSpec.WorldUp, RunnerSpec.RunSuites, RunnerSpec.WorldDown;
      var saved := settings;
      settings := defaults;
      Emit(EnterWorld);
      var ok := WorldUp(n, oracle);
      escaped := false;
      if ok {
        escaped := RunSuites(wd, n, c, oracle);
        if !escaped {
          WorldDown(n, oracle);
        }
      }
      if !escaped {
        Emit(LeaveWorld);
      }
      settings := saved;
    }

    method RunAllTests(wd: RealWorldDescription, n: nat, defaults: Settings, ghost c: World, oracle: Oracle)
      requires Shows(wd, c) && c.fixtures == n && c.defaults == defaults
      modifies this, tracker
      ensures Value() == RunnerSpec.RunAllTests(c, old(Value()), oracle)
    {
      hide Shows, RunnerSpec.RunWorld;
      var escaped := RunWorld(wd, n, defaults, c, oracle);
      if escaped {
        Emit(Failed);
      }
    }
  }

  ghost predicate NumberedTests(es: seq<Link<TestInfo>>) {
    forall i :: 0 <= i < |es| ==> es[i].item.id == i
  }

  /** firstTest (from null) or next: the first active test from position t on. */
  method WalkTests(tests: List<TestInfo>, from: Link?<TestInfo>, ghost t: nat, ghost states: seq<TestState>)
    returns (td: Link?<TestInfo>, ghost k: nat)
    requires tests.Valid() && TestStates(tests.elems) == states && t <= |states|
    requires if t == 0 then from == null else from == tests.elems[t - 1]
    ensures tests.elems == old(tests.elems) && tests.Valid() && TestStates(tests.elems) == states
    ensures t <= k <= |states| && td == tests.At(k) && k == NextActiveTest(states, t)
  {
    hide FirstActive, TestStates, List.Valid, NextActiveTest;
    if from == null {
      td := tests.Head();
    } else {
      td := from.Next(tests, t - 1);
    }
    k := FirstActive(tests.elems, t);
    NextTestIs(states, t, k);
  }

  lemma {:induction false} NextTestIs(tests: seq<TestState>, i: nat, k: nat)
    requires i <= k <= |tests| && (k < |tests| ==> tests[k].active) && forall j :: i <= j < k ==> !tests[j].active
    ensures NextActiveTest(tests, i) == k
    decreases k - i
  {
    if i < k {
      NextTestIs(tests, i + 1, k);
    }
  }

  lemma {:induction false} NextSuiteIs(w: seq<SuiteState>, i: nat, k: nat)
    requires i <= k <= |w| && (k < |w| ==> w[k].active) && forall j :: i <= j < k ==> !w[j].active
    ensures NextActiveSuite(w, i) == k
    decreases k - i
  {
    if i < k {
      NextSuiteIs(w, i + 1, k);
    }
  }
}
