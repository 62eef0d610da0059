/**
 * The numbers a run ends with: failed tests and suites, warnings and skipped tests are exactly the numbers of the
 * answers of user code that mean a failure, a warning or a skip.
 */
module RunnerCounts {
  import opened Bytes
  import opened Descriptions
  import opened Tracking
  import opened RunnerSpec
  import opened RunnerTheorems
  import opened RunnerReports

  // ---------------------------------------------------------------- a run begins with enterWorld

  lemma {:induction false} ExpandHead(e: Event, rest: seq<Event>)
    ensures Expand([e] + rest) == WithReports(e) + Expand(rest)
    decreases |rest|
  {
    hide WithReports;
    if rest == [] {
      assert [e] + rest == [e];
      ExpandOne(e);
      assert Expand(rest) == [] && WithReports(e) + [] == WithReports(e);
    } else {
      var before, last := rest[..|rest| - 1], Last(rest);
      assert [e] + rest == ([e] + before) + [last] && rest == before + [last];
      ExpandMore([e] + before, last);
      ExpandMore(before, last);
      ExpandHead(e, before);
    }
  }

  lemma {:induction false} EntersOnce(c: World, trace: seq<Entry>)
    requires trace != [] && trace[0].event.EnterWorld? && Monitor(c, trace) != Bad
    ensures Monitor(c, trace) != Outside && forall i :: 1 <= i < |trace| ==> !trace[i].event.EnterWorld?
    decreases |trace|
  {
    hide NextStage, NextLevel, NoActiveTest, NoActiveSuite;
    if |trace| > 1 {
      var before := trace[..|trace| - 1];
      PrefixNotBad(c, trace, |trace| - 1);
      EntersOnce(c, before);
      assert forall i :: 0 <= i < |before| ==> trace[i] == before[i];
    }
  }

  /** The first event of a run is its enterWorld, and it is the only one. */
  lemma RunStarts(c: World, settings: Settings, oracle: Oracle)
    requires FewReports(oracle)
    ensures var es := Events(RunWorld(c, Start(settings), oracle).trace);
            && es != [] && es[0] == EnterWorld && (forall i :: 1 <= i < |es| ==> !es[i].EnterWorld?)
            && Skeleton(es) != [] && Skeleton(es)[0] == EnterWorld && es == Expand(Skeleton(es))
  {
    hide RunWorld, Next, FewReports, WithReports;
    var trace := RunWorld(c, Start(settings), oracle).trace;
    RunObeysProtocol(c, settings, oracle);
    RunIsTold(c, settings, oracle);
    var es := Events(trace);
    var sk := Skeleton(es);
    SomeTrace(c, trace);
    SomeSkeleton(sk);
    assert sk == [sk[0]] + sk[1..];
    ExpandHead(sk[0], sk[1..]);
    assert WithReports(sk[0])[0] == sk[0] by { WithReportsHead(sk[0]); }
    PrefixNotBad(c, trace, 1);
    FirstEvent(c, trace);
    EntersOnce(c, trace);
  }

  lemma SomeTrace(c: World, trace: seq<Entry>)
    requires Monitor(c, trace) == Done <==> !Aborted(trace)
    ensures trace != []
  {
  }

  lemma SomeSkeleton(sk: seq<Event>)
    ensures Expand(sk) != [] ==> sk != []
  {
  }

  lemma WithReportsHead(e: Event)
    ensures |WithReports(e)| > 0 && WithReports(e)[0] == e
  {
  }

  lemma FirstEvent(c: World, trace: seq<Entry>)
    requires trace != [] && Monitor(c, trace[..1]) != Bad && Skeletal(trace[0].event)
    ensures trace[0].event == EnterWorld
  {
    assert trace[..1][..0] == [];
    assert Monitor(c, trace[..1]) == Next(c, Outside, trace[0]);
  }

  // ---------------------------------------------------------------- counting from there on

  lemma {:induction false} FoldHead(e: Event, es: seq<Event>, k: Counters)
    ensures Fold([e] + es, k) == Fold(es, Step(k, e))
    decreases |es|
  {
    if es == [] {
      assert [e] + es == [e] && [e][..0] == [];
    } else {
      assert ([e] + es)[..|es|] == [e] + es[..|es| - 1];
      FoldHead(e, es[..|es| - 1], k);
    }
  }

  lemma {:induction false} TallyAtMost(es: seq<Event>, kind: Event -> bool)
    ensures Tally(es, kind) <= |es|
    decreases |es|
  {
    if es != [] {
      TallyAtMost(es[..|es| - 1], kind);
    }
  }

  /**
   * Unless a world fixture's set-up started the tracker over, the counters at the end of a run are numbers of answers:
   * failedTests and failedSuites the stretches between starts of tests or suites, and between starts of suites, in
   * which some call failed; warnings the warnings reported and the world fixtures that did not succeed; skippedTests
   * the skips reported.
   */
  lemma RunCounts(c: World, settings: Settings, oracle: Oracle)
    requires FewReports(oracle)
    ensures var m := RunWorld(c, Start(settings), oracle);
            var sk := Skeleton(Events(m.trace));
            sk != [] && (NoStartOver(sk) && |m.trace| < U32 ==>
              && m.tracker.failedTests == FailedStretches(Stretches(sk[1..], StartsTest))
              && m.tracker.failedSuites == FailedStretches(Stretches(sk[1..], StartsSuite))
              && m.tracker.warnings == Warnings(sk[1..]) && m.tracker.skippedTests == Skips(sk[1..]))
  {
    hide RunWorld, Monitor, Stretches, Failing, HasFailure, HasFailedCall, FailedStretches, Expand, Skeleton, Warnings, Skips, Tally, Fold, FewReports;
    var m := RunWorld(c, Start(settings), oracle);
    RunStarts(c, settings, oracle);
    RunObeysProtocol(c, settings, oracle);
    var es, sk := Events(m.trace), Skeleton(Events(m.trace));
    var rest := sk[1..];
    if NoStartOver(sk) && |m.trace| < U32 {
      assert sk == [EnterWorld] + rest;
      ExpandHead(EnterWorld, rest);
      assert es == [EnterWorld] + Expand(rest);
      FoldHead(EnterWorld, Expand(rest), ZERO);
      Restrict(sk);
      CountRest(rest, es);
    }
  }

  lemma Restrict(sk: seq<Event>)
    requires sk != [] && AllSkeletal(sk) && NoStartOver(sk)
    ensures AllSkeletal(sk[1..]) && NoStartOver(sk[1..])
  {
  }

  lemma CountRest(rest: seq<Event>, es: seq<Event>)
    requires AllSkeletal(rest) && NoStartOver(rest) && es == [EnterWorld] + Expand(rest) && |es| < U32
    requires forall i :: 1 <= i < |es| ==> !es[i].EnterWorld?
    ensures var r := Fold(Expand(rest), Step(ZERO, EnterWorld));
            && r.failedTests == FailedStretches(Stretches(rest, StartsTest))
            && r.failedSuites == FailedStretches(Stretches(rest, StartsSuite))
            && r.warnings == Warnings(rest) && r.skippedTests == Skips(rest)
  {
    hide Stretches, Failing, HasFailure, HasFailedCall, FailedStretches, Expand, Warnings, Skips, Tally, Fold, AllSkeletal, NoStartOver;
    var inner, k := Expand(rest), Step(ZERO, EnterWorld);
    ExpandTallies(rest);
    assert forall i :: 0 <= i < |inner| ==> inner[i] == es[i + 1];
    CountersAreFolds(inner, k);
    TalliesAreCounts(inner, k);
    TallyAtMost(inner, IsWarning);
    TallyAtMost(inner, IsSkip);
    StretchesExpand(rest, StartsTest);
    StretchesExpand(rest, StartsSuite);
    StretchesInherit(rest, StartsTest);
    StretchesInherit(rest, StartsSuite);
    FailingExpanded(Stretches(rest, StartsTest));
    FailingExpanded(Stretches(rest, StartsSuite));
  }

  // ---------------------------------------------------------------- starting over

  lemma {:induction false} ExpandPrefix(sk: seq<Event>, n: nat)
    requires n <= |sk|
    ensures Expand(sk[..n]) <= Expand(sk)
    decreases |sk|
  {
    hide WithReports;
    if n < |sk| {
      ExpandPrefix(sk[..|sk| - 1], n);
      assert sk[..|sk| - 1][..n] == sk[..n];
    } else {
      assert sk[..n] == sk;
    }
  }

  /** The trace up to the k-th element of the skeleton. */
  lemma PrefixTrace(trace: seq<Entry>, sk: seq<Event>, k: nat)
    requires Events(trace) == Expand(sk) && k <= |sk|
    ensures var n := |Expand(sk[..k])|;
            && n <= |trace| && Expand(sk[..k]) == Events(trace)[..n]
            && (k == |sk| ==> n == |trace|)
            && (k < |sk| ==> n < |trace| && trace[n].event == sk[k]
                             && Expand(sk[..k + 1]) == Expand(sk[..k]) + WithReports(sk[k]))
  {
    hide WithReports, Expand;
    ExpandPrefix(sk, k);
    if k < |sk| {
      assert sk[..k + 1] == sk[..k] + [sk[k]];
      ExpandMore(sk[..k], sk[k]);
      WithReportsHead(sk[k]);
      ExpandPrefix(sk, k + 1);
    } else {
      assert sk[..k] == sk;
    }
  }

  /** Behind the call that started over there is nothing but the world's leave. */
  lemma NothingBehind(c: World, trace: seq<Entry>, sk: seq<Event>, i: nat)
    requires Monitor(c, trace) != Bad && AllSkeletal(sk) && Events(trace) == Expand(sk)
    requires i < |sk| && sk[i].Call? && StartsOver(sk[i].cb, sk[i].reply)
    ensures |Expand(sk[..i + 1])| >= 2
    ensures var first := Expand(sk[..i + 1]);
            && first[|first| - 2..] == [Initialize, Warned]
            && (Events(trace) == first || Events(trace) == first + [LeaveWorld])
  {
    hide Next, WithReports, Monitor, Skeleton, Events, Expand, StartsOver, Skeletal;
    var first, n := Expand(sk[..i + 1]), |Expand(sk[..i + 1])|;
    PrefixTrace(trace, sk, i);
    PrefixTrace(trace, sk, i + 1);
    EndsWithStart(sk[i]);
    var ends := WithReports(sk[i]);
    assert first[n - 2..] == ends[|ends| - 2..];
    EventsAre(trace);
    assert first[n - 2] == Initialize && first[n - 1] == Warned;
    assert trace[n - 2].event == first[n - 2] && trace[n - 1].event == first[n - 1];
    PrefixNotBad(c, trace, n);
    PrefixNotBad(c, trace, n - 1);
    BrokenPhase(c, trace, n);
    if i + 1 < |sk| {
      LeaveIsLast(c, trace, sk, i + 1, n);
    } else {
      assert Events(trace)[..n] == Events(trace);
    }
  }

  lemma LeaveIsLast(c: World, trace: seq<Entry>, sk: seq<Event>, k: nat, n: nat)
    requires Monitor(c, trace) != Bad && AllSkeletal(sk) && Events(trace) == Expand(sk) && k < |sk|
    requires n == |Expand(sk[..k])| <= |trace| && Monitor(c, trace[..n]) == InWorld(0, None, Broken)
    ensures Events(trace) == Expand(sk[..k]) + [LeaveWorld]
  {
    hide Next, WithReports, Monitor, Skeleton, Events, Expand, Skeletal;
    PrefixTrace(trace, sk, k);
    PrefixNotBad(c, trace, n + 1);
    OnlyLeave(c, trace, n);
    PlainEvent(sk[k]);
    PrefixTrace(trace, sk, k + 1);
    EventsAre(trace);
    if k + 1 < |sk| {
      PrefixNotBad(c, trace, n + 2);
      NothingAfterDone(c, trace, n + 1);
    } else {
      assert Events(trace)[..n + 1] == Events(trace);
    }
  }

  lemma EventsAre(trace: seq<Entry>)
    ensures |Events(trace)| == |trace| && forall i :: 0 <= i < |trace| ==> Events(trace)[i] == trace[i].event
  {
  }

  lemma PlainEvent(e: Event)
    ensures !e.Call? ==> WithReports(e) == [e]
  {
  }

  lemma EndsWithStart(e: Event)
    requires e.Call? && StartsOver(e.cb, e.reply)
    ensures var es := WithReports(e); |es| >= 2 && es[|es| - 2..] == [Initialize, Warned]
  {
    assert Added(e.cb, e.reply) == [Initialize, Warned];
  }

  lemma BrokenPhase(c: World, trace: seq<Entry>, n: nat)
    requires 2 <= n <= |trace| && trace[n - 2].event == Initialize && trace[n - 1].event == Warned
    requires Monitor(c, trace[..n]) != Bad && Monitor(c, trace[..n - 1]) != Bad
    ensures Monitor(c, trace[..n]) == InWorld(0, None, Broken)
  {
    assert trace[..n][..n - 1] == trace[..n - 1] && trace[..n - 1][..n - 2] == trace[..n - 2];
    assert Monitor(c, trace[..n - 1]) == Next(c, Monitor(c, trace[..n - 2]), trace[n - 2]);
    assert Monitor(c, trace[..n]) == Next(c, Monitor(c, trace[..n - 1]), trace[n - 1]);
  }

  lemma OnlyLeave(c: World, trace: seq<Entry>, n: nat)
    requires n < |trace| && Monitor(c, trace[..n]) == InWorld(0, None, Broken) && Monitor(c, trace[..n + 1]) != Bad
    requires Skeletal(trace[n].event)
    ensures trace[n].event == LeaveWorld && Monitor(c, trace[..n + 1]) == Done
  {
    assert trace[..n + 1][..n] == trace[..n];
    assert Monitor(c, trace[..n + 1]) == Next(c, Monitor(c, trace[..n]), trace[n]);
  }

  lemma NothingAfterDone(c: World, trace: seq<Entry>, n: nat)
    requires n < |trace| && Monitor(c, trace[..n]) == Done && Monitor(c, trace[..n + 1]) != Bad
    ensures !Skeletal(trace[n].event)
  {
    assert trace[..n + 1][..n] == trace[..n];
    assert Monitor(c, trace[..n + 1]) == Next(c, Monitor(c, trace[..n]), trace[n]);
  }

  /** A failure reported while a world fixture sets up leaves one warning and nothing else. */
  lemma StartedOver(c: World, settings: Settings, oracle: Oracle)
    requires FewReports(oracle)
    ensures var m := RunWorld(c, Start(settings), oracle);
            !NoStartOver(Skeleton(Events(m.trace))) ==>
              m.tracker.failedTests == 0 && m.tracker.failedSuites == 0 && m.tracker.warnings == 1 && m.tracker.skippedTests == 0
  {
    hide RunWorld, Monitor, FewReports, Expand, Events, StartsOver;
    var m := RunWorld(c, Start(settings), oracle);
    RunStarts(c, settings, oracle);
    RunObeysProtocol(c, settings, oracle);
    var es, sk := Events(m.trace), Skeleton(Events(m.trace));
    if !NoStartOver(sk) {
      var i :| 0 <= i < |sk| && sk[i].Call? && StartsOver(sk[i].cb, sk[i].reply);
      NothingBehind(c, m.trace, sk, i);
      var first := Expand(sk[..i + 1]);
      LastTwo(first);
      FoldOneMore(first, LeaveWorld);
    }
  }

  lemma LastTwo(es: seq<Event>)
    requires |es| >= 2 && es[|es| - 2..] == [Initialize, Warned]
    ensures Fold(es) == ZERO.(warnings := 1)
  {
    hide Fold, Step;
    var before := es[..|es| - 2];
    assert es == before + es[|es| - 2..];
    assert [Initialize, Warned] == [Initialize] + [Warned];
    assert es == before + [Initialize] + [Warned];
    OnceWarned(Fold(before));
    FoldOneMore(before, Initialize);
    FoldOneMore(before + [Initialize], Warned);
  }

  lemma OnceWarned(k: Counters)
    ensures Step(Step(k, Initialize), Warned) == ZERO.(warnings := 1)
  {
  }

  lemma FoldOneMore(es: seq<Event>, e: Event)
    ensures Fold(es + [e]) == Step(Fold(es), e)
  {
    assert (es + [e])[..|es|] == es;
  }

  // ---------------------------------------------------------------- an abort that escapes

  /** The entry point: an escaped abort is one more failure behind the trace, and nothing else is added. */
  lemma AbortIsOneMoreFailure(c: World, settings: Settings, oracle: Oracle)
    ensures var m, r := RunWorld(c, Start(settings), oracle), RunAllTests(c, Start(settings), oracle);
            && Events(r.trace) == Events(m.trace) + (if Aborted(m.trace) then [Failed] else [])
            && CountFailures(Events(r.trace)) == CountFailures(Events(m.trace)) + (if Aborted(m.trace) then 1 else 0)
            && r.tracker == Fold(Events(r.trace)) && !r.escaped && r.settings == settings
  {
    hide RunWorld, Monitor, Aborted;
    var m := RunWorld(c, Start(settings), oracle);
    RunObeysProtocol(c, settings, oracle);
    EventsOfEmit(m, Failed);
    FoldOneMore(Events(m.trace), Failed);
    assert (Events(m.trace) + [Failed])[..|m.trace|] == Events(m.trace);
    assert Events(m.trace) + [] == Events(m.trace);
  }
}
