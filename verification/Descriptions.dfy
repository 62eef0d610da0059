/**
 * Suites and tests of RealDescriptions.cpp over the intrusive lists: counting, activating and filtering.
 * `SuiteState` is what a world's lists show: names, kinds and activation flags in list order.
 */
module Descriptions {
  import opened Bytes
  import opened LinkedList

  // `id` stands for the identity of a description object: its position in its list.
  datatype TestInfo = TestInfo(id: nat, name: string)
  datatype SuiteInfo = SuiteInfo(id: nat, name: string, dynamic: bool, tests: List<TestInfo>)

  datatype TestState = TestState(name: string, active: bool)
  datatype SuiteState = SuiteState(name: string, dynamic: bool, active: bool, tests: seq<TestState>)

  // ---------------------------------------------------------------- filtering as a function

  function CountActive(tests: seq<TestState>): nat {
    if tests == [] then 0
    else CountActive(tests[..|tests| - 1]) + if tests[|tests| - 1].active then 1 else 0
  }

  /** numTotalTests: the active tests of the active suites. */
  function TotalTests(w: seq<SuiteState>): nat {
    if w == [] then 0
    else TotalTests(w[..|w| - 1]) + if w[|w| - 1].active then CountActive(w[|w| - 1].tests) else 0
  }

  /** Index of the first active test with this name, or |tests|. */
  function FindTest(tests: seq<TestState>, name: string, from: nat): (k: nat)
    requires from <= |tests|
    ensures from <= k <= |tests| && (k < |tests| ==> tests[k] == TestState(name, true))
    ensures forall j :: from <= j < k ==> tests[j] != TestState(name, true)
    decreases |tests| - from
  {
    if from == |tests| || tests[from] == TestState(name, true) then from else FindTest(tests, name, from + 1)
  }

  function FindSuite(w: seq<SuiteState>, name: string, from: nat): (k: nat)
    requires from <= |w|
    ensures from <= k <= |w| && (k < |w| ==> w[k].active && w[k].name == name)
    ensures forall j :: from <= j < k ==> !(w[j].active && w[j].name == name)
    decreases |w| - from
  {
    if from == |w| || (w[from].active && w[from].name == name) then from else FindSuite(w, name, from + 1)
  }

  function OnlyTest(tests: seq<TestState>, k: nat): (r: seq<TestState>)
    ensures |r| == |tests|
    ensures forall j :: 0 <= j < |tests| ==> r[j] == tests[j].(active := tests[j].active && j == k)
  {
    seq(|tests|, j requires 0 <= j < |tests| => tests[j].(active := tests[j].active && j == k))
  }

  function OnlySuite(w: seq<SuiteState>, k: nat): (r: seq<SuiteState>)
    ensures |r| == |w|
    ensures forall j :: 0 <= j < |w| ==> r[j] == w[j].(active := w[j].active && j == k)
  {
    seq(|w|, j requires 0 <= j < |w| => w[j].(active := w[j].active && j == k))
  }

  /** leaveOnly of a suite. */
  function LeaveTest(tests: seq<TestState>, name: string): (seq<TestState>, bool) {
    var k := FindTest(tests, name, 0);
    if k == |tests| then (tests, false) else (OnlyTest(tests, k), true)
  }

  /** leaveOnly of the world; without a test name the suite keeps all its tests. */
  function LeaveOnlySpec(w: seq<SuiteState>, suite: string, test: Option<string>): (seq<SuiteState>, bool) {
    var k := FindSuite(w, suite, 0);
    if k == |w| then (w, false)
    else if test.None? then (OnlySuite(w, k), true)
    else
      var (tests, found) := LeaveTest(w[k].tests, test.value);
      if !found then (w, false) else (OnlySuite(w[k := w[k].(tests := tests)], k), true)
  }

  function Activated(tests: seq<TestState>): (r: seq<TestState>)
    ensures |r| == |tests| && forall j :: 0 <= j < |tests| ==> r[j] == tests[j].(active := true)
  {
    seq(|tests|, j requires 0 <= j < |tests| => tests[j].(active := true))
  }

  // ---------------------------------------------------------------- what filtering means

  ghost predicate OnlyActiveSuite(w: seq<SuiteState>, k: nat) {
    forall j :: 0 <= j < |w| ==> (w[j].active <==> j == k)
  }

  ghost predicate OnlyActiveTest(tests: seq<TestState>, k: nat) {
    forall j :: 0 <= j < |tests| ==> (tests[j].active <==> j == k)
  }

  lemma {:induction false} CountOne(tests: seq<TestState>, k: nat)
    requires OnlyActiveTest(tests, k)
    ensures CountActive(tests) == if k < |tests| then 1 else 0
    decreases |tests|
  {
    if tests != [] {
      CountOne(tests[..|tests| - 1], k);
    }
  }

  lemma {:induction false} TotalOne(w: seq<SuiteState>, k: nat)
    requires OnlyActiveSuite(w, k)
    ensures TotalTests(w) == if k < |w| then CountActive(w[k].tests) else 0
    decreases |w|
  {
    if w != [] {
      TotalOne(w[..|w| - 1], k);
    }
  }

  /**
   * Filtering by suite and test succeeds exactly when the first active suite of that name has an active test of
   * that name. Then that suite is the only active one, its first such test the only active one in it, and the world
   * counts one test; every other suite keeps its tests' flags. A failed call changes no flag.
   */
  lemma LeaveOnlyExact(w: seq<SuiteState>, suite: string, test: string)
    ensures var (w', found) := LeaveOnlySpec(w, suite, Some(test));
            var k := FindSuite(w, suite, 0);
            && (found <==> k < |w| && TestState(test, true) in w[k].tests)
            && (!found ==> w' == w)
            && (found ==>
                  && |w'| == |w| && OnlyActiveSuite(w', k) && TotalTests(w') == 1
                  && w'[k].name == suite && |w'[k].tests| == |w[k].tests|
                  && OnlyActiveTest(w'[k].tests, FindTest(w[k].tests, test, 0))
                  && TestState(test, true) in w'[k].tests
                  && forall j :: 0 <= j < |w| && j != k ==> w'[j] == w[j].(active := false))
  {
    var (w', found) := LeaveOnlySpec(w, suite, Some(test));
    var k := FindSuite(w, suite, 0);
    if k < |w| {
      var m := FindTest(w[k].tests, test, 0);
      if m < |w[k].tests| {
        assert w'[k].tests == OnlyTest(w[k].tests, m);
        assert w'[k].tests[m] == TestState(test, true);
        CountOne(w'[k].tests, m);
        TotalOne(w', k);
      }
    }
  }

  /** A suite filter alone keeps the suite's tests and their count. */
  lemma LeaveSuiteExact(w: seq<SuiteState>, suite: string)
    ensures var (w', found) := LeaveOnlySpec(w, suite, None);
            var k := FindSuite(w, suite, 0);
            && (found <==> k < |w|) && (!found ==> w' == w)
            && (found ==> |w'| == |w| && OnlyActiveSuite(w', k) && w'[k] == w[k]
                          && TotalTests(w') == CountActive(w[k].tests))
  {
    var k := FindSuite(w, suite, 0);
    if k < |w| {
      TotalOne(LeaveOnlySpec(w, suite, None).0, k);
    }
  }

  /** A filtered world answers exactly the filter that made it: any other suite or test name fails. */
  lemma FilterIsFinal(w: seq<SuiteState>, suite: string, test: string, suite': string, test': string)
    requires LeaveOnlySpec(w, suite, Some(test)).1
    ensures var w' := LeaveOnlySpec(w, suite, Some(test)).0;
            LeaveOnlySpec(w', suite', Some(test')) == (w', suite' == suite && test' == test)
  {
    LeaveOnlyExact(w, suite, test);
    var w' := LeaveOnlySpec(w, suite, Some(test)).0;
    LeaveOnlyExact(w', suite', test');
    var k := FindSuite(w, suite, 0);
    var m := FindTest(w[k].tests, test, 0);
    assert w'[k].tests[m] == TestState(test, true);
    if suite' == suite && test' == test {
      assert FindSuite(w', suite, 0) == k;
      assert FindTest(w'[k].tests, test, 0) == m;
      assert OnlyTest(w'[k].tests, m) == w'[k].tests;
      assert w'[k := w'[k].(tests := w'[k].tests)] == w';
      assert OnlySuite(w', k) == w';
    }
  }

  // ---------------------------------------------------------------- what the lists show

  ghost function TestStates(s: seq<Link<TestInfo>>): (r: seq<TestState>)
    reads s`active
    ensures |r| == |s| && forall i :: 0 <= i < |s| ==> r[i] == TestState(s[i].item.name, s[i].active)
  {
    if s == [] then []
    else TestStates(s[..|s| - 1]) + [TestState(s[|s| - 1].item.name, s[|s| - 1].active)]
  }

  /** The test lists of these suites. */
  ghost function TestLists(s: seq<Link<SuiteInfo>>): (r: set<List<TestInfo>>)
    ensures forall i :: 0 <= i < |s| ==> s[i].item.tests in r
  {
    set i | 0 <= i < |s| :: s[i].item.tests
  }

  ghost function TestLinks(s: seq<Link<SuiteInfo>>): (r: set<Link<TestInfo>>)
    reads TestLists(s)`elems
    ensures forall i, x :: 0 <= i < |s| && x in s[i].item.tests.elems ==> x in r
  {
    set i, x | 0 <= i < |s| && x in s[i].item.tests.elems :: x
  }

  ghost function SuiteStateOf(x: Link<SuiteInfo>): SuiteState
    reads x`active, x.item.tests`elems, x.item.tests.elems`active
  {
    SuiteState(x.item.name, x.item.dynamic, x.active, TestStates(x.item.tests.elems))
  }

  ghost function SuiteStates(s: seq<Link<SuiteInfo>>): (r: seq<SuiteState>)
    decreases |s|
    reads s`active, TestLists(s)`elems, TestLinks(s)`active
    ensures |r| == |s| && forall i :: 0 <= i < |s| ==> r[i] == SuiteStateOf(s[i])
  {
    if s == [] then [] else SuiteStates(s[..|s| - 1]) + [SuiteStateOf(s[|s| - 1])]
  }

  // ---------------------------------------------------------------- suites

  lemma {:induction false} CountMatches(s: seq<Link<TestInfo>>, n: nat)
    requires n <= |s|
    ensures |ActiveUpTo(s, n)| == CountActive(TestStates(s)[..n])
    decreases n
  {
    if n > 0 {
      assert TestStates(s)[..n][..n - 1] == TestStates(s)[..n - 1];
      CountMatches(s, n - 1);
    }
  }

  method NumTests(tests: List<TestInfo>) returns (n: nat)
    requires tests.Valid()
    ensures n == CountActive(TestStates(tests.elems))
  {
    n := tests.Size();
    CountMatches(tests.elems, |tests.elems|);
    assert TestStates(tests.elems)[..|tests.elems|] == TestStates(tests.elems);
  }

  method SelectTest(tests: List<TestInfo>, td: Link<TestInfo>, ghost k: nat)
    requires tests.Valid() && k < |tests.elems| && tests.elems[k] == td
    modifies tests.elems`active
    ensures TestStates(tests.elems) == OnlyTest(old(TestStates(tests.elems)), k)
  {
    hide TestStates, OnlyTest;
    ghost var was := TestStates(tests.elems);
    tests.LeaveOnly(td);
    forall j | 0 <= j < |was|
      ensures TestStates(tests.elems)[j] == OnlyTest(was, k)[j]
    {
      assert tests.elems[j] == td <==> j == k;
    }
  }

  /** RealSuiteDescription::leaveOnly. */
  method LeaveOnlyTest(tests: List<TestInfo>, testName: string) returns (found: bool)
    requires tests.Valid()
    modifies tests.elems`active
    ensures (TestStates(tests.elems), found) == LeaveTest(old(TestStates(tests.elems)), testName)
  {
    hide FirstActive, TestStates, OnlyTest;
    ghost var was := TestStates(tests.elems);
    var td := tests.Head();
    ghost var k := FirstActive(tests.elems, 0);
    SkipUnnamed(was, testName, 0, k);
    while td != null
      invariant 0 <= k <= |was| && td == tests.At(k) && TestStates(tests.elems) == was
      invariant k < |was| ==> was[k].active
      invariant FindTest(was, testName, k) == FindTest(was, testName, 0)
      decreases |was| - k
    {
      if td.item.name == testName {
        SelectTest(tests, td, k);
        return true;
      }
      td := td.Next(tests, k);
      ghost var k' := FirstActive(tests.elems, k + 1);
      SkipUnnamed(was, testName, k, k');
      k := k';
    }
    found := false;
  }

  lemma {:induction false} SkipUnnamed(tests: seq<TestState>, name: string, i: nat, k: nat)
    requires i <= k <= |tests| && forall j :: i <= j < k ==> tests[j] != TestState(name, true)
    ensures FindTest(tests, name, k) == FindTest(tests, name, i)
    decreases k - i
  {
    if i < k {
      SkipUnnamed(tests, name, i + 1, k);
    }
  }

  ghost predicate Disjoint<T>(a: seq<Link<T>>, b: seq<Link<T>>) {
    forall x :: x in a ==> x !in b
  }

  ghost predicate Apart<T>(parts: seq<seq<Link<T>>>) {
    forall i, j :: 0 <= i < |parts| && 0 <= j < |parts| && i != j ==> Disjoint(parts[i], parts[j])
  }

  /** The test links of each suite. */
  ghost function Parts(s: seq<Link<SuiteInfo>>): (r: seq<seq<Link<TestInfo>>>)
    reads TestLists(s)`elems
    ensures |r| == |s| && forall i :: 0 <= i < |s| ==> r[i] == s[i].item.tests.elems
    decreases |s|
  {
    if s == [] then [] else Parts(s[..|s| - 1]) + [s[|s| - 1].item.tests.elems]
  }

  // ---------------------------------------------------------------- the world

  class RealWorldDescription {
    const suites: List<SuiteInfo>

    constructor (suites: List<SuiteInfo>)
      ensures this.suites == suites
    {
      this.suites := suites;
    }

    /** The lists are well formed, and no test is in the lists of two suites. */
    ghost predicate Valid()
      reads suites, suites.elems`next, suites.elems`prev
      reads TestLists(suites.elems), TestLinks(suites.elems)`next, TestLinks(suites.elems)`prev
    {
      && suites.Valid()
      && (forall i :: 0 <= i < |suites.elems| ==> suites.elems[i].item.tests.Valid())
      && Apart(Parts(suites.elems))
    }

    /** The same, said of the test links of each suite as a value. */
    ghost predicate Holds(parts: seq<seq<Link<TestInfo>>>)
      reads suites, suites.elems`next, suites.elems`prev
      reads TestLists(suites.elems), TestLinks(suites.elems)`next, TestLinks(suites.elems)`prev
    {
      && suites.Valid() && |parts| == |suites.elems| && Apart(parts)
      && forall i :: 0 <= i < |parts| ==> suites.elems[i].item.tests.Valid() && suites.elems[i].item.tests.elems == parts[i]
    }

    ghost function Value(): seq<SuiteState>
      reads suites`elems, suites.elems`active, TestLists(suites.elems)`elems, TestLinks(suites.elems)`active
    {
      SuiteStates(suites.elems)
    }

    method NumTotalTests() returns (count: nat)
      requires Valid()
      ensures count == TotalTests(Value())
    {
      hide FirstActive, CountActive, TestStates, SuiteStates, TestLinks, Apart, Parts, List.Valid, TotalTests;
      count := 0;
      TotalOfNone();
      var sd := suites.Head();
      ghost var w := Value();
      ghost var k := FirstActive(suites.elems, 0);
      SkipInactiveSuites(w, 0, k);
      while sd != null
        invariant 0 <= k <= |w| && sd == suites.At(k) && (k < |w| ==> w[k].active)
        invariant count == TotalTests(w[..k]) && Value() == w
        decreases |w| - k
      {
        var n := NumTests(sd.item.tests);
        count := count + n;
        TotalStep(w, k);
        ghost var k';
        sd, k' := NextSuite(sd, w, k);
        SkipInactiveSuites(w, k + 1, k');
        k := k';
      }
      assert w[..k] == w;
    }

    /** SuiteDescription::next. */
    method NextSuite(sd: Link<SuiteInfo>, ghost w: seq<SuiteState>, ghost k: nat) returns (l: Link?<SuiteInfo>, ghost k': nat)
      requires suites.Valid() && Value() == w && k < |w| && sd == suites.elems[k]
      ensures Value() == w && k < k' <= |w| && l == suites.At(k')
      ensures (k' < |w| ==> w[k'].active) && forall j :: k < j < k' ==> !w[j].active
    {
      hide FirstActive, TestStates, SuiteStates, List.Valid;
      l := sd.Next(suites, k);
      k' := FirstActive(suites.elems, k + 1);
    }

    method ActivateAllTests()
      requires Valid()
      modifies suites.elems`active, TestLinks(suites.elems)`active
      ensures |Value()| == |old(Value())|
      ensures forall i :: 0 <= i < |Value()| ==>
        Value()[i] == old(Value())[i].(active := true, tests := Activated(old(Value())[i].tests))
    {
      hide FirstActive, TestStates, SuiteStates, Activated, List.Valid, Parts, Apart;
      ghost var w, parts := Value(), Parts(suites.elems);
      suites.ActivateAll();
      ActivateSuites(parts, w);
    }

    /** The loop over the suites, all active by now. */
    method ActivateSuites(ghost parts: seq<seq<Link<TestInfo>>>, ghost w: seq<SuiteState>)
      requires suites.Valid() && Apart(parts) && |w| == |parts| == |suites.elems|
      requires forall i :: 0 <= i < |w| ==>
        && suites.elems[i].active && suites.elems[i].item.tests.Valid()
        && suites.elems[i].item.tests.elems == parts[i] && TestStates(parts[i]) == w[i].tests
      modifies TestLinks(suites.elems)`active
      ensures forall i :: 0 <= i < |w| ==> TestStates(parts[i]) == Activated(w[i].tests)
    {
      hide FirstActive, TestStates, SuiteStates, Activated, List.Valid, Parts, Apart, TestLinks, TestLists;
      ghost var es := suites.elems;
      var sd := suites.Head();
      ghost var k := 0;
      while sd != null
        invariant 0 <= k <= |es| && sd == suites.At(k)
        invariant forall i :: 0 <= i < k ==> TestStates(parts[i]) == Activated(w[i].tests)
        invariant forall i :: k <= i < |es| ==> TestStates(parts[i]) == w[i].tests
        decreases |es| - k
      {
        ActivateSuite(sd, parts, k);
        sd := sd.Next(suites, k);
        k := k + 1;
      }
    }

    /** RealWorldDescription::leaveOnly; no test name stands for the null pointer. */
    method LeaveOnly(suiteName: string, testName: Option<string>) returns (found: bool)
      requires Valid()
      modifies suites.elems`active, TestLinks(suites.elems)`active
      ensures (Value(), found) == LeaveOnlySpec(old(Value()), suiteName, testName)
    {
      hide TestStates, SuiteStates, List.Valid, Parts, Apart, LeaveTest, OnlySuite, FindSuite;
      ghost var parts := Parts(suites.elems);
      var sd, k := FindActiveSuite(suiteName);
      if sd == null {
        return false;
      }
      found := SelectSuite(sd, testName, parts, k);
    }

    /** The search of leaveOnly's loop: the first active suite with this name. */
    method FindActiveSuite(suiteName: string) returns (sd: Link?<SuiteInfo>, ghost k: nat)
      requires suites.Valid()
      ensures Value() == old(Value()) && k == FindSuite(Value(), suiteName, 0) && sd == suites.At(k)
    {
      hide FirstActive, TestStates, SuiteStates, List.Valid, FindSuite;
      ghost var w := Value();
      sd := suites.Head();
      k := FirstActive(suites.elems, 0);
      SkipOtherSuites(w, suiteName, 0, k);
      while sd != null && sd.item.name != suiteName
        invariant 0 <= k <= |w| && sd == suites.At(k) && Value() == w && (k < |w| ==> w[k].active)
        invariant FindSuite(w, suiteName, k) == FindSuite(w, suiteName, 0)
        decreases |w| - k
      {
        ghost var k';
        sd, k' := NextSuite(sd, w, k);
        SkipOtherSuites(w, suiteName, k, k');
        k := k';
      }
      FoundHere(w, suiteName, k);
    }

    /** The body of the loop for the suite that has the name. */
    method SelectSuite(sd: Link<SuiteInfo>, testName: Option<string>, ghost parts: seq<seq<Link<TestInfo>>>, ghost k: nat)
      returns (found: bool)
      requires Holds(parts) && k < |parts| && suites.elems[k] == sd
      modifies suites.elems`active, TestLinks(suites.elems)`active
      ensures var w := old(Value());
              if testName.None? then found && Value() == OnlySuite(w, k)
              else var (tests, ok) := LeaveTest(w[k].tests, testName.value);
                   found == ok && Value() == if ok then OnlySuite(w[k := w[k].(tests := tests)], k) else w
    {
      hide FirstActive, TestStates, SuiteStates, List.Valid, Parts, Apart, LeaveTest, OnlySuite;
      ghost var w := Value();
      if testName.Some? {
        found := LeaveOnlyTestOf(sd, testName.value, parts, k);
        if !found {
          FailedLeave(w[k].tests, testName.value);
          assert forall i :: 0 <= i < |w| ==> Value()[i] == w[i];
          return;
        }
      }
      ghost var w1 := Value();
      assert w1 == if testName.None? then w else w[k := w[k].(tests := LeaveTest(w[k].tests, testName.value).0)];
      OnlyThisSuite(sd, k);
      found := true;
    }

    method OnlyThisSuite(sd: Link<SuiteInfo>, ghost k: nat)
      requires suites.Valid() && k < |suites.elems| && suites.elems[k] == sd
      modifies suites.elems`active
      ensures Value() == OnlySuite(old(Value()), k)
    {
      hide TestStates, SuiteStates, OnlySuite;
      ghost var w := Value();
      suites.LeaveOnly(sd);
      forall i | 0 <= i < |w| ensures Value()[i] == OnlySuite(w, k)[i] {
        assert suites.elems[i] == sd <==> i == k;
        assert TestStates(suites.elems[i].item.tests.elems) == w[i].tests;
      }
    }
  }

  /** RealSuiteDescription::activateAllTests of one suite; the tests of the others are not touched. */
  method ActivateSuite(sd: Link<SuiteInfo>, ghost parts: seq<seq<Link<TestInfo>>>, ghost k: nat)
    requires sd.item.tests.Valid() && k < |parts| && parts[k] == sd.item.tests.elems && Apart(parts)
    modifies parts[k]`active
    ensures TestStates(parts[k]) == Activated(old(TestStates(parts[k])))
    ensures forall i :: 0 <= i < |parts| && i != k ==> TestStates(parts[i]) == old(TestStates(parts[i]))
  {
    hide TestStates, List.Valid, Disjoint;
    sd.item.tests.ActivateAll();
    forall i | 0 <= i < |parts| && i != k
      ensures TestStates(parts[i]) == old(TestStates(parts[i]))
    {
      DisjointMeans(parts[i], parts[k]);
      assert forall x :: x in parts[i] ==> x.active == old(x.active);
      assert forall j :: 0 <= j < |parts[i]| ==> TestStates(parts[i])[j] == old(TestStates(parts[i])[j]);
    }
  }

  lemma FailedLeave(tests: seq<TestState>, name: string)
    ensures !LeaveTest(tests, name).1 ==> LeaveTest(tests, name).0 == tests
  {
  }

  /** RealSuiteDescription::leaveOnly of one suite; the tests of the others are not touched. */
  method LeaveOnlyTestOf(sd: Link<SuiteInfo>, testName: string, ghost parts: seq<seq<Link<TestInfo>>>, ghost k: nat)
    returns (found: bool)
    requires sd.item.tests.Valid() && k < |parts| && parts[k] == sd.item.tests.elems && Apart(parts)
    modifies parts[k]`active
    ensures (TestStates(parts[k]), found) == LeaveTest(old(TestStates(parts[k])), testName)
    ensures forall i :: 0 <= i < |parts| && i != k ==> TestStates(parts[i]) == old(TestStates(parts[i]))
  {
    hide TestStates, List.Valid, Disjoint, LeaveTest;
    found := LeaveOnlyTest(sd.item.tests, testName);
    forall i | 0 <= i < |parts| && i != k
      ensures TestStates(parts[i]) == old(TestStates(parts[i]))
    {
      DisjointMeans(parts[i], parts[k]);
      assert forall x :: x in parts[i] ==> x.active == old(x.active);
      assert forall j :: 0 <= j < |parts[i]| ==> TestStates(parts[i])[j] == old(TestStates(parts[i])[j]);
    }
  }

  lemma FoundHere(w: seq<SuiteState>, name: string, k: nat)
    requires k <= |w| && (k < |w| ==> w[k].active && w[k].name == name)
    ensures FindSuite(w, name, k) == k
  {
  }

  lemma {:induction false} SkipOtherSuites(w: seq<SuiteState>, name: string, i: nat, k: nat)
    requires i <= k <= |w| && forall j :: i <= j < k ==> !(w[j].active && w[j].name == name)
    ensures FindSuite(w, name, k) == FindSuite(w, name, i)
    decreases k - i
  {
    if i < k {
      SkipOtherSuites(w, name, i + 1, k);
    }
  }

  lemma DisjointMeans<T>(a: seq<Link<T>>, b: seq<Link<T>>)
    requires Disjoint(a, b)
    ensures forall x :: x in a ==> x !in b
  {
  }

  lemma TotalOfNone()
    ensures TotalTests([]) == 0
  {
  }

  lemma TotalStep(w: seq<SuiteState>, k: nat)
    requires k < |w| && w[k].active
    ensures TotalTests(w[..k + 1]) == TotalTests(w[..k]) + CountActive(w[k].tests)
  {
    assert w[..k + 1][..k] == w[..k];
  }

  lemma {:induction false} SkipInactiveSuites(w: seq<SuiteState>, i: nat, k: nat)
    requires i <= k <= |w| && forall j :: i <= j < k ==> !w[j].active
    ensures TotalTests(w[..k]) == TotalTests(w[..i])
    decreases k - i
  {
    hide CountActive;
    if i < k {
      SkipInactiveSuites(w, i, k - 1);
      assert w[..k][..k - 1] == w[..k - 1];
    }
  }
}
