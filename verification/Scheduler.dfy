/**
 Sharding the JS test suite over CI nodes: greedy packing up to a target duration, a round robin for
 what is left, and plain slicing when there are no timings.  Durations are exact reals; the sort's
 comparator is not a consistent order, so any permutation of the tests is allowed.
 */
module Scheduler {
  import opened Wrappers

  datatype Test = Test(name: string, ms: real)

  datatype Failure = SuiteNotPositive | TestNotPositive | TestsMissing | NoSuchGroup | NoTestsForNode

  const P50: real := 1500.0
  const LONG: real := 30_000.0
  const WHEEL := 4

  function Sum(ts: seq<Test>): real {
    if ts == [] then 0.0 else Sum(ts[..|ts| - 1]) + ts[|ts| - 1].ms
  }

  predicate HasName(ts: seq<Test>, n: string) {
    exists i :: 0 <= i < |ts| && ts[i].name == n
  }

  predicate Distinct(ts: seq<Test>) {
    forall i, j :: 0 <= i < j < |ts| ==> ts[i].name != ts[j].name
  }

  predicate Positive(ts: seq<Test>) {
    forall i :: 0 <= i < |ts| ==> ts[i].ms > 0.0
  }

  // ----- which tests there are

  /** Every listed test without a timing gets the default one. */
  function WithDefaults(stats: seq<Test>, listed: seq<string>): seq<Test> {
    if listed == [] then stats
    else
      var ts := WithDefaults(stats, listed[..|listed| - 1]);
      var n := listed[|listed| - 1];
      if HasName(ts, n) then ts else ts + [Test(n, P50)]
  }

  lemma {:induction false} DefaultsExtend(stats: seq<Test>, listed: seq<string>)
    requires Distinct(stats) && Positive(stats)
    ensures var ts := WithDefaults(stats, listed);
            && Distinct(ts) && Positive(ts)
            && stats <= ts
            && (forall i :: |stats| <= i < |ts| ==> ts[i].ms == P50 && ts[i].name in listed && !HasName(stats, ts[i].name))
            && Sum(ts) == Sum(stats) + P50 * (|ts| - |stats|) as real
  {
    if listed != [] {
      var n := listed[|listed| - 1];
      DefaultsExtend(stats, listed[..|listed| - 1]);
      var ts := WithDefaults(stats, listed[..|listed| - 1]);
      assert (ts + [Test(n, P50)])[..|ts|] == ts;
    }
  }

  function Names(ts: seq<Test>): set<string> {
    set i | 0 <= i < |ts| :: ts[i].name
  }

  lemma {:induction false} NamesAreFew(ts: seq<Test>)
    ensures |Names(ts)| <= |ts|
  {
    if ts != [] {
      var front, last := ts[..|ts| - 1], ts[|ts| - 1];
      NamesAreFew(front);
      assert Names(ts) == Names(front) + {last.name};
    }
  }

  lemma {:induction false} DistinctAreMany(listed: seq<string>)
    requires forall i, j :: 0 <= i < j < |listed| ==> listed[i] != listed[j]
    ensures |set n | n in listed| == |listed|
  {
    if listed != [] {
      var front, last := listed[..|listed| - 1], listed[|listed| - 1];
      DistinctAreMany(front);
      assert listed == front + [last] && last !in front;
      assert (set n | n in listed) == (set n | n in front) + {last};
    }
  }

  lemma {:induction false} DefaultsCover(stats: seq<Test>, listed: seq<string>, n: string)
    requires n in listed
    ensures HasName(WithDefaults(stats, listed), n)
  {
    var front, m := listed[..|listed| - 1], listed[|listed| - 1];
    var ts := WithDefaults(stats, front);
    if n in front {
      DefaultsCover(stats, front, n);
      var i :| 0 <= i < |ts| && ts[i].name == n;
      assert WithDefaults(stats, listed)[i].name == n;
    } else if !HasName(ts, m) {
      assert WithDefaults(stats, listed)[|ts|].name == n;
    }
  }

  lemma Subset(a: set<string>, b: set<string>)
    requires a <= b
    ensures |a| <= |b|
  {
    assert b == a + (b - a);
  }

  /** The check for missing tests never fires on a list without duplicates. */
  lemma NothingIsMissing(stats: seq<Test>, listed: seq<string>)
    requires forall i, j :: 0 <= i < j < |listed| ==> listed[i] != listed[j]
    ensures |WithDefaults(stats, listed)| >= |listed|
  {
    var ts := WithDefaults(stats, listed);
    forall n | n in listed
      ensures n in Names(ts)
    {
      DefaultsCover(stats, listed, n);
    }
    DistinctAreMany(listed);
    NamesAreFew(ts);
    Subset((set n | n in listed), Names(ts));
  }

  // ----- greedy packing

  /** How many tests one group pops: until it reaches the target, the stack is empty, or a long test
      would overshoot. */
  function Fill(stack: seq<Test>, target: real, duration: real): (k: nat)
    ensures k <= |stack|
  {
    if duration < target && stack != [] then
      var peek := stack[|stack| - 1];
      if duration + peek.ms > target && peek.ms > LONG then 0
      else 1 + Fill(stack[..|stack| - 1], target, duration + peek.ms)
    else 0
  }

  function Popped(stack: seq<Test>, k: nat): (r: seq<Test>)
    requires k <= |stack|
    ensures |r| == k
  {
    seq(k, i requires 0 <= i < k => stack[|stack| - 1 - i])
  }

  /** One more group off the stack. */
  function PackNext(packed: (seq<seq<Test>>, seq<Test>), target: real): (r: (seq<seq<Test>>, seq<Test>))
    ensures |r.0| == |packed.0| + 1
  {
    var k := Fill(packed.1, target, 0.0);
    (packed.0 + [Popped(packed.1, k)], packed.1[..|packed.1| - k])
  }

  function Pack(stack: seq<Test>, target: real, n: nat): (r: (seq<seq<Test>>, seq<Test>))
    ensures |r.0| == n
    decreases n
  {
    if n == 0 then ([], stack) else PackNext(Pack(stack, target, n - 1), target)
  }

  /** `groups[i % 4].push(...)` for everything left; None when that group does not exist. */
  function Deal(groups: seq<seq<Test>>, stack: seq<Test>, i: nat): Option<seq<seq<Test>>>
    decreases |stack|
  {
    if stack == [] then Some(groups)
    else if i % WHEEL >= |groups| then None
    else Deal(groups[i % WHEEL := groups[i % WHEEL] + [stack[|stack| - 1]]], stack[..|stack| - 1], i + 1)
  }

  function Target(stats: seq<Test>, nodeTotal: nat): real {
    if nodeTotal == 0 then 0.0 else Sum(stats) / nodeTotal as real
  }

  /** The groups of all nodes; every node computes the same ones. */
  function Schedule(stats: seq<Test>, sorted: seq<Test>, nodeTotal: nat): Option<seq<seq<Test>>> {
    var (groups, rest) := Pack(sorted, Target(stats, nodeTotal), nodeTotal);
    Deal(groups, rest, 0)
  }

  // ----- the code

  method FillGroup(stack: seq<Test>, target: real) returns (group: seq<Test>, rest: seq<Test>)
    ensures var k := Fill(stack, target, 0.0); group == Popped(stack, k) && rest == stack[..|stack| - k]
  {
    group, rest := [], stack;
    var duration := 0.0;
    while duration < target && rest != []
      invariant |group| + |rest| == |stack| && rest == stack[..|rest|] && group == Popped(stack, |group|)
      invariant |group| + Fill(rest, target, duration) == Fill(stack, target, 0.0)
      decreases |rest|
    {
      var peek := rest[|rest| - 1];
      if duration + peek.ms > target && peek.ms > LONG {
        break;
      }
      rest := rest[..|rest| - 1];
      group := group + [peek];
      duration := duration + peek.ms;
    }
  }

  method PackAll(sorted: seq<Test>, target: real, nodeTotal: nat) returns (groups: seq<seq<Test>>, stack: seq<Test>)
    ensures (groups, stack) == Pack(sorted, target, nodeTotal)
  {
    groups, stack := [], sorted;
    for g := 0 to nodeTotal
      invariant (groups, stack) == Pack(sorted, target, g)
    {
      var group;
      group, stack := FillGroup(stack, target);
      groups := groups + [group];
    }
  }

  method DealRest(packed: seq<seq<Test>>, left: seq<Test>) returns (r: Option<seq<seq<Test>>>)
    ensures r == Deal(packed, left, 0)
  {
    var groups, stack, i := packed, left, 0;
    while stack != []
      invariant Deal(groups, stack, i) == Deal(packed, left, 0)
      decreases |stack|
    {
      if i % WHEEL >= |groups| {
        return None;
      }
      groups := groups[i % WHEEL := groups[i % WHEEL] + [stack[|stack| - 1]]];
      stack := stack[..|stack| - 1];
      i := i + 1;
    }
    return Some(groups);
  }

  function Paths(group: seq<Test>): (r: seq<string>)
    ensures |r| == |group| && forall i :: 0 <= i < |r| ==> r[i] == "<rootDir>/" + group[i].name
  {
    seq(|group|, i requires 0 <= i < |group| => "<rootDir>/" + group[i].name)
  }

  /** `getTestsForGroup`, with the outcome of the sort as a parameter. */
  method GetTestsForGroup(nodeIndex: nat, nodeTotal: nat, allTests: seq<string>, stats: seq<Test>, sorted: seq<Test>)
    returns (r: Result<seq<string>, Failure>)
    requires Distinct(stats)
    requires multiset(sorted) == multiset(WithDefaults(stats, allTests))
    ensures r == (
      if Sum(stats) <= 0.0 then Err(SuiteNotPositive)
      else if !Positive(stats) then Err(TestNotPositive)
      else if |WithDefaults(stats, allTests)| < |allTests| then Err(TestsMissing)
      else match Schedule(stats, sorted, nodeTotal)
           case None => Err(NoSuchGroup)
           case Some(groups) => if nodeIndex < |groups| then Ok(Paths(groups[nodeIndex])) else Err(NoTestsForNode))
  {
    var suite := 0.0;
    for i := 0 to |stats|
      invariant suite == Sum(stats[..i])
    {
      assert stats[..i + 1][..i] == stats[..i];
      suite := suite + stats[i].ms;
    }
    assert stats[..|stats|] == stats;
    if suite <= 0.0 {
      return Err(SuiteNotPositive);
    }
    for i := 0 to |stats|
      invariant Positive(stats[..i])
    {
      if stats[i].ms <= 0.0 {
        return Err(TestNotPositive);
      }
    }
    var tests := stats;
    for i := 0 to |allTests|
      invariant tests == WithDefaults(stats, allTests[..i])
    {
      assert allTests[..i + 1][..i] == allTests[..i];
      if !HasName(tests, allTests[i]) {
        tests := tests + [Test(allTests[i], P50)];
      }
    }
    assert allTests[..|allTests|] == allTests;
    if |tests| < |allTests| {
      return Err(TestsMissing);
    }
    var groups, stack := PackAll(sorted, Target(stats, nodeTotal), nodeTotal);
    var dealt := DealRest(groups, stack);
    if dealt == None {
      return Err(NoSuchGroup);
    }
    groups := dealt.value;
    if nodeIndex >= |groups| {
      return Err(NoTestsForNode);
    }
    return Ok(Paths(groups[nodeIndex]));
  }
}
