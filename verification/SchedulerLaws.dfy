/** What the schedules of `Scheduler` guarantee across all nodes. */
module SchedulerLaws {
  import opened Wrappers
  import opened Scheduler

  // ----- sums do not depend on order

  lemma {:induction false} SumOfConcat(a: seq<Test>, b: seq<Test>)
    ensures Sum(a + b) == Sum(a) + Sum(b)
  {
    if b == [] {
      assert a + b == a;
    } else {
      SumOfConcat(a, b[..|b| - 1]);
      assert (a + b)[..|a + b| - 1] == a + b[..|b| - 1];
    }
  }

  lemma TakeOut(ts: seq<Test>, i: nat)
    requires i < |ts|
    ensures var rest := ts[..i] + ts[i + 1..];
            Sum(ts) == Sum(rest) + ts[i].ms && multiset(ts) == multiset(rest) + multiset{ts[i]}
  {
    var head, tail := ts[..i], ts[i + 1..];
    assert ts == (head + [ts[i]]) + tail;
    SumOfConcat(head + [ts[i]], tail);
    SumOfConcat(head, tail);
    assert (head + [ts[i]])[..i] == head;
  }

  lemma {:induction false} SumOfPermutation(a: seq<Test>, b: seq<Test>)
    requires multiset(a) == multiset(b)
    ensures Sum(a) == Sum(b)
    decreases |a|
  {
    if a == [] {
      assert |multiset(b)| == 0;
    } else {
      var n := |a| - 1;
      assert a[n] in multiset(b);
      var i :| 0 <= i < |b| && b[i] == a[n];
      TakeOut(a, n);
      TakeOut(b, i);
      assert a[..n] + a[n + 1..] == a[..n];
      var rest := b[..i] + b[i + 1..];
      assert multiset(a[..n]) == multiset(a) - multiset{a[n]} == multiset(b) - multiset{b[i]} == multiset(rest);
      SumOfPermutation(a[..n], rest);
    }
  }

  // ----- load

  function Load(groups: seq<seq<Test>>): real {
    if groups == [] then 0.0 else Load(groups[..|groups| - 1]) + Sum(groups[|groups| - 1])
  }

  lemma PoppedFirst(stack: seq<Test>, k: nat)
    requires 0 < k <= |stack|
    ensures Sum(Popped(stack, k)) == stack[|stack| - 1].ms + Sum(Popped(stack[..|stack| - 1], k - 1))
  {
    var peek, tail := stack[|stack| - 1], Popped(stack[..|stack| - 1], k - 1);
    assert Popped(stack, k) == [peek] + tail;
    SumOfConcat([peek], tail);
    assert Sum([peek]) == Sum([peek][..0]) + peek.ms;
  }

  /** One group: it stays below target plus 30 s, and stops short of the target only when the stack is
      empty or a test longer than 30 s is next. */
  lemma {:induction false} FillBounds(stack: seq<Test>, target: real, duration: real)
    requires duration < target + LONG
    ensures var k := Fill(stack, target, duration);
            && duration + Sum(Popped(stack, k)) < target + LONG
            && (duration + Sum(Popped(stack, k)) >= target || k == |stack| || stack[|stack| - 1 - k].ms > LONG)
            && Sum(stack) == Sum(Popped(stack, k)) + Sum(stack[..|stack| - k])
    decreases |stack|
  {
    var k := Fill(stack, target, duration);
    if k == 0 {
      assert Popped(stack, 0) == [] && stack[..|stack|] == stack;
    } else {
      var peek, rest := stack[|stack| - 1], stack[..|stack| - 1];
      FillBounds(rest, target, duration + peek.ms);
      PoppedFirst(stack, k);
      assert rest[..|rest| - (k - 1)] == stack[..|stack| - k];
    }
  }

  /** The next group: it is not overloaded, and no time is lost. */
  /** The group is closed after `k` tests: nothing is left, the target is reached, or a test over 30 s
      would overshoot it. */
  predicate Closes(stack: seq<Test>, target: real, duration: real, k: nat)
    requires k <= |stack|
  {
    var time := duration + Sum(Popped(stack, k));
    || time >= target
    || k == |stack|
    || (time + stack[|stack| - 1 - k].ms > target && stack[|stack| - 1 - k].ms > 30_000.0)
  }

  lemma {:induction false} FillCloses(stack: seq<Test>, target: real, duration: real)
    ensures Closes(stack, target, duration, Fill(stack, target, duration))
    decreases |stack|
  {
    var k := Fill(stack, target, duration);
    if k > 0 {
      FillCloses(stack[..|stack| - 1], target, duration + stack[|stack| - 1].ms);
      PoppedFirst(stack, k);
    }
  }

  lemma {:induction false} FillGoesOn(stack: seq<Test>, target: real, duration: real, j: nat)
    requires j < Fill(stack, target, duration)
    ensures !Closes(stack, target, duration, j)
    decreases j
  {
    if j > 0 {
      FillGoesOn(stack[..|stack| - 1], target, duration + stack[|stack| - 1].ms, j - 1);
      PoppedFirst(stack, j);
    }
  }

  /** A group takes tests until it first closes. */
  lemma {:induction false} FillStopsExactlyWhen(stack: seq<Test>, target: real, duration: real, k: nat)
    requires k <= |stack|
    ensures k == Fill(stack, target, duration) <==>
            Closes(stack, target, duration, k) && forall j :: 0 <= j < k ==> !Closes(stack, target, duration, j)
  {
    FillCloses(stack, target, duration);
    forall j | 0 <= j < Fill(stack, target, duration)
      ensures !Closes(stack, target, duration, j)
    {
      FillGoesOn(stack, target, duration, j);
    }
  }

  lemma NextGroupBounds(packed: (seq<seq<Test>>, seq<Test>), target: real)
    requires target > 0.0
    ensures var next, n := PackNext(packed, target), |packed.0|;
            && next.0[..n] == packed.0
            && Sum(next.0[n]) < target + LONG
            && Sum(packed.1) == Sum(next.0[n]) + Sum(next.1)
            && next.1 <= packed.1
            && (Sum(next.0[n]) >= target || next.1 == [] || next.1[|next.1| - 1].ms > LONG)
  {
    FillBounds(packed.1, target, 0.0);
  }

  lemma {:induction false} NoGroupOverloaded(stack: seq<Test>, target: real, n: nat, g: nat)
    requires target > 0.0 && g < n
    ensures Sum(Pack(stack, target, n).0[g]) < target + LONG
    decreases n
  {
    var packed := Pack(stack, target, n - 1);
    NextGroupBounds(packed, target);
    if g < n - 1 {
      NoGroupOverloaded(stack, target, n - 1, g);
      assert PackNext(packed, target).0[..n - 1][g] == PackNext(packed, target).0[g];
    }
  }

  function Share(n: nat, target: real): real {
    n as real * target
  }

  lemma OneMoreShare(n: nat, target: real)
    ensures Share(n + 1, target) == Share(n, target) + target
  {}

  predicate NoneLong(ts: seq<Test>) {
    forall i :: 0 <= i < |ts| ==> ts[i].ms <= LONG
  }

  /** What the greedy phase keeps from group to group: time is conserved, and if tests are left although
      none is longer than 30 s, every group reached the target. */
  predicate Balanced(stack: seq<Test>, target: real, groups: seq<seq<Test>>, rest: seq<Test>) {
    && Sum(stack) == Load(groups) + Sum(rest)
    && rest <= stack
    && (rest != [] && NoneLong(stack) ==> Load(groups) >= Share(|groups|, target))
  }

  lemma NextGroupIsBalanced(stack: seq<Test>, target: real, packed: (seq<seq<Test>>, seq<Test>))
    requires target > 0.0 && Balanced(stack, target, packed.0, packed.1)
    ensures Balanced(stack, target, PackNext(packed, target).0, PackNext(packed, target).1)
  {
    var next, n := PackNext(packed, target), |packed.0|;
    NextGroupBounds(packed, target);
    OneMoreShare(n, target);
    assert Load(next.0) == Load(packed.0) + Sum(next.0[n]);
  }

  lemma {:induction false} PackBounds(stack: seq<Test>, target: real, n: nat)
    requires target > 0.0
    ensures Balanced(stack, target, Pack(stack, target, n).0, Pack(stack, target, n).1)
    decreases n
  {
    if n == 0 {
      assert Share(0, target) == 0.0;
    } else {
      PackBounds(stack, target, n - 1);
      NextGroupIsBalanced(stack, target, Pack(stack, target, n - 1));
    }
  }

  lemma TargetTimesNodes(stats: seq<Test>, nodeTotal: nat)
    requires Sum(stats) > 0.0 && nodeTotal > 0
    ensures Target(stats, nodeTotal) > 0.0 && Share(nodeTotal, Target(stats, nodeTotal)) == Sum(stats)
  {}

  lemma {:induction false} PositiveSum(ts: seq<Test>)
    requires Positive(ts)
    ensures Sum(ts) >= 0.0 && (ts != [] ==> Sum(ts) > 0.0)
  {
    if ts != [] {
      PositiveSum(ts[..|ts| - 1]);
    }
  }

  lemma PermutedProperties(a: seq<Test>, b: seq<Test>)
    requires multiset(a) == multiset(b)
    ensures Positive(b) ==> Positive(a)
  {
    forall i | 0 <= i < |a| && Positive(b)
      ensures a[i].ms > 0.0
    {
      assert a[i] in multiset(b);
    }
  }

  /** Over exact arithmetic every group leaves the greedy phase below target plus 30 s. */
  lemma GreedyLoadBound(stats: seq<Test>, sorted: seq<Test>, nodeTotal: nat, g: nat)
    requires Sum(stats) > 0.0 && g < nodeTotal
    ensures Sum(Pack(sorted, Target(stats, nodeTotal), nodeTotal).0[g]) < Target(stats, nodeTotal) + LONG
  {
    TargetTimesNodes(stats, nodeTotal);
    NoGroupOverloaded(sorted, Target(stats, nodeTotal), nodeTotal, g);
  }

  /** With no test over 30 s, what the greedy phase leaves over is at most 1.5 s per test without a
      timing. */
  lemma LeftoverBound(stats: seq<Test>, listed: seq<string>, sorted: seq<Test>, nodeTotal: nat)
    requires Distinct(stats) && Positive(stats) && Sum(stats) > 0.0 && nodeTotal > 0
    requires multiset(sorted) == multiset(WithDefaults(stats, listed))
    requires NoneLong(sorted)
    ensures Sum(Pack(sorted, Target(stats, nodeTotal), nodeTotal).1) <= P50 * (|WithDefaults(stats, listed)| - |stats|) as real
  {
    TargetTimesNodes(stats, nodeTotal);
    PackBounds(sorted, Target(stats, nodeTotal), nodeTotal);
    DefaultsExtend(stats, listed);
    SumOfPermutation(sorted, WithDefaults(stats, listed));
  }

  /** When every listed test has a timing and none is over 30 s, the greedy phase places everything, so
      the round robin never runs and no number of nodes is too small. */
  lemma NothingLeftOver(stats: seq<Test>, listed: seq<string>, sorted: seq<Test>, nodeTotal: nat)
    requires Distinct(stats) && Positive(stats) && Sum(stats) > 0.0 && nodeTotal > 0
    requires multiset(sorted) == multiset(WithDefaults(stats, listed))
    requires |WithDefaults(stats, listed)| == |stats|
    requires NoneLong(sorted)
    ensures var (groups, rest) := Pack(sorted, Target(stats, nodeTotal), nodeTotal);
            rest == [] && Schedule(stats, sorted, nodeTotal) == Some(groups)
  {
    LeftoverBound(stats, listed, sorted, nodeTotal);
    DefaultsExtend(stats, listed);
    PermutedProperties(sorted, WithDefaults(stats, listed));
    TargetTimesNodes(stats, nodeTotal);
    PackBounds(sorted, Target(stats, nodeTotal), nodeTotal);
    PositiveSum(Pack(sorted, Target(stats, nodeTotal), nodeTotal).1);
  }

  // ----- conservation

  function Flatten(groups: seq<seq<Test>>): seq<Test> {
    if groups == [] then [] else Flatten(groups[..|groups| - 1]) + groups[|groups| - 1]
  }

  lemma {:induction false} PoppedIsTail(stack: seq<Test>, k: nat)
    requires k <= |stack|
    ensures multiset(stack) == multiset(Popped(stack, k)) + multiset(stack[..|stack| - k])
  {
    if k == 0 {
      assert stack[..|stack|] == stack && Popped(stack, 0) == [];
    } else {
      PoppedIsTail(stack, k - 1);
      assert Popped(stack, k) == Popped(stack, k - 1) + [stack[|stack| - k]];
      assert stack[..|stack| - (k - 1)] == stack[..|stack| - k] + [stack[|stack| - k]];
    }
  }

  lemma FlattenLast(groups: seq<seq<Test>>, group: seq<Test>)
    ensures Flatten(groups + [group]) == Flatten(groups) + group
  {
    assert (groups + [group])[..|groups|] == groups;
  }

  predicate Accounts(all: seq<Test>, packed: (seq<seq<Test>>, seq<Test>)) {
    multiset(all) == multiset(Flatten(packed.0)) + multiset(packed.1)
  }

  lemma NextGroupConserves(all: seq<Test>, packed: (seq<seq<Test>>, seq<Test>), target: real)
    requires Accounts(all, packed)
    ensures Accounts(all, PackNext(packed, target))
  {
    var k := Fill(packed.1, target, 0.0);
    PoppedIsTail(packed.1, k);
    FlattenLast(packed.0, Popped(packed.1, k));
  }

  lemma {:induction false} PackConserves(stack: seq<Test>, target: real, n: nat)
    ensures Accounts(stack, Pack(stack, target, n))
    decreases n
  {
    if n > 0 {
      PackConserves(stack, target, n - 1);
      NextGroupConserves(stack, Pack(stack, target, n - 1), target);
    } else {
      assert multiset(Flatten([])) == multiset{};
    }
  }

  function Reversed(ts: seq<Test>): seq<Test> {
    if ts == [] then [] else [ts[|ts| - 1]] + Reversed(ts[..|ts| - 1])
  }

  lemma {:induction false} PoppedReverses(stack: seq<Test>, k: nat)
    requires k <= |stack|
    ensures Popped(stack, k) + Reversed(stack[..|stack| - k]) == Reversed(stack)
  {
    if k == 0 {
      assert Popped(stack, 0) == [] && stack[..|stack|] == stack;
    } else {
      var last, rest := stack[|stack| - 1], stack[..|stack| - 1];
      PoppedReverses(rest, k - 1);
      assert Popped(stack, k) == [last] + Popped(rest, k - 1);
      assert rest[..|rest| - (k - 1)] == stack[..|stack| - k];
    }
  }

  lemma Splice(front: seq<Test>, group: seq<Test>, rest: seq<Test>, front': seq<Test>, tail: seq<Test>)
    requires front' == front + group && group + rest == tail
    ensures front' + rest == front + tail
  {}

  lemma NextGroupKeepsOrder(groups: seq<seq<Test>>, rest: seq<Test>, k: nat)
    requires k <= |rest|
    ensures Flatten(groups + [Popped(rest, k)]) + Reversed(rest[..|rest| - k]) == Flatten(groups) + Reversed(rest)
  {
    var group, left := Popped(rest, k), rest[..|rest| - k];
    PoppedReverses(rest, k);
    FlattenLast(groups, group);
    Splice(Flatten(groups), group, Reversed(left), Flatten(groups + [group]), Reversed(rest));
  }

  /** The groups one after the other, then what is left, are the stack from its top to its bottom. */
  predicate InOrder(stack: seq<Test>, packed: (seq<seq<Test>>, seq<Test>)) {
    Flatten(packed.0) + Reversed(packed.1) == Reversed(stack)
  }

  lemma NextGroupStaysInOrder(stack: seq<Test>, packed: (seq<seq<Test>>, seq<Test>), target: real)
    requires InOrder(stack, packed)
    ensures InOrder(stack, PackNext(packed, target))
  {
    NextGroupKeepsOrder(packed.0, packed.1, Fill(packed.1, target, 0.0));
  }

  /** The greedy phase keeps the order of the sorted tests, so neighbouring files share a node. */
  lemma {:induction false} PackKeepsOrder(stack: seq<Test>, target: real, n: nat)
    ensures InOrder(stack, Pack(stack, target, n))
    decreases n
  {
    if n == 0 {
      assert Flatten([]) + Reversed(stack) == Reversed(stack);
    } else {
      PackKeepsOrder(stack, target, n - 1);
      NextGroupStaysInOrder(stack, Pack(stack, target, n - 1), target);
    }
  }

  lemma {:induction false} FlattenAppend(groups: seq<seq<Test>>, g: nat, t: Test)
    requires g < |groups|
    ensures multiset(Flatten(groups[g := groups[g] + [t]])) == multiset(Flatten(groups)) + multiset{t}
  {
    var changed := groups[g := groups[g] + [t]];
    var m := |groups| - 1;
    if g == m {
      assert changed[..m] == groups[..m];
    } else {
      FlattenAppend(groups[..m], g, t);
      assert changed[..m] == groups[..m][g := groups[g] + [t]];
    }
  }

  lemma LastOut(stack: seq<Test>)
    requires stack != []
    ensures multiset(stack) == multiset{stack[|stack| - 1]} + multiset(stack[..|stack| - 1])
  {
    assert stack == stack[..|stack| - 1] + [stack[|stack| - 1]];
  }

  lemma {:induction false} DealConserves(groups: seq<seq<Test>>, stack: seq<Test>, i: nat)
    requires Deal(groups, stack, i).Some?
    ensures var dealt := Deal(groups, stack, i).value;
            |dealt| == |groups| && multiset(Flatten(dealt)) == multiset(Flatten(groups)) + multiset(stack)
    decreases |stack|
  {
    if stack != [] {
      var g, t := i % WHEEL, stack[|stack| - 1];
      FlattenAppend(groups, g, t);
      DealConserves(groups[g := groups[g] + [t]], stack[..|stack| - 1], i + 1);
      LastOut(stack);
    }
  }

  lemma {:induction false} WheelNeverBreaks(groups: seq<seq<Test>>, stack: seq<Test>, i: nat)
    requires |groups| >= WHEEL
    ensures Deal(groups, stack, i).Some?
    decreases |stack|
  {
    if stack != [] {
      WheelNeverBreaks(groups[i % WHEEL := groups[i % WHEEL] + [stack[|stack| - 1]]], stack[..|stack| - 1], i + 1);
    }
  }

  /** The wheel is hard-coded to four groups: it breaks exactly when there are fewer groups than tests
      left over, up to four. */
  lemma {:induction false} DealFails(groups: seq<seq<Test>>, stack: seq<Test>, i: nat)
    requires i <= |groups| && i < WHEEL
    ensures Deal(groups, stack, i) == None <==> |groups| < (if i + |stack| < WHEEL then i + |stack| else WHEEL) && stack != []
    decreases |stack|
  {
    if |groups| >= WHEEL {
      WheelNeverBreaks(groups, stack, i);
    } else if stack != [] && i < |groups| {
      var next := groups[i := groups[i] + [stack[|stack| - 1]]];
      DealFails(next, stack[..|stack| - 1], i + 1);
    }
  }

  /** Whether `getTestsForGroup` dies in its round robin: exactly when fewer nodes run than tests are
      left over, counting at most four. */
  lemma ScheduleFailsExactlyWhen(stats: seq<Test>, sorted: seq<Test>, nodeTotal: nat)
    ensures var rest := Pack(sorted, Target(stats, nodeTotal), nodeTotal).1;
            Schedule(stats, sorted, nodeTotal) == None <==> nodeTotal < if |rest| < WHEEL then |rest| else WHEEL
  {
    var (groups, rest) := Pack(sorted, Target(stats, nodeTotal), nodeTotal);
    DealFails(groups, rest, 0);
  }

  lemma TwoTestsWithoutStats()
    ensures WithDefaults([Test("a", 1.0)], ["a", "b", "c"]) == [Test("a", 1.0), Test("b", P50), Test("c", P50)]
  {
    var stats, listed := [Test("a", 1.0)], ["a", "b", "c"];
    assert listed[..2] == ["a", "b"] && listed[..2][..1] == ["a"] && ["a"][..0] == [];
    assert stats[0].name == "a";
    assert WithDefaults(stats, ["a"]) == stats;
    assert WithDefaults(stats, ["a", "b"]) == [Test("a", 1.0), Test("b", P50)];
  }

  /** The wheel does break: one node, a 1 ms test with a stat and two tests without, which are left over
      once the first one fills the group. */
  lemma OneNodeIsTooFew()
    ensures var stats, listed := [Test("a", 1.0)], ["a", "b", "c"];
            var sorted := [Test("b", P50), Test("c", P50), Test("a", 1.0)];
            && multiset(sorted) == multiset(WithDefaults(stats, listed))
            && Schedule(stats, sorted, 1) == None
  {
    var stats, sorted := [Test("a", 1.0)], [Test("b", P50), Test("c", P50), Test("a", 1.0)];
    TwoTestsWithoutStats();
    assert stats[..0] == [];
    assert Sum(stats) == 1.0 && Target(stats, 1) == 1.0;
    assert Fill(sorted, 1.0, 0.0) == 1;
    ScheduleFailsExactlyWhen(stats, sorted, 1);
  }

  // ----- where the leftovers go

  /** How many of `n` turns from turn `i` on are group `g`'s. */
  function Turn(n: nat, i: nat, g: nat): nat
    requires g < 4
  {
    (n + 3 - (g - i) % 4) / 4
  }

  lemma OneTurn(n: nat, i: nat, g: nat)
    requires g < 4
    ensures Turn(n + 1, i, g) == (if g == i % 4 then 1 else 0) + Turn(n, i + 1, g)
    ensures Turn(0, i, g) == 0
  {
    var d := (g - i) % 4;
    assert (g - (i + 1)) % 4 == if d == 0 then 3 else d - 1;
    assert d == 0 <==> g == i % 4;
  }

  /** A group starts with what it was packed with, and of the leftovers every fourth one is added to it. */
  lemma {:induction false} DealKeepsGroups(groups: seq<seq<Test>>, stack: seq<Test>, i: nat, g: nat)
    requires Deal(groups, stack, i).Some? && g < |groups|
    ensures var dealt := Deal(groups, stack, i).value;
            && |dealt| == |groups| && groups[g] <= dealt[g]
            && |dealt[g]| == |groups[g]| + if g < 4 then Turn(|stack|, i, g) else 0
    decreases |stack|
  {
    if g < 4 {
      OneTurn(if stack == [] then 0 else |stack| - 1, i, g);
    }
    if stack != [] {
      var h := i % WHEEL;
      DealKeepsGroups(groups[h := groups[h] + [stack[|stack| - 1]]], stack[..|stack| - 1], i + 1, g);
    }
  }

  lemma QuotientAndRest(n: nat, q: nat, r: nat)
    requires n == 4 * q + r && r < 4
    ensures n / 4 == q && n % 4 == r
  {}

  lemma Turns(i: nat, k: nat)
    requires k > 0
    ensures (i + 1) + (k - 1) == i + k
    ensures (k - 1) / 4 == if (i + k) % 4 == i % 4 then k / 4 - 1 else k / 4
  {
    var a, b, c, d := i / 4, i % 4, k / 4, k % 4;
    if b + d < 4 {
      QuotientAndRest(i + k, a + c, b + d);
    } else {
      QuotientAndRest(i + k, a + c + 1, b + d - 4);
    }
    if d == 0 {
      QuotientAndRest(k - 1, c - 1, 3);
    } else {
      QuotientAndRest(k - 1, c, d - 1);
    }
  }

  /** The `k`-th test dealt from turn `i` on goes to group `(i + k) % 4`, behind what was there and the
      `k / 4` tests dealt to it before; a group only grows at its end. */
  lemma {:induction false} DealGoesRound(groups: seq<seq<Test>>, stack: seq<Test>, i: nat, k: nat)
    requires Deal(groups, stack, i).Some? && k < |stack|
    ensures var dealt := Deal(groups, stack, i).value; var g := (i + k) % 4;
            && |dealt| == |groups| && g < |groups|
            && |groups[g]| + k / 4 < |dealt[g]|
            && dealt[g][|groups[g]| + k / 4] == stack[|stack| - 1 - k]
    decreases |stack|
  {
    var h, t := i % WHEEL, stack[|stack| - 1];
    var next := groups[h := groups[h] + [t]];
    if k == 0 {
      DealKeepsGroups(next, stack[..|stack| - 1], i + 1, h);
    } else {
      DealGoesRound(next, stack[..|stack| - 1], i + 1, k - 1);
      Turns(i, k);
    }
  }

  /** So the first four groups' shares of the leftovers differ by at most one, and the others get none. */
  lemma LeftoversAreSpread(groups: seq<seq<Test>>, stack: seq<Test>, g: nat, h: nat)
    requires Deal(groups, stack, 0).Some? && g < h < |groups|
    ensures var dealt := Deal(groups, stack, 0).value;
            && |dealt| == |groups|
            && var a, b := |dealt[g]| - |groups[g]|, |dealt[h]| - |groups[h]|;
            (h < 4 ==> b <= a <= b + 1) && (h >= 4 ==> b == 0)
  {
    DealKeepsGroups(groups, stack, 0, g);
    DealKeepsGroups(groups, stack, 0, h);
  }

  // ----- the final groups

  lemma SumAppend(ts: seq<Test>, t: Test)
    ensures Sum(ts + [t]) == Sum(ts) + t.ms
  {
    assert (ts + [t])[..|ts|] == ts;
  }

  /** Dealing adds at most everything left over to a group. */
  lemma {:induction false} DealLoad(groups: seq<seq<Test>>, stack: seq<Test>, i: nat, g: nat)
    requires Deal(groups, stack, i).Some? && g < |groups| && Positive(stack)
    ensures |Deal(groups, stack, i).value| == |groups|
    ensures Sum(groups[g]) <= Sum(Deal(groups, stack, i).value[g]) <= Sum(groups[g]) + Sum(stack)
    decreases |stack|
  {
    if stack != [] {
      var h, t := i % WHEEL, stack[|stack| - 1];
      SumAppend(groups[h], t);
      DealLoad(groups[h := groups[h] + [t]], stack[..|stack| - 1], i + 1, g);
    }
  }

  /** With no test over 30 s, every node's final group stays below target plus 30 s plus 1.5 s per test
      without a stat. */
  lemma FinalLoadBound(stats: seq<Test>, listed: seq<string>, sorted: seq<Test>, nodeTotal: nat, g: nat)
    requires Distinct(stats) && Positive(stats) && Sum(stats) > 0.0 && g < nodeTotal
    requires multiset(sorted) == multiset(WithDefaults(stats, listed))
    requires NoneLong(sorted)
    requires Schedule(stats, sorted, nodeTotal).Some?
    ensures var groups := Schedule(stats, sorted, nodeTotal).value;
            && |groups| == nodeTotal
            && Sum(groups[g]) < Target(stats, nodeTotal) + LONG + P50 * (|WithDefaults(stats, listed)| - |stats|) as real
  {
    var (groups, rest) := Pack(sorted, Target(stats, nodeTotal), nodeTotal);
    DefaultsExtend(stats, listed);
    PermutedProperties(sorted, WithDefaults(stats, listed));
    TargetTimesNodes(stats, nodeTotal);
    PackBounds(sorted, Target(stats, nodeTotal), nodeTotal);
    DealLoad(groups, rest, 0, g);
    GreedyLoadBound(stats, sorted, nodeTotal, g);
    LeftoverBound(stats, listed, sorted, nodeTotal);
  }

  // ----- every test on exactly one node

  predicate On(groups: seq<seq<Test>>, g: nat, i: nat, n: string) {
    g < |groups| && i < |groups[g]| && groups[g][i].name == n
  }

  lemma {:induction false} FlattenIndex(groups: seq<seq<Test>>, g: nat, i: nat) returns (p: nat)
    requires g < |groups| && i < |groups[g]|
    ensures p < |Flatten(groups)| && Flatten(groups)[p] == groups[g][i]
    ensures |Flatten(groups[..g])| <= p < |Flatten(groups[..g + 1])|
    ensures p == |Flatten(groups[..g])| + i
  {
    var m := |groups| - 1;
    if g == m {
      assert groups[..g + 1] == groups;
      p := |Flatten(groups[..m])| + i;
    } else {
      p := FlattenIndex(groups[..m], g, i);
      assert groups[..m][..g] == groups[..g] && groups[..m][..g + 1] == groups[..g + 1];
    }
  }

  lemma {:induction false} FlattenMember(groups: seq<seq<Test>>, t: Test) returns (g: nat, i: nat)
    requires t in Flatten(groups)
    ensures g < |groups| && i < |groups[g]| && groups[g][i] == t
  {
    var m := |groups| - 1;
    if t in groups[m] {
      g := m;
      i :| 0 <= i < |groups[m]| && groups[m][i] == t;
    } else {
      g, i := FlattenMember(groups[..m], t);
    }
  }

  lemma {:induction false} FlattenGrows(groups: seq<seq<Test>>, a: nat, b: nat)
    requires a <= b <= |groups|
    ensures |Flatten(groups[..a])| <= |Flatten(groups[..b])|
  {
    if a < b {
      FlattenGrows(groups, a, b - 1);
      assert groups[..b][..b - 1] == groups[..b - 1];
    }
  }

  lemma {:induction false} NameCounts(ts: seq<Test>, n: string)
    requires Distinct(ts)
    ensures forall t, u :: t in multiset(ts) && u in multiset(ts) && t.name == n && u.name == n ==> t == u && multiset(ts)[t] == 1
  {
    if ts != [] {
      var front, last := ts[..|ts| - 1], ts[|ts| - 1];
      NameCounts(front, n);
      assert ts == front + [last];
      assert forall t :: t in multiset(front) ==> t in front;
    }
  }

  lemma CountTwice(ts: seq<Test>, i: nat, j: nat)
    requires i < j < |ts|
    ensures ts[i] in multiset(ts) && ts[j] in multiset(ts)
    ensures ts[i] == ts[j] ==> multiset(ts)[ts[i]] >= 2
  {
    assert ts == ts[..i] + [ts[i]] + ts[i + 1..j] + [ts[j]] + ts[j + 1..];
  }

  /** Distinct names do not depend on order. */
  lemma DistinctNames(ts: seq<Test>, other: seq<Test>)
    requires multiset(ts) == multiset(other) && Distinct(other)
    ensures Distinct(ts)
  {
    forall i, j | 0 <= i < j < |ts|
      ensures ts[i].name != ts[j].name
    {
      NameCounts(other, ts[i].name);
      CountTwice(ts, i, j);
    }
  }

  lemma ScheduleConserves(stats: seq<Test>, sorted: seq<Test>, nodeTotal: nat)
    requires Schedule(stats, sorted, nodeTotal).Some?
    ensures var groups := Schedule(stats, sorted, nodeTotal).value;
            |groups| == nodeTotal && multiset(Flatten(groups)) == multiset(sorted)
  {
    var (packed, rest) := Pack(sorted, Target(stats, nodeTotal), nodeTotal);
    PackConserves(sorted, Target(stats, nodeTotal), nodeTotal);
    DealConserves(packed, rest, 0);
  }

  lemma PlacedOnce(groups: seq<seq<Test>>, g: nat, i: nat, h: nat, j: nat, n: string)
    requires Distinct(Flatten(groups)) && On(groups, g, i, n) && On(groups, h, j, n)
    ensures g == h && i == j
  {
    var q := FlattenIndex(groups, g, i);
    var r := FlattenIndex(groups, h, j);
    assert q == r;
    if g < h {
      FlattenGrows(groups, g + 1, h);
    } else if h < g {
      FlattenGrows(groups, h + 1, g);
    }
  }

  /** Whenever the schedule exists (always with four nodes or more), every listed test is in the list of
      exactly one node, once. */
  lemma EveryTestRunsOnce(stats: seq<Test>, listed: seq<string>, sorted: seq<Test>, nodeTotal: nat, n: string)
    requires Distinct(stats) && Positive(stats) && n in listed
    requires multiset(sorted) == multiset(WithDefaults(stats, listed))
    requires nodeTotal >= WHEEL || Schedule(stats, sorted, nodeTotal).Some?
    ensures Schedule(stats, sorted, nodeTotal).Some?
    ensures var groups := Schedule(stats, sorted, nodeTotal).value;
            && |groups| == nodeTotal
            && (exists g: nat, i: nat :: On(groups, g, i, n))
            && (forall g: nat, i: nat, h: nat, j: nat :: On(groups, g, i, n) && On(groups, h, j, n) ==> g == h && i == j)
  {
    ScheduleFailsExactlyWhen(stats, sorted, nodeTotal);
    ScheduleConserves(stats, sorted, nodeTotal);
    var groups := Schedule(stats, sorted, nodeTotal).value;
    var tests := WithDefaults(stats, listed);
    DefaultsExtend(stats, listed);
    DefaultsCover(stats, listed, n);
    DistinctNames(Flatten(groups), tests);
    var p :| 0 <= p < |tests| && tests[p].name == n;
    assert tests[p] in multiset(Flatten(groups));
    var g0, i0 := FlattenMember(groups, tests[p]);
    assert On(groups, g0, i0, n);
    forall g: nat, i: nat, h: nat, j: nat | On(groups, g, i, n) && On(groups, h, j, n)
      ensures g == h && i == j
    {
      PlacedOnce(groups, g, i, h, j, n);
    }
  }

  // ----- the fallback without timings

  function Min(a: nat, b: nat): nat { if a < b then a else b }

  function Offset(length: nat, nodeTotal: nat, node: nat): nat
    requires nodeTotal > 0
  {
    Min(node, length % nodeTotal) + node * (length / nodeTotal)
  }

  function Chunk(length: nat, nodeTotal: nat, node: nat): nat
    requires nodeTotal > 0
  {
    length / nodeTotal + if node < length % nodeTotal then 1 else 0
  }

  lemma OffsetsAreContiguous(length: nat, nodeTotal: nat, node: nat)
    requires nodeTotal > 0 && node < nodeTotal
    ensures Offset(length, nodeTotal, node + 1) == Offset(length, nodeTotal, node) + Chunk(length, nodeTotal, node)
    ensures Offset(length, nodeTotal, 0) == 0 && Offset(length, nodeTotal, nodeTotal) == length
  {
    var size := length / nodeTotal;
    assert (node + 1) * size == node * size + size;
    assert length == nodeTotal * size + length % nodeTotal;
  }

  lemma {:induction false} OffsetsAreBounded(length: nat, nodeTotal: nat, node: nat)
    requires nodeTotal > 0 && node <= nodeTotal
    ensures Offset(length, nodeTotal, node) <= length
    decreases nodeTotal - node
  {
    if node < nodeTotal {
      OffsetsAreContiguous(length, nodeTotal, node);
      OffsetsAreBounded(length, nodeTotal, node + 1);
    } else {
      OffsetsAreContiguous(length, nodeTotal, 0);
    }
  }

  /** `tests.slice(offset, offset + chunk)` */
  function Slice(tests: seq<string>, nodeTotal: nat, node: nat): (r: seq<string>)
    requires node < nodeTotal
    ensures |r| == |tests| / nodeTotal + if node < |tests| % nodeTotal then 1 else 0
  {
    OffsetsAreContiguous(|tests|, nodeTotal, node);
    OffsetsAreBounded(|tests|, nodeTotal, node + 1);
    var offset := Offset(|tests|, nodeTotal, node);
    tests[offset..offset + Chunk(|tests|, nodeTotal, node)]
  }

  /** The longer slices are those of the first nodes. */
  lemma EarlierSlicesAreLonger(tests: seq<string>, nodeTotal: nat, node: nat, later: nat)
    requires node <= later < nodeTotal
    ensures |Slice(tests, nodeTotal, later)| <= |Slice(tests, nodeTotal, node)| <= |Slice(tests, nodeTotal, later)| + 1
  {}

  function Slices(tests: seq<string>, nodeTotal: nat, upTo: nat): seq<string>
    requires upTo <= nodeTotal
  {
    if upTo == 0 then [] else Slices(tests, nodeTotal, upTo - 1) + Slice(tests, nodeTotal, upTo - 1)
  }

  lemma SliceAt(tests: seq<string>, nodeTotal: nat, node: nat)
    requires node < nodeTotal
    ensures var a, b := Offset(|tests|, nodeTotal, node), Offset(|tests|, nodeTotal, node + 1);
            a <= b <= |tests| && Slice(tests, nodeTotal, node) == tests[a..b]
  {
    OffsetsAreContiguous(|tests|, nodeTotal, node);
    OffsetsAreBounded(|tests|, nodeTotal, node + 1);
  }

  lemma Glue(tests: seq<string>, a: nat, b: nat)
    requires a <= b <= |tests|
    ensures tests[..a] + tests[a..b] == tests[..b]
  {}

  lemma {:induction false} SlicesArePrefixes(tests: seq<string>, nodeTotal: nat, upTo: nat)
    requires nodeTotal > 0 && upTo <= nodeTotal
    ensures Offset(|tests|, nodeTotal, upTo) <= |tests|
    ensures Slices(tests, nodeTotal, upTo) == tests[..Offset(|tests|, nodeTotal, upTo)]
    decreases upTo
  {
    if upTo == 0 {
      OffsetsAreContiguous(|tests|, nodeTotal, 0);
    } else {
      SlicesArePrefixes(tests, nodeTotal, upTo - 1);
      SliceAt(tests, nodeTotal, upTo - 1);
      Glue(tests, Offset(|tests|, nodeTotal, upTo - 1), Offset(|tests|, nodeTotal, upTo));
    }
  }

  /** For any number of nodes the slices, in node order, are the test list itself. */
  lemma SlicesCoverTests(tests: seq<string>, nodeTotal: nat)
    requires nodeTotal > 0
    ensures Slices(tests, nodeTotal, nodeTotal) == tests
  {
    SlicesArePrefixes(tests, nodeTotal, nodeTotal);
    OffsetsAreContiguous(|tests|, nodeTotal, 0);
  }
}
