/**
 What an event ends with: which group, whether it is new, what its hashes then hold, and that somebody
 can always go on.
 */
module GroupOutcomes {
  import opened Wrappers
  import opened GroupAssignment
  import opened GroupLinks

  // ----- what a worker read

  predicate HoldsAt(states: seq<State>, m: nat, r: RowId, group: Option<GroupId>) {
    m < |states| && r in states[m].rows && states[m].rows[r].group == group
  }

  /** Row `r` held `group` in one of the first `n + 1` states. */
  ghost predicate HeldBy(states: seq<State>, n: nat, r: RowId, group: Option<GroupId>) {
    exists m: nat :: m <= n && HoldsAt(states, m, r, group)
  }

  predicate OldRead(s: State, w: WorkerId, t: State, i: nat) {
    && w in s.workers && w in t.workers
    && i < |s.workers[w].seen| && i < |t.workers[w].seen|
    && i < |s.workers[w].hashes| && i < |t.workers[w].hashes|
    && s.workers[w].seen[i] == t.workers[w].seen[i] && s.workers[w].hashes[i] == t.workers[w].hashes[i]
  }

  lemma OnlyReadsRead(s: State, l: Label, t: State, w: WorkerId, i: nat)
    requires Next(s, l, t) && !(l.Read? && l.w == w) && !(l.Lock? && l.w == w)
    requires w in s.workers && w in t.workers && |s.workers[w].seen| <= |s.workers[w].hashes|
    requires i < |t.workers[w].seen|
    ensures OldRead(s, w, t, i)
  {}

  lemma ReadsReadRows(s: State, l: Label, t: State, w: WorkerId, i: nat)
    requires Next(s, l, t) && (l.Read? || l.Lock?) && l.w == w && w in t.workers && i < |t.workers[w].seen|
    ensures OldRead(s, w, t, i) ||
            (i < |t.workers[w].hashes| && t.workers[w].hashes[i] in t.rows &&
             t.rows[t.workers[w].hashes[i]].group == t.workers[w].seen[i])
  {}

  lemma ReadIsOldOrCurrent(states: seq<State>, labels: seq<Label>, n: nat, w: WorkerId, i: nat)
    requires IsRun(states, labels) && 0 < n < |states| && w in states[n].workers && i < |states[n].workers[w].seen|
    ensures OldRead(states[n - 1], w, states[n], i) ||
            (i < |states[n].workers[w].hashes| && HoldsAt(states, n, states[n].workers[w].hashes[i], states[n].workers[w].seen[i]))
  {
    var s, l, t := states[n - 1], labels[n - 1], states[n];
    assert Next(s, l, t);
    RunIsSound(states, labels, n - 1);
    assert w in s.workers ==> WorkerOk(s, w);
    if (l.Read? || l.Lock?) && l.w == w {
      ReadsReadRows(s, l, t, w, i);
    } else {
      OnlyReadsRead(s, l, t, w, i);
    }
  }

  /** Nothing a worker read is made up: each entry was in its row at some earlier moment. */
  lemma {:induction false} ReadsWereTrue(states: seq<State>, labels: seq<Label>, n: nat, w: WorkerId, i: nat)
    requires IsRun(states, labels) && n < |states| && w in states[n].workers
    requires i < |states[n].workers[w].seen|
    ensures i < |states[n].workers[w].hashes|
    ensures HeldBy(states, n, states[n].workers[w].hashes[i], states[n].workers[w].seen[i])
  {
    if n > 0 {
      var k := states[n].workers[w];
      ReadIsOldOrCurrent(states, labels, n, w, i);
      if OldRead(states[n - 1], w, states[n], i) {
        ReadsWereTrue(states, labels, n - 1, w, i);
        var m: nat :| m <= n - 1 && HoldsAt(states, m, k.hashes[i], k.seen[i]);
        assert HoldsAt(states, m, k.hashes[i], k.seen[i]);
      }
    }
  }

  // ----- one step that finishes an event

  predicate IsDone(s: State, w: WorkerId) {
    w in s.workers && s.workers[w].phase.Done?
  }

  /** The step from `s` to `t` is the one that finishes worker `w`. */
  predicate Finishes(s: State, w: WorkerId, t: State) {
    w in s.workers && !IsDone(s, w) && IsDone(t, w)
  }

  lemma OnlyTheMoverFinishes(s: State, l: Label, t: State, w: WorkerId)
    requires Next(s, l, t) && Finishes(s, w, t)
    ensures (l.Commit? || l.Attach? || l.LinkLocked?) && l.w == w
  {}

  /** A finished event's group: it is new if and only if it was not committed before, it is committed
      now, and no other group is; an existing group is one the event saw on its rows, or a Seer match
      when it saw none. */
  lemma NewExactlyWhenNotCommitted(s: State, l: Label, t: State, w: WorkerId)
    requires Inv(s) && Next(s, l, t) && Finishes(s, w, t) && t.workers[w].phase.result.Some?
    ensures var k := t.workers[w]; var g := k.phase.result.value;
            && (k.phase.isNew <==> g !in s.groups)
            && g in t.groups && t.groups.Keys == s.groups.Keys + {g}
            && (k.phase.isNew ==> t.groups[g] && NoneSeen(k.seen))
            && (!k.phase.isNew ==> Some(g) in k.seen || NoneSeen(k.seen))
  {
    OnlyTheMoverFinishes(s, l, t, w);
    assert WorkerOk(s, w);
  }

  /** What the rows of worker `k` hold when it ends in group `g`: each is linked, those it read as
      unlinked to `g`, except rows that are LOCKED_IN_MIGRATION. */
  predicate RowsAreLinked(t: State, k: Worker, g: GroupId) {
    && |k.seen| == |k.hashes|
    && forall i :: 0 <= i < |k.hashes| ==>
         && k.hashes[i] in t.rows
         && (!t.rows[k.hashes[i]].migrating ==> t.rows[k.hashes[i]].group.Some?)
         && (!t.rows[k.hashes[i]].migrating && k.seen[i] == None ==> t.rows[k.hashes[i]].group == Some(g))
  }

  predicate SeenStillLinked(s: State, k: Worker) {
    forall i :: 0 <= i < |k.seen| && i < |k.hashes| && k.seen[i].Some? && k.hashes[i] in s.rows ==>
      s.rows[k.hashes[i]].group.Some?
  }

  /** The update it takes touches those rows only. */
  predicate OthersUntouched(s: State, k: Worker, t: State) {
    t.rows.Keys == s.rows.Keys && forall r :: r in s.rows && r !in k.hashes ==> t.rows[r] == s.rows[r]
  }

  lemma PreparedRows(s: State, w: WorkerId, k: Worker)
    requires UpdateReady(s, k)
    ensures forall i :: 0 <= i < |k.hashes| && k.seen[i] == None && !s.rows[k.hashes[i]].migrating ==> k.hashes[i] in Targets(s, k)
    ensures forall r :: r in Targets(s, k) ==> r in k.hashes
  {}

  lemma AttachedRows(s: State, w: WorkerId, t: State)
    requires w in s.workers && WorkerOk(s, w) && AttachStep(s, w, t) && SeenStillLinked(s, s.workers[w])
    requires t.workers[w].phase.result.Some?
    ensures RowsAreLinked(t, t.workers[w], t.workers[w].phase.result.value) && OthersUntouched(s, t.workers[w], t)
  {
    PreparedRows(s, w, s.workers[w]);
  }

  lemma CommittedRows(s: State, w: WorkerId, t: State)
    requires w in s.workers && WorkerOk(s, w) && CommitStep(s, w, t)
    ensures RowsAreLinked(t, t.workers[w], t.workers[w].phase.result.value) && OthersUntouched(s, t.workers[w], t)
  {}

  /** What a worker saw linked is linked still. */
  lemma ReadLinksLast(states: seq<State>, labels: seq<Label>, n: nat, w: WorkerId)
    requires IsRun(states, labels) && n < |states| && w in states[n].workers
    ensures SeenStillLinked(states[n], states[n].workers[w])
  {
    var k := states[n].workers[w];
    forall i | 0 <= i < |k.seen| && i < |k.hashes| && k.seen[i].Some?
      ensures k.hashes[i] in states[n].rows && states[n].rows[k.hashes[i]].group.Some?
    {
      ReadsWereTrue(states, labels, n, w, i);
      var m: nat :| m <= n && HoldsAt(states, m, k.hashes[i], k.seen[i]);
      LinkedForever(states, labels, m, n, k.hashes[i]);
    }
  }

  /** When an event ends in a group, all its rows are linked, those it read as unlinked to that group;
      rows that are LOCKED_IN_MIGRATION and rows of other hashes are as they were. */
  lemma FinishedEventsAreLinked(states: seq<State>, labels: seq<Label>, n: nat, w: WorkerId)
    requires IsRun(states, labels) && n < |labels|
    requires Finishes(states[n], w, states[n + 1]) && states[n + 1].workers[w].phase.result.Some?
    ensures var k := states[n + 1].workers[w]; RowsAreLinked(states[n + 1], k, k.phase.result.value)
    ensures OthersUntouched(states[n], states[n + 1].workers[w], states[n + 1])
  {
    var s, l, t := states[n], labels[n], states[n + 1];
    RunIsSound(states, labels, n);
    assert Next(s, l, t);
    OnlyTheMoverFinishes(s, l, t, w);
    assert WorkerOk(s, w);
    if l.Commit? {
      CommittedRows(s, w, t);
    } else {
      ReadLinksLast(states, labels, n, w);
      AttachedRows(s, w, t);
    }
  }

  /** An event ends without a group only because the group it found is of another category; it changes
      no row and commits nothing. */
  lemma NoGroupExactlyWhenMismatched(s: State, l: Label, t: State, w: WorkerId)
    requires w in s.workers && WorkerOk(s, w)
    requires Next(s, l, t) && Finishes(s, w, t)
    ensures var p := s.workers[w].phase;
            t.workers[w].phase.result == None <==> (p.Found? || p.LockedFound?) && !s.groups[p.group]
    ensures t.workers[w].phase.result == None ==> !t.workers[w].phase.isNew && t.rows == s.rows && t.groups == s.groups
  {
    OnlyTheMoverFinishes(s, l, t, w);
  }

  lemma LookTakesTheFirstGroup(s: State, w: WorkerId, t: State)
    requires LookStep(s, w, t)
    ensures var seen := s.workers[w].seen;
            && (t.workers[w].phase == Missed <==> NoneSeen(seen))
            && (t.workers[w].phase != Missed ==> exists i: nat :: FirstAt(seen, i) && t.workers[w].phase == Found(seen[i].value))
  {}

  /** What tells the two forms apart: only the legacy form gives the locks back before it attaches to a
      group found under them, and only it links a Seer match under them; only the optimized form asks
      Seer without locks, and only it attaches, or gives up on another category, while it holds them. */
  lemma EachFormKeepsToItsPath(s: State, l: Label, t: State, w: WorkerId)
    requires Next(s, l, t) && w in s.workers && w in t.workers
    ensures t.workers[w].form == s.workers[w].form
    ensures var p, q, form := s.workers[w].phase, t.workers[w].phase, s.workers[w].form;
            && (p.LockedFound? && q.Found? ==> form == Legacy)
            && (p.Rechecked? && q.Writing? && q.kind != Created ==> form == Legacy && q.kind == SeerMatched)
            && (p.Missed? && q.Found? ==> form == Optimized)
            && (p.LockedFound? && (q.Writing? || q.Done?) ==> form == Optimized)
  {}

  /** An event may be discarded at any point before it has an outcome, and then changes no row. */
  lemma EventsMayBeDiscarded(s: State, w: WorkerId)
    requires w in s.workers
    requires var p := s.workers[w].phase; p.Reading? || p.Missed? || InTransaction(p)
    ensures exists l, t :: Next(s, l, t) && w in t.workers && t.workers[w].phase == Failed && t.rows == s.rows && t.log == s.log
  {
    var failed := s.workers[w := s.workers[w].(phase := Failed)];
    if InTransaction(s.workers[w].phase) {
      assert Next(s, Abort(w), s.(locks := Unlock(s.locks, w), workers := failed));
    } else {
      assert Next(s, Shed(w), s.(workers := failed));
    }
  }

  // ----- whole runs

  lemma DoneIsFinal(s: State, l: Label, t: State, w: WorkerId)
    requires Next(s, l, t) && IsDone(s, w)
    ensures IsDone(t, w) && t.workers[w].phase == s.workers[w].phase
  {}

  lemma {:induction false} DoneForever(states: seq<State>, labels: seq<Label>, m: nat, n: nat, w: WorkerId)
    requires IsRun(states, labels) && m <= n < |states| && IsDone(states[m], w)
    ensures IsDone(states[n], w) && states[n].workers[w].phase == states[m].workers[w].phase
  {
    if m < n {
      DoneForever(states, labels, m, n - 1, w);
      assert Next(states[n - 1], labels[n - 1], states[n]);
      DoneIsFinal(states[n - 1], labels[n - 1], states[n], w);
    }
  }

  lemma GroupsOnlyGrow(s: State, l: Label, t: State)
    requires Next(s, l, t)
    ensures s.groups.Keys <= t.groups.Keys && s.workers.Keys == t.workers.Keys
    ensures forall g :: g in t.groups && g !in s.groups ==> l.Commit? && Finishes(s, l.w, t) && t.workers[l.w].phase.result == Some(g)
  {}

  lemma {:induction false} GroupsGrow(states: seq<State>, labels: seq<Label>, m: nat, n: nat)
    requires IsRun(states, labels) && m <= n < |states|
    ensures states[m].groups.Keys <= states[n].groups.Keys && states[m].workers.Keys == states[n].workers.Keys
  {
    if m < n {
      GroupsGrow(states, labels, m, n - 1);
      assert Next(states[n - 1], labels[n - 1], states[n]);
      GroupsOnlyGrow(states[n - 1], labels[n - 1], states[n]);
    }
  }

  /** Step `m` finishes `w`, and commits group `g` as it does. */
  predicate Commits(states: seq<State>, m: nat, w: WorkerId, g: GroupId) {
    && m + 1 < |states|
    && Finishes(states[m], w, states[m + 1])
    && states[m + 1].workers[w].phase.result == Some(g)
    && g !in states[m].groups && g in states[m + 1].groups
  }

  lemma {:induction false} FinishingStep(states: seq<State>, labels: seq<Label>, n: nat, w: WorkerId) returns (m: nat)
    requires IsRun(states, labels) && n < |states| && IsDone(states[n], w)
    ensures m < n && Finishes(states[m], w, states[m + 1])
    ensures states[m + 1].workers[w].phase == states[n].workers[w].phase
  {
    GroupsGrow(states, labels, 0, n);
    assert !IsDone(states[0], w);
    GroupsGrow(states, labels, 0, n - 1);
    if IsDone(states[n - 1], w) {
      m := FinishingStep(states, labels, n - 1, w);
      DoneForever(states, labels, n - 1, n, w);
    } else {
      m := n - 1;
    }
  }

  lemma FinishesOnce(states: seq<State>, labels: seq<Label>, k: nat, m: nat, w: WorkerId)
    requires IsRun(states, labels) && k + 1 < |states| && m + 1 < |states|
    requires Finishes(states[k], w, states[k + 1]) && Finishes(states[m], w, states[m + 1])
    ensures k == m
  {
    if k < m {
      DoneForever(states, labels, k + 1, m, w);
    } else if m < k {
      DoneForever(states, labels, m + 1, k, w);
    }
  }

  lemma OutcomeOfStep(states: seq<State>, labels: seq<Label>, m: nat, w: WorkerId)
    requires IsRun(states, labels) && m + 1 < |states| && Finishes(states[m], w, states[m + 1])
    requires states[m + 1].workers[w].phase.result.Some?
    ensures var p := states[m + 1].workers[w].phase;
            p.result.value in states[m + 1].groups && (p.isNew <==> p.result.value !in states[m].groups)
  {
    RunIsSound(states, labels, m);
    assert Next(states[m], labels[m], states[m + 1]);
    NewExactlyWhenNotCommitted(states[m], labels[m], states[m + 1], w);
  }

  /** A finished event reports a new group if and only if it committed that group itself, in this run,
      when nobody had before. */
  lemma NewExactlyWhenCommittedItself(states: seq<State>, labels: seq<Label>, n: nat, w: WorkerId)
    requires IsRun(states, labels) && n < |states| && IsDone(states[n], w) && states[n].workers[w].phase.result.Some?
    ensures var g := states[n].workers[w].phase.result.value;
            && g in states[n].groups
            && (states[n].workers[w].phase.isNew <==> exists m: nat :: m < n && Commits(states, m, w, g))
  {
    var g := states[n].workers[w].phase.result.value;
    var m := FinishingStep(states, labels, n, w);
    OutcomeOfStep(states, labels, m, w);
    GroupsGrow(states, labels, m + 1, n);
    assert g !in states[m].groups ==> Commits(states, m, w, g);
    forall k: nat | k < n && Commits(states, k, w, g)
      ensures k == m
    {
      FinishesOnce(states, labels, k, m, w);
    }
  }

  predicate ReportsNew(s: State, w: WorkerId, g: GroupId) {
    IsDone(s, w) && s.workers[w].phase.result == Some(g) && s.workers[w].phase.isNew
  }

  lemma {:induction false} CreatorOf(states: seq<State>, labels: seq<Label>, n: nat, g: GroupId) returns (w: WorkerId)
    requires IsRun(states, labels) && n < |states| && g in states[n].groups && g !in states[0].groups
    ensures ReportsNew(states[n], w, g)
  {
    var l, s := labels[n - 1], states[n - 1];
    assert Next(s, l, states[n]);
    GroupsOnlyGrow(s, l, states[n]);
    if g in s.groups {
      w := CreatorOf(states, labels, n - 1, g);
      DoneIsFinal(s, l, states[n], w);
    } else {
      w := l.w;
      RunIsSound(states, labels, n - 1);
      NewExactlyWhenNotCommitted(s, l, states[n], w);
    }
  }

  lemma OneCommitPerGroup(states: seq<State>, labels: seq<Label>, i: nat, v: WorkerId, j: nat, w: WorkerId, g: GroupId)
    requires IsRun(states, labels) && Commits(states, i, v, g) && Commits(states, j, w, g)
    ensures v == w
  {
    if i < j {
      GroupsGrow(states, labels, i + 1, j);
    } else if j < i {
      GroupsGrow(states, labels, j + 1, i);
    }
    assert Next(states[i], labels[i], states[i + 1]);
    OnlyTheMoverFinishes(states[i], labels[i], states[i + 1], v);
    assert i == j;
    OnlyTheMoverFinishes(states[i], labels[i], states[i + 1], w);
  }

  /** Events that report a new group and groups committed during the run correspond one to one. */
  lemma NewGroupsHaveOneCreator(states: seq<State>, labels: seq<Label>, n: nat, g: GroupId)
    requires IsRun(states, labels) && n < |states|
    ensures (exists w :: ReportsNew(states[n], w, g)) <==> g in states[n].groups && g !in states[0].groups
    ensures forall v, w :: ReportsNew(states[n], v, g) && ReportsNew(states[n], w, g) ==> v == w
  {
    if g in states[n].groups && g !in states[0].groups {
      var w := CreatorOf(states, labels, n, g);
    }
    forall w | ReportsNew(states[n], w, g)
      ensures g in states[n].groups && g !in states[0].groups
    {
      NewExactlyWhenCommittedItself(states, labels, n, w);
      var m: nat :| m < n && Commits(states, m, w, g);
      GroupsGrow(states, labels, 0, m);
    }
    forall v, w | ReportsNew(states[n], v, g) && ReportsNew(states[n], w, g)
      ensures v == w
    {
      NewExactlyWhenCommittedItself(states, labels, n, v);
      NewExactlyWhenCommittedItself(states, labels, n, w);
      var i: nat :| i < n && Commits(states, i, v, g);
      var j: nat :| j < n && Commits(states, j, w, g);
      OneCommitPerGroup(states, labels, i, v, j, w, g);
    }
  }

  // ----- somebody can always go on

  predicate Finished(p: Phase) {
    p.Done? || p.Failed?
  }

  /** A step of `w` other than giving up or asking Seer. */
  predicate Advances(l: Label, w: WorkerId) {
    && (l.Read? || l.Look? || l.Lock? || l.Release? || l.Create? || l.LinkLocked? || l.Commit? || l.Attach?)
    && l.w == w
  }

  ghost predicate CanAdvance(s: State, w: WorkerId) {
    exists l, t :: Advances(l, w) && Next(s, l, t)
  }

  lemma ReaderAdvances(s: State, w: WorkerId)
    requires w in s.workers && s.workers[w].phase.Reading? && WorkerOk(s, w)
    ensures CanAdvance(s, w)
  {
    var k := s.workers[w];
    if |k.seen| == |k.hashes| || (k.form == Optimized && |k.seen| == k.primary && !NoneSeen(k.seen)) {
      var t := s.(workers := s.workers[w :=
        match FirstSome(k.seen)
        case Some(g) => k.(hashes := k.hashes[..|k.seen|], phase := Found(g))
        case None => k.(phase := Missed)]);
      assert Next(s, Look(w), t) && Advances(Look(w), w);
    } else {
      var r := k.hashes[|k.seen|];
      var rows := if r in s.rows then s.rows else s.rows[r := Row(None, false)];
      var t := s.(rows := rows, workers := s.workers[w := k.(seen := k.seen + [rows[r].group])]);
      assert k.form == Optimized && k.primary <= |k.seen| ==> NoneSeen(k.seen[..k.primary]) by {
        assert k.primary == |k.seen| ==> k.seen[..k.primary] == k.seen;
      }
      assert Next(s, Read(w), t) && Advances(Read(w), w);
    }
  }

  lemma LockerAdvances(s: State, w: WorkerId)
    requires w in s.workers && s.workers[w].phase.Missed? && WorkerOk(s, w)
    requires forall h :: h in s.workers[w].hashes ==> h !in s.locks
    ensures CanAdvance(s, w)
  {
    var k := s.workers[w];
    var seen := seq(|k.hashes|, i requires 0 <= i < |k.hashes| => s.rows[k.hashes[i]].group);
    var pick: nat := 0;
    if !NoneSeen(seen) {
      pick :| pick < |seen| && seen[pick].Some?;
    }
    var t := s.(locks := s.locks + (map h | h in HashSet(k) :: w),
                workers := s.workers[w := k.(seen := seen,
                  phase := if NoneSeen(seen) then Rechecked else LockedFound(seen[pick].value))]);
    assert Next(s, Lock(w, pick), t) && Advances(Lock(w, pick), w);
  }

  lemma HolderAdvances(s: State, w: WorkerId)
    requires w in s.workers && InTransaction(s.workers[w].phase) && WorkerOk(s, w)
    ensures CanAdvance(s, w)
  {
    var k := s.workers[w];
    if k.phase.Rechecked? {
      var t := s.(nextGroup := s.nextGroup + 1,
                  workers := s.workers[w := k.(phase := Writing(s.nextGroup, Created, Targets(s, k)))]);
      assert Next(s, Create(w), t) && Advances(Create(w), w);
    } else if k.phase.LockedFound? {
      if k.form == Legacy {
        var t := s.(locks := Unlock(s.locks, w), workers := s.workers[w := k.(phase := Found(k.phase.group))]);
        assert Next(s, Release(w), t) && Advances(Release(w), w);
      } else {
        var t := if s.groups[k.phase.group]
                 then s.(workers := s.workers[w := k.(phase := Writing(k.phase.group, AttachedLocked, Targets(s, k)))])
                 else s.(locks := Unlock(s.locks, w), workers := s.workers[w := k.(phase := Done(None, false))]);
        assert Next(s, LinkLocked(w), t) && Advances(LinkLocked(w), w);
      }
    } else {
      var Writing(g, kind, targets) := k.phase;
      assert targets <= s.rows.Keys;
      var t := s.(rows := Write(s.rows, targets, g), locks := Unlock(s.locks, w),
                  groups := if kind == Created then s.groups[g := true] else s.groups,
                  workers := s.workers[w := k.(phase := Done(Some(g), kind == Created))],
                  log := s.log + [Link(w, kind, g, targets, GroupsBefore(s, targets))]);
      assert Next(s, Commit(w), t) && Advances(Commit(w), w);
    }
  }

  lemma AttacherAdvances(s: State, w: WorkerId)
    requires w in s.workers && s.workers[w].phase.Found? && WorkerOk(s, w)
    requires forall h :: h in s.workers[w].hashes ==> h !in s.locks
    ensures CanAdvance(s, w)
  {
    var k := s.workers[w];
    var g, targets := k.phase.group, Targets(s, k);
    var t := if !s.groups[g] then s.(workers := s.workers[w := k.(phase := Done(None, false))])
             else s.(rows := Write(s.rows, targets, g),
                     workers := s.workers[w := k.(phase := Done(Some(g), false))],
                     log := s.log + [Link(w, AttachedUnlocked, g, targets, GroupsBefore(s, targets))]);
    assert Next(s, Attach(w), t) && Advances(Attach(w), w);
  }

  /** In every reachable state an unfinished worker can go on, or a row it needs is locked by a worker
      that can: taking the whole row set at once, the protocol cannot deadlock, and no path through it
      is a dead end. */
  lemma SomebodyCanGoOn(states: seq<State>, labels: seq<Label>, n: nat, w: WorkerId)
    requires IsRun(states, labels) && n < |states| && w in states[n].workers && !Finished(states[n].workers[w].phase)
    ensures var s := states[n];
            CanAdvance(s, w) || exists h :: h in s.workers[w].hashes && h in s.locks && CanAdvance(s, s.locks[h])
  {
    RunIsSound(states, labels, n);
    var s := states[n];
    assert WorkerOk(s, w);
    if h :| h in s.workers[w].hashes && h in s.locks {
      assert WorkerOk(s, s.locks[h]);
      HolderAdvances(s, s.locks[h]);
    } else if s.workers[w].phase.Reading? {
      ReaderAdvances(s, w);
    } else if s.workers[w].phase.Missed? {
      LockerAdvances(s, w);
    } else if s.workers[w].phase.Found? {
      AttacherAdvances(s, w);
    } else {
      HolderAdvances(s, w);
    }
  }
}
