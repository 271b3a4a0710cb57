/**
 What the log of committed updates says about `group_id`s over whole runs of `GroupAssignment`.

 `Replay` reads the log as a history of one row; the table always agrees with it, so the log hides
 no write and the statements below about log entries are statements about the table.
 */
module GroupLinks {
  import opened Wrappers
  import opened GroupAssignment

  function StartGroup(start: State, r: RowId): Option<GroupId> {
    if r in start.rows then start.rows[r].group else None
  }

  function Replay(start: State, log: seq<Link>, r: RowId): Option<GroupId> {
    if log == [] then StartGroup(start, r)
    else
      var last := log[|log| - 1];
      if r in last.rows then Some(last.group) else Replay(start, log[..|log| - 1], r)
  }

  predicate Locked(link: Link) {
    !link.kind.AttachedUnlocked?
  }

  ghost predicate LinkOk(start: State, log: seq<Link>, k: nat)
    requires k < |log|
  {
    && log[k].before.Keys == log[k].rows
    && (forall r :: r in log[k].rows ==> log[k].before[r] == Replay(start, log[..k], r))
    && (Locked(log[k]) ==> forall r :: r in log[k].rows ==> log[k].before[r] == None)
  }

  ghost predicate LogOk(start: State, s: State) {
    && start.rows.Keys <= s.rows.Keys
    && (forall r :: r in s.rows ==> s.rows[r].group == Replay(start, s.log, r))
    && (forall k :: 0 <= k < |s.log| ==> LinkOk(start, s.log, k) && s.log[k].rows <= s.rows.Keys)
  }

  lemma {:induction false} ReplayUntouched(start: State, log: seq<Link>, r: RowId)
    requires forall k :: 0 <= k < |log| ==> r !in log[k].rows
    ensures Replay(start, log, r) == StartGroup(start, r)
  {
    if log != [] {
      ReplayUntouched(start, log[..|log| - 1], r);
    }
  }

  /** Once some update wrote a row, the row is linked ever after. */
  lemma {:induction false} ReplayLinked(start: State, log: seq<Link>, r: RowId, k: nat)
    requires k < |log| && r in log[k].rows
    ensures Replay(start, log, r).Some?
  {
    if r !in log[|log| - 1].rows {
      ReplayLinked(start, log[..|log| - 1], r, k);
    }
  }

  lemma QuietStep(s: State, l: Label, t: State)
    requires Next(s, l, t) && !WritesRows(l)
    ensures t.log == s.log
    ensures s.rows.Keys <= t.rows.Keys
    ensures forall r :: r in s.rows ==> t.rows[r].group == s.rows[r].group
    ensures forall r :: r in t.rows && r !in s.rows ==> t.rows[r].group == None
  {}

  /** The update worker `w` is about to make: prepared under the locks, or attaching to the group it
      found. */
  function LinkOf(s: State, w: WorkerId): Link
    requires w in s.workers
    requires var k := s.workers[w]; k.phase.Writing? || (k.phase.Found? && UpdateReady(s, k))
    requires s.workers[w].phase.Writing? ==> s.workers[w].phase.targets <= s.rows.Keys
  {
    var k := s.workers[w];
    if k.phase.Writing? then Link(w, k.phase.kind, k.phase.group, k.phase.targets, GroupsBefore(s, k.phase.targets))
    else Link(w, AttachedUnlocked, k.phase.group, Targets(s, k), GroupsBefore(s, Targets(s, k)))
  }

  ghost predicate IsWriteOf(s: State, link: Link, t: State) {
    && link.rows <= s.rows.Keys
    && link.before == GroupsBefore(s, link.rows)
    && t.log == s.log + [link]
    && t.rows == Write(s.rows, link.rows, link.group)
    && (Locked(link) ==> forall r :: r in link.rows ==> s.rows[r].group == None)
  }

  /** A commit or an attach logs and makes exactly the update its worker is about to make; only an attach
      to a group of another category makes none. */
  lemma WriteStep(s: State, l: Label, t: State)
    requires Inv(s) && Next(s, l, t) && WritesRows(l)
    ensures t.rows.Keys == s.rows.Keys
    ensures var p := s.workers[l.w].phase;
            if l.Attach? && !s.groups[p.group] then t.log == s.log && t.rows == s.rows
            else IsWriteOf(s, LinkOf(s, l.w), t)
  {
    assert WorkerOk(s, l.w);
  }

  lemma QuietStepKeepsLog(start: State, s: State, l: Label, t: State)
    requires LogOk(start, s) && Next(s, l, t) && !WritesRows(l)
    ensures LogOk(start, t)
  {
    QuietStep(s, l, t);
    forall r | r in t.rows
      ensures t.rows[r].group == Replay(start, t.log, r)
    {
      if r !in s.rows {
        ReplayUntouched(start, s.log, r);
      }
    }
  }

  lemma WriteKeepsLog(start: State, s: State, link: Link, t: State)
    requires LogOk(start, s) && IsWriteOf(s, link, t)
    ensures LogOk(start, t)
  {
    assert t.log[..|s.log|] == s.log;
    forall k | 0 <= k < |t.log|
      ensures LinkOk(start, t.log, k) && t.log[k].rows <= t.rows.Keys
    {
      if k < |s.log| {
        assert LinkOk(start, s.log, k);
        assert t.log[..k] == s.log[..k];
      }
    }
  }

  lemma StepKeepsLog(start: State, s: State, l: Label, t: State)
    requires Inv(s) && LogOk(start, s) && Next(s, l, t)
    ensures LogOk(start, t)
  {
    if WritesRows(l) {
      WriteStep(s, l, t);
      if t.log != s.log {
        WriteKeepsLog(start, s, LinkOf(s, l.w), t);
      }
    } else {
      QuietStepKeepsLog(start, s, l, t);
    }
  }

  lemma {:induction false} RunIsSound(states: seq<State>, labels: seq<Label>, n: nat)
    requires IsRun(states, labels) && n < |states|
    ensures Inv(states[n]) && LogOk(states[0], states[n])
  {
    if n > 0 {
      RunIsSound(states, labels, n - 1);
      assert Next(states[n - 1], labels[n - 1], states[n]);
      StepKeepsInv(states[n - 1], labels[n - 1], states[n]);
      StepKeepsLog(states[0], states[n - 1], labels[n - 1], states[n]);
    }
  }

  // ----- the main results

  lemma {:induction false} ReplayKeepsLinked(start: State, log: seq<Link>, r: RowId)
    requires StartGroup(start, r).Some?
    ensures Replay(start, log, r).Some?
  {
    if log != [] {
      ReplayKeepsLinked(start, log[..|log| - 1], r);
    }
  }

  /** Over any interleaving, the updates made under the row locks (creations, Seer links, and the
      optimized form's in-lock attach) never touch the same row twice, and never touch a row that was
      linked at the start: two created groups share no row. */
  lemma LockedLinksAreDisjoint(states: seq<State>, labels: seq<Label>, n: nat, i: nat, j: nat)
    requires IsRun(states, labels) && n < |states|
    requires i < j < |states[n].log| && Locked(states[n].log[i]) && Locked(states[n].log[j])
    ensures states[n].log[i].rows !! states[n].log[j].rows
    ensures forall r :: r in states[n].log[j].rows ==> StartGroup(states[0], r) == None
  {
    RunIsSound(states, labels, n);
    var log := states[n].log;
    assert LinkOk(states[0], log, j) && LinkOk(states[0], log, i);
    if r :| r in log[i].rows && r in log[j].rows {
      ReplayLinked(states[0], log[..j], r, i);
      assert false;
    }
    forall r | r in log[j].rows
      ensures StartGroup(states[0], r) == None
    {
      if StartGroup(states[0], r).Some? {
        ReplayKeepsLinked(states[0], log[..j], r);
      }
    }
  }

  lemma WriteKeepsLinked(s: State, link: Link, t: State, r: RowId)
    requires IsWriteOf(s, link, t) && r in s.rows && s.rows[r].group.Some?
    ensures r in t.rows && t.rows[r].group.Some?
  {}

  lemma StepKeepsLinked(s: State, l: Label, t: State, r: RowId)
    requires Inv(s) && Next(s, l, t)
    requires r in s.rows && s.rows[r].group.Some?
    ensures r in t.rows && t.rows[r].group.Some?
  {
    if WritesRows(l) {
      WriteStep(s, l, t);
      if t.log != s.log {
        WriteKeepsLinked(s, LinkOf(s, l.w), t, r);
      }
    } else {
      QuietStep(s, l, t);
    }
  }

  /** A linked row is never unlinked. */
  lemma {:induction false} LinkedForever(states: seq<State>, labels: seq<Label>, m: nat, n: nat, r: RowId)
    requires IsRun(states, labels) && m <= n < |states|
    requires r in states[m].rows && states[m].rows[r].group.Some?
    ensures r in states[n].rows && states[n].rows[r].group.Some?
  {
    if m < n {
      LinkedForever(states, labels, m, n - 1, r);
      RunIsSound(states, labels, n - 1);
      assert Next(states[n - 1], labels[n - 1], states[n]);
      StepKeepsLinked(states[n - 1], labels[n - 1], states[n], r);
    }
  }

  /** From its recheck until it commits, a creating or Seer-linking worker's rows stay unlinked, and
      no other worker is in a transaction on any of them. */
  lemma RecheckedRowsStayUnlinked(states: seq<State>, labels: seq<Label>, n: nat, w: WorkerId)
    requires IsRun(states, labels) && n < |states| && w in states[n].workers
    requires var p := states[n].workers[w].phase; p.Rechecked? || (p.Writing? && (p.kind.Created? || p.kind.SeerMatched?))
    ensures forall h :: h in states[n].workers[w].hashes ==>
              h in states[n].rows && states[n].rows[h].group == None
    ensures forall v, h | v in states[n].workers && v != w && h in states[n].workers[w].hashes ::
              InTransaction(states[n].workers[v].phase) ==> h !in states[n].workers[v].hashes
  {
    RunIsSound(states, labels, n);
    var s := states[n];
    var k := s.workers[w];
    assert WorkerOk(s, w);
    forall h | h in k.hashes
      ensures h in s.rows && s.rows[h].group == None && h in s.locks && s.locks[h] == w
    {
      var i :| 0 <= i < |k.hashes| && k.hashes[i] == h;
      assert k.seen[i] == s.rows[h].group;
    }
    forall v, h | v in s.workers && v != w && InTransaction(s.workers[v].phase) && h in k.hashes
      ensures h !in s.workers[v].hashes
    {
      assert WorkerOk(s, v);
    }
  }

  /** No step links or relinks a row while it is LOCKED_IN_MIGRATION. */
  lemma MigratingRowsAreLeftAlone(s: State, l: Label, t: State, r: RowId)
    requires Inv(s) && Next(s, l, t)
    requires r in s.rows && s.rows[r].migrating
    ensures r in t.rows && t.rows[r].group == s.rows[r].group
  {
    if WritesRows(l) {
      assert WorkerOk(s, l.w);
    } else {
      QuietStep(s, l, t);
    }
  }

  // ----- who can steal a hash

  /** Worker `w`, outside any transaction, is about to attach to an ERROR group other than `h` a row it
      read as unlinked that has been linked to `h` since. */
  ghost predicate StealsFrom(s: State, l: Label, r: RowId, h: GroupId) {
    && l.Attach?
    && l.w in s.workers
    && var k := s.workers[l.w];
    && k.phase.Found?
    && k.phase.group in s.groups && s.groups[k.phase.group]
    && k.phase.group != h
    && r in s.rows && !s.rows[r].migrating
    && exists i :: 0 <= i < |k.hashes| && i < |k.seen| && k.hashes[i] == r && k.seen[i] == None
  }

  /** The exact case in which a step replaces one group by another: nothing but an unlocked attach
      working from a stale read does. */
  lemma OnlyStaleAttachSteals(s: State, l: Label, t: State, r: RowId, h: GroupId)
    requires Inv(s) && Next(s, l, t)
    requires r in s.rows && s.rows[r].group == Some(h)
    ensures r in t.rows && t.rows[r].group != Some(h) <==> StealsFrom(s, l, r, h)
  {
    if WritesRows(l) {
      assert WorkerOk(s, l.w);
      if l.Attach? {
        var k := s.workers[l.w];
        assert r in Targets(s, k) <==>
          exists i :: 0 <= i < |k.hashes| && k.hashes[i] == r && k.seen[i] == None && !s.rows[r].migrating;
      }
    } else {
      QuietStep(s, l, t);
    }
  }

  // A run in which a hash is stolen from a worker that never found an existing group.  Worker 0 finds
  // group 0 by its second hash and has read its first hash as unlinked; worker 1 creates group 1 for
  // that hash under its lock; then worker 0 attaches.

  const FINDER := Worker(Legacy, [10, 20], 1, [], Reading)
  const CREATOR := Worker(Legacy, [10], 1, [], Reading)

  function TheftState(finder: Worker, creator: Worker): State {
    State(map[10 := Row(None, false), 20 := Row(Some(0), false)], map[], map[0 := true], 1,
          map[0 := finder, 1 := creator], [])
  }

  lemma TheftReads()
    ensures var f1 := FINDER.(seen := [None]);
            var f2 := FINDER.(seen := [None, Some(0)]);
            && Next(TheftState(FINDER, CREATOR), Read(0), TheftState(f1, CREATOR))
            && Next(TheftState(f1, CREATOR), Read(0), TheftState(f2, CREATOR))
  {
    var f1 := FINDER.(seen := [None]);
    var f2 := FINDER.(seen := [None, Some(0)]);
    assert f1.seen == FINDER.seen + [None];
    assert f2.seen == f1.seen + [Some(0)];
    assert TheftState(f1, CREATOR).workers == TheftState(FINDER, CREATOR).workers[0 := f1];
    assert TheftState(f2, CREATOR).workers == TheftState(f1, CREATOR).workers[0 := f2];
  }

  lemma TheftFinds()
    ensures var f2 := FINDER.(seen := [None, Some(0)]);
            Next(TheftState(f2, CREATOR), Look(0), TheftState(f2.(phase := Found(0)), CREATOR))
  {
    var f2 := FINDER.(seen := [None, Some(0)]);
    var f3 := f2.(phase := Found(0));
    assert TheftState(f3, CREATOR).workers == TheftState(f2, CREATOR).workers[0 := f3];
    assert f2.hashes[..2] == f2.hashes;
    assert f2.seen[1] == Some(0);
  }

  lemma TheftMiss(f: Worker)
    ensures var c1 := CREATOR.(seen := [None]);
            && Next(TheftState(f, CREATOR), Read(1), TheftState(f, c1))
            && Next(TheftState(f, c1), Look(1), TheftState(f, c1.(phase := Missed)))
  {
    var c1 := CREATOR.(seen := [None]);
    assert c1.seen == CREATOR.seen + [None];
    assert TheftState(f, c1).workers == TheftState(f, CREATOR).workers[1 := c1];
    var c2 := c1.(phase := Missed);
    assert TheftState(f, c2).workers == TheftState(f, c1).workers[1 := c2];
  }

  function Locking(s: State, c: Worker): State {
    s.(locks := map[10 := 1], workers := s.workers[1 := c.(phase := Rechecked)])
  }

  function Creating(s: State, c: Worker): State {
    s.(locks := map[10 := 1], nextGroup := 2, workers := s.workers[1 := c.(phase := Writing(1, Created, {10}))])
  }

  function AfterCreation(s: State, c: Worker): State {
    s.(rows := s.rows[10 := Row(Some(1), false)], groups := s.groups[1 := true], nextGroup := 2,
       workers := s.workers[1 := c.(phase := Done(Some(1), true))],
       log := s.log + [Link(1, Created, 1, {10}, map[10 := None])])
  }

  predicate AboutToCreate(s: State, c: Worker) {
    && c == CREATOR.(seen := [None], phase := Missed)
    && 1 in s.workers && s.workers[1] == c
    && s.locks == map[] && s.nextGroup == 1
    && 10 in s.rows && s.rows[10] == Row(None, false)
  }

  lemma TheftLocks(s: State, c: Worker)
    requires AboutToCreate(s, c)
    ensures Next(s, Lock(1, 0), Locking(s, c))
  {
    assert c.hashes[0] == 10;
    assert seq(|c.hashes|, i requires 0 <= i < |c.hashes| => s.rows[c.hashes[i]].group) == [None];
    assert s.locks + (map h | h in HashSet(c) :: 1) == map[10 := 1];
  }

  lemma TheftCreates(s: State, c: Worker)
    requires AboutToCreate(s, c)
    ensures Next(Locking(s, c), Create(1), Creating(s, c))
  {
    var t := Locking(s, c);
    assert c.hashes[0] == 10 && c.seen[0] == None;
    assert Targets(t, t.workers[1]) == {10};
    assert Creating(s, c).workers == t.workers[1 := c.(phase := Writing(1, Created, {10}))];
  }

  lemma TheftCommits(s: State, c: Worker)
    requires AboutToCreate(s, c)
    ensures Next(Creating(s, c), Commit(1), AfterCreation(s, c))
  {
    var t := Creating(s, c);
    assert Write(t.rows, {10}, 1) == AfterCreation(s, c).rows;
    assert GroupsBefore(t, {10}) == map[10 := None];
    assert Unlock(t.locks, 1) == map[];
    assert AfterCreation(s, c).workers == t.workers[1 := c.(phase := Done(Some(1), true))];
  }

  function TheftResult(s: State, f: Worker): State {
    s.(rows := s.rows[10 := Row(Some(0), false)],
       workers := s.workers[0 := f.(phase := Done(Some(0), false))],
       log := s.log + [Link(0, AttachedUnlocked, 0, {10}, map[10 := Some(1)])])
  }

  lemma TheftAttaches(s: State, f: Worker)
    requires f == FINDER.(seen := [None, Some(0)], phase := Found(0))
    requires 0 in s.workers && s.workers[0] == f && s.locks == map[] && 0 in s.groups && s.groups[0]
    requires s.rows == map[10 := Row(Some(1), false), 20 := Row(Some(0), false)]
    ensures Next(s, Attach(0), TheftResult(s, f)) && StealsFrom(s, Attach(0), 10, 1)
  {
    assert f.hashes[0] == 10 && f.seen[0] == None;
    assert Targets(s, f) == {10};
    assert Write(s.rows, {10}, 0) == TheftResult(s, f).rows;
    assert GroupsBefore(s, {10}) == map[10 := Some(1)];
  }

  ghost predicate NeverFindsGroup(states: seq<State>, w: WorkerId) {
    forall i :: 0 <= i < |states| ==>
      w in states[i].workers && !states[i].workers[w].phase.Found? && !states[i].workers[w].phase.LockedFound?
  }

  lemma ExtendRun(states: seq<State>, labels: seq<Label>, l: Label, t: State) returns (states': seq<State>, labels': seq<Label>)
    requires IsRun(states, labels) && Next(states[|labels|], l, t) && NeverFindsGroup(states, 1)
    requires 1 in t.workers && !t.workers[1].phase.Found? && !t.workers[1].phase.LockedFound?
    ensures IsRun(states', labels') && NeverFindsGroup(states', 1)
    ensures |labels'| == |labels| + 1 && labels'[|labels|] == l
    ensures states'[|labels|] == states[|labels|] && states'[|labels'|] == t
  {
    states', labels' := states + [t], labels + [l];
  }

  lemma TheftFinderReads() returns (states: seq<State>, labels: seq<Label>)
    ensures IsRun(states, labels) && NeverFindsGroup(states, 1)
    ensures states[|labels|] == TheftState(FINDER.(seen := [None, Some(0)]), CREATOR)
  {
    TheftReads();
    states := [TheftState(FINDER, CREATOR), TheftState(FINDER.(seen := [None]), CREATOR),
               TheftState(FINDER.(seen := [None, Some(0)]), CREATOR)];
    labels := [Read(0), Read(0)];
  }

  lemma TheftPrefix() returns (states: seq<State>, labels: seq<Label>)
    ensures IsRun(states, labels) && NeverFindsGroup(states, 1)
    ensures states[|labels|] == TheftState(FINDER.(seen := [None, Some(0)], phase := Found(0)),
                                           CREATOR.(seen := [None], phase := Missed))
  {
    states, labels := TheftFinderReads();
    TheftFinds();
    var f := FINDER.(seen := [None, Some(0)], phase := Found(0));
    TheftMiss(f);
    var c := CREATOR.(seen := [None]);
    states, labels := ExtendRun(states, labels, Look(0), TheftState(f, CREATOR));
    states, labels := ExtendRun(states, labels, Read(1), TheftState(f, c));
    states, labels := ExtendRun(states, labels, Look(1), TheftState(f, c.(phase := Missed)));
  }

  lemma TheftCreation(states: seq<State>, labels: seq<Label>, s: State, c: Worker)
    returns (states': seq<State>, labels': seq<Label>)
    requires IsRun(states, labels) && NeverFindsGroup(states, 1) && states[|labels|] == s
    requires AboutToCreate(s, c)
    ensures IsRun(states', labels') && NeverFindsGroup(states', 1) && states'[|labels'|] == AfterCreation(s, c)
  {
    TheftLocks(s, c);
    states', labels' := ExtendRun(states, labels, Lock(1, 0), Locking(s, c));
    TheftCreates(s, c);
    states', labels' := ExtendRun(states', labels', Create(1), Creating(s, c));
    TheftCommits(s, c);
    states', labels' := ExtendRun(states', labels', Commit(1), AfterCreation(s, c));
  }

  /** A hash can jump between groups although only one of the two processes found an existing group. */
  lemma HashStolenFromCreator() returns (states: seq<State>, labels: seq<Label>)
    ensures IsRun(states, labels) && |labels| > 0 && NeverFindsGroup(states, 1)
    ensures var s := states[|labels| - 1];
            && 10 in s.rows && s.rows[10].group == Some(1)
            && |s.log| == 1 && s.log[0].kind == Created && s.log[0].worker == 1
            && StealsFrom(s, labels[|labels| - 1], 10, 1)
    ensures var t := states[|labels|]; 10 in t.rows && t.rows[10].group == Some(0)
  {
    states, labels := TheftPrefix();
    var s, f, c := states[|labels|], FINDER.(seen := [None, Some(0)], phase := Found(0)), CREATOR.(seen := [None], phase := Missed);
    states, labels := TheftCreation(states, labels, s, c);
    var u := AfterCreation(s, c);
    assert u.workers[0] == f;
    TheftAttaches(u, f);
    states, labels := ExtendRun(states, labels, Attach(0), TheftResult(u, f));
  }
}
