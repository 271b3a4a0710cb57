/**
 The race the double-checked locking is there for: every event carries the same hashes, none of which
 has a group yet.  Over every interleaving of either form of worker, one group is created and every
 event that completes is in it.
 */
module OneCreator {
  import opened Wrappers
  import opened GroupAssignment

  /** No Seer match and no migration of the shared hashes. */
  predicate PlainLabel(l: Label, hashes: set<RowId>) {
    && !l.SeerUnlocked?
    && !l.SeerLocked?
    && (l.SetMigrating? ==> l.row !in hashes)
  }

  predicate RaceStart(s: State, hashes: set<RowId>) {
    && hashes != {}
    && (forall h :: h in hashes && h in s.rows ==> s.rows[h] == Row(None, false))
    && (forall w :: w in s.workers ==> HashSet(s.workers[w]) == hashes)
  }

  ghost predicate IsRace(states: seq<State>, labels: seq<Label>, hashes: set<RowId>) {
    && IsRun(states, labels)
    && RaceStart(states[0], hashes)
    && forall i :: 0 <= i < |labels| ==> PlainLabel(labels[i], hashes)
  }

  // ----- before the first commit

  predicate OpenWorker(k: Worker, hashes: set<RowId>) {
    && HashSet(k) == hashes
    && NoneSeen(k.seen)
    && !k.phase.Found? && !k.phase.LockedFound? && !k.phase.Done?
    && (k.phase.Writing? ==> k.phase.kind == Created && k.phase.targets == hashes)
  }

  predicate Open(s: State, hashes: set<RowId>) {
    && hashes != {}
    && s.log == []
    && (forall h :: h in hashes && h in s.rows ==> s.rows[h] == Row(None, false))
    && (forall w :: w in s.workers ==> OpenWorker(s.workers[w], hashes))
  }

  // ----- after it

  predicate ClosedWorker(k: Worker, hashes: set<RowId>, g: GroupId, isCreator: bool) {
    && (forall i :: 0 <= i < |k.seen| ==> k.seen[i] == None || k.seen[i] == Some(g))
    && (k.phase.Reading? || k.phase.Missed? ==> HashSet(k) == hashes)
    && !k.phase.Rechecked?
    && (k.phase.Writing? ==> k.phase.kind == AttachedLocked && k.phase.group == g)
    && (k.phase.Found? || k.phase.LockedFound? ==> k.phase.group == g)
    && (k.phase.Done? ==> k.phase == Done(Some(g), isCreator))
    && (isCreator ==> k.phase.Done?)
  }

  predicate Closed(s: State, hashes: set<RowId>, g: GroupId, c: WorkerId) {
    && hashes != {}
    && s.log != []
    && s.log[0].kind == Created && s.log[0].rows == hashes && s.log[0].worker == c
    && (forall i :: 0 < i < |s.log| ==> s.log[i].kind != Created)
    && (forall i :: 0 <= i < |s.log| ==> s.log[i].group == g)
    && g in s.groups && s.groups[g]
    && c in s.workers
    && (forall h :: h in hashes ==> h in s.rows && s.rows[h] == Row(Some(g), false))
    && (forall w :: w in s.workers ==> ClosedWorker(s.workers[w], hashes, g, w == c))
  }

  lemma TargetsAreAll(s: State, k: Worker, hashes: set<RowId>)
    requires UpdateReady(s, k) && HashSet(k) == hashes && NoneSeen(k.seen)
    requires forall h :: h in hashes && h in s.rows ==> !s.rows[h].migrating
    ensures Targets(s, k) == hashes
  {
    forall h | h in hashes
      ensures h in Targets(s, k)
    {
      var i :| 0 <= i < |k.hashes| && k.hashes[i] == h;
    }
  }

  lemma OpenBeforeLocking(s: State, l: Label, t: State, hashes: set<RowId>)
    requires Open(s, hashes) && Next(s, l, t) && PlainLabel(l, hashes) && BeforeLocking(l)
    ensures Open(t, hashes)
  {
    var k := s.workers[l.w];
    assert OpenWorker(k, hashes);
    if l.Lock? {
      assert forall h :: h in k.hashes ==> h in HashSet(k);
    }
    if l.Read? {
      assert k.hashes[|k.seen|] in HashSet(k);
    }
  }

  lemma OpenUnderLocks(s: State, l: Label, t: State, hashes: set<RowId>)
    requires Open(s, hashes) && Next(s, l, t) && PlainLabel(l, hashes) && UnderLocks(l)
    ensures Open(t, hashes)
  {
    assert OpenWorker(s.workers[l.w], hashes);
    if l.Create? {
      TargetsAreAll(s, s.workers[l.w], hashes);
    }
  }

  /** Nothing but a commit closes the race. */
  lemma OpenStaysOpen(s: State, l: Label, t: State, hashes: set<RowId>)
    requires Open(s, hashes) && Next(s, l, t) && PlainLabel(l, hashes) && !l.Commit?
    ensures Open(t, hashes)
  {
    if BeforeLocking(l) {
      OpenBeforeLocking(s, l, t, hashes);
    } else if UnderLocks(l) {
      OpenUnderLocks(s, l, t, hashes);
    }
  }

  /** All workers need the same rows, so one transaction excludes every other. */
  lemma TransactionsExcludeEachOther(s: State, w: WorkerId, v: WorkerId, hashes: set<RowId>)
    requires Inv(s) && Open(s, hashes) && v != w
    requires w in s.workers && InTransaction(s.workers[w].phase) && v in s.workers
    ensures !InTransaction(s.workers[v].phase)
  {
    assert OpenWorker(s.workers[w], hashes) && WorkerOk(s, w);
    assert OpenWorker(s.workers[v], hashes) && WorkerOk(s, v);
    var h :| h in hashes;
    assert h in HashSet(s.workers[w]) && h in HashSet(s.workers[v]);
  }

  lemma CommitClosesWorker(s: State, w: WorkerId, t: State, hashes: set<RowId>, v: WorkerId)
    requires Inv(s) && Open(s, hashes) && CommitStep(s, w, t) && v in s.workers
    ensures ClosedWorker(t.workers[v], hashes, s.workers[w].phase.group, v == w)
  {
    assert OpenWorker(s.workers[w], hashes) && OpenWorker(s.workers[v], hashes);
    assert WorkerOk(s, w) && WorkerOk(s, v);
    if v != w {
      TransactionsExcludeEachOther(s, w, v, hashes);
    }
  }

  lemma CommitLinksAll(s: State, w: WorkerId, t: State, hashes: set<RowId>)
    requires Open(s, hashes) && CommitStep(s, w, t) && WorkerOk(s, w)
    ensures var g := s.workers[w].phase.group;
            && t.log == [Link(w, Created, g, hashes, GroupsBefore(s, hashes))]
            && g in t.groups && t.groups[g]
            && forall h :: h in hashes ==> h in t.rows && t.rows[h] == Row(Some(g), false)
  {
    assert OpenWorker(s.workers[w], hashes);
  }

  lemma CommitCloses(s: State, w: WorkerId, t: State, hashes: set<RowId>)
    requires Inv(s) && Open(s, hashes) && CommitStep(s, w, t)
    ensures Closed(t, hashes, s.workers[w].phase.group, w)
  {
    CommitLinksAll(s, w, t, hashes);
    forall v | v in s.workers
      ensures ClosedWorker(t.workers[v], hashes, s.workers[w].phase.group, v == w)
    {
      CommitClosesWorker(s, w, t, hashes, v);
    }
  }

  lemma LockFindsGroup(s: State, w: WorkerId, pick: nat, t: State, hashes: set<RowId>, g: GroupId, c: WorkerId)
    requires Closed(s, hashes, g, c) && LockStep(s, w, pick, t)
    ensures t.workers[w].phase == LockedFound(g)
    ensures forall i :: 0 <= i < |t.workers[w].seen| ==> t.workers[w].seen[i] == Some(g)
  {
    var k := s.workers[w];
    assert ClosedWorker(k, hashes, g, w == c);
    forall j | 0 <= j < |k.hashes|
      ensures s.rows[k.hashes[j]].group == Some(g)
    {
      assert k.hashes[j] in HashSet(k);
    }
    var h :| h in hashes;
    assert h in HashSet(k);
    var i :| 0 <= i < |k.hashes| && k.hashes[i] == h;
    assert t.workers[w].seen[i] == Some(g);
  }

  /** Whoever takes the locks now loses the race. */
  lemma ClosedLock(s: State, w: WorkerId, pick: nat, t: State, hashes: set<RowId>, g: GroupId, c: WorkerId)
    requires Closed(s, hashes, g, c) && LockStep(s, w, pick, t)
    ensures Closed(t, hashes, g, c) && t.workers[w].phase == LockedFound(g)
  {
    assert ClosedWorker(s.workers[w], hashes, g, w == c);
    LockFindsGroup(s, w, pick, t, hashes, g, c);
  }

  lemma ClosedBeforeLocking(s: State, l: Label, t: State, hashes: set<RowId>, g: GroupId, c: WorkerId)
    requires Closed(s, hashes, g, c) && Next(s, l, t) && PlainLabel(l, hashes) && BeforeLocking(l) && !l.Lock?
    ensures Closed(t, hashes, g, c)
  {
    var k := s.workers[l.w];
    assert ClosedWorker(k, hashes, g, l.w == c);
    if l.Read? {
      assert k.hashes[|k.seen|] in HashSet(k);
    }
  }

  lemma ClosedUnderLocks(s: State, l: Label, t: State, hashes: set<RowId>, g: GroupId, c: WorkerId)
    requires Closed(s, hashes, g, c) && Next(s, l, t) && PlainLabel(l, hashes) && UnderLocks(l)
    ensures Closed(t, hashes, g, c)
  {
    assert ClosedWorker(s.workers[l.w], hashes, g, l.w == c);
  }

  lemma ClosedWrites(s: State, l: Label, t: State, hashes: set<RowId>, g: GroupId, c: WorkerId)
    requires Closed(s, hashes, g, c) && Next(s, l, t) && PlainLabel(l, hashes) && WritesRows(l)
    ensures Closed(t, hashes, g, c)
  {
    assert ClosedWorker(s.workers[l.w], hashes, g, l.w == c);
  }

  /** Once closed, the race stays closed on the same group and creator. */
  lemma ClosedStaysClosed(s: State, l: Label, t: State, hashes: set<RowId>, g: GroupId, c: WorkerId)
    requires Closed(s, hashes, g, c) && Next(s, l, t) && PlainLabel(l, hashes)
    ensures Closed(t, hashes, g, c)
  {
    if l.Lock? {
      ClosedLock(s, l.w, l.pick, t, hashes, g, c);
    } else if BeforeLocking(l) {
      ClosedBeforeLocking(s, l, t, hashes, g, c);
    } else if UnderLocks(l) {
      ClosedUnderLocks(s, l, t, hashes, g, c);
    } else if WritesRows(l) {
      ClosedWrites(s, l, t, hashes, g, c);
    }
  }

  lemma StepInRace(s: State, l: Label, t: State, hashes: set<RowId>)
    requires Inv(s) && Next(s, l, t) && PlainLabel(l, hashes)
    requires Open(s, hashes) || exists g, c :: Closed(s, hashes, g, c)
    ensures Open(t, hashes) || exists g, c :: Closed(t, hashes, g, c)
  {
    if Open(s, hashes) {
      if l.Commit? {
        CommitCloses(s, l.w, t, hashes);
      } else {
        OpenStaysOpen(s, l, t, hashes);
      }
    } else {
      var g, c :| Closed(s, hashes, g, c);
      ClosedStaysClosed(s, l, t, hashes, g, c);
    }
  }

  lemma {:induction false} RaceIsOpenOrClosed(states: seq<State>, labels: seq<Label>, hashes: set<RowId>, n: nat)
    requires IsRace(states, labels, hashes) && n < |states|
    ensures Inv(states[n])
    ensures Open(states[n], hashes) || exists g, c :: Closed(states[n], hashes, g, c)
  {
    if n > 0 {
      RaceIsOpenOrClosed(states, labels, hashes, n - 1);
      assert Next(states[n - 1], labels[n - 1], states[n]);
      StepKeepsInv(states[n - 1], labels[n - 1], states[n]);
      StepInRace(states[n - 1], labels[n - 1], states[n], hashes);
    }
  }

  /** A worker that has created, or is about to commit, a group of its own. */
  predicate IsCreator(k: Worker) {
    (k.phase.Writing? && k.phase.kind == Created) || (k.phase.Done? && k.phase.isNew)
  }

  lemma AtMostOneCreator(s: State, hashes: set<RowId>, v: WorkerId, w: WorkerId)
    requires Inv(s) && (Open(s, hashes) || exists g, c :: Closed(s, hashes, g, c))
    requires v in s.workers && IsCreator(s.workers[v])
    requires w in s.workers && IsCreator(s.workers[w])
    ensures v == w
  {
    if Open(s, hashes) {
      assert OpenWorker(s.workers[v], hashes) && OpenWorker(s.workers[w], hashes);
      if v != w {
        TransactionsExcludeEachOther(s, v, w, hashes);
      }
    } else {
      var g, c :| Closed(s, hashes, g, c);
      assert ClosedWorker(s.workers[v], hashes, g, v == c) && ClosedWorker(s.workers[w], hashes, g, w == c);
    }
  }

  /** Over every interleaving of a race: all committed links are to one group, created by the first
      commit and never again; every completed event is in that group; and as soon as any event has
      completed exactly one of them is the creator. */
  lemma RaceCreatesOneGroup(states: seq<State>, labels: seq<Label>, hashes: set<RowId>, n: nat)
    requires IsRace(states, labels, hashes) && n < |states|
    ensures var s := states[n];
            && (forall i :: 0 <= i < |s.log| ==> s.log[i].group == s.log[0].group)
            && (forall i :: 0 <= i < |s.log| ==> (s.log[i].kind == Created <==> i == 0))
            && (forall w :: w in s.workers && s.workers[w].phase.Done? ==>
                  s.log != [] && s.workers[w].phase.result == Some(s.log[0].group))
            && (s.log != [] ==> forall h :: h in hashes ==> h in s.rows && s.rows[h].group == Some(s.log[0].group))
    ensures var s := states[n];
            && (forall v, w :: v in s.workers && w in s.workers && IsCreator(s.workers[v]) && IsCreator(s.workers[w]) ==> v == w)
            && ((exists w :: w in s.workers && s.workers[w].phase.Done?) ==>
                  exists c :: c in s.workers && s.workers[c].phase.Done? && s.workers[c].phase.isNew)
  {
    RaceIsOpenOrClosed(states, labels, hashes, n);
    var s := states[n];
    forall v, w | v in s.workers && w in s.workers && IsCreator(s.workers[v]) && IsCreator(s.workers[w])
      ensures v == w
    {
      AtMostOneCreator(s, hashes, v, w);
    }
    if Open(s, hashes) {
      assert forall w :: w in s.workers ==> OpenWorker(s.workers[w], hashes);
    } else {
      var g, c :| Closed(s, hashes, g, c);
      assert forall w :: w in s.workers ==> ClosedWorker(s.workers[w], hashes, g, w == c);
      assert ClosedWorker(s.workers[c], hashes, g, true);
    }
  }
}
