/**
 Group assignment under concurrency: many workers save events whose hashes are rows of the
 `GroupHash` table, and each event must end up in one group.

 The protocol is a labelled step system.  `rows` holds committed values only, so a plain read sees
 what READ COMMITTED shows; a transaction's own uncommitted update lives in its `Writing` phase.
 `SELECT ... FOR UPDATE` takes the whole row set in one step, and every writer of a row (a
 transaction, an autocommit update, a migration setting the flag) waits for the row's lock.

 `Legacy` workers follow `_save_aggregate`; `Optimized` workers follow `_save_aggregate_new`,
 `handle_existing_grouphash` and `create_group_with_grouphashes`.  Both kinds may run side by side.
 */
module GroupAssignment {
  import opened Wrappers

  type RowId = nat
  type GroupId = nat
  type WorkerId = nat

  /** A `GroupHash` row; `migrating` is the LOCKED_IN_MIGRATION state. */
  datatype Row = Row(group: Option<GroupId>, migrating: bool)

  datatype Form = Legacy | Optimized

  /** Which of the four updates wrote a `group_id`. */
  datatype Kind = Created | SeerMatched | AttachedLocked | AttachedUnlocked

  datatype Phase =
    | Reading                                                           // first, unlocked look
    | Missed                                                            // found no group on it
    | Found(group: GroupId)                                             // existing path, no transaction
    | Rechecked                                                         // locks held, still no group
    | LockedFound(group: GroupId)                                       // locks held, lost the race
    | Writing(group: GroupId, kind: Kind, targets: set<RowId>)          // updated, not yet committed
    | Done(result: Option<GroupId>, isNew: bool)
    | Failed

  /** `seen[i]` is the `group_id` this worker last read for `hashes[i]`. */
  datatype Worker = Worker(form: Form, hashes: seq<RowId>, primary: nat, seen: seq<Option<GroupId>>, phase: Phase)

  /** One committed update: the rows it wrote and what each held just before. */
  datatype Link = Link(worker: WorkerId, kind: Kind, group: GroupId, rows: set<RowId>,
                       before: map<RowId, Option<GroupId>>)

  /** `groups` maps each committed group to whether its category is ERROR. */
  datatype State = State(rows: map<RowId, Row>, locks: map<RowId, WorkerId>, groups: map<GroupId, bool>,
                         nextGroup: GroupId, workers: map<WorkerId, Worker>, log: seq<Link>)

  datatype Label =
    | Read(w: WorkerId)
    | Look(w: WorkerId)
    | Shed(w: WorkerId)
    | SeerUnlocked(w: WorkerId, group: GroupId)
    | Lock(w: WorkerId, pick: nat)
    | Release(w: WorkerId)
    | SeerLocked(w: WorkerId, group: GroupId)
    | Create(w: WorkerId)
    | LinkLocked(w: WorkerId)
    | Commit(w: WorkerId)
    | Abort(w: WorkerId)
    | Attach(w: WorkerId)
    | SetMigrating(row: RowId, flag: bool)

  // ----- the steps

  function HashSet(k: Worker): set<RowId> {
    set h | h in k.hashes
  }

  predicate NoneSeen(seen: seq<Option<GroupId>>) {
    forall i :: 0 <= i < |seen| ==> seen[i] == None
  }

  /** The first entry that has a group. */
  predicate FirstAt(seen: seq<Option<GroupId>>, i: nat) {
    i < |seen| && seen[i].Some? && NoneSeen(seen[..i])
  }

  /** `find_existing_grouphash` on rows in list order; tombstones are in `HashLookup`. */
  function FirstSome(seen: seq<Option<GroupId>>): (r: Option<GroupId>)
    ensures r == None <==> NoneSeen(seen)
    ensures r.Some? ==> r in seen && exists i: nat :: FirstAt(seen, i) && seen[i] == r
  {
    if seen == [] then None
    else if seen[0].Some? then
      assert FirstAt(seen, 0);
      seen[0]
    else
      var r := FirstSome(seen[1..]);
      assert forall i :: 0 < i < |seen| ==> seen[i] == seen[1..][i - 1];
      assert r.Some? ==> exists i: nat :: FirstAt(seen, i) && seen[i] == r by {
        if r.Some? {
          var i: nat :| FirstAt(seen[1..], i) && seen[1..][i] == r;
          assert seen[..i + 1][1..] == seen[1..][..i];
          assert FirstAt(seen, i + 1);
        }
      }
      r
  }

  predicate InTransaction(p: Phase) {
    p.Rechecked? || p.LockedFound? || p.Writing?
  }

  /** The rows an update of the "new" hashes really touches: read as unlinked, not migrating. */
  function Targets(s: State, k: Worker): set<RowId>
    requires |k.seen| == |k.hashes|
    requires forall h :: h in k.hashes ==> h in s.rows
  {
    set i | 0 <= i < |k.hashes| && k.seen[i] == None && !s.rows[k.hashes[i]].migrating :: k.hashes[i]
  }

  function Write(rows: map<RowId, Row>, targets: set<RowId>, g: GroupId): map<RowId, Row> {
    map r | r in rows :: if r in targets then rows[r].(group := Some(g)) else rows[r]
  }

  function GroupsBefore(s: State, targets: set<RowId>): map<RowId, Option<GroupId>>
    requires targets <= s.rows.Keys
  {
    map r | r in targets :: s.rows[r].group
  }

  function Unlock(locks: map<RowId, WorkerId>, w: WorkerId): map<RowId, WorkerId> {
    map r | r in locks && locks[r] != w :: locks[r]
  }

  /** `get_or_create_grouphashes` handles one hash: the row is created unlinked when missing.  The
      optimized form computes secondary hashes only when no primary row has a group. */
  predicate ReadStep(s: State, w: WorkerId, t: State) {
    w in s.workers &&
    var k := s.workers[w];
    && k.phase == Reading
    && |k.seen| < |k.hashes|
    && (k.form == Optimized && k.primary <= |k.seen| ==> NoneSeen(k.seen[..k.primary]))
    && var r := k.hashes[|k.seen|];
    var rows := if r in s.rows then s.rows else s.rows[r := Row(None, false)];
    t == s.(rows := rows, workers := s.workers[w := k.(seen := k.seen + [rows[r].group])])
  }

  /** The first look: over the primary rows alone when they decide it (optimized form), otherwise over
      everything read. */
  predicate LookStep(s: State, w: WorkerId, t: State) {
    w in s.workers &&
    var k := s.workers[w];
    && k.phase == Reading
    && (|k.seen| == |k.hashes| || (k.form == Optimized && |k.seen| == k.primary && !NoneSeen(k.seen)))
    && |k.seen| <= |k.hashes|
    && t == s.(workers := s.workers[w :=
         match FirstSome(k.seen)
         case Some(g) => k.(hashes := k.hashes[..|k.seen|], phase := Found(g))
         case None => k.(phase := Missed)])
  }

  /** A tombstone met on the first look, the load-shedding killswitch, or any other error before the
      transaction. */
  predicate ShedStep(s: State, w: WorkerId, t: State) {
    && w in s.workers
    && (s.workers[w].phase == Reading || s.workers[w].phase == Missed)
    && t == s.(workers := s.workers[w := s.workers[w].(phase := Failed)])
  }

  /** The optimized form asks Seer before taking any lock and treats a match as an existing group. */
  predicate SeerUnlockedStep(s: State, w: WorkerId, g: GroupId, t: State) {
    && w in s.workers
    && s.workers[w].phase == Missed
    && s.workers[w].form == Optimized
    && g in s.groups
    && t == s.(workers := s.workers[w := s.workers[w].(phase := Found(g))])
  }

  /** `SELECT ... FOR UPDATE` and the second look.  The query has no ORDER BY, so `pick` may name any
      row that has a group. */
  predicate LockStep(s: State, w: WorkerId, pick: nat, t: State) {
    w in s.workers &&
    var k := s.workers[w];
    && k.phase == Missed
    && (forall h :: h in k.hashes ==> h in s.rows && h !in s.locks)
    && var seen := seq(|k.hashes|, i requires 0 <= i < |k.hashes| => s.rows[k.hashes[i]].group);
    && (NoneSeen(seen) || (pick < |seen| && seen[pick].Some?))
    && t == s.(locks := s.locks + (map h | h in HashSet(k) :: w),
               workers := s.workers[w := k.(seen := seen,
                 phase := if NoneSeen(seen) then Rechecked else LockedFound(seen[pick].value))])
  }

  /** The legacy form leaves the transaction before taking the existing path. */
  predicate ReleaseStep(s: State, w: WorkerId, t: State) {
    w in s.workers &&
    var k := s.workers[w];
    && k.form == Legacy
    && k.phase.LockedFound?
    && t == s.(locks := Unlock(s.locks, w), workers := s.workers[w := k.(phase := Found(k.phase.group))])
  }

  predicate UpdateReady(s: State, k: Worker) {
    |k.seen| == |k.hashes| && forall h :: h in k.hashes ==> h in s.rows
  }

  /** The legacy form links a Seer match under the locks. */
  predicate SeerLockedStep(s: State, w: WorkerId, g: GroupId, t: State) {
    w in s.workers &&
    var k := s.workers[w];
    && k.form == Legacy
    && k.phase == Rechecked
    && g in s.groups
    && UpdateReady(s, k)
    && t == s.(workers := s.workers[w := k.(phase := Writing(g, SeerMatched, Targets(s, k)))])
  }

  predicate CreateStep(s: State, w: WorkerId, t: State) {
    w in s.workers &&
    var k := s.workers[w];
    && k.phase == Rechecked
    && UpdateReady(s, k)
    && t == s.(nextGroup := s.nextGroup + 1,
               workers := s.workers[w := k.(phase := Writing(s.nextGroup, Created, Targets(s, k)))])
  }

  /** The optimized form attaches to the group it found while still holding the locks; a group of
      another category ends the event without a group. */
  predicate LinkLockedStep(s: State, w: WorkerId, t: State) {
    w in s.workers &&
    var k := s.workers[w];
    && k.form == Optimized
    && k.phase.LockedFound?
    && k.phase.group in s.groups
    && UpdateReady(s, k)
    && t == if s.groups[k.phase.group]
            then s.(workers := s.workers[w := k.(phase := Writing(k.phase.group, AttachedLocked, Targets(s, k)))])
            else s.(locks := Unlock(s.locks, w), workers := s.workers[w := k.(phase := Done(None, false))])
  }

  predicate CommitStep(s: State, w: WorkerId, t: State) {
    w in s.workers &&
    var k := s.workers[w];
    && k.phase.Writing?
    && k.phase.targets <= s.rows.Keys
    && var Writing(g, kind, targets) := k.phase;
    t == s.(rows := Write(s.rows, targets, g),
            locks := Unlock(s.locks, w),
            groups := if kind == Created then s.groups[g := true] else s.groups,
            workers := s.workers[w := k.(phase := Done(Some(g), kind == Created))],
            log := s.log + [Link(w, kind, g, targets, GroupsBefore(s, targets))])
  }

  /** Any exception inside the transaction, a tombstone on the second look included, rolls it back. */
  predicate AbortStep(s: State, w: WorkerId, t: State) {
    && w in s.workers
    && InTransaction(s.workers[w].phase)
    && t == s.(locks := Unlock(s.locks, w), workers := s.workers[w := s.workers[w].(phase := Failed)])
  }

  /** The existing path outside any transaction: one autocommit update of the rows this worker read as
      unlinked, whatever they hold by now. */
  predicate AttachStep(s: State, w: WorkerId, t: State) {
    w in s.workers &&
    var k := s.workers[w];
    && k.phase.Found?
    && k.phase.group in s.groups
    && UpdateReady(s, k)
    && var g, targets := k.phase.group, Targets(s, k);
    if !s.groups[g] then t == s.(workers := s.workers[w := k.(phase := Done(None, false))])
    else
      && (forall r :: r in targets ==> r !in s.locks)
      && t == s.(rows := Write(s.rows, targets, g),
                 workers := s.workers[w := k.(phase := Done(Some(g), false))],
                 log := s.log + [Link(w, AttachedUnlocked, g, targets, GroupsBefore(s, targets))])
  }

  predicate SetMigratingStep(s: State, r: RowId, flag: bool, t: State) {
    && r in s.rows
    && r !in s.locks
    && t == s.(rows := s.rows[r := s.rows[r].(migrating := flag)])
  }

  predicate Next(s: State, l: Label, t: State) {
    match l
    case Read(w) => ReadStep(s, w, t)
    case Look(w) => LookStep(s, w, t)
    case Shed(w) => ShedStep(s, w, t)
    case SeerUnlocked(w, g) => SeerUnlockedStep(s, w, g, t)
    case Lock(w, pick) => LockStep(s, w, pick, t)
    case Release(w) => ReleaseStep(s, w, t)
    case SeerLocked(w, g) => SeerLockedStep(s, w, g, t)
    case Create(w) => CreateStep(s, w, t)
    case LinkLocked(w) => LinkLockedStep(s, w, t)
    case Commit(w) => CommitStep(s, w, t)
    case Abort(w) => AbortStep(s, w, t)
    case Attach(w) => AttachStep(s, w, t)
    case SetMigrating(r, flag) => SetMigratingStep(s, r, flag, t)
  }

  /** Any table, any committed groups, any workers about to start. */
  predicate Init(s: State) {
    && s.locks == map[]
    && s.log == []
    && (forall g :: g in s.groups ==> g < s.nextGroup)
    && (forall r :: r in s.rows && s.rows[r].group.Some? ==> s.rows[r].group.value in s.groups)
    && (forall w :: w in s.workers ==> s.workers[w].phase == Reading && s.workers[w].seen == [])
  }

  ghost predicate IsRun(states: seq<State>, labels: seq<Label>) {
    && |states| == |labels| + 1
    && Init(states[0])
    && forall i {:trigger labels[i]} :: 0 <= i < |labels| ==> Next(states[i], labels[i], states[i + 1])
  }

  // ----- what every step keeps

  /** Facts about worker `w`: a transaction holds all its rows, what it read under the locks is still what
      the rows hold, and a group it found or ended in is one it saw on its rows unless it saw none. */
  predicate WorkerOk(s: State, w: WorkerId)
    requires w in s.workers
  {
    var k := s.workers[w];
    && |k.seen| <= |k.hashes|
    && (forall i :: 0 <= i < |k.seen| ==> k.hashes[i] in s.rows)
    && (forall i :: 0 <= i < |k.seen| && k.seen[i].Some? ==> k.seen[i].value in s.groups)
    && (k.phase.Reading? || k.phase.Failed? || |k.seen| == |k.hashes|)
    && (k.phase.Found? || k.phase.LockedFound? ==> k.phase.group in s.groups)
    && (k.phase.Missed? || k.phase.Rechecked? ==> NoneSeen(k.seen))
    && (k.phase.Reading? && k.form.Optimized? && k.primary < |k.seen| ==> NoneSeen(k.seen[..k.primary]))
    && (k.phase.Found? ==> Some(k.phase.group) in k.seen || NoneSeen(k.seen))
    && (k.phase.LockedFound? ==> Some(k.phase.group) in k.seen)
    && (k.phase.Done? && k.phase.result.Some? ==> k.phase.result in k.seen || NoneSeen(k.seen))
    && (InTransaction(k.phase) ==>
          forall i :: 0 <= i < |k.hashes| ==>
            && k.hashes[i] in s.locks && s.locks[k.hashes[i]] == w
            && k.seen[i] == s.rows[k.hashes[i]].group)
    && (k.phase.Writing? ==>
          && k.phase.kind != AttachedUnlocked
          && (forall r :: r in k.phase.targets ==> r in k.hashes && s.rows[r] == Row(None, false))
          && (forall i :: 0 <= i < |k.hashes| && k.seen[i] == None ==>
                k.hashes[i] in k.phase.targets || s.rows[k.hashes[i]].migrating)
          && (k.phase.kind == Created || k.phase.kind == SeerMatched ==> NoneSeen(k.seen))
          && (k.phase.kind == AttachedLocked ==> Some(k.phase.group) in k.seen)
          && (k.phase.kind == Created <==> k.phase.group !in s.groups))
  }

  predicate LocksOk(s: State) {
    forall r :: r in s.locks ==>
      && s.locks[r] in s.workers
      && InTransaction(s.workers[s.locks[r]].phase)
      && r in s.workers[s.locks[r]].hashes
  }

  predicate GroupsOk(s: State) {
    && (forall g :: g in s.groups ==> g < s.nextGroup)
    && (forall r :: r in s.rows && s.rows[r].group.Some? ==> s.rows[r].group.value in s.groups)
  }

  predicate IsCreating(s: State, w: WorkerId)
    requires w in s.workers
  {
    s.workers[w].phase.Writing? && s.workers[w].phase.kind == Created
  }

  /** Groups created but not committed are all different. */
  predicate CreatorsOk(s: State) {
    && (forall w :: w in s.workers && IsCreating(s, w) ==> s.workers[w].phase.group < s.nextGroup)
    && (forall v, w :: v in s.workers && w in s.workers && v != w && IsCreating(s, v) && IsCreating(s, w) ==>
          s.workers[v].phase.group != s.workers[w].phase.group)
  }

  predicate Inv(s: State) {
    && (forall w :: w in s.workers ==> WorkerOk(s, w))
    && LocksOk(s)
    && GroupsOk(s)
    && CreatorsOk(s)
  }

  /** Worker `w` moved; nothing another transaction relies on did. */
  predicate Frame(s: State, w: WorkerId, t: State) {
    && t.workers.Keys == s.workers.Keys
    && (forall v :: v in s.workers && v != w ==> t.workers[v] == s.workers[v])
    && s.rows.Keys <= t.rows.Keys
    && s.groups.Keys <= t.groups.Keys
    && s.nextGroup <= t.nextGroup
    && (forall r :: r in s.locks && s.locks[r] != w ==> r in t.locks && t.locks[r] == s.locks[r])
    && (forall r :: r in s.locks && s.locks[r] != w && r in s.rows ==> t.rows[r] == s.rows[r])
    && (forall g :: g in t.groups && g !in s.groups ==>
          w in s.workers && IsCreating(s, w) && s.workers[w].phase.group == g)
  }

  lemma OtherStaysOk(s: State, w: WorkerId, t: State, v: WorkerId)
    requires CreatorsOk(s) && Frame(s, w, t) && v in s.workers && v != w && WorkerOk(s, v)
    ensures WorkerOk(t, v)
  {
    var k := s.workers[v];
    assert forall i :: 0 <= i < |k.seen| && InTransaction(k.phase) ==> k.hashes[i] in s.rows;
    if k.phase.Writing? {
      assert forall r :: r in k.phase.targets ==> r in k.hashes;
    }
  }

  lemma OthersStayOk(s: State, w: WorkerId, t: State)
    requires Inv(s) && Frame(s, w, t)
    ensures forall v :: v in t.workers && v != w ==> WorkerOk(t, v)
  {
    forall v | v in t.workers && v != w
      ensures WorkerOk(t, v)
    {
      OtherStaysOk(s, w, t, v);
    }
  }

  predicate BeforeLocking(l: Label) {
    l.Read? || l.Look? || l.Shed? || l.SeerUnlocked? || l.Lock?
  }

  predicate UnderLocks(l: Label) {
    l.Release? || l.SeerLocked? || l.Create? || l.LinkLocked? || l.Abort?
  }

  predicate WritesRows(l: Label) {
    l.Commit? || l.Attach?
  }

  lemma BeforeLockingIsFramed(s: State, l: Label, t: State)
    requires Next(s, l, t) && BeforeLocking(l) && l.w in s.workers && WorkerOk(s, l.w)
    ensures Frame(s, l.w, t)
  {}

  lemma ReadKeepsMover(s: State, w: WorkerId, t: State)
    requires ReadStep(s, w, t) && WorkerOk(s, w) && GroupsOk(s)
    ensures w in t.workers && WorkerOk(t, w)
  {}

  lemma LookKeepsMover(s: State, w: WorkerId, t: State)
    requires LookStep(s, w, t) && WorkerOk(s, w)
    ensures w in t.workers && WorkerOk(t, w)
  {}

  lemma LockKeepsMover(s: State, w: WorkerId, pick: nat, t: State)
    requires LockStep(s, w, pick, t) && WorkerOk(s, w) && GroupsOk(s)
    ensures w in t.workers && WorkerOk(t, w)
  {}

  lemma BeforeLockingKeepsMover(s: State, l: Label, t: State)
    requires Next(s, l, t) && BeforeLocking(l) && l.w in s.workers && WorkerOk(s, l.w) && GroupsOk(s)
    ensures l.w in t.workers && WorkerOk(t, l.w)
  {
    match l
    case Read(w) => ReadKeepsMover(s, w, t);
    case Look(w) => LookKeepsMover(s, w, t);
    case Lock(w, pick) => LockKeepsMover(s, w, pick, t);
    case _ =>
  }

  lemma BeforeLockingKeepsLocks(s: State, l: Label, t: State)
    requires Next(s, l, t) && BeforeLocking(l) && LocksOk(s)
    ensures LocksOk(t)
  {}

  lemma BeforeLockingKeepsGroups(s: State, l: Label, t: State)
    requires Next(s, l, t) && BeforeLocking(l) && l.w in s.workers && WorkerOk(s, l.w) && GroupsOk(s)
    ensures GroupsOk(t)
  {}

  lemma UnderLocksIsFramed(s: State, l: Label, t: State)
    requires Next(s, l, t) && UnderLocks(l) && l.w in s.workers && WorkerOk(s, l.w)
    ensures Frame(s, l.w, t)
  {}

  lemma SeerLockedKeepsMover(s: State, w: WorkerId, g: GroupId, t: State)
    requires SeerLockedStep(s, w, g, t) && WorkerOk(s, w)
    ensures w in t.workers && WorkerOk(t, w)
  {}

  lemma CreateKeepsMover(s: State, w: WorkerId, t: State)
    requires CreateStep(s, w, t) && WorkerOk(s, w) && GroupsOk(s)
    ensures w in t.workers && WorkerOk(t, w)
  {}

  lemma LinkLockedKeepsMover(s: State, w: WorkerId, t: State)
    requires LinkLockedStep(s, w, t) && WorkerOk(s, w)
    ensures w in t.workers && WorkerOk(t, w)
  {}

  lemma UnderLocksKeepsMover(s: State, l: Label, t: State)
    requires Next(s, l, t) && UnderLocks(l) && l.w in s.workers && WorkerOk(s, l.w) && GroupsOk(s)
    ensures l.w in t.workers && WorkerOk(t, l.w)
  {
    match l
    case SeerLocked(w, g) => SeerLockedKeepsMover(s, w, g, t);
    case Create(w) => CreateKeepsMover(s, w, t);
    case LinkLocked(w) => LinkLockedKeepsMover(s, w, t);
    case _ =>
  }

  lemma UnderLocksKeepsLocks(s: State, l: Label, t: State)
    requires Next(s, l, t) && UnderLocks(l) && LocksOk(s)
    ensures LocksOk(t)
  {}

  lemma UnderLocksKeepsGroups(s: State, l: Label, t: State)
    requires Next(s, l, t) && UnderLocks(l) && l.w in s.workers && WorkerOk(s, l.w) && GroupsOk(s)
    ensures GroupsOk(t)
  {}

  lemma WritesRowsIsFramed(s: State, l: Label, t: State)
    requires Next(s, l, t) && WritesRows(l) && l.w in s.workers && WorkerOk(s, l.w)
    ensures Frame(s, l.w, t)
  {}

  lemma CommitKeepsMover(s: State, w: WorkerId, t: State)
    requires CommitStep(s, w, t) && WorkerOk(s, w)
    ensures w in t.workers && WorkerOk(t, w)
  {}

  lemma AttachKeepsMover(s: State, w: WorkerId, t: State)
    requires AttachStep(s, w, t) && WorkerOk(s, w)
    ensures w in t.workers && WorkerOk(t, w)
  {}

  lemma WritesRowsKeepsMover(s: State, l: Label, t: State)
    requires Next(s, l, t) && WritesRows(l) && l.w in s.workers && WorkerOk(s, l.w) && GroupsOk(s)
    ensures l.w in t.workers && WorkerOk(t, l.w)
  {
    if l.Commit? {
      CommitKeepsMover(s, l.w, t);
    } else {
      AttachKeepsMover(s, l.w, t);
    }
  }

  lemma WritesRowsKeepsLocks(s: State, l: Label, t: State)
    requires Next(s, l, t) && WritesRows(l) && LocksOk(s)
    ensures LocksOk(t)
  {}

  lemma WritesRowsKeepsGroups(s: State, l: Label, t: State)
    requires Next(s, l, t) && WritesRows(l) && l.w in s.workers && WorkerOk(s, l.w) && GroupsOk(s) && CreatorsOk(s)
    ensures GroupsOk(t)
  {}

  lemma CreateKeepsCreators(s: State, w: WorkerId, t: State)
    requires CreateStep(s, w, t) && CreatorsOk(s)
    ensures CreatorsOk(t)
  {}

  lemma OthersCreateNothing(s: State, l: Label, t: State)
    requires Next(s, l, t) && !l.Create?
    ensures s.nextGroup == t.nextGroup
    ensures forall v :: v in t.workers && IsCreating(t, v) ==>
              v in s.workers && IsCreating(s, v) && t.workers[v].phase.group == s.workers[v].phase.group
  {}

  lemma StepKeepsCreators(s: State, l: Label, t: State)
    requires Next(s, l, t) && CreatorsOk(s)
    ensures CreatorsOk(t)
  {
    if l.Create? {
      CreateKeepsCreators(s, l.w, t);
    } else {
      OthersCreateNothing(s, l, t);
    }
  }

  lemma SetMigratingKeepsWorker(s: State, r: RowId, flag: bool, t: State, v: WorkerId)
    requires SetMigratingStep(s, r, flag, t) && v in s.workers && WorkerOk(s, v)
    ensures WorkerOk(t, v)
  {}

  lemma SetMigratingKeepsInv(s: State, r: RowId, flag: bool, t: State)
    requires Inv(s) && SetMigratingStep(s, r, flag, t)
    ensures Inv(t)
  {
    forall v | v in t.workers
      ensures WorkerOk(t, v)
    {
      SetMigratingKeepsWorker(s, r, flag, t, v);
    }
  }

  lemma StepKeepsInv(s: State, l: Label, t: State)
    requires Inv(s) && Next(s, l, t)
    ensures Inv(t)
  {
    StepKeepsCreators(s, l, t);
    if l.SetMigrating? {
      SetMigratingKeepsInv(s, l.row, l.flag, t);
    } else {
      assert l.w in s.workers && WorkerOk(s, l.w);
      if BeforeLocking(l) {
        BeforeLockingIsFramed(s, l, t);
        BeforeLockingKeepsMover(s, l, t);
        BeforeLockingKeepsLocks(s, l, t);
        BeforeLockingKeepsGroups(s, l, t);
      } else if UnderLocks(l) {
        UnderLocksIsFramed(s, l, t);
        UnderLocksKeepsMover(s, l, t);
        UnderLocksKeepsLocks(s, l, t);
        UnderLocksKeepsGroups(s, l, t);
      } else {
        WritesRowsIsFramed(s, l, t);
        WritesRowsKeepsMover(s, l, t);
        WritesRowsKeepsLocks(s, l, t);
        WritesRowsKeepsGroups(s, l, t);
      }
      OthersStayOk(s, l.w, t);
    }
  }
}
