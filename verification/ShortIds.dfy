/**
 Short-id allocation for one project, and the repair of a counter that has fallen behind ids already
 in use.  Any number of workers run `_create_group` at once; groups may be deleted at any time.

 The unique index makes an insert wait for a competing uncommitted one, so `used` holds the ids the
 index knows; the `Max` query is a plain read and may miss `hidden` ids that other workers have
 inserted but not yet committed.
 */
module ShortIds {
  type WorkerId = nat

  datatype Phase =
    | Idle
    | Holding(id: int)                // `_get_next_short_id` returned
    | Stuck(id: int)                  // the insert violated uniqueness
    | Measured(id: int, max: int)     // `_handle_stuck_project_counter` read the maximum
    | Retrying(id: int)
    | Created(id: int)
    | Raised                          // counter timeout, or `None + 1` over an empty project
    | RetryFailed                     // uniqueness violated a second time

  /** `owner` records every id the counter has ever issued and to whom. */
  datatype State = State(counter: int, used: set<int>, owner: map<int, WorkerId>, workers: map<WorkerId, Phase>)

  datatype Label =
    | Take(w: WorkerId)
    | Timeout(w: WorkerId)
    | Insert(w: WorkerId)
    | QueryMax(w: WorkerId, hidden: set<int>, max: int)
    | Repair(w: WorkerId)
    | Retry(w: WorkerId)
    | Delete(id: int)

  function Max(a: int, b: int): int { if a < b then b else a }

  predicate IsMax(m: int, ids: set<int>) {
    m in ids && forall x :: x in ids ==> x <= m
  }

  predicate IsEmpty(ids: set<int>) {
    forall x | x in ids :: false
  }

  /** `id` is in the table because its owner's insert put it there. */
  predicate Inserted(s: State, id: int) {
    id in s.owner && s.owner[id] in s.workers && s.workers[s.owner[id]] == Created(id)
  }

  predicate TakeStep(s: State, w: WorkerId, t: State) {
    && w in s.workers && s.workers[w] == Idle
    && var id := s.counter + 1;
    t == s.(counter := id, owner := s.owner[id := w], workers := s.workers[w := Holding(id)])
  }

  /** An OperationalError from the counter discards the event. */
  predicate TimeoutStep(s: State, w: WorkerId, t: State) {
    && w in s.workers
    && (s.workers[w].Idle? || s.workers[w].Measured?)
    && t == s.(workers := s.workers[w := Raised])
  }

  predicate InsertStep(s: State, w: WorkerId, t: State) {
    && w in s.workers && s.workers[w].Holding?
    && var id := s.workers[w].id;
    t == if id in s.used then s.(workers := s.workers[w := Stuck(id)])
         else s.(used := s.used + {id}, workers := s.workers[w := Created(id)])
  }

  predicate QueryMaxStep(s: State, w: WorkerId, hidden: set<int>, max: int, t: State) {
    && w in s.workers && s.workers[w].Stuck?
    && hidden <= s.used && (forall x :: x in hidden ==> Inserted(s, x))
    && var visible := s.used - hidden;
    && (!IsEmpty(visible) ==> IsMax(max, visible))
    && t == s.(workers := s.workers[w := if IsEmpty(visible) then Raised else Measured(s.workers[w].id, max)])
  }

  /** `difference` is what the counter seems to lack; the increment itself is atomic. */
  predicate RepairStep(s: State, w: WorkerId, t: State) {
    && w in s.workers && s.workers[w].Measured?
    && var Measured(id, max) := s.workers[w];
    var correctValue := max + 1;
    if id < correctValue then
      var newId := s.counter + (correctValue - id);
      t == s.(counter := newId, owner := s.owner[newId := w], workers := s.workers[w := Retrying(newId)])
    else
      t == s.(workers := s.workers[w := Retrying(id)])
  }

  predicate RetryStep(s: State, w: WorkerId, t: State) {
    && w in s.workers && s.workers[w].Retrying?
    && var id := s.workers[w].id;
    t == if id in s.used then s.(workers := s.workers[w := RetryFailed])
         else s.(used := s.used + {id}, workers := s.workers[w := Created(id)])
  }

  predicate DeleteStep(s: State, id: int, t: State) {
    t == s.(used := s.used - {id})
  }

  predicate Next(s: State, l: Label, t: State) {
    match l
    case Take(w) => TakeStep(s, w, t)
    case Timeout(w) => TimeoutStep(s, w, t)
    case Insert(w) => InsertStep(s, w, t)
    case QueryMax(w, hidden, max) => QueryMaxStep(s, w, hidden, max, t)
    case Repair(w) => RepairStep(s, w, t)
    case Retry(w) => RetryStep(s, w, t)
    case Delete(id) => DeleteStep(s, id, t)
  }

  /** Any counter value, any ids already in the table, behind the counter or ahead of it. */
  predicate Init(s: State) {
    s.owner == map[] && forall w :: w in s.workers ==> s.workers[w] == Idle
  }

  ghost predicate IsRun(states: seq<State>, labels: seq<Label>) {
    && |states| == |labels| + 1
    && Init(states[0])
    && forall i {:trigger labels[i]} :: 0 <= i < |labels| ==> Next(states[i], labels[i], states[i + 1])
  }

  // ----- what every step keeps

  predicate Holds(p: Phase) {
    p.Holding? || p.Stuck? || p.Measured? || p.Retrying? || p.Created?
  }

  predicate WorkerOk(s: State, w: WorkerId)
    requires w in s.workers
  {
    var p := s.workers[w];
    && (Holds(p) ==> p.id in s.owner && s.owner[p.id] == w)
    && (p.Measured? ==> forall x :: x in s.used ==> x <= p.max || Inserted(s, x))
    && (p.Retrying? ==> p.id !in s.used)
    && p != RetryFailed
  }

  predicate Inv(s: State) {
    && (forall id :: id in s.owner ==> id <= s.counter)
    && (forall w :: w in s.workers ==> WorkerOk(s, w))
  }

  lemma StepKeepsInv(s: State, l: Label, t: State)
    requires Inv(s) && Next(s, l, t)
    ensures Inv(t)
  {
    assert !l.Delete? ==> WorkerOk(s, l.w);
    forall v | v in t.workers
      ensures WorkerOk(t, v)
    {
      assert WorkerOk(s, v);
      if t.workers[v].Measured? {
        forall x | x in t.used
          ensures x <= t.workers[v].max || Inserted(t, x)
        {
          assert Inserted(s, x) ==> Inserted(t, x);
          assert l.QueryMax? && v == l.w ==> x in l.hidden || x in s.used - l.hidden;
        }
      }
    }
  }

  lemma {:induction false} RunIsSound(states: seq<State>, labels: seq<Label>, n: nat)
    requires IsRun(states, labels) && n < |states|
    ensures Inv(states[n])
  {
    if n > 0 {
      RunIsSound(states, labels, n - 1);
      assert Next(states[n - 1], labels[n - 1], states[n]);
      StepKeepsInv(states[n - 1], labels[n - 1], states[n]);
    }
  }

  // ----- the main results

  /** However many workers repair at once, and whatever is deleted meanwhile, the single retry never
      violates uniqueness. */
  lemma RetryNeverCollides(states: seq<State>, labels: seq<Label>, n: nat, w: WorkerId)
    requires IsRun(states, labels) && n < |states| && w in states[n].workers
    ensures states[n].workers[w] != RetryFailed
    ensures states[n].workers[w].Retrying? ==> states[n].workers[w].id !in states[n].used
  {
    RunIsSound(states, labels, n);
    assert WorkerOk(states[n], w);
  }

  /** No id is ever held, or kept, by two workers. */
  lemma IdsAreNeverShared(states: seq<State>, labels: seq<Label>, n: nat, v: WorkerId, w: WorkerId)
    requires IsRun(states, labels) && n < |states| && v in states[n].workers && w in states[n].workers && v != w
    requires Holds(states[n].workers[v]) && Holds(states[n].workers[w])
    ensures states[n].workers[v].id != states[n].workers[w].id
  {
    RunIsSound(states, labels, n);
    assert WorkerOk(states[n], v) && WorkerOk(states[n], w);
  }

  /** Without deletions a stuck id is still in the table, visible to the maximum. */
  predicate StuckOk(s: State, w: WorkerId)
    requires w in s.workers
  {
    var p := s.workers[w];
    && (p.Stuck? ==> p.id in s.used && !Inserted(s, p.id))
    && (p.Measured? ==> p.id <= p.max)
  }

  lemma StepKeepsStuck(s: State, l: Label, t: State)
    requires Inv(s) && Next(s, l, t) && !l.Delete?
    requires forall w :: w in s.workers ==> StuckOk(s, w)
    ensures forall w :: w in t.workers ==> StuckOk(t, w)
  {
    forall v | v in t.workers
      ensures StuckOk(t, v)
    {
      assert StuckOk(s, v) && WorkerOk(s, v) && WorkerOk(s, l.w);
      if t.workers[v].Measured? && l.QueryMax? && v == l.w {
        assert s.workers[v].id in s.used - l.hidden;
      }
    }
  }

  lemma {:induction false} StuckIdsStayVisible(states: seq<State>, labels: seq<Label>, n: nat)
    requires IsRun(states, labels) && n < |states|
    requires forall i :: 0 <= i < |labels| ==> !labels[i].Delete?
    ensures forall w :: w in states[n].workers ==> StuckOk(states[n], w)
  {
    if n > 0 {
      StuckIdsStayVisible(states, labels, n - 1);
      RunIsSound(states, labels, n - 1);
      assert Next(states[n - 1], labels[n - 1], states[n]);
      StepKeepsStuck(states[n - 1], labels[n - 1], states[n]);
    }
  }

  /** With no deletions, a repair always moves the counter, and the id it returns exceeds every id the
      maximum saw and differs from every id issued before.  It is the next free id exactly when nobody
      took an id since this worker did; any other interleaving only over-increments. */
  lemma RepairReturnsFreshId(states: seq<State>, labels: seq<Label>, n: nat, w: WorkerId)
    requires IsRun(states, labels) && n < |labels| && labels[n] == Repair(w)
    requires forall i :: 0 <= i < |labels| ==> !labels[i].Delete?
    ensures w in states[n].workers && states[n].workers[w].Measured? &&
            w in states[n + 1].workers && states[n + 1].workers[w].Retrying?
    ensures var Measured(id, max) := states[n].workers[w];
            var newId := states[n + 1].workers[w].id;
            && newId > max
            && newId !in states[n].owner
            && newId == states[n + 1].counter > states[n].counter
            && (newId == max + 1 <==> states[n].counter == id)
  {
    RunIsSound(states, labels, n);
    StuckIdsStayVisible(states, labels, n);
    assert Next(states[n], labels[n], states[n + 1]);
    assert WorkerOk(states[n], w) && StuckOk(states[n], w);
  }

  /** Without deletions the maximum is never taken over an empty project. */
  lemma MaxQueryFindsRows(states: seq<State>, labels: seq<Label>, n: nat, w: WorkerId, hidden: set<int>, max: int)
    requires IsRun(states, labels) && n < |labels| && labels[n] == QueryMax(w, hidden, max)
    requires forall i :: 0 <= i < |labels| ==> !labels[i].Delete?
    ensures w in states[n + 1].workers && states[n + 1].workers[w].Measured?
  {
    RunIsSound(states, labels, n);
    StuckIdsStayVisible(states, labels, n);
    var s := states[n];
    assert Next(s, labels[n], states[n + 1]);
    assert WorkerOk(s, w) && StuckOk(s, w);
    assert s.workers[w].id in s.used - hidden;
  }

  // ----- what each step does to the counter and the table

  /** Ids come from above the initial counter; while nothing is repaired they are issued one by one,
      leaving no gap. */
  lemma {:induction false} IdsAreIssuedInOrder(states: seq<State>, labels: seq<Label>, n: nat)
    requires IsRun(states, labels) && n < |states|
    ensures states[0].counter <= states[n].counter
    ensures forall id :: id in states[n].owner ==> states[0].counter < id <= states[n].counter
    ensures (forall i :: 0 <= i < n ==> !labels[i].Repair?) ==>
              forall id :: states[0].counter < id <= states[n].counter ==> id in states[n].owner
  {
    if n > 0 {
      IdsAreIssuedInOrder(states, labels, n - 1);
      assert Next(states[n - 1], labels[n - 1], states[n]);
    }
  }

  /** A group is created exactly by inserting an id that was free; nothing else adds to the table, and
      only deletions take from it. */
  lemma CreationInsertsAFreeId(s: State, l: Label, t: State)
    requires Next(s, l, t) && t.used != s.used && !l.Delete?
    ensures l.w in t.workers && t.workers[l.w].Created? && s.workers[l.w] != t.workers[l.w]
    ensures var id := t.workers[l.w].id; id !in s.used && t.used == s.used + {id}
  {}

  predicate HasCreated(s: State, id: int) {
    exists w :: w in s.workers && s.workers[w] == Created(id)
  }

  lemma StepAddsCreations(s: State, l: Label, t: State, id: int)
    requires Next(s, l, t) && !l.Delete?
    ensures HasCreated(s, id) ==> HasCreated(t, id)
    ensures id in t.used && id !in s.used ==> HasCreated(t, id)
    ensures HasCreated(t, id) && !HasCreated(s, id) ==> id in t.used
    ensures s.used <= t.used
  {
    if w :| w in s.workers && s.workers[w] == Created(id) {
      assert t.workers[w] == Created(id);
    }
    if id in t.used && id !in s.used {
      assert t.workers[l.w] == Created(id);
    }
  }

  /** Without deletions the table is what was there plus the ids of the created groups. */
  lemma {:induction false} TableIsStartPlusCreations(states: seq<State>, labels: seq<Label>, n: nat, id: int)
    requires IsRun(states, labels) && n < |states|
    requires forall i :: 0 <= i < |labels| ==> !labels[i].Delete?
    ensures id in states[n].used <==> id in states[0].used || HasCreated(states[n], id)
  {
    if n > 0 {
      TableIsStartPlusCreations(states, labels, n - 1, id);
      assert Next(states[n - 1], labels[n - 1], states[n]);
      StepAddsCreations(states[n - 1], labels[n - 1], states[n], id);
    }
  }

  /** The first insert fails exactly when its id is taken. */
  lemma StuckExactlyWhenTaken(s: State, w: WorkerId, t: State)
    requires InsertStep(s, w, t)
    ensures w in t.workers
    ensures t.workers[w] == Stuck(s.workers[w].id) <==> s.workers[w].id in s.used
    ensures t.workers[w] == Created(s.workers[w].id) <==> s.workers[w].id !in s.used
  {}

  /** A repair moves the counter, by what it seems to lack, exactly when the worker's id is not above
      the maximum it saw; otherwise the worker keeps its id. */
  lemma RepairMovesCounterExactlyWhen(s: State, w: WorkerId, t: State)
    requires RepairStep(s, w, t)
    ensures w in t.workers && t.workers[w].Retrying?
    ensures t.counter != s.counter <==> s.workers[w].id <= s.workers[w].max
    ensures t.counter - s.counter == Max(0, s.workers[w].max + 1 - s.workers[w].id)
    ensures t.workers[w].id == if t.counter == s.counter then s.workers[w].id else t.counter
  {}

  /** The retry creates its group. */
  lemma RetrySucceeds(states: seq<State>, labels: seq<Label>, n: nat, w: WorkerId)
    requires IsRun(states, labels) && n < |labels| && labels[n] == Retry(w)
    ensures w in states[n].workers && states[n].workers[w].Retrying?
    ensures var id := states[n].workers[w].id;
            && w in states[n + 1].workers && states[n + 1].workers[w] == Created(id)
            && id in states[n + 1].used
  {
    RunIsSound(states, labels, n);
    assert Next(states[n], labels[n], states[n + 1]);
    assert WorkerOk(states[n], w);
  }

  // ----- nobody waits

  lemma {:induction false} MaxExists(ids: set<int>, x: int) returns (m: int)
    requires x in ids
    ensures IsMax(m, ids)
  {
    if y :| y in ids && y > x {
      m := MaxExists(ids - {x}, y);
      assert ids == (ids - {x}) + {x};
    } else {
      m := x;
    }
  }

  predicate Finished(p: Phase) {
    p.Created? || p.Raised? || p.RetryFailed?
  }

  /** Every unfinished worker can take its next step, whatever the others do, and without the counter
      timing out. */
  lemma EveryWorkerCanGoOn(s: State, w: WorkerId)
    requires w in s.workers && !Finished(s.workers[w])
    ensures exists l: Label, t :: !l.Timeout? && !l.Delete? && l.w == w && Next(s, l, t)
  {
    match s.workers[w]
    case Idle =>
      var id := s.counter + 1;
      assert Next(s, Take(w), s.(counter := id, owner := s.owner[id := w], workers := s.workers[w := Holding(id)]));
    case Holding(id) =>
      assert Next(s, Insert(w), if id in s.used then s.(workers := s.workers[w := Stuck(id)])
                                else s.(used := s.used + {id}, workers := s.workers[w := Created(id)]));
    case Stuck(id) =>
      var max := 0;
      if x :| x in s.used {
        max := MaxExists(s.used, x);
      }
      assert s.used - {} == s.used;
      assert Next(s, QueryMax(w, {}, max), s.(workers := s.workers[w := if IsEmpty(s.used) then Raised else Measured(id, max)]));
    case Measured(id, max) =>
      var newId := s.counter + (max + 1 - id);
      assert Next(s, Repair(w), if id < max + 1
                                then s.(counter := newId, owner := s.owner[newId := w], workers := s.workers[w := Retrying(newId)])
                                else s.(workers := s.workers[w := Retrying(id)]));
    case Retrying(id) =>
      assert Next(s, Retry(w), if id in s.used then s.(workers := s.workers[w := RetryFailed])
                               else s.(used := s.used + {id}, workers := s.workers[w := Created(id)]));
    case _ =>
  }
}
