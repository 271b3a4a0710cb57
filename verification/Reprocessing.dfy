/**
 Reprocessing a group: moving its rows to a new group, buffering the tombstones of events whose
 primary hash changed, copying attachments in chunks, and the progress arithmetic.
 */
module Reprocessing {
  import opened Wrappers

  type GroupId = int
  type RowId = int
  type Model = string

  datatype Status = Reprocessing | Other(code: int)

  datatype GroupRow = GroupRow(project: int, shortId: Option<int>, status: Status, substatus: Option<int>,
                               timesSeen: nat, attributes: string)

  datatype StartError = GroupMissing | AlreadyReprocessing

  const ACTIVITY: Model := "activity"

  // ----- start_group_reprocessing

  /** The unique constraint of (project, short id); nulls are exempt. */
  predicate UniqueShortIds(groups: map<GroupId, GroupRow>) {
    forall a, b | a in groups && b in groups && a != b ::
      groups[a].project == groups[b].project && groups[a].shortId.Some? ==> groups[a].shortId != groups[b].shortId
  }

  /** In other words: within a project a short id names one group. */
  lemma UniqueExactlyWhen(groups: map<GroupId, GroupRow>)
    ensures UniqueShortIds(groups) <==>
            forall a, b | a in groups && b in groups ::
              groups[a].shortId.Some? && groups[a].shortId == groups[b].shortId && groups[a].project == groups[b].project ==> a == b
  {}

  function Moved(rows: map<RowId, GroupId>, from: GroupId, to: GroupId): map<RowId, GroupId> {
    map r | r in rows :: if rows[r] == from then to else rows[r]
  }

  function MovedAll(tables: map<Model, map<RowId, GroupId>>, models: set<Model>, from: GroupId, to: GroupId)
    : map<Model, map<RowId, GroupId>>
  {
    map m | m in tables :: if m in models then Moved(tables[m], from, to) else tables[m]
  }

  function Retired(row: GroupRow): GroupRow {
    row.(status := Reprocessing, substatus := None, shortId := None)
  }

  function RowsOf(rows: map<RowId, GroupId>, g: GroupId): set<RowId> {
    set r | r in rows && rows[r] == g
  }

  /** Migration to a fresh group loses nothing: the new group has exactly the old one's rows, the old one
      none, everybody else theirs. */
  lemma MigrationMovesEveryRow(rows: map<RowId, GroupId>, from: GroupId, to: GroupId)
    requires from != to && RowsOf(rows, to) == {}
    ensures Moved(rows, from, to).Keys == rows.Keys
    ensures RowsOf(Moved(rows, from, to), to) == RowsOf(rows, from)
    ensures RowsOf(Moved(rows, from, to), from) == {}
    ensures forall other :: other != from && other != to ==> RowsOf(Moved(rows, from, to), other) == RowsOf(rows, other)
  {
    forall r | r in rows
      ensures rows[r] != to
    {
      assert rows[r] == to ==> r in RowsOf(rows, to);
    }
    assert forall r :: r in RowsOf(Moved(rows, from, to), to) <==> r in RowsOf(rows, from);
  }

  /** Rows of migrated tables refer to existing groups. */
  predicate RowsHaveGroups(tables: map<Model, map<RowId, GroupId>>, models: set<Model>, groups: map<GroupId, GroupRow>) {
    forall m, r :: m in models && m in tables && r in tables[m] ==> tables[m][r] in groups
  }

  lemma OneMoreRow(rows: map<RowId, GroupId>, r: RowId, g: GroupId)
    requires r !in rows
    ensures forall h :: RowsOf(rows[r := g], h) == RowsOf(rows, h) + (if h == g then {r} else {})
  {
    forall h
      ensures RowsOf(rows[r := g], h) == RowsOf(rows, h) + (if h == g then {r} else {})
    {
      assert forall x :: x in RowsOf(rows[r := g], h) <==> x in RowsOf(rows, h) || (h == g && x == r);
    }
  }

  /** The new group takes over every row, and the old one keeps the activity written afterwards. */
  lemma RowsFollowTheNewGroup(tables: map<Model, map<RowId, GroupId>>, models: set<Model>,
                              groups: map<GroupId, GroupRow>, from: GroupId, to: GroupId, newActivity: RowId, m: Model)
    requires models <= tables.Keys && ACTIVITY in tables && newActivity !in tables[ACTIVITY]
    requires RowsHaveGroups(tables, models, groups) && from in groups && to !in groups && m in models
    ensures var moved := MovedAll(tables, models, from, to);
            var after := moved[ACTIVITY := moved[ACTIVITY][newActivity := from]];
            && RowsOf(after[m], to) == RowsOf(tables[m], from)
            && RowsOf(after[m], from) == (if m == ACTIVITY then {newActivity} else {})
            && forall g :: g != from && g != to ==> RowsOf(after[m], g) == RowsOf(tables[m], g)
  {
    var moved := Moved(tables[m], from, to);
    forall r | r in tables[m]
      ensures tables[m][r] != to
    {}
    assert RowsOf(tables[m], to) == {};
    MigrationMovesEveryRow(tables[m], from, to);
    if m == ACTIVITY {
      OneMoreRow(moved, newActivity, from);
    }
  }

  class Database {
    var groups: map<GroupId, GroupRow>
    var tables: map<Model, map<RowId, GroupId>>
    const migrated: set<Model>

    predicate Valid()
      reads this
    {
      && UniqueShortIds(groups)
      && migrated <= tables.Keys && ACTIVITY in tables
      && RowsHaveGroups(tables, migrated, groups)
    }

    /** Writing a group row; the database would reject a duplicate short id here. */
    method Save(id: GroupId, row: GroupRow)
      requires UniqueShortIds(groups[id := row])
      modifies this`groups
      ensures groups == old(groups)[id := row]
    {
      groups := groups[id := row];
    }

    method MigrateTables(groupId: GroupId, newId: GroupId)
      requires migrated <= tables.Keys
      modifies this`tables
      ensures tables == MovedAll(old(tables), migrated, groupId, newId)
    {
      var models := migrated;
      while models != {}
        invariant models <= migrated <= tables.Keys
        invariant tables == MovedAll(old(tables), migrated - models, groupId, newId)
        decreases models
      {
        var model :| model in models;
        tables := tables[model := Moved(tables[model], groupId, newId)];
        models := models - {model};
      }
      assert migrated - {} == migrated;
    }

    /** The old group keeps its key and loses its short id, a fresh group gets everything else, and the
        migrated tables follow it; the new activity row is written on the old group afterwards.  On an
        error nothing changes. */
    method StartGroupReprocessing(groupId: GroupId, newId: GroupId, newActivity: RowId)
      returns (r: Result<GroupId, StartError>)
      requires Valid() && newId !in groups && newActivity !in tables[ACTIVITY]
      modifies this
      ensures Valid()
      ensures r == if groupId !in old(groups) then Err(GroupMissing)
                   else if old(groups)[groupId].status == Reprocessing then Err(AlreadyReprocessing)
                   else Ok(newId)
      ensures r.Err? ==> groups == old(groups) && tables == old(tables)
      ensures r.Ok? ==>
                var row := old(groups)[groupId];
                && groups == old(groups)[groupId := row.(status := Reprocessing, substatus := None, shortId := None)]
                                        [newId := row.(timesSeen := 0)]
                && var moved := MovedAll(old(tables), migrated, groupId, newId);
                tables == moved[ACTIVITY := moved[ACTIVITY][newActivity := groupId]]
      ensures r.Ok? ==> forall m :: m in migrated ==>
                && RowsOf(tables[m], newId) == RowsOf(old(tables)[m], groupId)
                && RowsOf(tables[m], groupId) == (if m == ACTIVITY then {newActivity} else {})
      ensures forall m :: m in old(tables) && m !in migrated && m != ACTIVITY ==> m in tables && tables[m] == old(tables)[m]
    {
      if groupId !in groups {
        return Err(GroupMissing);
      }
      var group := groups[groupId];
      if group.status == Reprocessing {
        return Err(AlreadyReprocessing);
      }
      Save(groupId, Retired(group));
      Save(newId, group.(timesSeen := 0));
      MigrateTables(groupId, newId);
      forall m | m in migrated
        ensures RowsOf(tables[ACTIVITY := tables[ACTIVITY][newActivity := groupId]][m], newId) == RowsOf(old(tables)[m], groupId)
        ensures RowsOf(tables[ACTIVITY := tables[ACTIVITY][newActivity := groupId]][m], groupId) ==
                (if m == ACTIVITY then {newActivity} else {})
      {
        RowsFollowTheNewGroup(old(tables), migrated, old(groups), groupId, newId, newActivity, m);
      }
      tables := tables[ACTIVITY := tables[ACTIVITY][newActivity := groupId]];
      return Ok(newId);
    }
  }

  /** A group that is being reprocessed cannot be started again. */
  method StartTwice(db: Database, groupId: GroupId, newId: GroupId, other: GroupId, newActivity: RowId, second: RowId)
    returns (r: Result<GroupId, StartError>)
    requires db.Valid() && groupId in db.groups && db.groups[groupId].status != Reprocessing
    requires newId !in db.groups && newActivity !in db.tables[ACTIVITY]
    requires other !in db.groups && other != newId && second !in db.tables[ACTIVITY] && second != newActivity
    modifies db
    ensures r == Err(AlreadyReprocessing)
    ensures db.groups.Keys == old(db.groups).Keys + {newId} && db.groups[groupId].shortId == None
    ensures db.groups[newId].shortId == old(db.groups)[groupId].shortId
  {
    var _ := db.StartGroupReprocessing(groupId, newId, newActivity);
    r := db.StartGroupReprocessing(groupId, other, second);
  }

  // ----- buffered_delete_old_primary_hash

  type Hash = string
  type EventId = string

  datatype Batch = Batch(hash: Hash, events: seq<EventId>)

  datatype Recorded = Recorded(hash: Hash, event: EventId)

  function Bucket(buffer: map<Hash, seq<EventId>>, h: Hash): seq<EventId> {
    if h in buffer then buffer[h] else []
  }

  function SentFor(sent: seq<Batch>, h: Hash): multiset<EventId> {
    if sent == [] then multiset{}
    else
      var last := sent[|sent| - 1];
      SentFor(sent[..|sent| - 1], h) + (if last.hash == h then multiset(last.events) else multiset{})
  }

  function RecordedFor(log: seq<Recorded>, h: Hash): multiset<EventId> {
    if log == [] then multiset{}
    else
      var last := log[|log| - 1];
      RecordedFor(log[..|log| - 1], h) + (if last.hash == h then multiset{last.event} else multiset{})
  }

  function BufferedCount(buffer: map<Hash, seq<EventId>>, order: seq<Hash>): nat {
    if order == [] then 0 else BufferedCount(buffer, order[..|order| - 1]) + |Bucket(buffer, order[|order| - 1])|
  }

  /** How many buckets, in iteration order, come before the first empty one. */
  function Flushed(buffer: map<Hash, seq<EventId>>, order: seq<Hash>): (n: nat)
    ensures n <= |order|
    ensures forall i :: 0 <= i < n ==> Bucket(buffer, order[i]) != []
    ensures n < |order| ==> Bucket(buffer, order[n]) == []
  {
    if order == [] || Bucket(buffer, order[0]) == [] then 0
    else
      var n := 1 + Flushed(buffer, order[1..]);
      assert forall i :: 0 < i < |order| ==> order[i] == order[1..][i - 1];
      n
  }

  function Elements(order: seq<Hash>): set<Hash> {
    set h | h in order
  }

  predicate Distinct(order: seq<Hash>) {
    forall i, j :: 0 <= i < j < |order| ==> order[i] != order[j]
  }

  ghost predicate Listing(order: seq<Hash>, hashes: set<Hash>) {
    && (forall h :: h in order <==> h in hashes)
    && Distinct(order)
  }

  /** Each hash's recorded events are its bucket plus its batches. */
  ghost predicate Conserved(buffer: map<Hash, seq<EventId>>, sent: seq<Batch>, log: seq<Recorded>) {
    forall h {:trigger RecordedFor(log, h)} :: RecordedFor(log, h) == multiset(Bucket(buffer, h)) + SentFor(sent, h)
  }

  /** Every hash in use is in the hash set. */
  ghost predicate Remembered(buffer: map<Hash, seq<EventId>>, log: seq<Recorded>, hashes: set<Hash>) {
    && (forall h {:trigger h in hashes} :: Bucket(buffer, h) != [] ==> h in hashes)
    && (forall i :: 0 <= i < |log| ==> log[i].hash in hashes)
  }

  lemma RecordConserves(buffer: map<Hash, seq<EventId>>, sent: seq<Batch>, log: seq<Recorded>, h: Hash, e: EventId)
    requires Conserved(buffer, sent, log)
    ensures Conserved(buffer[h := [e] + Bucket(buffer, h)], sent, log + [Recorded(h, e)])
  {
    var buffer' := buffer[h := [e] + Bucket(buffer, h)];
    forall k
      ensures RecordedFor(log + [Recorded(h, e)], k) == multiset(Bucket(buffer', k)) + SentFor(sent, k)
    {
      assert (log + [Recorded(h, e)])[..|log|] == log;
      assert RecordedFor(log, k) == multiset(Bucket(buffer, k)) + SentFor(sent, k);
      if k == h {
        assert Bucket(buffer', k) == [e] + Bucket(buffer, k);
      }
    }
  }

  lemma RecordRemembers(buffer: map<Hash, seq<EventId>>, log: seq<Recorded>, hashes: set<Hash>, h: Hash, e: EventId)
    requires Remembered(buffer, log, hashes)
    ensures Remembered(buffer[h := [e] + Bucket(buffer, h)], log + [Recorded(h, e)], hashes + {h})
  {}

  lemma SentAppend(sent: seq<Batch>, batch: Batch, h: Hash)
    ensures SentFor(sent + [batch], h) == SentFor(sent, h) + (if batch.hash == h then multiset(batch.events) else multiset{})
  {
    assert (sent + [batch])[..|sent|] == sent;
  }

  lemma PopConserves(buffer: map<Hash, seq<EventId>>, sent: seq<Batch>, log: seq<Recorded>, h: Hash)
    requires Conserved(buffer, sent, log)
    ensures Conserved(buffer - {h}, sent + [Batch(h, Bucket(buffer, h))], log)
  {
    var sent' := sent + [Batch(h, Bucket(buffer, h))];
    forall k
      ensures RecordedFor(log, k) == multiset(Bucket(buffer - {h}, k)) + SentFor(sent', k)
    {
      SentAppend(sent, Batch(h, Bucket(buffer, h)), k);
      assert RecordedFor(log, k) == multiset(Bucket(buffer, k)) + SentFor(sent, k);
      if k == h {
        assert Bucket(buffer - {h}, k) == [];
      } else {
        assert Bucket(buffer - {h}, k) == Bucket(buffer, k);
      }
    }
  }

  /** The batches that popping the given buckets makes. */
  function Batches(buffer: map<Hash, seq<EventId>>, order: seq<Hash>): seq<Batch> {
    seq(|order|, i requires 0 <= i < |order| => Batch(order[i], Bucket(buffer, order[i])))
  }

  lemma NothingPopped(buffer: map<Hash, seq<EventId>>, sent: seq<Batch>)
    ensures forall order: seq<Hash> :: buffer - Elements(order[..0]) == buffer && sent + Batches(buffer, order[..0]) == sent
  {}

  /** Popping the `i`-th bucket after the ones before it. */
  lemma OneMorePopped(buffer: map<Hash, seq<EventId>>, sent: seq<Batch>, order: seq<Hash>, i: nat)
    requires i < |order| && Distinct(order)
    ensures var now := buffer - Elements(order[..i]);
            && Bucket(now, order[i]) == Bucket(buffer, order[i])
            && now - {order[i]} == buffer - Elements(order[..i + 1])
            && (sent + Batches(buffer, order[..i])) + [Batch(order[i], Bucket(buffer, order[i]))] ==
               sent + Batches(buffer, order[..i + 1])
  {
    assert order[..i + 1] == order[..i] + [order[i]];
    assert Elements(order[..i + 1]) == Elements(order[..i]) + {order[i]};
  }

  /** The store, the batches handed to the event stream, and everything ever recorded. */
  class TombstoneStore {
    var buffer: map<Hash, seq<EventId>>
    var hashes: set<Hash>
    var sent: seq<Batch>
    ghost var log: seq<Recorded>
    const bufferSize: nat

    constructor (bufferSize: nat)
      ensures Valid() && log == [] && this.bufferSize == bufferSize
      ensures buffer == map[] && hashes == {} && sent == []
    {
      buffer, hashes, sent, log := map[], {}, [], [];
      this.bufferSize := bufferSize;
    }

    /** No event is lost or doubled, and no bucket is forgotten. */
    ghost predicate Valid()
      reads this
    {
      && Conserved(buffer, sent, log)
      && Remembered(buffer, log, hashes)
    }

    /** `expire_hash` and `add_hash` */
    method Record(event: EventId, h: Hash)
      requires Valid()
      modifies this
      ensures buffer == old(buffer)[h := [event] + Bucket(old(buffer), h)] && sent == old(sent)
      ensures hashes == old(hashes) + {h} && log == old(log) + [Recorded(h, event)]
      ensures Valid()
    {
      RecordConserves(buffer, sent, log, h, event);
      RecordRemembers(buffer, log, hashes, h, event);
      buffer, hashes, log := buffer[h := [event] + Bucket(buffer, h)], hashes + {h}, log + [Recorded(h, event)];
    }

    /** `event_count_for_hashes` */
    method EventCount(order: seq<Hash>) returns (count: nat)
      ensures count == BufferedCount(buffer, order)
    {
      count := 0;
      for i := 0 to |order|
        invariant count == BufferedCount(buffer, order[..i])
      {
        assert order[..i + 1][..i] == order[..i];
        count := count + |Bucket(buffer, order[i])|;
      }
      assert order[..|order|] == order;
    }

    /** `pop_batched_events` and `tombstone_events_unsafe` */
    method Pop(h: Hash)
      requires Valid()
      modifies this`buffer, this`sent
      ensures Valid()
      ensures buffer == old(buffer) - {h} && sent == old(sent) + [Batch(h, Bucket(old(buffer), h))]
    {
      PopConserves(buffer, sent, log, h);
      sent := sent + [Batch(h, Bucket(buffer, h))];
      buffer := buffer - {h};
    }

    /** `_send_delete_old_primary_hash_messages`, iterating the hash set in the given order.  The first
        empty bucket ends it. */
    method Send(order: seq<Hash>, force: bool)
      requires Valid() && Listing(order, hashes)
      modifies this`buffer, this`sent
      ensures Valid()
      ensures var n := if force || BufferedCount(old(buffer), order) > bufferSize then Flushed(old(buffer), order) else 0;
              buffer == old(buffer) - Elements(order[..n]) && sent == old(sent) + Batches(old(buffer), order[..n])
    {
      var eventCount := EventCount(order);
      NothingPopped(buffer, sent);
      if !force && eventCount <= bufferSize {
        return;
      }
      for i := 0 to |order|
        invariant Valid() && i <= Flushed(old(buffer), order)
        invariant buffer == old(buffer) - Elements(order[..i])
        invariant sent == old(sent) + Batches(old(buffer), order[..i])
      {
        OneMorePopped(old(buffer), old(sent), order, i);
        if |Bucket(buffer, order[i])| == 0 {
          return;
        }
        Pop(order[i]);
      }
    }

    /** `buffered_delete_old_primary_hash`; `order` is how the hash set happens to be iterated. */
    method BufferedDelete(killed: bool, event: Option<EventId>, dated: bool, oldHash: Option<Hash>,
                          currentHash: Option<Hash>, force: bool, order: seq<Hash>)
      requires Valid()
      requires Listing(order, if event.Some? && dated && oldHash.Some? && oldHash != currentHash
                              then hashes + {oldHash.value} else hashes)
      modifies this
      ensures Valid()
      ensures log == old(log) + if !killed && event.Some? && dated && oldHash.Some? && oldHash != currentHash
                                then [Recorded(oldHash.value, event.value)] else []
      ensures killed ==> buffer == old(buffer) && hashes == old(hashes) && sent == old(sent)
      ensures !killed ==>
                var now := if event.Some? && dated && oldHash.Some? && oldHash != currentHash
                           then old(buffer)[oldHash.value := [event.value] + Bucket(old(buffer), oldHash.value)]
                           else old(buffer);
                var n := if force || BufferedCount(now, order) > bufferSize then Flushed(now, order) else 0;
                && hashes == Elements(order)
                && buffer == now - Elements(order[..n]) && sent == old(sent) + Batches(now, order[..n])
    {
      if killed {
        return;
      }
      if event.Some? && dated && oldHash.Some? && oldHash != currentHash {
        Record(event.value, oldHash.value);
      }
      Send(order, force);
    }
  }

  lemma {:induction false} RecordedOnce(log: seq<Recorded>, h: Hash, e: EventId)
    requires forall i, j :: 0 <= i < j < |log| ==> log[i] != log[j]
    ensures RecordedFor(log, h)[e] == if Recorded(h, e) in log then 1 else 0
  {
    if log != [] {
      var front, last := log[..|log| - 1], log[|log| - 1];
      RecordedOnce(front, h, e);
      assert log == front + [last] && last !in front;
    }
  }

  function BatchesWith(sent: seq<Batch>, h: Hash, e: EventId): nat {
    if sent == [] then 0
    else
      var last := sent[|sent| - 1];
      BatchesWith(sent[..|sent| - 1], h, e) + if last.hash == h && e in last.events then 1 else 0
  }

  lemma {:induction false} FewerBatchesThanCopies(sent: seq<Batch>, h: Hash, e: EventId)
    ensures BatchesWith(sent, h, e) <= SentFor(sent, h)[e]
    ensures BatchesWith(sent, h, e) == 0 <==> SentFor(sent, h)[e] == 0
  {
    if sent != [] {
      FewerBatchesThanCopies(sent[..|sent| - 1], h, e);
      assert e in sent[|sent| - 1].events <==> e in multiset(sent[|sent| - 1].events);
    }
  }

  /** In any state of the store, with distinct recordings: each recorded event is either still in its
      hash's bucket or in exactly one of that hash's tombstoned batches, and nothing else is in either. */
  lemma EveryEventIsInOnePlace(store: TombstoneStore, h: Hash, e: EventId)
    requires store.Valid()
    requires forall i, j :: 0 <= i < j < |store.log| ==> store.log[i] != store.log[j]
    ensures (if e in Bucket(store.buffer, h) then 1 else 0) + BatchesWith(store.sent, h, e) ==
            if Recorded(h, e) in store.log then 1 else 0
  {
    RecordedOnce(store.log, h, e);
    FewerBatchesThanCopies(store.sent, h, e);
    var bucket := multiset(Bucket(store.buffer, h));
    assert RecordedFor(store.log, h) == bucket + SentFor(store.sent, h);
    assert e in Bucket(store.buffer, h) <==> e in bucket;
  }

  // ----- what the threshold compares

  function EventsSent(sent: seq<Batch>): nat {
    if sent == [] then 0 else EventsSent(sent[..|sent| - 1]) + |sent[|sent| - 1].events|
  }

  function RecordedAmong(log: seq<Recorded>, order: seq<Hash>): nat {
    if order == [] then 0 else RecordedAmong(log, order[..|order| - 1]) + |RecordedFor(log, order[|order| - 1])|
  }

  function SentAmong(sent: seq<Batch>, order: seq<Hash>): nat {
    if order == [] then 0 else SentAmong(sent, order[..|order| - 1]) + |SentFor(sent, order[|order| - 1])|
  }

  lemma {:induction false} OneMoreRecorded(log: seq<Recorded>, order: seq<Hash>)
    requires log != [] && Distinct(order)
    ensures RecordedAmong(log, order) ==
            RecordedAmong(log[..|log| - 1], order) + if log[|log| - 1].hash in order then 1 else 0
  {
    if order != [] {
      OneMoreRecorded(log, order[..|order| - 1]);
      assert order == order[..|order| - 1] + [order[|order| - 1]];
    }
  }

  lemma {:induction false} NothingRecorded(order: seq<Hash>)
    ensures RecordedAmong([], order) == 0 && SentAmong([], order) == 0
  {
    if order != [] {
      NothingRecorded(order[..|order| - 1]);
    }
  }

  lemma {:induction false} AllRecorded(log: seq<Recorded>, order: seq<Hash>)
    requires Distinct(order) && forall i :: 0 <= i < |log| ==> log[i].hash in order
    ensures RecordedAmong(log, order) == |log|
  {
    if log == [] {
      NothingRecorded(order);
    } else {
      AllRecorded(log[..|log| - 1], order);
      OneMoreRecorded(log, order);
    }
  }

  lemma {:induction false} OneMoreSent(sent: seq<Batch>, order: seq<Hash>)
    requires sent != [] && Distinct(order)
    ensures SentAmong(sent, order) ==
            SentAmong(sent[..|sent| - 1], order) + if sent[|sent| - 1].hash in order then |sent[|sent| - 1].events| else 0
  {
    if order != [] {
      OneMoreSent(sent, order[..|order| - 1]);
      assert order == order[..|order| - 1] + [order[|order| - 1]];
    }
  }

  lemma {:induction false} AllSent(sent: seq<Batch>, order: seq<Hash>)
    requires Distinct(order) && forall i :: 0 <= i < |sent| && sent[i].events != [] ==> sent[i].hash in order
    ensures SentAmong(sent, order) == EventsSent(sent)
  {
    if sent == [] {
      NothingRecorded(order);
    } else {
      AllSent(sent[..|sent| - 1], order);
      OneMoreSent(sent, order);
    }
  }

  lemma {:induction false} BufferedIsTheRest(buffer: map<Hash, seq<EventId>>, sent: seq<Batch>, log: seq<Recorded>, order: seq<Hash>)
    requires Conserved(buffer, sent, log)
    ensures RecordedAmong(log, order) == BufferedCount(buffer, order) + SentAmong(sent, order)
  {
    if order != [] {
      var h := order[|order| - 1];
      BufferedIsTheRest(buffer, sent, log, order[..|order| - 1]);
      assert RecordedFor(log, h) == multiset(Bucket(buffer, h)) + SentFor(sent, h);
    }
  }

  lemma {:induction false} SentForHas(sent: seq<Batch>, i: nat, e: EventId)
    requires i < |sent| && e in sent[i].events
    ensures SentFor(sent, sent[i].hash)[e] > 0
  {
    if i < |sent| - 1 {
      SentForHas(sent[..|sent| - 1], i, e);
    } else {
      assert e in multiset(sent[i].events);
    }
  }

  lemma {:induction false} RecordedForHas(log: seq<Recorded>, h: Hash, e: EventId) returns (i: nat)
    requires RecordedFor(log, h)[e] > 0
    ensures i < |log| && log[i] == Recorded(h, e)
  {
    if log[|log| - 1] == Recorded(h, e) {
      i := |log| - 1;
    } else {
      i := RecordedForHas(log[..|log| - 1], h, e);
    }
  }

  lemma SentWasRecorded(store: TombstoneStore, i: nat)
    requires store.Valid() && i < |store.sent| && store.sent[i].events != []
    ensures store.sent[i].hash in store.hashes
  {
    var h, e := store.sent[i].hash, store.sent[i].events[0];
    SentForHas(store.sent, i, e);
    assert RecordedFor(store.log, h) == multiset(Bucket(store.buffer, h)) + SentFor(store.sent, h);
    var k := RecordedForHas(store.log, h, e);
  }

  /** The count that decides about a flush is the number of events recorded and not yet sent. */
  lemma ThresholdCountsUnsent(store: TombstoneStore, order: seq<Hash>)
    requires store.Valid() && Listing(order, store.hashes)
    ensures BufferedCount(store.buffer, order) == |store.log| - EventsSent(store.sent)
  {
    BufferedIsTheRest(store.buffer, store.sent, store.log, order);
    AllRecorded(store.log, order);
    forall i | 0 <= i < |store.sent| && store.sent[i].events != []
      ensures store.sent[i].hash in order
    {
      SentWasRecorded(store, i);
    }
    AllSent(store.sent, order);
  }

  lemma BucketsAfterFlush(buffer: map<Hash, seq<EventId>>, order: seq<Hash>, n: nat)
    requires n <= |order| && Distinct(order)
    ensures forall j :: 0 <= j < |order| ==>
              Bucket(buffer - Elements(order[..n]), order[j]) == if j < n then [] else Bucket(buffer, order[j])
  {
    forall j | 0 <= j < |order|
      ensures order[j] in Elements(order[..n]) <==> j < n
    {
      if j < n {
        assert order[..n][j] == order[j];
      }
    }
  }

  /** A flush, forced or not, empties the store exactly when the iteration meets no empty bucket before
      a filled one; buckets emptied earlier keep their place in the hash set, so a later flush may stop
      short. */
  lemma FlushDrainsExactlyWhen(buffer: map<Hash, seq<EventId>>, order: seq<Hash>)
    requires Distinct(order)
    ensures var after := buffer - Elements(order[..Flushed(buffer, order)]);
            (forall h :: h in order ==> Bucket(after, h) == []) <==>
            !exists i, j :: 0 <= i < j < |order| && Bucket(buffer, order[i]) == [] && Bucket(buffer, order[j]) != []
  {
    var n := Flushed(buffer, order);
    var after := buffer - Elements(order[..n]);
    BucketsAfterFlush(buffer, order, n);
    if j :| n <= j < |order| && Bucket(buffer, order[j]) != [] {
      assert n < j && Bucket(buffer, order[n]) == [];
      assert order[j] in order && Bucket(after, order[j]) != [];
    }
  }

  /** A forced flush can leave events behind: the first flush empties bucket "h1" but not the hash set,
      and the second stops there. */
  method ForcedFlushLeavesEvents() returns (left: map<Hash, seq<EventId>>, sent: seq<Batch>)
    ensures left == map["h2" := ["e2"]] && sent == [Batch("h1", ["e1"])]
  {
    var store := new TombstoneStore(0);
    var first, both := ["h1"], ["h1", "h2"];
    assert first[0] == "h1" && both[0] == "h1" && both[1] == "h2";
    store.BufferedDelete(false, Some("e1"), true, Some("h1"), None, true, first);
    ghost var now := map["h1" := ["e1"]];
    assert [] + ["e1"] == ["e1"] + [] == ["e1"] && first[..1] == first && Flushed(now, first) == 1;
    assert Elements(first) == {"h1"} && now - {"h1"} == map[];
    assert Batches(now, first) == [Batch("h1", ["e1"])];
    assert store.buffer == map[] && store.sent == [Batch("h1", ["e1"])];
    store.BufferedDelete(false, Some("e2"), true, Some("h2"), None, true, both);
    ghost var later := map["h2" := ["e2"]];
    assert [] + ["e2"] == ["e2"] + [] == ["e2"] && Flushed(later, both) == 0;
    assert both[..0] == [];
    assert Elements(both[..0]) == {} && later - {} == later && Batches(later, both[..0]) == [];
    return store.buffer, store.sent;
  }

  // ----- _copy_attachment_into_cache

  function Joined(chunks: seq<seq<bv8>>): seq<bv8> {
    if chunks == [] then [] else Joined(chunks[..|chunks| - 1]) + chunks[|chunks| - 1]
  }

  /** The stored chunks are the file, cut into full pieces and one shorter last one; a file whose length
      is not the recorded size trips the assertion after all chunks are written. */
  method CopyAttachmentIntoCache(file: seq<bv8>, chunkSize: nat, recordedSize: nat)
    returns (chunks: seq<seq<bv8>>, r: Result<nat, string>)
    requires chunkSize > 0
    ensures Joined(chunks) == file
    ensures forall i :: 0 <= i < |chunks| ==> 0 < |chunks[i]| <= chunkSize
    ensures forall i :: 0 <= i < |chunks| - 1 ==> |chunks[i]| == chunkSize
    ensures r.Ok? <==> |file| == recordedSize
    ensures r.Ok? ==> r.value == recordedSize
  {
    chunks := [];
    var position, size := 0, 0;
    while true
      invariant position == size <= |file|
      invariant Joined(chunks) == file[..position]
      invariant forall i :: 0 <= i < |chunks| ==> 0 < |chunks[i]| <= chunkSize
      invariant forall i :: 0 <= i < |chunks| - 1 ==> |chunks[i]| == chunkSize
      invariant chunks != [] && |chunks[|chunks| - 1]| < chunkSize ==> position == |file|
      decreases |file| - position
    {
      var end := if position + chunkSize <= |file| then position + chunkSize else |file|;
      var chunk := file[position..end];
      if chunk == [] {
        break;
      }
      position, size := end, size + |chunk|;
      assert (chunks + [chunk])[..|chunks|] == chunks;
      chunks := chunks + [chunk];
    }
    assert file[..|file|] == file;
    r := if size == recordedSize then Ok(size) else Err("size mismatch");
  }

  // ----- progress

  /** Python's `int(...)` of a float. */
  function Truncate(x: real): int {
    if x >= 0.0 then x.Floor else -(-x).Floor
  }

  /** The sync counter after the given marks. */
  function CounterAfter(start: int, done: seq<nat>): int {
    if done == [] then start else CounterAfter(start, done[..|done| - 1]) - done[|done| - 1]
  }

  datatype Info = Info(totalEvents: int, syncCount: int)

  /** `get_progress` without its side effect: missing keys read as finished. */
  function Progress(pending: Option<int>, info: Option<Info>): int {
    if pending == None || info == None then 0
    else
      var divisor := if info.value.syncCount == 0 then 1 else info.value.syncCount;
      Truncate((pending.value * info.value.totalEvents) as real / divisor as real)
  }

  /** `is_group_finished` */
  predicate IsFinished(pending: Option<int>, info: Option<Info>) {
    Progress(pending, info) <= 0
  }

  lemma Divide(p: int, d: int)
    requires d > 0
    ensures p as real / d as real * d as real == p as real
    ensures p as real / d as real >= 1.0 <==> p >= d
    ensures p as real / d as real >= 0.0 <==> p >= 0
  {
    var x, e := p as real / d as real, d as real;
    assert x * e == p as real;
    if x >= 1.0 {
      assert (x - 1.0) * e >= 0.0;
    } else {
      assert (1.0 - x) * e > 0.0;
    }
    if x >= 0.0 {
      assert x * e >= 0.0;
    } else {
      assert x * e < 0.0;
    }
  }

  /** A group counts as finished as soon as the scaled count rounds to nothing, which with a limit on
      events happens while events are still pending: exactly when pending * total < sync. */
  lemma FinishedExactlyWhen(pending: int, info: Info)
    requires info.syncCount >= 0
    ensures IsFinished(Some(pending), Some(info)) <==>
            pending * info.totalEvents < if info.syncCount == 0 then 1 else info.syncCount
  {
    var divisor := if info.syncCount == 0 then 1 else info.syncCount;
    var p := pending * info.totalEvents;
    var x := p as real / divisor as real;
    Divide(p, divisor);
    assert x >= 1.0 ==> x.Floor >= 1;
    assert 0.0 <= x < 1.0 ==> x.Floor == 0;
    assert x < 0.0 ==> (-x).Floor >= 0;
  }

  lemma RatioInRange(p: int, d: int, t: int)
    requires d > 0 && t >= 0 && 0 <= p <= d * t
    ensures 0 <= Truncate(p as real / d as real) <= t
    ensures p == d * t ==> Truncate(p as real / d as real) == t
  {
    var x, e := p as real / d as real, d as real;
    assert x * e == p as real;
    assert (d * t) as real == e * t as real;
    Divide(p, d);
    if x > t as real {
      assert (x - t as real) * e > 0.0;
    } else if x < t as real {
      assert (t as real - x) * e > 0.0;
    }
  }

  /** What `start_group_reprocessing` stores for `count` events and an optional limit. */
  function StartInfo(count: nat, maxEvents: Option<nat>): Info {
    Info(if maxEvents.Some? && maxEvents.value < count then maxEvents.value else count, count)
  }

  /** A started group can count as finished while events are pending exactly when the limit is below the
      event count. */
  lemma FinishesEarlyExactlyWhen(count: nat, maxEvents: Option<nat>)
    ensures (exists pending :: 0 < pending <= count && IsFinished(Some(pending), Some(StartInfo(count, maxEvents)))) <==>
            maxEvents.Some? && maxEvents.value < count
  {
    var info := StartInfo(count, maxEvents);
    if maxEvents.Some? && maxEvents.value < count {
      FinishedExactlyWhen(1, info);
    } else {
      forall pending | 0 < pending <= count
        ensures !IsFinished(Some(pending), Some(info))
      {
        FinishedExactlyWhen(pending, info);
        assert pending * count >= count;
      }
    }
  }

  /** For instance: two events, a limit of one, and one mark leaves one event pending. */
  lemma FinishedWhilePending()
    ensures StartInfo(2, Some(1)) == Info(1, 2) && CounterAfter(2, [1]) == 1
    ensures IsFinished(Some(1), Some(Info(1, 2)))
  {
    FinishedExactlyWhen(1, Info(1, 2));
    assert [1][..0] == [];
  }

  /** The bar starts at the number of events and stays within it while the counter counts down. */
  lemma ProgressStaysInRange(pending: int, info: Info)
    requires 0 <= pending <= info.syncCount && info.totalEvents >= 0
    ensures 0 <= Progress(Some(pending), Some(info)) <= info.totalEvents
    ensures pending == info.syncCount > 0 ==> Progress(Some(pending), Some(info)) == info.totalEvents
  {
    var d := if info.syncCount == 0 then 1 else info.syncCount;
    assert 0 <= pending * info.totalEvents;
    assert (d - pending) * info.totalEvents >= 0;
    assert pending * info.totalEvents <= d * info.totalEvents;
    RatioInRange(pending * info.totalEvents, d, info.totalEvents);
  }

  lemma SignOfProduct(x: real, e: real)
    requires e > 0.0
    ensures x * e > 0.0 <==> x > 0.0
  {
    if x <= 0.0 {
      assert -x * e >= 0.0;
    }
  }

  lemma FloorOfRatio(p: nat, d: nat)
    requires d > 0
    ensures (p as real / d as real).Floor == p / d
  {
    var q, r, x, e := p / d, p % d, p as real / d as real, d as real;
    assert x * e == p as real && p == q * d + r;
    assert (x - q as real) * e == r as real;
    assert ((q + 1) as real - x) * e == (d - r) as real;
    SignOfProduct(q as real - x, e);
    SignOfProduct((q + 1) as real - x, e);
    assert (q as real - x) * e == -(r as real);
  }

  /** The bar shows the visible share of the pending events, rounded down; without a counter or without
      the start's record it shows nothing left. */
  lemma ProgressIsRoundedDown(pending: nat, info: Info)
    requires info.totalEvents >= 0 && info.syncCount >= 0
    ensures Progress(Some(pending), Some(info)) ==
            pending * info.totalEvents / (if info.syncCount == 0 then 1 else info.syncCount)
    ensures Progress(None, Some(info)) == 0 && Progress(Some(pending), None) == 0
    ensures IsFinished(None, Some(info)) && IsFinished(Some(pending), None)
  {
    assert pending * info.totalEvents >= 0;
    FloorOfRatio(pending * info.totalEvents, if info.syncCount == 0 then 1 else info.syncCount);
  }

  // ----- mark_event_reprocessed

  lemma {:induction false} CounterFalls(start: int, done: seq<nat>, i: nat, j: nat)
    requires i <= j <= |done| && forall k :: 0 <= k < |done| ==> done[k] > 0
    ensures CounterAfter(start, done[..j]) <= CounterAfter(start, done[..i]) - (j - i)
    decreases j
  {
    if i < j {
      CounterFalls(start, done, i, j - 1);
      assert done[..j][..j - 1] == done[..j - 1];
    }
  }

  /** The atomic decrement reaches zero for at most one caller; when the marked events add up to the
      sync count it is the last one, so the group is finished once. */
  lemma FinishFiresOnce(start: int, done: seq<nat>, i: nat, j: nat)
    requires forall k :: 0 <= k < |done| ==> done[k] > 0
    requires i <= j <= |done| && CounterAfter(start, done[..i]) == 0
    ensures CounterAfter(start, done[..j]) == 0 <==> j == i
    ensures CounterAfter(start, done) == 0 ==> i == |done|
  {
    CounterFalls(start, done, i, j);
    CounterFalls(start, done, i, |done|);
    assert done[..|done|] == done;
  }
}
