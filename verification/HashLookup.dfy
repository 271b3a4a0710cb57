/** Looking for a row that decides where an event goes, tombstones included. */
module HashLookup {
  import opened Wrappers
  import opened GroupAssignment

  /** What the lookup sees in a `GroupHash` row. */
  datatype Entry = Linked(group: GroupId) | Tombstoned(tombstone: nat) | Unlinked

  /** The first row that is linked or tombstoned. */
  predicate DecidesAt(rows: seq<Entry>, i: nat) {
    i < |rows| && !rows[i].Unlinked? && forall j :: 0 <= j < i ==> rows[j] == Unlinked
  }

  /** `find_existing_grouphash`: the index of the deciding row, or the tombstone that discards the event.
      A tombstone behind a linked row goes unnoticed. */
  method FindExistingGrouphash(rows: seq<Entry>) returns (r: Result<Option<nat>, nat>)
    ensures r == Ok(None) <==> forall i :: 0 <= i < |rows| ==> rows[i] == Unlinked
    ensures forall i: nat :: r == Ok(Some(i)) <==> DecidesAt(rows, i) && rows[i].Linked?
    ensures forall t: nat :: r == Err(t) <==> exists i: nat :: DecidesAt(rows, i) && rows[i] == Tombstoned(t)
  {
    for i := 0 to |rows|
      invariant forall j :: 0 <= j < i ==> rows[j] == Unlinked
    {
      if rows[i].Linked? {
        assert DecidesAt(rows, i);
        return Ok(Some(i));
      }
      if rows[i].Tombstoned? {
        assert DecidesAt(rows, i);
        return Err(rows[i].tombstone);
      }
    }
    return Ok(None);
  }

  function GroupOf(e: Entry): Option<GroupId> {
    if e.Linked? then Some(e.group) else None
  }

  /** What reading the rows into `seen` shows. */
  function Groups(rows: seq<Entry>): seq<Option<GroupId>> {
    seq(|rows|, i requires 0 <= i < |rows| => GroupOf(rows[i]))
  }

  /** Against the lookup that knows no tombstones: the same group when a linked row decides; when a
      tombstone decides, the discarded event would have been given a group exactly if one comes later. */
  lemma TombstonesHideLaterGroups(rows: seq<Entry>, i: nat)
    requires DecidesAt(rows, i)
    ensures rows[i].Linked? ==> FirstSome(Groups(rows)) == Some(rows[i].group)
    ensures rows[i].Tombstoned? ==>
              (FirstSome(Groups(rows)).Some? <==> exists j :: i < j < |rows| && rows[j].Linked?)
  {
    var seen := Groups(rows);
    assert forall j :: 0 <= j < |rows| ==> seen[j] == GroupOf(rows[j]);
    if FirstSome(seen).Some? {
      var k: nat :| FirstAt(seen, k) && seen[k] == FirstSome(seen);
      assert forall j :: 0 <= j < k ==> seen[..k][j] == seen[j];
      assert rows[k].Linked?;
    } else {
      assert seen[i] == None;
    }
  }
}
