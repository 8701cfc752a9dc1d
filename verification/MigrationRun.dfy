/** Whole migration runs: writing, verifying, stopping anywhere, running again, and competing writers. */
module MigrationRun {
  import opened Wrappers
  import opened Ordering
  import opened Migration

  type Records = map<string, Item>

  // Whether a migration prepared from a snapshot may still be written over what is there now.
  predicate Fits(before: Item, item: Item) {
    "id" in item && "data" !in item && Agrees(before, item)
  }

  function RecordAt(t: Records, id: string): Option<Item> {
    if id in t then Some(t[id]) else None
  }

  function DataOf(before: Item): Option<AttributeValue>
    requires "id" in before
  {
    Lookup(Migrated(before), "data")
  }

  // Each record listed is untouched, or was migrated over a state the snapshot still described. No other record moved.
  ghost predicate Progress(was: Records, now: Records, before: Records, ids: set<string>) {
    && now.Keys == was.Keys
    && forall id | id in was ::
      (now[id] == was[id] || (id in ids && id in before && "id" in before[id] && Fits(before[id], was[id])
        && now[id] == Moved(was[id], DataOf(before[id]))))
  }

  ghost predicate AllMigratable(t: Records) {
    forall id | id in t :: Migratable(t[id])
  }

  function Target(t: Records): Records
    requires AllMigratable(t)
  {
    map id | id in t :: Migrated(t[id])
  }

  // ----- Planning -----

  lemma MigratableHasId(item: Item)
    requires Migratable(item)
    ensures "id" in item
  {}

  // The records a plan rewrites: exactly the legacy ones.
  lemma OnlyLegacyChanges(item: Item)
    requires Migratable(item)
    ensures Migrated(item) != item <==> Legacy(item)
  {
    if Legacy(item) {
      var name :| name in LEGACY_FIELDS && name in item;
      assert name !in Migrated(item);
    }
  }

  method Plan(before: Records) returns (after: Result<Records, MigrationError>, changed: seq<string>)
    ensures after.Success? <==> AllMigratable(before)
    ensures after.Success? ==> after.value == Target(before)
    ensures after.Success? ==> Sorted(changed) && forall id :: id in changed <==> id in before && Legacy(before[id])
  {
    hide Migrated, Migratable, Legacy, Sorted;
    var rest := before.Keys;
    var next: Records := map[];
    var ids: seq<string> := [];
    while rest != {}
      invariant rest <= before.Keys && next.Keys == before.Keys - rest
      invariant forall id | id in next ::
        Migratable(before[id]) && "id" in before[id] && next[id] == Migrated(before[id])
      invariant forall id :: id in ids <==> id in next && Legacy(before[id])
      decreases rest
    {
      var id :| id in rest;
      var migrated := MigratedRepoItem(before[id]);
      if migrated.Failure? {
        assert !AllMigratable(before);
        return Failure(migrated.error), [];
      }
      MigratableHasId(before[id]);
      OnlyLegacyChanges(before[id]);
      next := next[id := migrated.value];
      if before[id] != migrated.value {
        ids := ids + [id];
      }
      rest := rest - {id};
    }
    changed := Sort(ids);
    assert forall id :: id in changed <==> id in multiset(changed);
    assert forall id :: id in ids <==> id in multiset(ids);
    assert next == Target(before);
    after := Success(next);
  }

  // ----- Writing -----

  // A record migrated once no longer matches a legacy snapshot, so no second write can touch it.
  lemma MovedNeverFits(before: Item, item: Item, data: Option<AttributeValue>)
    requires Legacy(before)
    ensures !Fits(before, Moved(item, data))
  {
    var name :| name in LEGACY_FIELDS && name in before;
    assert FENCED == LEGACY_FIELDS + FENCED[4..];
    assert name in FENCED;
    assert Lookup(Moved(item, data), name) != Lookup(before, name);
  }

  lemma SnapshotFits(before: Item)
    requires Migratable(before) && Legacy(before)
    ensures Fits(before, before) && Moved(before, DataOf(before)) == Migrated(before)
  {
    assert forall name | name in before :: name == "id" || name in LEGACY_FIELDS;
    assert "id" !in LEGACY_FIELDS && "data" !in LEGACY_FIELDS;
  }

  // The state of the table after one Write.
  function Written(t: Records, id: string, before: Item, done: bool): Records
    requires "id" in before
  {
    if done && id in t && Fits(before, t[id]) then t[id := Moved(t[id], DataOf(before))] else t
  }

  lemma WriteProgresses(was: Records, now: Records, before: Records, ids: set<string>, id: string, done: bool)
    requires Progress(was, now, before, ids) && id in before && Migratable(before[id]) && Legacy(before[id])
      && "id" in before[id]
    ensures Progress(was, Written(now, id, before[id], done), before, ids + {id})
  {
    hide Migratable, Migrated, Legacy, Fits, Moved;
    if id in was && now[id] != was[id] { MovedNeverFits(before[id], was[id], DataOf(before[id])); }
  }

  // Nothing but a competing change or a lost request can stop a write.
  lemma WriteCompletes(was: Records, now: Records, before: Records, ids: set<string>, id: string)
    requires Progress(was, now, before, ids) && id in before && Migratable(before[id]) && Legacy(before[id])
      && "id" in before[id]
    requires RecordAt(was, id) == Some(before[id])
    ensures RecordAt(Written(now, id, before[id], true), id) == Some(Migrated(before[id]))
  {
    hide Migratable, Migrated, Legacy, Fits, Moved;
    SnapshotFits(before[id]);
    MovedNeverFits(before[id], was[id], DataOf(before[id]));
  }

  lemma MoreProgress(was: Records, now: Records, before: Records, ids: set<string>, more: set<string>)
    requires Progress(was, now, before, ids) && ids <= more
    ensures Progress(was, now, before, more)
  {
    hide Migrated, Legacy, Fits, Moved;
  }

  // What became of one request: answered, carried out with the answer lost, or never carried out.
  datatype Reply = Answered | AnswerLost | NotDone

  function Ids(changed: seq<string>): set<string> {
    set id | id in changed
  }

  lemma NextId(changed: seq<string>, i: nat)
    requires i < |changed|
    ensures Ids(changed[..i + 1]) == Ids(changed[..i]) + {changed[i]} && Ids(changed[..i + 1]) <= Ids(changed)
  {
    assert changed[..i + 1] == changed[..i] + [changed[i]];
  }

  // Every record listed stands as the plan wants it.
  ghost predicate Confirmed(t: Records, after: Records, ids: set<string>) {
    forall id | id in ids :: id in after && RecordAt(t, id) == Some(after[id])
  }

  // Nobody changed a listed record since the snapshot, and every request is carried out.
  ghost predicate Undisturbed(t: Records, before: Records, changed: seq<string>, replies: string -> Reply) {
    forall id | id in changed :: id in before && RecordAt(t, id) == Some(before[id]) && replies(id) != NotDone
  }

  lemma NothingDone(t: Records, before: Records, after: Records)
    ensures Progress(t, t, before, {}) && Confirmed(t, after, {})
  {}

  lemma MigratableAt(before: Records, id: string)
    requires AllMigratable(before) && id in before
    ensures Migratable(before[id]) && "id" in before[id]
    ensures id in Target(before) && Target(before)[id] == Migrated(before[id])
  {}

  lemma ConfirmedGrows(now: Records, after: Records, done: set<string>, id: string, before: Records, wrote: bool)
    requires id in before && "id" in before[id] && id in after && Confirmed(now, after, done)
    requires RecordAt(Written(now, id, before[id], wrote), id) == Some(after[id])
    ensures Confirmed(Written(now, id, before[id], wrote), after, done + {id})
  {
    hide Fits, Moved, Migrated;
  }

  class Table {
    var records: Records

    constructor (records: Records)
      ensures this.records == records
    {
      this.records := records;
    }

    // The service's side of a conditional update.
    method UpdateItem(id: string, r: Request) returns (attributes: Option<Item>)
      modifies this
      ensures if id in old(records) && Passes(r, old(records)[id])
              then records == old(records)[id := Updated(r, old(records)[id])] && attributes == Some(records[id])
              else records == old(records) && attributes.None?
    {
      if id in records && Passes(r, records[id]) {
        records := records[id := Updated(r, records[id])];
        attributes := Some(records[id]);
      } else {
        attributes := None;
      }
    }

    // One record: write, and on any error decide by what a strong read finds.
    method Write(id: string, before: Item, after: Item, reply: Reply) returns (ok: bool)
      requires Migratable(before) && "id" in before && Legacy(before) && after == Migrated(before)
      modifies this
      ensures records == Written(old(records), id, before, reply != NotDone)
      ensures ok <==> RecordAt(records, id) == Some(after)
    {
      hide Built, Passes, Updated, Migratable, Migrated, Legacy, Agrees, Moved, Defined;
      MigratableHasId(before);
      var request := MigrationUpdate(before, after);
      if id in records {
        ConditionIsExact(request, before, DataOf(before), records[id]);
        UpdateIsExact(request, before, DataOf(before), records[id]);
      }
      var attributes: Option<Item> := None;
      if reply != NotDone {
        attributes := UpdateItem(id, request);
      }
      if reply == Answered && attributes.Some? {
        return attributes.value == after;
      }
      ok := RecordAt(records, id) == Some(after);
    }

    // Record by record, stopping at the first that cannot be confirmed.
    method WriteAll(before: Records, after: Records, changed: seq<string>, replies: string -> Reply) returns (ok: bool)
      requires AllMigratable(before) && after == Target(before)
      requires forall id | id in changed :: id in before && Legacy(before[id])
      modifies this
      ensures Progress(old(records), records, before, Ids(changed))
      ensures ok ==> Confirmed(records, after, Ids(changed))
      ensures Undisturbed(old(records), before, changed, replies) ==> ok
    {
      hide Migratable, Migrated, Legacy, Progress, Confirmed, Target, Written, RecordAt;
      ghost var was := records;
      ghost var done: set<string> := {};
      NothingDone(was, before, after);
      for i := 0 to |changed|
        invariant done == Ids(changed[..i])
        invariant Progress(was, records, before, done) && Confirmed(records, after, done)
      {
        var id := changed[i];
        ghost var now := records;
        MigratableAt(before, id);
        ok := Write(id, before[id], after[id], replies(id));
        WriteProgresses(was, now, before, done, id, replies(id) != NotDone);
        NextId(changed, i);
        if !ok {
          MoreProgress(was, records, before, done + {id}, Ids(changed));
          if Undisturbed(was, before, changed, replies) { WriteCompletes(was, now, before, done, id); }
          return;
        }
        ConfirmedGrows(now, after, done, id, before, replies(id) != NotDone);
        done := done + {id};
      }
      assert changed[..|changed|] == changed;
      ok := true;
    }

    // Snapshot, plan, write, and compare a final snapshot with the plan.
    method Run(bucket: string, apply: bool, replies: string -> Reply) returns (ok: bool)
      modifies this
      ensures var was := Selected(old(records), bucket);
        && (ok ==> AllMigratable(was) && (apply ==> Selected(records, bucket) == Target(was)))
        && (!apply || !AllMigratable(was) ==> records == old(records))
        && (AllMigratable(was) && (forall id | id in was :: replies(id) != NotDone) ==> ok)
        && Progress(old(records), records, was, was.Keys)
      ensures records.Keys == old(records).Keys
      ensures forall id | id in records && !Below(bucket, id) :: records[id] == old(records)[id]
    {
      hide Migratable, Migrated, Legacy, Progress, Confirmed, Target, Sorted;
      var before := Selected(records, bucket);
      NothingDone(records, before, map[]);
      MoreProgress(records, records, before, {}, before.Keys);
      OthersStay(records, records, bucket);
      var after, changed := Plan(before);
      if after.Failure? {
        return false;
      }
      if !apply || |changed| == 0 {
        if |changed| == 0 { NothingToDo(before, changed); }
        return true;
      }
      ghost var was := records;
      var written := WriteAll(before, after.value, changed, replies);
      MoreProgress(was, records, before, Ids(changed), before.Keys);
      OthersStay(was, records, bucket);
      if written { AllWritten(was, records, bucket, changed); }
      ok := written && Selected(records, bucket) == after.value;
    }
  }

  // The records of one bucket.
  function Selected(t: Records, bucket: string): Records {
    map id | id in t && bucket + "/" <= id :: t[id]
  }

  // The id names a repository in this bucket.
  ghost predicate Below(bucket: string, id: string) {
    exists repository :: id == bucket + "/" + repository
  }

  lemma SelectedAreBelow(t: Records, bucket: string)
    ensures forall id :: id in Selected(t, bucket) <==> id in t && Below(bucket, id)
  {
    forall id | id in Selected(t, bucket) ensures Below(bucket, id) {
      assert id == bucket + "/" + id[|bucket| + 1..];
    }
  }

  // As bucket names have no slash, the records of two buckets never overlap.
  lemma BucketsAreApart(t: Records, a: string, b: string)
    requires '/' !in a && '/' !in b && a != b
    ensures Selected(t, a).Keys !! Selected(t, b).Keys
  {
    forall id | id in Selected(t, a) ensures id !in Selected(t, b) {
      if b + "/" <= id { BelowOne(a, b, id); }
    }
  }

  lemma BelowOne(a: string, b: string, id: string)
    requires '/' !in a && '/' !in b && a + "/" <= id && b + "/" <= id
    ensures a == b
  {
    assert id[|a|] == '/' && id[|b|] == '/';
    assert (forall k | 0 <= k < |a| :: id[k] == a[k]) && (forall k | 0 <= k < |b| :: id[k] == b[k]);
    assert |a| == |b|;
  }

  lemma OthersStay(was: Records, now: Records, bucket: string)
    requires Progress(was, now, Selected(was, bucket), Selected(was, bucket).Keys)
    ensures now.Keys == was.Keys && forall id | id in now && !Below(bucket, id) :: now[id] == was[id]
  {
    hide Fits, Moved;
    SelectedAreBelow(was, bucket);
  }

  lemma NothingToDo(before: Records, changed: seq<string>)
    requires AllMigratable(before) && changed == [] && forall id | id in before :: id in changed <==> Legacy(before[id])
    ensures Target(before) == before
  {
    hide Legacy;
    forall id | id in before ensures Migrated(before[id]) == before[id] { OnlyLegacyChanges(before[id]); }
  }

  lemma AllWritten(was: Records, now: Records, bucket: string, changed: seq<string>)
    requires AllMigratable(Selected(was, bucket)) && Progress(was, now, Selected(was, bucket), Ids(changed))
    requires forall id | id in Selected(was, bucket) :: Legacy(was[id]) ==> id in changed
    requires Confirmed(now, Target(Selected(was, bucket)), Ids(changed))
    ensures Selected(now, bucket) == Target(Selected(was, bucket))
  {
    hide Legacy, Migratable, Migrated, Fits, Moved;
    var before := Selected(was, bucket);
    forall id | id in before ensures id in now && now[id] == Target(before)[id] {
      OnlyLegacyChanges(before[id]);
      if Legacy(before[id]) { assert id in Ids(changed); }
    }
  }

  // ----- Stopping and running again -----

  lemma HalfwayIsMigratable(was: Records, now: Records, id: string)
    requires AllMigratable(was) && Progress(was, now, was, was.Keys) && id in was
    ensures id in now && "id" in was[id] && "id" in now[id]
    ensures Migratable(was[id]) && Migratable(now[id]) && Migrated(now[id]) == Migrated(was[id])
  {
    hide Migratable, Migrated, Legacy, Fits, Moved;
    MigratableAt(was, id);
    if now[id] != was[id] {
      OnlyLegacyChanges(was[id]);
      UnfitUnlessLegacy(was[id]);
      SnapshotFits(was[id]);
      MigratedIsSettled(was[id]);
    }
  }

  // Only a legacy record can differ from what its own migration would write.
  lemma UnfitUnlessLegacy(item: Item)
    requires Migratable(item) && "id" in item && Fits(item, item) && Moved(item, DataOf(item)) != item
    ensures Legacy(item)
  {}

  // Wherever a run stopped, the records are still migratable, and running again aims at the very same table.
  lemma RerunAimsTheSame(was: Records, now: Records)
    requires AllMigratable(was) && Progress(was, now, was, was.Keys)
    ensures AllMigratable(now) && Target(now) == Target(was)
  {
    hide Migratable, Migrated, Fits, Moved, Progress;
    SameKeys(was, now);
    forall id | id in was
      ensures "id" in was[id] && "id" in now[id]
      ensures Migratable(was[id]) && Migratable(now[id]) && Migrated(now[id]) == Migrated(was[id])
    {
      HalfwayIsMigratable(was, now, id);
    }
  }

  lemma SameKeys(was: Records, now: Records)
    requires Progress(was, now, was, was.Keys)
    ensures now.Keys == was.Keys
  {}

  // ----- Competing writers -----

  // Somebody else's change to a record, or one of the migration's own conditional writes.
  datatype Event = Edit(id: string, item: Option<Item>) | Attempt(id: string)

  function Happen(t: Records, before: Records, event: Event): Records {
    match event
    case Edit(id, None) => t - {id}
    case Edit(id, Some(item)) => t[id := item]
    case Attempt(id) => if id in before && "id" in before[id] then Written(t, id, before[id], true) else t
  }

  function Replay(t: Records, before: Records, events: seq<Event>): Records
    decreases |events|
  {
    if events == [] then t else Replay(Happen(t, before, events[0]), before, events[1..])
  }

  // A record changed on a fenced attribute since the snapshot stays as it was changed, however often the migration
  // tries.
  lemma {:induction false} CompetingChangeSurvives(t: Records, before: Records, events: seq<Event>, id: string)
    requires id in t && id in before && !Fits(before[id], t[id])
    requires forall i | 0 <= i < |events| :: events[i].Edit? ==> events[i].id != id
    ensures id in Replay(t, before, events) && Replay(t, before, events)[id] == t[id]
    decreases |events|
  {
    hide Fits, Migrated, Moved;
    if events != [] {
      CompetingChangeSurvives(Happen(t, before, events[0]), before, events[1..], id);
    }
  }
}
