// One append, planned from any listing of the stored rows and committed to the very same rows: the
// sidecar goes on representing the log, extended by the new event.
module AuditAppend {
  import opened Sequences
  import opened Wrappers
  import opened AuditChunks
  import opened AuditReader
  import opened AuditPlan
  import opened AuditEviction

  lemma {:induction false} MigrationPlan(json: Json, parent: Parent, log: seq<Event>, event: Event)
    requires Unmigrated(parent, log)
    ensures MigrationItems(json, parent, event)
            == match EncodeChunks(json, parent.id, LegacyEntries(log + [event], |log|))
               case Ok(chunks) => Ok(Puts(chunks))
               case Err(e) => Err(e)
  {
    var longer, n := log + [event], |log|;
    HistoryOf(parent, log);
    var all := History(parent).value + [Sequenced(n + 1, event, Stored, Some(EventKey(n + 1)))];
    assert |all| == n + 1;
    forall i: nat | i <= n
      ensures all[i] == WindowAt(longer, n, i)
    {
      if i < n { assert WindowFrom(log, n, 0, n)[i] == WindowAt(log, n, i); }
    }
    assert LastEntries(all) == WindowFrom(longer, n, Oldest(n + 1), n + 1);
    LegacyOfWindow(longer, n, Oldest(n + 1), n + 1, false);
  }

  /** The first append puts the retained inline entries as chunks and the new event as a row. */
  lemma {:induction false} MigrationCommit(json: Json, id: string, log: seq<Event>, event: Event, chunks: seq<Row>)
    requires EncodeChunks(json, id, LegacyEntries(log + [event], |log|)) == Ok(chunks)
    ensures var items := Puts(chunks) + [PutRow(EventRow(id, |log| + 1, event))];
            Committable(items, map[])
            && IsTableOf(ApplyAll(items, map[]), CanonicalRows(json, id, log + [event], |log|))
  {
    var row := EventRow(id, |log| + 1, event);
    var items := Puts(chunks) + [PutRow(row)];
    var target := CanonicalRows(json, id, log + [event], |log|);
    assert Max(Oldest(|log| + 1), |log|) == |log|;
    assert EventRows(id, log + [event], |log|) == [row];
    assert target == chunks + [row];
    EncodedRows(json, id, LegacyEntries(log + [event], |log|));
    assert forall i :: 0 <= i < |items| ==> items[i] == PutRow(target[i]);
    assert target[|chunks|] == row && forall i :: 0 <= i < |chunks| ==> target[i] == chunks[i];
    hide EncodeChunks, CanonicalRows, EventRows, LegacyEntries;
    PutsHaveKeys(id, items, chunks, row, |log| + 1);
    PutsReach(items, target);
  }

  lemma {:induction false} PutsHaveKeys(id: string, items: seq<Item>, chunks: seq<Row>, row: Row, sequence: nat)
    requires |items| == |chunks| + 1 && AreChunks(id, chunks) && row.SK == EventKey(sequence)
    requires items[|chunks|] == PutRow(row) && forall i :: 0 <= i < |chunks| ==> items[i] == PutRow(chunks[i])
    ensures forall i, j :: 0 <= i < j < |items| ==> Key(items[i]) != Key(items[j])
  {
    hide ChunkKey, EventKey, Partition;
    forall i, j | 0 <= i < j < |items| ensures Key(items[i]) != Key(items[j]) {
      if j < |chunks| { ChunkKeyDiffers(i, j); } else { KeyKindsDiffer(sequence, i); }
    }
  }

  /** Puts of rows with different keys make an empty table the table of those rows. */
  lemma {:induction false} PutsReach(items: seq<Item>, target: seq<Row>)
    requires |items| == |target| && forall i :: 0 <= i < |items| ==> items[i] == PutRow(target[i])
    requires forall i, j :: 0 <= i < j < |items| ==> Key(items[i]) != Key(items[j])
    ensures Committable(items, map[]) && IsTableOf(ApplyAll(items, map[]), target)
  {
    hide IsTableOf;
    forall r | r in target
      ensures exists x :: x in items && Key(x) == r.SK && Left(x, map[]) == Some(r)
    {
      var i :| 0 <= i < |target| && target[i] == r;
      assert items[i] in items;
    }
    NothingIsTable();
    CommitReaches(items, map[], [], target);
  }

  lemma {:induction false} NothingIsTable()
    ensures IsTableOf(map[], [])
  {
  }

  /** What an eviction plan is for a canonical sidecar, read back in any order. */
  lemma {:induction false} EvictionPlan(json: Json, parent: Parent, log: seq<Event>, legacy: nat, rows: seq<Row>)
    requires json.Lawful() && Migrated(parent, log, legacy) && Encodable(json, parent.id, log, legacy)
    requires Rearranges(rows, CanonicalRows(json, parent.id, log, legacy))
    ensures EvictionItems(json, parent, rows)
            == if |log| < MAX_ENTRIES then Ok([])
               else if legacy <= Oldest(|log|) then
                 Ok([DropEvent(EventKey(Oldest(|log|) + 1), Oldest(|log|) + 1)])
               else
                 match EncodeChunks(json, parent.id, EntriesFrom(log, Oldest(|log|) + 1, legacy))
                 case Ok(next) => Ok(Rewrites(next, Filter(IsLegacyRow, rows)) + Drops(next, Filter(IsLegacyRow, rows)))
                 case Err(e) => Err(e)
  {
    hide EncodeChunks;
    ReadCanonical(json, parent, log, legacy, rows);
    var window, from := Window(log, legacy), Oldest(|log|);
    if |log| >= MAX_ENTRIES {
      WindowIndex(log, legacy, 0);
      if legacy > from {
        assert window == WindowFrom(log, legacy, from, |log|);
        LegacyOfWindow(log, legacy, from, |log|, true);
        LegacyOfWindow(log, legacy, from, |log|, false);
      }
    }
  }

  /** The condition under which a legal append is refused: the new row is over the item size, the
      sequence is exhausted, or the first migration cannot be chunked. */
  ghost predicate Refused(json: Json, parent: Parent, log: seq<Event>, event: Event) {
    || |log| == MAX_SAFE_INTEGER
    || json.eventRowBytes(EventRow(parent.id, |log| + 1, event)) > MAX_ITEM_BYTES
    || (parent.storageVersion.None? && !Encodable(json, parent.id, log + [event], |log|))
  }

  ghost predicate AppendGoesThrough(json: Json, parent: Parent, table: Table, log: seq<Event>, legacy: nat, event: Event, plan: Plan) {
    && legacy <= |log| < MAX_SAFE_INTEGER && plan.sequence == |log| + 1
    && Committable(plan.items, table)
    && Encodable(json, parent.id, log + [event], legacy)
    && IsTableOf(ApplyAll(plan.items, table), CanonicalRows(json, parent.id, log + [event], legacy))
  }

  lemma {:induction false} AppendUnmigrated(json: Json, parent: Parent, log: seq<Event>, event: Event)
    requires Unmigrated(parent, log)
    ensures PlanWrite(json, parent, [], event).Err? <==> Refused(json, parent, log, event)
    ensures PlanWrite(json, parent, [], event).Ok? ==>
              AppendGoesThrough(json, parent, map[], log, |log|, event, PlanWrite(json, parent, [], event).value)
  {
    hide EncodeChunks, Committable, IsTableOf, CanonicalRows, MigrationItems, History;
    HistoryOf(parent, log);
    MigrationPlan(json, parent, log, event);
    if Encodable(json, parent.id, log + [event], |log|) {
      var chunks := EncodeChunks(json, parent.id, LegacyEntries(log + [event], |log|)).value;
      MigrationCommit(json, parent.id, log, event, chunks);
    }
  }

  lemma {:induction false} AppendMigrated(json: Json, parent: Parent, table: Table, log: seq<Event>, legacy: nat, rows: seq<Row>, event: Event)
    requires json.Lawful() && Migrated(parent, log, legacy) && Encodable(json, parent.id, log, legacy)
    requires IsTableOf(table, CanonicalRows(json, parent.id, log, legacy)) && Lists(rows, table)
    ensures PlanWrite(json, parent, rows, event).Err? <==> Refused(json, parent, log, event)
    ensures PlanWrite(json, parent, rows, event).Ok? ==>
              AppendGoesThrough(json, parent, table, log, legacy, event, PlanWrite(json, parent, rows, event).value)
  {
    hide EncodeChunks, Committable, IsTableOf, CanonicalRows, Lists, Rearranges, EvictionItems;
    var id := parent.id;
    ListingRearranges(json, parent, table, log, legacy, rows);
    EvictionPlan(json, parent, log, legacy, rows);
    if |log| >= MAX_ENTRIES && legacy > Oldest(|log|) { AppendOverLegacy(json, id, table, log, legacy, event, rows); }
    MigratedPlan(json, parent, log, legacy, rows, event);
    hide PlanWrite, Json.Lawful, Migrated;
    if |log| < MAX_ENTRIES {
      AppendOnly(json, id, table, log, legacy, event);
      assert [] + [PutRow(EventRow(id, |log| + 1, event))] == [PutRow(EventRow(id, |log| + 1, event))];
    } else if legacy <= Oldest(|log|) {
      EvictEvent(json, id, table, log, legacy, event);
      assert [DropEvent(EventKey(Oldest(|log|) + 1), Oldest(|log|) + 1)] + [PutRow(EventRow(id, |log| + 1, event))]
          == [DropEvent(EventKey(Oldest(|log|) + 1), Oldest(|log|) + 1), PutRow(EventRow(id, |log| + 1, event))];
    }
  }

  /** Once the sidecar is in use, a plan is the eviction and the put of the new row. */
  lemma {:induction false} MigratedPlan(json: Json, parent: Parent, log: seq<Event>, legacy: nat, rows: seq<Row>, event: Event)
    requires Migrated(parent, log, legacy) && EvictionItems(json, parent, rows).Ok?
    ensures PlanWrite(json, parent, rows, event).Err? <==> Refused(json, parent, log, event)
    ensures PlanWrite(json, parent, rows, event).Ok? ==>
              |log| < MAX_SAFE_INTEGER && legacy <= |log|
              && PlanWrite(json, parent, rows, event).value ==
                   Plan(|log| + 1, EvictionItems(json, parent, rows).value + [PutRow(EventRow(parent.id, |log| + 1, event))])
  {
    hide EvictionItems, Encodable;
  }

  lemma {:induction false} AppendOverLegacy(json: Json, id: string, table: Table, log: seq<Event>, legacy: nat, event: Event, rows: seq<Row>)
    requires json.Lawful() && Oldest(|log|) < legacy <= |log| && |log| >= MAX_ENTRIES && Encodable(json, id, log, legacy)
    requires IsTableOf(table, CanonicalRows(json, id, log, legacy))
    requires Rearranges(rows, CanonicalRows(json, id, log, legacy))
    ensures Encodable(json, id, log + [event], legacy)
    ensures EncodeChunks(json, id, EntriesFrom(log, Oldest(|log|) + 1, legacy)).Ok?
    ensures var next := EncodeChunks(json, id, EntriesFrom(log, Oldest(|log|) + 1, legacy)).value;
            var diff := Rewrites(next, Filter(IsLegacyRow, rows)) + Drops(next, Filter(IsLegacyRow, rows));
            var items := diff + [PutRow(EventRow(id, |log| + 1, event))];
            Committable(items, table)
            && IsTableOf(ApplyAll(items, table), CanonicalRows(json, id, log + [event], legacy))
            && forall x :: x in diff ==> x.SetChunk? || x.DropChunk?
  {
    hide EncodeChunks, Committable, IsTableOf, CanonicalRows;
    EntriesExtend(log, event, Oldest(|log|) + 1, legacy);
    EncodableRest(json, id, log, legacy, event);
    CanonicalSplit(json, id, log, legacy);
    FilterRearranges(IsLegacyRow, rows, CanonicalRows(json, id, log, legacy));
    EvictLegacy(json, id, table, log, legacy, event, Filter(IsLegacyRow, rows),
                EncodeChunks(json, id, LegacyEntries(log, legacy)).value,
                EncodeChunks(json, id, LegacyEntries(log + [event], legacy)).value);
  }

  lemma {:induction false} NothingListed(rows: seq<Row>)
    requires Lists(rows, map[])
    ensures rows == []
  {
    NoDuplicatesCardinality(rows);
    assert Elements(rows) == {};
  }

  /** Planning from a faithful snapshot is refused exactly in the cases above; otherwise every
      condition of the plan holds in that snapshot, no key is touched twice, and committing it
      extends the represented log by exactly the new event. */
  lemma {:induction false} AppendExtendsLog(json: Json, parent: Parent, table: Table, log: seq<Event>, legacy: nat,
                                            rows: seq<Row>, event: Event, updatedAt: int)
    requires json.Lawful() && Represents(json, parent, table, log, legacy) && Lists(rows, table)
    ensures PlanWrite(json, parent, rows, event).Err? <==> Refused(json, parent, log, event)
    ensures PlanWrite(json, parent, rows, event).Ok? ==>
              var plan := PlanWrite(json, parent, rows, event).value;
              plan.sequence == |log| + 1 && Committable(plan.items, table)
              && Represents(json, Advance(parent, plan.sequence, updatedAt), ApplyAll(plan.items, table), log + [event], legacy)
  {
    hide PlanWrite, EncodeChunks, Committable, IsTableOf, CanonicalRows, Encodable, Lists;
    if parent.storageVersion.None? {
      NothingListed(rows);
      AppendUnmigrated(json, parent, log, event);
    } else {
      AppendMigrated(json, parent, table, log, legacy, rows, event);
    }
  }

  /** Whatever is stored, the reader returns the last hundred events with their own numbers. */
  lemma {:induction false} ReadShowsWindow(json: Json, parent: Parent, table: Table, log: seq<Event>, legacy: nat, rows: seq<Row>)
    requires json.Lawful() && Represents(json, parent, table, log, legacy) && Lists(rows, table)
    ensures Read(json, parent, rows)
            == Ok(if parent.storageVersion.None? then WindowFrom(log, |log|, 0, |log|) else Window(log, legacy))
  {
    if parent.storageVersion.None? {
      NothingListed(rows);
      HistoryOf(parent, log);
    } else {
      ListingRearranges(json, parent, table, log, legacy, rows);
      ReadCanonical(json, parent, log, legacy, rows);
    }
  }
}
