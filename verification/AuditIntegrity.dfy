// What the conditions of the sidecar protect against by themselves: a lost row, and a plan made
// before other appends were committed (backend/src/bookkeepingAudit.ts).
module AuditIntegrity {
  import opened Sequences
  import opened Wrappers
  import opened AuditChunks
  import opened AuditReader
  import opened AuditPlan
  import opened AuditEviction
  import opened AuditAppend

  // ---------------------------------------------------------------- a missing row

  lemma {:induction false} InsertLength(x: Sequenced, s: seq<Sequenced>)
    ensures |Insert(x, s)| == |s| + 1
  {
    if s != [] && s[|s| - 1].sequence > x.sequence { InsertLength(x, s[..|s| - 1]); }
  }

  lemma {:induction false} SortLength(s: seq<Sequenced>)
    ensures |Sort(s)| == |s|
  {
    if s != [] {
      SortLength(s[..|s| - 1]);
      InsertLength(s[|s| - 1], Sort(s[..|s| - 1]));
    }
  }

  /** All rows but one: selections of each kind lose that row and no other. */
  lemma {:induction false} WithoutOne(p: Row -> bool, rows: seq<Row>, canon: seq<Row>, gone: Row)
    requires NoDuplicates(rows) && NoDuplicates(canon) && gone in canon
    requires forall r :: r in rows <==> r in canon && r != gone
    ensures |Filter(p, rows)| == |Filter(p, canon)| - (if p(gone) then 1 else 0)
  {
    FilterMembers(p, rows);
    FilterMembers(p, canon);
    FilterNoDuplicates(p, rows);
    FilterNoDuplicates(p, canon);
    NoDuplicatesCardinality(Filter(p, rows));
    NoDuplicatesCardinality(Filter(p, canon));
    assert Elements(Filter(p, rows)) == Elements(Filter(p, canon)) - (if p(gone) then {gone} else {});
  }

  lemma {:induction false} EncodedNonEmpty(json: Json, id: string, entries: seq<Entry>)
    requires json.Lawful() && EncodeChunks(json, id, entries).Ok?
    ensures entries == [] <==> EncodeChunks(json, id, entries).value == []
  {
    if entries != [] {
      Base64.EncodeLength(json.stringify(entries));
      ChunkBounds(|Serialized(json, entries)|, 0);
    }
  }

  lemma {:induction false} ReadNeedsAll(json: Json, parent: Parent, rows: seq<Row>)
    requires parent.storageVersion == Some(STORAGE_VERSION) && Read(json, parent, rows).Ok?
    ensures parent.auditSequence.Some?
    ensures DecodeChunks(json, parent.id, Filter(IsLegacyRow, rows)).Ok? && Collect(parent.id, rows).Some?
    ensures |DecodeChunks(json, parent.id, Filter(IsLegacyRow, rows)).value| + |Collect(parent.id, rows).value|
            == Min(parent.auditSequence.value, MAX_ENTRIES)
  {
    hide DecodeChunks, Collect;
    SortLength(FromEntries(DecodeChunks(json, parent.id, Filter(IsLegacyRow, rows)).value) + Collect(parent.id, rows).value);
  }

  /** With one chunk missing the others disagree with their own count, or none is left at all. */
  lemma {:induction false} LostChunk(json: Json, id: string, entries: seq<Entry>, rows: seq<Row>)
    requires EncodeChunks(json, id, entries).Ok?
    requires forall r :: r in rows ==> r in EncodeChunks(json, id, entries).value
    requires |rows| == |EncodeChunks(json, id, entries).value| - 1
    ensures DecodeChunks(json, id, rows).Ok? ==> DecodeChunks(json, id, rows).value == []
  {
    EncodedRows(json, id, entries);
    if rows != [] {
      assert rows[0] in rows;
    }
  }

  lemma {:induction false} CanonicalCount(json: Json, id: string, log: seq<Event>, legacy: nat)
    requires legacy < |log|
    ensures |LegacyEntries(log, legacy)| + |EventRows(id, log, Max(Oldest(|log|), legacy))| == Min(|log|, MAX_ENTRIES)
  {
  }

  lemma {:induction false} ListingWithoutOne(table: Table, canon: seq<Row>, sk: string, rows: seq<Row>)
    requires IsTableOf(table, canon) && sk in table && Lists(rows, table - {sk})
    ensures table[sk] in canon && NoDuplicates(rows)
    ensures forall r :: r in rows <==> r in canon && r != table[sk]
  {
    forall r | r in canon && r != table[sk]
      ensures r in rows
    {
      assert r.SK in table - {sk};
    }
  }

  lemma {:induction false} ReadFailsWithIntegrity(json: Json, parent: Parent, rows: seq<Row>)
    ensures parent.storageVersion.Some? && Read(json, parent, rows).Err? ==> Read(json, parent, rows) == Err(Integrity)
  {
    hide EncodeChunks, DecodeChunks, Collect;
  }

  /** Scanning all canonical rows but some yields one event for each event row still there. */
  lemma {:induction false} CollectSome(json: Json, id: string, log: seq<Event>, legacy: nat, rows: seq<Row>)
    requires legacy <= |log| <= MAX_SAFE_INTEGER && Encodable(json, id, log, legacy)
    requires forall r :: r in rows ==> r in CanonicalRows(json, id, log, legacy)
    ensures Collect(id, rows).Some? && |Collect(id, rows).value| == |Filter(IsOtherRow, rows)|
  {
    hide EncodeChunks;
    EncodedRows(json, id, LegacyEntries(log, legacy));
    EventRowsMembers(id, log, Max(Oldest(|log|), legacy));
    CollectCanonical(id, log, Max(Oldest(|log|), legacy), rows);
  }

  lemma {:induction false} DecodedWithoutOne(json: Json, id: string, entries: seq<Entry>, rows: seq<Row>, gone: Row)
    requires json.Lawful() && EncodeChunks(json, id, entries).Ok?
    requires forall i :: 0 <= i < |entries| ==> 1 <= entries[i].sequence <= MAX_SAFE_INTEGER
    requires NoDuplicates(rows) && forall r :: r in rows <==> r in EncodeChunks(json, id, entries).value && r != gone
    requires |rows| == |EncodeChunks(json, id, entries).value| - (if gone in EncodeChunks(json, id, entries).value then 1 else 0)
    ensures DecodeChunks(json, id, rows).Ok? ==>
              |DecodeChunks(json, id, rows).value| == (if gone in EncodeChunks(json, id, entries).value then 0 else |entries|)
    ensures gone in EncodeChunks(json, id, entries).value ==> entries != []
  {
    hide EncodeChunks, DecodeChunks, Json.Lawful;
    EncodedRows(json, id, entries);
    EncodedNonEmpty(json, id, entries);
    if gone in EncodeChunks(json, id, entries).value {
      LostChunk(json, id, entries, rows);
    } else {
      DecodeEncodeChunks(json, id, entries, rows);
    }
  }

  /** Deleting any one sidecar row of a migrated transaction makes every later read fail. */
  lemma {:induction false} LostRowIsDetected(json: Json, parent: Parent, table: Table, log: seq<Event>, legacy: nat,
                                             sk: string, rows: seq<Row>)
    requires json.Lawful() && Migrated(parent, log, legacy) && Encodable(json, parent.id, log, legacy)
    requires IsTableOf(table, CanonicalRows(json, parent.id, log, legacy))
    requires sk in table && Lists(rows, table - {sk})
    ensures Read(json, parent, rows) == Err(Integrity)
  {
    hide EncodeChunks, Read, DecodeChunks, Collect, CanonicalRows, IsTableOf, Lists, Json.Lawful, LegacyEntries;
    var id, gone, entries := parent.id, table[sk], LegacyEntries(log, legacy);
    var canon := CanonicalRows(json, id, log, legacy);
    var chunks := EncodeChunks(json, id, entries).value;
    ListingWithoutOne(table, canon, sk, rows);
    CanonicalSplit(json, id, log, legacy);
    WithoutOne(IsLegacyRow, rows, canon, gone);
    WithoutOne(IsOtherRow, rows, canon, gone);
    FilterMembers(IsLegacyRow, rows);
    FilterMembers(IsLegacyRow, canon);
    FilterNoDuplicates(IsLegacyRow, rows);
    CollectSome(json, id, log, legacy, rows);
    EntriesNumbered(log, legacy);
    DecodedWithoutOne(json, id, entries, Filter(IsLegacyRow, rows), gone);
    CanonicalCount(json, id, log, legacy);
    ReadFailsWithIntegrity(json, parent, rows);
    assert gone in chunks <==> IsLegacyRow(gone);
    if Read(json, parent, rows).Ok? {
      ReadNeedsAll(json, parent, rows);
      assert false;
    }
  }

  lemma {:induction false} EntriesNumbered(log: seq<Event>, legacy: nat)
    requires legacy < |log| <= MAX_SAFE_INTEGER
    ensures forall i :: 0 <= i < |LegacyEntries(log, legacy)| ==> 1 <= LegacyEntries(log, legacy)[i].sequence <= MAX_SAFE_INTEGER
  {
  }

  // ---------------------------------------------------------------- a stale plan

  ghost predicate Evicts(parent: Parent, log: seq<Event>) {
    parent.storageVersion.Some? && |log| >= MAX_ENTRIES
  }

  /** Between one and a hundred appends later the stale plan's own sequence number is still taken. */
  lemma {:induction false} NumberStillTaken(json: Json, id: string, table: Table, log: seq<Event>, more: seq<Event>, legacy: nat)
    requires legacy <= |log| && 1 <= |more| <= MAX_ENTRIES && Encodable(json, id, log + more, legacy)
    requires IsTableOf(table, CanonicalRows(json, id, log + more, legacy))
    ensures EventKey(|log| + 1) in table
  {
    hide EncodeChunks;
    var all := log + more;
    var row := EventRow(id, |log| + 1, all[|log|]);
    EventRowsMembers(id, all, Max(Oldest(|all|), legacy));
    assert IsEventRowOf(id, all, Max(Oldest(|all|), legacy), row);
    assert row in CanonicalRows(json, id, all, legacy);
  }

  /** More than a hundred appends later nothing a stale plan names is left. */
  lemma {:induction false} OldKeysGone(json: Json, id: string, table: Table, log: seq<Event>, more: seq<Event>, legacy: nat, n: nat)
    requires legacy <= |log| && |more| > MAX_ENTRIES && Encodable(json, id, log + more, legacy)
    requires IsTableOf(table, CanonicalRows(json, id, log + more, legacy))
    ensures n <= |log| + 1 ==> EventKey(n) !in table
    ensures ChunkKey(n) !in table
  {
    var all := log + more;
    var from := Oldest(|all|);
    assert Max(from, legacy) == from && from >= |log| + 1;
    EntriesEmpty(all, from, legacy);
    EventRowsMembers(id, all, from);
    if n <= |log| + 1 && EventKey(n) in table {
      EventKeysDistinct(id, all, from, table[EventKey(n)], n);
    }
    if ChunkKey(n) in table {
      KeyKindsDiffer(table[ChunkKey(n)].sequence.value, n);
    }
  }

  predicate IsChunkWrite(x: Item) {
    x.SetChunk? || x.DropChunk?
  }

  /** The parts of a plan: what makes room for the new event, then the put of the new event. */
  ghost predicate PlanShape(parent: Parent, log: seq<Event>, event: Event, items: seq<Item>) {
    && items != [] && items[|items| - 1] == PutRow(EventRow(parent.id, |log| + 1, event))
    && (forall x :: x in items ==>
          || (x == PutRow(EventRow(parent.id, |log| + 1, event)))
          || (parent.storageVersion.None? && x.PutRow? && exists i: nat :: x.row.SK == ChunkKey(i))
          || (Evicts(parent, log) && x.DropEvent? && x.sk == EventKey(Oldest(|log|) + 1))
          || (Evicts(parent, log) && IsChunkWrite(x) && exists i: nat :: x.sk == ChunkKey(i)))
    && (Evicts(parent, log) ==> exists x :: x in items && !x.PutRow?)
  }

  lemma {:induction false} DiffShape(chunks: seq<Row>, next: seq<Row>, diff: seq<Item>)
    requires |next| <= |chunks| && chunks != [] && IsDiff(chunks, next, diff)
    ensures diff != [] && forall x :: x in diff ==> IsChunkWrite(x) && exists i: nat :: x.sk == ChunkKey(i)
  {
    if next != [] { assert Rewritten(next, 0, |chunks|) in diff; } else { assert Dropped(0, |chunks|) in diff; }
    forall x | x in diff
      ensures IsChunkWrite(x) && exists i: nat :: x.sk == ChunkKey(i)
    {
      if i :| 0 <= i < |next| && x == Rewritten(next, i, |chunks|) {
        assert x.sk == ChunkKey(i);
      } else {
        var i :| |next| <= i < |chunks| && x == Dropped(i, |chunks|);
        assert x.sk == ChunkKey(i);
      }
    }
  }

  lemma {:induction false} EvictionShape(json: Json, parent: Parent, log: seq<Event>, legacy: nat, rows: seq<Row>)
    requires json.Lawful() && Oldest(|log|) < legacy <= |log| && |log| >= MAX_ENTRIES && Encodable(json, parent.id, log, legacy)
    requires Rearranges(rows, CanonicalRows(json, parent.id, log, legacy))
    ensures EncodeChunks(json, parent.id, EntriesFrom(log, Oldest(|log|) + 1, legacy)).Ok?
    ensures var next := EncodeChunks(json, parent.id, EntriesFrom(log, Oldest(|log|) + 1, legacy)).value;
            var diff := Rewrites(next, Filter(IsLegacyRow, rows)) + Drops(next, Filter(IsLegacyRow, rows));
            diff != [] && forall x :: x in diff ==> IsChunkWrite(x) && exists i: nat :: x.sk == ChunkKey(i)
  {
    hide EncodeChunks, CanonicalRows, IsDiff, Json.Lawful, Rewrites, Drops;
    var id := parent.id;
    EntriesRest(log, Oldest(|log|), legacy);
    var entries := LegacyEntries(log, legacy);
    EncodeRest(json, id, entries);
    EncodedNonEmpty(json, id, entries);
    CanonicalSplit(json, id, log, legacy);
    FilterRearranges(IsLegacyRow, rows, CanonicalRows(json, id, log, legacy));
    EncodedRows(json, id, entries);
    EncodedRows(json, id, entries[1..]);
    var chunks, next := EncodeChunks(json, id, entries).value, EncodeChunks(json, id, entries[1..]).value;
    DiffItems(id, chunks, next, Filter(IsLegacyRow, rows));
    DiffShape(chunks, next, Rewrites(next, Filter(IsLegacyRow, rows)) + Drops(next, Filter(IsLegacyRow, rows)));
  }

  lemma {:induction false} MigrationShape(json: Json, parent: Parent, log: seq<Event>, event: Event)
    requires Unmigrated(parent, log) && PlanWrite(json, parent, [], event).Ok?
    ensures PlanShape(parent, log, event, PlanWrite(json, parent, [], event).value.items)
  {
    hide EncodeChunks, History, MigrationItems;
    var id := parent.id;
    HistoryOf(parent, log);
    MigrationPlan(json, parent, log, event);
    var entries := LegacyEntries(log + [event], |log|);
    EncodedRows(json, id, entries);
    var chunks := EncodeChunks(json, id, entries).value;
    var items := PlanWrite(json, parent, [], event).value.items;
    assert items == Puts(chunks) + [PutRow(EventRow(id, |log| + 1, event))];
    forall x | x in items
      ensures x == PutRow(EventRow(id, |log| + 1, event)) || (x.PutRow? && exists i: nat :: x.row.SK == ChunkKey(i))
    {
      var i :| 0 <= i < |items| && items[i] == x;
      assert i < |chunks| ==> x == PutRow(chunks[i]) && chunks[i].SK == ChunkKey(i);
    }
  }

  /** After migration no plan puts a chunk row: chunks are only rewritten or deleted. */
  lemma {:induction false} PlansAreShaped(json: Json, parent: Parent, table: Table, log: seq<Event>, legacy: nat, rows: seq<Row>, event: Event)
    requires json.Lawful() && Represents(json, parent, table, log, legacy) && Lists(rows, table)
    requires PlanWrite(json, parent, rows, event).Ok?
    ensures PlanShape(parent, log, event, PlanWrite(json, parent, rows, event).value.items)
  {
    hide EncodeChunks, Committable, IsTableOf, CanonicalRows, Rearranges, Lists, Rewrites, Drops, Read, Json.Lawful;
    if parent.storageVersion.None? {
      NothingListed(rows);
      MigrationShape(json, parent, log, event);
    } else {
      ListingRearranges(json, parent, table, log, legacy, rows);
      EvictionPlan(json, parent, log, legacy, rows);
      var items := PlanWrite(json, parent, rows, event).value.items;
      var room := EvictionItems(json, parent, rows).value;
      assert items == room + [PutRow(EventRow(parent.id, |log| + 1, event))];
      if |log| >= MAX_ENTRIES {
        if legacy > Oldest(|log|) {
          EvictionShape(json, parent, log, legacy, rows);
        }
        assert room[0] in items;
      }
    }
  }

  /** The sidecar conditions alone, without the condition on the transaction row, stop a stale plan
      exactly while its number is in the window or it has to evict: a plan that evicts nothing would
      go through again once more than a hundred other appends have been committed. */
  lemma {:induction false} StalePlanExact(json: Json, parent: Parent, table: Table, log: seq<Event>, legacy: nat, rows: seq<Row>,
                                          event: Event, more: seq<Event>, later: Table)
    requires json.Lawful() && Represents(json, parent, table, log, legacy) && Lists(rows, table)
    requires PlanWrite(json, parent, rows, event).Ok?
    requires legacy <= |log| && more != [] && Encodable(json, parent.id, log + more, legacy)
    requires IsTableOf(later, CanonicalRows(json, parent.id, log + more, legacy))
    ensures Committable(PlanWrite(json, parent, rows, event).value.items, later)
            <==> |more| > MAX_ENTRIES && !Evicts(parent, log)
  {
    hide EncodeChunks, IsTableOf, CanonicalRows, Lists, Json.Lawful, PlanWrite, Represents;
    PlansAreShaped(json, parent, table, log, legacy, rows, event);
    AppendExtendsLog(json, parent, table, log, legacy, rows, event, 0);
    var items := PlanWrite(json, parent, rows, event).value.items;
    if |more| <= MAX_ENTRIES {
      NumberStillTaken(json, parent.id, later, log, more, legacy);
      assert !Holds(items[|items| - 1], later);
    } else {
      forall n: nat
        ensures (n <= |log| + 1 ==> EventKey(n) !in later) && ChunkKey(n) !in later
      {
        OldKeysGone(json, parent.id, later, log, more, legacy, n);
      }
      forall x | x in items
        ensures Holds(x, later) <==> x.PutRow?
      {
        assert Oldest(|log|) + 1 <= |log| + 1;
      }
    }
  }
}
