// What committing one planned append does to a canonical sidecar: the migration, the plain append,
// the eviction of an event row and the eviction of a legacy entry.
module AuditEviction {
  import opened Sequences
  import opened Wrappers
  import opened AuditChunks
  import opened AuditReader
  import opened AuditPlan

  /** A transaction that still holds its history inline and is small enough to be numbered. */
  ghost predicate Unmigrated(parent: Parent, log: seq<Event>) {
    parent.storageVersion == None && |log| < MAX_SAFE_INTEGER
    && (if parent.audit.Absent? then log == []
        else parent.audit.Array? && |parent.audit.entries| == |log|
             && forall i :: 0 <= i < |log| ==> parent.audit.entries[i] == Some(log[i]))
  }

  /** The stored transaction and rows represent `log`, whose first `legacy` events were inline. */
  ghost predicate Represents(json: Json, parent: Parent, table: Table, log: seq<Event>, legacy: nat) {
    || (Unmigrated(parent, log) && legacy == |log| && table == map[])
    || (Migrated(parent, log, legacy) && Encodable(json, parent.id, log, legacy)
        && IsTableOf(table, CanonicalRows(json, parent.id, log, legacy)))
  }

  /** What a query of the partition returns: every stored row once, in any order. */
  ghost predicate Lists(rows: seq<Row>, table: Table) {
    NoDuplicates(rows)
    && (forall r :: r in rows ==> r.SK in table && table[r.SK] == r)
    && (forall sk :: sk in table ==> table[sk] in rows)
  }

  /** The transaction row after a commit. */
  function Advance(parent: Parent, sequence: int, updatedAt: int): Parent {
    parent.(storageVersion := Some(STORAGE_VERSION), audit := Absent, auditSequence := Some(sequence), updatedAt := updatedAt)
  }

  lemma {:induction false} ListingRearranges(json: Json, parent: Parent, table: Table, log: seq<Event>, legacy: nat, rows: seq<Row>)
    requires Migrated(parent, log, legacy) && Encodable(json, parent.id, log, legacy)
    requires IsTableOf(table, CanonicalRows(json, parent.id, log, legacy)) && Lists(rows, table)
    ensures Rearranges(rows, CanonicalRows(json, parent.id, log, legacy))
  {
    CanonicalSplit(json, parent.id, log, legacy);
  }

  // ---------------------------------------------------------------- histories

  lemma {:induction false} HistoryOf(parent: Parent, log: seq<Event>)
    requires Unmigrated(parent, log)
    ensures History(parent) == Ok(WindowFrom(log, |log|, 0, |log|))
  {
    if parent.audit.Array? {
      var entries := parent.audit.entries;
      assert forall i :: 0 <= i < |entries| ==> entries[i].Some?;
      forall i: nat | i < |log|
        ensures WindowFrom(log, |log|, 0, |log|)[i] == WindowAt(log, |log|, i)
      {
      }
      assert History(parent).value == WindowFrom(log, |log|, 0, |log|);
    }
  }

  function WindowFrom(log: seq<Event>, legacy: nat, from: nat, to: nat): seq<Sequenced>
    requires from <= to <= |log|
  {
    seq(to - from, k requires 0 <= k < to - from => WindowAt(log, legacy, from + k))
  }

  /** Dropping the stored events, and the oldest legacy one if asked, leaves consecutive entries. */
  lemma {:induction false} LegacyOfWindow(log: seq<Event>, legacy: nat, from: nat, to: nat, drop: bool)
    requires from <= to <= |log|
    ensures LegacyExcept(WindowFrom(log, legacy, from, to), if drop then Some(from + 1) else None)
            == EntriesFrom(log, if drop then from + 1 else from, Least(legacy, to))
  {
    var events := WindowFrom(log, legacy, from, to);
    if to > from {
      assert events[..to - from - 1] == WindowFrom(log, legacy, from, to - 1);
      assert events[to - from - 1] == WindowAt(log, legacy, to - 1);
      LegacyOfWindow(log, legacy, from, to - 1, drop);
    }
  }

  function Least(a: nat, b: nat): nat {
    if a < b then a else b
  }

  lemma {:induction false} EntriesExtend(log: seq<Event>, event: Event, from: nat, to: nat)
    requires to <= |log|
    ensures EntriesFrom(log + [event], from, to) == EntriesFrom(log, from, to)
  {
  }

  lemma {:induction false} EntriesRest(log: seq<Event>, from: nat, to: nat)
    requires from < to <= |log|
    ensures EntriesFrom(log, from, to) != [] && EntriesFrom(log, from, to)[1..] == EntriesFrom(log, from + 1, to)
  {
  }

  lemma {:induction false} EntriesEmpty(log: seq<Event>, from: nat, to: nat)
    requires to <= from && to <= |log|
    ensures EntriesFrom(log, from, to) == []
  {
  }

  // ---------------------------------------------------------------- chunk diffs

  lemma {:induction false} DropMembers(next: seq<Row>, previous: seq<Row>)
    requires forall i, j :: 0 <= i < j < |previous| ==> previous[i].SK != previous[j].SK
    ensures forall x :: x in Drops(next, previous) <==>
              x.DropChunk? && exists r :: r in previous && FindRow(next, r.SK).None?
                                          && x == DropChunk(r.SK, r.chunkIndex, r.chunkCount)
    ensures DistinctKeys(Drops(next, previous))
  {
    if previous != [] {
      var front, row := previous[..|previous| - 1], previous[|previous| - 1];
      assert previous == front + [row];
      DropMembers(next, front);
      var before := Drops(next, front);
      forall i | 0 <= i < |before|
        ensures Key(before[i]) != row.SK
      {
        assert before[i] in before;
      }
    }
  }

  /** Updates for the chunks that stay. */
  function Rewritten(next: seq<Row>, i: nat, count: nat): Item
    requires i < |next|
  {
    SetChunk(ChunkKey(i), next[i].payload, Some(|next|), Some(i), Some(count))
  }

  /** Deletes for the chunks that go. */
  function Dropped(i: nat, count: nat): Item {
    DropChunk(ChunkKey(i), Some(i), Some(count))
  }

  /** One update per chunk that stays, one delete per chunk that goes, nothing else. */
  ghost predicate IsDiff(chunks: seq<Row>, next: seq<Row>, diff: seq<Item>) {
    DistinctKeys(diff)
    && (forall i :: 0 <= i < |next| ==> Rewritten(next, i, |chunks|) in diff)
    && (forall i :: |next| <= i < |chunks| ==> Dropped(i, |chunks|) in diff)
    && (forall x :: x in diff ==>
          || (exists i :: 0 <= i < |next| && x == Rewritten(next, i, |chunks|))
          || (exists i :: |next| <= i < |chunks| && x == Dropped(i, |chunks|)))
  }

  lemma {:induction false} FoundChunk(id: string, chunks: seq<Row>, previous: seq<Row>, i: nat)
    requires AreChunks(id, chunks) && (forall r :: r in previous <==> r in chunks)
    ensures FindRow(previous, ChunkKey(i)) == if i < |chunks| then Some(chunks[i]) else None
  {
    if i < |chunks| {
      assert chunks[i] in previous && chunks[i].SK == ChunkKey(i);
    }
    var found := FindRow(previous, ChunkKey(i));
    if found.Some? {
      var k :| 0 <= k < |chunks| && chunks[k] == found.value;
      ChunkKeyInjective(i, k);
    }
  }

  /** The diff of a chunk set against a no longer one: one update per chunk that stays, one delete
      per chunk that goes, nothing else, and in particular no put. */
  lemma {:induction false} DiffItems(id: string, chunks: seq<Row>, next: seq<Row>, previous: seq<Row>)
    requires AreChunks(id, chunks) && AreChunks(id, next) && |next| <= |chunks|
    requires Rearranges(previous, chunks)
    ensures IsDiff(chunks, next, Rewrites(next, previous) + Drops(next, previous))
  {
    hide FindRow, Rewrites, Drops;
    RewritesAre(id, chunks, next, previous);
    KeysDiffer(id, chunks, previous);
    DropMembers(next, previous);
    DropsAre(id, chunks, next, previous);
    JoinDiff(chunks, next, Rewrites(next, previous), Drops(next, previous));
  }

  lemma {:induction false} RewritesAre(id: string, chunks: seq<Row>, next: seq<Row>, previous: seq<Row>)
    requires AreChunks(id, chunks) && AreChunks(id, next) && |next| <= |chunks|
    requires Rearranges(previous, chunks)
    ensures |Rewrites(next, previous)| == |next|
    ensures forall i :: 0 <= i < |next| ==> Rewrites(next, previous)[i] == Rewritten(next, i, |chunks|)
  {
    hide FindRow;
    var rewrites := Rewrites(next, previous);
    forall i | 0 <= i < |next|
      ensures rewrites[i] == Rewritten(next, i, |chunks|)
    {
      FoundChunk(id, chunks, previous, i);
    }
  }

  lemma {:induction false} KeysDiffer(id: string, chunks: seq<Row>, previous: seq<Row>)
    requires AreChunks(id, chunks) && Rearranges(previous, chunks)
    ensures forall i, j :: 0 <= i < j < |previous| ==> previous[i].SK != previous[j].SK
  {
    forall i, j | 0 <= i < j < |previous|
      ensures previous[i].SK != previous[j].SK
    {
      assert previous[i] in chunks && previous[j] in chunks;
      var a :| 0 <= a < |chunks| && chunks[a] == previous[i];
      var b :| 0 <= b < |chunks| && chunks[b] == previous[j];
      if ChunkKey(a) == ChunkKey(b) { ChunkKeyInjective(a, b); }
    }
  }

  /** The deletes are for exactly the chunks beyond the new count. */
  lemma {:induction false} DropsAre(id: string, chunks: seq<Row>, next: seq<Row>, previous: seq<Row>)
    requires AreChunks(id, chunks) && AreChunks(id, next) && |next| <= |chunks|
    requires forall r :: r in previous <==> r in chunks
    requires forall x :: x in Drops(next, previous) <==>
               exists r :: r in previous && FindRow(next, r.SK).None? && x == DropChunk(r.SK, r.chunkIndex, r.chunkCount)
    ensures forall x :: x in Drops(next, previous) ==> exists i :: |next| <= i < |chunks| && x == Dropped(i, |chunks|)
    ensures forall i :: |next| <= i < |chunks| ==> Dropped(i, |chunks|) in Drops(next, previous)
  {
    hide FindRow, Drops;
    var drops := Drops(next, previous);
    forall x | x in drops
      ensures exists i :: |next| <= i < |chunks| && x == Dropped(i, |chunks|)
    {
      var r :| r in previous && FindRow(next, r.SK).None? && x == DropChunk(r.SK, r.chunkIndex, r.chunkCount);
      var i :| 0 <= i < |chunks| && chunks[i] == r;
      FoundChunk(id, next, next, i);
      assert x == Dropped(i, |chunks|);
    }
    forall i | |next| <= i < |chunks|
      ensures Dropped(i, |chunks|) in drops
    {
      FoundChunk(id, next, next, i);
      assert chunks[i] in previous;
    }
  }

  lemma {:induction false} JoinDiff(chunks: seq<Row>, next: seq<Row>, rewrites: seq<Item>, drops: seq<Item>)
    requires |rewrites| == |next| <= |chunks| && forall i :: 0 <= i < |next| ==> rewrites[i] == Rewritten(next, i, |chunks|)
    requires forall x :: x in drops ==> exists i :: |next| <= i < |chunks| && x == Dropped(i, |chunks|)
    requires forall i :: |next| <= i < |chunks| ==> Dropped(i, |chunks|) in drops
    requires forall i, j :: 0 <= i < j < |drops| ==> Key(drops[i]) != Key(drops[j])
    ensures IsDiff(chunks, next, rewrites + drops)
  {
    forall i, j | 0 <= i < j < |next|
      ensures Key(rewrites[i]) != Key(rewrites[j])
    {
      if ChunkKey(i) == ChunkKey(j) { ChunkKeyInjective(i, j); }
    }
    forall i, j | 0 <= i < |next| && 0 <= j < |drops|
      ensures Key(rewrites[i]) != Key(drops[j])
    {
      assert drops[j] in drops;
      var k :| |next| <= k < |chunks| && drops[j] == Dropped(k, |chunks|);
      if ChunkKey(i) == ChunkKey(k) { ChunkKeyInjective(i, k); }
    }
    var items := rewrites + drops;
    assert forall i :: 0 <= i < |next| ==> items[i] == rewrites[i];
  }

  // ---------------------------------------------------------------- the four kinds of commit

  /** The rows are the given chunks and the event rows after position `from`. */
  ghost predicate MadeOf(id: string, rows: seq<Row>, chunks: seq<Row>, log: seq<Event>, from: nat) {
    forall r :: r in rows <==> (exists i :: 0 <= i < |chunks| && r == chunks[i]) || IsEventRowOf(id, log, from, r)
  }

  /** The keys of canonical rows: chunk keys below the chunk count, event keys in the window. */
  lemma {:induction false} CanonicalKeys(json: Json, id: string, log: seq<Event>, legacy: nat)
    requires legacy <= |log| && Encodable(json, id, log, legacy)
    ensures var chunks := EncodeChunks(json, id, LegacyEntries(log, legacy)).value;
            var from := Max(Oldest(|log|), legacy);
            AreChunks(id, chunks) && MadeOf(id, CanonicalRows(json, id, log, legacy), chunks, log, from)
  {
    EncodedRows(json, id, LegacyEntries(log, legacy));
    EventRowsMembers(id, log, Max(Oldest(|log|), legacy));
  }

  lemma {:induction false} EventKeysDistinct(id: string, log: seq<Event>, from: nat, row: Row, sequence: nat)
    requires IsEventRowOf(id, log, from, row) && row.SK == EventKey(sequence)
    ensures row.sequence == Some(sequence)
  {
    EventKeyInjective(row.sequence.value, sequence);
  }

  /** The new event's key is not taken by any canonical row. */
  lemma {:induction false} NextKeyIsFree(json: Json, id: string, table: Table, log: seq<Event>, legacy: nat, sequence: nat)
    requires legacy <= |log| && Encodable(json, id, log, legacy)
    requires IsTableOf(table, CanonicalRows(json, id, log, legacy)) && sequence > |log|
    ensures EventKey(sequence) !in table
  {
    if EventKey(sequence) in table {
      var row := table[EventKey(sequence)];
      CanonicalKeys(json, id, log, legacy);
      var chunks := EncodeChunks(json, id, LegacyEntries(log, legacy)).value;
      var from := Max(Oldest(|log|), legacy);
      if IsEventRowOf(id, log, from, row) {
        EventKeysDistinct(id, log, from, row, sequence);
      } else {
        var i :| 0 <= i < |chunks| && row == chunks[i];
        KeyKindsDiffer(sequence, i);
      }
    }
  }

  /** While fewer than a hundred events are kept, an append only adds the new event's row. */
  lemma {:induction false} AppendOnly(json: Json, id: string, table: Table, log: seq<Event>, legacy: nat, event: Event)
    requires legacy <= |log| < MAX_ENTRIES && Encodable(json, id, log, legacy)
    requires IsTableOf(table, CanonicalRows(json, id, log, legacy))
    ensures var items := [PutRow(EventRow(id, |log| + 1, event))];
            Committable(items, table) && Encodable(json, id, log + [event], legacy)
            && IsTableOf(ApplyAll(items, table), CanonicalRows(json, id, log + [event], legacy))
  {
    hide CanonicalRows, EncodeChunks, EventRows, EventKey, EventRow, Committable, ApplyAll, IsTableOf;
    var row := EventRow(id, |log| + 1, event);
    NextKeyIsFree(json, id, table, log, legacy, |log| + 1);
    EntriesExtend(log, event, 0, legacy);
    CanonicalGrows(json, id, log, legacy, event);
    assert row.SK == EventKey(|log| + 1) by { KeyOfEventRow(id, |log| + 1, event); }
    PutNewRow(table, CanonicalRows(json, id, log, legacy), row);
  }

  lemma {:induction false} KeyOfEventRow(id: string, sequence: nat, event: Event)
    ensures EventRow(id, sequence, event).SK == EventKey(sequence)
  {
    hide EventKey;
  }

  lemma {:induction false} CanonicalGrows(json: Json, id: string, log: seq<Event>, legacy: nat, event: Event)
    requires legacy <= |log| < MAX_ENTRIES && Encodable(json, id, log, legacy) && Encodable(json, id, log + [event], legacy)
    ensures CanonicalRows(json, id, log + [event], legacy) == CanonicalRows(json, id, log, legacy) + [EventRow(id, |log| + 1, event)]
  {
    hide EncodeChunks, EventRow;
    EntriesExtend(log, event, 0, legacy);
    assert EventRows(id, log + [event], legacy) == EventRows(id, log, legacy) + [EventRow(id, |log| + 1, event)];
  }

  /** Putting a row under a free key adds it to the table. */
  lemma {:induction false} PutNewRow(table: Table, rows: seq<Row>, row: Row)
    requires IsTableOf(table, rows) && row.SK !in table
    ensures Committable([PutRow(row)], table) && IsTableOf(ApplyAll([PutRow(row)], table), rows + [row])
  {
    assert ApplyAll([PutRow(row)], table) == table[row.SK := row] by { assert [PutRow(row)][..0] == []; }
  }

  /** Once only event rows are kept, an append replaces the oldest row by the newest. */
  lemma {:induction false} EvictEvent(json: Json, id: string, table: Table, log: seq<Event>, legacy: nat, event: Event)
    requires legacy <= Oldest(|log|) && |log| >= MAX_ENTRIES && Encodable(json, id, log, legacy)
    requires IsTableOf(table, CanonicalRows(json, id, log, legacy))
    ensures var first := Oldest(|log|) + 1;
            var items := [DropEvent(EventKey(first), first), PutRow(EventRow(id, |log| + 1, event))];
            Committable(items, table) && Encodable(json, id, log + [event], legacy)
            && IsTableOf(ApplyAll(items, table), CanonicalRows(json, id, log + [event], legacy))
  {
    var from := Oldest(|log|);
    EntriesEmpty(log, from, legacy);
    EntriesEmpty(log + [event], from + 1, legacy);
    NextKeyIsFree(json, id, table, log, legacy, |log| + 1);
    CanonicalKeys(json, id, log, legacy);
    CanonicalKeys(json, id, log + [event], legacy);
    SlideEvents(id, table, log, event, from, CanonicalRows(json, id, log, legacy),
                CanonicalRows(json, id, log + [event], legacy));
  }

  lemma {:induction false} SlideEvents(id: string, table: Table, log: seq<Event>, event: Event, from: nat, rows: seq<Row>, target: seq<Row>)
    requires from < |log| && IsTableOf(table, rows) && EventKey(|log| + 1) !in table
    requires forall r :: r in rows <==> IsEventRowOf(id, log, from, r)
    requires forall r :: r in target <==> IsEventRowOf(id, log + [event], from + 1, r)
    ensures var items := [DropEvent(EventKey(from + 1), from + 1), PutRow(EventRow(id, |log| + 1, event))];
            Committable(items, table) && IsTableOf(ApplyAll(items, table), target)
  {
    hide Committable, ApplyAll, EventKey, IsTableOf;
    var row, gone := EventRow(id, |log| + 1, event), EventRow(id, from + 1, log[from]);
    var items := [DropEvent(EventKey(from + 1), from + 1), PutRow(row)];
    assert IsEventRowOf(id, log, from, gone);
    EventKeyDiffers(from + 1, |log| + 1);
    forall r | r in target
      ensures (r in rows && Untouched(items, r.SK)) || r == row
    {
      SlideKeeps(id, log, event, from, items, r);
    }
    forall r | r in rows && Untouched(items, r.SK)
      ensures r in target
    {
      SlideMoves(id, log, event, from, items, r);
    }
    assert IsEventRowOf(id, log + [event], from + 1, row);
    assert gone in rows;
    SlideCommits(table, rows, gone, row, from + 1);
    hide IsEventRowOf;
    SlideReaches(table, rows, target, row, from + 1);
  }

  lemma {:induction false} SlideCommits(table: Table, rows: seq<Row>, gone: Row, row: Row, sequence: nat)
    requires IsTableOf(table, rows) && gone in rows && gone.SK == EventKey(sequence) && gone.sequence == Some(sequence)
    requires gone.recordType == AuditEvent && row.SK !in table
    ensures Committable([DropEvent(EventKey(sequence), sequence), PutRow(row)], table)
  {
  }

  lemma {:induction false} SlideReaches(table: Table, rows: seq<Row>, target: seq<Row>, row: Row, sequence: nat)
    requires IsTableOf(table, rows) && row in target
    requires var items := [DropEvent(EventKey(sequence), sequence), PutRow(row)];
             Committable(items, table)
             && (forall r :: r in target ==> (r in rows && Untouched(items, r.SK)) || r == row)
             && (forall r :: r in rows && Untouched(items, r.SK) ==> r in target)
    ensures IsTableOf(ApplyAll([DropEvent(EventKey(sequence), sequence), PutRow(row)], table), target)
  {
    hide IsTableOf, Committable, ApplyAll, Untouched;
    var items := [DropEvent(EventKey(sequence), sequence), PutRow(row)];
    assert items[1] in items && Left(items[1], table) == Some(row);
    CommitReaches(items, table, rows, target);
  }

  /** A row of the next window is the new one, or an old one that the plan leaves alone. */
  lemma {:induction false} SlideKeeps(id: string, log: seq<Event>, event: Event, from: nat, items: seq<Item>, r: Row)
    requires from < |log| && IsEventRowOf(id, log + [event], from + 1, r)
    requires items == [DropEvent(EventKey(from + 1), from + 1), PutRow(EventRow(id, |log| + 1, event))]
    ensures (IsEventRowOf(id, log, from, r) && Untouched(items, r.SK)) || r == EventRow(id, |log| + 1, event)
  {
    if r.sequence.value <= |log| {
      EventKeyDiffers(r.sequence.value, from + 1);
      EventKeyDiffers(r.sequence.value, |log| + 1);
    }
  }

  /** An old row that the plan leaves alone is in the next window. */
  lemma {:induction false} SlideMoves(id: string, log: seq<Event>, event: Event, from: nat, items: seq<Item>, r: Row)
    requires from < |log| && IsEventRowOf(id, log, from, r) && Untouched(items, r.SK)
    requires items == [DropEvent(EventKey(from + 1), from + 1), PutRow(EventRow(id, |log| + 1, event))]
    ensures IsEventRowOf(id, log + [event], from + 1, r)
  {
    assert items[0] in items;
  }

  lemma {:induction false} EventKeyDiffers(m: nat, n: nat)
    ensures m != n ==> EventKey(m) != EventKey(n)
  {
    if EventKey(m) == EventKey(n) { EventKeyInjective(m, n); }
  }

  /** While legacy entries are kept, an append at the limit drops the oldest of them: the remaining
      ones are re-encoded over the same keys, and no chunk is ever put. */
  lemma {:induction false} EvictLegacy(json: Json, id: string, table: Table, log: seq<Event>, legacy: nat, event: Event,
                                       previous: seq<Row>, chunks: seq<Row>, next: seq<Row>)
    requires Oldest(|log|) < legacy <= |log| && |log| >= MAX_ENTRIES
    requires EncodeChunks(json, id, LegacyEntries(log, legacy)) == Ok(chunks)
    requires EncodeChunks(json, id, LegacyEntries(log + [event], legacy)) == Ok(next) && |next| <= |chunks|
    requires IsTableOf(table, CanonicalRows(json, id, log, legacy))
    requires Rearranges(previous, chunks)
    ensures var diff := Rewrites(next, previous) + Drops(next, previous);
            var items := diff + [PutRow(EventRow(id, |log| + 1, event))];
            Committable(items, table)
            && IsTableOf(ApplyAll(items, table), CanonicalRows(json, id, log + [event], legacy))
            && forall x :: x in diff ==> x.SetChunk? || x.DropChunk?
  {
    var longer := log + [event];
    assert Max(Oldest(|log|), legacy) == legacy && Max(Oldest(|longer|), legacy) == legacy;
    CanonicalKeys(json, id, log, legacy);
    CanonicalKeys(json, id, longer, legacy);
    var rows, target := CanonicalRows(json, id, log, legacy), CanonicalRows(json, id, longer, legacy);
    assert MadeOf(id, rows, chunks, log, legacy) && MadeOf(id, target, next, longer, legacy);
    NextKeyIsFree(json, id, table, log, legacy, |log| + 1);
    DiffItems(id, chunks, next, previous);
    CommitDiff(id, table, log, legacy, event, chunks, next, Rewrites(next, previous) + Drops(next, previous), rows, target);
  }

  lemma {:induction false} EncodableRest(json: Json, id: string, log: seq<Event>, legacy: nat, event: Event)
    requires json.Lawful()
    requires Oldest(|log|) < legacy <= |log| && |log| >= MAX_ENTRIES && Encodable(json, id, log, legacy)
    ensures Encodable(json, id, log + [event], legacy)
    ensures |EncodeChunks(json, id, LegacyEntries(log + [event], legacy)).value| <= |EncodeChunks(json, id, LegacyEntries(log, legacy)).value|
  {
    EntriesRest(log, Oldest(|log|), legacy);
    EntriesExtend(log, event, Oldest(|log|) + 1, legacy);
    EncodeRest(json, id, LegacyEntries(log, legacy));
  }

  lemma {:induction false} CommitDiff(id: string, table: Table, log: seq<Event>, from: nat, event: Event,
                                      chunks: seq<Row>, next: seq<Row>, diff: seq<Item>, rows: seq<Row>, target: seq<Row>)
    requires from <= |log| && AreChunks(id, chunks) && AreChunks(id, next) && |next| <= |chunks| && IsDiff(chunks, next, diff)
    requires IsTableOf(table, rows) && MadeOf(id, rows, chunks, log, from)
    requires MadeOf(id, target, next, log + [event], from)
    requires EventKey(|log| + 1) !in table
    ensures var items := diff + [PutRow(EventRow(id, |log| + 1, event))];
            Committable(items, table) && IsTableOf(ApplyAll(items, table), target)
    ensures forall x :: x in diff ==> x.SetChunk? || x.DropChunk?
  {
    forall i | 0 <= i < |chunks|
      ensures ChunkKey(i) in table && table[ChunkKey(i)] == chunks[i]
    {
      assert chunks[i] in rows && chunks[i].SK == ChunkKey(i);
    }
    DiffCommittable(id, table, chunks, next, diff, EventRow(id, |log| + 1, event));
    DiffReaches(id, table, log, from, event, chunks, next, diff, rows, target);
  }

  lemma {:induction false} ChunkKeyDiffers(m: nat, n: nat)
    ensures m != n ==> ChunkKey(m) != ChunkKey(n)
  {
    if ChunkKey(m) == ChunkKey(n) { ChunkKeyInjective(m, n); }
  }

  lemma {:induction false} DiffCommittable(id: string, table: Table, chunks: seq<Row>, next: seq<Row>, diff: seq<Item>, row: Row)
    requires AreChunks(id, chunks) && |next| <= |chunks| && IsDiff(chunks, next, diff)
    requires forall i :: 0 <= i < |chunks| ==> ChunkKey(i) in table && table[ChunkKey(i)] == chunks[i]
    requires row.sequence.Some? && row.sequence.value >= 0 && row.SK == EventKey(row.sequence.value) && row.SK !in table
    ensures Committable(diff + [PutRow(row)], table)
    ensures forall x :: x in diff ==> x.SetChunk? || x.DropChunk?
  {
    var items := diff + [PutRow(row)];
    forall i | 0 <= i < |items|
      ensures Holds(items[i], table) && (i < |diff| ==> Key(items[i]) != row.SK)
    {
      if i < |diff| {
        assert items[i] in diff;
        assert Key(items[i]) in table;
      }
    }
  }

  lemma {:induction false} DiffReaches(id: string, table: Table, log: seq<Event>, from: nat, event: Event,
                                       chunks: seq<Row>, next: seq<Row>, diff: seq<Item>, rows: seq<Row>, target: seq<Row>)
    requires from <= |log| && AreChunks(id, chunks) && AreChunks(id, next) && |next| <= |chunks| && IsDiff(chunks, next, diff)
    requires IsTableOf(table, rows) && MadeOf(id, rows, chunks, log, from)
    requires MadeOf(id, target, next, log + [event], from)
    requires forall i :: 0 <= i < |chunks| ==> ChunkKey(i) in table && table[ChunkKey(i)] == chunks[i]
    requires Committable(diff + [PutRow(EventRow(id, |log| + 1, event))], table)
    ensures IsTableOf(ApplyAll(diff + [PutRow(EventRow(id, |log| + 1, event))], table), target)
  {
    var row := EventRow(id, |log| + 1, event);
    var items := diff + [PutRow(row)];
    assert IsEventRowOf(id, log + [event], from, row);
    assert PutRow(row) in items;
    forall x | x in items && Left(x, table).Some?
      ensures Left(x, table).value in target && Left(x, table).value.SK == Key(x)
    {
      if x in diff { DiffLeaves(id, table, chunks, next, diff, x); }
    }
    forall r | r in rows && Untouched(items, r.SK)
      ensures r in target
    {
      if i :| 0 <= i < |chunks| && r == chunks[i] {
        ChunkTouched(chunks, next, diff, row, i);
      } else {
        assert IsEventRowOf(id, log + [event], from, r);
      }
    }
    forall r | r in target
      ensures (r in rows && Untouched(items, r.SK)) || (exists x :: x in items && Key(x) == r.SK && Left(x, table) == Some(r))
    {
      if IsEventRowOf(id, log + [event], from, r) {
        if r != row {
          assert IsEventRowOf(id, log, from, r);
          EventUntouched(chunks, next, diff, row, r.sequence.value);
        }
      } else {
        var i :| 0 <= i < |next| && r == next[i];
        var x := Rewritten(next, i, |chunks|);
        assert x in items && Key(x) == r.SK && Left(x, table) == Some(r);
      }
    }
    CommitReaches(items, table, rows, target);
  }

  lemma {:induction false} DiffLeaves(id: string, table: Table, chunks: seq<Row>, next: seq<Row>, diff: seq<Item>, x: Item)
    requires AreChunks(id, chunks) && AreChunks(id, next) && |next| <= |chunks| && IsDiff(chunks, next, diff)
    requires forall i :: 0 <= i < |chunks| ==> ChunkKey(i) in table && table[ChunkKey(i)] == chunks[i]
    requires x in diff && Left(x, table).Some?
    ensures (exists i :: 0 <= i < |next| && Left(x, table).value == next[i]) && Left(x, table).value.SK == Key(x)
  {
    var i :| 0 <= i < |next| && x == Rewritten(next, i, |chunks|);
    assert Left(x, table).value == next[i];
  }

  lemma {:induction false} ChunkTouched(chunks: seq<Row>, next: seq<Row>, diff: seq<Item>, row: Row, i: nat)
    requires i < |chunks| && |next| <= |chunks| && IsDiff(chunks, next, diff)
    ensures !Untouched(diff + [PutRow(row)], ChunkKey(i))
  {
    var x := if i < |next| then Rewritten(next, i, |chunks|) else Dropped(i, |chunks|);
    assert x in diff + [PutRow(row)] && Key(x) == ChunkKey(i);
  }

  lemma {:induction false} EventUntouched(chunks: seq<Row>, next: seq<Row>, diff: seq<Item>, row: Row, sequence: nat)
    requires |next| <= |chunks| && IsDiff(chunks, next, diff)
    requires row.sequence.Some? && row.sequence.value > sequence && row.SK == EventKey(row.sequence.value)
    ensures Untouched(diff + [PutRow(row)], EventKey(sequence))
  {
    EventKeyDiffers(sequence, row.sequence.value);
    forall x | x in diff
      ensures Key(x) != EventKey(sequence)
    {
      if i :| 0 <= i < |next| && x == Rewritten(next, i, |chunks|) {
        KeyKindsDiffer(sequence, i);
      } else {
        var i :| |next| <= i < |chunks| && x == Dropped(i, |chunks|);
        KeyKindsDiffer(sequence, i);
      }
    }
  }
}
