// Planning one audit append as conditional writes, and what committing them does to the stored
// rows (backend/src/bookkeepingAudit.ts; the all-or-nothing commit is DynamoDB's TransactWriteItems).
module AuditPlan {
  import opened Sequences
  import opened Wrappers
  import opened AuditChunks
  import opened AuditReader

  /** The conditional writes a plan is made of, with the attributes their conditions name. */
  datatype Item =
    | PutRow(row: Row)
    | SetChunk(sk: string, payload: Option<string>, chunkCount: Option<int>,
               chunkIndex: Option<int>, expectedCount: Option<int>)
    | DropEvent(sk: string, sequence: int)
    | DropChunk(sk: string, chunkIndex: Option<int>, chunkCount: Option<int>)

  datatype Plan = Plan(sequence: int, items: seq<Item>)

  type Table = map<string, Row>

  // ---------------------------------------------------------------- committing

  function Key(item: Item): string {
    match item
    case PutRow(row) => row.SK
    case SetChunk(sk, _, _, _, _) => sk
    case DropEvent(sk, _) => sk
    case DropChunk(sk, _, _) => sk
  }

  predicate Holds(item: Item, table: Table) {
    match item
    case PutRow(row) => row.SK !in table
    case SetChunk(sk, _, _, index, expected) =>
      sk in table && table[sk].chunkIndex == index && table[sk].chunkCount == expected
    case DropEvent(sk, sequence) => sk in table && table[sk].sequence == Some(sequence)
    case DropChunk(sk, index, count) =>
      sk in table && table[sk].chunkIndex == index && table[sk].chunkCount == count
  }

  function Apply(item: Item, table: Table): Table {
    match item
    case PutRow(row) => table[row.SK := row]
    case SetChunk(sk, payload, count, _, _) =>
      if sk in table then table[sk := table[sk].(payload := payload, chunkCount := count)] else table
    case DropEvent(sk, _) => table - {sk}
    case DropChunk(sk, _, _) => table - {sk}
  }

  function ApplyAll(items: seq<Item>, table: Table): Table {
    if items == [] then table
    else Apply(items[|items| - 1], ApplyAll(items[..|items| - 1], table))
  }

  ghost predicate DistinctKeys(items: seq<Item>) {
    forall i, j :: 0 <= i < j < |items| ==> Key(items[i]) != Key(items[j])
  }

  /** A transaction goes through when every condition holds beforehand and no key is touched twice. */
  ghost predicate Committable(items: seq<Item>, table: Table) {
    DistinctKeys(items) && forall i :: 0 <= i < |items| ==> Holds(items[i], table)
  }

  // ---------------------------------------------------------------- planning

  function NextSequence(parent: Parent): Result<int, AuditError> {
    if parent.storageVersion == Some(STORAGE_VERSION) then
      if parent.auditSequence.None? || !(0 <= parent.auditSequence.value < MAX_SAFE_INTEGER) then Err(Integrity)
      else Ok(parent.auditSequence.value + 1)
    else
      match History(parent)
      case Ok(events) => Ok(|events| + 1)
      case Err(e) => Err(e)
  }

  /** The legacy entries of a history, leaving out the one numbered `skip` when there is one. */
  function LegacyExcept(events: seq<Sequenced>, skip: Option<int>): seq<Entry> {
    if events == [] then []
    else
      var last := events[|events| - 1];
      LegacyExcept(events[..|events| - 1], skip)
      + (if last.source == Legacy && Some(last.sequence) != skip then [Entry(last.sequence, last.event)] else [])
  }

  /** `events.slice(-100)` */
  function LastEntries(events: seq<Sequenced>): seq<Sequenced> {
    events[Oldest(|events|)..]
  }

  function Puts(rows: seq<Row>): seq<Item> {
    seq(|rows|, i requires 0 <= i < |rows| => PutRow(rows[i]))
  }

  /** The row a key-indexed Map of `rows` holds for `sk`. */
  function FindRow(rows: seq<Row>, sk: string): (found: Option<Row>)
    ensures found.Some? ==> found.value in rows && found.value.SK == sk
    ensures found.None? ==> forall r :: r in rows ==> r.SK != sk
  {
    if rows == [] then None
    else if rows[|rows| - 1].SK == sk then Some(rows[|rows| - 1])
    else FindRow(rows[..|rows| - 1], sk)
  }

  /** Rewrites of the chunks that remain; a chunk with no predecessor would be put as a new row. */
  function Rewrites(next: seq<Row>, previous: seq<Row>): seq<Item> {
    seq(|next|, i requires 0 <= i < |next| => Rewrite(next[i], previous))
  }

  function Rewrite(row: Row, previous: seq<Row>): Item {
    match FindRow(previous, row.SK)
    case None => PutRow(row)
    case Some(stored) => SetChunk(row.SK, row.payload, row.chunkCount, row.chunkIndex, stored.chunkCount)
  }

  /** Deletes of the chunks that are no longer needed, in the order their rows were read. */
  function Drops(next: seq<Row>, previous: seq<Row>): seq<Item> {
    if previous == [] then []
    else
      var row := previous[|previous| - 1];
      Drops(next, previous[..|previous| - 1])
      + (if FindRow(next, row.SK).Some? then [] else [DropChunk(row.SK, row.chunkIndex, row.chunkCount)])
  }

  function MigrationItems(json: Json, parent: Parent, event: Event): Result<seq<Item>, AuditError> {
    match History(parent)
    case Err(e) => Err(e)
    case Ok(legacy) =>
      var retained := LastEntries(legacy + [Sequenced(|legacy| + 1, event, Stored, Some(EventKey(|legacy| + 1)))]);
      match EncodeChunks(json, parent.id, LegacyExcept(retained, None))
      case Err(e) => Err(e)
      case Ok(chunks) => Ok(Puts(chunks))
  }

  function EvictionItems(json: Json, parent: Parent, rows: seq<Row>): Result<seq<Item>, AuditError> {
    match Read(json, parent, rows)
    case Err(e) => Err(e)
    case Ok(existing) =>
      if |existing| < MAX_ENTRIES then Ok([])
      else if existing[0].source == Stored then
        if existing[0].rowKey.None? then Err(Integrity)
        else Ok([DropEvent(existing[0].rowKey.value, existing[0].sequence)])
      else
        var remaining := LegacyExcept(existing, Some(existing[0].sequence));
        if |remaining| == |LegacyExcept(existing, None)| then Err(Integrity)
        else
          match EncodeChunks(json, parent.id, remaining)
          case Err(e) => Err(e)
          case Ok(next) =>
            var previous := Filter(IsLegacyRow, rows);
            Ok(Rewrites(next, previous) + Drops(next, previous))
  }

  function PlanWrite(json: Json, parent: Parent, rows: seq<Row>, event: Event): Result<Plan, AuditError> {
    if parent.storageVersion.Some? && parent.storageVersion.value != STORAGE_VERSION then Err(Integrity)
    else
      match NextSequence(parent)
      case Err(e) => Err(e)
      case Ok(sequence) =>
        if sequence < 0 then Err(Integrity)
        else
          var row := EventRow(parent.id, sequence, event);
          if json.eventRowBytes(row) > MAX_ITEM_BYTES then Err(TooLarge)
          else if parent.storageVersion.None? && rows != [] then Err(Integrity)
          else
            match if parent.storageVersion.None? then MigrationItems(json, parent, event)
                  else EvictionItems(json, parent, rows)
            case Err(e) => Err(e)
            case Ok(items) => Ok(Plan(sequence, items + [PutRow(row)]))
  }

  /** The planner as the program runs it, pushing the conditional writes one by one. */
  method PlanBookkeepingAuditWrite(json: Json, parent: Parent, rows: seq<Row>, event: Event) returns (r: Result<Plan, AuditError>)
    ensures r == PlanWrite(json, parent, rows, event)
  {
    if parent.storageVersion.Some? && parent.storageVersion.value != STORAGE_VERSION { return Err(Integrity); }
    var next := NextSequence(parent);
    if next.Err? { return Err(next.error); }
    if next.value < 0 { return Err(Integrity); }
    var eventRow := EventRow(parent.id, next.value, event);
    if json.eventRowBytes(eventRow) > MAX_ITEM_BYTES { return Err(TooLarge); }
    var items: seq<Item> := [];
    if parent.storageVersion != Some(STORAGE_VERSION) {
      if |rows| > 0 { return Err(Integrity); }
      var legacy := History(parent);
      assert legacy.Ok?;  // NextSequence has already read the same history
      var retained := LastEntries(legacy.value + [Sequenced(next.value, event, Stored, Some(eventRow.SK))]);
      var chunks := EncodeChunks(json, parent.id, LegacyExcept(retained, None));
      if chunks.Err? { return Err(chunks.error); }
      for i := 0 to |chunks.value|
        invariant items == Puts(chunks.value)[..i]
      {
        items := items + [PutRow(chunks.value[i])];
      }
      assert Puts(chunks.value)[..|chunks.value|] == Puts(chunks.value);
      assert MigrationItems(json, parent, event) == Ok(items);
    } else {
      var existing := SequenceBookkeepingAuditRows(json, parent, rows);
      if existing.Err? { return Err(existing.error); }
      if |existing.value| >= MAX_ENTRIES {
        var oldest := existing.value[0];
        if oldest.source == Stored {
          if oldest.rowKey.None? { return Err(Integrity); }
          items := [DropEvent(oldest.rowKey.value, oldest.sequence)];
        } else {
          var remaining := LegacyExcept(existing.value, Some(oldest.sequence));
          if |remaining| == |LegacyExcept(existing.value, None)| { return Err(Integrity); }
          var nextRows := EncodeChunks(json, parent.id, remaining);
          if nextRows.Err? { return Err(nextRows.error); }
          items := PushChunkDiff(nextRows.value, Filter(IsLegacyRow, rows));
        }
      }
      assert EvictionItems(json, parent, rows) == Ok(items);
    }
    items := items + [PutRow(eventRow)];
    return Ok(Plan(next.value, items));
  }

  method PushChunkDiff(next: seq<Row>, previous: seq<Row>) returns (items: seq<Item>)
    ensures items == Rewrites(next, previous) + Drops(next, previous)
  {
    items := [];
    for i := 0 to |next|
      invariant items == Rewrites(next, previous)[..i]
    {
      var previousRow := FindRow(previous, next[i].SK);
      if previousRow.None? {
        items := items + [PutRow(next[i])];
      } else {
        items := items + [SetChunk(next[i].SK, next[i].payload, next[i].chunkCount, next[i].chunkIndex, previousRow.value.chunkCount)];
      }
    }
    for i := 0 to |previous|
      invariant items == Rewrites(next, previous) + Drops(next, previous[..i])
    {
      var row := previous[i];
      assert previous[..i + 1][..i] == previous[..i];
      if FindRow(next, row.SK).Some? { continue; }
      items := items + [DropChunk(row.SK, row.chunkIndex, row.chunkCount)];
    }
    assert previous[..|previous|] == previous;
  }

  // ---------------------------------------------------------------- what a commit does, key by key

  /** The stored rows are exactly `rows`, each under its own sort key. */
  ghost predicate IsTableOf(table: Table, rows: seq<Row>) {
    (forall r :: r in rows ==> r.SK in table && table[r.SK] == r)
    && (forall sk :: sk in table ==> table[sk].SK == sk && table[sk] in rows)
  }

  /** The row one write leaves under its key; None when it deletes it. */
  function Left(item: Item, before: Table): Option<Row> {
    match item
    case PutRow(row) => Some(row)
    case SetChunk(sk, payload, count, _, _) =>
      if sk in before then Some(before[sk].(payload := payload, chunkCount := count)) else None
    case DropEvent(_, _) => None
    case DropChunk(_, _, _) => None
  }

  ghost predicate Effect(item: Item, before: Table, after: Table) {
    if Left(item, before).None? then Key(item) !in after
    else Key(item) in after && after[Key(item)] == Left(item, before).value
  }

  ghost predicate Untouched(items: seq<Item>, sk: string) {
    forall x :: x in items ==> Key(x) != sk
  }

  lemma {:induction false} CommitEffects(items: seq<Item>, table: Table)
    requires Committable(items, table)
    ensures forall i :: 0 <= i < |items| ==> Effect(items[i], table, ApplyAll(items, table))
    ensures forall sk :: Untouched(items, sk) ==>
              (sk in ApplyAll(items, table) <==> sk in table)
              && (sk in table ==> ApplyAll(items, table)[sk] == table[sk])
  {
    if items != [] {
      var front, last := items[..|items| - 1], items[|items| - 1];
      assert items == front + [last];
      CommitEffects(front, table);
      var mid, after := ApplyAll(front, table), ApplyAll(items, table);
      LastIsUntouched(items);
      assert Holds(last, table);
      forall i | 0 <= i < |items|
        ensures Effect(items[i], table, after)
      {
        if i < |front| {
          assert Effect(front[i], table, mid);
        }
      }
      forall sk | Untouched(items, sk)
        ensures (sk in after <==> sk in table) && (sk in table ==> after[sk] == table[sk])
      {
        assert last in items;
        assert Untouched(front, sk);
      }
    }
  }

  lemma {:induction false} LastIsUntouched(items: seq<Item>)
    requires DistinctKeys(items) && items != []
    ensures Untouched(items[..|items| - 1], Key(items[|items| - 1]))
  {
    var front, last := items[..|items| - 1], items[|items| - 1];
    forall x | x in front ensures Key(x) != Key(last) {
      var i :| 0 <= i < |front| && front[i] == x;
      assert items[i] == x;
    }
  }

  /** A commit turns the table of `rows` into the table of `target` when every row it leaves is in
      the target, every row it does not touch stays there, and the target has no other rows. */
  lemma {:induction false} CommitReaches(items: seq<Item>, table: Table, rows: seq<Row>, target: seq<Row>)
    requires Committable(items, table) && IsTableOf(table, rows)
    requires forall x :: x in items && Left(x, table).Some? ==>
               Left(x, table).value in target && Left(x, table).value.SK == Key(x)
    requires forall r :: r in rows && Untouched(items, r.SK) ==> r in target
    requires forall r :: r in target ==>
               (r in rows && Untouched(items, r.SK))
               || (exists x :: x in items && Key(x) == r.SK && Left(x, table) == Some(r))
    ensures IsTableOf(ApplyAll(items, table), target)
  {
    CommitEffects(items, table);
    var after := ApplyAll(items, table);
    forall x | x in items
      ensures Effect(x, table, after)
    {
    }
    forall sk | sk in after
      ensures after[sk].SK == sk && after[sk] in target
    {
      if !Untouched(items, sk) {
        var x :| x in items && Key(x) == sk;
        assert Effect(x, table, after);
      }
    }
  }
}
