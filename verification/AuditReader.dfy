// Reading a transaction's audit history: the inline list, or the sidecar rows once migrated
// (backend/src/bookkeepingAudit.ts).
module AuditReader {
  import opened Sequences
  import opened Wrappers
  import opened AuditChunks

  const STORAGE_VERSION := 1
  const MAX_ENTRIES := 100

  /** The `audit` attribute: missing, not an array, or an array whose non-object elements are None. */
  datatype Inline = Absent | NotArray | Array(entries: seq<Option<Event>>)

  /** The transaction row. A storage version of None is an absent attribute; an audit sequence of
      None is absent or not a number. */
  datatype Parent = Parent(
    id: string, storageVersion: Option<int>, audit: Inline, auditSequence: Option<int>, updatedAt: int)

  datatype Source = Legacy | Stored

  datatype Sequenced = Sequenced(sequence: int, event: Event, source: Source, rowKey: Option<string>)

  /** The inline history of an unmigrated transaction, numbered from one. */
  function History(parent: Parent): Result<seq<Sequenced>, AuditError> {
    if parent.storageVersion.Some? then Err(Integrity)
    else
      match parent.audit
      case Absent => Ok([])
      case NotArray => Err(Integrity)
      case Array(entries) =>
        if exists i :: 0 <= i < |entries| && entries[i].None? then Err(Integrity)
        else Ok(seq(|entries|, i requires 0 <= i < |entries| => Sequenced(i + 1, entries[i].value, Legacy, None)))
  }

  predicate IsLegacyRow(row: Row) {
    row.recordType == LegacyChunk
  }

  predicate IsOtherRow(row: Row) {
    !IsLegacyRow(row)
  }

  predicate EventRowValid(id: string, row: Row) {
    row.recordType == AuditEvent && EVENT_PREFIX <= row.SK
    && row.sequence.Some? && IsSafe(row.sequence.value) && row.sequence.value >= 1
    && row.SK == EventKey(row.sequence.value)
    && row.transactionId == id && row.event.Some?
  }

  function EventOf(row: Row): Sequenced
    requires row.sequence.Some? && row.event.Some?
  {
    Sequenced(row.sequence.value, row.event.value, Stored, Some(row.SK))
  }

  /** The events of the event rows, in row order; None when a row is foreign, malformed or unknown. */
  function Collect(id: string, rows: seq<Row>): Option<seq<Sequenced>> {
    if rows == [] then Some([])
    else
      var row := rows[|rows| - 1];
      var before := Collect(id, rows[..|rows| - 1]);
      if before.None? || row.PK != Partition(id) then None
      else if IsLegacyRow(row) then before
      else if EventRowValid(id, row) then Some(before.value + [EventOf(row)])
      else None
  }

  function FromEntries(entries: seq<Entry>): seq<Sequenced> {
    seq(|entries|, i requires 0 <= i < |entries| => Sequenced(entries[i].sequence, entries[i].event, Legacy, None))
  }

  /** `events.sort((a, b) => a.sequence - b.sequence)`, which is stable. */
  function Sort(s: seq<Sequenced>): seq<Sequenced> {
    if s == [] then [] else Insert(s[|s| - 1], Sort(s[..|s| - 1]))
  }

  function Insert(x: Sequenced, s: seq<Sequenced>): seq<Sequenced> {
    if s == [] then [x]
    else if s[|s| - 1].sequence <= x.sequence then s + [x]
    else Insert(x, s[..|s| - 1]) + [s[|s| - 1]]
  }

  function FirstSequence(latest: int): int {
    if latest > MAX_ENTRIES then latest - MAX_ENTRIES + 1 else 1
  }

  /** An exact contiguous window ending at `latest` whose newest event has its own row. */
  predicate IsWindow(events: seq<Sequenced>, latest: int) {
    latest >= 1
    && |events| == Min(latest, MAX_ENTRIES)
    && (forall i :: 0 <= i < |events| ==> events[i].sequence == FirstSequence(latest) + i)
    && events[|events| - 1].source == Stored
  }

  function Read(json: Json, parent: Parent, rows: seq<Row>): Result<seq<Sequenced>, AuditError> {
    if parent.storageVersion.Some? && parent.storageVersion.value != STORAGE_VERSION then Err(Integrity)
    else if parent.storageVersion.None? then
      if rows != [] then Err(Integrity) else History(parent)
    else if parent.audit != Absent then Err(Integrity)
    else if parent.auditSequence.None? || !(1 <= parent.auditSequence.value <= MAX_SAFE_INTEGER) then Err(Integrity)
    else
      var legacy := DecodeChunks(json, parent.id, Filter(IsLegacyRow, rows));
      var stored := Collect(parent.id, rows);
      if legacy.Err? || stored.None? then Err(Integrity)
      else
        var events := Sort(FromEntries(legacy.value) + stored.value);
        if IsWindow(events, parent.auditSequence.value) then Ok(events) else Err(Integrity)
  }

  /** The reader as the program runs it: push the legacy entries, then scan the rows, sort, check. */
  method SequenceBookkeepingAuditRows(json: Json, parent: Parent, rows: seq<Row>) returns (r: Result<seq<Sequenced>, AuditError>)
    ensures r == Read(json, parent, rows)
  {
    if parent.storageVersion.Some? && parent.storageVersion.value != STORAGE_VERSION { return Err(Integrity); }
    if parent.storageVersion != Some(STORAGE_VERSION) {
      if |rows| > 0 { return Err(Integrity); }
      return History(parent);
    }
    if parent.audit != Absent { return Err(Integrity); }
    if parent.auditSequence.None? || !IsSafe(parent.auditSequence.value) || parent.auditSequence.value < 0 {
      return Err(Integrity);
    }
    var latest := parent.auditSequence.value;
    if latest < 1 { return Err(Integrity); }
    var decoded := DecodeLegacyAuditChunks(json, parent.id, Filter(IsLegacyRow, rows));
    if decoded.Err? { return Err(Integrity); }
    var pushed := PushEvents(parent.id, decoded.value, rows);
    if pushed.None? { return Err(Integrity); }
    var events := Sort(pushed.value);
    var whole := CheckWindow(events, latest);
    return if whole then Ok(events) else Err(Integrity);
  }

  method PushEvents(id: string, entries: seq<Entry>, rows: seq<Row>) returns (r: Option<seq<Sequenced>>)
    ensures r == if Collect(id, rows).None? then None else Some(FromEntries(entries) + Collect(id, rows).value)
  {
    var events := [];
    for k := 0 to |entries|
      invariant events == FromEntries(entries)[..k]
    {
      events := events + [Sequenced(entries[k].sequence, entries[k].event, Legacy, None)];
    }
    for k := 0 to |rows|
      invariant Collect(id, rows[..k]).Some?
      invariant events == FromEntries(entries) + Collect(id, rows[..k]).value
    {
      var row := rows[k];
      CollectStep(id, rows, k);
      if row.PK != Partition(id) { return None; }
      if row.recordType == LegacyChunk { continue; }
      if !EventRowValid(id, row) { return None; }
      events := events + [EventOf(row)];
    }
    assert rows[..|rows|] == rows;
    return Some(events);
  }

  method CheckWindow(events: seq<Sequenced>, latest: int) returns (whole: bool)
    requires latest >= 1
    ensures whole == IsWindow(events, latest)
  {
    if |events| != Min(latest, MAX_ENTRIES) { return false; }
    for i := 0 to |events|
      invariant forall k :: 0 <= k < i ==> events[k].sequence == FirstSequence(latest) + k
    {
      if events[i].sequence != FirstSequence(latest) + i { return false; }
    }
    return events[|events| - 1].source == Stored;
  }

  lemma {:induction false} CollectStep(id: string, rows: seq<Row>, k: nat)
    requires k < |rows| && Collect(id, rows[..k]).Some?
    ensures var before, row := Collect(id, rows[..k]).value, rows[k];
            if row.PK == Partition(id) && (IsLegacyRow(row) || EventRowValid(id, row)) then
              Collect(id, rows[..k + 1]) == Some(if IsLegacyRow(row) then before else before + [EventOf(row)])
            else
              Collect(id, rows).None?
  {
    assert rows[..k + 1][..k] == rows[..k];
    if Collect(id, rows[..k + 1]).None? {
      CollectStaysNone(id, rows, k + 1);
    }
  }

  lemma {:induction false} CollectStaysNone(id: string, rows: seq<Row>, k: nat)
    requires k <= |rows| && Collect(id, rows[..k]).None?
    ensures Collect(id, rows).None?
    decreases |rows|
  {
    if k == |rows| {
      assert rows[..k] == rows;
    } else {
      assert rows[..|rows| - 1][..k] == rows[..k];
      CollectStaysNone(id, rows[..|rows| - 1], k);
    }
  }

  // ---------------------------------------------------------------- sorting

  ghost predicate DistinctSequences(s: seq<Sequenced>) {
    forall i, j :: 0 <= i < j < |s| ==> s[i].sequence != s[j].sequence
  }

  ghost predicate StrictlyAscending(s: seq<Sequenced>) {
    forall i, j :: 0 <= i < j < |s| ==> s[i].sequence < s[j].sequence
  }

  lemma {:induction false} InsertStrict(x: Sequenced, s: seq<Sequenced>)
    requires StrictlyAscending(s) && forall y :: y in s ==> y.sequence != x.sequence
    ensures StrictlyAscending(Insert(x, s)) && |Insert(x, s)| == |s| + 1
    ensures forall y :: y in Insert(x, s) <==> y == x || y in s
  {
    if s != [] {
      var front, last := s[..|s| - 1], s[|s| - 1];
      assert s == front + [last];
      assert last in s;
      if last.sequence > x.sequence {
        InsertStrict(x, front);
        forall y | y in front
          ensures y.sequence < last.sequence
        {
          var i :| 0 <= i < |front| && front[i] == y;
          assert s[i] == y;
        }
        var r := Insert(x, front);
        forall i | 0 <= i < |r|
          ensures r[i].sequence < last.sequence
        {
          assert r[i] in r;
        }
      }
    }
  }

  lemma {:induction false} SortStrict(s: seq<Sequenced>)
    requires DistinctSequences(s)
    ensures StrictlyAscending(Sort(s)) && |Sort(s)| == |s|
    ensures forall y :: y in Sort(s) <==> y in s
  {
    if s != [] {
      var front, last := s[..|s| - 1], s[|s| - 1];
      assert s == front + [last];
      SortStrict(front);
      InsertStrict(last, Sort(front));
    }
  }

  lemma {:induction false} AscendingLowerBound(s: seq<Sequenced>, first: int, i: nat)
    requires StrictlyAscending(s) && i < |s| && forall y :: y in s ==> y.sequence >= first
    ensures s[i].sequence >= first + i
  {
    assert s[i] in s;
    if i > 0 {
      AscendingLowerBound(s, first, i - 1);
    }
  }

  lemma {:induction false} AscendingUpperBound(s: seq<Sequenced>, last: int, i: nat)
    requires StrictlyAscending(s) && i < |s| && forall y :: y in s ==> y.sequence <= last
    ensures s[i].sequence <= last - (|s| - 1 - i)
    decreases |s| - i
  {
    assert s[i] in s;
    if i < |s| - 1 {
      AscendingUpperBound(s, last, i + 1);
    }
  }

  /** As many distinct entries of a consecutive run as it has members sort into that very run. */
  lemma {:induction false} SortsIntoRun(s: seq<Sequenced>, run: seq<Sequenced>, first: int)
    requires DistinctSequences(s) && |s| == |run| && forall x :: x in s ==> x in run
    requires forall i :: 0 <= i < |run| ==> run[i].sequence == first + i
    ensures Sort(s) == run
  {
    SortStrict(s);
    var t := Sort(s);
    forall i | 0 <= i < |t|
      ensures t[i] == run[i]
    {
      assert t[i] in t;
      AscendingLowerBound(t, first, i);
      AscendingUpperBound(t, first + |run| - 1, i);
    }
  }

  // ---------------------------------------------------------------- the canonical sidecar of a log

  /** Zero-based position of the oldest retained event of a log of `n` events. */
  function Oldest(n: nat): nat {
    if n > MAX_ENTRIES then n - MAX_ENTRIES else 0
  }

  function Max(a: nat, b: nat): nat {
    if a > b then a else b
  }

  /** What a plain bounded log would show: the last hundred events with their positions. `legacy`
      events were in the inline list and live in chunks, the later ones in rows of their own. */
  function Window(log: seq<Event>, legacy: nat): seq<Sequenced> {
    seq(|log| - Oldest(|log|), k requires 0 <= k < |log| - Oldest(|log|) => WindowAt(log, legacy, Oldest(|log|) + k))
  }

  function WindowAt(log: seq<Event>, legacy: nat, i: nat): Sequenced
    requires i < |log|
  {
    if i < legacy then Sequenced(i + 1, log[i], Legacy, None)
    else Sequenced(i + 1, log[i], Stored, Some(EventKey(i + 1)))
  }

  function LegacyEntries(log: seq<Event>, legacy: nat): seq<Entry>
    requires legacy <= |log|
  {
    EntriesFrom(log, Oldest(|log|), legacy)
  }

  function EntriesFrom(log: seq<Event>, from: nat, to: nat): seq<Entry>
    requires to <= |log|
  {
    seq(Max(from, to) - from, k requires 0 <= k < Max(from, to) - from => Entry(from + k + 1, log[from + k]))
  }

  function EventRow(id: string, sequence: nat, event: Event): Row {
    Row(Partition(id), EventKey(sequence), AuditEvent, id, None, None, None, Some(sequence), Some(event))
  }

  function EventRows(id: string, log: seq<Event>, from: nat): seq<Row>
  {
    seq(Max(from, |log|) - from, k requires 0 <= k < Max(from, |log|) - from => EventRow(id, from + k + 1, log[from + k]))
  }

  predicate Encodable(json: Json, id: string, log: seq<Event>, legacy: nat)
    requires legacy <= |log|
  {
    EncodeChunks(json, id, LegacyEntries(log, legacy)).Ok?
  }

  /** The rows a migrated transaction with this history holds: chunks of the retained inline events,
      then one row for each retained later event. */
  function CanonicalRows(json: Json, id: string, log: seq<Event>, legacy: nat): seq<Row>
    requires legacy <= |log| && Encodable(json, id, log, legacy)
  {
    EncodeChunks(json, id, LegacyEntries(log, legacy)).value + EventRows(id, log, Max(Oldest(|log|), legacy))
  }

  ghost predicate Migrated(parent: Parent, log: seq<Event>, legacy: nat) {
    parent.storageVersion == Some(STORAGE_VERSION) && parent.audit == Absent
    && parent.auditSequence == Some(|log|) && legacy < |log| <= MAX_SAFE_INTEGER
  }

  ghost predicate IsEventRowOf(id: string, log: seq<Event>, from: nat, row: Row) {
    row.sequence.Some? && from < row.sequence.value <= |log|
    && row == EventRow(id, row.sequence.value, log[row.sequence.value - 1])
  }

  lemma {:induction false} EventRowsMembers(id: string, log: seq<Event>, from: nat)
    ensures forall r :: r in EventRows(id, log, from) <==> IsEventRowOf(id, log, from, r)
    ensures NoDuplicates(EventRows(id, log, from))
  {
    var rows := EventRows(id, log, from);
    forall k | 0 <= k < |rows|
      ensures rows[k] == EventRow(id, from + k + 1, log[from + k]) && IsEventRowOf(id, log, from, rows[k])
    {
    }
    forall r | IsEventRowOf(id, log, from, r)
      ensures r in rows
    {
      assert rows[r.sequence.value - 1 - from] == r;
    }
    forall i, j | 0 <= i < j < |rows|
      ensures rows[i] != rows[j]
    {
      assert rows[i].sequence == Some(from + i + 1) && rows[j].sequence == Some(from + j + 1);
    }
  }

  /** Rows that are the numbered chunks of one text, in order. */
  ghost predicate AreChunks(id: string, rows: seq<Row>) {
    forall i :: 0 <= i < |rows| ==>
      rows[i].payload.Some? && rows[i] == ChunkRow(id, i, |rows|, rows[i].payload.value)
  }

  /** The chunk part of the canonical rows: only legacy rows of this transaction, no duplicates. */
  lemma {:induction false} EncodedRows(json: Json, id: string, entries: seq<Entry>)
    requires EncodeChunks(json, id, entries).Ok?
    ensures var rows := EncodeChunks(json, id, entries).value;
            NoDuplicates(rows)
            && (forall r :: r in rows ==> IsLegacyRow(r) && r.PK == Partition(id))
            && AreChunks(id, rows)
  {
    if entries != [] {
      ChunkRowsMembers(id, Serialized(json, entries));
    }
  }

  lemma {:induction false} FilterParts(a: seq<Row>, b: seq<Row>)
    requires NoDuplicates(a) && NoDuplicates(b)
    requires (forall r :: r in a ==> IsLegacyRow(r)) && (forall r :: r in b ==> IsOtherRow(r))
    ensures NoDuplicates(a + b) && Filter(IsLegacyRow, a + b) == a && Filter(IsOtherRow, a + b) == b
  {
    forall i | 0 <= i < |a| ensures IsLegacyRow(a[i]) { assert a[i] in a; }
    forall i | 0 <= i < |b| ensures IsOtherRow(b[i]) { assert b[i] in b; }
    FilterConcat(IsLegacyRow, a, b);
    FilterConcat(IsOtherRow, a, b);
    FilterAll(IsLegacyRow, a);
    FilterNone(IsLegacyRow, b);
    FilterNone(IsOtherRow, a);
    FilterAll(IsOtherRow, b);
    assert a + [] == a;
    assert [] + b == b;
  }

  lemma {:induction false} CanonicalSplit(json: Json, id: string, log: seq<Event>, legacy: nat)
    requires legacy <= |log| && Encodable(json, id, log, legacy)
    ensures var canon := CanonicalRows(json, id, log, legacy);
            NoDuplicates(canon)
            && Filter(IsLegacyRow, canon) == EncodeChunks(json, id, LegacyEntries(log, legacy)).value
            && Filter(IsOtherRow, canon) == EventRows(id, log, Max(Oldest(|log|), legacy))
  {
    EncodedRows(json, id, LegacyEntries(log, legacy));
    EventRowsMembers(id, log, Max(Oldest(|log|), legacy));
    FilterParts(EncodeChunks(json, id, LegacyEntries(log, legacy)).value,
                EventRows(id, log, Max(Oldest(|log|), legacy)));
  }

  /** Scanning rows that all belong to a canonical sidecar yields the events of its event rows. */
  lemma {:induction false} CollectCanonical(id: string, log: seq<Event>, from: nat, rows: seq<Row>)
    requires |log| <= MAX_SAFE_INTEGER
    requires forall r :: r in rows ==>
               (IsLegacyRow(r) && r.PK == Partition(id)) || IsEventRowOf(id, log, from, r)
    ensures Collect(id, rows).Some?
    ensures |Collect(id, rows).value| == |Filter(IsOtherRow, rows)|
    ensures forall i :: 0 <= i < |Collect(id, rows).value| ==>
              var r := Filter(IsOtherRow, rows)[i];
              IsEventRowOf(id, log, from, r) && Collect(id, rows).value[i] == EventOf(r)
  {
    if rows != [] {
      var front, row := rows[..|rows| - 1], rows[|rows| - 1];
      assert rows == front + [row];
      assert row in rows;
      CollectCanonical(id, log, from, front);
      if !IsLegacyRow(row) {
        assert row.SK[..6] == EVENT_PREFIX;
      }
    }
  }

  /** For any order the rows are returned in, the reader shows exactly the window of the log. */
  lemma {:induction false} ReadCanonical(json: Json, parent: Parent, log: seq<Event>, legacy: nat, rows: seq<Row>)
    requires json.Lawful() && Migrated(parent, log, legacy) && Encodable(json, parent.id, log, legacy)
    requires Rearranges(rows, CanonicalRows(json, parent.id, log, legacy))
    ensures Read(json, parent, rows) == Ok(Window(log, legacy))
  {
    var id, entries, from := parent.id, LegacyEntries(log, legacy), Max(Oldest(|log|), legacy);
    var canon := CanonicalRows(json, id, log, legacy);
    CanonicalSplit(json, id, log, legacy);
    FilterRearranges(IsLegacyRow, rows, canon);
    FilterRearranges(IsOtherRow, rows, canon);
    DecodeEncodeChunks(json, id, entries, Filter(IsLegacyRow, rows));
    RearrangedLength(Filter(IsOtherRow, rows), EventRows(id, log, from));
    EncodedRows(json, id, entries);
    EventRowsMembers(id, log, from);
    CollectCanonical(id, log, from, rows);
    CollectedWindow(log, legacy, id, Filter(IsOtherRow, rows), Collect(id, rows).value);
  }

  lemma {:induction false} WindowIndex(log: seq<Event>, legacy: nat, k: nat)
    requires k < |Window(log, legacy)|
    ensures Window(log, legacy)[k] == WindowAt(log, legacy, Oldest(|log|) + k)
    ensures Window(log, legacy)[k].sequence == FirstSequence(|log|) + k == Oldest(|log|) + 1 + k
  {
    assert Window(log, legacy)[k] == WindowAt(log, legacy, Oldest(|log|) + k);
  }

  lemma {:induction false} WindowIsWindow(log: seq<Event>, legacy: nat)
    requires legacy < |log|
    ensures IsWindow(Window(log, legacy), |log|)
    ensures forall i :: 0 <= i < |Window(log, legacy)| ==> Window(log, legacy)[i].sequence == Oldest(|log|) + 1 + i
  {
    forall k | 0 <= k < |Window(log, legacy)|
      ensures Window(log, legacy)[k] == WindowAt(log, legacy, Oldest(|log|) + k)
      ensures Window(log, legacy)[k].sequence == FirstSequence(|log|) + k == Oldest(|log|) + 1 + k
    {
      WindowIndex(log, legacy, k);
    }
    assert |Window(log, legacy)| == |log| - Oldest(|log|);
  }

  lemma {:induction false} EntriesInWindow(log: seq<Event>, legacy: nat, i: nat)
    requires legacy < |log| && i < |LegacyEntries(log, legacy)|
    ensures var x := FromEntries(LegacyEntries(log, legacy))[i];
            x.sequence == Oldest(|log|) + 1 + i && x.sequence <= legacy && x in Window(log, legacy)
  {
    var first := Oldest(|log|);
    assert LegacyEntries(log, legacy)[i] == Entry(first + i + 1, log[first + i]);
    WindowIndex(log, legacy, i);
  }

  lemma {:induction false} EventRowInWindow(log: seq<Event>, legacy: nat, id: string, row: Row)
    requires legacy < |log| && IsEventRowOf(id, log, Max(Oldest(|log|), legacy), row)
    ensures EventOf(row).sequence > legacy && EventOf(row) in Window(log, legacy)
  {
    var i := row.sequence.value - 1;
    WindowIndex(log, legacy, i - Oldest(|log|));
  }

  lemma {:induction false} CollectedWindow(log: seq<Event>, legacy: nat, id: string, rows: seq<Row>, stored: seq<Sequenced>)
    requires legacy < |log|
    requires NoDuplicates(rows) && |rows| == |EventRows(id, log, Max(Oldest(|log|), legacy))| == |stored|
    requires forall i :: 0 <= i < |rows| ==>
               IsEventRowOf(id, log, Max(Oldest(|log|), legacy), rows[i]) && stored[i] == EventOf(rows[i])
    ensures Sort(FromEntries(LegacyEntries(log, legacy)) + stored) == Window(log, legacy)
    ensures IsWindow(Window(log, legacy), |log|)
  {
    var window, entries := Window(log, legacy), FromEntries(LegacyEntries(log, legacy));
    WindowIsWindow(log, legacy);
    forall i | 0 <= i < |entries|
      ensures entries[i].sequence == Oldest(|log|) + 1 + i && entries[i].sequence <= legacy && entries[i] in window
    {
      EntriesInWindow(log, legacy, i);
    }
    forall i | 0 <= i < |stored|
      ensures stored[i].sequence > legacy && stored[i] in window
    {
      EventRowInWindow(log, legacy, id, rows[i]);
    }
    forall i, j | 0 <= i < j < |stored|
      ensures stored[i].sequence != stored[j].sequence
    {
      assert rows[i] != rows[j];
    }
    hide Window, EventRows, IsEventRowOf, FromEntries, LegacyEntries;
    SortsIntoRun(entries + stored, window, Oldest(|log|) + 1);
  }
}
