// Rows of the bookkeeping audit sidecar, and the legacy chunks that carry a migrated inline
// history (backend/src/bookkeepingAudit.ts).
module AuditChunks {
  import opened Base64
  import opened Decimal
  import opened Sequences
  import opened Wrappers

  const MAX_SAFE_INTEGER: int := 9007199254740991
  const MAX_ITEM_BYTES: nat := 350 * 1024
  const MAX_LEGACY_CHUNK: nat := MAX_ITEM_BYTES - 2048

  const EVENT_PREFIX := "EVENT#"
  const LEGACY_PREFIX := "LEGACY#V1#"

  /** Integrity: the stored history is refused. TooLarge: a row would not fit its item. */
  datatype AuditError = Integrity | TooLarge

  /** An audit event is an opaque JSON object, identified by its JSON text. */
  datatype Event = Event(json: string)

  datatype Entry = Entry(sequence: int, event: Event)

  /** The `recordType` attribute: "bookkeeping-audit-legacy-chunk", "bookkeeping-audit-event" or anything else. */
  datatype RecordType = LegacyChunk | AuditEvent | Unknown

  /** A stored row. `None` stands for an attribute that is absent or not of its JSON type. */
  datatype Row = Row(
    PK: string, SK: string, recordType: RecordType, transactionId: string,
    chunkIndex: Option<int>, chunkCount: Option<int>, payload: Option<string>,
    sequence: Option<int>, event: Option<Event>)

  /** JSON as the store uses it. `stringify` gives UTF-8 bytes; `parse` gives None when the bytes
      are not the JSON text of an array, and one None for each element that is not an object with a
      numeric sequence and an object event. `idBytes` and `eventRowBytes` are the UTF-8 sizes of an
      id inside a JSON string and of a whole event row. */
  datatype Json = Json(
    stringify: seq<Entry> -> seq<byte>,
    parse: seq<byte> -> Option<seq<Option<Entry>>>,
    idBytes: string -> nat,
    eventRowBytes: Row -> nat)
  {
    /** Parsing inverts printing; a text is never empty; dropping the first entry never lengthens it. */
    ghost predicate Lawful() {
      && (forall es {:trigger stringify(es)} :: parse(stringify(es)) == Some(Present(es)))
      && (forall es {:trigger stringify(es)} :: stringify(es) != [])
      && (forall e, es {:trigger stringify([e] + es)} :: |stringify(es)| <= |stringify([e] + es)|)
    }
  }

  function Present(es: seq<Entry>): seq<Option<Entry>> {
    seq(|es|, i requires 0 <= i < |es| => Some(es[i]))
  }

  function Values(items: seq<Option<Entry>>): seq<Entry>
    requires forall i :: 0 <= i < |items| ==> items[i].Some?
  {
    seq(|items|, i requires 0 <= i < |items| => items[i].value)
  }

  predicate IsSafe(n: int) {
    -MAX_SAFE_INTEGER <= n <= MAX_SAFE_INTEGER
  }

  function Partition(id: string): string {
    "BOOKKEEPING_AUDIT#" + id
  }

  function EventKey(sequence: nat): string {
    EVENT_PREFIX + PadStart(Print(sequence), 12)
  }

  function ChunkKey(index: nat): string {
    LEGACY_PREFIX + PadStart(Print(index), 8)
  }

  lemma {:induction false} EventKeyInjective(m: nat, n: nat)
    requires EventKey(m) == EventKey(n)
    ensures m == n
  {
    assert EventKey(m)[6..] == PadStart(Print(m), 12);
    assert EventKey(n)[6..] == PadStart(Print(n), 12);
    PadStartInjective(m, n, 12);
  }

  lemma {:induction false} ChunkKeyInjective(m: nat, n: nat)
    requires ChunkKey(m) == ChunkKey(n)
    ensures m == n
  {
    assert ChunkKey(m)[10..] == PadStart(Print(m), 8);
    assert ChunkKey(n)[10..] == PadStart(Print(n), 8);
    PadStartInjective(m, n, 8);
  }

  lemma {:induction false} KeyKindsDiffer(m: nat, n: nat)
    ensures EventKey(m) != ChunkKey(n)
  {
    assert EventKey(m)[0] == 'E' && ChunkKey(n)[0] == 'L';
  }

  // ---------------------------------------------------------------- encoding

  /** UTF-8 size of the JSON object of a chunk's other attributes, plus that of the word "payload". */
  function Metadata(json: Json, id: string, index: nat, count: nat): nat {
    145 + 2 * json.idBytes(id) + |PadStart(Print(index), 8)| + |Print(index)| + |Print(count)|
  }

  /** Where chunk `index` starts: `index * MAX_LEGACY_CHUNK_BYTES`. */
  function ChunkStart(index: nat): nat {
    index * 356352
  }

  /** `Math.ceil(length / MAX_LEGACY_CHUNK_BYTES)` */
  function ChunkCount(length: nat): nat {
    (length + 356351) / 356352
  }

  lemma {:induction false} ChunkBounds(length: nat, index: nat)
    ensures MAX_LEGACY_CHUNK == 356352
    ensures index < ChunkCount(length) <==> ChunkStart(index) < length
    ensures ChunkStart(ChunkCount(length)) >= length
    ensures ChunkCount(length) <= length
  {
  }

  function Min(a: int, b: int): int {
    if a < b then a else b
  }

  /** `text.slice(index * size, (index + 1) * size)` */
  function Slice(text: string, index: nat): (s: string)
    ensures |s| <= MAX_LEGACY_CHUNK
    ensures index < ChunkCount(|text|) ==> |s| > 0
  {
    text[Min(ChunkStart(index), |text|)..Min(ChunkStart(index + 1), |text|)]
  }

  function ChunkRow(id: string, index: nat, count: nat, payload: string): Row {
    Row(Partition(id), ChunkKey(index), LegacyChunk, id, Some(index), Some(count), Some(payload), None, None)
  }

  function Serialized(json: Json, entries: seq<Entry>): string {
    Base64.Encode(json.stringify(entries))
  }

  predicate SliceFits(json: Json, id: string, text: string, index: nat) {
    |Slice(text, index)| + Metadata(json, id, index, ChunkCount(|text|)) <= MAX_ITEM_BYTES
  }

  /** Every slice fits, and the text is one an engine can hold (ECMAScript strings stay below 2^53). */
  predicate TextFits(json: Json, id: string, text: string) {
    |text| <= MAX_SAFE_INTEGER
    && forall i: nat :: i < ChunkCount(|text|) ==> SliceFits(json, id, text, i)
  }

  function ChunkRows(id: string, text: string): (rows: seq<Row>)
    ensures |rows| == ChunkCount(|text|)
  {
    seq(ChunkCount(|text|), i requires 0 <= i < ChunkCount(|text|) =>
      ChunkRow(id, i, ChunkCount(|text|), Slice(text, i)))
  }

  function EncodeChunks(json: Json, id: string, entries: seq<Entry>): Result<seq<Row>, AuditError> {
    if entries == [] then Ok([])
    else if TextFits(json, id, Serialized(json, entries)) then Ok(ChunkRows(id, Serialized(json, entries)))
    else Err(TooLarge)
  }

  // ---------------------------------------------------------------- decoding

  function Utf8Length(s: string): nat {
    if s == [] then 0
    else Utf8Length(s[..|s| - 1])
         + (var c := s[|s| - 1] as int; if c < 0x80 then 1 else if c < 0x800 then 2 else if c < 0x1_0000 then 3 else 4)
  }

  predicate ChunkValid(json: Json, id: string, row: Row, count: nat) {
    row.PK == Partition(id) && row.transactionId == id && row.recordType == LegacyChunk
    && row.chunkCount == Some(count)
    && row.chunkIndex.Some? && IsSafe(row.chunkIndex.value) && 0 <= row.chunkIndex.value < count
    && row.SK == ChunkKey(row.chunkIndex.value)
    && row.payload.Some?
    && Utf8Length(row.payload.value) + Metadata(json, id, row.chunkIndex.value, count) <= MAX_ITEM_BYTES
  }

  /** The payload table after reading `rows` in order; an empty cell is the empty string. */
  function Fill(json: Json, id: string, rows: seq<Row>, count: nat): (parts: Option<seq<string>>)
    ensures parts.Some? ==> |parts.value| == count
  {
    if rows == [] then Some(seq(count, _ => ""))
    else
      var row := rows[|rows| - 1];
      var before := Fill(json, id, rows[..|rows| - 1], count);
      if before.None? || !ChunkValid(json, id, row, count) || before.value[row.chunkIndex.value] != "" then None
      else Some(before.value[row.chunkIndex.value := row.payload.value])
  }

  function Join(parts: seq<string>): string {
    if parts == [] then "" else Join(parts[..|parts| - 1]) + parts[|parts| - 1]
  }

  predicate EntryValid(item: Option<Entry>) {
    item.Some? && IsSafe(item.value.sequence) && item.value.sequence >= 1
  }

  function DecodeText(json: Json, text: string): Result<seq<Entry>, AuditError> {
    if !Base64.Valid(text) then Err(Integrity)
    else
      var items := json.parse(Base64.Decode(text));
      if items.None? || exists i :: 0 <= i < |items.value| && !EntryValid(items.value[i]) then Err(Integrity)
      else Ok(Values(items.value))
  }

  function DecodeChunks(json: Json, id: string, rows: seq<Row>): Result<seq<Entry>, AuditError> {
    if rows == [] then Ok([])
    else if rows[0].chunkCount != Some(|rows|) || !IsSafe(|rows|) then Err(Integrity)
    else
      var parts := Fill(json, id, rows, |rows|);
      if parts.None? || "" in parts.value then Err(Integrity)
      else DecodeText(json, Join(parts.value))
  }

  /** The decoder as the program runs it: one pass over the rows filling `parts`. */
  method DecodeLegacyAuditChunks(json: Json, id: string, rows: seq<Row>) returns (r: Result<seq<Entry>, AuditError>)
    ensures r == DecodeChunks(json, id, rows)
  {
    if |rows| == 0 { return Ok([]); }
    var first := rows[0];
    if first.chunkCount.None? || !IsSafe(first.chunkCount.value) || first.chunkCount.value < 1
       || first.chunkCount.value != |rows| {
      return Err(Integrity);
    }
    var count := first.chunkCount.value;
    var parts := new string[count](_ => "");
    assert parts[..] == seq(count, _ => "");
    for k := 0 to |rows|
      invariant Fill(json, id, rows[..k], count) == Some(parts[..])
    {
      var row := rows[k];
      FillStep(json, id, rows, count, k);
      if !ChunkValid(json, id, row, count) || parts[row.chunkIndex.value] != "" {
        return Err(Integrity);
      }
      parts[row.chunkIndex.value] := row.payload.value;
    }
    assert rows[..|rows|] == rows;
    for i := 0 to count
      invariant "" !in parts[..i]
    {
      if parts[i] == "" { return Err(Integrity); }
      assert parts[..i + 1] == parts[..i] + [parts[i]];
    }
    assert parts[..count] == parts[..];
    r := DecodeText(json, Join(parts[..]));
  }

  lemma {:induction false} FillStep(json: Json, id: string, rows: seq<Row>, count: nat, k: nat)
    requires k < |rows| && Fill(json, id, rows[..k], count).Some?
    ensures var before, row := Fill(json, id, rows[..k], count).value, rows[k];
            if !ChunkValid(json, id, row, count) || before[row.chunkIndex.value] != "" then
              Fill(json, id, rows, count).None?
            else
              Fill(json, id, rows[..k + 1], count) == Some(before[row.chunkIndex.value := row.payload.value])
  {
    assert rows[..k + 1][..k] == rows[..k];
    if Fill(json, id, rows[..k + 1], count).None? {
      FillStaysNone(json, id, rows, count, k + 1);
    }
  }

  lemma {:induction false} FillStaysNone(json: Json, id: string, rows: seq<Row>, count: nat, k: nat)
    requires k <= |rows| && Fill(json, id, rows[..k], count).None?
    ensures Fill(json, id, rows, count).None?
    decreases |rows|
  {
    if k == |rows| {
      assert rows[..k] == rows;
    } else {
      assert rows[..|rows| - 1][..k] == rows[..k];
      FillStaysNone(json, id, rows[..|rows| - 1], count, k);
    }
  }

  // ---------------------------------------------------------------- round trip

  predicate Ascii(s: string) {
    forall i :: 0 <= i < |s| ==> s[i] as int < 0x80
  }

  lemma {:induction false} AsciiLength(s: string)
    requires Ascii(s)
    ensures Utf8Length(s) == |s|
  {
    if s != [] { AsciiLength(s[..|s| - 1]); }
  }

  lemma {:induction false} EncodingIsAscii(b: seq<byte>)
    ensures Ascii(Base64.Encode(b))
  {
    if |b| >= 3 { EncodingIsAscii(b[3..]); }
  }

  function Slices(text: string, k: nat): seq<string> {
    seq(k, i requires 0 <= i < k => Slice(text, i))
  }

  lemma {:induction false} JoinSlices(text: string, k: nat)
    ensures Join(Slices(text, k)) == text[..Min(ChunkStart(k), |text|)]
  {
    if k > 0 {
      JoinSlices(text, k - 1);
      assert Slices(text, k)[..k - 1] == Slices(text, k - 1);
    }
  }

  lemma {:induction false} JoinAllSlices(text: string)
    ensures Join(Slices(text, ChunkCount(|text|))) == text
  {
    JoinSlices(text, ChunkCount(|text|));
    ChunkBounds(|text|, 0);
    assert text[..|text|] == text;
  }

  function ChunkAt(id: string, text: string, index: nat): Row {
    ChunkRow(id, index, ChunkCount(|text|), Slice(text, index))
  }

  ghost predicate IsChunkOf(id: string, text: string, row: Row) {
    row.chunkIndex.Some? && 0 <= row.chunkIndex.value < ChunkCount(|text|)
    && row == ChunkAt(id, text, row.chunkIndex.value)
  }

  lemma {:induction false} ChunkRowsMembers(id: string, text: string)
    ensures NoDuplicates(ChunkRows(id, text))
    ensures forall r :: r in ChunkRows(id, text) <==> IsChunkOf(id, text, r)
  {
    var rows := ChunkRows(id, text);
    forall r | IsChunkOf(id, text, r)
      ensures r in rows
    {
      assert rows[r.chunkIndex.value] == r;
    }
  }

  lemma {:induction false} ChunkAtValid(json: Json, id: string, text: string, k: nat)
    requires Ascii(text) && TextFits(json, id, text) && k < ChunkCount(|text|)
    ensures ChunkValid(json, id, ChunkAt(id, text, k), ChunkCount(|text|))
  {
    assert SliceFits(json, id, text, k);
    AsciiLength(Slice(text, k));
    ChunkBounds(|text|, k);
  }

  /** Reading any distinct selection of a text's chunks leaves exactly those chunks' cells filled. */
  lemma {:induction false} FillSelection(json: Json, id: string, text: string, rows: seq<Row>)
    requires Ascii(text) && TextFits(json, id, text)
    requires NoDuplicates(rows) && forall r :: r in rows ==> IsChunkOf(id, text, r)
    ensures Fill(json, id, rows, ChunkCount(|text|)).Some?
    ensures forall i: nat :: i < ChunkCount(|text|) ==>
              Fill(json, id, rows, ChunkCount(|text|)).value[i]
              == if ChunkAt(id, text, i) in rows then Slice(text, i) else ""
  {
    var count := ChunkCount(|text|);
    if rows != [] {
      var front, row := rows[..|rows| - 1], rows[|rows| - 1];
      assert rows == front + [row];
      assert row in rows && row !in front;
      FillSelection(json, id, text, front);
      ChunkAtValid(json, id, text, row.chunkIndex.value);
    }
  }

  lemma {:induction false} FillAll(json: Json, id: string, text: string, rows: seq<Row>)
    requires Ascii(text) && TextFits(json, id, text)
    requires Rearranges(rows, ChunkRows(id, text))
    ensures Fill(json, id, rows, ChunkCount(|text|)) == Some(Slices(text, ChunkCount(|text|)))
    ensures "" !in Slices(text, ChunkCount(|text|))
  {
    var count := ChunkCount(|text|);
    ChunkRowsMembers(id, text);
    FillSelection(json, id, text, rows);
    var parts := Fill(json, id, rows, count).value;
    forall i: nat | i < count
      ensures parts[i] == Slice(text, i) != ""
    {
      assert IsChunkOf(id, text, ChunkAt(id, text, i));
    }
    assert parts == Slices(text, count);
  }

  lemma {:induction false} DecodeChunkRows(json: Json, id: string, text: string, rows: seq<Row>)
    requires Ascii(text) && TextFits(json, id, text) && text != []
    requires Rearranges(rows, ChunkRows(id, text))
    ensures DecodeChunks(json, id, rows) == DecodeText(json, text)
  {
    RearrangedLength(rows, ChunkRows(id, text));
    assert rows != [] && rows[0].chunkCount == Some(|rows|) && IsSafe(|rows|) by {
      ChunkBounds(|text|, 0);
      assert rows[0] in rows;
    }
    FillAll(json, id, text, rows);
    JoinAllSlices(text);
  }

  /** Decoding inverts encoding, whatever order the chunk rows arrive in. */
  lemma {:induction false} DecodeEncodeChunks(json: Json, id: string, entries: seq<Entry>, rows: seq<Row>)
    requires json.Lawful()
    requires forall i :: 0 <= i < |entries| ==> 1 <= entries[i].sequence <= MAX_SAFE_INTEGER
    requires EncodeChunks(json, id, entries).Ok?
    requires Rearranges(rows, EncodeChunks(json, id, entries).value)
    ensures DecodeChunks(json, id, rows) == Ok(entries)
  {
    if entries == [] {
      RearrangedLength(rows, []);
    } else {
      EncodeLength(json.stringify(entries));
      EncodingIsAscii(json.stringify(entries));
      DecodeChunkRows(json, id, Serialized(json, entries), rows);
      DecodeSerialized(json, entries);
    }
  }

  lemma {:induction false} DecodeSerialized(json: Json, entries: seq<Entry>)
    requires json.Lawful()
    requires forall i :: 0 <= i < |entries| ==> 1 <= entries[i].sequence <= MAX_SAFE_INTEGER
    ensures DecodeText(json, Serialized(json, entries)) == Ok(entries)
  {
    DecodeEncode(json.stringify(entries));
    assert Values(Present(entries)) == entries;
  }

  /** Chunks of an id whose metadata fits the 2048 bytes set aside for it always fit their items,
      for every payload; otherwise encoding fails exactly when some chunk is over the limit. */
  lemma {:induction false} EncodeFitsWithRoom(json: Json, id: string, entries: seq<Entry>)
    requires |Serialized(json, entries)| <= MAX_SAFE_INTEGER
    requires Metadata(json, id, ChunkCount(|Serialized(json, entries)|), ChunkCount(|Serialized(json, entries)|)) <= 2048
    ensures EncodeChunks(json, id, entries).Ok?
    ensures forall r :: r in EncodeChunks(json, id, entries).value ==>
              r.payload.Some? && r.chunkIndex.Some? && r.chunkIndex.value >= 0 && r.chunkCount.Some? && r.chunkCount.value >= 0
              && Utf8Length(r.payload.value) + Metadata(json, id, r.chunkIndex.value, r.chunkCount.value) <= MAX_ITEM_BYTES
  {
    var text := Serialized(json, entries);
    var count := ChunkCount(|text|);
    EncodingIsAscii(json.stringify(entries));
    forall i: nat | i < count
      ensures SliceFits(json, id, text, i) && Utf8Length(Slice(text, i)) == |Slice(text, i)|
    {
      PrintLengthMonotone(i, count);
      AsciiLength(Slice(text, i));
    }
  }

  /** A history that was once encoded can be encoded again after its oldest entry is dropped,
      and never needs more chunks. */
  lemma {:induction false} EncodeRest(json: Json, id: string, entries: seq<Entry>)
    requires json.Lawful() && entries != []
    requires EncodeChunks(json, id, entries).Ok?
    ensures EncodeChunks(json, id, entries[1..]).Ok?
    ensures |EncodeChunks(json, id, entries[1..]).value| <= |EncodeChunks(json, id, entries).value|
  {
    var text, rest := Serialized(json, entries), Serialized(json, entries[1..]);
    assert entries == [entries[0]] + entries[1..];
    EncodeLength(json.stringify(entries));
    EncodeLength(json.stringify(entries[1..]));
    assert |rest| <= |text|;
    var count := ChunkCount(|rest|);
    assert count <= ChunkCount(|text|);
    PrintLengthMonotone(count, ChunkCount(|text|));
    forall i: nat | i < count
      ensures SliceFits(json, id, rest, i)
    {
      assert SliceFits(json, id, text, i);
      SliceShrinks(rest, text, i);
    }
  }

  lemma {:induction false} SliceShrinks(rest: string, text: string, i: nat)
    requires |rest| <= |text|
    ensures |Slice(rest, i)| <= |Slice(text, i)|
  {
  }
}
