// A run of appends after which a stale plan meets all of its sidecar conditions again.
module AuditWitnesses {
  import opened Sequences
  import opened Wrappers
  import opened AuditChunks
  import opened AuditReader
  import opened AuditPlan
  import opened AuditEviction
  import opened AuditAppend
  import opened AuditIntegrity
  import AuditCodec

  function Times(event: Event, k: nat): (events: seq<Event>)
    ensures |events| == k
  {
    if k == 0 then [] else Times(event, k - 1) + [event]
  }

  /** What is stored can be listed. */
  lemma {:induction false} SomeListing(json: Json, parent: Parent, table: Table, log: seq<Event>, legacy: nat) returns (rows: seq<Row>)
    requires Represents(json, parent, table, log, legacy)
    ensures Lists(rows, table)
  {
    hide EncodeChunks;
    if parent.storageVersion.None? {
      rows := [];
    } else {
      rows := CanonicalRows(json, parent.id, log, legacy);
      CanonicalSplit(json, parent.id, log, legacy);
      hide CanonicalRows;
    }
  }

  /** Rows of every size fit, and so does the inline history. */
  ghost predicate Roomy(json: Json, parent: Parent, log: seq<Event>, event: Event) {
    json.Lawful() && (forall row :: json.eventRowBytes(row) <= MAX_ITEM_BYTES)
    && (parent.storageVersion.None? ==> Encodable(json, parent.id, log + [event], |log|))
  }

  /** Nobody interfering, any number of appends goes through. */
  lemma {:induction false} AppendTimes(json: Json, parent: Parent, table: Table, log: seq<Event>, legacy: nat, event: Event, k: nat)
      returns (after: Parent, later: Table)
    requires Roomy(json, parent, log, event) && Represents(json, parent, table, log, legacy) && |log| + k < MAX_SAFE_INTEGER
    ensures Represents(json, after, later, log + Times(event, k), legacy) && after.id == parent.id
    ensures if k == 0 then after == parent && later == table else after.storageVersion.Some?
  {
    hide EncodeChunks, Committable, IsTableOf, CanonicalRows, Encodable, Lists, Json.Lawful;
    if k == 0 {
      assert log + Times(event, 0) == log;
      after, later := parent, table;
    } else {
      var p, t := AppendTimes(json, parent, table, log, legacy, event, k - 1);
      var longer := log + Times(event, k - 1);
      var rows := SomeListing(json, p, t, longer, legacy);
      AppendExtendsLog(json, p, t, longer, legacy, rows, event, 0);
      assert k == 1 ==> longer == log;
      assert !Refused(json, p, longer, event);
      var plan := PlanWrite(json, p, rows, event).value;
      after, later := Advance(p, plan.sequence, 0), ApplyAll(plan.items, t);
      assert longer + [event] == log + Times(event, k);
    }
  }

  /** A plan made by a migrated transaction with one event: after a hundred and one further appends every condition of
      its sidecar writes holds, so only the condition on the transaction row keeps it out. */
  lemma {:induction false} StalePlanGoesThrough() returns (json: Json, parent: Parent, log: seq<Event>, rows: seq<Row>, event: Event,
                                                           more: seq<Event>, later: Table)
    ensures json.Lawful() && |log| == 1 && |more| == 101
    ensures exists table :: Represents(json, parent, table, log, 0) && Lists(rows, table)
    ensures exists after :: Represents(json, after, later, log + more, 0) && after.id == parent.id
    ensures PlanWrite(json, parent, rows, event).Ok? && Committable(PlanWrite(json, parent, rows, event).value.items, later)
  {
    json := AuditCodec.SomeCodec();
    AuditCodec.SomeCodecIsLawful();
    event := Event("{}");
    var first := Parent("t", None, AuditReader.Absent, None, 0);
    NothingYet(json, first, event);
    hide EncodeChunks, Committable, IsTableOf, CanonicalRows, Encodable, Lists, Json.Lawful;
    var table, after;
    parent, table := AppendTimes(json, first, map[], [], 0, event, 1);
    log := [] + Times(event, 1);
    rows := SomeListing(json, parent, table, log, 0);
    more := Times(event, 101);
    after, later := AppendTimes(json, parent, table, log, 0, event, 101);
    AppendExtendsLog(json, parent, table, log, 0, rows, event, 0);
    assert !Refused(json, parent, log, event);
    StalePlanExact(json, parent, table, log, 0, rows, event, more, later);
  }

  lemma {:induction false} NothingYet(json: Json, parent: Parent, event: Event)
    requires json.Lawful() && (forall row :: json.eventRowBytes(row) == 0)
    requires parent == Parent("t", None, AuditReader.Absent, None, 0)
    ensures Roomy(json, parent, [], event) && Represents(json, parent, map[], [], 0)
  {
    assert LegacyEntries([event], 0) == [];
    assert [] + [event] == [event];
  }
}
