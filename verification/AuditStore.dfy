// The stored transaction and its sidecar as one undisturbed updateBookkeepingTransaction changes them
// (backend/src/db/bookkeeping.ts).
module AuditStore {
  import opened Sequences
  import opened Wrappers
  import opened AuditChunks
  import opened AuditReader
  import opened AuditPlan
  import opened AuditEviction
  import opened AuditAppend

  /** One transaction row and the rows of its audit partition, changed in place. */
  class AuditTable {
    var parent: Parent
    var rows: Table

    constructor (parent: Parent, rows: Table)
      ensures this.parent == parent && this.rows == rows
    {
      this.parent, this.rows := parent, rows;
    }

    /** A query of the whole partition. */
    method ListAuditRows() returns (listed: seq<Row>)
      requires forall sk :: sk in rows ==> rows[sk].SK == sk
      ensures Lists(listed, rows)
    {
      listed := [];
      var keys := rows.Keys;
      while keys != {}
        invariant keys <= rows.Keys && NoDuplicates(listed)
        invariant forall r :: r in listed ==> r.SK in rows && r.SK !in keys && rows[r.SK] == r
        invariant forall sk :: sk in rows && sk !in keys ==> rows[sk] in listed
      {
        var sk :| sk in keys;
        keys := keys - {sk};
        listed := listed + [rows[sk]];
      }
    }

    /** TransactWriteItems: refuse a key touched twice or a failing condition, else apply every write. */
    method Transact(items: seq<Item>) returns (ok: bool)
      modifies this`rows
      ensures ok <==> Committable(items, old(rows))
      ensures rows == if ok then ApplyAll(items, old(rows)) else old(rows)
    {
      var targets: set<string> := {};
      for i := 0 to |items|
        invariant forall k :: 0 <= k < i ==> Key(items[k]) in targets
        invariant forall sk :: sk in targets ==> exists k :: 0 <= k < i && Key(items[k]) == sk
        invariant forall j, k :: 0 <= j < k < i ==> Key(items[j]) != Key(items[k])
      {
        if Key(items[i]) in targets { return false; }
        targets := targets + {Key(items[i])};
      }
      for i := 0 to |items|
        invariant forall k :: 0 <= k < i ==> Holds(items[k], rows)
      {
        if !Holds(items[i], rows) { return false; }
      }
      for i := 0 to |items|
        invariant rows == ApplyAll(items[..i], old(rows))
      {
        assert items[..i + 1][..i] == items[..i];
        rows := Apply(items[i], rows);
      }
      assert items[..|items|] == items;
      ok := true;
    }

    /** One undisturbed audited update: read, plan, commit. `log` and `legacy` name the history the
        table represents. It fails only when the append is refused, and then changes nothing. */
    method UpdateBookkeepingTransaction(json: Json, event: Event, now: int, ghost log: seq<Event>, ghost legacy: nat)
      returns (r: Result<int, AuditError>)
      requires json.Lawful() && Represents(json, parent, rows, log, legacy)
      modifies this
      ensures r.Err? <==> Refused(json, old(parent), log, event)
      ensures r.Err? ==> parent == old(parent) && rows == old(rows)
      ensures r.Ok? ==> r.value == |log| + 1 && Represents(json, parent, rows, log + [event], legacy)
    {
      RepresentedKeys(json, parent, rows, log, legacy);
      var listed: seq<Row> := [];
      if parent.storageVersion == Some(STORAGE_VERSION) {
        listed := ListAuditRows();
      }
      assert Lists(listed, rows) by { hide EncodeChunks; }
      AppendExtendsLog(json, parent, rows, log, legacy, listed, event, now);
      var plan := PlanBookkeepingAuditWrite(json, parent, listed, event);
      if plan.Err? { return Err(plan.error); }
      var ok := Transact(plan.value.items);
      assert ok;
      parent := Advance(parent, plan.value.sequence, now);
      r := Ok(plan.value.sequence);
    }
  }

  lemma {:induction false} RepresentedKeys(json: Json, parent: Parent, table: Table, log: seq<Event>, legacy: nat)
    requires Represents(json, parent, table, log, legacy)
    ensures forall sk :: sk in table ==> table[sk].SK == sk
    ensures parent.storageVersion == None ==> table == map[]
  {
    hide EncodeChunks;
  }
}
