// Any number of writers updating one transaction's audit at once: each reads the transaction row,
// later lists the sidecar and plans, later still commits conditionally (backend/src/db/bookkeeping.ts).
module AuditWriters {
  import opened Sequences
  import opened Wrappers
  import opened AuditChunks
  import opened AuditReader
  import opened AuditPlan
  import opened AuditEviction
  import opened AuditAppend

  datatype Writer =
    | Idle
    | Reading(snapshot: Parent, event: Event)
    | Planned(snapshot: Parent, event: Event, plan: Plan)

  /** The stored transaction and sidecar, the writers at work, and the events committed so far. */
  datatype System = System(parent: Parent, table: Table, writers: map<nat, Writer>, log: seq<Event>)

  /** Begin reads the transaction row; MakePlan lists the sidecar and plans; Commit is one
      transaction at clock time `now`; Touch is any other update of the transaction row. */
  datatype Action =
    | Begin(writer: nat, event: Event)
    | MakePlan(writer: nat, rows: seq<Row>)
    | Commit(writer: nat, now: int)
    | Touch(now: int)

  predicate SameAudit(a: Parent, b: Parent) {
    a.id == b.id && a.storageVersion == b.storageVersion && a.audit == b.audit && a.auditSequence == b.auditSequence
  }

  /** The condition on the transaction row: unchanged timestamp, and unchanged audit sequence or
      still no storage version. */
  predicate ParentCondition(snapshot: Parent, parent: Parent) {
    parent.updatedAt == snapshot.updatedAt
    && (if snapshot.storageVersion == Some(STORAGE_VERSION) then parent.auditSequence == snapshot.auditSequence
        else parent.storageVersion == None)
  }

  function WriterOf(s: System, w: nat): Writer {
    if w in s.writers then s.writers[w] else Idle
  }

  ghost predicate Commits(s: System, w: nat) {
    WriterOf(s, w).Planned?
    && ParentCondition(WriterOf(s, w).snapshot, s.parent)
    && Committable(WriterOf(s, w).plan.items, s.table)
  }

  /** A listing taken while the audit is as the writer saw it lists the table. Once the audit has
      moved on, the rows a writer collects page by page may be anything. */
  ghost predicate Enabled(s: System, a: Action) {
    match a
    case Begin(w, _) => WriterOf(s, w).Idle?
    case MakePlan(w, rows) =>
      WriterOf(s, w).Reading? && (SameAudit(WriterOf(s, w).snapshot, s.parent) ==> Lists(rows, s.table))
    case Commit(w, _) => WriterOf(s, w).Planned?
    case Touch(_) => true
  }

  ghost function Step(json: Json, s: System, a: Action): System {
    match a
    case Begin(w, event) => s.(writers := s.writers[w := Reading(s.parent, event)])
    case MakePlan(w, rows) =>
      if !WriterOf(s, w).Reading? then s
      else
        var writer := s.writers[w];
        var next := match PlanWrite(json, writer.snapshot, rows, writer.event)
          case Ok(plan) => Planned(writer.snapshot, writer.event, plan)
          case Err(_) => Idle;
        s.(writers := s.writers[w := next])
    case Commit(w, now) =>
      if !Commits(s, w) then s.(writers := s.writers[w := Idle])
      else
        var writer := s.writers[w];
        System(Advance(s.parent, writer.plan.sequence, now), ApplyAll(writer.plan.items, s.table),
               s.writers[w := Idle], s.log + [writer.event])
    case Touch(now) => s.(parent := s.parent.(updatedAt := now))
  }

  // ---------------------------------------------------------------- the invariant

  ghost predicate HasSnapshot(s: System, w: nat) {
    !WriterOf(s, w).Idle?
  }

  /** A snapshot is of this transaction, from now or earlier. */
  ghost predicate Older(snapshot: Parent, s: System) {
    snapshot.id == s.parent.id
    && (if snapshot.storageVersion.None? then
          s.parent.storageVersion.None? ==> SameAudit(snapshot, s.parent)
        else
          snapshot.storageVersion == Some(STORAGE_VERSION) && s.parent.storageVersion == Some(STORAGE_VERSION)
          && snapshot.audit == Absent && s.parent.audit == Absent
          && snapshot.auditSequence.Some? && s.parent.auditSequence.Some?
          && snapshot.auditSequence.value <= s.parent.auditSequence.value)
  }

  ghost predicate Inv(json: Json, s: System, legacy: nat) {
    && Represents(json, s.parent, s.table, s.log, legacy)
    && (forall w :: HasSnapshot(s, w) ==> Older(WriterOf(s, w).snapshot, s))
    && (forall w :: WriterOf(s, w).Planned? && SameAudit(WriterOf(s, w).snapshot, s.parent) ==>
          AppendGoesThrough(json, s.parent, s.table, s.log, legacy, WriterOf(s, w).event, WriterOf(s, w).plan))
  }

  ghost predicate Initial(json: Json, s: System) {
    Unmigrated(s.parent, s.log) && s.table == map[] && s.writers == map[]
  }

  /** The facts about the transaction row that a representation implies. */
  lemma {:induction false} ParentOf(json: Json, s: System, legacy: nat)
    requires Represents(json, s.parent, s.table, s.log, legacy)
    ensures legacy <= |s.log|
    ensures if s.parent.storageVersion.None? then Unmigrated(s.parent, s.log) && legacy == |s.log| && s.table == map[]
            else Migrated(s.parent, s.log, legacy)
  {
    hide EncodeChunks;
  }

  /** A commit whose conditions hold was planned from the audit as it still is. */
  lemma {:induction false} CommitSeesSameAudit(json: Json, s: System, legacy: nat, w: nat)
    requires Inv(json, s, legacy) && Commits(s, w)
    ensures SameAudit(WriterOf(s, w).snapshot, s.parent)
  {
    hide EncodeChunks, Committable, AppendGoesThrough;
    ParentOf(json, s, legacy);
    assert Older(WriterOf(s, w).snapshot, s);
  }

  lemma {:induction false} AdvanceRepresents(json: Json, parent: Parent, table: Table, log: seq<Event>, legacy: nat, event: Event, plan: Plan, now: int)
    requires Represents(json, parent, table, log, legacy)
    requires AppendGoesThrough(json, parent, table, log, legacy, event, plan)
    ensures Represents(json, Advance(parent, plan.sequence, now), ApplyAll(plan.items, table), log + [event], legacy)
  {
    hide EncodeChunks, Committable, IsTableOf, CanonicalRows;
  }

  /** Planning does not look at the timestamp. */
  lemma {:induction false} PlanIgnoresClock(json: Json, a: Parent, b: Parent, rows: seq<Row>, event: Event)
    requires SameAudit(a, b)
    ensures PlanWrite(json, a, rows, event) == PlanWrite(json, b, rows, event)
  {
    hide EncodeChunks;
    assert History(a) == History(b);
    assert Read(json, a, rows) == Read(json, b, rows);
    assert MigrationItems(json, a, event) == MigrationItems(json, b, event);
    assert EvictionItems(json, a, rows) == EvictionItems(json, b, rows);
  }

  lemma {:induction false} PlanIsGood(json: Json, parent: Parent, table: Table, log: seq<Event>, legacy: nat, rows: seq<Row>, event: Event)
    requires json.Lawful() && Represents(json, parent, table, log, legacy) && Lists(rows, table)
    ensures PlanWrite(json, parent, rows, event).Ok? ==>
              AppendGoesThrough(json, parent, table, log, legacy, event, PlanWrite(json, parent, rows, event).value)
  {
    hide PlanWrite, EncodeChunks, Committable, IsTableOf, CanonicalRows, Encodable, Lists;
    if parent.storageVersion.None? {
      NothingListed(rows);
      AppendUnmigrated(json, parent, log, event);
    } else {
      AppendMigrated(json, parent, table, log, legacy, rows, event);
    }
  }

  /** Changing one writer keeps the invariant when the writer's new state respects it. */
  lemma {:induction false} SetWriter(json: Json, s: System, legacy: nat, w: nat, next: Writer)
    requires Inv(json, s, legacy)
    requires !next.Idle? ==> Older(next.snapshot, s)
    requires next.Planned? && SameAudit(next.snapshot, s.parent) ==>
               AppendGoesThrough(json, s.parent, s.table, s.log, legacy, next.event, next.plan)
    ensures Inv(json, s.(writers := s.writers[w := next]), legacy)
  {
    hide EncodeChunks, Represents, AppendGoesThrough;
    var t := s.(writers := s.writers[w := next]);
    assert forall v :: v != w ==> WriterOf(t, v) == WriterOf(s, v);
    assert WriterOf(t, w) == next;
  }

  lemma {:induction false} TouchKeeps(json: Json, s: System, legacy: nat, now: int)
    requires Inv(json, s, legacy)
    ensures Inv(json, s.(parent := s.parent.(updatedAt := now)), legacy)
  {
    hide EncodeChunks, Committable, IsTableOf;
    var t := s.(parent := s.parent.(updatedAt := now));
    assert forall w :: WriterOf(t, w) == WriterOf(s, w);
    assert Represents(json, t.parent, t.table, t.log, legacy);
    assert forall w :: HasSnapshot(t, w) ==> HasSnapshot(s, w) && Older(WriterOf(s, w).snapshot, s);
    forall w | WriterOf(t, w).Planned? && SameAudit(WriterOf(t, w).snapshot, t.parent)
      ensures AppendGoesThrough(json, t.parent, t.table, t.log, legacy, WriterOf(t, w).event, WriterOf(t, w).plan)
    {
      assert SameAudit(WriterOf(s, w).snapshot, s.parent);
    }
  }

  /** After a commit every older snapshot is of an audit that has moved on. */
  ghost predicate Behind(snapshot: Parent, parent: Parent) {
    parent.storageVersion == Some(STORAGE_VERSION) && parent.auditSequence.Some?
    && (snapshot.storageVersion.None? || (snapshot.auditSequence.Some? && snapshot.auditSequence.value < parent.auditSequence.value))
  }

  lemma {:induction false} CommitKeeps(json: Json, s: System, legacy: nat, w: nat, now: int)
    requires Inv(json, s, legacy) && Commits(s, w)
    ensures Inv(json, Step(json, s, Commit(w, now)), legacy)
    ensures forall v :: v != w && HasSnapshot(s, v) ==> Behind(WriterOf(s, v).snapshot, Step(json, s, Commit(w, now)).parent)
  {
    hide EncodeChunks, Committable, IsTableOf, CanonicalRows;
    CommitSeesSameAudit(json, s, legacy, w);
    ParentOf(json, s, legacy);
    var writer := s.writers[w];
    var t := Step(json, s, Commit(w, now));
    AdvanceRepresents(json, s.parent, s.table, s.log, legacy, writer.event, writer.plan, now);
    assert t.parent == Advance(s.parent, |s.log| + 1, now);
    assert WriterOf(t, w).Idle?;
    forall v | HasSnapshot(t, v)
      ensures Older(WriterOf(t, v).snapshot, t) && !SameAudit(WriterOf(t, v).snapshot, t.parent)
      ensures Behind(WriterOf(s, v).snapshot, t.parent)
    {
      assert v != w && WriterOf(t, v) == WriterOf(s, v) && HasSnapshot(s, v);
      assert Older(WriterOf(s, v).snapshot, s);
    }
    forall v | v != w && HasSnapshot(s, v)
      ensures Behind(WriterOf(s, v).snapshot, t.parent)
    {
      assert WriterOf(t, v) == WriterOf(s, v) && HasSnapshot(t, v);
    }
  }

  lemma {:induction false} StepKeeps(json: Json, s: System, legacy: nat, a: Action)
    requires json.Lawful() && Inv(json, s, legacy) && Enabled(s, a)
    ensures Inv(json, Step(json, s, a), legacy)
  {
    hide EncodeChunks, Committable, IsTableOf, CanonicalRows, PlanWrite, Lists, AppendGoesThrough, Json.Lawful;
    match a
    case Begin(w, event) =>
      ParentOf(json, s, legacy);
      SetWriter(json, s, legacy, w, Reading(s.parent, event));
    case MakePlan(w, rows) =>
      var writer := s.writers[w];
      if SameAudit(writer.snapshot, s.parent) {
        PlanIgnoresClock(json, writer.snapshot, s.parent, rows, writer.event);
        PlanIsGood(json, s.parent, s.table, s.log, legacy, rows, writer.event);
      }
      match PlanWrite(json, writer.snapshot, rows, writer.event) {
        case Ok(plan) => SetWriter(json, s, legacy, w, Planned(writer.snapshot, writer.event, plan));
        case Err(_) => SetWriter(json, s, legacy, w, Idle);
      }
    case Commit(w, now) =>
      if Commits(s, w) { CommitKeeps(json, s, legacy, w, now); } else { SetWriter(json, s, legacy, w, Idle); }
    case Touch(now) =>
      TouchKeeps(json, s, legacy, now);
  }

  // ---------------------------------------------------------------- whole runs

  ghost predicate Run(json: Json, states: seq<System>, actions: seq<Action>) {
    |states| == |actions| + 1
    && forall i :: 0 <= i < |actions| ==> Enabled(states[i], actions[i]) && states[i + 1] == Step(json, states[i], actions[i])
  }

  /** The events of the successful commits among the first `n` actions, in commit order. */
  ghost function Committed(states: seq<System>, actions: seq<Action>, n: nat): seq<Event>
    requires n <= |actions| && |states| == |actions| + 1
  {
    if n == 0 then []
    else
      Committed(states, actions, n - 1)
      + (if actions[n - 1].Commit? && Commits(states[n - 1], actions[n - 1].writer)
         then [WriterOf(states[n - 1], actions[n - 1].writer).event] else [])
  }

  lemma {:induction false} RunKeeps(json: Json, states: seq<System>, actions: seq<Action>, n: nat)
    requires json.Lawful() && Run(json, states, actions) && n <= |actions| && Initial(json, states[0])
    ensures Inv(json, states[n], |states[0].log|)
    ensures states[n].log == states[0].log + Committed(states, actions, n)
  {
    hide EncodeChunks, Committable, IsTableOf, CanonicalRows, PlanWrite, Lists, AppendGoesThrough;
    if n > 0 {
      RunKeeps(json, states, actions, n - 1);
      StepKeeps(json, states[n - 1], |states[0].log|, actions[n - 1]);
    }
  }

  /** The sidecar refines a plain bounded log. From any valid inline history, after any interleaving
      of writers, the history read back from any listing is the last hundred events (all of them
      while nothing has committed) of the old history followed by the committed events, each exactly
      once and in commit order, with their own sequence numbers and the newest in a row of its own. */
  lemma {:induction false} RunRefinesLog(json: Json, states: seq<System>, actions: seq<Action>, n: nat, rows: seq<Row>)
    requires json.Lawful() && Run(json, states, actions) && n <= |actions| && Initial(json, states[0])
    requires Lists(rows, states[n].table)
    ensures var log := states[0].log + Committed(states, actions, n);
            Read(json, states[n].parent, rows)
            == Ok(if Committed(states, actions, n) == [] then WindowFrom(log, |log|, 0, |log|)
                  else Window(log, |states[0].log|))
    ensures Committed(states, actions, n) != [] ==>
              states[n].parent.auditSequence == Some(|states[0].log| + |Committed(states, actions, n)|)
              && IsWindow(Window(states[n].log, |states[0].log|), |states[n].log|)
  {
    hide EncodeChunks, Committable, IsTableOf, CanonicalRows, PlanWrite, Lists, AppendGoesThrough, Encodable, Read;
    RunKeeps(json, states, actions, n);
    ParentOf(json, states[n], |states[0].log|);
    ReadShowsWindow(json, states[n].parent, states[n].table, states[n].log, |states[0].log|, rows);
    if states[n].parent.storageVersion.Some? {
      WindowIsWindow(states[n].log, |states[0].log|);
    }
  }

  /** At any point of any run a writer's plan goes through exactly while the transaction row still has the
      timestamp and the audit the writer read; so of writers sharing a snapshot the first to try wins. */
  lemma {:induction false} CommitsExactly(json: Json, states: seq<System>, actions: seq<Action>, n: nat, w: nat)
    requires json.Lawful() && Run(json, states, actions) && n <= |actions| && Initial(json, states[0])
    requires WriterOf(states[n], w).Planned?
    ensures var snapshot, parent := WriterOf(states[n], w).snapshot, states[n].parent;
            Commits(states[n], w) <==> parent.updatedAt == snapshot.updatedAt && SameAudit(snapshot, parent)
  {
    hide EncodeChunks, Committable, IsTableOf, CanonicalRows, PlanWrite, Lists, Represents;
    var legacy := |states[0].log|;
    RunKeeps(json, states, actions, n);
    var s := states[n];
    assert HasSnapshot(s, w);
    if Commits(s, w) { CommitSeesSameAudit(json, s, legacy, w); }
  }

  lemma {:induction false} BehindStays(json: Json, s: System, legacy: nat, a: Action, snapshot: Parent)
    requires json.Lawful() && Inv(json, s, legacy) && Enabled(s, a) && Behind(snapshot, s.parent)
    ensures Behind(snapshot, Step(json, s, a).parent)
  {
    hide EncodeChunks, Committable, IsTableOf, CanonicalRows, PlanWrite, Lists;
    ParentOf(json, s, legacy);
    if a.Commit? && Commits(s, a.writer) {
      CommitSeesSameAudit(json, s, legacy, a.writer);
    }
  }

  /** Of the writers sharing a snapshot at most one commits: once anyone has committed, no plan made
      from an earlier read of the transaction row ever goes through, however late it is tried. */
  lemma {:induction false} LosersNeverCommit(json: Json, states: seq<System>, actions: seq<Action>, i: nat, j: nat, v: nat)
    requires json.Lawful() && Run(json, states, actions) && i < j <= |actions| && Initial(json, states[0])
    requires actions[i].Commit? && Commits(states[i], actions[i].writer)
    requires v != actions[i].writer && HasSnapshot(states[i], v)
    requires forall k :: i < k <= j ==> HasSnapshot(states[k], v) && WriterOf(states[k], v).snapshot == WriterOf(states[i], v).snapshot
    ensures Behind(WriterOf(states[i], v).snapshot, states[j].parent)
    ensures !Commits(states[j], v)
    decreases j
  {
    hide EncodeChunks, Committable, IsTableOf, CanonicalRows, PlanWrite, Lists, AppendGoesThrough, Represents;
    var legacy := |states[0].log|;
    if j == i + 1 {
      RunKeeps(json, states, actions, i);
      CommitKeeps(json, states[i], legacy, actions[i].writer, actions[i].now);
    } else {
      LosersNeverCommit(json, states, actions, i, j - 1, v);
      RunKeeps(json, states, actions, j - 1);
      BehindStays(json, states[j - 1], legacy, actions[j - 1], WriterOf(states[i], v).snapshot);
    }
    RunKeeps(json, states, actions, j);
    if Commits(states[j], v) {
      CommitSeesSameAudit(json, states[j], legacy, v);
    }
  }
}
