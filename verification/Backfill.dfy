// Applying a matching plan to the stored links, with a log, and rolling it back
// (backend/scripts/backfill-bookkeeping-evidence.ts, backend/src/db/bookkeeping.ts).
module Backfill {
  import opened Wrappers
  import opened AutoMatch

  /** A link's key is a hash of its document, transaction and coverage; here, the three themselves. */
  datatype LinkKey = LinkKey(documentId: string, transactionId: string, coverageType: string)

  datatype StoredLink = StoredLink(documentId: string, transactionId: string, coverageType: string, createdAt: string)

  datatype DocumentRow = DocumentRow(active: bool, sha256: string, linkRefCount: nat)

  /** The rows that links depend on: the transactions and documents there are, and which transaction, if
      any, has claimed a document or a file content for an allocation. */
  datatype Store = Store(
    transactions: set<string>, documents: map<string, DocumentRow>, documentClaims: map<string, string>,
    contentClaims: map<string, string>, links: map<LinkKey, StoredLink>)

  datatype Outcome = Created(link: StoredLink) | Existing | Locked

  datatype CreatedLink = CreatedLink(key: LinkKey, createdAt: string)

  function KeyOf(documentId: string, transactionId: string): LinkKey {
    LinkKey(documentId, transactionId, "evidence")
  }

  /** Absent, or held by this transaction. */
  predicate ClaimAllows(claims: map<string, string>, id: string, transactionId: string) {
    id !in claims || claims[id] == transactionId
  }

  predicate ContentAllows(s: Store, sha256: string, transactionId: string) {
    sha256 == "" || ClaimAllows(s.contentClaims, sha256, transactionId)
  }

  function Recounted(s: Store, documentId: string, count: nat): map<string, DocumentRow>
    requires documentId in s.documents
  {
    s.documents[documentId := s.documents[documentId].(linkRefCount := count)]
  }

  /** All conditions of the transactional write that creates an evidence link. */
  predicate CanCreate(s: Store, documentId: string, transactionId: string) {
    KeyOf(documentId, transactionId) !in s.links
    && transactionId in s.transactions
    && documentId in s.documents && s.documents[documentId].active
    && ClaimAllows(s.documentClaims, documentId, transactionId)
    && ContentAllows(s, s.documents[documentId].sha256, transactionId)
  }

  function CreateOutcome(s: Store, documentId: string, transactionId: string, now: string): Outcome {
    if documentId !in s.documents || !s.documents[documentId].active then Locked
    else if CanCreate(s, documentId, transactionId) then Created(StoredLink(documentId, transactionId, "evidence", now))
    else if !ClaimAllows(s.documentClaims, documentId, transactionId)
            || !ContentAllows(s, s.documents[documentId].sha256, transactionId) then Locked
    else if KeyOf(documentId, transactionId) in s.links then Existing
    else Locked
  }

  function AfterCreate(s: Store, documentId: string, transactionId: string, now: string): Store {
    if CanCreate(s, documentId, transactionId) then
      s.(links := s.links[KeyOf(documentId, transactionId) := StoredLink(documentId, transactionId, "evidence", now)],
         documents := Recounted(s, documentId, s.documents[documentId].linkRefCount + 1))
    else s
  }

  /** The conditions under which an evidence link can be deleted: it is there, its document is counted, and
      the document is not claimed by the link's own transaction. */
  predicate CanDelete(s: Store, key: LinkKey, link: StoredLink) {
    key in s.links
    && link.documentId in s.documents && s.documents[link.documentId].linkRefCount > 0
    && !(link.documentId in s.documentClaims && s.documentClaims[link.documentId] == link.transactionId)
  }

  function AfterDelete(s: Store, key: LinkKey, link: StoredLink): Store {
    if CanDelete(s, key, link) then
      s.(links := s.links - {key},
         documents := Recounted(s, link.documentId, s.documents[link.documentId].linkRefCount - 1))
    else s
  }

  // ---------------------------------------------------------------- the two runs, as functions

  /** Where an application run stands: the store, the links it has created, and whether it was refused. */
  datatype Application = Application(store: Store, created: seq<CreatedLink>, refused: bool)

  /** The run over a plan; it stops at the first refusal. `clock(i)` is the time of the i-th creation. */
  function Applied(s: Store, plan: seq<Pair>, clock: nat -> string): Application {
    if plan == [] then Application(s, [], false)
    else
      var before := Applied(s, plan[..|plan| - 1], clock);
      var pair, now := plan[|plan| - 1], clock(|plan| - 1);
      if before.refused then before
      else
        match CreateOutcome(before.store, pair.documentId, pair.transactionId, now)
        case Created(link) =>
          Application(AfterCreate(before.store, pair.documentId, pair.transactionId, now),
                      before.created + [CreatedLink(KeyOf(pair.documentId, pair.transactionId), link.createdAt)], false)
        case Existing => before
        case Locked => before.(refused := true)
  }

  datatype Reason = Absent | Changed

  /** Where a rollback stands. */
  datatype Rollback = Rollback(store: Store, deleted: seq<LinkKey>, skipped: seq<(LinkKey, Reason)>, refused: bool)

  predicate SameIdentity(link: StoredLink, logged: CreatedLink) {
    link.createdAt == logged.createdAt && link.transactionId == logged.key.transactionId
    && link.documentId == logged.key.documentId && link.coverageType == "evidence"
  }

  /** What others do to the store while a rollback runs: before it reads the n-th logged link, and between that read
      and the deletion. */
  datatype Others = Others(beforeRead: (nat, Store) -> Store, beforeDelete: (nat, Store) -> Store)

  function Nobody(): Others {
    Others((n: nat, s: Store) => s, (n: nat, s: Store) => s)
  }

  /** One logged link: read, then deleted if it is still the one that was created. */
  function RollbackStep(before: Rollback, logged: CreatedLink, n: nat, others: Others): Rollback {
    var read := others.beforeRead(n, before.store);
    if logged.key !in read.links then before.(store := read, skipped := before.skipped + [(logged.key, Absent)])
    else
      var link := read.links[logged.key];
      if !SameIdentity(link, logged) then before.(store := read, skipped := before.skipped + [(logged.key, Changed)])
      else
        var now := others.beforeDelete(n, read);
        if !CanDelete(now, logged.key, link) then before.(store := now, refused := true)
        else before.(store := AfterDelete(now, logged.key, link), deleted := before.deleted + [logged.key])
  }

  function RolledBackAmid(s: Store, log: seq<CreatedLink>, others: Others): Rollback {
    if log == [] then Rollback(s, [], [], false)
    else
      var n := |log| - 1;
      var before := RolledBackAmid(s, log[..n], others);
      if before.refused then before else RollbackStep(before, log[n], n, others)
  }

  /** The rollback while nobody else writes. */
  function RolledBack(s: Store, log: seq<CreatedLink>): Rollback {
    RolledBackAmid(s, log, Nobody())
  }

  // ---------------------------------------------------------------- the two runs, step by step

  class LinkStore {
    var transactions: set<string>
    var documentClaims: map<string, string>
    var contentClaims: map<string, string>
    var documents: map<string, DocumentRow>
    var links: map<LinkKey, StoredLink>

    constructor (s: Store)
      ensures View() == s
    {
      transactions, documentClaims, contentClaims := s.transactions, s.documentClaims, s.contentClaims;
      documents, links := s.documents, s.links;
    }

    function View(): Store
      reads this
    {
      Store(transactions, documents, documentClaims, contentClaims, links)
    }

    /** One transactional write; a failed condition leaves everything as it was. */
    method CreateDocumentLink(documentId: string, transactionId: string, now: string) returns (outcome: Outcome)
      modifies this
      ensures outcome == CreateOutcome(old(View()), documentId, transactionId, now)
      ensures View() == AfterCreate(old(View()), documentId, transactionId, now)
    {
      if documentId !in documents || !documents[documentId].active { return Locked; }
      var document, key := documents[documentId], KeyOf(documentId, transactionId);
      var claimed := documentId in documentClaims && documentClaims[documentId] != transactionId;
      var contentClaimed := document.sha256 != "" && document.sha256 in contentClaims
                            && contentClaims[document.sha256] != transactionId;
      if key !in links && transactionId in transactions && !claimed && !contentClaimed {
        var link := StoredLink(documentId, transactionId, "evidence", now);
        links := links[key := link];
        documents := documents[documentId := document.(linkRefCount := document.linkRefCount + 1)];
        return Created(link);
      }
      if claimed || contentClaimed { return Locked; }
      if key in links { return Existing; }
      return Locked;
    }

    /** Whatever other writers do in the meantime. */
    method Interfere(others: Store -> Store)
      modifies this
      ensures View() == others(old(View()))
    {
      var s := others(View());
      transactions, documentClaims, contentClaims := s.transactions, s.documentClaims, s.contentClaims;
      documents, links := s.documents, s.links;
    }

    method DeleteDocumentLink(key: LinkKey, link: StoredLink) returns (ok: bool)
      modifies this
      ensures ok <==> CanDelete(old(View()), key, link)
      ensures View() == AfterDelete(old(View()), key, link)
    {
      if link.documentId !in documents { return false; }
      var document := documents[link.documentId];
      if key !in links || document.linkRefCount == 0 { return false; }
      if link.documentId in documentClaims && documentClaims[link.documentId] == link.transactionId { return false; }
      links := links - {key};
      documents := documents[link.documentId := document.(linkRefCount := document.linkRefCount - 1)];
      return true;
    }
  }

  /** The log file: the links recorded as created, once there is one. */
  class LogFile {
    var saved: Option<seq<CreatedLink>>

    constructor ()
      ensures saved == None
    {
      saved := None;
    }
  }

  /** Applies the plan. The process dies after `crash` effects, of which the first write of the log, each
      creation and each further write of the log are one each; no effect is torn. Wherever it dies, the
      store is that of some prefix of the plan, and the log records all it created but at most the last. */
  method ApplyBackfill(store: LinkStore, file: LogFile, plan: seq<Pair>, clock: nat -> string, crash: nat)
      returns (ghost done: nat)
    requires file.saved == None
    modifies store, file
    ensures done <= |plan|
    ensures store.View() == Applied(old(store.View()), plan[..done], clock).store
    ensures var created := Applied(old(store.View()), plan[..done], clock).created;
            (file.saved == None && done == 0 && created == [])
            || file.saved == Some(created)
            || (created != [] && file.saved == Some(created[..|created| - 1]))
    ensures crash > 2 * |plan| ==>
              file.saved == Some(Applied(old(store.View()), plan, clock).created)
              && store.View() == Applied(old(store.View()), plan, clock).store
  {
    ghost var start := store.View();
    done := 0;
    var effects := 0;
    if effects == crash { return; }
    file.saved := Some([]);
    effects := effects + 1;
    var created: seq<CreatedLink> := [];
    for i := 0 to |plan|
      invariant done == i && effects <= 2 * i + 1 && effects <= crash
      invariant Applied(start, plan[..i], clock) == Application(store.View(), created, false)
      invariant file.saved == Some(created)
    {
      assert plan[..i + 1][..i] == plan[..i];
      if effects == crash { return; }
      var pair := plan[i];
      var outcome := store.CreateDocumentLink(pair.documentId, pair.transactionId, clock(i));
      effects := effects + 1;
      done := i + 1;
      if outcome.Locked? {
        RefusedStays(start, plan, clock, i + 1);
        return;
      }
      if outcome.Existing? { continue; }
      created := created + [CreatedLink(KeyOf(pair.documentId, pair.transactionId), outcome.link.createdAt)];
      if effects == crash {
        assert created[..|created| - 1] == Applied(start, plan[..i], clock).created;
        return;
      }
      file.saved := Some(created);
      effects := effects + 1;
    }
    assert plan[..|plan|] == plan;
  }

  lemma {:induction false} RefusedStays(s: Store, plan: seq<Pair>, clock: nat -> string, n: nat)
    requires n <= |plan| && Applied(s, plan[..n], clock).refused
    ensures Applied(s, plan, clock) == Applied(s, plan[..n], clock)
    decreases |plan| - n
  {
    if n < |plan| {
      assert plan[..n + 1][..n] == plan[..n];
      RefusedStays(s, plan, clock, n + 1);
    } else {
      assert plan[..n] == plan;
    }
  }

  /** Deletes what the log records, unless it is gone or is no longer the link that was created when it is read;
      others may write before every read and before every deletion. */
  method RollbackBackfill(store: LinkStore, log: seq<CreatedLink>, others: Others)
      returns (deleted: seq<LinkKey>, skipped: seq<(LinkKey, Reason)>, refused: bool)
    modifies store
    ensures RolledBackAmid(old(store.View()), log, others) == Rollback(store.View(), deleted, skipped, refused)
  {
    ghost var start := store.View();
    deleted, skipped, refused := [], [], false;
    for i := 0 to |log|
      invariant !refused && RolledBackAmid(start, log[..i], others) == Rollback(store.View(), deleted, skipped, refused)
    {
      assert log[..i + 1][..i] == log[..i];
      var logged := log[i];
      store.Interfere(s => others.beforeRead(i, s));
      if logged.key !in store.links {
        skipped := skipped + [(logged.key, Absent)];
        continue;
      }
      var current := store.links[logged.key];
      if current.createdAt != logged.createdAt || current.transactionId != logged.key.transactionId
         || current.documentId != logged.key.documentId || current.coverageType != "evidence"
      {
        skipped := skipped + [(logged.key, Changed)];
        continue;
      }
      store.Interfere(s => others.beforeDelete(i, s));
      var ok := store.DeleteDocumentLink(logged.key, current);
      if !ok {
        refused := true;
        RefusedRollbackStays(start, log, i + 1, others);
        return;
      }
      deleted := deleted + [logged.key];
    }
    assert log[..|log|] == log;
  }

  lemma {:induction false} RefusedRollbackStays(s: Store, log: seq<CreatedLink>, n: nat, others: Others)
    requires n <= |log| && RolledBackAmid(s, log[..n], others).refused
    ensures RolledBackAmid(s, log, others) == RolledBackAmid(s, log[..n], others)
    decreases |log| - n
  {
    if n < |log| {
      assert log[..n + 1][..n] == log[..n];
      RefusedRollbackStays(s, log, n + 1, others);
    } else {
      assert log[..n] == log;
    }
  }
}
