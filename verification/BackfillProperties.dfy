// Rolling back a logged application restores the store, exactly when; and what a rollback may delete.
module BackfillProperties {
  import opened Sequences
  import opened Wrappers
  import opened AutoMatch
  import opened AutoMatchProperties
  import opened Backfill

  // ---------------------------------------------------------------- what an application has done

  /** The logged links are evidence links with distinct new keys and counted documents. */
  ghost predicate Fresh(s: Store, created: seq<CreatedLink>) {
    (forall i, j :: 0 <= i < j < |created| ==> created[i].key != created[j].key)
    && forall i :: 0 <= i < |created| ==>
         created[i].key !in s.links && created[i].key.coverageType == "evidence" && created[i].key.documentId in s.documents
  }

  function LinkOf(c: CreatedLink): StoredLink {
    StoredLink(c.key.documentId, c.key.transactionId, "evidence", c.createdAt)
  }

  /** The store with one more link, counted at its document. */
  function WithLink(s: Store, c: CreatedLink): Store
    requires c.key.documentId in s.documents
  {
    s.(links := s.links[c.key := LinkOf(c)],
       documents := Recounted(s, c.key.documentId, s.documents[c.key.documentId].linkRefCount + 1))
  }

  /** The store with some created links in it, each counted at its document. */
  function Grown(s: Store, created: seq<CreatedLink>): (g: Store)
    requires Fresh(s, created)
    ensures g.documents.Keys == s.documents.Keys && g.documentClaims == s.documentClaims
  {
    if created == [] then s else WithLink(Grown(s, created[..|created| - 1]), created[|created| - 1])
  }

  function Keys(created: seq<CreatedLink>): set<LinkKey> {
    set i | 0 <= i < |created| :: created[i].key
  }

  lemma {:induction false} GrownKeys(s: Store, created: seq<CreatedLink>)
    requires Fresh(s, created)
    ensures Grown(s, created).links.Keys == s.links.Keys + Keys(created)
  {
    hide Keys;
    if created == [] {
      NoKeys();
    } else {
      var front, last := created[..|created| - 1], created[|created| - 1];
      GrownKeys(s, front);
      KeysGrow(front, last);
      assert front + [last] == created;
    }
  }

  lemma {:induction false} NoKeys()
    ensures Keys([]) == {}
  {
  }

  lemma {:induction false} GrownValue(s: Store, created: seq<CreatedLink>, i: nat)
    requires Fresh(s, created) && i < |created|
    ensures created[i].key in Grown(s, created).links && Grown(s, created).links[created[i].key] == LinkOf(created[i])
  {
    if i < |created| - 1 {
      GrownValue(s, created[..|created| - 1], i);
      assert created[i].key != created[|created| - 1].key;
    }
  }

  lemma {:induction false} GrownLinks(s: Store, created: seq<CreatedLink>)
    requires Fresh(s, created)
    ensures Grown(s, created).links.Keys == s.links.Keys + Keys(created)
    ensures forall i :: 0 <= i < |created| ==>
              created[i].key in Grown(s, created).links && Grown(s, created).links[created[i].key] == LinkOf(created[i])
  {
    hide Grown, Keys, Fresh;
    GrownKeys(s, created);
    forall i | 0 <= i < |created|
      ensures created[i].key in Grown(s, created).links && Grown(s, created).links[created[i].key] == LinkOf(created[i])
    {
      GrownValue(s, created, i);
    }
  }

  lemma {:induction false} KeysGrow(created: seq<CreatedLink>, last: CreatedLink)
    ensures Keys(created + [last]) == Keys(created) + {last.key}
  {
    forall k | k in Keys(created) + {last.key} ensures k in Keys(created + [last]) {
      if k in Keys(created) {
        var i :| 0 <= i < |created| && created[i].key == k;
        assert (created + [last])[i].key == k;
      } else {
        assert (created + [last])[|created|].key == k;
      }
    }
  }

  lemma {:induction false} GrowsByOne(s: Store, created: seq<CreatedLink>, logged: CreatedLink)
    requires Fresh(s, created) && logged.key !in Grown(s, created).links
    requires logged.key.coverageType == "evidence" && logged.key.documentId in s.documents
    ensures Fresh(s, created + [logged])
    ensures Grown(s, created + [logged]) == WithLink(Grown(s, created), logged)
  {
    GrownLinks(s, created);
    hide Grown;
    FreshByOne(s, created, logged);
    assert (created + [logged])[..|created + [logged]| - 1] == created;
    GrownUnfolds(s, created + [logged]);
  }

  lemma {:induction false} GrownUnfolds(s: Store, created: seq<CreatedLink>)
    requires Fresh(s, created) && created != []
    ensures Grown(s, created) == WithLink(Grown(s, created[..|created| - 1]), created[|created| - 1])
  {
    hide WithLink;
  }

  lemma {:induction false} FreshByOne(s: Store, created: seq<CreatedLink>, logged: CreatedLink)
    requires Fresh(s, created) && logged.key !in s.links
    requires forall i :: 0 <= i < |created| ==> created[i].key != logged.key
    requires logged.key.coverageType == "evidence" && logged.key.documentId in s.documents
    ensures Fresh(s, created + [logged])
  {
  }

  /** An application creates exactly what it logs: the new store is the old one with the logged links
      added and counted, and nothing else changed. */
  lemma {:induction false} ApplicationGrows(s: Store, plan: seq<Pair>, clock: nat -> string)
    ensures Fresh(s, Applied(s, plan, clock).created)
    ensures Applied(s, plan, clock).store == Grown(s, Applied(s, plan, clock).created)
  {
    if plan != [] {
      var front, pair, now := plan[..|plan| - 1], plan[|plan| - 1], clock(|plan| - 1);
      ApplicationGrows(s, front, clock);
      var before := Applied(s, front, clock);
      hide Grown, Fresh, CanCreate;
      if !before.refused && CreateOutcome(before.store, pair.documentId, pair.transactionId, now).Created? {
        var logged := CreatedLink(KeyOf(pair.documentId, pair.transactionId), now);
        assert Applied(s, plan, clock).created == before.created + [logged];
        CreateAddsLink(before.store, pair.documentId, pair.transactionId, now);
        GrowsByOne(s, before.created, logged);
      }
    }
  }

  lemma {:induction false} CreateAddsLink(s: Store, documentId: string, transactionId: string, now: string)
    requires CanCreate(s, documentId, transactionId)
    ensures var logged := CreatedLink(KeyOf(documentId, transactionId), now);
            logged.key !in s.links && documentId in s.documents && AfterCreate(s, documentId, transactionId, now) == WithLink(s, logged)
  {
  }

  predicate Planned(plan: seq<Pair>, key: LinkKey) {
    exists p :: p in plan && key == KeyOf(p.documentId, p.transactionId)
  }

  /** Every logged link was planned. */
  lemma {:induction false} OnlyPlannedIsCreated(s: Store, plan: seq<Pair>, clock: nat -> string)
    ensures forall c :: c in Applied(s, plan, clock).created ==> Planned(plan, c.key)
  {
    if plan != [] {
      var front, last := plan[..|plan| - 1], plan[|plan| - 1];
      OnlyPlannedIsCreated(s, front, clock);
      assert last in plan && forall p :: p in front ==> p in plan;
      assert Planned(plan, KeyOf(last.documentId, last.transactionId));
      forall c | c in Applied(s, front, clock).created ensures Planned(plan, c.key) {
        var p :| p in front && c.key == KeyOf(p.documentId, p.transactionId);
        assert p in plan;
      }
      hide Planned, CanCreate, AfterCreate;
    }
  }

  // ---------------------------------------------------------------- rolling back

  /** The link's document is claimed for an allocation of the link's own transaction. */
  predicate Claimed(s: Store, c: CreatedLink) {
    c.key.documentId in s.documentClaims && s.documentClaims[c.key.documentId] == c.key.transactionId
  }

  predicate NoneClaimed(s: Store, created: seq<CreatedLink>) {
    forall i :: 0 <= i < |created| ==> !Claimed(s, created[i])
  }

  /** Taking the first created link out again leaves the store grown by the others. */
  lemma {:induction false} DeleteFirst(s: Store, created: seq<CreatedLink>)
    requires Fresh(s, created) && created != []
    ensures Fresh(s, created[1..])
    ensures Grown(s, created).documents[created[0].key.documentId].linkRefCount > 0
    ensures created[0].key in Grown(s, created).links && Grown(s, created).links[created[0].key] == LinkOf(created[0])
    ensures CanDelete(Grown(s, created), created[0].key, LinkOf(created[0])) <==> !Claimed(s, created[0])
    ensures !Claimed(s, created[0]) ==>
              AfterDelete(Grown(s, created), created[0].key, LinkOf(created[0])) == Grown(s, created[1..])
  {
    if |created| == 1 {
      GrownValue(s, created, 0);
      DeleteOnly(s, created);
    } else {
      LastIsNew(s, created);
      DeleteFirst(s, created[..|created| - 1]);
      hide Fresh, Grown, WithLink, CanDelete, AfterDelete;
      DeleteBeforeLast(s, created, created[..|created| - 1], created[|created| - 1]);
    }
  }

  lemma {:induction false} DeleteBeforeLast(s: Store, created: seq<CreatedLink>, front: seq<CreatedLink>, last: CreatedLink)
    requires Fresh(s, created) && |created| > 1 && front == created[..|created| - 1] && last == created[|created| - 1]
    requires Fresh(s, front) && Fresh(s, front[1..]) && last.key !in Grown(s, front[1..]).links
    requires last.key.coverageType == "evidence" && last.key.documentId in s.documents && front[0].key != last.key
    requires front[0].key.documentId in s.documents && Grown(s, front).documents[front[0].key.documentId].linkRefCount > 0
    requires front[0].key in Grown(s, front).links
    requires CanDelete(Grown(s, front), front[0].key, LinkOf(front[0])) <==> !Claimed(s, front[0])
    requires !Claimed(s, front[0]) ==> AfterDelete(Grown(s, front), front[0].key, LinkOf(front[0])) == Grown(s, front[1..])
    ensures Fresh(s, created[1..])
    ensures created[0].key.documentId in s.documents && Grown(s, created).documents[created[0].key.documentId].linkRefCount > 0
    ensures created[0].key in Grown(s, created).links && Grown(s, created).links[created[0].key] == LinkOf(created[0])
    ensures CanDelete(Grown(s, created), created[0].key, LinkOf(created[0])) <==> !Claimed(s, created[0])
    ensures !Claimed(s, created[0]) ==>
              AfterDelete(Grown(s, created), created[0].key, LinkOf(created[0])) == Grown(s, created[1..])
  {
    hide Fresh, Grown, WithLink, CanDelete, AfterDelete;
    assert front[0] == created[0];
    GrownValue(s, created, 0);
    GrownUnfolds(s, created);
    GrowsByOne(s, front[1..], last);
    assert created[1..] == front[1..] + [last];
    DeleteCommutes(Grown(s, front), created[0], last);
  }

  lemma {:induction false} DeleteOnly(s: Store, created: seq<CreatedLink>)
    requires Fresh(s, created) && |created| == 1
    ensures Fresh(s, created[1..]) && Grown(s, created) == WithLink(s, created[0]) && Grown(s, created[1..]) == s
    ensures Grown(s, created).documents[created[0].key.documentId].linkRefCount > 0
    ensures CanDelete(Grown(s, created), created[0].key, LinkOf(created[0])) <==> !Claimed(s, created[0])
    ensures !Claimed(s, created[0]) ==> AfterDelete(Grown(s, created), created[0].key, LinkOf(created[0])) == s
  {
    hide WithLink, CanDelete, AfterDelete;
    assert created[..0] == [] && created[1..] == [];
    assert Grown(s, created[..0]) == s;
    DeleteUndoesAdd(s, created[0]);
  }

  lemma {:induction false} LastIsNew(s: Store, created: seq<CreatedLink>)
    requires Fresh(s, created) && |created| > 1
    ensures var front, last := created[..|created| - 1], created[|created| - 1];
            Fresh(s, front) && Fresh(s, front[1..]) && last.key !in Grown(s, front[1..]).links
            && last.key.coverageType == "evidence" && last.key.documentId in s.documents && front[0].key != last.key
            && front[0].key.documentId in s.documents
  {
    var front, last := created[..|created| - 1], created[|created| - 1];
    GrownLinks(s, front[1..]);
    forall i | 0 <= i < |front[1..]| ensures front[1..][i].key != last.key {
      assert front[1..][i] == created[i + 1];
    }
  }

  lemma {:induction false} DeleteUndoesAdd(s: Store, c: CreatedLink)
    requires c.key !in s.links && c.key.documentId in s.documents
    ensures var g := WithLink(s, c);
            c.key.documentId in g.documents && g.documents[c.key.documentId].linkRefCount > 0
            && (CanDelete(g, c.key, LinkOf(c)) <==> !Claimed(s, c))
            && (!Claimed(s, c) ==> AfterDelete(g, c.key, LinkOf(c)) == s)
  {
    var g := WithLink(s, c);
    assert g.links - {c.key} == s.links;
    assert Recounted(g, c.key.documentId, s.documents[c.key.documentId].linkRefCount) == s.documents;
  }

  /** Deleting a link and adding another commute. */
  lemma {:induction false} DeleteCommutes(g: Store, first: CreatedLink, last: CreatedLink)
    requires first.key in g.links && first.key != last.key
    requires first.key.documentId in g.documents && last.key.documentId in g.documents
    requires g.documents[first.key.documentId].linkRefCount > 0
    ensures CanDelete(WithLink(g, last), first.key, LinkOf(first)) <==> CanDelete(g, first.key, LinkOf(first))
    ensures WithLink(g, last).documents[first.key.documentId].linkRefCount > 0
    ensures CanDelete(g, first.key, LinkOf(first)) ==>
              last.key.documentId in AfterDelete(g, first.key, LinkOf(first)).documents
              && AfterDelete(WithLink(g, last), first.key, LinkOf(first)) == WithLink(AfterDelete(g, first.key, LinkOf(first)), last)
  {
    if CanDelete(g, first.key, LinkOf(first)) {
      var left := AfterDelete(WithLink(g, last), first.key, LinkOf(first));
      var right := WithLink(AfterDelete(g, first.key, LinkOf(first)), last);
      assert left.links == right.links;
      assert left.documents == right.documents;
    }
  }

  /** Rolling back the first n of the created links, when none of them is claimed, leaves the rest. */
  lemma {:induction false} RollbackShrinks(s: Store, created: seq<CreatedLink>, n: nat)
    requires Fresh(s, created) && n <= |created| && NoneClaimed(s, created[..n])
    ensures Fresh(s, created[n..])
    ensures RolledBack(Grown(s, created), created[..n]).store == Grown(s, created[n..])
    ensures !RolledBack(Grown(s, created), created[..n]).refused && RolledBack(Grown(s, created), created[..n]).skipped == []
  {
    if n == 0 {
      assert created[0..] == created;
    } else {
      NoneClaimedBefore(s, created, n);
      RollbackShrinks(s, created, n - 1);
      var rest := created[n - 1..];
      assert rest[0] == created[n - 1] && rest[1..] == created[n..];
      DeleteFirst(s, rest);
      hide Grown, Fresh, NoneClaimed, RolledBack;
      RollbackNext(Grown(s, created), created, n);
    }
  }

  /** One more logged link that is still the one created and may be deleted. */
  lemma {:induction false} RollbackNext(s: Store, log: seq<CreatedLink>, n: nat)
    requires 0 < n <= |log| && !RolledBack(s, log[..n - 1]).refused
    requires var before := RolledBack(s, log[..n - 1]).store;
             log[n - 1].key in before.links && before.links[log[n - 1].key] == LinkOf(log[n - 1])
             && CanDelete(before, log[n - 1].key, LinkOf(log[n - 1]))
    ensures RolledBack(s, log[..n]).store == AfterDelete(RolledBack(s, log[..n - 1]).store, log[n - 1].key, LinkOf(log[n - 1]))
    ensures !RolledBack(s, log[..n]).refused && RolledBack(s, log[..n]).skipped == RolledBack(s, log[..n - 1]).skipped
  {
    hide CanDelete, AfterDelete;
    assert log[..n][..n - 1] == log[..n - 1] && log[..n][n - 1] == log[n - 1];
  }

  lemma {:induction false} NoneClaimedBefore(s: Store, created: seq<CreatedLink>, n: nat)
    requires 0 < n <= |created| && NoneClaimed(s, created[..n])
    ensures NoneClaimed(s, created[..n - 1]) && !Claimed(s, created[n - 1])
  {
    assert forall i :: 0 <= i < n - 1 ==> created[..n - 1][i] == created[..n][i];
    assert created[..n][n - 1] == created[n - 1];
  }

  /** A claimed link stops the rollback, and stays. */
  lemma {:induction false} ClaimedStaysBehind(s: Store, created: seq<CreatedLink>, n: nat)
    requires Fresh(s, created) && n < |created| && NoneClaimed(s, created[..n]) && Claimed(s, created[n])
    ensures Fresh(s, created[n..]) && RolledBack(Grown(s, created), created).refused
    ensures RolledBack(Grown(s, created), created).store == Grown(s, created[n..])
  {
    RollbackShrinks(s, created, n);
    var rest := created[n..];
    assert rest[0] == created[n];
    DeleteFirst(s, rest);
    assert created[..n + 1][..n] == created[..n] && created[..n + 1][n] == created[n];
    RefusedRollbackStays(Grown(s, created), created, n + 1, Nobody());
  }

  /** Applying a plan, whether it runs to its end or is refused on the way, and rolling back its log with no
      other writer in between restores the store, links and counts alike, exactly when no created link's
      document is claimed for an allocation of the same transaction. */
  lemma {:induction false} RollbackRestores(s: Store, plan: seq<Pair>, clock: nat -> string)
    ensures var a := Applied(s, plan, clock);
            RolledBack(a.store, a.created).store == s <==> NoneClaimed(s, a.created)
  {
    var a := Applied(s, plan, clock);
    ApplicationGrows(s, plan, clock);
    hide Applied, RolledBack, Grown, Fresh;
    if NoneClaimed(s, a.created) {
      assert a.created[..|a.created|] == a.created;
      RollbackShrinks(s, a.created, |a.created|);
      GrownByNothing(s, a.created[|a.created|..]);
    } else {
      var n := FirstClaimed(s, a.created);
      ClaimedStaysBehind(s, a.created, n);
      assert Grown(s, a.created[n..]) != s by { GrownIsBigger(s, a.created[n..]); }
    }
  }

  /** A transaction that has claimed a document for its own split, and the link the backfill creates between the
      two: the rollback stops there and leaves the link. */
  lemma {:induction false} ClaimedLinkIsNotRolledBack(pair: Pair, row: DocumentRow, clock: nat -> string)
    requires row.active && row.sha256 == ""
    ensures var s := Store({pair.transactionId}, map[pair.documentId := row], map[pair.documentId := pair.transactionId], map[], map[]);
            var a := Applied(s, [pair], clock);
            |a.created| == 1 && !a.refused && !NoneClaimed(s, a.created) && RolledBack(a.store, a.created).refused
            && KeyOf(pair.documentId, pair.transactionId) in RolledBack(a.store, a.created).store.links
  {
    var s := Store({pair.transactionId}, map[pair.documentId := row], map[pair.documentId := pair.transactionId], map[], map[]);
    assert [pair][..0] == [];
    var a := Applied(s, [pair], clock);
    assert Applied(s, [], clock) == Application(s, [], false);
    assert a.created == [CreatedLink(KeyOf(pair.documentId, pair.transactionId), clock(0))];
    assert a.created[..0] == [];
    assert RolledBack(a.store, []) == Rollback(a.store, [], [], false);
    assert Claimed(s, a.created[0]);
  }

  lemma {:induction false} GrownByNothing(s: Store, none: seq<CreatedLink>)
    requires none == []
    ensures Fresh(s, none) && Grown(s, none) == s
  {
  }

  lemma {:induction false} GrownIsBigger(s: Store, created: seq<CreatedLink>)
    requires Fresh(s, created) && created != []
    ensures Grown(s, created) != s
  {
    GrownLinks(s, created);
    assert created[0].key in Grown(s, created).links;
  }

  lemma {:induction false} FirstClaimed(s: Store, created: seq<CreatedLink>) returns (n: nat)
    requires !NoneClaimed(s, created)
    ensures n < |created| && Claimed(s, created[n]) && NoneClaimed(s, created[..n])
  {
    n := 0;
    while !Claimed(s, created[n])
      invariant n < |created| && forall i :: 0 <= i < n ==> !Claimed(s, created[i])
      invariant exists i :: n <= i < |created| && Claimed(s, created[i])
      decreases |created| - n
    {
      n := n + 1;
    }
  }

  /** The process dies at any point; whatever log it leaves is then rolled back. The store is the original
      one, but for at most one link: the one created just before the crash. */
  lemma {:induction false} CrashLeavesAtMostOneLink(s: Store, plan: seq<Pair>, clock: nat -> string, saved: seq<CreatedLink>)
    requires var created := Applied(s, plan, clock).created;
             saved == created || (created != [] && saved == created[..|created| - 1])
    requires NoneClaimed(s, saved)
    ensures var created := Applied(s, plan, clock).created;
            Fresh(s, created[|saved|..]) && |created[|saved|..]| <= 1
            && RolledBack(Applied(s, plan, clock).store, saved).store == Grown(s, created[|saved|..])
  {
    ApplicationGrows(s, plan, clock);
    var created := Applied(s, plan, clock).created;
    assert created[..|saved|] == saved;
    RollbackShrinks(s, created, |saved|);
  }

  /** Whatever other writers did before it started, a rollback that runs alone deletes no link but ones that are in the
      log and still have the logged identity and creation time, and changes none. */
  lemma {:induction false} RollbackDeletesOnlyItsOwn(s: Store, log: seq<CreatedLink>, k: LinkKey)
    ensures var r := RolledBack(s, log);
            (k in r.store.links ==> k in s.links && r.store.links[k] == s.links[k])
            && (k in s.links && k !in r.store.links ==>
                  exists i :: 0 <= i < |log| && log[i].key == k && SameIdentity(s.links[k], log[i]))
  {
    if log != [] {
      var front := log[..|log| - 1];
      RollbackDeletesOnlyItsOwn(s, front, k);
      RollbackDeletesOnlyItsOwn(s, front, log[|log| - 1].key);
      var before, logged := RolledBack(s, front), log[|log| - 1];
      if i :| 0 <= i < |front| && front[i].key == k && k in s.links && SameIdentity(s.links[k], front[i]) {
        assert log[i] == front[i];
      }
      if k in s.links && k !in RolledBack(s, log).store.links && k in before.store.links {
        DeletedIsLogged(before.store, logged, k);
        assert log[|log| - 1].key == k;
      }
    }
  }

  lemma {:induction false} DeletedIsLogged(s: Store, logged: CreatedLink, k: LinkKey)
    requires logged.key in s.links && SameIdentity(s.links[logged.key], logged) && k in s.links
    requires k !in AfterDelete(s, logged.key, s.links[logged.key]).links
    ensures k == logged.key
  {
  }

  // ---------------------------------------------------------------- a rollback among other writers

  /** The n-th step's own view: the rollback so far, the store it reads, and the store its deletion finds. */
  function SoFar(s: Store, log: seq<CreatedLink>, others: Others, n: nat): Rollback
    requires n <= |log|
  {
    RolledBackAmid(s, log[..n], others)
  }

  function ReadAt(s: Store, log: seq<CreatedLink>, others: Others, n: nat): Store
    requires n < |log|
  {
    others.beforeRead(n, SoFar(s, log, others, n).store)
  }

  function FoundAt(s: Store, log: seq<CreatedLink>, others: Others, n: nat): Store
    requires n < |log|
  {
    others.beforeDelete(n, ReadAt(s, log, others, n))
  }

  /** When it is read, the link is the one that was created. */
  predicate IsStill(store: Store, logged: CreatedLink) {
    logged.key in store.links && SameIdentity(store.links[logged.key], logged)
  }

  /** In its place there is another link. */
  predicate IsReplaced(store: Store, logged: CreatedLink) {
    logged.key in store.links && !SameIdentity(store.links[logged.key], logged)
  }

  /** The n-th step of the rollback deletes something. */
  predicate DeletesAt(s: Store, log: seq<CreatedLink>, others: Others, n: nat)
    requires n < |log|
  {
    SoFar(s, log, others, n + 1).deleted != SoFar(s, log, others, n).deleted
  }

  lemma {:induction false} NextStep(s: Store, log: seq<CreatedLink>, others: Others, n: nat)
    requires n < |log| && !SoFar(s, log, others, n).refused
    ensures SoFar(s, log, others, n + 1) == RollbackStep(SoFar(s, log, others, n), log[n], n, others)
  {
    assert log[..n + 1][..n] == log[..n] && log[..n + 1][n] == log[n];
  }

  /** With writers active all the time, a step deletes exactly when the link it reads is the one created and the
      store that the deletion finds allows it; it removes that one link and leaves every other as it finds it. */
  lemma {:induction false} StepDeletesExactly(s: Store, log: seq<CreatedLink>, others: Others, n: nat)
    requires n < |log| && !SoFar(s, log, others, n).refused
    ensures var read, found, logged := ReadAt(s, log, others, n), FoundAt(s, log, others, n), log[n];
            && (DeletesAt(s, log, others, n) <==> IsStill(read, logged) && CanDelete(found, logged.key, read.links[logged.key]))
            && SoFar(s, log, others, n + 1).store.links ==
                 (if DeletesAt(s, log, others, n) then found.links - {logged.key} else if IsStill(read, logged) then found.links else read.links)
  {
    NextStep(s, log, others, n);
    hide CanDelete, SameIdentity, RolledBackAmid;
    var before := SoFar(s, log, others, n);
    assert before.deleted + [log[n].key] != before.deleted;
    DeletionLinks(FoundAt(s, log, others, n), log[n].key);
  }

  lemma {:induction false} DeletionLinks(s: Store, key: LinkKey)
    ensures forall link :: CanDelete(s, key, link) ==> AfterDelete(s, key, link).links == s.links - {key}
  {
  }

  /** A link whose identity has changed is deleted exactly when it took the created link's place between the
      rollback's read and its deletion, and can be deleted: the deletion's conditions do not look at who it is. */
  lemma {:induction false} ChangedIsDeletedExactly(s: Store, log: seq<CreatedLink>, others: Others, n: nat)
    requires n < |log| && !SoFar(s, log, others, n).refused
    ensures var read, found, logged := ReadAt(s, log, others, n), FoundAt(s, log, others, n), log[n];
            (DeletesAt(s, log, others, n) && IsReplaced(found, logged)) <==>
              IsStill(read, logged) && IsReplaced(found, logged) && CanDelete(found, logged.key, read.links[logged.key])
    ensures var found, logged := FoundAt(s, log, others, n), log[n];
            DeletesAt(s, log, others, n) ==> IsStill(found, logged) || IsReplaced(found, logged)
  {
    hide SoFar, ReadAt, FoundAt, DeletesAt, SameIdentity;
    StepDeletesExactly(s, log, others, n);
  }

  /** Others may write what they like before each read, and may delete links before a deletion too, but they put no
      other link in a link's place just then. */
  ghost predicate NeverReplaces(others: Others) {
    forall n: nat, store: Store, k: LinkKey :: k in store.links && k in others.beforeDelete(n, store).links ==>
      others.beforeDelete(n, store).links[k] == store.links[k]
  }

  /** While nobody replaces a link just then, no link of changed identity is ever deleted. */
  lemma {:induction false} ChangedIsNeverDeleted(s: Store, log: seq<CreatedLink>, others: Others, n: nat)
    requires NeverReplaces(others) && n < |log| && !SoFar(s, log, others, n).refused
    ensures DeletesAt(s, log, others, n) ==> IsStill(FoundAt(s, log, others, n), log[n])
  {
    hide SoFar, DeletesAt, SameIdentity;
    StepDeletesExactly(s, log, others, n);
  }

  /** The writer that deletes the link and creates it again, at another time, just before the deletion. */
  function Recreating(key: LinkKey, link: StoredLink): Others {
    Others((n: nat, s: Store) => s, (n: nat, s: Store) => s.(links := s.links[key := link]))
  }

  /** A link that was deleted and created again between the read and the deletion is deleted. */
  lemma {:induction false} RecreatedLinkIsDeleted(s: Store, logged: CreatedLink, again: StoredLink)
    requires IsStill(s, logged) && CanDelete(s, logged.key, s.links[logged.key])
    requires again == s.links[logged.key].(createdAt := again.createdAt) && again.createdAt != logged.createdAt
    ensures var others := Recreating(logged.key, again);
            IsReplaced(FoundAt(s, [logged], others, 0), logged) && DeletesAt(s, [logged], others, 0)
            && logged.key !in RolledBackAmid(s, [logged], others).store.links
  {
    var others := Recreating(logged.key, again);
    assert [logged][..0] == [] && [logged][..1] == [logged];
    StepDeletesExactly(s, [logged], others, 0);
    hide RolledBackAmid;
    assert SoFar(s, [logged], others, 0) == Rollback(s, [], [], false) by { NothingYet(s, others); }
  }

  lemma {:induction false} NothingYet(s: Store, others: Others)
    ensures RolledBackAmid(s, [], others) == Rollback(s, [], [], false)
  {
  }
}
