// The dry run's projected counts are the counts the application leaves.
module BackfillProjection {
  import opened Sequences
  import opened Wrappers
  import opened AutoMatch
  import opened AutoMatchProperties
  import opened Backfill
  import opened BackfillProperties

  datatype ReceiptCounts = ReceiptCounts(noReceipt: int, transactions: nat)

  datatype Counts = Counts(month: ReceiptCounts, overall: ReceiptCounts)

  predicate InMonth(t: Transaction) {
    "2026-09" <= t.transactionDate
  }

  function OfMonth(ts: seq<Transaction>): seq<Transaction> {
    if ts == [] then []
    else OfMonth(ts[..|ts| - 1]) + (if InMonth(ts[|ts| - 1]) then [ts[|ts| - 1]] else [])
  }

  function Missing(ts: seq<Transaction>, evidence: set<string>): nat {
    if ts == [] then 0
    else Missing(ts[..|ts| - 1], evidence) + (if ts[|ts| - 1].id in evidence then 0 else 1)
  }

  /** `receiptCounts` */
  function CountsOf(ts: seq<Transaction>, links: seq<Link>): Counts {
    var evidence := LinkedTransactions(links);
    Counts(ReceiptCounts(Missing(OfMonth(ts), evidence), |OfMonth(ts)|), ReceiptCounts(Missing(ts, evidence), |ts|))
  }

  predicate PairOfMonth(ts: seq<Transaction>, p: Pair) {
    exists i :: 0 <= i < |ts| && ts[i].id == p.transactionId && InMonth(ts[i])
  }

  function PairsOfMonth(ts: seq<Transaction>, plan: seq<Pair>): seq<Pair> {
    if plan == [] then []
    else PairsOfMonth(ts, plan[..|plan| - 1]) + (if PairOfMonth(ts, plan[|plan| - 1]) then [plan[|plan| - 1]] else [])
  }

  function AtLeastZero(n: int): int {
    if n < 0 then 0 else n
  }

  /** The dry run's projection. */
  function Projected(ts: seq<Transaction>, links: seq<Link>, plan: seq<Pair>): Counts {
    var before := CountsOf(ts, links);
    Counts(ReceiptCounts(AtLeastZero(before.month.noReceipt - |PairsOfMonth(ts, plan)|), before.month.transactions),
           ReceiptCounts(AtLeastZero(before.overall.noReceipt - |plan|), before.overall.transactions))
  }

  // ---------------------------------------------------------------- counting

  ghost function Ids(ts: seq<Transaction>): set<string> {
    set i | 0 <= i < |ts| :: ts[i].id
  }

  function PlannedIds(plan: seq<Pair>): set<string> {
    set i | 0 <= i < |plan| :: plan[i].transactionId
  }

  /** Giving evidence to some of the transactions that lack it lowers the count by their number. */
  lemma {:induction false} MissingDrops(ts: seq<Transaction>, evidence: set<string>, more: set<string>)
    requires DistinctTransactions(ts) && more <= Ids(ts) && more !! evidence
    ensures Missing(ts, evidence + more) == Missing(ts, evidence) - |more|
  {
    if ts == [] {
      assert more == {};
    } else {
      var front, last := ts[..|ts| - 1], ts[|ts| - 1];
      var rest := more - {last.id};
      RestAreInFront(ts, front, rest);
      MissingLast(ts, evidence);
      MissingLast(ts, evidence + more);
      hide Ids, DistinctTransactions, Missing;
      MissingDrops(front, evidence, rest);
      MissingIgnores(front, evidence + rest, last.id);
      if last.id in more {
        assert evidence + more == evidence + rest + {last.id};
        RemoveOne(more, last.id);
      } else {
        assert rest == more;
      }
    }
  }

  lemma {:induction false} MissingLast(ts: seq<Transaction>, evidence: set<string>)
    requires ts != []
    ensures Missing(ts, evidence) == Missing(ts[..|ts| - 1], evidence) + (if ts[|ts| - 1].id in evidence then 0 else 1)
  {
  }

  lemma {:induction false} RemoveOne(s: set<string>, x: string)
    requires x in s
    ensures |s - {x}| == |s| - 1
  {
  }

  lemma {:induction false} RestAreInFront(ts: seq<Transaction>, front: seq<Transaction>, rest: set<string>)
    requires DistinctTransactions(ts) && ts != [] && front == ts[..|ts| - 1] && rest <= Ids(ts) && ts[|ts| - 1].id !in rest
    ensures DistinctTransactions(front) && rest <= Ids(front)
    ensures forall i :: 0 <= i < |front| ==> front[i].id != ts[|ts| - 1].id
  {
    forall id | id in rest ensures id in Ids(front) {
      var i :| 0 <= i < |ts| && ts[i].id == id;
      assert front[i].id == id;
    }
  }

  lemma {:induction false} MissingIgnores(ts: seq<Transaction>, evidence: set<string>, id: string)
    requires forall i :: 0 <= i < |ts| ==> ts[i].id != id
    ensures Missing(ts, evidence + {id}) == Missing(ts, evidence)
  {
    if ts != [] { MissingIgnores(ts[..|ts| - 1], evidence, id); }
  }

  /** Only the evidence about these transactions counts. */
  lemma {:induction false} MissingSees(ts: seq<Transaction>, a: set<string>, b: set<string>)
    requires forall id :: id in Ids(ts) ==> (id in a <==> id in b)
    ensures Missing(ts, a) == Missing(ts, b)
  {
    if ts != [] {
      var front := ts[..|ts| - 1];
      assert ts[|ts| - 1].id in Ids(ts);
      forall id | id in Ids(front) ensures id in a <==> id in b {
        var i :| 0 <= i < |front| && front[i].id == id;
        assert ts[i].id == id && id in Ids(ts);
      }
      MissingSees(front, a, b);
    }
  }

  lemma {:induction false} PlannedCount(plan: seq<Pair>)
    requires IsMatching(plan)
    ensures |PlannedIds(plan)| == |plan|
  {
    if plan != [] {
      var front, last := plan[..|plan| - 1], plan[|plan| - 1];
      PlannedCount(front);
      forall id | id in PlannedIds(plan) ensures id in PlannedIds(front) + {last.transactionId} {
        var i :| 0 <= i < |plan| && plan[i].transactionId == id;
        if i < |front| { assert front[i].transactionId == id; }
      }
      forall id | id in PlannedIds(front) ensures id in PlannedIds(plan) {
        var i :| 0 <= i < |front| && front[i].transactionId == id;
        assert plan[i].transactionId == id;
      }
      assert plan[|plan| - 1].transactionId in PlannedIds(plan);
      assert PlannedIds(plan) == PlannedIds(front) + {last.transactionId};
      assert last.transactionId !in PlannedIds(front);
    }
  }

  lemma {:induction false} MonthMembers(ts: seq<Transaction>)
    ensures forall t :: t in OfMonth(ts) <==> t in ts && InMonth(t)
  {
    hide InMonth;
    if ts != [] {
      MonthMembers(ts[..|ts| - 1]);
      assert ts == ts[..|ts| - 1] + [ts[|ts| - 1]];
    }
  }

  lemma {:induction false} MonthIsDistinct(ts: seq<Transaction>)
    requires DistinctTransactions(ts)
    ensures DistinctTransactions(OfMonth(ts))
  {
    hide InMonth;
    if ts != [] {
      var front, last := ts[..|ts| - 1], ts[|ts| - 1];
      MonthIsDistinct(front);
      MonthMembers(front);
      var month := OfMonth(front);
      forall i | 0 <= i < |month| ensures month[i].id != last.id {
        assert month[i] in month;
        var j :| 0 <= j < |front| && front[j] == month[i];
        assert ts[j] == month[i];
      }
    }
  }

  lemma {:induction false} MonthPairs(ts: seq<Transaction>, plan: seq<Pair>)
    ensures forall p :: p in PairsOfMonth(ts, plan) <==> p in plan && PairOfMonth(ts, p)
    ensures IsMatching(plan) ==> IsMatching(PairsOfMonth(ts, plan))
  {
    if plan != [] {
      var front, last := plan[..|plan| - 1], plan[|plan| - 1];
      MonthPairs(ts, front);
      assert plan == front + [last];
      if IsMatching(plan) {
        forall p | p in PairsOfMonth(ts, front) ensures p.transactionId != last.transactionId && p.documentId != last.documentId {
          var i :| 0 <= i < |front| && front[i] == p;
          assert plan[i] == p;
        }
      }
    }
  }

  // ---------------------------------------------------------------- the projection is exact

  /** Every planned transaction is known, has an id, and had no evidence. */
  lemma {:induction false} PlannedAreOpen(r: Readings, ts: seq<Transaction>, ds: seq<Document>, links: seq<Link>)
    ensures PlannedIds(Plan(r, ts, ds, links)) <= Ids(ts)
    ensures PlannedIds(Plan(r, ts, ds, links)) !! LinkedTransactions(links)
    ensures "" !in PlannedIds(Plan(r, ts, ds, links))
  {
    var open, usable := OpenOnes(ts, LinkedTransactions(links)), UsableOnes(ds, LinkedDocuments(links));
    var candidates := Candidates(r, open, usable);
    OpenMembers(ts, LinkedTransactions(links));
    CandidateMembers(r, open, usable);
    KeptMembers(candidates, |candidates|);
    SortMembers(r, Kept(candidates, |candidates|));
    var plan := Plan(r, ts, ds, links);
    hide Candidates, Candidate, OpenOnes, UsableOnes, Kept, SortById, Mutual, LinkedTransactions, LinkedDocuments;
    forall i | 0 <= i < |plan|
      ensures plan[i].transactionId in Ids(ts) && plan[i].transactionId !in LinkedTransactions(links) && plan[i].transactionId != ""
    {
      assert plan[i] in plan && plan[i] in candidates;
      var t, d :| t in open && d in usable && d.facts.Some? && Candidate(r, t, d) == Some(plan[i]);
      var j :| 0 <= j < |ts| && ts[j] == t;
      assert ts[j].id in Ids(ts);
    }
  }

  /** Once every planned link exists, the recomputed counts are the projected ones, and the clamp at zero
      never acted. */
  lemma {:induction false} ProjectionIsExact(r: Readings, ts: seq<Transaction>, ds: seq<Document>, links: seq<Link>, after: seq<Link>)
    requires DistinctTransactions(ts)
    requires LinkedTransactions(after) == LinkedTransactions(links) + PlannedIds(Plan(r, ts, ds, links))
    ensures CountsOf(ts, after) == Projected(ts, links, Plan(r, ts, ds, links))
    ensures CountsOf(ts, links).overall.noReceipt >= |Plan(r, ts, ds, links)|
    ensures CountsOf(ts, links).month.noReceipt >= |PairsOfMonth(ts, Plan(r, ts, ds, links))|
  {
    var plan := Plan(r, ts, ds, links);
    PlannedAreOpen(r, ts, ds, links);
    PlanIsMatching(r, ts, ds, links);
    hide Plan, LinkedTransactions;
    PlannedCount(plan);
    MissingDrops(ts, LinkedTransactions(links), PlannedIds(plan));
    MonthDrops(ts, plan, LinkedTransactions(links));
    hide Missing, PlannedIds, OfMonth, PairsOfMonth;
  }

  lemma {:induction false} MonthDrops(ts: seq<Transaction>, plan: seq<Pair>, evidence: set<string>)
    requires DistinctTransactions(ts) && IsMatching(plan) && PlannedIds(plan) <= Ids(ts) && PlannedIds(plan) !! evidence
    ensures Missing(OfMonth(ts), evidence + PlannedIds(plan)) == Missing(OfMonth(ts), evidence) - |PairsOfMonth(ts, plan)|
  {
    var pairs := PairsOfMonth(ts, plan);
    MonthMembers(ts);
    MonthIsDistinct(ts);
    MonthPairs(ts, plan);
    PlannedCount(pairs);
    hide OfMonth, PairsOfMonth, Missing, InMonth;
    forall id | id in PlannedIds(pairs) ensures id in Ids(OfMonth(ts)) && id in PlannedIds(plan) {
      PairIsOfMonth(ts, plan, pairs, id);
    }
    MissingDrops(OfMonth(ts), evidence, PlannedIds(pairs));
    forall id | id in Ids(OfMonth(ts)) ensures id in evidence + PlannedIds(plan) <==> id in evidence + PlannedIds(pairs) {
      if id in PlannedIds(plan) { PlannedOfMonth(ts, plan, pairs, id); }
    }
    MissingSees(OfMonth(ts), evidence + PlannedIds(plan), evidence + PlannedIds(pairs));
  }

  lemma {:induction false} PairIsOfMonth(ts: seq<Transaction>, plan: seq<Pair>, pairs: seq<Pair>, id: string)
    requires forall p :: p in pairs <==> p in plan && PairOfMonth(ts, p)
    requires forall t :: t in OfMonth(ts) <==> t in ts && InMonth(t)
    requires id in PlannedIds(pairs)
    ensures id in Ids(OfMonth(ts)) && id in PlannedIds(plan)
  {
    hide OfMonth, InMonth;
    var i :| 0 <= i < |pairs| && pairs[i].transactionId == id;
    assert pairs[i] in pairs && pairs[i] in plan && PairOfMonth(ts, pairs[i]);
    var j :| 0 <= j < |ts| && ts[j].id == id && InMonth(ts[j]);
    assert ts[j] in OfMonth(ts);
    var k :| 0 <= k < |OfMonth(ts)| && OfMonth(ts)[k] == ts[j];
    assert OfMonth(ts)[k].id in Ids(OfMonth(ts));
    var l :| 0 <= l < |plan| && plan[l] == pairs[i];
    assert plan[l].transactionId in PlannedIds(plan);
  }

  lemma {:induction false} PlannedOfMonth(ts: seq<Transaction>, plan: seq<Pair>, pairs: seq<Pair>, id: string)
    requires forall p :: p in pairs <==> p in plan && PairOfMonth(ts, p)
    requires forall t :: t in OfMonth(ts) <==> t in ts && InMonth(t)
    requires id in PlannedIds(plan) && id in Ids(OfMonth(ts))
    ensures id in PlannedIds(pairs)
  {
    hide OfMonth, InMonth;
    var l :| 0 <= l < |plan| && plan[l].transactionId == id;
    var k :| 0 <= k < |OfMonth(ts)| && OfMonth(ts)[k].id == id;
    assert OfMonth(ts)[k] in OfMonth(ts);
    var j :| 0 <= j < |ts| && ts[j] == OfMonth(ts)[k];
    assert ts[j].id == plan[l].transactionId && InMonth(ts[j]);
    assert PairOfMonth(ts, plan[l]) && plan[l] in pairs;
    var i :| 0 <= i < |pairs| && pairs[i] == plan[l];
    assert pairs[i].transactionId in PlannedIds(pairs);
  }

  // ---------------------------------------------------------------- together with the application

  function Listed(link: StoredLink): Link {
    Link(link.transactionId, link.documentId, link.coverageType)
  }

  /** The list shows the stored links, in any order. */
  ghost predicate Lists(list: seq<Link>, s: Store) {
    forall l :: l in list <==> exists k :: k in s.links && Listed(s.links[k]) == l
  }

  lemma {:induction false} ListedTransactions(list: seq<Link>, s: Store, id: string)
    requires Lists(list, s)
    ensures id in LinkedTransactions(list) <==>
              exists k :: k in s.links && s.links[k].coverageType == "evidence" && s.links[k].transactionId != "" && s.links[k].transactionId == id
  {
    LinkedMembers(list);
    hide LinkedTransactions;
    if id in LinkedTransactions(list) {
      var l :| l in list && l.coverageType == "evidence" && l.transactionId != "" && l.transactionId == id;
      var k :| k in s.links && Listed(s.links[k]) == l;
      assert s.links[k].coverageType == "evidence";
    }
    if k :| k in s.links && s.links[k].coverageType == "evidence" && s.links[k].transactionId != "" && s.links[k].transactionId == id {
      assert Listed(s.links[k]) in list;
    }
  }

  /** When the application creates every planned link, the counts recomputed from the store afterwards are
      the ones the dry run projected. */
  lemma {:induction false} DryRunTellsTheTruth(r: Readings, ts: seq<Transaction>, ds: seq<Document>, s: Store, clock: nat -> string,
                                               before: seq<Link>, after: seq<Link>)
    requires DistinctTransactions(ts) && Lists(before, s)
    requires var plan := Plan(r, ts, ds, before);
             |Applied(s, plan, clock).created| == |plan| && Lists(after, Applied(s, plan, clock).store)
    ensures CountsOf(ts, after) == Projected(ts, before, Plan(r, ts, ds, before))
  {
    var plan := Plan(r, ts, ds, before);
    PlannedAreOpen(r, ts, ds, before);
    hide Plan, LinkedTransactions, Lists, CountsOf;
    forall id ensures id in LinkedTransactions(after) <==> id in LinkedTransactions(before) + PlannedIds(plan) {
      AppliedEvidence(s, plan, clock, before, after, id);
    }
    ProjectionIsExact(r, ts, ds, before, after);
  }

  lemma {:induction false} AllCreated(s: Store, plan: seq<Pair>, clock: nat -> string)
    requires |Applied(s, plan, clock).created| >= |plan|
    ensures var created := Applied(s, plan, clock).created;
            |created| == |plan| && forall i :: 0 <= i < |plan| ==> created[i].key == KeyOf(plan[i].documentId, plan[i].transactionId)
  {
    CreatedIsShort(s, plan, clock);
    if plan != [] {
      var front := plan[..|plan| - 1];
      CreatedIsShort(s, front, clock);
      hide CanCreate, AfterCreate;
      AllCreated(s, front, clock);
      var created, before := Applied(s, plan, clock).created, Applied(s, front, clock).created;
      assert |created| == |before| + 1;
      forall i | 0 <= i < |plan| ensures created[i].key == KeyOf(plan[i].documentId, plan[i].transactionId) {
        if i < |front| { assert created[i] == before[i] && front[i] == plan[i]; }
      }
    }
  }

  lemma {:induction false} CreatedIsShort(s: Store, plan: seq<Pair>, clock: nat -> string)
    ensures |Applied(s, plan, clock).created| <= |plan|
  {
    hide CanCreate, AfterCreate;
    if plan != [] { CreatedIsShort(s, plan[..|plan| - 1], clock); }
  }

  lemma {:induction false} AppliedEvidence(s: Store, plan: seq<Pair>, clock: nat -> string, before: seq<Link>, after: seq<Link>, id: string)
    requires |Applied(s, plan, clock).created| == |plan| && "" !in PlannedIds(plan)
    requires Lists(before, s) && Lists(after, Applied(s, plan, clock).store)
    ensures id in LinkedTransactions(after) <==> id in LinkedTransactions(before) || id in PlannedIds(plan)
  {
    var a := Applied(s, plan, clock);
    ApplicationGrows(s, plan, clock);
    AllCreated(s, plan, clock);
    GrownLinks(s, a.created);
    GrownKeepsOld(s, a.created);
    ListedTransactions(before, s, id);
    ListedTransactions(after, a.store, id);
    hide Applied, Grown, Fresh, Lists, LinkedTransactions;
    if k :| k in a.store.links && a.store.links[k].coverageType == "evidence" && a.store.links[k].transactionId != "" && a.store.links[k].transactionId == id {
      if k in s.links {
        assert s.links[k] == a.store.links[k];
      } else {
        assert k in Keys(a.created);
        var i :| 0 <= i < |a.created| && a.created[i].key == k;
        assert plan[i].transactionId == id;
      }
    }
    if k :| k in s.links && s.links[k].coverageType == "evidence" && s.links[k].transactionId != "" && s.links[k].transactionId == id {
      assert a.store.links[k] == s.links[k];
    }
    if id in PlannedIds(plan) {
      var i :| 0 <= i < |plan| && plan[i].transactionId == id;
      assert a.store.links[a.created[i].key] == LinkOf(a.created[i]);
    }
  }

  lemma {:induction false} GrownKeepsOld(s: Store, created: seq<CreatedLink>)
    requires Fresh(s, created)
    ensures forall k :: k in s.links ==> k in Grown(s, created).links && Grown(s, created).links[k] == s.links[k]
  {
    if created != [] { GrownKeepsOld(s, created[..|created| - 1]); }
  }
}
