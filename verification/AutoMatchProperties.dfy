// The plan is a matching, holds exactly the mutually closest pairs, and does not depend on input order.
module AutoMatchProperties {
  import opened Sequences
  import opened Wrappers
  import opened AutoMatch

  // ---------------------------------------------------------------- sorting

  ghost predicate SortedById(r: Readings, s: seq<Pair>) {
    forall i, j :: 0 <= i < j < |s| ==> r.precedes(s[i].transactionId, s[j].transactionId)
  }

  /** No transaction twice and no document twice. */
  ghost predicate IsMatching(s: seq<Pair>) {
    forall i, j :: 0 <= i < j < |s| ==> s[i].transactionId != s[j].transactionId && s[i].documentId != s[j].documentId
  }

  ghost predicate Apart(s: seq<Pair>, p: Pair) {
    forall q :: q in s ==> q.transactionId != p.transactionId && q.documentId != p.documentId
  }

  lemma {:induction false} InsertMembers(r: Readings, s: seq<Pair>, p: Pair)
    ensures forall q :: q in Insert(r, s, p) <==> q in s || q == p
  {
    if !(s == [] || r.precedes(s[|s| - 1].transactionId, p.transactionId)) {
      InsertMembers(r, s[..|s| - 1], p);
      assert s == s[..|s| - 1] + [s[|s| - 1]];
    }
  }

  lemma {:induction false} InsertKeepsMatching(r: Readings, s: seq<Pair>, p: Pair)
    requires IsMatching(s) && Apart(s, p)
    ensures IsMatching(Insert(r, s, p))
  {
    if s == [] || r.precedes(s[|s| - 1].transactionId, p.transactionId) {
      AppendApart(s, p);
    } else {
      var front, last := s[..|s| - 1], s[|s| - 1];
      assert s == front + [last];
      LastIsApart(s);
      assert forall q :: q in front ==> q in s;
      InsertKeepsMatching(r, front, p);
      InsertMembers(r, front, p);
      assert last in s;
      hide Insert;
      AppendApart(Insert(r, front, p), last);
    }
  }

  lemma {:induction false} AppendApart(s: seq<Pair>, p: Pair)
    requires IsMatching(s) && Apart(s, p)
    ensures IsMatching(s + [p])
  {
    forall i | 0 <= i < |s| ensures s[i].transactionId != p.transactionId && s[i].documentId != p.documentId {
      assert s[i] in s;
    }
  }

  lemma {:induction false} LastIsApart(s: seq<Pair>)
    requires IsMatching(s) && s != []
    ensures IsMatching(s[..|s| - 1]) && Apart(s[..|s| - 1], s[|s| - 1])
  {
  }

  lemma {:induction false} InsertKeepsSorted(r: Readings, s: seq<Pair>, p: Pair)
    requires r.Lawful() && SortedById(r, s)
    ensures SortedById(r, Insert(r, s, p))
  {
    if s == [] {
    } else if r.precedes(s[|s| - 1].transactionId, p.transactionId) {
      AppendKeepsSorted(r, s, p);
    } else {
      var front, last := s[..|s| - 1], s[|s| - 1];
      InsertKeepsSorted(r, front, p);
      InsertMembers(r, front, p);
      var shorter := Insert(r, front, p);
      hide Insert;
      forall i | 0 <= i < |shorter| ensures r.precedes(shorter[i].transactionId, last.transactionId) {
        assert shorter[i] in shorter;
        if shorter[i] != p {
          var j :| 0 <= j < |front| && front[j] == shorter[i];
          assert s[j] == shorter[i];
        }
      }
    }
  }

  lemma {:induction false} AppendKeepsSorted(r: Readings, s: seq<Pair>, p: Pair)
    requires r.Lawful() && SortedById(r, s) && s != [] && r.precedes(s[|s| - 1].transactionId, p.transactionId)
    ensures SortedById(r, s + [p])
  {
    forall i | 0 <= i < |s| ensures r.precedes(s[i].transactionId, p.transactionId) {
      if i < |s| - 1 { assert r.precedes(s[i].transactionId, s[|s| - 1].transactionId); }
    }
  }

  lemma {:induction false} SortMembers(r: Readings, s: seq<Pair>)
    ensures forall q :: q in SortById(r, s) <==> q in s
  {
    if s != [] {
      hide Insert;
      SortMembers(r, s[..|s| - 1]);
      InsertMembers(r, SortById(r, s[..|s| - 1]), s[|s| - 1]);
      assert s == s[..|s| - 1] + [s[|s| - 1]];
    }
  }

  lemma {:induction false} SortKeepsMatching(r: Readings, s: seq<Pair>)
    requires IsMatching(s)
    ensures IsMatching(SortById(r, s))
  {
    if s != [] {
      hide Insert, IsMatching;
      LastIsApart(s);
      SortKeepsMatching(r, s[..|s| - 1]);
      SortMembers(r, s[..|s| - 1]);
      InsertKeepsMatching(r, SortById(r, s[..|s| - 1]), s[|s| - 1]);
    }
  }

  lemma {:induction false} SortSorts(r: Readings, s: seq<Pair>)
    requires r.Lawful()
    ensures SortedById(r, SortById(r, s))
  {
    if s != [] {
      hide Insert, Readings.Lawful;
      SortSorts(r, s[..|s| - 1]);
      InsertKeepsSorted(r, SortById(r, s[..|s| - 1]), s[|s| - 1]);
    }
  }

  // ---------------------------------------------------------------- a matching

  lemma {:induction false} KeptMembers(candidates: seq<Pair>, n: nat)
    requires n <= |candidates|
    ensures forall p :: p in Kept(candidates, n) <==> exists c :: 0 <= c < n && Mutual(candidates, c) && candidates[c] == p
  {
    hide Mutual;
    if n > 0 { KeptMembers(candidates, n - 1); }
  }

  /** Two mutually closest candidates share neither a transaction nor a document: each would have to be
      closer than the other. */
  lemma {:induction false} MutualsAreApart(candidates: seq<Pair>, c: nat, d: nat)
    requires c < |candidates| && d < |candidates| && c != d && Mutual(candidates, c) && Mutual(candidates, d)
    ensures candidates[c].transactionId != candidates[d].transactionId && candidates[c].documentId != candidates[d].documentId
  {
  }

  lemma {:induction false} KeptIsMatching(candidates: seq<Pair>, n: nat)
    requires n <= |candidates|
    ensures IsMatching(Kept(candidates, n))
  {
    if n > 0 {
      hide Mutual, IsMatching;
      KeptIsMatching(candidates, n - 1);
      if Mutual(candidates, n - 1) {
        KeptAreApart(candidates, n - 1);
        hide Apart;
        AppendApart(Kept(candidates, n - 1), candidates[n - 1]);
      } else {
        assert Kept(candidates, n - 1) + [] == Kept(candidates, n - 1);
      }
    } else {
      NothingIsMatching();
    }
  }

  lemma {:induction false} KeptAreApart(candidates: seq<Pair>, n: nat)
    requires n < |candidates| && Mutual(candidates, n)
    ensures Apart(Kept(candidates, n), candidates[n])
  {
    KeptMembers(candidates, n);
    hide Mutual, Kept;
    forall p | p in Kept(candidates, n)
      ensures p.transactionId != candidates[n].transactionId && p.documentId != candidates[n].documentId
    {
      var c :| 0 <= c < n && Mutual(candidates, c) && candidates[c] == p;
      MutualsAreApart(candidates, c, n);
    }
  }

  lemma {:induction false} NothingIsMatching()
    ensures IsMatching([])
  {
  }

  /** Whatever the input, the plan uses no transaction and no document twice, and is sorted by transaction id. */
  lemma {:induction false} PlanIsMatching(r: Readings, ts: seq<Transaction>, ds: seq<Document>, links: seq<Link>)
    ensures IsMatching(Plan(r, ts, ds, links))
    ensures r.Lawful() ==> SortedById(r, Plan(r, ts, ds, links))
  {
    hide Candidates, Kept, SortById, OpenOnes, UsableOnes, IsMatching, SortedById;
    var candidates := Candidates(r, OpenOnes(ts, LinkedTransactions(links)), UsableOnes(ds, LinkedDocuments(links)));
    KeptIsMatching(candidates, |candidates|);
    SortKeepsMatching(r, Kept(candidates, |candidates|));
    if r.Lawful() { SortSorts(r, Kept(candidates, |candidates|)); }
  }

  // ---------------------------------------------------------------- exactly the mutually closest pairs

  /** p is the candidate pair of an open transaction and a usable document. */
  ghost predicate IsCandidate(r: Readings, ts: seq<Transaction>, ds: seq<Document>, links: seq<Link>, p: Pair) {
    exists t, d :: t in ts && d in ds && Open(t, LinkedTransactions(links)) && Usable(d, LinkedDocuments(links))
                   && Candidate(r, t, d) == Some(p)
  }

  /** p is strictly closer in time than every other candidate for its transaction or for its document. */
  ghost predicate IsBest(r: Readings, ts: seq<Transaction>, ds: seq<Document>, links: seq<Link>, p: Pair) {
    IsCandidate(r, ts, ds, links, p)
    && forall q :: IsCandidate(r, ts, ds, links, q) && q != p && (q.transactionId == p.transactionId || q.documentId == p.documentId) ==>
         p.dateGapDays < q.dateGapDays
  }

  ghost predicate DistinctTransactions(ts: seq<Transaction>) {
    forall i, j :: 0 <= i < j < |ts| ==> ts[i].id != ts[j].id
  }

  ghost predicate DistinctDocuments(ds: seq<Document>) {
    forall i, j :: 0 <= i < j < |ds| ==> ds[i].id != ds[j].id
  }

  lemma {:induction false} OpenMembers(ts: seq<Transaction>, linked: set<string>)
    ensures forall t :: t in OpenOnes(ts, linked) <==> t in ts && Open(t, linked)
  {
    hide Open;
    if ts != [] {
      OpenMembers(ts[..|ts| - 1], linked);
      assert ts == ts[..|ts| - 1] + [ts[|ts| - 1]];
    }
  }

  lemma {:induction false} OpenAreDistinct(ts: seq<Transaction>, linked: set<string>)
    requires DistinctTransactions(ts)
    ensures DistinctTransactions(OpenOnes(ts, linked))
  {
    hide Open;
    if ts != [] {
      var front, last := ts[..|ts| - 1], ts[|ts| - 1];
      OpenAreDistinct(front, linked);
      OpenMembers(front, linked);
      var open := OpenOnes(front, linked);
      forall i | 0 <= i < |open| ensures open[i].id != last.id {
        assert open[i] in open;
        var j :| 0 <= j < |front| && front[j] == open[i];
        assert ts[j] == open[i];
      }
    }
  }

  lemma {:induction false} UsableMembers(ds: seq<Document>, linked: set<string>)
    ensures forall d :: d in UsableOnes(ds, linked) <==> d in ds && Usable(d, linked)
  {
    hide Usable;
    if ds != [] {
      UsableMembers(ds[..|ds| - 1], linked);
      assert ds == ds[..|ds| - 1] + [ds[|ds| - 1]];
    }
  }

  lemma {:induction false} UsableAreDistinct(ds: seq<Document>, linked: set<string>)
    requires DistinctDocuments(ds)
    ensures DistinctDocuments(UsableOnes(ds, linked))
  {
    hide Usable;
    if ds != [] {
      var front, last := ds[..|ds| - 1], ds[|ds| - 1];
      UsableAreDistinct(front, linked);
      UsableMembers(front, linked);
      var usable := UsableOnes(front, linked);
      forall i | 0 <= i < |usable| ensures usable[i].id != last.id {
        assert usable[i] in usable;
        var j :| 0 <= j < |front| && front[j] == usable[i];
        assert ds[j] == usable[i];
      }
    }
  }

  lemma {:induction false} RowMembers(r: Readings, t: Transaction, ds: seq<Document>)
    requires HaveFacts(ds)
    ensures forall p :: p in CandidatesOf(r, t, ds) <==> exists d :: d in ds && d.facts.Some? && Candidate(r, t, d) == Some(p)
    ensures DistinctDocuments(ds) ==> NoDuplicates(CandidatesOf(r, t, ds))
  {
    hide Candidate;
    if ds != [] {
      var front, last := ds[..|ds| - 1], ds[|ds| - 1];
      RowMembers(r, t, front);
      assert ds == front + [last];
      if DistinctDocuments(ds) && Candidate(r, t, last).Some? {
        forall p | p in CandidatesOf(r, t, front) ensures p != Candidate(r, t, last).value {
          var d :| d in front && d.facts.Some? && Candidate(r, t, d) == Some(p);
          var i :| 0 <= i < |front| && front[i] == d;
          assert ds[i] == d && p.documentId == d.id;
        }
      }
    }
  }

  lemma {:induction false} JoinApart(a: seq<Pair>, b: seq<Pair>, id: string)
    requires NoDuplicates(a) && NoDuplicates(b)
    requires (forall p :: p in a ==> p.transactionId != id) && (forall p :: p in b ==> p.transactionId == id)
    ensures NoDuplicates(a + b)
  {
    forall i, j | 0 <= i < j < |a + b| ensures (a + b)[i] != (a + b)[j] {
      if i < |a| { assert (a + b)[i] in a; }
      if |a| <= j { assert (a + b)[j] in b; }
    }
  }

  lemma {:induction false} CandidateMembers(r: Readings, ts: seq<Transaction>, ds: seq<Document>)
    requires HaveFacts(ds)
    ensures forall p :: p in Candidates(r, ts, ds) <==>
              exists t, d :: t in ts && d in ds && d.facts.Some? && Candidate(r, t, d) == Some(p)
  {
    hide Candidate, CandidatesOf;
    if ts != [] {
      var front, last := ts[..|ts| - 1], ts[|ts| - 1];
      CandidateMembers(r, front, ds);
      RowMembers(r, last, ds);
      assert ts == front + [last];
    }
  }

  lemma {:induction false} CandidatesAreDistinct(r: Readings, ts: seq<Transaction>, ds: seq<Document>)
    requires HaveFacts(ds) && DistinctTransactions(ts) && DistinctDocuments(ds)
    ensures NoDuplicates(Candidates(r, ts, ds))
  {
    hide Candidate, CandidatesOf, NoDuplicates, HaveFacts, DistinctDocuments;
    if ts == [] {
      assert NoDuplicates<Pair>([]) by { NothingRepeats(); }
    } else {
      var front, last := ts[..|ts| - 1], ts[|ts| - 1];
      CandidatesAreDistinct(r, front, ds);
      RowMembers(r, last, ds);
      CandidateMembers(r, front, ds);
      forall p | p in Candidates(r, front, ds) ensures p.transactionId != last.id {
        var t, d :| t in front && d in ds && d.facts.Some? && Candidate(r, t, d) == Some(p);
        var i :| 0 <= i < |front| && front[i] == t;
        assert ts[i] == t && p.transactionId == t.id;
      }
      JoinApart(Candidates(r, front, ds), CandidatesOf(r, last, ds), last.id);
    }
  }

  lemma {:induction false} NothingRepeats()
    ensures NoDuplicates<Pair>([])
  {
  }

  /** For distinct ids, the plan holds a pair exactly when the pair is a candidate whose gap is strictly
      smaller than that of every other candidate sharing its transaction or its document. */
  lemma {:induction false} PlanExactly(r: Readings, ts: seq<Transaction>, ds: seq<Document>, links: seq<Link>)
    requires DistinctTransactions(ts) && DistinctDocuments(ds)
    ensures forall p :: p in Plan(r, ts, ds, links) <==> IsBest(r, ts, ds, links, p)
  {
    var open, usable := OpenOnes(ts, LinkedTransactions(links)), UsableOnes(ds, LinkedDocuments(links));
    var candidates := Candidates(r, open, usable);
    OpenMembers(ts, LinkedTransactions(links));
    UsableMembers(ds, LinkedDocuments(links));
    CandidateMembers(r, open, usable);
    OpenAreDistinct(ts, LinkedTransactions(links));
    UsableAreDistinct(ds, LinkedDocuments(links));
    CandidatesAreDistinct(r, open, usable);
    KeptMembers(candidates, |candidates|);
    SortMembers(r, Kept(candidates, |candidates|));
    hide Candidates, Candidate, OpenOnes, UsableOnes, Kept, SortById, Open, Usable, Mutual, LinkedTransactions, LinkedDocuments;
    assert forall p :: p in candidates <==> IsCandidate(r, ts, ds, links, p);
    forall c | 0 <= c < |candidates| ensures Mutual(candidates, c) <==> IsBest(r, ts, ds, links, candidates[c]) {
      MutualIsBest(r, ts, ds, links, candidates, c);
    }
    forall p ensures p in Plan(r, ts, ds, links) <==> IsBest(r, ts, ds, links, p) {
      if p in candidates { var c :| 0 <= c < |candidates| && candidates[c] == p; }
    }
  }

  lemma {:induction false} MutualIsBest(r: Readings, ts: seq<Transaction>, ds: seq<Document>, links: seq<Link>, candidates: seq<Pair>, c: nat)
    requires NoDuplicates(candidates) && c < |candidates|
    requires forall p :: p in candidates <==> IsCandidate(r, ts, ds, links, p)
    ensures Mutual(candidates, c) <==> IsBest(r, ts, ds, links, candidates[c])
  {
    hide IsCandidate;
    if Mutual(candidates, c) {
      forall q | IsCandidate(r, ts, ds, links, q) && q != candidates[c]
                 && (q.transactionId == candidates[c].transactionId || q.documentId == candidates[c].documentId)
        ensures candidates[c].dateGapDays < q.dateGapDays
      {
        var d :| 0 <= d < |candidates| && candidates[d] == q;
      }
    }
    if IsBest(r, ts, ds, links, candidates[c]) {
      forall d | 0 <= d < |candidates| && d != c
                 && (TransactionKey(candidates[d]) == TransactionKey(candidates[c]) || DocumentKey(candidates[d]) == DocumentKey(candidates[c]))
        ensures candidates[c].dateGapDays < candidates[d].dateGapDays
      {
        assert candidates[d] in candidates && candidates[d] != candidates[c];
      }
    }
  }

  // ---------------------------------------------------------------- input order

  lemma {:induction false} SortedMatchingIsUnique(r: Readings, s: seq<Pair>, t: seq<Pair>)
    requires r.Lawful() && SortedById(r, s) && SortedById(r, t) && IsMatching(s) && IsMatching(t)
    requires forall p :: p in s <==> p in t
    ensures s == t
  {
    if t != [] { assert t[0] in t; }
    if s != [] {
      SameLasts(r, s, t);
      hide Readings.Lawful;
      WithoutLast(s, t);
      FrontIsSortedMatching(r, s);
      FrontIsSortedMatching(r, t);
      hide SortedById, IsMatching;
      SortedMatchingIsUnique(r, Front(s), Front(t));
      assert s == Front(s) + [s[|s| - 1]] && t == Front(t) + [t[|t| - 1]];
    }
  }

  function Front(s: seq<Pair>): seq<Pair>
    requires s != []
  {
    s[..|s| - 1]
  }

  lemma {:induction false} FrontIsSortedMatching(r: Readings, s: seq<Pair>)
    requires s != [] && SortedById(r, s) && IsMatching(s)
    ensures SortedById(r, Front(s)) && IsMatching(Front(s))
  {
  }

  lemma {:induction false} SameLasts(r: Readings, s: seq<Pair>, t: seq<Pair>)
    requires r.Lawful() && SortedById(r, s) && SortedById(r, t) && IsMatching(s) && s != []
    requires forall p :: p in s <==> p in t
    ensures t != [] && s[|s| - 1] == t[|t| - 1]
  {
    assert s[|s| - 1] in s && s[|s| - 1] in t;
    LastIsGreatest(r, s);
    LastIsGreatest(r, t);
    assert t[|t| - 1] in t && t[|t| - 1] in s;
    SameLast(r, s, t);
  }

  lemma {:induction false} WithoutLast(s: seq<Pair>, t: seq<Pair>)
    requires s != [] && t != [] && s[|s| - 1] == t[|t| - 1] && IsMatching(s) && IsMatching(t)
    requires forall p :: p in s <==> p in t
    ensures forall p :: p in Front(s) <==> p in Front(t)
  {
    FrontMembers(s);
    FrontMembers(t);
  }

  lemma {:induction false} FrontMembers(s: seq<Pair>)
    requires s != [] && IsMatching(s)
    ensures forall p :: p in Front(s) <==> p in s && p != s[|s| - 1]
  {
    assert s == Front(s) + [s[|s| - 1]];
    forall p | p in Front(s) ensures p != s[|s| - 1] {
      var i :| 0 <= i < |Front(s)| && Front(s)[i] == p;
      assert s[i] == p;
    }
  }

  lemma {:induction false} SameLast(r: Readings, s: seq<Pair>, t: seq<Pair>)
    requires r.Lawful() && s != [] && t != [] && IsMatching(s)
    requires forall p :: p in s ==> r.precedes(p.transactionId, s[|s| - 1].transactionId)
    requires forall p :: p in t ==> r.precedes(p.transactionId, t[|t| - 1].transactionId)
    requires s[|s| - 1] in t && t[|t| - 1] in s
    ensures s[|s| - 1] == t[|t| - 1]
  {
    var i :| 0 <= i < |s| && s[i] == t[|t| - 1];
    assert s[i].transactionId == s[|s| - 1].transactionId;
  }

  lemma {:induction false} LastIsGreatest(r: Readings, s: seq<Pair>)
    requires r.Lawful() && SortedById(r, s) && s != []
    ensures forall p :: p in s ==> r.precedes(p.transactionId, s[|s| - 1].transactionId)
  {
    forall p | p in s ensures r.precedes(p.transactionId, s[|s| - 1].transactionId) {
      var i :| 0 <= i < |s| && s[i] == p;
    }
  }

  /** The plan depends only on which transactions, documents and links there are, not on their order. */
  lemma {:induction false} OrderDoesNotMatter(r: Readings, ts: seq<Transaction>, ds: seq<Document>, links: seq<Link>,
                                              ts2: seq<Transaction>, ds2: seq<Document>, links2: seq<Link>)
    requires r.Lawful() && DistinctTransactions(ts) && DistinctDocuments(ds) && DistinctTransactions(ts2) && DistinctDocuments(ds2)
    requires Elements(ts) == Elements(ts2) && Elements(ds) == Elements(ds2) && Elements(links) == Elements(links2)
    ensures Plan(r, ts, ds, links) == Plan(r, ts2, ds2, links2)
  {
    SameLinks(links, links2);
    PlanExactly(r, ts, ds, links);
    PlanExactly(r, ts2, ds2, links2);
    PlanIsMatching(r, ts, ds, links);
    PlanIsMatching(r, ts2, ds2, links2);
    assert forall t :: t in ts <==> t in Elements(ts);
    assert forall t :: t in ts2 <==> t in Elements(ts2);
    assert forall d :: d in ds <==> d in Elements(ds);
    assert forall d :: d in ds2 <==> d in Elements(ds2);
    hide Plan, Candidate, Open, Usable, SortedById, IsMatching, LinkedTransactions, LinkedDocuments, Elements;
    assert forall p :: IsCandidate(r, ts, ds, links, p) <==> IsCandidate(r, ts2, ds2, links2, p);
    hide IsCandidate;
    assert forall p :: IsBest(r, ts, ds, links, p) <==> IsBest(r, ts2, ds2, links2, p);
    SortedMatchingIsUnique(r, Plan(r, ts, ds, links), Plan(r, ts2, ds2, links2));
  }

  lemma {:induction false} SameLinks(links: seq<Link>, links2: seq<Link>)
    requires Elements(links) == Elements(links2)
    ensures LinkedTransactions(links) == LinkedTransactions(links2) && LinkedDocuments(links) == LinkedDocuments(links2)
  {
    LinkedMembers(links);
    LinkedMembers(links2);
    assert forall l :: l in links <==> l in Elements(links);
    assert forall l :: l in links2 <==> l in Elements(links2);
    hide LinkedTransactions, LinkedDocuments, Elements;
  }

  lemma {:induction false} LinkedMembers(links: seq<Link>)
    ensures forall id :: id in LinkedTransactions(links) <==>
              exists l :: l in links && l.coverageType == "evidence" && l.transactionId != "" && l.transactionId == id
    ensures forall id :: id in LinkedDocuments(links) <==>
              exists l :: l in links && l.coverageType == "evidence" && l.documentId != "" && l.documentId == id
  {
    forall id ensures id in LinkedTransactions(links) <==>
                exists l :: l in links && l.coverageType == "evidence" && l.transactionId != "" && l.transactionId == id
    {
      if id in LinkedTransactions(links) {
        var i :| 0 <= i < |links| && links[i].coverageType == "evidence" && links[i].transactionId != "" && links[i].transactionId == id;
        assert links[i] in links;
      }
    }
    forall id ensures id in LinkedDocuments(links) <==>
                exists l :: l in links && l.coverageType == "evidence" && l.documentId != "" && l.documentId == id
    {
      if id in LinkedDocuments(links) {
        var i :| 0 <= i < |links| && links[i].coverageType == "evidence" && links[i].documentId != "" && links[i].documentId == id;
        assert links[i] in links;
      }
    }
  }
}
