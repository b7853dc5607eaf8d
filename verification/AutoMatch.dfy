// Automatic evidence matching: mutually unique closest pairs of transactions and documents
// (backend/src/bookkeepingAutoMatch.ts).
module AutoMatch {
  import opened Cents
  import opened Sequences
  import opened Wrappers

  /** What the matcher reads through other code: the normalized vendor name, upper and lower case of a
      trimmed text, the day number of a calendar date, and the order `localeCompare` puts ids in. */
  datatype Readings = Readings(
    vendor: string -> string, upper: string -> string, lower: string -> string, day: string -> Option<int>,
    precedes: (string, string) -> bool) {
    /** Ids are totally ordered. */
    ghost predicate Lawful() {
      (forall a, b :: precedes(a, b) || precedes(b, a))
      && (forall a, b :: precedes(a, b) && precedes(b, a) ==> a == b)
      && (forall a, b, c :: precedes(a, b) && precedes(b, c) ==> precedes(a, c))
    }
  }

  /** Amounts are the numbers the stored values denote, None when they denote none. */
  datatype Transaction = Transaction(
    id: string, transactionDate: string, paidDate: string, amount: Option<real>, amountEur: Option<real>,
    currency: string, counterparty: string, entryType: string, subtype: string, sourceKey: string, sponsorDealId: string)

  datatype Extraction = Extraction(needsReview: bool, documentType: string, direction: string)

  datatype Facts = Facts(
    amount: Option<real>, currency: string, counterparty: string, transactionDate: string, paidDate: string, date: string,
    subtype: string, extraction: Option<Extraction>)

  datatype Document = Document(id: string, status: string, documentType: string, facts: Option<Facts>)

  datatype Link = Link(transactionId: string, documentId: string, coverageType: string)

  datatype Pair = Pair(transactionId: string, documentId: string, dateGapDays: nat, amount: string, currency: string)

  // ---------------------------------------------------------------- one transaction and one document

  /** Whole cents, when the amount is within a thousandth of a cent of them. */
  function AmountCents(value: Option<real>): Option<nat> {
    if value.None? || value.value <= 0.0 then None
    else
      var scaled := value.value * 100.0;
      var cents := (scaled + 0.5).Floor;
      if -0.001 < scaled - cents as real < 0.001 then Some(cents) else None
  }

  /** The invoice amount and currency, when they are the transaction's or its EUR value. */
  function ExactAmountMatch(r: Readings, t: Transaction, facts: Facts): Option<(string, string)> {
    var invoice, currency := AmountCents(facts.amount), r.upper(facts.currency);
    if invoice.None? || currency == "" then None
    else if currency == r.upper(t.currency) && AmountCents(t.amount) == invoice then Some((CentsToFixed(invoice.value), currency))
    else if currency == "EUR" && AmountCents(t.amountEur) == invoice then Some((CentsToFixed(invoice.value), "EUR"))
    else None
  }

  /** The days among some dates that are calendar dates. */
  function Days(r: Readings, dates: seq<string>): seq<int> {
    if dates == [] then []
    else
      var day := r.day(dates[|dates| - 1]);
      Days(r, dates[..|dates| - 1]) + (if day.Some? then [day.value] else [])
  }

  function Distance(a: int, b: int): nat {
    if a < b then b - a else a - b
  }

  /** g is the smallest distance between a day of `left` and a day of `right`. */
  ghost predicate IsGap(left: seq<int>, right: seq<int>, g: nat) {
    (exists i, j :: 0 <= i < |left| && 0 <= j < |right| && Distance(left[i], right[j]) == g)
    && forall i, j :: 0 <= i < |left| && 0 <= j < |right| ==> g <= Distance(left[i], right[j])
  }

  /** The smaller of two gaps; None is infinity. */
  function Min(a: Option<nat>, b: Option<nat>): Option<nat> {
    if a.None? then b else if b.None? || a.value <= b.value then a else b
  }

  function Nearest(day: int, right: seq<int>): Option<nat> {
    if right == [] then None else Min(Nearest(day, right[..|right| - 1]), Some(Distance(day, right[|right| - 1])))
  }

  function Gap(left: seq<int>, right: seq<int>): Option<nat> {
    if left == [] then None else Min(Gap(left[..|left| - 1], right), Nearest(left[|left| - 1], right))
  }

  /** The least distance, found with a running minimum that starts at infinity. */
  method DateGap(left: seq<int>, right: seq<int>) returns (gap: Option<nat>)
    ensures gap == Gap(left, right)
  {
    gap := None;
    for i := 0 to |left|
      invariant gap == Gap(left[..i], right)
    {
      assert left[..i + 1][..i] == left[..i];
      for j := 0 to |right|
        invariant gap == Min(Gap(left[..i], right), Nearest(left[i], right[..j]))
      {
        assert right[..j + 1][..j] == right[..j];
        gap := Min(gap, Some(Distance(left[i], right[j])));
      }
      assert right[..|right|] == right;
    }
    assert left[..|left|] == left;
  }

  lemma {:induction false} NearestIsNearest(day: int, right: seq<int>)
    ensures Nearest(day, right).None? <==> right == []
    ensures Nearest(day, right).Some? ==>
              (exists j :: 0 <= j < |right| && Distance(day, right[j]) == Nearest(day, right).value)
              && forall j :: 0 <= j < |right| ==> Nearest(day, right).value <= Distance(day, right[j])
  {
    if right != [] {
      var n := |right| - 1;
      var front := right[..n];
      NearestIsNearest(day, front);
      if Nearest(day, front).Some? {
        var j :| 0 <= j < |front| && Distance(day, front[j]) == Nearest(day, front).value;
        assert Distance(day, right[j]) == Nearest(day, front).value;
      }
      assert Distance(day, right[n]) == Distance(day, right[|right| - 1]);
      forall j | 0 <= j < |right| ensures Nearest(day, right).value <= Distance(day, right[j]) {
        if j < n { assert front[j] == right[j]; }
      }
    }
  }

  /** The running minimum is the smallest distance, and exists exactly when both sides have a date. */
  lemma {:induction false} GapIsGap(left: seq<int>, right: seq<int>)
    ensures Gap(left, right).None? <==> left == [] || right == []
    ensures Gap(left, right).Some? ==> IsGap(left, right, Gap(left, right).value)
  {
    if left != [] {
      var n := |left| - 1;
      var front := left[..n];
      GapIsGap(front, right);
      NearestIsNearest(left[n], right);
      if right != [] {
        var g := Gap(left, right).value;
        if Gap(front, right).Some? && g == Gap(front, right).value {
          var k, l :| 0 <= k < |front| && 0 <= l < |right| && Distance(front[k], right[l]) == g;
          assert Distance(left[k], right[l]) == g;
        } else {
          var l :| 0 <= l < |right| && Distance(left[n], right[l]) == g;
        }
        forall k, l | 0 <= k < |left| && 0 <= l < |right| ensures g <= Distance(left[k], right[l]) {
          if k < n { assert front[k] == left[k]; }
        }
      }
    }
  }

  function TransactionDays(r: Readings, t: Transaction): seq<int> {
    Days(r, [t.transactionDate, t.paidDate])
  }

  function DocumentDays(r: Readings, facts: Facts): seq<int> {
    Days(r, [facts.transactionDate, facts.paidDate, facts.date])
  }

  predicate IsRefundTransaction(r: Readings, t: Transaction) {
    r.lower(t.subtype) == "refund" || "credit-note:" <= t.sourceKey
  }

  predicate IsSupplierCreditNote(r: Readings, facts: Facts) {
    r.lower(facts.subtype) == "refund"
    || (facts.extraction.Some? && r.lower(facts.extraction.value.documentType) == "credit_note"
        && r.lower(facts.extraction.value.direction) != "income")
  }

  predicate DirectionMatches(r: Readings, t: Transaction, facts: Facts) {
    var refund := IsRefundTransaction(r, t);
    refund == IsSupplierCreditNote(r, facts)
    && (refund || facts.extraction.None? || r.lower(facts.extraction.value.direction) == ""
        || r.lower(facts.extraction.value.direction) == r.lower(t.entryType))
  }

  /** A transaction that may still be matched: known, without evidence, not part of a sponsor deal. */
  predicate Open(t: Transaction, linked: set<string>) {
    t.id != "" && t.id !in linked && t.sponsorDealId == ""
  }

  predicate Usable(d: Document, linked: set<string>) {
    d.id != "" && d.status == "active" && (d.documentType == "invoice" || d.documentType == "receipt")
    && d.id !in linked && d.facts.Some? && !(d.facts.value.extraction.Some? && d.facts.value.extraction.value.needsReview)
  }

  /** The candidate pair of a transaction and a document, if they agree on vendor, direction, amount and,
      within ten days, date. */
  function Candidate(r: Readings, t: Transaction, d: Document): (c: Option<Pair>)
    requires d.facts.Some?
    ensures c.Some? ==> c.value.transactionId == t.id && c.value.documentId == d.id && c.value.dateGapDays <= 10
  {
    var facts := d.facts.value;
    var amount := ExactAmountMatch(r, t, facts);
    var left, right := TransactionDays(r, t), DocumentDays(r, facts);
    if r.vendor(t.counterparty) == "" || !DirectionMatches(r, t, facts) || r.vendor(facts.counterparty) != r.vendor(t.counterparty)
       || amount.None? || Gap(left, right).None? || Gap(left, right).value > 10
    then None
    else Some(Pair(t.id, d.id, Gap(left, right).value, amount.value.0, amount.value.1))
  }

  // ---------------------------------------------------------------- all of them

  function LinkedTransactions(links: seq<Link>): set<string> {
    set i | 0 <= i < |links| && links[i].coverageType == "evidence" && links[i].transactionId != "" :: links[i].transactionId
  }

  function LinkedDocuments(links: seq<Link>): set<string> {
    set i | 0 <= i < |links| && links[i].coverageType == "evidence" && links[i].documentId != "" :: links[i].documentId
  }

  function OpenOnes(ts: seq<Transaction>, linked: set<string>): seq<Transaction> {
    if ts == [] then []
    else OpenOnes(ts[..|ts| - 1], linked) + (if Open(ts[|ts| - 1], linked) then [ts[|ts| - 1]] else [])
  }

  function UsableOnes(ds: seq<Document>, linked: set<string>): (u: seq<Document>)
    ensures forall i :: 0 <= i < |u| ==> Usable(u[i], linked)
  {
    if ds == [] then []
    else UsableOnes(ds[..|ds| - 1], linked) + (if Usable(ds[|ds| - 1], linked) then [ds[|ds| - 1]] else [])
  }

  ghost predicate HaveFacts(ds: seq<Document>) {
    forall i :: 0 <= i < |ds| ==> ds[i].facts.Some?
  }

  function CandidatesOf(r: Readings, t: Transaction, ds: seq<Document>): seq<Pair>
    requires HaveFacts(ds)
  {
    if ds == [] then []
    else
      var c := Candidate(r, t, ds[|ds| - 1]);
      CandidatesOf(r, t, ds[..|ds| - 1]) + (if c.Some? then [c.value] else [])
  }

  function Candidates(r: Readings, ts: seq<Transaction>, ds: seq<Document>): seq<Pair>
    requires HaveFacts(ds)
  {
    if ts == [] then [] else Candidates(r, ts[..|ts| - 1], ds) + CandidatesOf(r, ts[|ts| - 1], ds)
  }

  function TransactionKey(p: Pair): string {
    p.transactionId
  }

  function DocumentKey(p: Pair): string {
    p.documentId
  }

  /** Candidate c is closer than every other candidate of its group. */
  predicate Closest(candidates: seq<Pair>, key: Pair -> string, c: nat)
    requires c < |candidates|
  {
    forall d :: 0 <= d < |candidates| && d != c && key(candidates[d]) == key(candidates[c]) ==>
      candidates[c].dateGapDays < candidates[d].dateGapDays
  }

  predicate Mutual(candidates: seq<Pair>, c: nat)
    requires c < |candidates|
  {
    Closest(candidates, TransactionKey, c) && Closest(candidates, DocumentKey, c)
  }

  /** The mutually closest among the first n candidates. */
  function Kept(candidates: seq<Pair>, n: nat): seq<Pair>
    requires n <= |candidates|
  {
    if n == 0 then []
    else Kept(candidates, n - 1) + (if Mutual(candidates, n - 1) then [candidates[n - 1]] else [])
  }

  function Insert(r: Readings, s: seq<Pair>, p: Pair): seq<Pair> {
    if s == [] || r.precedes(s[|s| - 1].transactionId, p.transactionId) then s + [p]
    else Insert(r, s[..|s| - 1], p) + [s[|s| - 1]]
  }

  /** `sort` by transaction id, stable. */
  function SortById(r: Readings, s: seq<Pair>): seq<Pair> {
    if s == [] then [] else Insert(r, SortById(r, s[..|s| - 1]), s[|s| - 1])
  }

  /** The plan for some transactions, documents and links. */
  function Plan(r: Readings, ts: seq<Transaction>, ds: seq<Document>, links: seq<Link>): seq<Pair> {
    var usable := UsableOnes(ds, LinkedDocuments(links));
    var candidates := Candidates(r, OpenOnes(ts, LinkedTransactions(links)), usable);
    SortById(r, Kept(candidates, |candidates|))
  }

  // ---------------------------------------------------------------- the loops

  /** The indices below n of the candidates in one group. */
  function Group(candidates: seq<Pair>, key: Pair -> string, k: string, n: nat): seq<nat>
    requires n <= |candidates|
  {
    if n == 0 then []
    else Group(candidates, key, k, n - 1) + (if key(candidates[n - 1]) == k then [n - 1] else [])
  }

  lemma {:induction false} GroupMembers(candidates: seq<Pair>, key: Pair -> string, k: string, n: nat)
    requires n <= |candidates|
    ensures forall c: nat :: c in Group(candidates, key, k, n) <==> c < n && key(candidates[c]) == k
    ensures NoDuplicates(Group(candidates, key, k, n))
  {
    if n > 0 {
      GroupMembers(candidates, key, k, n - 1);
      assert NoDuplicates([n - 1]);
    }
  }

  /** The map has the non-empty group of k, as far as the first n candidates go. */
  predicate HasGroup(candidates: seq<Pair>, key: Pair -> string, grouped: map<string, seq<nat>>, k: string, n: nat)
    requires n <= |candidates|
  {
    if k in grouped then grouped[k] == Group(candidates, key, k, n) != [] else Group(candidates, key, k, n) == []
  }

  method GroupBy(candidates: seq<Pair>, key: Pair -> string) returns (grouped: map<string, seq<nat>>)
    ensures forall k :: HasGroup(candidates, key, grouped, k, |candidates|)
  {
    grouped := map[];
    for c := 0 to |candidates|
      invariant forall k :: HasGroup(candidates, key, grouped, k, c)
    {
      hide HasGroup, Group;
      var k := key(candidates[c]);
      ghost var before := grouped;
      grouped := grouped[k := (if k in grouped then grouped[k] else []) + [c]];
      GroupsNext(candidates, key, before, grouped, c, c + 1);
    }
  }

  lemma {:induction false} GroupsNext(candidates: seq<Pair>, key: Pair -> string, grouped: map<string, seq<nat>>, after: map<string, seq<nat>>, c: nat, n: nat)
    requires c < |candidates| && n == c + 1 && forall other :: HasGroup(candidates, key, grouped, other, c)
    requires var k := key(candidates[c]); after == grouped[k := (if k in grouped then grouped[k] else []) + [c]]
    ensures forall other :: HasGroup(candidates, key, after, other, n)
  {
    hide HasGroup, Group;
    forall other ensures HasGroup(candidates, key, after, other, n) {
      GroupNext(candidates, key, grouped, other, c);
    }
  }

  lemma {:induction false} GroupNext(candidates: seq<Pair>, key: Pair -> string, grouped: map<string, seq<nat>>, other: string, c: nat)
    requires c < |candidates| && HasGroup(candidates, key, grouped, other, c)
    ensures var k := key(candidates[c]);
            HasGroup(candidates, key, grouped[k := (if k in grouped then grouped[k] else []) + [c]], other, c + 1)
  {
    assert Group(candidates, key, other, c) + [] == Group(candidates, key, other, c);
    assert [] + [c] == [c];
  }

  predicate InRange(candidates: seq<Pair>, members: seq<nat>) {
    forall i :: 0 <= i < |members| ==> members[i] < |candidates|
  }

  function Least(candidates: seq<Pair>, members: seq<nat>): Option<nat>
    requires InRange(candidates, members)
  {
    if members == [] then None
    else Min(Least(candidates, members[..|members| - 1]), Some(candidates[members[|members| - 1]].dateGapDays))
  }

  function Tied(candidates: seq<Pair>, members: seq<nat>, least: Option<nat>): seq<nat>
    requires InRange(candidates, members)
  {
    if members == [] then []
    else
      var last := members[|members| - 1];
      Tied(candidates, members[..|members| - 1], least) + (if Some(candidates[last].dateGapDays) == least then [last] else [])
  }

  /** The one member with the least gap, if there is just one. */
  method ClosestOf(candidates: seq<Pair>, members: seq<nat>) returns (winner: Option<nat>)
    requires InRange(candidates, members) && NoDuplicates(members)
    ensures forall c: nat :: winner == Some(c) <==> IsWinner(candidates, members, c)
  {
    var closest: Option<nat> := None;
    for i := 0 to |members|
      invariant closest == Least(candidates, members[..i])
    {
      assert members[..i + 1][..i] == members[..i];
      closest := Min(closest, Some(candidates[members[i]].dateGapDays));
    }
    var tied: seq<nat> := [];
    for i := 0 to |members|
      invariant tied == Tied(candidates, members[..i], closest)
    {
      assert members[..i + 1][..i] == members[..i];
      if Some(candidates[members[i]].dateGapDays) == closest { tied := tied + [members[i]]; }
    }
    assert members[..|members|] == members;
    WinnerExactly(candidates, members);
    winner := if |tied| == 1 then Some(tied[0]) else None;
  }

  predicate IsWinner(candidates: seq<Pair>, members: seq<nat>, c: nat)
    requires InRange(candidates, members)
  {
    c in members
    && forall i :: 0 <= i < |members| && members[i] != c ==> c < |candidates| && candidates[c].dateGapDays < candidates[members[i]].dateGapDays
  }

  lemma {:induction false} LeastIsLeast(candidates: seq<Pair>, members: seq<nat>)
    requires InRange(candidates, members)
    ensures Least(candidates, members).None? <==> members == []
    ensures members != [] ==> exists i :: 0 <= i < |members| && Least(candidates, members) == Some(candidates[members[i]].dateGapDays)
    ensures forall i :: 0 <= i < |members| ==> Least(candidates, members).Some? && Least(candidates, members).value <= candidates[members[i]].dateGapDays
  {
    if members != [] {
      var front := members[..|members| - 1];
      LeastIsLeast(candidates, front);
      if front != [] && Least(candidates, members) == Least(candidates, front) {
        var i :| 0 <= i < |front| && Least(candidates, front) == Some(candidates[front[i]].dateGapDays);
        assert Least(candidates, members) == Some(candidates[members[i]].dateGapDays);
      } else {
        assert Least(candidates, members) == Some(candidates[members[|members| - 1]].dateGapDays);
      }
      forall i | 0 <= i < |members| ensures Least(candidates, members).value <= candidates[members[i]].dateGapDays {
        if i < |front| { assert front[i] == members[i]; }
      }
    }
  }

  lemma {:induction false} TiedMembers(candidates: seq<Pair>, members: seq<nat>, least: Option<nat>)
    requires InRange(candidates, members) && NoDuplicates(members)
    ensures forall c: nat :: c in Tied(candidates, members, least) <==> c in members && c < |candidates| && Some(candidates[c].dateGapDays) == least
    ensures NoDuplicates(Tied(candidates, members, least))
  {
    if members != [] {
      var front := members[..|members| - 1];
      TiedMembers(candidates, front, least);
      assert members == front + [members[|members| - 1]];
      assert members[|members| - 1] !in front;
    }
  }

  lemma {:induction false} WinnerExactly(candidates: seq<Pair>, members: seq<nat>)
    requires InRange(candidates, members) && NoDuplicates(members)
    ensures var tied := Tied(candidates, members, Least(candidates, members));
            forall c: nat :: (|tied| == 1 && tied[0] == c) <==> IsWinner(candidates, members, c)
  {
    var least := Least(candidates, members);
    var tied := Tied(candidates, members, least);
    LeastIsLeast(candidates, members);
    TiedMembers(candidates, members, least);
    forall c: nat ensures (|tied| == 1 && tied[0] == c) <==> IsWinner(candidates, members, c) {
      if |tied| == 1 && tied[0] == c {
        forall i | 0 <= i < |members| && members[i] != c
          ensures c < |candidates| && candidates[c].dateGapDays < candidates[members[i]].dateGapDays
        {
          assert c in tied && members[i] !in tied;
        }
      }
      if IsWinner(candidates, members, c) {
        WinnerIsTied(candidates, members, tied, c);
      }
    }
  }

  lemma {:induction false} WinnerIsTied(candidates: seq<Pair>, members: seq<nat>, tied: seq<nat>, c: nat)
    requires InRange(candidates, members) && IsWinner(candidates, members, c) && NoDuplicates(tied)
    requires members != [] ==> exists i :: 0 <= i < |members| && Least(candidates, members) == Some(candidates[members[i]].dateGapDays)
    requires forall i :: 0 <= i < |members| ==> Least(candidates, members).Some? && Least(candidates, members).value <= candidates[members[i]].dateGapDays
    requires forall x :: x in tied <==> x in members && x < |candidates| && Some(candidates[x].dateGapDays) == Least(candidates, members)
    ensures |tied| == 1 && tied[0] == c
  {
    var i :| 0 <= i < |members| && Least(candidates, members) == Some(candidates[members[i]].dateGapDays);
    var j :| 0 <= j < |members| && members[j] == c;
    assert candidates[members[i]].dateGapDays <= candidates[members[j]].dateGapDays;
    assert members[i] == c;
    assert c in tied && (|tied| > 1 ==> tied[0] != tied[1]);
    forall k | 0 <= k < |tied| ensures tied[k] == c {
      assert tied[k] in members;
    }
  }

  /** best has, for group k, exactly the index of its closest candidate. */
  ghost predicate Settled(candidates: seq<Pair>, key: Pair -> string, best: map<string, nat>, k: string) {
    forall c: nat :: k in best && best[k] == c <==> c < |candidates| && key(candidates[c]) == k && Closest(candidates, key, c)
  }

  /** Per group, the index of its one closest candidate. */
  method UniqueClosestBy(candidates: seq<Pair>, key: Pair -> string) returns (best: map<string, nat>)
    ensures forall k :: Settled(candidates, key, best, k)
  {
    hide Settled, Closest, Group;
    var grouped := GroupBy(candidates, key);
    best := map[];
    var keys := grouped.Keys;
    while keys != {}
      invariant keys <= grouped.Keys && best.Keys <= grouped.Keys - keys
      invariant forall k :: k in grouped.Keys - keys ==> Settled(candidates, key, best, k)
      decreases |keys|
    {
      var k :| k in keys;
      assert HasGroup(candidates, key, grouped, k, |candidates|);
      var winner := GroupWinner(candidates, key, k, grouped[k]);
      ghost var before := best;
      if winner.Some? { best := best[k := winner.value]; }
      SettledNext(candidates, key, before, k, winner);
      ghost var rest := keys;
      keys := keys - {k};
      forall other | other in grouped.Keys - keys ensures Settled(candidates, key, best, other) {
        if other != k { assert other in grouped.Keys - rest && Settled(candidates, key, before, other); }
      }
    }
    forall k ensures Settled(candidates, key, best, k) {
      assert HasGroup(candidates, key, grouped, k, |candidates|);
      if k !in grouped { NobodySettles(candidates, key, best, k); }
    }
  }

  lemma {:induction false} NobodySettles(candidates: seq<Pair>, key: Pair -> string, best: map<string, nat>, k: string)
    requires k !in best && Group(candidates, key, k, |candidates|) == []
    ensures Settled(candidates, key, best, k)
  {
    GroupMembers(candidates, key, k, |candidates|);
    hide Closest, Group;
  }

  lemma {:induction false} SettledNext(candidates: seq<Pair>, key: Pair -> string, best: map<string, nat>, k: string, winner: Option<nat>)
    requires k !in best
    requires forall c: nat :: winner == Some(c) <==> c < |candidates| && key(candidates[c]) == k && Closest(candidates, key, c)
    ensures var next := if winner.Some? then best[k := winner.value] else best;
            Settled(candidates, key, next, k)
            && forall other :: other != k && Settled(candidates, key, best, other) ==> Settled(candidates, key, next, other)
  {
    hide Closest;
  }

  method GroupWinner(candidates: seq<Pair>, key: Pair -> string, k: string, members: seq<nat>) returns (winner: Option<nat>)
    requires members == Group(candidates, key, k, |candidates|)
    ensures forall c: nat :: winner == Some(c) <==> c < |candidates| && key(candidates[c]) == k && Closest(candidates, key, c)
  {
    hide Closest, IsWinner;
    GroupMembers(candidates, key, k, |candidates|);
    GroupInRange(candidates, key, k);
    winner := ClosestOf(candidates, members);
    forall c: nat ensures winner == Some(c) <==> c < |candidates| && key(candidates[c]) == k && Closest(candidates, key, c) {
      WinnerIsClosest(candidates, key, k, c);
    }
  }

  lemma {:induction false} GroupInRange(candidates: seq<Pair>, key: Pair -> string, k: string)
    ensures InRange(candidates, Group(candidates, key, k, |candidates|))
  {
    GroupMembers(candidates, key, k, |candidates|);
    var members := Group(candidates, key, k, |candidates|);
    assert forall i :: 0 <= i < |members| ==> members[i] in members;
  }

  /** Winning one's group means being strictly closer than every other candidate with the same key. */
  lemma {:induction false} WinnerIsClosest(candidates: seq<Pair>, key: Pair -> string, k: string, c: nat)
    requires InRange(candidates, Group(candidates, key, k, |candidates|))
    ensures IsWinner(candidates, Group(candidates, key, k, |candidates|), c) <==>
              c < |candidates| && key(candidates[c]) == k && Closest(candidates, key, c)
  {
    var members := Group(candidates, key, k, |candidates|);
    GroupMembers(candidates, key, k, |candidates|);
    hide Group;
    if IsWinner(candidates, members, c) {
      forall d | 0 <= d < |candidates| && d != c && key(candidates[d]) == key(candidates[c])
        ensures candidates[c].dateGapDays < candidates[d].dateGapDays
      {
        assert d in members;
      }
    }
    if c < |candidates| && key(candidates[c]) == k && Closest(candidates, key, c) {
      assert c in members;
      forall i | 0 <= i < |members| && members[i] != c ensures candidates[c].dateGapDays < candidates[members[i]].dateGapDays {
        assert members[i] in members;
      }
    }
  }

  /** The evidence that can be attached without a person: the mutually unique closest pairs, by transaction id. */
  method PlanEvidenceAutoMatches(r: Readings, transactions: seq<Transaction>, documents: seq<Document>, links: seq<Link>)
      returns (plan: seq<Pair>)
    ensures plan == Plan(r, transactions, documents, links)
  {
    var linkedTransactions, linkedDocuments := LinkedTransactions(links), LinkedDocuments(links);
    var eligibleTransactions := OpenOnes(transactions, linkedTransactions);
    var eligibleDocuments := UsableOnes(documents, linkedDocuments);
    var candidates := CollectCandidates(r, eligibleTransactions, eligibleDocuments);
    var kept := KeepMutual(candidates);
    plan := SortById(r, kept);
  }

  /** `candidates.filter(...)`: those that are the closest of both their groups. */
  method KeepMutual(candidates: seq<Pair>) returns (kept: seq<Pair>)
    ensures kept == Kept(candidates, |candidates|)
  {
    hide Closest, Settled;
    var closestTransaction := UniqueClosestBy(candidates, TransactionKey);
    var closestDocument := UniqueClosestBy(candidates, DocumentKey);
    kept := [];
    for c := 0 to |candidates|
      invariant kept == Kept(candidates, c)
    {
      var p := candidates[c];
      SettledAt(candidates, TransactionKey, closestTransaction, c);
      SettledAt(candidates, DocumentKey, closestDocument, c);
      if p.transactionId in closestTransaction && closestTransaction[p.transactionId] == c
         && p.documentId in closestDocument && closestDocument[p.documentId] == c
      {
        kept := kept + [p];
      }
    }
  }

  lemma {:induction false} SettledAt(candidates: seq<Pair>, key: Pair -> string, best: map<string, nat>, c: nat)
    requires c < |candidates| && Settled(candidates, key, best, key(candidates[c]))
    ensures key(candidates[c]) in best && best[key(candidates[c])] == c <==> Closest(candidates, key, c)
  {
    hide Closest;
  }

  method CollectCandidates(r: Readings, transactions: seq<Transaction>, documents: seq<Document>) returns (candidates: seq<Pair>)
    requires HaveFacts(documents)
    ensures candidates == Candidates(r, transactions, documents)
  {
    candidates := [];
    for i := 0 to |transactions|
      invariant candidates == Candidates(r, transactions[..i], documents)
    {
      var t := transactions[i];
      var vendor := r.vendor(t.counterparty);
      assert transactions[..i + 1][..i] == transactions[..i];
      var row: seq<Pair> := [];
      for j := 0 to |documents|
        invariant row == CandidatesOf(r, t, documents[..j])
      {
        hide DirectionMatches, ExactAmountMatch, Days;
        assert documents[..j + 1][..j] == documents[..j];
        var facts := documents[j].facts.value;
        if vendor == "" || !DirectionMatches(r, t, facts) || r.vendor(facts.counterparty) != vendor { continue; }
        var amount := ExactAmountMatch(r, t, facts);
        if amount.None? { continue; }
        var left, right := TransactionDays(r, t), DocumentDays(r, facts);
        var gap := DateGap(left, right);
        if gap.None? || gap.value > 10 { continue; }
        row := row + [Pair(t.id, documents[j].id, gap.value, amount.value.0, amount.value.1)];
      }
      assert documents[..|documents|] == documents;
      candidates := candidates + row;
    }
    assert transactions[..|transactions|] == transactions;
  }
}
