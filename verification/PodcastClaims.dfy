// Register rows claim website episodes: twin rows are dropped, and each episode goes to its closest row
// (`mergeSources` in backend/scripts/import-podcast-episodes.ts).
module PodcastClaims {
  import opened Wrappers

  /** A row of the episode register. Dates are day numbers, which order ISO dates as their text does; an
      empty title is a missing one. */
  datatype Row = Row(day: int, guests: seq<string>, title: string, season: Option<int>, episode: Option<int>)

  datatype Site = Site(
    slug: string, season: Option<int>, episode: Option<int>, guests: seq<string>, releaseDay: Option<int>,
    title: string, short: string)

  /** The guest-name key with its spelling variants folded, and the normalized form of a title. */
  datatype Readings = Readings(nameKey: string -> string, normalized: string -> string)

  function Days(a: int, b: int): nat {
    if a < b then b - a else a - b
  }

  predicate SameGuest(r: Readings, left: seq<string>, right: seq<string>) {
    exists i, j :: 0 <= i < |left| && 0 <= j < |right| && r.nameKey(left[i]) == r.nameKey(right[j])
  }

  /** Two rows for one recording. */
  predicate Twins(r: Readings, a: Row, b: Row) {
    SameGuest(r, a.guests, b.guests) && Days(a.day, b.day) <= 21
  }

  predicate SameTitle(r: Readings, site: Site, title: string) {
    title != ""
    && ((site.title != "" && r.normalized(site.title) == r.normalized(title))
        || (site.short != "" && r.normalized(site.short) == r.normalized(title)))
  }

  // ---------------------------------------------------------------- twin removal

  /** The titled rows, then the others, each in their order: a stable sort on having a title. */
  function TitledFirst(rows: seq<Row>): seq<Row> {
    Having(rows, true) + Having(rows, false)
  }

  function Having(rows: seq<Row>, titled: bool): (h: seq<Row>)
    ensures forall i :: 0 <= i < |h| ==> (h[i].title != "") == titled
  {
    if rows == [] then []
    else
      var last := rows[|rows| - 1];
      Having(rows[..|rows| - 1], titled) + (if (last.title != "") == titled then [last] else [])
  }

  lemma {:induction false} HavingMembers(rows: seq<Row>)
    ensures forall row :: row in Having(rows, true) || row in Having(rows, false) <==> row in rows
    ensures |Having(rows, true)| + |Having(rows, false)| == |rows|
  {
    if rows != [] {
      var front, last := rows[..|rows| - 1], rows[|rows| - 1];
      HavingMembers(front);
      assert rows == front + [last];
    }
  }

  predicate HasTwin(r: Readings, rows: seq<Row>, row: Row) {
    exists i :: 0 <= i < |rows| && Twins(r, rows[i], row)
  }

  ghost predicate NoTwins(r: Readings, rows: seq<Row>) {
    forall i, j :: 0 <= i < j < |rows| ==> !Twins(r, rows[i], rows[j])
  }

  /** Keeps a row unless a row kept before it is its twin; titled rows come first. What is kept is pairwise
      not twins, every dropped row has a kept twin, and a dropped titled row has a titled one. */
  method DropTwins(r: Readings, rows: seq<Row>) returns (kept: seq<Row>, duplicates: nat)
    ensures NoTwins(r, kept) && |kept| + duplicates == |rows|
    ensures forall row :: row in kept ==> row in rows
    ensures forall row :: row in rows ==> row in kept || HasTwin(r, kept, row)
    ensures forall row :: row in rows && row.title != "" ==> row in kept || HasTwin(r, Having(kept, true), row)
  {
    var ordered := TitledFirst(rows);
    HavingMembers(rows);
    kept, duplicates := [], 0;
    for i := 0 to |ordered|
      invariant NoTwins(r, kept) && |kept| + duplicates == i
      invariant forall row :: row in kept ==> row in ordered
      invariant forall j :: 0 <= j < i ==> ordered[j] in kept || HasTwin(r, kept, ordered[j])
      invariant forall j :: 0 <= j < i && ordered[j].title != "" ==> ordered[j] in kept || HasTwin(r, Having(kept, true), ordered[j])
      invariant i <= |Having(rows, true)| ==> forall row :: row in kept ==> row.title != ""
    {
      hide Twins, Having;
      var row := ordered[i];
      var twin := FindTwin(r, kept, row);
      TitledSoFar(rows, kept, i);
      if twin {
        duplicates := duplicates + 1;
      } else {
        TwinsGrow(r, kept, row, ordered, i);
        kept := kept + [row];
      }
    }
    forall row | row in rows
      ensures row in kept || HasTwin(r, kept, row)
      ensures row.title != "" ==> row in kept || HasTwin(r, Having(kept, true), row)
    {
      assert row in ordered;
      var j :| 0 <= j < |ordered| && ordered[j] == row;
    }
  }

  /** `kept.find(...)` */
  method FindTwin(r: Readings, kept: seq<Row>, row: Row) returns (found: bool)
    ensures found <==> HasTwin(r, kept, row)
  {
    hide Twins;
    for i := 0 to |kept|
      invariant forall j :: 0 <= j < i ==> !Twins(r, kept[j], row)
    {
      if Twins(r, kept[i], row) { return true; }
    }
    return false;
  }

  /** While the titled rows are being read, everything kept is titled. */
  lemma {:induction false} TitledSoFar(rows: seq<Row>, kept: seq<Row>, i: nat)
    requires i < |TitledFirst(rows)|
    requires i <= |Having(rows, true)| ==> forall row :: row in kept ==> row.title != ""
    ensures i < |Having(rows, true)| ==> TitledFirst(rows)[i].title != "" && Having(kept, true) == kept
    ensures i >= |Having(rows, true)| ==> TitledFirst(rows)[i].title == ""
  {
    if i < |Having(rows, true)| {
      HavingAll(kept);
    } else {
      assert TitledFirst(rows)[i] == Having(rows, false)[i - |Having(rows, true)|];
    }
  }

  lemma {:induction false} HavingAll(rows: seq<Row>)
    requires forall row :: row in rows ==> row.title != ""
    ensures Having(rows, true) == rows
  {
    if rows != [] {
      var front := rows[..|rows| - 1];
      assert forall row :: row in front ==> row in rows;
      HavingAll(front);
      assert rows[|rows| - 1] in rows;
    }
  }

  lemma {:induction false} TwinsGrow(r: Readings, kept: seq<Row>, row: Row, ordered: seq<Row>, i: nat)
    requires i <= |ordered|
    requires forall j :: 0 <= j < i ==> ordered[j] in kept || HasTwin(r, kept, ordered[j])
    requires forall j :: 0 <= j < i && ordered[j].title != "" ==> ordered[j] in kept || HasTwin(r, Having(kept, true), ordered[j])
    ensures forall j :: 0 <= j < i ==> ordered[j] in kept + [row] || HasTwin(r, kept + [row], ordered[j])
    ensures forall j :: 0 <= j < i && ordered[j].title != "" ==>
              ordered[j] in kept + [row] || HasTwin(r, Having(kept + [row], true), ordered[j])
  {
    hide Twins;
    var more := if row.title != "" then [row] else [];
    assert (kept + [row])[..|kept + [row]| - 1] == kept;
    assert Having(kept + [row], true) == Having(kept, true) + more;
    hide Having;
    forall j | 0 <= j < i && HasTwin(r, kept, ordered[j]) ensures HasTwin(r, kept + [row], ordered[j]) {
      var k :| 0 <= k < |kept| && Twins(r, kept[k], ordered[j]);
      assert (kept + [row])[k] == kept[k];
    }
    forall j | 0 <= j < i && HasTwin(r, Having(kept, true), ordered[j]) ensures HasTwin(r, Having(kept, true) + more, ordered[j]) {
      var k :| 0 <= k < |Having(kept, true)| && Twins(r, Having(kept, true)[k], ordered[j]);
      assert (Having(kept, true) + more)[k] == Having(kept, true)[k];
    }
  }

  // ---------------------------------------------------------------- which episode a row prefers

  predicate SameNumber(site: Site, row: Row) {
    row.season.Some? && row.episode.Some? && site.season == row.season && site.episode == row.episode
  }

  /** The sites with the row's number. */
  function Numbered(sites: seq<Site>, row: Row): (n: seq<nat>)
    ensures forall i :: 0 <= i < |n| ==> n[i] < |sites|
  {
    if sites == [] then []
    else Numbered(sites[..|sites| - 1], row) + (if SameNumber(sites[|sites| - 1], row) then [|sites| - 1] else [])
  }

  predicate Similar(r: Readings, site: Site, row: Row) {
    SameGuest(r, site.guests, row.guests)
    && if site.releaseDay.Some? then Days(site.releaseDay.value, row.day) <= 60 else SameTitle(r, site, row.title)
  }

  /** Whether a site is a candidate for the row: the one with its number, else every similar one. */
  predicate IsCandidate(r: Readings, sites: seq<Site>, row: Row, i: nat)
    requires i < |sites|
  {
    if |Numbered(sites, row)| == 1 then i == Numbered(sites, row)[0] else Similar(r, sites[i], row)
  }

  function Gap(sites: seq<Site>, row: Row, i: nat): nat
    requires i < |sites|
  {
    if |Numbered(sites, row)| == 1 || sites[i].releaseDay.None? then 0 else Days(sites[i].releaseDay.value, row.day)
  }

  /** The first of the closest candidates among the first n sites. */
  function Preferred(r: Readings, sites: seq<Site>, row: Row, n: nat): (p: Option<nat>)
    requires n <= |sites|
    ensures p.Some? ==> p.value < n
  {
    if n == 0 then None
    else
      var before := Preferred(r, sites, row, n - 1);
      if IsCandidate(r, sites, row, n - 1) && (before.None? || Gap(sites, row, n - 1) < Gap(sites, row, before.value)) then Some(n - 1)
      else before
  }

  /** It is a candidate, no candidate is closer, and the candidates before it are farther. */
  lemma {:induction false} PreferredIsFirstClosest(r: Readings, sites: seq<Site>, row: Row, n: nat, i: nat)
    requires n <= |sites| && i < n && IsCandidate(r, sites, row, i)
    ensures var p := Preferred(r, sites, row, n);
            p.Some? && IsCandidate(r, sites, row, p.value)
            && (Gap(sites, row, p.value) < Gap(sites, row, i) || (Gap(sites, row, p.value) == Gap(sites, row, i) && p.value <= i))
  {
    hide IsCandidate, Gap;
    if i < n - 1 {
      PreferredIsFirstClosest(r, sites, row, n - 1, i);
    } else if Preferred(r, sites, row, n - 1).Some? {
      PreferredIsCandidate(r, sites, row, n - 1);
    }
  }

  lemma {:induction false} PreferredIsCandidate(r: Readings, sites: seq<Site>, row: Row, n: nat)
    requires n <= |sites| && Preferred(r, sites, row, n).Some?
    ensures IsCandidate(r, sites, row, Preferred(r, sites, row, n).value)
  {
    hide IsCandidate, Gap;
    if !(IsCandidate(r, sites, row, n - 1) && Preferred(r, sites, row, n) == Some(n - 1)) {
      PreferredIsCandidate(r, sites, row, n - 1);
    }
  }

  function Best(r: Readings, sites: seq<Site>, row: Row): (best: Option<nat>)
    ensures best.Some? ==> best.value < |sites|
  {
    Preferred(r, sites, row, |sites|)
  }

  // ---------------------------------------------------------------- claims

  datatype Claim = Claim(days: nat, row: nat)

  /** Row i prefers the episode with this slug. */
  predicate Prefers(r: Readings, sites: seq<Site>, rows: seq<Row>, i: nat, slug: string)
    requires i < |rows|
  {
    Best(r, sites, rows[i]).Some? && sites[Best(r, sites, rows[i]).value].slug == slug
  }

  function GapOf(r: Readings, sites: seq<Site>, rows: seq<Row>, i: nat): nat
    requires i < |rows|
  {
    var best := Best(r, sites, rows[i]);
    if best.Some? then Gap(sites, rows[i], best.value) else 0
  }

  /** Among the first n rows, this one prefers the episode, is closest to it, and is the earliest such. */
  ghost predicate Wins(r: Readings, sites: seq<Site>, rows: seq<Row>, n: nat, slug: string, claim: Claim)
    requires n <= |rows|
  {
    claim.row < n && Prefers(r, sites, rows, claim.row, slug) && claim.days == GapOf(r, sites, rows, claim.row)
    && forall i :: 0 <= i < n && Prefers(r, sites, rows, i, slug) ==>
         claim.days < GapOf(r, sites, rows, i) || (claim.days == GapOf(r, sites, rows, i) && claim.row <= i)
  }

  /** What has become of the first n rows. */
  ghost predicate Settled(r: Readings, sites: seq<Site>, rows: seq<Row>, n: nat, claimed: map<string, Claim>, unmatched: seq<nat>, ambiguous: seq<nat>)
    requires n <= |rows|
  {
    && (forall slug :: slug in claimed ==> Wins(r, sites, rows, n, slug, claimed[slug]))
    && (forall i, slug :: 0 <= i < n && Prefers(r, sites, rows, i, slug) ==> slug in claimed)
    && (forall i :: i in unmatched <==> 0 <= i < n && Best(r, sites, rows[i]).None?)
    && (forall i: nat :: i in ambiguous ==> i < n && Best(r, sites, rows[i]).Some?)
    && (forall i, slug :: 0 <= i < n && Prefers(r, sites, rows, i, slug) && slug in claimed ==>
          (i in ambiguous <==> claimed[slug].row != i))
    && |unmatched| + |ambiguous| + |claimed| == n
  }

  /** Each row, in order, claims the episode it prefers from a strictly farther claimant. Every row ends
      unmatched, claiming or ambiguous, exactly one of them, and each claimed episode holds the earliest of
      the closest rows that preferred it. */
  method ClaimEpisodes(r: Readings, sites: seq<Site>, rows: seq<Row>)
      returns (claimed: map<string, Claim>, unmatched: seq<nat>, ambiguous: seq<nat>)
    ensures Settled(r, sites, rows, |rows|, claimed, unmatched, ambiguous)
  {
    hide Settled, Best, Gap;
    claimed, unmatched, ambiguous := map[], [], [];
    NothingSettled(r, sites, rows);
    for i := 0 to |rows|
      invariant Settled(r, sites, rows, i, claimed, unmatched, ambiguous)
    {
      var best := Best(r, sites, rows[i]);
      if best.None? {
        UnmatchedNext(r, sites, rows, i, claimed, unmatched, ambiguous);
        unmatched := unmatched + [i];
        continue;
      }
      var slug, days := sites[best.value].slug, GapOf(r, sites, rows, i);
      if slug in claimed && claimed[slug].days <= days {
        LoserNext(r, sites, rows, i, slug, claimed, unmatched, ambiguous);
        ambiguous := ambiguous + [i];
        continue;
      }
      WinnerNext(r, sites, rows, i, slug, claimed, unmatched, ambiguous);
      if slug in claimed { ambiguous := ambiguous + [claimed[slug].row]; }
      claimed := claimed[slug := Claim(days, i)];
    }
  }

  lemma {:induction false} UnmatchedNext(r: Readings, sites: seq<Site>, rows: seq<Row>, i: nat, claimed: map<string, Claim>, unmatched: seq<nat>, ambiguous: seq<nat>)
    requires i < |rows| && Settled(r, sites, rows, i, claimed, unmatched, ambiguous) && Best(r, sites, rows[i]).None?
    ensures Settled(r, sites, rows, i + 1, claimed, unmatched + [i], ambiguous)
  {
    hide Best, GapOf;
  }

  lemma {:induction false} LoserNext(r: Readings, sites: seq<Site>, rows: seq<Row>, i: nat, slug: string, claimed: map<string, Claim>, unmatched: seq<nat>, ambiguous: seq<nat>)
    requires i < |rows| && Settled(r, sites, rows, i, claimed, unmatched, ambiguous) && Prefers(r, sites, rows, i, slug)
    requires slug in claimed && claimed[slug].days <= GapOf(r, sites, rows, i)
    ensures Settled(r, sites, rows, i + 1, claimed, unmatched, ambiguous + [i])
  {
    hide Best, GapOf;
    assert forall other :: Prefers(r, sites, rows, i, other) ==> other == slug;
  }

  lemma {:induction false} WinnerNext(r: Readings, sites: seq<Site>, rows: seq<Row>, i: nat, slug: string, claimed: map<string, Claim>, unmatched: seq<nat>, ambiguous: seq<nat>)
    requires i < |rows| && Settled(r, sites, rows, i, claimed, unmatched, ambiguous) && Prefers(r, sites, rows, i, slug)
    requires slug in claimed ==> GapOf(r, sites, rows, i) < claimed[slug].days
    ensures Settled(r, sites, rows, i + 1, claimed[slug := Claim(GapOf(r, sites, rows, i), i)], unmatched,
                    if slug in claimed then ambiguous + [claimed[slug].row] else ambiguous)
  {
    hide Best, GapOf, Wins;
    var next := claimed[slug := Claim(GapOf(r, sites, rows, i), i)];
    var left := if slug in claimed then ambiguous + [claimed[slug].row] else ambiguous;
    assert |next| == if slug in claimed then |claimed| else |claimed| + 1;
    PrefersOne(r, sites, rows, i, slug);
    forall other | other in next ensures Wins(r, sites, rows, i + 1, other, next[other]) {
      if other != slug { StillWins(r, sites, rows, i, slug, other, claimed[other]); }
      else { NowWins(r, sites, rows, i, slug, claimed); }
    }
    LeftBehind(r, sites, rows, i, slug, claimed, unmatched, ambiguous);
  }

  lemma {:induction false} PrefersOne(r: Readings, sites: seq<Site>, rows: seq<Row>, i: nat, slug: string)
    requires i < |rows| && Prefers(r, sites, rows, i, slug)
    ensures forall other :: Prefers(r, sites, rows, i, other) ==> other == slug
  {
    hide Best;
  }

  lemma {:induction false} StillWins(r: Readings, sites: seq<Site>, rows: seq<Row>, i: nat, slug: string, other: string, claim: Claim)
    requires i < |rows| && Wins(r, sites, rows, i, other, claim) && Prefers(r, sites, rows, i, slug) && other != slug
    ensures Wins(r, sites, rows, i + 1, other, claim)
  {
    hide Best, GapOf;
    PrefersOne(r, sites, rows, i, slug);
  }

  lemma {:induction false} NowWins(r: Readings, sites: seq<Site>, rows: seq<Row>, i: nat, slug: string, claimed: map<string, Claim>)
    requires i < |rows| && Prefers(r, sites, rows, i, slug)
    requires slug in claimed ==> Wins(r, sites, rows, i, slug, claimed[slug]) && GapOf(r, sites, rows, i) < claimed[slug].days
    requires forall j :: 0 <= j < i && Prefers(r, sites, rows, j, slug) ==> slug in claimed
    ensures Wins(r, sites, rows, i + 1, slug, Claim(GapOf(r, sites, rows, i), i))
  {
    hide Best, GapOf, Prefers;
  }

  /** Beaten rows are left behind, and only they. */
  lemma {:induction false} LeftBehind(r: Readings, sites: seq<Site>, rows: seq<Row>, i: nat, slug: string, claimed: map<string, Claim>, unmatched: seq<nat>, ambiguous: seq<nat>)
    requires i < |rows| && Settled(r, sites, rows, i, claimed, unmatched, ambiguous) && Prefers(r, sites, rows, i, slug)
    ensures var next := claimed[slug := Claim(GapOf(r, sites, rows, i), i)];
            var left := if slug in claimed then ambiguous + [claimed[slug].row] else ambiguous;
            (forall j, other :: 0 <= j < i + 1 && Prefers(r, sites, rows, j, other) && other in next ==>
               (j in left <==> next[other].row != j))
            && (forall j: nat :: j in left ==> j < i + 1 && Best(r, sites, rows[j]).Some?)
  {
    hide Best, GapOf;
    var next := claimed[slug := Claim(GapOf(r, sites, rows, i), i)];
    var left := if slug in claimed then ambiguous + [claimed[slug].row] else ambiguous;
    if slug in claimed { assert Wins(r, sites, rows, i, slug, claimed[slug]); }
    assert forall j: nat :: j in left <==> j in ambiguous || (slug in claimed && j == claimed[slug].row);
    hide Wins;
    PrefersOne(r, sites, rows, i, slug);
    forall j, other | 0 <= j < i + 1 && Prefers(r, sites, rows, j, other) && other in next
      ensures j in left <==> next[other].row != j
    {
      PrefersOne(r, sites, rows, j, other);
      if j == i {
        assert other == slug && i !in ambiguous;
      } else if other == slug {
        assert slug in claimed;
      } else {
        assert other in claimed && (j in ambiguous <==> claimed[other].row != j);
        if slug in claimed { PrefersOne(r, sites, rows, claimed[slug].row, slug); }
      }
    }
  }

  lemma {:induction false} NothingSettled(r: Readings, sites: seq<Site>, rows: seq<Row>)
    ensures Settled(r, sites, rows, 0, map[], [], [])
  {
  }

  // ---------------------------------------------------------------- the register as a whole

  function InsertByDay(rows: seq<Row>, row: Row): seq<Row> {
    if rows == [] || rows[|rows| - 1].day <= row.day then rows + [row]
    else InsertByDay(rows[..|rows| - 1], row) + [rows[|rows| - 1]]
  }

  /** `sort` by recording date, stable. */
  function SortByDay(rows: seq<Row>): seq<Row> {
    if rows == [] then [] else InsertByDay(SortByDay(rows[..|rows| - 1]), rows[|rows| - 1])
  }

  ghost predicate ByDay(rows: seq<Row>) {
    forall i, j :: 0 <= i < j < |rows| ==> rows[i].day <= rows[j].day
  }

  lemma {:induction false} InsertedMembers(rows: seq<Row>, row: Row)
    ensures multiset(InsertByDay(rows, row)) == multiset(rows) + multiset{row}
  {
    if !(rows == [] || rows[|rows| - 1].day <= row.day) {
      InsertedMembers(rows[..|rows| - 1], row);
      assert rows == rows[..|rows| - 1] + [rows[|rows| - 1]];
    }
  }

  lemma {:induction false} InsertedByDay(rows: seq<Row>, row: Row)
    requires ByDay(rows)
    ensures ByDay(InsertByDay(rows, row))
    ensures InsertByDay(rows, row)[|InsertByDay(rows, row)| - 1].day == if rows == [] || rows[|rows| - 1].day <= row.day then row.day else rows[|rows| - 1].day
  {
    if !(rows == [] || rows[|rows| - 1].day <= row.day) {
      var front, last := rows[..|rows| - 1], rows[|rows| - 1];
      InsertedByDay(front, row);
      var shorter := InsertByDay(front, row);
      forall i | 0 <= i < |shorter| ensures shorter[i].day <= last.day {
        assert shorter[i].day <= shorter[|shorter| - 1].day;
      }
    }
  }

  lemma {:induction false} SortedByDay(rows: seq<Row>)
    ensures ByDay(SortByDay(rows)) && multiset(SortByDay(rows)) == multiset(rows)
  {
    hide InsertByDay, ByDay;
    if rows == [] {
      NothingByDay();
    } else {
      var front, last := rows[..|rows| - 1], rows[|rows| - 1];
      SortedByDay(front);
      InsertedByDay(SortByDay(front), last);
      InsertedMembers(SortByDay(front), last);
      assert rows == front + [last];
    }
  }

  lemma {:induction false} NothingByDay()
    ensures ByDay([])
  {
  }

  /** The register rows against the website's episodes. Rows are conserved: each is a dropped duplicate,
      unmatched, ambiguous or claiming. A claiming row is the earliest recording among the closest. */
  method MatchRegister(r: Readings, sites: seq<Site>, extra: seq<Row>)
      returns (rows: seq<Row>, duplicates: nat, claimed: map<string, Claim>, unmatched: seq<nat>, ambiguous: seq<nat>)
    ensures |extra| == duplicates + |unmatched| + |ambiguous| + |claimed|
    ensures ByDay(rows) && forall row :: row in rows ==> row in extra
    ensures forall row :: row in extra ==> row in rows || HasTwin(r, rows, row)
    ensures Settled(r, sites, rows, |rows|, claimed, unmatched, ambiguous)
    ensures forall slug, i :: slug in claimed && 0 <= i < |rows| && Prefers(r, sites, rows, i, slug)
                              && GapOf(r, sites, rows, i) == claimed[slug].days ==>
              claimed[slug].row < |rows| && rows[claimed[slug].row].day <= rows[i].day
  {
    hide Best, Prefers, GapOf, Twins;
    var kept;
    kept, duplicates := DropTwins(r, extra);
    rows := SortByDay(kept);
    SortedByDay(kept);
    SameMembers(r, kept, rows);
    assert |rows| == |multiset(rows)| == |multiset(kept)| == |kept|;
    claimed, unmatched, ambiguous := ClaimEpisodes(r, sites, rows);
    forall slug, i | slug in claimed && 0 <= i < |rows| && Prefers(r, sites, rows, i, slug) && GapOf(r, sites, rows, i) == claimed[slug].days
      ensures claimed[slug].row < |rows| && rows[claimed[slug].row].day <= rows[i].day
    {
      assert Wins(r, sites, rows, |rows|, slug, claimed[slug]);
    }
  }

  lemma {:induction false} SameMembers(r: Readings, kept: seq<Row>, rows: seq<Row>)
    requires multiset(kept) == multiset(rows)
    ensures forall row :: row in kept <==> row in rows
    ensures forall row :: HasTwin(r, kept, row) ==> HasTwin(r, rows, row)
  {
    hide Twins;
    forall row ensures row in kept <==> row in rows {
      assert row in multiset(kept) <==> row in multiset(rows);
    }
    forall row | HasTwin(r, kept, row) ensures HasTwin(r, rows, row) {
      var i :| 0 <= i < |kept| && Twins(r, kept[i], row);
      assert kept[i] in kept && kept[i] in rows;
      var j :| 0 <= j < |rows| && rows[j] == kept[i];
    }
  }
}
