// Importing twice: once a conflict-free plan has been written, planning again finds every episode, and
// what it still wants to change, exactly.
module PodcastPlanAgain {
  import opened Wrappers
  import opened PodcastPlan

  ghost predicate DistinctIds(existing: seq<Episode>) {
    forall i, j :: 0 <= i < j < |existing| ==> existing[i].id != existing[j].id
  }

  // ---------------------------------------------------------------- what a conflict-free plan says

  function Match(r: Readings, desired: seq<Desired>, existing: seq<Episode>, i: nat): Option<nat>
    requires i < |desired|
  {
    FindExisting(r, desired[i], existing)
  }

  /** No two desired episodes found the same register episode. */
  ghost predicate Injective(r: Readings, desired: seq<Desired>, existing: seq<Episode>) {
    forall i, k :: 0 <= i < k < |desired| && Match(r, desired, existing, i).Some? ==>
      Match(r, desired, existing, i) != Match(r, desired, existing, k)
  }

  predicate Matched(r: Readings, desired: seq<Desired>, existing: seq<Episode>, id: string) {
    exists i :: 0 <= i < |desired| && Match(r, desired, existing, i).Some? && existing[Match(r, desired, existing, i).value].id == id
  }

  /** The desired episodes nothing in the register matches. */
  function Unfound(r: Readings, desired: seq<Desired>, existing: seq<Episode>): seq<Desired> {
    if desired == [] then []
    else
      Unfound(r, desired[..|desired| - 1], existing)
      + (if FindExisting(r, desired[|desired| - 1], existing).None? then [desired[|desired| - 1]] else [])
  }

  lemma {:induction false} ConflictsGrow(r: Readings, desired: seq<Desired>, existing: seq<Episode>)
    requires desired != []
    ensures ProgressOf(r, desired, existing).conflicts == [] ==>
              ProgressOf(r, desired[..|desired| - 1], existing).conflicts == []
  {
    hide FindExisting, ChangesFor;
  }

  lemma {:induction false} MatchedNext(r: Readings, desired: seq<Desired>, existing: seq<Episode>, id: string)
    requires desired != []
    ensures var found := FindExisting(r, desired[|desired| - 1], existing);
            Matched(r, desired, existing, id) <==>
              Matched(r, desired[..|desired| - 1], existing, id) || (found.Some? && existing[found.value].id == id)
  {
    hide FindExisting;
    var front, n := desired[..|desired| - 1], |desired| - 1;
    if i :| 0 <= i < n && Match(r, front, existing, i).Some? && existing[Match(r, front, existing, i).value].id == id {
      assert Match(r, desired, existing, i) == Match(r, front, existing, i);
    }
    if i :| 0 <= i < |desired| && Match(r, desired, existing, i).Some? && existing[Match(r, desired, existing, i).value].id == id {
      if i < n { assert Match(r, desired, existing, i) == Match(r, front, existing, i); }
    }
    var found := FindExisting(r, desired[n], existing);
    if found.Some? && existing[found.value].id == id { assert Match(r, desired, existing, n) == found; }
  }

  lemma {:induction false} UsedIds(r: Readings, desired: seq<Desired>, existing: seq<Episode>)
    requires ProgressOf(r, desired, existing).conflicts == []
    ensures forall id :: id in ProgressOf(r, desired, existing).used <==> Matched(r, desired, existing, id)
    ensures ProgressOf(r, desired, existing).creates == Unfound(r, desired, existing)
  {
    hide FindExisting, ChangesFor, Matched;
    if desired != [] {
      var front := desired[..|desired| - 1];
      ConflictsGrow(r, desired, existing);
      UsedIds(r, front, existing);
      assert Unfound(r, front, existing) + [] == Unfound(r, front, existing);
      forall id ensures id in ProgressOf(r, desired, existing).used <==> Matched(r, desired, existing, id) {
        MatchedNext(r, desired, existing, id);
      }
    } else {
      forall id ensures !Matched(r, [], existing, id) { NothingMatched(r, existing, id); }
    }
  }

  lemma {:induction false} NothingMatched(r: Readings, existing: seq<Episode>, id: string)
    ensures !Matched(r, [], existing, id)
  {
  }

  lemma {:induction false} MatchesDiffer(r: Readings, desired: seq<Desired>, existing: seq<Episode>)
    requires ProgressOf(r, desired, existing).conflicts == []
    ensures Injective(r, desired, existing)
  {
    hide FindExisting, ChangesFor;
    if desired != [] {
      var front, n := desired[..|desired| - 1], |desired| - 1;
      ConflictsGrow(r, desired, existing);
      MatchesDiffer(r, front, existing);
      UsedIds(r, front, existing);
      assert forall i :: 0 <= i < n ==> Match(r, desired, existing, i) == Match(r, front, existing, i);
      forall i | 0 <= i < n && Match(r, desired, existing, i).Some? && Match(r, desired, existing, n).Some?
        ensures Match(r, desired, existing, i) != Match(r, desired, existing, n)
      {
        assert Matched(r, front, existing, existing[Match(r, front, existing, i).value].id);
      }
    }
  }

  lemma {:induction false} UpdatesGrow(r: Readings, desired: seq<Desired>, existing: seq<Episode>, id: string)
    requires desired != [] && ProgressOf(r, desired, existing).conflicts == []
    ensures var before := ProgressOf(r, desired[..|desired| - 1], existing);
            var last, found := desired[|desired| - 1], FindExisting(r, desired[|desired| - 1], existing);
            ChangesIn(ProgressOf(r, desired, existing).updates, id) ==
              if found.Some? && existing[found.value].id == id && ChangesFor(last, existing[found.value]) != NoChanges() then
                Some(ChangesFor(last, existing[found.value]))
              else ChangesIn(before.updates, id)
    ensures var found := FindExisting(r, desired[|desired| - 1], existing);
            found.Some? ==> existing[found.value].id !in ProgressOf(r, desired[..|desired| - 1], existing).used
  {
    hide FindExisting, ChangesFor;
    var before, after := ProgressOf(r, desired[..|desired| - 1], existing).updates, ProgressOf(r, desired, existing).updates;
    assert after == before || (after == before + [after[|after| - 1]] && after[..|after| - 1] == before);
  }

  /** A conflict-free plan has no update for an episode nothing matched. */
  lemma {:induction false} UpdatesOnlyMatched(r: Readings, desired: seq<Desired>, existing: seq<Episode>, id: string)
    requires ProgressOf(r, desired, existing).conflicts == [] && !Matched(r, desired, existing, id)
    ensures ChangesIn(ProgressOf(r, desired, existing).updates, id) == None
  {
    hide FindExisting, ChangesFor, Matched;
    if desired != [] {
      ConflictsGrow(r, desired, existing);
      MatchedNext(r, desired, existing, id);
      UpdatesGrow(r, desired, existing, id);
      hide ProgressOf;
      UpdatesOnlyMatched(r, desired[..|desired| - 1], existing, id);
    }
  }

  /** For a matched episode it has exactly what changes, if anything does. */
  lemma {:induction false} UpdatesAre(r: Readings, desired: seq<Desired>, existing: seq<Episode>, i: nat)
    requires ProgressOf(r, desired, existing).conflicts == [] && i < |desired| && Match(r, desired, existing, i).Some?
    ensures var e := existing[Match(r, desired, existing, i).value];
            ChangesIn(ProgressOf(r, desired, existing).updates, e.id) ==
              if ChangesFor(desired[i], e) == NoChanges() then None else Some(ChangesFor(desired[i], e))
  {
    hide FindExisting, ChangesFor, Matched;
    var front, n := desired[..|desired| - 1], |desired| - 1;
    var e := existing[Match(r, desired, existing, i).value];
    ConflictsGrow(r, desired, existing);
    UpdatesGrow(r, desired, existing, e.id);
    UsedIds(r, front, existing);
    hide ProgressOf;
    if i < n {
      assert Match(r, desired, existing, i) == Match(r, front, existing, i);
      MatchIsMatched(r, front, existing, i);
      UpdatesAre(r, front, existing, i);
    } else if ChangesFor(desired[i], e) == NoChanges() {
      UpdatesOnlyMatched(r, front, existing, e.id);
    }
  }

  lemma {:induction false} MatchIsMatched(r: Readings, desired: seq<Desired>, existing: seq<Episode>, i: nat)
    requires i < |desired| && Match(r, desired, existing, i).Some?
    ensures Matched(r, desired, existing, existing[Match(r, desired, existing, i).value].id)
  {
    hide FindExisting;
  }

  // ---------------------------------------------------------------- one episode, written and seen again

  /** What the sources always give: the text fields are never null, dates and keys not empty; a website
      episode has a slug, a schedule episode has none but has a key. */
  predicate WellSourced(d: Desired) {
    !d.title.Null? && !d.releaseDate.Null? && !d.links.Null?
    && (d.recordingDate.Absent? || Given(d.recordingDate)) && (d.scheduleSourceKey.Absent? || Given(d.scheduleSourceKey))
    && (if d.fromWebsite then Given(d.websiteSlug) else d.websiteSlug.Absent? && Given(d.scheduleSourceKey))
  }

  /** Nothing the register cannot show: no null number and, in a list, no heavy content. */
  predicate Settles(d: Desired) {
    d.fromWebsite ==> !d.season.Null? && !d.episode.Null? && forall c :: c in d.content ==> !Heavy(c)
  }

  /** An updated register episode, seen in the list, wants no further change exactly when the desired
      episode settles. */
  lemma {:induction false} UpdateSettles(d: Desired, e: Episode)
    requires WellSourced(d)
    ensures var written := Summary(Applied(e, ChangesFor(d, Summary(e))));
            ChangesFor(d, written) == NoChanges() <==> Settles(d)
  {
    var c := ChangesFor(d, Summary(e));
    var written := Summary(Applied(e, c));
    ScalarsSettle(d, e);
    ContentSettles(d, e.content);
    NumbersSettle(d.season, e.season);
    NumbersSettle(d.episode, e.episode);
    if d.links.Value? {
      var m := Merged(e.links, d.links.value);
      assert Merged(Some(m), d.links.value) == m;
    }
    assert written.content == map k | k in e.content + c.content && !Heavy(k) :: (e.content + c.content)[k];
  }

  lemma {:induction false} ScalarsSettle(d: Desired, e: Episode)
    requires WellSourced(d)
    ensures var written := Summary(Applied(e, ChangesFor(d, Summary(e))));
            var again := ChangesFor(d, written);
            again.title == Absent && again.guests == Absent && again.recordingDate == Absent && again.releaseDate == Absent
            && again.status == Absent && again.websiteSlug == Absent && again.scheduleSourceKey == Absent
  {
    hide SetContent;
  }

  lemma {:induction false} NumbersSettle(desired: Field<int>, current: Option<int>)
    ensures Set(Assigned(current, Set(current, desired)), desired) == Absent <==> !desired.Null?
  {
  }

  lemma {:induction false} ContentSettles(d: Desired, content: map<Content, string>)
    ensures var shown := map c | c in content && !Heavy(c) :: content[c];
            var after := content + SetContent(shown, d.content);
            var shownAfter := map c | c in after && !Heavy(c) :: after[c];
            SetContent(shownAfter, d.content) == map[] <==> forall c :: c in d.content ==> !Heavy(c)
  {
    var shown := map c | c in content && !Heavy(c) :: content[c];
    var after := content + SetContent(shown, d.content);
    var shownAfter := map c | c in after && !Heavy(c) :: after[c];
    var again := SetContent(shownAfter, d.content);
    if again == map[] {
      forall c | c in d.content ensures !Heavy(c) { assert c !in again; }
    }
    if forall c :: c in d.content ==> !Heavy(c) {
      forall c | c in d.content ensures c !in again {
        assert c in after && after[c] == d.content[c];
      }
      assert again.Keys == {};
    }
  }

  lemma {:induction false} CreationSettles(d: Desired, id: string, slot: string)
    requires WellSourced(d)
    ensures ChangesFor(d, Summary(Created(d, id, slot))) == NoChanges() <==> Settles(d)
  {
    var e := Summary(Created(d, id, slot));
    var again := SetContent(e.content, d.content);
    if d.links.Value? { assert Merged(Some(d.links.value), d.links.value) == d.links.value; }
    if again == map[] {
      forall c | c in d.content ensures !Heavy(c) { assert c !in again; }
    }
    if forall c :: c in d.content ==> !Heavy(c) {
      assert again.Keys == {};
    }
  }
}
