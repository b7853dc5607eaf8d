// The second import: every desired episode is found where the first import left it.
module PodcastReimport {
  import opened Wrappers
  import opened PodcastPlan
  import opened PodcastPlanAgain

  /** A first import that can be repeated: distinct register ids, well-formed sources with distinct slugs and
      keys, a plan without conflicts, and fresh ids for what it creates. */
  ghost predicate Imported(r: Readings, desired: seq<Desired>, register: seq<Episode>, ids: nat -> string) {
    DistinctIds(register)
    && (forall i :: 0 <= i < |desired| ==> WellSourced(desired[i]))
    && (forall i, k :: 0 <= i < k < |desired| && Given(desired[i].websiteSlug) ==> desired[i].websiteSlug != desired[k].websiteSlug)
    && (forall i, k :: 0 <= i < k < |desired| && Given(desired[i].scheduleSourceKey) ==>
          desired[i].scheduleSourceKey != desired[k].scheduleSourceKey)
    && ProgressOf(r, desired, Listed(register)).conflicts == []
    && (forall n: nat, e :: e in register ==> ids(n) != e.id)
    && (forall m: nat, n: nat :: m != n ==> ids(m) != ids(n))
  }

  /** The register as it is listed after the first import. */
  function Next(r: Readings, desired: seq<Desired>, register: seq<Episode>, ids: nat -> string, slots: nat -> string): seq<Episode> {
    Listed(AfterWrites(register, PlanOf(r, desired, Listed(register)), ids, slots))
  }

  lemma {:induction false} NextLength(r: Readings, desired: seq<Desired>, register: seq<Episode>, ids: nat -> string, slots: nat -> string)
    requires ProgressOf(r, desired, Listed(register)).conflicts == []
    ensures |Next(r, desired, register, ids, slots)| == |register| + |Unfound(r, desired, Listed(register))|
  {
    UsedIds(r, desired, Listed(register));
    hide Unfound, ProgressOf, Matched;
  }

  /** What the register held before is there, updated. */
  lemma {:induction false} NextOld(r: Readings, desired: seq<Desired>, register: seq<Episode>, ids: nat -> string, slots: nat -> string, l: nat)
    requires l < |register|
    ensures l < |Next(r, desired, register, ids, slots)|
    ensures Next(r, desired, register, ids, slots)[l] ==
              Summary(Updated(register[l], ProgressOf(r, desired, Listed(register)).updates))
  {
    hide ProgressOf, Updated, Created, Summary;
  }

  /** The created episodes follow. */
  lemma {:induction false} NextNew(r: Readings, desired: seq<Desired>, register: seq<Episode>, ids: nat -> string, slots: nat -> string, k: nat)
    requires ProgressOf(r, desired, Listed(register)).conflicts == [] && k < |Unfound(r, desired, Listed(register))|
    ensures |register| + k < |Next(r, desired, register, ids, slots)|
    ensures Next(r, desired, register, ids, slots)[|register| + k] ==
              Summary(Created(Unfound(r, desired, Listed(register))[k], ids(k), slots(k)))
  {
    NextLength(r, desired, register, ids, slots);
    UsedIds(r, desired, Listed(register));
    hide Unfound, ProgressOf, Updated, Created, Summary, Matched, UpdatedAll, CreatedAll, Listed;
    var plan := PlanOf(r, desired, Listed(register));
    assert plan.creates == Unfound(r, desired, Listed(register));
    hide PlanOf;
    var updated, created := UpdatedAll(register, plan.updates), CreatedAll(plan.creates, ids, slots);
    assert AfterWrites(register, plan, ids, slots) == updated + created;
    assert (updated + created)[|register| + k] == created[k];
  }

  lemma {:induction false} VersionIsIgnored(d: Desired, e: Episode, version: int)
    ensures ChangesFor(d, e.(version := version)) == ChangesFor(d, e)
  {
  }

  lemma {:induction false} NothingApplied(e: Episode)
    ensures Applied(e, NoChanges()) == e.(version := e.version + 1)
  {
    assert e.content + map[] == e.content;
  }

  /** The matched register episode after the first import. */
  lemma {:induction false} MatchedAfter(r: Readings, desired: seq<Desired>, register: seq<Episode>, ids: nat -> string, slots: nat -> string, i: nat)
    requires Imported(r, desired, register, ids) && i < |desired| && Match(r, desired, Listed(register), i).Some?
    ensures var j := Match(r, desired, Listed(register), i).value;
            var next := Next(r, desired, register, ids, slots);
            j < |register| && j < |next|
            && (ChangesFor(desired[i], next[j]) == NoChanges() <==> Settles(desired[i]))
            && next[j].websiteSlug == (if desired[i].fromWebsite then Some(desired[i].websiteSlug.value) else register[j].websiteSlug)
            && next[j].scheduleSourceKey ==
                 (if Given(desired[i].scheduleSourceKey) then Some(desired[i].scheduleSourceKey.value) else register[j].scheduleSourceKey)
  {
    var j := Match(r, desired, Listed(register), i).value;
    var e, d := register[j], desired[i];
    NextOld(r, desired, register, ids, slots, j);
    UpdatesAre(r, desired, Listed(register), i);
    assert WellSourced(d);
    hide Next, ProgressOf, FindExisting, Matched, Unfound, Imported, WellSourced;
    var changes := ChangesFor(d, Summary(e));
    assert Summary(e).id == e.id;
    var next := Next(r, desired, register, ids, slots)[j];
    assert next == Summary(if changes == NoChanges() then e else Applied(e, changes));
    WrittenEpisode(d, e, next);
  }

  lemma {:induction false} WrittenEpisode(d: Desired, e: Episode, next: Episode)
    requires WellSourced(d)
    requires var changes := ChangesFor(d, Summary(e)); next == Summary(if changes == NoChanges() then e else Applied(e, changes))
    ensures ChangesFor(d, next) == NoChanges() <==> Settles(d)
    ensures next.websiteSlug == (if d.fromWebsite then Some(d.websiteSlug.value) else e.websiteSlug)
    ensures next.scheduleSourceKey == (if Given(d.scheduleSourceKey) then Some(d.scheduleSourceKey.value) else e.scheduleSourceKey)
  {
    var changes := ChangesFor(d, Summary(e));
    UpdateSettles(d, e);
    WrittenKeys(d, e);
    hide ChangesFor, WellSourced, Settles;
    if changes == NoChanges() {
      NothingApplied(e);
      hide Applied;
      VersionIsIgnored(d, next, e.version + 1);
      assert Summary(e.(version := e.version + 1)) == next.(version := e.version + 1);
    }
  }

  lemma {:induction false} WrittenKeys(d: Desired, e: Episode)
    requires WellSourced(d)
    ensures var after := Applied(e, ChangesFor(d, Summary(e)));
            after.websiteSlug == (if d.fromWebsite then Some(d.websiteSlug.value) else e.websiteSlug)
            && after.scheduleSourceKey == (if Given(d.scheduleSourceKey) then Some(d.scheduleSourceKey.value) else e.scheduleSourceKey)
  {
    hide SetContent;
  }

  /** Every register episode is either untouched by the first import, or the match of one desired episode. */
  lemma {:induction false} RegisterAfter(r: Readings, desired: seq<Desired>, register: seq<Episode>, ids: nat -> string, slots: nat -> string, l: nat)
      returns (source: Option<nat>)
    requires Imported(r, desired, register, ids) && l < |register|
    ensures l < |Next(r, desired, register, ids, slots)|
    ensures source.None? ==> Next(r, desired, register, ids, slots)[l] == Summary(register[l])
    ensures source.Some? ==> source.value < |desired| && Match(r, desired, Listed(register), source.value) == Some(l)
  {
    NextOld(r, desired, register, ids, slots, l);
    hide Next, ProgressOf, FindExisting, Unfound, ChangesFor, WellSourced, ChangesIn, Matched;
    source := SourceOf(r, desired, register, l);
  }

  lemma {:induction false} SourceOf(r: Readings, desired: seq<Desired>, register: seq<Episode>, l: nat) returns (source: Option<nat>)
    requires DistinctIds(register) && l < |register| && ProgressOf(r, desired, Listed(register)).conflicts == []
    ensures source.None? ==> ChangesIn(ProgressOf(r, desired, Listed(register)).updates, register[l].id) == None
    ensures source.Some? ==> source.value < |desired| && Match(r, desired, Listed(register), source.value) == Some(l)
  {
    var view := Listed(register);
    hide ProgressOf, FindExisting, ChangesFor, ChangesIn;
    if Matched(r, desired, view, register[l].id) {
      var i :| 0 <= i < |desired| && Match(r, desired, view, i).Some? && view[Match(r, desired, view, i).value].id == register[l].id;
      source := Some(i);
      var j := Match(r, desired, view, i).value;
      assert view[j].id == register[j].id;
    } else {
      UpdatesOnlyMatched(r, desired, view, register[l].id);
      source := None;
    }
  }

  // ---------------------------------------------------------------- where the second import finds things

  /** Where a desired episode is after the first import: at its match, or among the created ones. */
  function Place(r: Readings, desired: seq<Desired>, register: seq<Episode>, i: nat): nat
    requires i < |desired|
  {
    var found := Match(r, desired, Listed(register), i);
    if found.Some? then found.value else |register| + |Unfound(r, desired[..i], Listed(register))|
  }

  lemma {:induction false} UnfoundPrefix(r: Readings, desired: seq<Desired>, existing: seq<Episode>, i: nat)
    requires i <= |desired|
    ensures Unfound(r, desired[..i], existing) <= Unfound(r, desired, existing)
    decreases |desired| - i
  {
    hide FindExisting;
    if i < |desired| {
      assert desired[..i + 1][..i] == desired[..i];
      UnfoundPrefix(r, desired, existing, i + 1);
    } else {
      assert desired[..i] == desired;
    }
  }

  /** An unmatched desired episode is the created one at its place. */
  lemma {:induction false} UnfoundAt(r: Readings, desired: seq<Desired>, existing: seq<Episode>, i: nat)
    requires i < |desired| && FindExisting(r, desired[i], existing).None?
    ensures var k := |Unfound(r, desired[..i], existing)|;
            k < |Unfound(r, desired, existing)| && Unfound(r, desired, existing)[k] == desired[i]
            && |Unfound(r, desired[..i + 1], existing)| == k + 1
  {
    hide FindExisting;
    assert desired[..i + 1][..i] == desired[..i];
    UnfoundPrefix(r, desired, existing, i + 1);
  }

  /** Each created episode comes from one unmatched desired episode. */
  lemma {:induction false} UnfoundFrom(r: Readings, desired: seq<Desired>, existing: seq<Episode>, k: nat) returns (i: nat)
    requires k < |Unfound(r, desired, existing)|
    ensures i < |desired| && FindExisting(r, desired[i], existing).None? && |Unfound(r, desired[..i], existing)| == k
    ensures Unfound(r, desired, existing)[k] == desired[i]
  {
    hide FindExisting;
    var n := |desired| - 1;
    if k == |Unfound(r, desired[..n], existing)| {
      i := n;
    } else {
      i := UnfoundFrom(r, desired[..n], existing, k);
      assert desired[..n][..i] == desired[..i];
    }
  }

  /** A website slug is found first at its episode's place. */
  lemma {:induction false} SlugIsNotEarlier(r: Readings, desired: seq<Desired>, register: seq<Episode>, ids: nat -> string, slots: nat -> string, i: nat, l: nat)
    requires Imported(r, desired, register, ids) && i < |desired| && desired[i].fromWebsite && l < Place(r, desired, register, i)
    ensures var next := Next(r, desired, register, ids, slots);
            l < |next| ==> next[l].websiteSlug != Some(desired[i].websiteSlug.value)
  {
    var view, next := Listed(register), Next(r, desired, register, ids, slots);
    var slug := desired[i].websiteSlug.value;
    if l < |register| {
      assert view[l].websiteSlug == register[l].websiteSlug;
      NotEarlierBySlug(r, desired[i], view, l);
      var source := RegisterAfter(r, desired, register, ids, slots, l);
      if source.Some? {
        MatchedAfter(r, desired, register, ids, slots, source.value);
        hide Next, FindExisting, Unfound;
        assert source.value != i;
        OtherSlug(desired, i, source.value);
      }
    } else if l < |next| {
      var k := CreatedFrom(r, desired, register, ids, slots, l);
      hide Next, FindExisting, Unfound;
      if k != i { OtherSlug(desired, i, k); }
    }
  }

  lemma {:induction false} NotEarlierBySlug(r: Readings, d: Desired, existing: seq<Episode>, l: nat)
    requires Given(d.websiteSlug) && l < |existing| && (FindExisting(r, d, existing).Some? ==> l < FindExisting(r, d, existing).value)
    ensures existing[l].websiteSlug != Some(d.websiteSlug.value)
  {
  }

  lemma {:induction false} NotEarlierByKey(r: Readings, d: Desired, existing: seq<Episode>, l: nat)
    requires !Given(d.websiteSlug) && Given(d.scheduleSourceKey) && l < |existing|
    requires FindExisting(r, d, existing).Some? ==> l < FindExisting(r, d, existing).value
    ensures existing[l].scheduleSourceKey != Some(d.scheduleSourceKey.value)
  {
  }

  lemma {:induction false} OtherSlug(desired: seq<Desired>, i: nat, k: nat)
    requires i < |desired| && k < |desired| && i != k && Given(desired[i].websiteSlug)
    requires forall i, k :: 0 <= i < k < |desired| && Given(desired[i].websiteSlug) ==> desired[i].websiteSlug != desired[k].websiteSlug
    ensures Given(desired[k].websiteSlug) ==> desired[k].websiteSlug.value != desired[i].websiteSlug.value
  {
    if k < i && Given(desired[k].websiteSlug) { assert desired[k].websiteSlug != desired[i].websiteSlug; }
  }

  lemma {:induction false} OtherKey(desired: seq<Desired>, i: nat, k: nat)
    requires i < |desired| && k < |desired| && i != k && Given(desired[i].scheduleSourceKey)
    requires forall i, k :: 0 <= i < k < |desired| && Given(desired[i].scheduleSourceKey) ==>
               desired[i].scheduleSourceKey != desired[k].scheduleSourceKey
    ensures Given(desired[k].scheduleSourceKey) ==> desired[k].scheduleSourceKey.value != desired[i].scheduleSourceKey.value
  {
    if k < i && Given(desired[k].scheduleSourceKey) { assert desired[k].scheduleSourceKey != desired[i].scheduleSourceKey; }
  }

  /** A created episode carries the slug and key of the desired episode it comes from. */
  lemma {:induction false} CreatedFrom(r: Readings, desired: seq<Desired>, register: seq<Episode>, ids: nat -> string, slots: nat -> string, l: nat)
      returns (k: nat)
    requires Imported(r, desired, register, ids) && |register| <= l < |Next(r, desired, register, ids, slots)|
    ensures k < |desired| && Match(r, desired, Listed(register), k).None? && Place(r, desired, register, k) == l
    ensures Next(r, desired, register, ids, slots)[l].websiteSlug == Kept(desired[k].websiteSlug)
    ensures Next(r, desired, register, ids, slots)[l].scheduleSourceKey == Kept(desired[k].scheduleSourceKey)
  {
    hide Next, Unfound, FindExisting, ProgressOf, WellSourced, Listed;
    NextLength(r, desired, register, ids, slots);
    NextNew(r, desired, register, ids, slots, l - |register|);
    k := UnfoundFrom(r, desired, Listed(register), l - |register|);
    hide Imported;
  }

  /** A schedule key is found first at its episode's place. */
  lemma {:induction false} KeyIsNotEarlier(r: Readings, desired: seq<Desired>, register: seq<Episode>, ids: nat -> string, slots: nat -> string, i: nat, l: nat)
    requires Imported(r, desired, register, ids) && i < |desired| && !desired[i].fromWebsite && l < Place(r, desired, register, i)
    ensures var next := Next(r, desired, register, ids, slots);
            l < |next| ==> next[l].scheduleSourceKey != Some(desired[i].scheduleSourceKey.value)
  {
    var view, next := Listed(register), Next(r, desired, register, ids, slots);
    if l < |register| {
      assert view[l].scheduleSourceKey == register[l].scheduleSourceKey;
      NotEarlierByKey(r, desired[i], view, l);
      var source := RegisterAfter(r, desired, register, ids, slots, l);
      if source.Some? {
        MatchedAfter(r, desired, register, ids, slots, source.value);
        hide Next, FindExisting, Unfound;
        assert source.value != i;
        OtherKey(desired, i, source.value);
      }
    } else if l < |next| {
      var k := CreatedFrom(r, desired, register, ids, slots, l);
      hide Next, FindExisting, Unfound;
      if k != i { OtherKey(desired, i, k); }
    }
  }

  /** At its place, the episode carries its slug or key, and settles or not. */
  lemma {:induction false} AtPlace(r: Readings, desired: seq<Desired>, register: seq<Episode>, ids: nat -> string, slots: nat -> string, i: nat)
    requires Imported(r, desired, register, ids) && i < |desired|
    ensures var next := Next(r, desired, register, ids, slots); var l := Place(r, desired, register, i);
            l < |next|
            && (desired[i].fromWebsite ==> next[l].websiteSlug == Some(desired[i].websiteSlug.value))
            && (!desired[i].fromWebsite ==> next[l].scheduleSourceKey == Some(desired[i].scheduleSourceKey.value))
            && (ChangesFor(desired[i], next[l]) == NoChanges() <==> Settles(desired[i]))
  {
    if Match(r, desired, Listed(register), i).Some? {
      MatchedAfter(r, desired, register, ids, slots, i);
      hide Next, FindExisting, Unfound, ChangesFor, Settles;
    } else {
      CreatedAfter(r, desired, register, ids, slots, i);
      hide Next, FindExisting, Unfound, ChangesFor, Settles;
    }
  }

  lemma {:induction false} CreatedAfter(r: Readings, desired: seq<Desired>, register: seq<Episode>, ids: nat -> string, slots: nat -> string, i: nat)
    requires Imported(r, desired, register, ids) && i < |desired| && Match(r, desired, Listed(register), i).None?
    ensures var next := Next(r, desired, register, ids, slots);
            var l := |register| + |Unfound(r, desired[..i], Listed(register))|;
            l < |next| && next[l].websiteSlug == Kept(desired[i].websiteSlug)
            && next[l].scheduleSourceKey == Kept(desired[i].scheduleSourceKey)
            && (ChangesFor(desired[i], next[l]) == NoChanges() <==> Settles(desired[i]))
  {
    assert WellSourced(desired[i]);
    hide Next, FindExisting, Unfound, ChangesFor, Settles, ProgressOf, Updated, WellSourced;
    var view := Listed(register);
    UnfoundAt(r, desired, view, i);
    var k := |Unfound(r, desired[..i], view)|;
    NextNew(r, desired, register, ids, slots, k);
    CreationSettles(desired[i], ids(k), slots(k));
    hide Imported, Listed;
  }

  lemma {:induction false} FoundAgain(r: Readings, desired: seq<Desired>, register: seq<Episode>, ids: nat -> string, slots: nat -> string, i: nat)
    requires Imported(r, desired, register, ids) && i < |desired|
    ensures FindExisting(r, desired[i], Next(r, desired, register, ids, slots)) == Some(Place(r, desired, register, i))
  {
    var next, place, d := Next(r, desired, register, ids, slots), Place(r, desired, register, i), desired[i];
    AtPlace(r, desired, register, ids, slots, i);
    if d.fromWebsite {
      forall l | 0 <= l < place ensures next[l].websiteSlug != Some(d.websiteSlug.value) {
        SlugIsNotEarlier(r, desired, register, ids, slots, i, l);
      }
      hide Next, Place;
      assert FirstBySlug(d.websiteSlug.value, next) == place;
    } else {
      forall l | 0 <= l < place ensures next[l].scheduleSourceKey != Some(d.scheduleSourceKey.value) {
        KeyIsNotEarlier(r, desired, register, ids, slots, i, l);
      }
      hide Next, Place;
      assert FirstByKey(d.scheduleSourceKey.value, next) == place;
    }
  }

  lemma {:induction false} PlacesDiffer(r: Readings, desired: seq<Desired>, register: seq<Episode>, i: nat, k: nat)
    requires Injective(r, desired, Listed(register)) && i < k < |desired|
    ensures Place(r, desired, register, i) != Place(r, desired, register, k)
  {
    var view := Listed(register);
    hide FindExisting, Unfound;
    if Match(r, desired, view, i).None? && Match(r, desired, view, k).None? {
      UnfoundAt(r, desired, view, i);
      assert desired[..k][..i + 1] == desired[..i + 1];
      UnfoundPrefix(r, desired[..k], view, i + 1);
    }
  }

  // ---------------------------------------------------------------- the second plan

  /** When every desired episode finds a register episode of its own, nothing is created and nothing
      conflicts, and an update is planned exactly where something changes. */
  lemma {:induction false} AllFound(r: Readings, desired: seq<Desired>, existing: seq<Episode>)
    requires DistinctIds(existing) && Injective(r, desired, existing)
    requires forall i :: 0 <= i < |desired| ==> Match(r, desired, existing, i).Some?
    ensures var p := ProgressOf(r, desired, existing);
            p.creates == [] && p.conflicts == [] && |p.updates| + p.untouched == |desired|
            && (p.updates == [] <==>
                  forall i :: 0 <= i < |desired| ==> ChangesFor(desired[i], existing[Match(r, desired, existing, i).value]) == NoChanges())
  {
    hide FindExisting, ChangesFor;
    if desired != [] {
      var front, n := desired[..|desired| - 1], |desired| - 1;
      assert forall i :: 0 <= i < n ==> Match(r, front, existing, i) == Match(r, desired, existing, i);
      AllFound(r, front, existing);
      UsedIds(r, front, existing);
      var e := existing[Match(r, desired, existing, n).value];
      assert !Matched(r, front, existing, e.id) by {
        forall i | 0 <= i < n ensures existing[Match(r, front, existing, i).value].id != e.id {
          assert Match(r, desired, existing, i) != Match(r, desired, existing, n);
        }
      }
      SameFront(r, desired, existing);
    }
  }

  lemma {:induction false} SameFront(r: Readings, desired: seq<Desired>, existing: seq<Episode>)
    requires desired != [] && forall i :: 0 <= i < |desired| ==> Match(r, desired, existing, i).Some?
    ensures var front, n := desired[..|desired| - 1], |desired| - 1;
            (forall i :: 0 <= i < |desired| ==> ChangesFor(desired[i], existing[Match(r, desired, existing, i).value]) == NoChanges())
            <==>
            ((forall i :: 0 <= i < n ==>
                Match(r, front, existing, i).Some? && ChangesFor(front[i], existing[Match(r, front, existing, i).value]) == NoChanges())
             && ChangesFor(desired[n], existing[Match(r, desired, existing, n).value]) == NoChanges())
  {
    hide FindExisting, ChangesFor;
    var front, n := desired[..|desired| - 1], |desired| - 1;
    assert forall i :: 0 <= i < n ==> Match(r, front, existing, i) == Match(r, desired, existing, i) && front[i] == desired[i];
  }

  lemma {:induction false} NextHasDistinctIds(r: Readings, desired: seq<Desired>, register: seq<Episode>, ids: nat -> string, slots: nat -> string)
    requires Imported(r, desired, register, ids)
    ensures DistinctIds(Next(r, desired, register, ids, slots))
  {
    var next := Next(r, desired, register, ids, slots);
    forall l, m | 0 <= l < m < |next| ensures next[l].id != next[m].id {
      NextId(r, desired, register, ids, slots, l);
      NextId(r, desired, register, ids, slots, m);
      hide Next, WellSourced, ProgressOf, Listed;
      if l < |register| { assert register[l] in register; }
    }
  }

  lemma {:induction false} NextId(r: Readings, desired: seq<Desired>, register: seq<Episode>, ids: nat -> string, slots: nat -> string, l: nat)
    requires ProgressOf(r, desired, Listed(register)).conflicts == [] && l < |Next(r, desired, register, ids, slots)|
    ensures Next(r, desired, register, ids, slots)[l].id == if l < |register| then register[l].id else ids(l - |register|)
  {
    NextLength(r, desired, register, ids, slots);
    hide Next, Unfound, ProgressOf, Listed, Updated, Created, Summary;
    if l < |register| {
      NextOld(r, desired, register, ids, slots, l);
      UpdatedKeepsId(register[l], ProgressOf(r, desired, Listed(register)).updates);
    } else {
      NextNew(r, desired, register, ids, slots, l - |register|);
      var k := l - |register|;
      CreatedHasId(Unfound(r, desired, Listed(register))[k], ids(k), slots(k));
    }
  }

  lemma {:induction false} UpdatedKeepsId(e: Episode, updates: seq<Update>)
    ensures Summary(Updated(e, updates)).id == e.id
  {
    hide ChangesIn;
  }

  lemma {:induction false} CreatedHasId(d: Desired, id: string, slot: string)
    ensures Summary(Created(d, id, slot)).id == id
  {
  }

  /** Importing again. After a conflict-free plan has been written, the next plan creates nothing and
      conflicts with nothing. It has no update either exactly when no website episode has a null number or
      heavy page content: a null is stored as absent and heavy content is not listed, so both look changed
      at every import. */
  lemma {:induction false} ImportingAgain(r: Readings, desired: seq<Desired>, register: seq<Episode>, ids: nat -> string, slots: nat -> string)
    requires Imported(r, desired, register, ids)
    ensures var again := PlanOf(r, desired, Next(r, desired, register, ids, slots));
            again.creates == [] && again.conflicts == [] && |again.updates| + again.untouched == |desired|
            && (again.updates == [] <==> forall i :: 0 <= i < |desired| ==> Settles(desired[i]))
  {
    var next := Next(r, desired, register, ids, slots);
    NextHasDistinctIds(r, desired, register, ids, slots);
    MatchesDiffer(r, desired, Listed(register));
    forall i | 0 <= i < |desired|
      ensures Match(r, desired, next, i) == Some(Place(r, desired, register, i))
              && Place(r, desired, register, i) < |next|
              && (ChangesFor(desired[i], next[Place(r, desired, register, i)]) == NoChanges() <==> Settles(desired[i]))
    {
      FoundAgain(r, desired, register, ids, slots, i);
      AtPlace(r, desired, register, ids, slots, i);
      hide Place, Next, FindExisting, ChangesFor, Settles;
    }
    forall i, k | 0 <= i < k < |desired| ensures Place(r, desired, register, i) != Place(r, desired, register, k) {
      PlacesDiffer(r, desired, register, i, k);
    }
    hide Place, Next, FindExisting, ChangesFor, Settles;
    AllFound(r, desired, next);
  }

  // ---------------------------------------------------------------- imports that never settle

  function Blanks(n: nat): (s: string)
    ensures |s| == n
  {
    if n == 0 then "" else Blanks(n - 1) + " "
  }

  /** A website episode with nothing but a slug, and these numbers and page content. */
  function WebsiteEpisode(season: Field<int>, episode: Field<int>, content: map<Content, string>): Desired {
    Desired(true, season, episode, Absent, [], Absent, Absent, "published", Absent, Value("slug"), Absent, content)
  }

  lemma {:induction false} FirstImport(r: Readings, d: Desired)
    requires d == WebsiteEpisode(d.season, d.episode, d.content)
    ensures Imported(r, [d], [], Blanks)
  {
    hide FindExisting, ChangesFor;
    assert [d][..0] == [];
    assert FindExisting(r, d, []) == None by { NothingFound(r, d); }
    assert ProgressOf(r, [d], []).conflicts == [];
    forall m: nat, n: nat | m != n ensures Blanks(m) != Blanks(n) { assert |Blanks(m)| != |Blanks(n)|; }
  }

  lemma {:induction false} NothingFound(r: Readings, d: Desired)
    ensures FindExisting(r, d, []) == None
  {
  }

  /** Imported into an empty register, an episode with a null number and one with an intro are each updated again at
      the next import. */
  lemma {:induction false} NullsAndIntrosNeverSettle(r: Readings, slots: nat -> string)
    ensures var d := WebsiteEpisode(Value(1), Null, map[]);
            Imported(r, [d], [], Blanks) && PlanOf(r, [d], Next(r, [d], [], Blanks, slots)).updates != []
    ensures var d := WebsiteEpisode(Value(1), Value(1), map[Intro := "text"]);
            Imported(r, [d], [], Blanks) && PlanOf(r, [d], Next(r, [d], [], Blanks, slots)).updates != []
  {
    NeverSettles(r, WebsiteEpisode(Value(1), Null, map[]), slots);
    var d := WebsiteEpisode(Value(1), Value(1), map[Intro := "text"]);
    assert Intro in d.content && Heavy(Intro);
    NeverSettles(r, d, slots);
  }

  lemma {:induction false} NeverSettles(r: Readings, d: Desired, slots: nat -> string)
    requires d == WebsiteEpisode(d.season, d.episode, d.content) && !Settles(d)
    ensures Imported(r, [d], [], Blanks) && PlanOf(r, [d], Next(r, [d], [], Blanks, slots)).updates != []
  {
    hide Imported, PlanOf, Next, Settles;
    FirstImport(r, d);
    ImportingAgain(r, [d], [], Blanks, slots);
    assert [d][0] == d;
  }
}
