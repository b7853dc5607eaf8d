// Planning the writes that bring the podcast register in line with its sources
// (backend/scripts/import-podcast-episodes.ts), and what the register API makes of them
// (backend/src/db/podcastEpisodes.ts, backend/src/routes/podcastEpisodes.ts).
module PodcastPlan {
  import opened Wrappers

  /** A property that may be missing, null or set. */
  datatype Field<+T> = Absent | Null | Value(value: T)

  datatype Guest = Guest(name: string, slug: Option<string>)

  /** The page content the website source owns, each with its JSON text. */
  datatype Content = Short | Description | Intro | Topics | Duration | Transcript | Clips | Resources

  datatype Desired = Desired(
    fromWebsite: bool, season: Field<int>, episode: Field<int>, title: Field<string>, guests: seq<Guest>,
    recordingDate: Field<string>, releaseDate: Field<string>, status: string, links: Field<map<string, string>>,
    websiteSlug: Field<string>, scheduleSourceKey: Field<string>, content: map<Content, string>)

  /** A register episode. The register never stores a null. */
  datatype Episode = Episode(
    id: string, version: int, season: Option<int>, episode: Option<int>, title: Option<string>, guests: seq<Guest>,
    recordingDate: Option<string>, releaseDate: Option<string>, status: string, links: Option<map<string, string>>,
    websiteSlug: Option<string>, scheduleSourceKey: Option<string>, content: map<Content, string>)

  /** The fields an update sets; Absent leaves a field alone, Null clears it. */
  datatype Changes = Changes(
    season: Field<int>, episode: Field<int>, title: Field<string>, guests: Field<seq<Guest>>,
    recordingDate: Field<string>, releaseDate: Field<string>, status: Field<string>, links: Field<map<string, string>>,
    websiteSlug: Field<string>, scheduleSourceKey: Field<string>, content: map<Content, string>)

  datatype Update = Update(id: string, version: int, changes: Changes)

  datatype Conflict = NumberTaken(episode: nat, holder: string) | BothMatch(episode: nat, other: nat, id: string)

  /** The guest-name key with its spelling variants folded, and the day number of a date. */
  datatype Readings = Readings(nameKey: string -> string, day: string -> Option<int>)

  datatype Plan = Plan(
    creates: seq<Desired>, updates: seq<Update>, untouched: nat, conflicts: seq<Conflict>, unmatched: seq<string>)

  // ---------------------------------------------------------------- finding the episode to update

  predicate SameGuest(r: Readings, left: seq<Guest>, right: seq<Guest>) {
    exists i, j :: 0 <= i < |left| && 0 <= j < |right| && r.nameKey(left[i].name) == r.nameKey(right[j].name)
  }

  predicate Within(r: Readings, left: string, right: string, days: int) {
    r.day(left).Some? && r.day(right).Some? && -days <= r.day(left).value - r.day(right).value <= days
  }

  /** `a || b || ""` */
  function FirstOf(a: Field<string>, b: Option<string>): string {
    if a.Value? && a.value != "" then a.value else if b.Some? then b.value else ""
  }

  predicate Given(a: Field<string>) {
    a.Value? && a.value != ""
  }

  /** A shared guest, and recordings or recording and release within sixty days. */
  predicate SameRecording(r: Readings, d: Desired, e: Episode) {
    SameGuest(r, e.guests, d.guests)
    && if Given(d.recordingDate) && e.recordingDate.Some? && e.recordingDate.value != "" then
         Within(r, d.recordingDate.value, e.recordingDate.value, 60)
       else
         var recording, release := FirstOf(d.recordingDate, e.recordingDate), FirstOf(d.releaseDate, e.releaseDate);
         recording != "" && release != "" && Within(r, recording, release, 60)
  }

  /** The first match of one kind. */
  function FirstBySlug(slug: string, existing: seq<Episode>): (i: nat)
    ensures i <= |existing| && (forall j :: 0 <= j < i ==> existing[j].websiteSlug != Some(slug))
    ensures i < |existing| ==> existing[i].websiteSlug == Some(slug)
  {
    if existing == [] || existing[0].websiteSlug == Some(slug) then 0 else 1 + FirstBySlug(slug, existing[1..])
  }

  function FirstByKey(key: string, existing: seq<Episode>): (i: nat)
    ensures i <= |existing| && (forall j :: 0 <= j < i ==> existing[j].scheduleSourceKey != Some(key))
    ensures i < |existing| ==> existing[i].scheduleSourceKey == Some(key)
  {
    if existing == [] || existing[0].scheduleSourceKey == Some(key) then 0 else 1 + FirstByKey(key, existing[1..])
  }

  function FirstByRecording(r: Readings, d: Desired, existing: seq<Episode>): (i: nat)
    ensures i <= |existing|
  {
    if existing == [] || SameRecording(r, d, existing[0]) then 0 else 1 + FirstByRecording(r, d, existing[1..])
  }

  /** By website slug, else by schedule key, else by guest and date. */
  function FindExisting(r: Readings, d: Desired, existing: seq<Episode>): (found: Option<nat>)
    ensures found.Some? ==> found.value < |existing|
  {
    if Given(d.websiteSlug) && FirstBySlug(d.websiteSlug.value, existing) < |existing| then
      Some(FirstBySlug(d.websiteSlug.value, existing))
    else if Given(d.scheduleSourceKey) && FirstByKey(d.scheduleSourceKey.value, existing) < |existing| then
      Some(FirstByKey(d.scheduleSourceKey.value, existing))
    else if FirstByRecording(r, d, existing) < |existing| then Some(FirstByRecording(r, d, existing))
    else None
  }

  // ---------------------------------------------------------------- what to change

  function Set<T(==)>(current: Option<T>, desired: Field<T>): Field<T> {
    match desired
    case Absent => Absent
    case Null => Null
    case Value(v) => if current == Some(v) then Absent else desired
  }

  function Rank(status: string): int {
    if status == "booked" then 0
    else if status == "recorded" then 1
    else if status == "edited" then 2
    else if status == "scheduled" then 3
    else if status == "published" then 4
    else -1
  }

  function Merged(current: Option<map<string, string>>, desired: map<string, string>): map<string, string> {
    (if current.Some? then current.value else map[]) + desired
  }

  function SetContent(current: map<Content, string>, desired: map<Content, string>): map<Content, string> {
    map c | c in desired && !(c in current && current[c] == desired[c]) :: desired[c]
  }

  predicate Blank(title: Option<string>) {
    title.None? || title.value == ""
  }

  function ChangesFor(d: Desired, e: Episode): Changes {
    Changes(
      if d.fromWebsite then Set(e.season, d.season) else Absent,
      if d.fromWebsite then Set(e.episode, d.episode) else Absent,
      if d.fromWebsite || Blank(e.title) then Set(e.title, d.title) else Absent,
      if d.fromWebsite || e.guests == [] then Set(Some(e.guests), Value(d.guests)) else Absent,
      Set(e.recordingDate, d.recordingDate),
      if d.fromWebsite then Set(e.releaseDate, d.releaseDate) else Absent,
      if e.status != "cancelled" && Rank(d.status) > Rank(e.status) then Set(Some(e.status), Value(d.status)) else Absent,
      if d.links.Value? then Set(e.links, Value(Merged(e.links, d.links.value))) else Absent,
      if d.fromWebsite then Set(e.websiteSlug, d.websiteSlug) else Absent,
      Set(e.scheduleSourceKey, d.scheduleSourceKey),
      if d.fromWebsite then SetContent(e.content, d.content) else map[])
  }

  function NoChanges(): Changes {
    Changes(Absent, Absent, Absent, Absent, Absent, Absent, Absent, Absent, Absent, Absent, map[])
  }

  // ---------------------------------------------------------------- the plan

  predicate Numbered(d: Desired) {
    d.season.Value? && d.episode.Value?
  }

  function NumberOf(d: Desired): (int, int)
    requires Numbered(d)
  {
    (d.season.value, d.episode.value)
  }

  /** The numbers in the register; of two episodes with one number the later is named. */
  function NumbersOf(existing: seq<Episode>): map<(int, int), string> {
    if existing == [] then map[]
    else
      var last := existing[|existing| - 1];
      var before := NumbersOf(existing[..|existing| - 1]);
      if last.season.Some? && last.episode.Some? then before[(last.season.value, last.episode.value) := last.id] else before
  }

  /** The loop's variables after some desired episodes. `used` says which of them took a register id. */
  datatype Progress = Progress(
    creates: seq<Desired>, updates: seq<Update>, untouched: nat, conflicts: seq<Conflict>,
    used: map<string, nat>, numbers: map<(int, int), string>)

  function AfterOne(r: Readings, p: Progress, d: Desired, index: nat, existing: seq<Episode>): Progress {
    var found := FindExisting(r, d, existing);
    if found.None? then
      if Numbered(d) && NumberOf(d) in p.numbers then
        p.(conflicts := p.conflicts + [NumberTaken(index, p.numbers[NumberOf(d)])])
      else
        p.(creates := p.creates + [d],
           numbers := if Numbered(d) then p.numbers[NumberOf(d) := FirstOf(d.websiteSlug, None)] else p.numbers)
    else
      var e := existing[found.value];
      if e.id in p.used then p.(conflicts := p.conflicts + [BothMatch(index, p.used[e.id], e.id)])
      else if ChangesFor(d, e) == NoChanges() then p.(used := p.used[e.id := index], untouched := p.untouched + 1)
      else p.(used := p.used[e.id := index], updates := p.updates + [Update(e.id, e.version, ChangesFor(d, e))])
  }

  function ProgressOf(r: Readings, desired: seq<Desired>, existing: seq<Episode>): Progress {
    if desired == [] then Progress([], [], 0, [], map[], NumbersOf(existing))
    else AfterOne(r, ProgressOf(r, desired[..|desired| - 1], existing), desired[|desired| - 1], |desired| - 1, existing)
  }

  function Unmatched(existing: seq<Episode>, used: map<string, nat>): seq<string> {
    if existing == [] then []
    else
      var last := existing[|existing| - 1];
      Unmatched(existing[..|existing| - 1], used) + (if last.id in used then [] else [last.id])
  }

  function PlanOf(r: Readings, desired: seq<Desired>, existing: seq<Episode>): Plan {
    var p := ProgressOf(r, desired, existing);
    Plan(p.creates, p.updates, p.untouched, p.conflicts, Unmatched(existing, p.used))
  }

  method PlanWrites(r: Readings, desired: seq<Desired>, existing: seq<Episode>) returns (plan: Plan)
    ensures plan == PlanOf(r, desired, existing)
  {
    var creates: seq<Desired>, updates: seq<Update>, conflicts: seq<Conflict> := [], [], [];
    var used: map<string, nat>, numbers := map[], NumbersOf(existing);
    var untouched := 0;
    for i := 0 to |desired|
      invariant ProgressOf(r, desired[..i], existing) == Progress(creates, updates, untouched, conflicts, used, numbers)
    {
      hide FindExisting, ChangesFor;
      assert desired[..i + 1][..i] == desired[..i];
      var d := desired[i];
      var found := FindExisting(r, d, existing);
      if found.None? {
        if Numbered(d) && NumberOf(d) in numbers {
          conflicts := conflicts + [NumberTaken(i, numbers[NumberOf(d)])];
          continue;
        }
        if Numbered(d) { numbers := numbers[NumberOf(d) := FirstOf(d.websiteSlug, None)]; }
        creates := creates + [d];
        continue;
      }
      var e := existing[found.value];
      if e.id in used {
        conflicts := conflicts + [BothMatch(i, used[e.id], e.id)];
        continue;
      }
      used := used[e.id := i];
      var changes := ChangesFor(d, e);
      if changes != NoChanges() { updates := updates + [Update(e.id, e.version, changes)]; } else { untouched := untouched + 1; }
    }
    assert desired[..|desired|] == desired;
    var unmatched: seq<string> := [];
    for i := 0 to |existing|
      invariant unmatched == Unmatched(existing[..i], used)
    {
      assert existing[..i + 1][..i] == existing[..i];
      if existing[i].id !in used { unmatched := unmatched + [existing[i].id]; }
    }
    assert existing[..|existing|] == existing;
    plan := Plan(creates, updates, untouched, conflicts, unmatched);
  }

  // ---------------------------------------------------------------- the register

  /** Absent and null are the same to the register. */
  function Kept<T>(f: Field<T>): Option<T> {
    if f.Value? then Some(f.value) else None
  }

  function Assigned<T>(current: Option<T>, f: Field<T>): Option<T> {
    match f
    case Absent => current
    case Null => None
    case Value(v) => Some(v)
  }

  function Applied(e: Episode, c: Changes): Episode {
    Episode(e.id, e.version + 1, Assigned(e.season, c.season), Assigned(e.episode, c.episode), Assigned(e.title, c.title),
            if c.guests.Value? then c.guests.value else e.guests,
            Assigned(e.recordingDate, c.recordingDate), Assigned(e.releaseDate, c.releaseDate),
            if c.status.Value? then c.status.value else e.status, Assigned(e.links, c.links),
            Assigned(e.websiteSlug, c.websiteSlug), Assigned(e.scheduleSourceKey, c.scheduleSourceKey), e.content + c.content)
  }

  /** A new episode; the register picks a recording date when none is sent. */
  function Created(d: Desired, id: string, slot: string): Episode {
    Episode(id, 1, Kept(d.season), Kept(d.episode), Kept(d.title), d.guests,
            if Given(d.recordingDate) then Some(d.recordingDate.value) else Some(slot),
            Kept(d.releaseDate), d.status, Kept(d.links), Kept(d.websiteSlug), Kept(d.scheduleSourceKey), d.content)
  }

  predicate Heavy(c: Content) {
    c == Transcript || c == Clips || c == Resources || c == Intro
  }

  /** The list leaves out the heavy page content. */
  function Summary(e: Episode): Episode {
    e.(content := map c | c in e.content && !Heavy(c) :: e.content[c])
  }

  function Listed(register: seq<Episode>): (view: seq<Episode>)
    ensures |view| == |register| && forall i :: 0 <= i < |view| ==> view[i] == Summary(register[i])
  {
    if register == [] then [] else Listed(register[..|register| - 1]) + [Summary(register[|register| - 1])]
  }

  /** The changes a list of updates has for one id. */
  function ChangesIn(updates: seq<Update>, id: string): Option<Changes> {
    if updates == [] then None
    else if updates[|updates| - 1].id == id then Some(updates[|updates| - 1].changes)
    else ChangesIn(updates[..|updates| - 1], id)
  }

  function Updated(e: Episode, updates: seq<Update>): Episode {
    if ChangesIn(updates, e.id).Some? then Applied(e, ChangesIn(updates, e.id).value) else e
  }

  function UpdatedAll(register: seq<Episode>, updates: seq<Update>): (after: seq<Episode>)
    ensures |after| == |register| && forall i :: 0 <= i < |after| ==> after[i] == Updated(register[i], updates)
  {
    if register == [] then []
    else UpdatedAll(register[..|register| - 1], updates) + [Updated(register[|register| - 1], updates)]
  }

  function CreatedAll(creates: seq<Desired>, ids: nat -> string, slots: nat -> string): (after: seq<Episode>)
    ensures |after| == |creates| && forall i :: 0 <= i < |after| ==> after[i] == Created(creates[i], ids(i), slots(i))
  {
    if creates == [] then []
    else
      var n := |creates| - 1;
      CreatedAll(creates[..n], ids, slots) + [Created(creates[n], ids(n), slots(n))]
  }

  /** The register once every write of a plan has been accepted. */
  function AfterWrites(register: seq<Episode>, plan: Plan, ids: nat -> string, slots: nat -> string): seq<Episode> {
    UpdatedAll(register, plan.updates) + CreatedAll(plan.creates, ids, slots)
  }
}
