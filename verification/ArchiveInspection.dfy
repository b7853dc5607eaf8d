// `inspectArchives`, check by check and loop by loop.
module ArchiveInspection {
  import opened Sequences
  import opened Wrappers
  import opened Archives

  // ---------------------------------------------------------------- the manifest

  method CheckAliases(archives: seq<Archive>, manifest: Manifest) returns (failure: Option<Failure>)
    ensures failure.None? <==> AliasesMatch(archives, manifest)
  {
    var aliases, declared := Aliases(archives), DeclaredAliases(manifest.archives);
    CardinalityTellsDuplicates(aliases);
    CardinalityTellsDuplicates(declared);
    hide NoDuplicates, Elements;
    if archives == [] || |archives| > 16 || |Elements(aliases)| != |aliases| { return Some(DuplicateAlias); }
    if |declared| != |archives| || |Elements(declared)| != |declared| { return Some(ManifestMismatch); }
    if exists i :: 0 <= i < |archives| && archives[i].alias !in declared { return Some(ManifestMismatch); }
    return None;
  }

  method CheckExclusions(names: Names, exclusions: seq<Exclusion>) returns (failure: Option<Failure>)
    ensures failure.None? <==> ExclusionsAreSound(names, exclusions)
  {
    if exists i :: 0 <= i < |exclusions| && names.normalize(exclusions[i].member).None? { return Some(UnsafePath); }
    var keys := ExclusionKeys(names, exclusions);
    CardinalityTellsDuplicates(keys);
    hide NoDuplicates, Elements;
    if |Elements(keys)| != |keys| { return Some(DuplicateExclusion); }
    return None;
  }

  method CheckDocuments(names: Names, documents: seq<Document>) returns (failure: Option<Failure>)
    ensures failure.None? <==> DocumentsAreSound(names, documents)
  {
    var hashes, sources := Hashes(names, documents), AllSources(documents);
    CardinalityTellsDuplicates(hashes);
    CardinalityTellsDuplicates(SourceKeys(names, sources));
    hide NoDuplicates, Elements, AllSources, SourceKey;
    if exists i :: 0 <= i < |documents| && !names.isHash(hashes[i]) { return Some(DuplicateOrInvalidHash); }
    if |Elements(hashes)| != |hashes| { return Some(DuplicateOrInvalidHash); }
    if exists i :: 0 <= i < |sources| && names.normalize(sources[i].member).None? { return Some(UnsafePath); }
    if |Elements(SourceKeys(names, sources))| != |sources| { return Some(DuplicateSource); }
    return None;
  }

  // ---------------------------------------------------------------- one archive

  /** The first pass: flags, paths, collisions and the running total. */
  method ValidateMembers(names: Names, members: seq<Member>, limit: nat) returns (failure: Option<Failure>)
    ensures failure.None? <==> MembersAreSound(names, members) && TotalSizeOf(members) <= limit
  {
    var total := 0;
    var seen: set<string> := {};
    NothingSound(names);
    for i := 0 to |members|
      invariant MembersAreSound(names, members[..i]) && total == TotalSizeOf(members[..i]) <= limit
      invariant seen == Folded(names, members, i)
    {
      hide MembersAreSound, Folded;
      assert members[..i + 1][..i] == members[..i] && members[..i + 1][i] == members[i];
      TotalGrows(members, i + 1);
      SoundNext(names, members, i);
      if names.normalize(members[i].name).None? { return Some(UnsafePath); }
      if !members[i].sound { return Some(BadMember); }
      var collision := names.fold(NameOf(names, members[i]));
      if collision in seen { return Some(PathCollision); }
      seen := seen + {collision};
      total := total + members[i].size;
      if total > limit { return Some(TotalSize); }
    }
    assert members[..|members|] == members;
    return None;
  }

  function Folded(names: Names, members: seq<Member>, n: nat): set<string>
    requires n <= |members|
  {
    set i | 0 <= i < n :: names.fold(NameOf(names, members[i]))
  }

  lemma {:induction false} NothingSound(names: Names)
    ensures MembersAreSound(names, [])
  {
  }

  lemma {:induction false} SoundNext(names: Names, members: seq<Member>, i: nat)
    requires i < |members|
    ensures MembersAreSound(names, members[..i + 1]) <==>
              MembersAreSound(names, members[..i]) && members[i].sound && names.normalize(members[i].name).Some?
              && names.fold(NameOf(names, members[i])) !in Folded(names, members, i)
    ensures MembersAreSound(names, members) ==> MembersAreSound(names, members[..i + 1])
    ensures Folded(names, members, i + 1) == Folded(names, members, i) + {names.fold(NameOf(names, members[i]))}
    ensures Folded(names, members, 0) == {}
  {
    hide NameOf;
    var longer, shorter := members[..i + 1], members[..i];
    assert forall j :: 0 <= j < i ==> longer[j] == members[j] && shorter[j] == members[j];
    assert longer[i] == members[i];
    if MembersAreSound(names, longer) {
      assert forall j :: 0 <= j < i ==> longer[j].sound && names.normalize(longer[j].name).Some?;
      assert forall j :: 0 <= j < i ==> names.fold(NameOf(names, longer[j])) != names.fold(NameOf(names, longer[i]));
    }
  }

  lemma {:induction false} TotalGrows(members: seq<Member>, n: nat)
    requires n <= |members|
    ensures TotalSizeOf(members[..n]) <= TotalSizeOf(members)
    decreases |members| - n
  {
    if n < |members| {
      assert members[..n + 1][..n] == members[..n];
      TotalGrows(members, n + 1);
    } else {
      assert members[..n] == members;
    }
  }

  /** The second pass: each file is excluded for a proper reason or is a PDF to accept. */
  method SortMembers(names: Names, exclusions: seq<Exclusion>, alias: string, members: seq<Member>)
      returns (failure: Option<Failure>, accepted: seq<Accepted>, excluded: seq<Excluded>)
    ensures failure.None? <==> forall i :: 0 <= i < |members| && !members[i].directory ==> FileIsSound(names, exclusions, alias, members[i])
    ensures failure.None? ==> accepted == AcceptedIn(names, exclusions, alias, members) && excluded == ExcludedIn(names, exclusions, alias, members)
  {
    accepted, excluded := [], [];
    for i := 0 to |members|
      invariant forall j :: 0 <= j < i && !members[j].directory ==> FileIsSound(names, exclusions, alias, members[j])
      invariant accepted == AcceptedIn(names, exclusions, alias, members[..i])
      invariant excluded == ExcludedIn(names, exclusions, alias, members[..i])
    {
      hide ExclusionOf;
      assert members[..i + 1][..i] == members[..i];
      var m := members[i];
      if m.directory { continue; }
      var name := NameOf(names, m);
      var reason := ExclusionOf(names, exclusions, (alias, name));
      if reason.Some? {
        if (reason.value.UnsupportedImage? && !names.isImage(name)) || (reason.value.NestedPackaging? && !names.isNested(name))
           || names.isPdf(name)
        {
          return Some(InvalidExclusion), [], [];
        }
        excluded := excluded + [Excluded((alias, name), reason.value)];
        continue;
      }
      if !names.isPdf(name) { return Some(Unsupported), [], []; }
      if !m.magic { return Some(BadMagic), [], []; }
      accepted := accepted + [Accepted((alias, name), m.sha256, m.size)];
    }
    assert members[..|members|] == members;
    failure := None;
  }

  method InspectArchive(names: Names, manifest: Manifest, limits: Limits, archive: Archive)
      returns (failure: Option<Failure>, accepted: seq<Accepted>, excluded: seq<Excluded>)
    ensures failure.None? <==> ArchiveIsSound(names, manifest, limits, archive)
    ensures failure.None? ==> accepted == AcceptedIn(names, manifest.exclusions, archive.alias, archive.members)
                              && excluded == ExcludedIn(names, manifest.exclusions, archive.alias, archive.members)
  {
    hide MembersAreSound, TotalSizeOf, FileIsSound, AcceptedIn, ExcludedIn, IsMember;
    accepted, excluded := [], [];
    if !archive.readable { return Some(Unreadable), [], []; }
    if !DeclaredAs(manifest, names, archive) { return Some(FingerprintMismatch), [], []; }
    if |archive.members| > limits.maxMembers { return Some(MemberCount), [], []; }
    failure := ValidateMembers(names, archive.members, limits.maxTotalBytes);
    if failure.Some? { return; }
    failure, accepted, excluded := SortMembers(names, manifest.exclusions, archive.alias, archive.members);
    if failure.Some? { return; }
    for i := 0 to |manifest.exclusions|
      invariant forall j :: 0 <= j < i && manifest.exclusions[j].archive == archive.alias ==>
                  IsMember(names, archive.members, names.normalize(manifest.exclusions[j].member))
    {
      var exclusion := manifest.exclusions[i];
      if exclusion.archive == archive.alias && !IsMember(names, archive.members, names.normalize(exclusion.member)) {
        return Some(UnknownExclusion), [], [];
      }
    }
    failure := None;
  }

  // ---------------------------------------------------------------- coverage

  ghost predicate DistinctKeys(accepted: seq<Accepted>) {
    forall i, j :: 0 <= i < j < |accepted| ==> accepted[i].key != accepted[j].key
  }

  function KeysOf(accepted: seq<Accepted>): (keys: seq<Key>)
    ensures |keys| == |accepted| && forall i :: 0 <= i < |keys| ==> keys[i] == accepted[i].key
  {
    if accepted == [] then [] else KeysOf(accepted[..|accepted| - 1]) + [accepted[|accepted| - 1].key]
  }

  /** `new Map(accepted.map(...))` */
  function BySource(accepted: seq<Accepted>): (m: map<Key, Accepted>)
    ensures m.Keys == Elements(KeysOf(accepted))
  {
    if accepted == [] then map[]
    else
      assert Elements(KeysOf(accepted)) == Elements(KeysOf(accepted[..|accepted| - 1])) + {accepted[|accepted| - 1].key};
      BySource(accepted[..|accepted| - 1])[accepted[|accepted| - 1].key := accepted[|accepted| - 1]]
  }

  lemma {:induction false} BySourceFinds(accepted: seq<Accepted>, key: Key, sha256: string)
    requires DistinctKeys(accepted)
    ensures key in BySource(accepted) && BySource(accepted)[key].sha256 == sha256 <==> HasAccepted(accepted, key, sha256)
  {
    if accepted != [] {
      var front, last := accepted[..|accepted| - 1], accepted[|accepted| - 1];
      BySourceFinds(front, key, sha256);
      if i :| 0 <= i < |front| && front[i].key == key && front[i].sha256 == sha256 {
        assert accepted[i] == front[i];
      }
      if i :| 0 <= i < |accepted| && accepted[i].key == key && accepted[i].sha256 == sha256 {
        if i < |front| { assert front[i] == accepted[i]; }
      }
    }
  }

  lemma {:induction false} ListedIsSource(documents: seq<Document>, source: Source) returns (d: nat, s: nat)
    requires source in AllSources(documents)
    ensures d < |documents| && s < |documents[d].sources| && documents[d].sources[s] == source
  {
    var n := |documents| - 1;
    if source in documents[n].sources {
      s :| 0 <= s < |documents[n].sources| && documents[n].sources[s] == source;
      d := n;
    } else {
      d, s := ListedIsSource(documents[..n], source);
    }
  }

  /** Every source of the manifest is an accepted member. */
  ghost predicate SourcesAreAccepted(names: Names, manifest: Manifest, accepted: seq<Accepted>) {
    forall d, s :: 0 <= d < |manifest.documents| && 0 <= s < |manifest.documents[d].sources| ==>
      HasAccepted(accepted, SourceKey(names, manifest.documents[d].sources[s]), names.bare(manifest.documents[d].sha256))
  }

  lemma {:induction false} SourceKeysAreAccepted(names: Names, manifest: Manifest, accepted: seq<Accepted>)
    requires SourcesAreAccepted(names, manifest, accepted)
    ensures Elements(SourceKeys(names, AllSources(manifest.documents))) <= Elements(KeysOf(accepted))
  {
    var sources := AllSources(manifest.documents);
    var keys := SourceKeys(names, sources);
    forall key | key in keys ensures key in KeysOf(accepted) {
      var i :| 0 <= i < |keys| && keys[i] == key;
      assert sources[i] in sources;
      var d, s := ListedIsSource(manifest.documents, sources[i]);
      assert HasAccepted(accepted, SourceKey(names, manifest.documents[d].sources[s]), names.bare(manifest.documents[d].sha256));
      var a :| 0 <= a < |accepted| && accepted[a].key == key;
      assert KeysOf(accepted)[a] == key;
    }
  }

  lemma {:induction false} SubsetOfSameSize<T>(a: set<T>, b: set<T>)
    requires a <= b && |a| == |b|
    ensures a == b
  {
    if x :| x in b && x !in a {
      assert a <= b - {x};
      SubsetIsSmaller(a, b - {x});
    }
  }

  lemma {:induction false} SubsetIsSmaller<T>(a: set<T>, b: set<T>)
    requires a <= b
    ensures |a| <= |b|
  {
    if a != {} {
      var x :| x in a;
      SubsetIsSmaller(a - {x}, b - {x});
    }
  }

  /** As many accepted members as sources, and every source accepted: then every accepted member is a source. */
  lemma {:induction false} CountDecides(names: Names, manifest: Manifest, accepted: seq<Accepted>)
    requires DistinctKeys(accepted) && NoDuplicates(SourceKeys(names, AllSources(manifest.documents)))
    requires SourcesAreAccepted(names, manifest, accepted)
    ensures |accepted| == |AllSources(manifest.documents)| <==>
              forall a :: a in accepted ==> a.key in SourceKeys(names, AllSources(manifest.documents))
  {
    var keys, sourceKeys := KeysOf(accepted), SourceKeys(names, AllSources(manifest.documents));
    SourceKeysAreAccepted(names, manifest, accepted);
    NoDuplicatesCardinality(keys);
    NoDuplicatesCardinality(sourceKeys);
    if |keys| == |sourceKeys| {
      SubsetOfSameSize(Elements(sourceKeys), Elements(keys));
      forall a | a in accepted ensures a.key in sourceKeys {
        var i :| 0 <= i < |accepted| && accepted[i] == a;
        assert keys[i] in Elements(keys);
      }
    }
    if forall a :: a in accepted ==> a.key in sourceKeys {
      forall key | key in Elements(keys) ensures key in Elements(sourceKeys) {
        var i :| 0 <= i < |keys| && keys[i] == key;
        assert accepted[i] in accepted;
      }
      assert Elements(keys) == Elements(sourceKeys);
    }
  }

  /** Compares the counts, then looks every source up: that is enough for the manifest and the accepted
      members to cover each other. */
  method CheckCoverage(names: Names, manifest: Manifest, accepted: seq<Accepted>) returns (failure: Option<Failure>)
    requires DistinctKeys(accepted) && NoDuplicates(SourceKeys(names, AllSources(manifest.documents)))
    ensures failure.None? <==> Covers(names, manifest, accepted)
  {
    hide BySource, AllSources, HasAccepted, NoDuplicates, DistinctKeys, Covers;
    var acceptedBySource := BySource(accepted);
    MapSize(accepted);
    if |acceptedBySource.Keys| != |AllSources(manifest.documents)| {
      CoveredCount(names, manifest, accepted);
      return Some(CoverageMismatch);
    }
    for d := 0 to |manifest.documents|
      invariant forall e :: 0 <= e < d ==> DocumentIsAccepted(names, accepted, manifest.documents[e])
    {
      hide DocumentIsAccepted;
      var document := manifest.documents[d];
      failure := CheckDocument(names, document, accepted, acceptedBySource);
      if failure.Some? {
        UncoveredDocument(names, manifest, accepted, d);
        return;
      }
    }
    AllDocumentsAccepted(names, manifest, accepted);
    return None;
  }

  lemma {:induction false} MapSize(accepted: seq<Accepted>)
    requires DistinctKeys(accepted)
    ensures |BySource(accepted).Keys| == |accepted|
  {
    hide BySource;
    NoDuplicatesCardinality(KeysOf(accepted));
  }

  /** The document has a source, and each of its sources is an accepted member with its hash. */
  predicate DocumentIsAccepted(names: Names, accepted: seq<Accepted>, document: Document) {
    document.sources != []
    && forall s :: 0 <= s < |document.sources| ==> HasAccepted(accepted, SourceKey(names, document.sources[s]), names.bare(document.sha256))
  }

  method CheckDocument(names: Names, document: Document, accepted: seq<Accepted>, acceptedBySource: map<Key, Accepted>)
      returns (failure: Option<Failure>)
    requires DistinctKeys(accepted) && acceptedBySource == BySource(accepted)
    ensures failure.None? <==> DocumentIsAccepted(names, accepted, document)
  {
    hide SourceKey, BySource, HasAccepted, DistinctKeys;
    if document.sources == [] { return Some(CoverageMismatch); }
    var hash := names.bare(document.sha256);
    for s := 0 to |document.sources|
      invariant forall t :: 0 <= t < s ==> HasAccepted(accepted, SourceKey(names, document.sources[t]), hash)
    {
      var key := SourceKey(names, document.sources[s]);
      BySourceFinds(accepted, key, hash);
      if key !in acceptedBySource || acceptedBySource[key].sha256 != hash { return Some(ContentMismatch); }
    }
    return None;
  }

  lemma {:induction false} UncoveredDocument(names: Names, manifest: Manifest, accepted: seq<Accepted>, d: nat)
    requires d < |manifest.documents| && !DocumentIsAccepted(names, accepted, manifest.documents[d])
    ensures !Covers(names, manifest, accepted)
  {
  }

  lemma {:induction false} AllDocumentsAccepted(names: Names, manifest: Manifest, accepted: seq<Accepted>)
    requires DistinctKeys(accepted) && NoDuplicates(SourceKeys(names, AllSources(manifest.documents)))
    requires |accepted| == |AllSources(manifest.documents)|
    requires forall d :: 0 <= d < |manifest.documents| ==> DocumentIsAccepted(names, accepted, manifest.documents[d])
    ensures Covers(names, manifest, accepted)
  {
    hide HasAccepted, SourceKey;
    CountDecides(names, manifest, accepted);
  }

  lemma {:induction false} CoveredCount(names: Names, manifest: Manifest, accepted: seq<Accepted>)
    requires DistinctKeys(accepted) && NoDuplicates(SourceKeys(names, AllSources(manifest.documents)))
    ensures Covers(names, manifest, accepted) ==> |accepted| == |AllSources(manifest.documents)|
  {
    if Covers(names, manifest, accepted) { CountDecides(names, manifest, accepted); }
  }

  // ---------------------------------------------------------------- all archives

  lemma {:induction false} AcceptedKeys(names: Names, exclusions: seq<Exclusion>, alias: string, members: seq<Member>)
    requires MembersAreSound(names, members)
    ensures forall a :: a in AcceptedIn(names, exclusions, alias, members) ==>
              a.key.0 == alias && exists i :: 0 <= i < |members| && NameOf(names, members[i]) == a.key.1
    ensures DistinctKeys(AcceptedIn(names, exclusions, alias, members))
  {
    hide ExclusionOf, NameOf;
    if members != [] {
      var front, last := members[..|members| - 1], members[|members| - 1];
      assert forall i :: 0 <= i < |front| ==> front[i] == members[i];
      AcceptedKeys(names, exclusions, alias, front);
      forall a | a in AcceptedIn(names, exclusions, alias, front)
        ensures a.key != (alias, NameOf(names, last)) && exists i :: 0 <= i < |members| && NameOf(names, members[i]) == a.key.1
      {
        var i :| 0 <= i < |front| && NameOf(names, front[i]) == a.key.1;
        assert names.fold(NameOf(names, members[i])) != names.fold(NameOf(names, last));
        assert NameOf(names, members[i]) == a.key.1;
      }
      assert members[|members| - 1] == last;
      JoinKeys(AcceptedIn(names, exclusions, alias, front),
               if !last.directory && ExclusionOf(names, exclusions, (alias, NameOf(names, last))).None? then
                 [Accepted((alias, NameOf(names, last)), last.sha256, last.size)] else []);
    }
  }

  lemma {:induction false} JoinKeys(a: seq<Accepted>, b: seq<Accepted>)
    requires DistinctKeys(a) && DistinctKeys(b)
    requires forall x, y :: x in a && y in b ==> x.key != y.key
    ensures DistinctKeys(a + b)
  {
    forall i, j | 0 <= i < j < |a + b| ensures (a + b)[i].key != (a + b)[j].key {
      if i < |a| <= j { assert (a + b)[i] in a && (a + b)[j] in b; }
    }
  }

  /** Distinct aliases and distinct paths: no two accepted members share a key. */
  lemma {:induction false} AllAcceptedKeys(names: Names, manifest: Manifest, archives: seq<Archive>)
    requires NoDuplicates(Aliases(archives)) && forall i :: 0 <= i < |archives| ==> MembersAreSound(names, archives[i].members)
    ensures forall a :: a in AllAccepted(names, manifest, archives) ==> a.key.0 in Aliases(archives)
    ensures DistinctKeys(AllAccepted(names, manifest, archives))
  {
    hide MembersAreSound, AcceptedIn;
    if archives != [] {
      var front, last := archives[..|archives| - 1], archives[|archives| - 1];
      assert Aliases(archives)[..|archives| - 1] == Aliases(front);
      assert forall i :: 0 <= i < |front| ==> front[i] == archives[i];
      FrontHasNoDuplicates(Aliases(archives));
      AllAcceptedKeys(names, manifest, front);
      AcceptedKeys(names, manifest.exclusions, last.alias, last.members);
      assert Aliases(archives)[|archives| - 1] == last.alias;
      assert last.alias in Aliases(archives) && forall x :: x in Aliases(front) ==> x in Aliases(archives) && x != last.alias;
      JoinKeys(AllAccepted(names, manifest, front), AcceptedIn(names, manifest.exclusions, last.alias, last.members));
    }
  }

  lemma {:induction false} FrontHasNoDuplicates(s: seq<string>)
    requires NoDuplicates(s) && s != []
    ensures NoDuplicates(s[..|s| - 1]) && s[|s| - 1] !in s[..|s| - 1]
  {
  }

  function HashesOf(accepted: seq<Accepted>): seq<string> {
    if accepted == [] then [] else HashesOf(accepted[..|accepted| - 1]) + [accepted[|accepted| - 1].sha256]
  }

  /** Reads all archives against the manifest. It returns an inventory exactly when everything is sound and
      the accepted members and the manifest's sources cover each other. */
  method InspectArchives(names: Names, archives: seq<Archive>, manifest: Manifest, limits: Limits)
      returns (r: Result<Inventory, Failure>)
    ensures r.Ok? <==> IsSound(names, archives, manifest, limits)
    ensures r.Ok? ==>
              r.value.accepted == AllAccepted(names, manifest, archives) && r.value.excluded == AllExcluded(names, manifest, archives)
              && r.value.occurrenceCount == |r.value.accepted| && r.value.uniqueCount == |Elements(HashesOf(r.value.accepted))|
              && r.value.uniqueCount + r.value.duplicateCount == r.value.occurrenceCount
  {
    hide AliasesMatch, ExclusionsAreSound, DocumentsAreSound, ArchiveIsSound, Covers, AcceptedIn, ExcludedIn, HashesOf;
    var failure := CheckAliases(archives, manifest);
    if failure.Some? { return Err(failure.value); }
    failure := CheckExclusions(names, manifest.exclusions);
    if failure.Some? { return Err(failure.value); }
    failure := CheckDocuments(names, manifest.documents);
    if failure.Some? { return Err(failure.value); }
    var accepted: seq<Accepted>, excluded: seq<Excluded> := [], [];
    for i := 0 to |archives|
      invariant forall j :: 0 <= j < i ==> ArchiveIsSound(names, manifest, limits, archives[j])
      invariant accepted == AllAccepted(names, manifest, archives[..i]) && excluded == AllExcluded(names, manifest, archives[..i])
    {
      assert archives[..i + 1][..i] == archives[..i];
      var problem, more, less := InspectArchive(names, manifest, limits, archives[i]);
      if problem.Some? { return Err(problem.value); }
      accepted, excluded := accepted + more, excluded + less;
    }
    assert archives[..|archives|] == archives;
    SoundKeys(names, manifest, limits, archives);
    failure := CheckCoverage(names, manifest, accepted);
    if failure.Some? { return Err(failure.value); }
    var unique := |Elements(HashesOf(accepted))|;
    CardinalityTellsDuplicates(HashesOf(accepted));
    HashCount(accepted);
    return Ok(Inventory(accepted, excluded, |accepted|, unique, |accepted| - unique));
  }

  lemma {:induction false} HashCount(accepted: seq<Accepted>)
    ensures |HashesOf(accepted)| == |accepted|
    ensures forall i :: 0 <= i < |accepted| ==> HashesOf(accepted)[i] == accepted[i].sha256
  {
    if accepted != [] { HashCount(accepted[..|accepted| - 1]); }
  }

  lemma {:induction false} SoundKeys(names: Names, manifest: Manifest, limits: Limits, archives: seq<Archive>)
    requires AliasesMatch(archives, manifest) && DocumentsAreSound(names, manifest.documents)
    requires forall i :: 0 <= i < |archives| ==> ArchiveIsSound(names, manifest, limits, archives[i])
    ensures DistinctKeys(AllAccepted(names, manifest, archives))
    ensures NoDuplicates(SourceKeys(names, AllSources(manifest.documents)))
  {
    hide MembersAreSound;
    AllAcceptedKeys(names, manifest, archives);
  }

  // ---------------------------------------------------------------- what an inventory guarantees

  /** Although no line checks it: as many different contents as manifest documents, and as many members as
      sources. */
  lemma {:induction false} InventoryCounts(names: Names, archives: seq<Archive>, manifest: Manifest, limits: Limits)
    requires IsSound(names, archives, manifest, limits)
    ensures var accepted := AllAccepted(names, manifest, archives);
            |Elements(HashesOf(accepted))| == |manifest.documents| && |accepted| == |AllSources(manifest.documents)|
  {
    var accepted := AllAccepted(names, manifest, archives);
    SoundKeys(names, manifest, limits, archives);
    CoveredCount(names, manifest, accepted);
    HashCount(accepted);
    var hashes := Hashes(names, manifest.documents);
    NoDuplicatesCardinality(hashes);
    hide AllAccepted, ArchiveIsSound, AliasesMatch;
    forall h | h in HashesOf(accepted) ensures h in hashes {
      var i :| 0 <= i < |accepted| && accepted[i].sha256 == h;
      AcceptedHash(names, manifest, accepted, i);
    }
    forall h | h in hashes ensures h in HashesOf(accepted) {
      var d :| 0 <= d < |hashes| && hashes[d] == h;
      assert HasAccepted(accepted, SourceKey(names, manifest.documents[d].sources[0]), h);
      var i :| 0 <= i < |accepted| && accepted[i].key == SourceKey(names, manifest.documents[d].sources[0]) && accepted[i].sha256 == h;
      assert HashesOf(accepted)[i] == h;
    }
    assert Elements(HashesOf(accepted)) == Elements(hashes);
  }

  /** Each accepted member is a source of a document with its hash. */
  lemma {:induction false} AcceptedHash(names: Names, manifest: Manifest, accepted: seq<Accepted>, i: nat)
    requires DistinctKeys(accepted) && Covers(names, manifest, accepted) && i < |accepted|
    ensures exists d, s :: 0 <= d < |manifest.documents| && 0 <= s < |manifest.documents[d].sources|
                           && accepted[i].key == SourceKey(names, manifest.documents[d].sources[s])
                           && accepted[i].sha256 == names.bare(manifest.documents[d].sha256)
    ensures accepted[i].sha256 in Hashes(names, manifest.documents)
  {
    var sources := AllSources(manifest.documents);
    var keys := SourceKeys(names, sources);
    assert accepted[i] in accepted;
    var k :| 0 <= k < |keys| && keys[k] == accepted[i].key;
    assert sources[k] in sources;
    var d, s := ListedIsSource(manifest.documents, sources[k]);
    var hash := names.bare(manifest.documents[d].sha256);
    assert HasAccepted(accepted, accepted[i].key, hash);
    var j :| 0 <= j < |accepted| && accepted[j].key == accepted[i].key && accepted[j].sha256 == hash;
    assert j == i;
    assert Hashes(names, manifest.documents)[d] == hash;
  }

  /** Every file of every archive is accepted or excluded, never both; directories are neither. */
  lemma {:induction false} EveryFileIsSorted(names: Names, exclusions: seq<Exclusion>, alias: string, members: seq<Member>, i: nat)
    requires MembersAreSound(names, members) && i < |members|
    ensures var key := (alias, NameOf(names, members[i]));
            ((exists a :: a in AcceptedIn(names, exclusions, alias, members) && a.key == key) <==>
               !members[i].directory && ExclusionOf(names, exclusions, key).None?)
            && ((exists e :: e in ExcludedIn(names, exclusions, alias, members) && e.key == key) <==>
                  !members[i].directory && ExclusionOf(names, exclusions, key).Some?)
  {
    hide ExclusionOf, NameOf;
    var front, last := members[..|members| - 1], members[|members| - 1];
    assert forall j :: 0 <= j < |front| ==> front[j] == members[j];
    var key, lastKey := (alias, NameOf(names, members[i])), (alias, NameOf(names, last));
    var accepted, excluded := AcceptedIn(names, exclusions, alias, front), ExcludedIn(names, exclusions, alias, front);
    var acceptsLast := !last.directory && ExclusionOf(names, exclusions, lastKey).None?;
    var excludesLast := !last.directory && ExclusionOf(names, exclusions, lastKey).Some?;
    assert AcceptedIn(names, exclusions, alias, members) ==
             accepted + (if acceptsLast then [Accepted(lastKey, last.sha256, last.size)] else []);
    assert ExcludedIn(names, exclusions, alias, members) ==
             excluded + (if excludesLast then [Excluded(lastKey, ExclusionOf(names, exclusions, lastKey).value)] else []);
    if i < |front| {
      EveryFileIsSorted(names, exclusions, alias, front, i);
      assert names.fold(NameOf(names, members[i])) != names.fold(NameOf(names, members[|members| - 1]));
      assert key != lastKey;
    } else {
      NobodyElse(names, exclusions, alias, members);
      assert acceptsLast ==> Accepted(lastKey, last.sha256, last.size) in AcceptedIn(names, exclusions, alias, members);
      assert excludesLast ==>
               Excluded(lastKey, ExclusionOf(names, exclusions, lastKey).value) in ExcludedIn(names, exclusions, alias, members);
    }
  }

  lemma {:induction false} NobodyElse(names: Names, exclusions: seq<Exclusion>, alias: string, members: seq<Member>)
    requires MembersAreSound(names, members) && members != []
    ensures var front, key := members[..|members| - 1], (alias, NameOf(names, members[|members| - 1]));
            (forall a :: a in AcceptedIn(names, exclusions, alias, front) ==> a.key != key)
            && (forall e :: e in ExcludedIn(names, exclusions, alias, front) ==> e.key != key)
  {
    hide ExclusionOf, NameOf;
    var front, last := members[..|members| - 1], members[|members| - 1];
    assert forall j :: 0 <= j < |front| ==> front[j] == members[j];
    AcceptedKeys(names, exclusions, alias, front);
    ExcludedKeys(names, exclusions, alias, front);
    forall j | 0 <= j < |front| ensures NameOf(names, front[j]) != NameOf(names, last) {
      assert names.fold(NameOf(names, members[j])) != names.fold(NameOf(names, members[|members| - 1]));
    }
  }

  lemma {:induction false} ExcludedKeys(names: Names, exclusions: seq<Exclusion>, alias: string, members: seq<Member>)
    ensures forall e :: e in ExcludedIn(names, exclusions, alias, members) ==>
              e.key.0 == alias && exists i :: 0 <= i < |members| && NameOf(names, members[i]) == e.key.1
  {
    hide ExclusionOf, NameOf;
    if members != [] {
      var front := members[..|members| - 1];
      assert forall i :: 0 <= i < |front| ==> front[i] == members[i];
      ExcludedKeys(names, exclusions, alias, front);
      forall e | e in ExcludedIn(names, exclusions, alias, front) ensures exists i :: 0 <= i < |members| && NameOf(names, members[i]) == e.key.1 {
        var i :| 0 <= i < |front| && NameOf(names, front[i]) == e.key.1;
        assert NameOf(names, members[i]) == e.key.1;
      }
    }
  }
}
