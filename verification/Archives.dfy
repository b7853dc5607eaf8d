// Reading the members of the bookkeeping archives against their manifest
// (backend/scripts/bookkeeping-document-import/archive.ts).
module Archives {
  import opened Sequences
  import opened Wrappers

  /** What the reader asks of names: their normal form, None for an unsafe path; the form two names must not
      share; their file kind; a hash without its prefix, and whether it is one. */
  datatype Names = Names(
    normalize: string -> Option<string>, fold: string -> string, isPdf: string -> bool, isImage: string -> bool,
    isNested: string -> bool, bare: string -> string, isHash: string -> bool)

  /** An archive member. `sound` says that its own flags, sizes and compression ratio are in order; `magic`
      that its content starts like a PDF. */
  datatype Member = Member(name: string, directory: bool, sound: bool, size: nat, magic: bool, sha256: string)

  datatype Archive = Archive(alias: string, readable: bool, fingerprint: string, members: seq<Member>)

  datatype Declared = Declared(alias: string, sha256: string)

  datatype Source = Source(archive: string, member: string)

  datatype Document = Document(sha256: string, sources: seq<Source>)

  datatype Reason = UnsupportedImage | NestedPackaging

  datatype Exclusion = Exclusion(archive: string, member: string, reason: Reason)

  datatype Manifest = Manifest(archives: seq<Declared>, documents: seq<Document>, exclusions: seq<Exclusion>)

  /** An archive's alias and a normalized member name. */
  type Key = (string, string)

  datatype Accepted = Accepted(key: Key, sha256: string, byteSize: nat)

  datatype Excluded = Excluded(key: Key, reason: Reason)

  datatype Inventory = Inventory(accepted: seq<Accepted>, excluded: seq<Excluded>, occurrenceCount: nat, uniqueCount: nat, duplicateCount: nat)

  datatype Limits = Limits(maxMembers: nat, maxTotalBytes: nat)

  datatype Failure =
    | DuplicateAlias | ManifestMismatch | UnsafePath | DuplicateExclusion | DuplicateOrInvalidHash | DuplicateSource
    | Unreadable | FingerprintMismatch | MemberCount | BadMember | PathCollision | TotalSize | InvalidExclusion
    | Unsupported | BadMagic | UnknownExclusion | CoverageMismatch | ContentMismatch

  // ---------------------------------------------------------------- one archive

  function NameOf(names: Names, m: Member): string {
    var n := names.normalize(m.name);
    if n.Some? then n.value else ""
  }

  /** Every member is sound, has a safe path, and shares its folded path with no other. */
  ghost predicate MembersAreSound(names: Names, members: seq<Member>) {
    (forall i :: 0 <= i < |members| ==> members[i].sound && names.normalize(members[i].name).Some?)
    && forall i, j :: 0 <= i < j < |members| ==> names.fold(NameOf(names, members[i])) != names.fold(NameOf(names, members[j]))
  }

  function TotalSizeOf(members: seq<Member>): nat {
    if members == [] then 0 else TotalSizeOf(members[..|members| - 1]) + members[|members| - 1].size
  }

  /** The reason a key is excluded for, if it is. */
  function ExclusionOf(names: Names, exclusions: seq<Exclusion>, key: Key): Option<Reason> {
    if exclusions == [] then None
    else
      var last := exclusions[|exclusions| - 1];
      if last.archive == key.0 && names.normalize(last.member) == Some(key.1) then Some(last.reason)
      else ExclusionOf(names, exclusions[..|exclusions| - 1], key)
  }

  predicate ProperExclusion(names: Names, name: string, reason: Reason) {
    (reason.UnsupportedImage? ==> names.isImage(name)) && (reason.NestedPackaging? ==> names.isNested(name)) && !names.isPdf(name)
  }

  /** A file is properly excluded, or is a PDF. */
  predicate FileIsSound(names: Names, exclusions: seq<Exclusion>, alias: string, m: Member) {
    var name := NameOf(names, m);
    var reason := ExclusionOf(names, exclusions, (alias, name));
    if reason.Some? then ProperExclusion(names, name, reason.value) else names.isPdf(name) && m.magic
  }

  function AcceptedIn(names: Names, exclusions: seq<Exclusion>, alias: string, members: seq<Member>): seq<Accepted> {
    if members == [] then []
    else
      var m := members[|members| - 1];
      var key := (alias, NameOf(names, m));
      AcceptedIn(names, exclusions, alias, members[..|members| - 1])
      + (if !m.directory && ExclusionOf(names, exclusions, key).None? then [Accepted(key, m.sha256, m.size)] else [])
  }

  function ExcludedIn(names: Names, exclusions: seq<Exclusion>, alias: string, members: seq<Member>): seq<Excluded> {
    if members == [] then []
    else
      var m := members[|members| - 1];
      var key := (alias, NameOf(names, m));
      var reason := ExclusionOf(names, exclusions, key);
      ExcludedIn(names, exclusions, alias, members[..|members| - 1])
      + (if !m.directory && reason.Some? then [Excluded(key, reason.value)] else [])
  }

  predicate IsMember(names: Names, members: seq<Member>, name: Option<string>) {
    exists i :: 0 <= i < |members| && Some(NameOf(names, members[i])) == name
  }

  predicate DeclaredAs(manifest: Manifest, names: Names, archive: Archive) {
    exists i :: 0 <= i < |manifest.archives| && manifest.archives[i].alias == archive.alias
                && names.bare(manifest.archives[i].sha256) == archive.fingerprint
  }

  ghost predicate ArchiveIsSound(names: Names, manifest: Manifest, limits: Limits, archive: Archive) {
    && archive.readable && DeclaredAs(manifest, names, archive)
    && |archive.members| <= limits.maxMembers && MembersAreSound(names, archive.members)
    && TotalSizeOf(archive.members) <= limits.maxTotalBytes
    && (forall i :: 0 <= i < |archive.members| && !archive.members[i].directory ==>
          FileIsSound(names, manifest.exclusions, archive.alias, archive.members[i]))
    && (forall i :: 0 <= i < |manifest.exclusions| && manifest.exclusions[i].archive == archive.alias ==>
          IsMember(names, archive.members, names.normalize(manifest.exclusions[i].member)))
  }

  function AllAccepted(names: Names, manifest: Manifest, archives: seq<Archive>): seq<Accepted> {
    if archives == [] then []
    else
      var last := archives[|archives| - 1];
      AllAccepted(names, manifest, archives[..|archives| - 1]) + AcceptedIn(names, manifest.exclusions, last.alias, last.members)
  }

  function AllExcluded(names: Names, manifest: Manifest, archives: seq<Archive>): seq<Excluded> {
    if archives == [] then []
    else
      var last := archives[|archives| - 1];
      AllExcluded(names, manifest, archives[..|archives| - 1]) + ExcludedIn(names, manifest.exclusions, last.alias, last.members)
  }

  // ---------------------------------------------------------------- the manifest

  function SourceKey(names: Names, s: Source): Key {
    var n := names.normalize(s.member);
    (s.archive, if n.Some? then n.value else "")
  }

  function SourceKeys(names: Names, sources: seq<Source>): (keys: seq<Key>)
    ensures |keys| == |sources| && forall i :: 0 <= i < |keys| ==> keys[i] == SourceKey(names, sources[i])
  {
    if sources == [] then [] else SourceKeys(names, sources[..|sources| - 1]) + [SourceKey(names, sources[|sources| - 1])]
  }

  function AllSources(documents: seq<Document>): seq<Source> {
    if documents == [] then [] else AllSources(documents[..|documents| - 1]) + documents[|documents| - 1].sources
  }

  function Hashes(names: Names, documents: seq<Document>): (hashes: seq<string>)
    ensures |hashes| == |documents| && forall i :: 0 <= i < |hashes| ==> hashes[i] == names.bare(documents[i].sha256)
  {
    if documents == [] then [] else Hashes(names, documents[..|documents| - 1]) + [names.bare(documents[|documents| - 1].sha256)]
  }

  function ExclusionKeys(names: Names, exclusions: seq<Exclusion>): (keys: seq<Key>)
    ensures |keys| == |exclusions|
    ensures forall i :: 0 <= i < |keys| ==> keys[i] == SourceKey(names, Source(exclusions[i].archive, exclusions[i].member))
  {
    if exclusions == [] then []
    else ExclusionKeys(names, exclusions[..|exclusions| - 1])
         + [SourceKey(names, Source(exclusions[|exclusions| - 1].archive, exclusions[|exclusions| - 1].member))]
  }

  function Aliases(archives: seq<Archive>): (aliases: seq<string>)
    ensures |aliases| == |archives| && forall i :: 0 <= i < |aliases| ==> aliases[i] == archives[i].alias
  {
    if archives == [] then [] else Aliases(archives[..|archives| - 1]) + [archives[|archives| - 1].alias]
  }

  function DeclaredAliases(archives: seq<Declared>): (aliases: seq<string>)
    ensures |aliases| == |archives| && forall i :: 0 <= i < |aliases| ==> aliases[i] == archives[i].alias
  {
    if archives == [] then [] else DeclaredAliases(archives[..|archives| - 1]) + [archives[|archives| - 1].alias]
  }

  ghost predicate ExclusionsAreSound(names: Names, exclusions: seq<Exclusion>) {
    (forall i :: 0 <= i < |exclusions| ==> names.normalize(exclusions[i].member).Some?)
    && NoDuplicates(ExclusionKeys(names, exclusions))
  }

  ghost predicate DocumentsAreSound(names: Names, documents: seq<Document>) {
    (forall i :: 0 <= i < |documents| ==> names.isHash(names.bare(documents[i].sha256)))
    && NoDuplicates(Hashes(names, documents))
    && (forall i :: 0 <= i < |AllSources(documents)| ==> names.normalize(AllSources(documents)[i].member).Some?)
    && NoDuplicates(SourceKeys(names, AllSources(documents)))
  }

  ghost predicate ManifestIsSound(names: Names, manifest: Manifest) {
    ExclusionsAreSound(names, manifest.exclusions) && DocumentsAreSound(names, manifest.documents)
  }

  ghost predicate AliasesMatch(archives: seq<Archive>, manifest: Manifest) {
    && 0 < |archives| <= 16 && NoDuplicates(Aliases(archives))
    && |manifest.archives| == |archives| && NoDuplicates(DeclaredAliases(manifest.archives))
    && forall i :: 0 <= i < |archives| ==> archives[i].alias in DeclaredAliases(manifest.archives)
  }

  /** The manifest and the accepted members cover each other: every document has a source, every source is
      an accepted member with the document's hash, and every accepted member is a source. */
  ghost predicate Covers(names: Names, manifest: Manifest, accepted: seq<Accepted>) {
    && (forall d :: 0 <= d < |manifest.documents| ==> manifest.documents[d].sources != [])
    && (forall d, s :: 0 <= d < |manifest.documents| && 0 <= s < |manifest.documents[d].sources| ==>
          HasAccepted(accepted, SourceKey(names, manifest.documents[d].sources[s]), names.bare(manifest.documents[d].sha256)))
    && (forall a :: a in accepted ==> a.key in SourceKeys(names, AllSources(manifest.documents)))
  }

  predicate HasAccepted(accepted: seq<Accepted>, key: Key, sha256: string) {
    exists i :: 0 <= i < |accepted| && accepted[i].key == key && accepted[i].sha256 == sha256
  }

  ghost predicate IsSound(names: Names, archives: seq<Archive>, manifest: Manifest, limits: Limits) {
    && AliasesMatch(archives, manifest) && ManifestIsSound(names, manifest)
    && (forall i :: 0 <= i < |archives| ==> ArchiveIsSound(names, manifest, limits, archives[i]))
    && Covers(names, manifest, AllAccepted(names, manifest, archives))
  }
}
