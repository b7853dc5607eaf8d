// Validation of the manifest of the bookkeeping archives
// (backend/scripts/bookkeeping-document-import/manifest.ts).
module Manifests {
  import opened Sequences
  import opened Wrappers
  import Archives

  // ---------------------------------------------------------------- what is read

  /** Entries as read from JSON. `shaped` says that an entry is a record of known keys, with texts, integers,
      lists and booleans where the manifest has them. */
  datatype Declared = Declared(shaped: bool, alias: string, year: int, sha256: string)

  datatype Source = Source(shaped: bool, archive: string, member: string)

  datatype Link = Link(shaped: bool, sourceKey: Option<string>, transactionId: Option<string>, coverage: string)

  datatype Document = Document(
    shaped: bool, sha256: string, sources: seq<Source>, documentType: string, accountId: Option<string>,
    statementMonth: Option<string>, transactions: seq<Link>, unlinkedApproved: Option<bool>)

  datatype Exclusion = Exclusion(shaped: bool, archive: string, member: string, reason: string)

  datatype Manifest = Manifest(
    shaped: bool, schemaVersion: int, archives: seq<Declared>, documents: seq<Document>, exclusions: seq<Exclusion>)

  datatype Failure =
    | InvalidManifest | InvalidArchive | InvalidDocument | DuplicateHash | CardinalityExceeded | InvalidTransaction
    | DuplicateLink | InvalidExclusion

  const MAX_ARCHIVES := 16
  const MAX_DOCUMENTS := 5_000
  const MAX_SOURCES := 64
  const MAX_TRANSACTIONS := 1_000
  const MAX_LINKS := 20_000
  const MAX_EXCLUSIONS := 5_000

  // ---------------------------------------------------------------- texts

  predicate IsOpaque(s: string) {
    1 <= |s| <= 300
    && forall i :: 0 <= i < |s| ==>
         'a' <= s[i] <= 'z' || 'A' <= s[i] <= 'Z' || '0' <= s[i] <= '9' || s[i] in "._:-"
  }

  predicate IsHexHash(s: string) {
    |s| == 64 && forall i :: 0 <= i < 64 ==> '0' <= s[i] <= '9' || 'a' <= s[i] <= 'f'
  }

  const PREFIX := "sha256:"

  /** `s.replace(/^sha256:/, "")` */
  function Bare(s: string): string {
    if PREFIX <= s then s[|PREFIX|..] else s
  }

  /** A hash, with its prefix or without. */
  predicate IsHash(s: string) {
    IsHexHash(s) || (PREFIX <= s && IsHexHash(s[|PREFIX|..]))
  }

  predicate IsMonth(s: string) {
    |s| == 7 && s[4] == '-' && (forall i :: 0 <= i < 7 && i != 4 ==> '0' <= s[i] <= '9')
    && ((s[5] == '0' && s[6] != '0') || (s[5] == '1' && s[6] <= '2'))
  }

  predicate IsMember(s: string) {
    1 <= |s| <= 1024
  }

  // ---------------------------------------------------------------- entries

  predicate ArchiveFits(a: Declared) {
    a.shaped && IsOpaque(a.alias) && 2000 <= a.year <= 2100 && IsHash(a.sha256)
  }

  predicate SourceFits(aliases: set<string>, s: Source) {
    s.shaped && IsOpaque(s.archive) && s.archive in aliases && IsMember(s.member)
  }

  predicate IsStatement(d: Document) {
    d.documentType == "bank-statement" || d.documentType == "private-account-statement"
  }

  predicate DocumentFits(aliases: set<string>, d: Document) {
    && d.shaped && IsHash(d.sha256)
    && d.documentType in {"invoice", "receipt", "bank-statement", "private-account-statement", "other-evidence"}
    && 0 < |d.sources| <= MAX_SOURCES && (forall i :: 0 <= i < |d.sources| ==> SourceFits(aliases, d.sources[i]))
    && (if IsStatement(d) then
          d.accountId.Some? && IsOpaque(d.accountId.value) && d.statementMonth.Some? && IsMonth(d.statementMonth.value)
        else d.accountId.None? && d.statementMonth.None?)
    && |d.transactions| <= MAX_TRANSACTIONS
    && (d.transactions == [] <==> d.unlinkedApproved == Some(true))
  }

  /** A link names its transaction in exactly one way, and statements cover while other documents are evidence. */
  predicate LinkFits(statement: bool, l: Link) {
    && l.shaped && l.sourceKey.Some? != l.transactionId.Some?
    && (l.sourceKey.Some? ==> IsOpaque(l.sourceKey.value)) && (l.transactionId.Some? ==> IsOpaque(l.transactionId.value))
    && l.coverage == if statement then "statement-coverage" else "evidence"
  }

  function Reference(l: Link): string {
    if l.sourceKey.Some? then l.sourceKey.value else if l.transactionId.Some? then l.transactionId.value else ""
  }

  function References(links: seq<Link>): (refs: seq<string>)
    ensures |refs| == |links| && forall i :: 0 <= i < |refs| ==> refs[i] == Reference(links[i])
  {
    if links == [] then [] else References(links[..|links| - 1]) + [Reference(links[|links| - 1])]
  }

  predicate ExclusionFits(aliases: set<string>, e: Exclusion) {
    && e.shaped && IsOpaque(e.archive) && e.archive in aliases && IsMember(e.member)
    && (e.reason == "unsupported-image" || e.reason == "nested-packaging-archive")
  }

  // ---------------------------------------------------------------- the whole manifest

  function Aliases(archives: seq<Declared>): (aliases: seq<string>)
    ensures |aliases| == |archives| && forall i :: 0 <= i < |aliases| ==> aliases[i] == archives[i].alias
  {
    if archives == [] then [] else Aliases(archives[..|archives| - 1]) + [archives[|archives| - 1].alias]
  }

  function Hashes(documents: seq<Document>): (hashes: seq<string>)
    ensures |hashes| == |documents| && forall i :: 0 <= i < |hashes| ==> hashes[i] == Bare(documents[i].sha256)
  {
    if documents == [] then [] else Hashes(documents[..|documents| - 1]) + [Bare(documents[|documents| - 1].sha256)]
  }

  function TotalLinks(documents: seq<Document>): nat {
    if documents == [] then 0 else TotalLinks(documents[..|documents| - 1]) + |documents[|documents| - 1].transactions|
  }

  ghost predicate LinksFit(statement: bool, links: seq<Link>) {
    (forall i :: 0 <= i < |links| ==> LinkFits(statement, links[i])) && NoDuplicates(References(links))
  }

  ghost predicate ArchivesFit(archives: seq<Declared>) {
    (forall i :: 0 <= i < |archives| ==> ArchiveFits(archives[i])) && NoDuplicates(Aliases(archives))
  }

  /** A document that fits and whose links fit. */
  ghost predicate WholeFits(aliases: set<string>, d: Document) {
    DocumentFits(aliases, d) && LinksFit(IsStatement(d), d.transactions)
  }

  ghost predicate DocumentsFit(aliases: set<string>, documents: seq<Document>) {
    (forall i :: 0 <= i < |documents| ==> WholeFits(aliases, documents[i]))
    && NoDuplicates(Hashes(documents)) && TotalLinks(documents) <= MAX_LINKS
  }

  ghost predicate IsValid(m: Manifest) {
    && m.shaped && m.schemaVersion == 1
    && 0 < |m.archives| <= MAX_ARCHIVES && |m.documents| <= MAX_DOCUMENTS && |m.exclusions| <= MAX_EXCLUSIONS
    && ArchivesFit(m.archives) && DocumentsFit(Elements(Aliases(m.archives)), m.documents)
    && forall i :: 0 <= i < |m.exclusions| ==> ExclusionFits(Elements(Aliases(m.archives)), m.exclusions[i])
  }

  // ---------------------------------------------------------------- the loops

  /** A list grown by one element still has no duplicates exactly when the element is new. */
  lemma {:induction false} GrownWithoutDuplicates<T(!new)>(s: seq<T>, x: T)
    ensures NoDuplicates(s + [x]) <==> NoDuplicates(s) && x !in s
  {
    var t := s + [x];
    if NoDuplicates(t) {
      forall i, j | 0 <= i < j < |s| ensures s[i] != s[j] { assert t[i] != t[j]; }
      forall i | 0 <= i < |s| ensures s[i] != x { assert t[i] != t[|s|]; }
    }
  }

  lemma {:induction false} PrefixWithoutDuplicates<T(!new)>(s: seq<T>, n: nat)
    requires n <= |s| && NoDuplicates(s)
    ensures NoDuplicates(s[..n])
  {
  }

  method CheckArchives(archives: seq<Declared>) returns (failure: Option<Failure>, archiveAliases: set<string>)
    ensures failure.None? <==> ArchivesFit(archives)
    ensures failure.None? ==> archiveAliases == Elements(Aliases(archives))
  {
    archiveAliases := {};
    for i := 0 to |archives|
      invariant ArchivesFit(archives[..i]) && archiveAliases == Elements(Aliases(archives[..i]))
    {
      assert archives[..i + 1][..i] == archives[..i];
      assert Aliases(archives[..i + 1]) == Aliases(archives[..i]) + [archives[i].alias];
      GrownWithoutDuplicates(Aliases(archives[..i]), archives[i].alias);
      if !ArchiveFits(archives[i]) || archives[i].alias in archiveAliases {
        if ArchivesFit(archives) { PrefixFits(archives, i + 1); }
        return Some(InvalidArchive), archiveAliases;
      }
      archiveAliases := archiveAliases + {archives[i].alias};
    }
    assert archives[..|archives|] == archives;
    failure := None;
  }

  lemma {:induction false} PrefixFits(archives: seq<Declared>, n: nat)
    requires n <= |archives| && ArchivesFit(archives)
    ensures ArchivesFit(archives[..n])
  {
    PrefixWithoutDuplicates(Aliases(archives), n);
    assert Aliases(archives)[..n] == Aliases(archives[..n]);
  }

  /** What the set of links holds. */
  function Tuples(links: seq<Link>): set<(string, string)> {
    set l | l in links :: (Reference(l), l.coverage)
  }

  lemma {:induction false} TuplesGrow(links: seq<Link>, i: nat)
    requires i < |links|
    ensures Tuples(links[..i + 1]) == Tuples(links[..i]) + {(Reference(links[i]), links[i].coverage)}
  {
    hide Reference;
    assert links[..i + 1] == links[..i] + [links[i]];
  }

  lemma {:induction false} ReferencesGrow(links: seq<Link>, i: nat)
    requires i < |links|
    ensures References(links[..i + 1]) == References(links[..i]) + [Reference(links[i])]
  {
    hide Reference;
    assert links[..i + 1][..i] == links[..i];
  }

  lemma {:induction false} LinksGrow(statement: bool, links: seq<Link>, i: nat)
    requires i < |links|
    ensures LinksFit(statement, links[..i + 1]) <==>
              LinksFit(statement, links[..i]) && LinkFits(statement, links[i]) && Reference(links[i]) !in References(links[..i])
  {
    hide LinkFits, NoDuplicates, Reference, References;
    ReferencesGrow(links, i);
    GrownWithoutDuplicates(References(links[..i]), Reference(links[i]));
    var shorter, longer := links[..i], links[..i + 1];
    if LinksFit(statement, longer) {
      forall j | 0 <= j < i ensures LinkFits(statement, shorter[j]) { assert LinkFits(statement, longer[j]); }
      assert LinkFits(statement, longer[i]);
    }
    if LinksFit(statement, shorter) && LinkFits(statement, links[i]) {
      forall j | 0 <= j <= i ensures LinkFits(statement, longer[j]) { assert j < i ==> LinkFits(statement, shorter[j]); }
    }
  }

  /** Coverage is the same for all links of a document, so it tells no two of them apart. */
  lemma {:induction false} TupleIsReference(statement: bool, links: seq<Link>, l: Link)
    requires LinksFit(statement, links) && LinkFits(statement, l)
    ensures (Reference(l), l.coverage) in Tuples(links) <==> Reference(l) in References(links)
  {
    hide NoDuplicates, Reference;
    if Reference(l) in References(links) {
      var j :| 0 <= j < |links| && References(links)[j] == Reference(l);
      assert links[j] in links && links[j].coverage == l.coverage;
    }
    if (Reference(l), l.coverage) in Tuples(links) {
      var m :| m in links && Reference(m) == Reference(l);
      var j :| 0 <= j < |links| && links[j] == m;
      assert References(links)[j] == Reference(l);
    }
  }

  lemma {:induction false} PrefixOfLinks(statement: bool, links: seq<Link>, n: nat)
    requires n <= |links| && LinksFit(statement, links)
    ensures LinksFit(statement, links[..n])
  {
    hide LinkFits, Reference;
    PrefixWithoutDuplicates(References(links), n);
    assert References(links)[..n] == References(links[..n]);
    hide References, NoDuplicates;
  }

  method CheckLinks(statement: bool, transactions: seq<Link>) returns (failure: Option<Failure>)
    ensures failure.None? <==> LinksFit(statement, transactions)
  {
    hide LinkFits, LinksFit, Reference, Tuples;
    assert LinksFit(statement, []) && Tuples([]) == {} by { NoLinks(statement); }
    var links: set<(string, string)> := {};
    for i := 0 to |transactions|
      invariant LinksFit(statement, transactions[..i]) && links == Tuples(transactions[..i])
    {
      var link := transactions[i];
      LinksGrow(statement, transactions, i);
      TuplesGrow(transactions, i);
      if LinksFit(statement, transactions) { PrefixOfLinks(statement, transactions, i + 1); }
      if !LinkFits(statement, link) { return Some(InvalidTransaction); }
      TupleIsReference(statement, transactions[..i], link);
      if (Reference(link), link.coverage) in links { return Some(DuplicateLink); }
      links := links + {(Reference(link), link.coverage)};
    }
    assert transactions[..|transactions|] == transactions;
    return None;
  }

  lemma {:induction false} NoLinks(statement: bool)
    ensures LinksFit(statement, []) && Tuples([]) == {}
  {
  }

  lemma {:induction false} HashesGrow(documents: seq<Document>, i: nat)
    requires i < |documents|
    ensures Hashes(documents[..i + 1]) == Hashes(documents[..i]) + [Bare(documents[i].sha256)]
    ensures Elements(Hashes(documents[..i + 1])) == Elements(Hashes(documents[..i])) + {Bare(documents[i].sha256)}
    ensures TotalLinks(documents[..i + 1]) == TotalLinks(documents[..i]) + |documents[i].transactions|
  {
    hide Bare;
    assert documents[..i + 1][..i] == documents[..i];
  }

  lemma {:induction false} DocumentsGrow(aliases: set<string>, documents: seq<Document>, i: nat)
    requires i < |documents|
    ensures DocumentsFit(aliases, documents[..i + 1]) <==>
              && DocumentsFit(aliases, documents[..i]) && WholeFits(aliases, documents[i])
              && Bare(documents[i].sha256) !in Hashes(documents[..i]) && TotalLinks(documents[..i + 1]) <= MAX_LINKS
  {
    hide WholeFits, NoDuplicates, Bare, Hashes, TotalLinks, Elements;
    HashesGrow(documents, i);
    GrownWithoutDuplicates(Hashes(documents[..i]), Bare(documents[i].sha256));
    var shorter, longer := documents[..i], documents[..i + 1];
    if DocumentsFit(aliases, longer) {
      forall j | 0 <= j < i ensures WholeFits(aliases, shorter[j]) { assert WholeFits(aliases, longer[j]); }
      assert WholeFits(aliases, longer[i]);
    }
    if DocumentsFit(aliases, shorter) && WholeFits(aliases, documents[i]) {
      forall j | 0 <= j <= i ensures WholeFits(aliases, longer[j]) { assert j < i ==> WholeFits(aliases, shorter[j]); }
    }
  }

  /** The running total may stop the loop early: totals only grow. */
  method CheckDocuments(archiveAliases: set<string>, documents: seq<Document>) returns (failure: Option<Failure>)
    ensures failure.None? <==> DocumentsFit(archiveAliases, documents)
  {
    hide DocumentFits, LinksFit, Bare, IsStatement, DocumentsFit, Elements, Hashes;
    assert DocumentsFit(archiveAliases, []) && Elements(Hashes([])) == {} by { NoDocuments(archiveAliases); }
    var documentHashes: set<string>, totalLinks := {}, 0;
    for i := 0 to |documents|
      invariant DocumentsFit(archiveAliases, documents[..i])
      invariant documentHashes == Elements(Hashes(documents[..i])) && totalLinks == TotalLinks(documents[..i])
    {
      hide TotalLinks;
      var document := documents[i];
      DocumentsGrow(archiveAliases, documents, i);
      HashesGrow(documents, i);
      if DocumentsFit(archiveAliases, documents) { PrefixOfDocuments(archiveAliases, documents, i + 1); }
      if !DocumentFits(archiveAliases, document) { return Some(InvalidDocument); }
      InElements(Hashes(documents[..i]), Bare(document.sha256));
      if Bare(document.sha256) in documentHashes { return Some(DuplicateHash); }
      documentHashes := documentHashes + {Bare(document.sha256)};
      totalLinks := totalLinks + |document.transactions|;
      if totalLinks > MAX_LINKS { return Some(CardinalityExceeded); }
      failure := CheckLinks(IsStatement(document), document.transactions);
      if failure.Some? { return; }
    }
    assert documents[..|documents|] == documents;
    failure := None;
  }

  lemma {:induction false} NoDocuments(aliases: set<string>)
    ensures DocumentsFit(aliases, []) && Elements(Hashes([])) == {}
  {
  }

  lemma {:induction false} InElements<T>(s: seq<T>, x: T)
    ensures x in Elements(s) <==> x in s
  {
  }

  lemma {:induction false} TotalLinksGrow(documents: seq<Document>, n: nat)
    requires n <= |documents|
    ensures TotalLinks(documents[..n]) <= TotalLinks(documents)
    decreases |documents| - n
  {
    if n == |documents| {
      assert documents[..n] == documents;
    } else {
      TotalLinksGrow(documents, n + 1);
      assert documents[..n + 1][..n] == documents[..n];
    }
  }

  lemma {:induction false} PrefixOfDocuments(aliases: set<string>, documents: seq<Document>, n: nat)
    requires n <= |documents| && DocumentsFit(aliases, documents)
    ensures DocumentsFit(aliases, documents[..n])
  {
    TotalLinksGrow(documents, n);
    PrefixWithoutDuplicates(Hashes(documents), n);
    assert Hashes(documents)[..n] == Hashes(documents[..n]);
    hide WholeFits;
  }

  /** A manifest is accepted exactly when it is valid. */
  method ValidateManifest(m: Manifest) returns (failure: Option<Failure>)
    ensures failure.None? <==> IsValid(m)
  {
    hide ArchivesFit, DocumentsFit, ExclusionFits, Elements;
    if !m.shaped || m.schemaVersion != 1 || m.archives == [] || |m.archives| > MAX_ARCHIVES
       || |m.documents| > MAX_DOCUMENTS || |m.exclusions| > MAX_EXCLUSIONS {
      return Some(InvalidManifest);
    }
    var archiveAliases;
    failure, archiveAliases := CheckArchives(m.archives);
    if failure.Some? { return; }
    failure := CheckDocuments(archiveAliases, m.documents);
    if failure.Some? { return; }
    for i := 0 to |m.exclusions|
      invariant forall j :: 0 <= j < i ==> ExclusionFits(archiveAliases, m.exclusions[j])
    {
      if !ExclusionFits(archiveAliases, m.exclusions[i]) { return Some(InvalidExclusion); }
    }
    return None;
  }

  // ---------------------------------------------------------------- what the inspection may rely on

  function Inspected(m: Manifest): Archives.Manifest {
    Archives.Manifest(
      seq(|m.archives|, i requires 0 <= i < |m.archives| => Archives.Declared(m.archives[i].alias, m.archives[i].sha256)),
      seq(|m.documents|, i requires 0 <= i < |m.documents| =>
        Archives.Document(m.documents[i].sha256, InspectedSources(m.documents[i].sources))),
      seq(|m.exclusions|, i requires 0 <= i < |m.exclusions| =>
        Archives.Exclusion(m.exclusions[i].archive, m.exclusions[i].member,
                           if m.exclusions[i].reason == "unsupported-image" then Archives.UnsupportedImage else Archives.NestedPackaging)))
  }

  function InspectedSources(sources: seq<Source>): (s: seq<Archives.Source>)
    ensures |s| == |sources|
    ensures forall i :: 0 <= i < |s| ==> s[i] == Archives.Source(sources[i].archive, sources[i].member)
  {
    seq(|sources|, i requires 0 <= i < |sources| => Archives.Source(sources[i].archive, sources[i].member))
  }

  lemma {:induction false} BareHash(s: string)
    requires IsHash(s)
    ensures IsHexHash(Bare(s))
  {
    if PREFIX <= s {
      assert |s| == 64 ==> s[6] == PREFIX[6] == ':';
    }
  }

  /** For a valid manifest several checks of the inspection cannot fail: declared aliases are distinct, hashes
      are hashes and distinct, every document has a source, and sources and exclusions name declared
      archives. Of the documents only unsafe or repeated member paths are left to refuse. */
  lemma {:induction false} ValidPassesInspection(names: Archives.Names, m: Manifest)
    requires IsValid(m) && forall s :: names.bare(s) == Bare(s) && (names.isHash(s) <==> IsHexHash(s))
    ensures var i := Inspected(m); var sources := Archives.AllSources(i.documents);
            && NoDuplicates(Archives.DeclaredAliases(i.archives))
            && (forall d :: 0 <= d < |i.documents| ==> i.documents[d].sources != [])
            && (forall s :: s in sources ==> s.archive in Archives.DeclaredAliases(i.archives))
            && (forall e :: e in i.exclusions ==> e.archive in Archives.DeclaredAliases(i.archives))
            && (Archives.DocumentsAreSound(names, i.documents) <==>
                  (forall s :: s in sources ==> names.normalize(s.member).Some?)
                  && NoDuplicates(Archives.SourceKeys(names, sources)))
  {
    hide IsValid, Archives.AllSources, NoDuplicates, Archives.SourceKey, Inspected, IsHexHash, Bare;
    InspectedIs(names, m);
    SourcesAreDeclared(m, |m.documents|);
    var i := Inspected(m);
    assert i.documents[..|m.documents|] == i.documents;
    ValidIsDistinct(m);
    SoundDocuments(names, i.documents);
  }

  lemma {:induction false} SoundDocuments(names: Archives.Names, documents: seq<Archives.Document>)
    requires forall d :: 0 <= d < |documents| ==> names.isHash(names.bare(documents[d].sha256))
    requires NoDuplicates(Archives.Hashes(names, documents))
    ensures var sources := Archives.AllSources(documents);
            Archives.DocumentsAreSound(names, documents) <==>
              (forall s :: s in sources ==> names.normalize(s.member).Some?) && NoDuplicates(Archives.SourceKeys(names, sources))
  {
    hide Archives.AllSources, NoDuplicates, Archives.SourceKeys, Archives.Hashes;
    var sources := Archives.AllSources(documents);
    forall k | 0 <= k < |sources| ensures sources[k] in sources {}
  }

  lemma {:induction false} ValidIsDistinct(m: Manifest)
    requires IsValid(m)
    ensures NoDuplicates(Aliases(m.archives)) && NoDuplicates(Hashes(m.documents))
  {
  }

  lemma {:induction false} InspectedIs(names: Archives.Names, m: Manifest)
    requires IsValid(m) && forall s :: names.bare(s) == Bare(s) && (names.isHash(s) <==> IsHexHash(s))
    ensures var i := Inspected(m);
            && |i.documents| == |m.documents| && Archives.DeclaredAliases(i.archives) == Aliases(m.archives)
            && Archives.Hashes(names, i.documents) == Hashes(m.documents)
            && (forall d :: 0 <= d < |i.documents| ==> names.isHash(names.bare(i.documents[d].sha256)) && i.documents[d].sources != [])
            && (forall e :: e in i.exclusions ==> e.archive in Aliases(m.archives))
  {
    hide NoDuplicates, IsHexHash, WholeFits, Bare, ArchivesFit, IsHash;
    var i := Inspected(m);
    forall d | 0 <= d < |i.documents| ensures names.isHash(names.bare(i.documents[d].sha256)) && i.documents[d].sources != [] {
      WholeFacts(Elements(Aliases(m.archives)), m.documents[d]);
      BareHash(m.documents[d].sha256);
    }
    InspectedExclusions(m);
    hide DocumentsFit, ExclusionFits;
    assert Archives.DeclaredAliases(i.archives) == Aliases(m.archives);
    assert Archives.Hashes(names, i.documents) == Hashes(m.documents);
  }

  lemma {:induction false} WholeFacts(aliases: set<string>, d: Document)
    requires WholeFits(aliases, d)
    ensures IsHash(d.sha256) && d.sources != [] && forall k :: 0 <= k < |d.sources| ==> d.sources[k].archive in aliases
  {
    hide IsHash, IsOpaque, IsMonth, LinksFit;
  }

  lemma {:induction false} InspectedExclusions(m: Manifest)
    requires IsValid(m)
    ensures forall e :: e in Inspected(m).exclusions ==> e.archive in Aliases(m.archives)
  {
    hide ArchivesFit, DocumentsFit, IsOpaque;
    var exclusions := Inspected(m).exclusions;
    forall k | 0 <= k < |exclusions| ensures exclusions[k].archive in Aliases(m.archives) {
      assert ExclusionFits(Elements(Aliases(m.archives)), m.exclusions[k]);
    }
  }

  lemma {:induction false} SourcesAreDeclared(m: Manifest, n: nat)
    requires IsValid(m) && n <= |m.documents|
    ensures forall s :: s in Archives.AllSources(Inspected(m).documents[..n]) ==> s.archive in Aliases(m.archives)
  {
    hide WholeFits, ArchivesFit, NoDuplicates, ExclusionFits;
    if n > 0 {
      SourcesAreDeclared(m, n - 1);
      var documents := Inspected(m).documents;
      assert documents[..n][..n - 1] == documents[..n - 1];
      var sources := documents[n - 1].sources;
      forall k | 0 <= k < |sources| ensures sources[k].archive in Aliases(m.archives) {
        WholeFacts(Elements(Aliases(m.archives)), m.documents[n - 1]);
      }
    }
  }
}
