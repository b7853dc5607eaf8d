// Splitting one payment over invoices: the validation that a split must pass before it is stored
// (backend/src/bookkeepingAllocations.ts).
module Allocations {
  import opened Cents
  import Decimal
  import opened Doubles
  import opened Sequences
  import opened Text
  import opened Wrappers

  /** The locale-dependent text functions: `toUpperCase`, `toLowerCase` and the canonical vendor label. */
  datatype Words = Words(upper: string -> string, lower: string -> string, vendor: string -> string) {
    ghost predicate Lawful() {
      (forall s :: upper(Trim(upper(Trim(s)))) == upper(Trim(s)) && Tight(upper(Trim(s))))
      && (forall s :: vendor(s) != "" && Tight(vendor(s)))
    }
  }

  /** One entry of the request. None stands for an absent or null field; `proportional` says that a
      percentage, share, ratio or weight is given. */
  datatype Raw =
    | NotAnObject
    | Item(id: Option<string>, documentId: Option<string>, pdfDocumentId: Option<string>, invoiceId: Option<string>,
           invoiceNumber: Option<string>, counterparty: Option<string>, description: Option<string>,
           amount: Option<string>, currency: Option<string>, amountEur: Option<string>,
           vatAmount: Option<string>, vatCurrency: Option<string>, proportional: bool)

  /** A stored document; the last three fields are its extracted facts. */
  datatype Document = Document(
    status: string, documentType: string, voidStatus: string, sha256: Option<string>,
    counterparty: Option<string>, description: Option<string>, invoiceNumber: Option<string>)

  /** The payment, the requested split, the documents it names, and what other payments already hold. */
  datatype Options = Options(
    currency: Option<string>, amount: Option<string>, amountEur: Option<string>, allocations: Option<seq<Raw>>,
    documents: map<string, Document>, takenDocuments: map<string, string>, takenInvoices: map<string, string>,
    takenContents: map<string, string>, words: Words)

  datatype Allocation = Allocation(
    id: string, documentId: string, invoiceId: Option<string>, invoiceNumber: Option<string>,
    counterparty: string, counterpartyCanonical: string, description: string, amount: string, currency: string,
    amountEur: Option<string>, vatAmount: Option<string>, vatCurrency: Option<string>)

  datatype Problem =
    | NotObject | Proportional | NoDocumentId | RepeatedDocument | RepeatedInvoice | DocumentTaken | InvoiceTaken
    | DocumentUnknown | DocumentInactive | DocumentVoided | Statement | RepeatedContent | ContentTaken
    | OtherCurrency | BadAmount | NoCounterparty | NoDescription | RepeatedInvoiceNumber
    | BadEur | ZeroEur | EurDiffers | InexactEur | BadVat

  datatype Refusal =
    | NoAllocations | BadTotal | BadTotalEur | At(index: nat, problem: Problem)
    | SumMismatch | PartialEur | EurSumMismatch

  // ---------------------------------------------------------------- the fields of one entry

  /** `a || b` */
  function Or(a: Option<string>, b: string): string {
    if a.Some? && a.value != "" then a.value else b
  }

  /** `a ?? b` */
  function Else(a: Option<string>, b: string): string {
    if a.Some? then a.value else b
  }

  /** `s || undefined` */
  function Present(s: string): Option<string> {
    if s == "" then None else Some(s)
  }

  function Currency(o: Options): string {
    o.words.upper(Trim(Or(o.currency, "EUR")))
  }

  function Total(o: Options): Result<Parsed, Rejection> {
    ParseStrict(Else(o.amount, ""))
  }

  function TotalEur(o: Options): Result<Option<Parsed>, Rejection> {
    ParseOptional(o.amountEur)
  }

  function DocumentId(item: Raw): string
    requires item.Item?
  {
    Trim(Or(item.documentId, Or(item.pdfDocumentId, "")))
  }

  function InvoiceId(item: Raw): Option<string>
    requires item.Item?
  {
    Present(Trim(Or(item.invoiceId, "")))
  }

  function Content(document: Document): Option<string> {
    Present(Trim(Or(document.sha256, "")))
  }

  function ItemCurrency(o: Options, item: Raw): string
    requires item.Item?
  {
    o.words.upper(Trim(Or(item.currency, Currency(o))))
  }

  function Amount(item: Raw): Result<Parsed, Rejection>
    requires item.Item?
  {
    ParseStrict(Else(item.amount, ""))
  }

  function Counterparty(item: Raw, document: Document): string
    requires item.Item?
  {
    Trim(Else(item.counterparty, Else(document.counterparty, "")))
  }

  function Description(item: Raw, document: Document): string
    requires item.Item?
  {
    Trim(Else(item.description, Else(document.description, "")))
  }

  function InvoiceNumber(item: Raw, document: Document): Option<string>
    requires item.Item?
  {
    Present(Trim(Else(item.invoiceNumber, Else(document.invoiceNumber, ""))))
  }

  predicate IsAlphanumeric(c: char) {
    'a' <= c <= 'z' || '0' <= c <= '9'
  }

  /** One vendor's invoice number, whatever its spelling. */
  function VendorKey(words: Words, item: Raw, document: Document): Option<string>
    requires item.Item?
  {
    var number := InvoiceNumber(item, document);
    if number.None? then None
    else Some(words.lower(words.vendor(Counterparty(item, document))) + "#"
              + Filter(IsAlphanumeric, words.lower(Trim(number.value))))
  }

  /** The EUR cents of one entry: as stated; or the amount itself for a payment in EUR; or, for a foreign
      payment of known EUR value, its exact share of that value. Product and quotient are doubles. */
  function Share(currency: string, total: nat, totalEur: Option<nat>, amount: nat, stated: Option<nat>)
    : Result<Option<nat>, Problem>
    requires total > 0
  {
    if stated.Some? then
      if stated.value <= 0 then Err(ZeroEur)
      else if currency == "EUR" && stated.value != amount then Err(EurDiffers)
      else Ok(stated)
    else if totalEur.None? then Ok(None)
    else if currency == "EUR" then Ok(Some(amount))
    else
      var numerator := Double(amount * totalEur.value);
      if numerator % total != 0 then Err(InexactEur) else Ok(Some(Double(numerator / total)))
  }

  function CentsOf(parsed: Option<Parsed>): Option<nat> {
    if parsed.Some? then Some(parsed.value.cents) else None
  }

  /** The share of an entry whose amounts are readable, under a readable payment. */
  function ItemShare(o: Options, item: Raw): Result<Option<nat>, Problem>
    requires Readable(o) && item.Item? && Amount(item).Ok? && ParseOptional(item.amountEur).Ok?
  {
    Share(Currency(o), Total(o).value.cents, CentsOf(TotalEur(o).value), Amount(item).value.cents,
          CentsOf(ParseOptional(item.amountEur).value))
  }

  predicate Readable(o: Options) {
    Total(o).Ok? && Total(o).value.cents > 0 && TotalEur(o).Ok?
  }

  // ---------------------------------------------------------------- what may be wrong

  /** The entries of a request that is a non-empty list. */
  function Items(o: Options): seq<Raw> {
    if o.allocations.Some? then o.allocations.value else []
  }

  function DocumentOf(o: Options, item: Raw): Option<Document>
    requires item.Item?
  {
    if DocumentId(item) in o.documents then Some(o.documents[DocumentId(item)]) else None
  }

  predicate Taken(holders: map<string, string>, id: string) {
    id in holders && holders[id] != ""
  }

  function ContentOf(o: Options, item: Raw): Option<string>
    requires item.Item?
  {
    if DocumentOf(o, item).Some? then Content(DocumentOf(o, item).value) else None
  }

  function VendorKeyOf(o: Options, item: Raw): Option<string>
    requires item.Item?
  {
    if DocumentOf(o, item).Some? then VendorKey(o.words, item, DocumentOf(o, item).value) else None
  }

  /** The i-th entry shares a value with an earlier one. */
  predicate RepeatsDocument(o: Options, i: nat)
    requires i < |Items(o)| && Items(o)[i].Item?
  {
    exists j :: 0 <= j < i && Items(o)[j].Item? && DocumentId(Items(o)[j]) == DocumentId(Items(o)[i])
  }

  predicate RepeatsInvoice(o: Options, i: nat)
    requires i < |Items(o)| && Items(o)[i].Item?
  {
    InvoiceId(Items(o)[i]).Some?
    && exists j :: 0 <= j < i && Items(o)[j].Item? && InvoiceId(Items(o)[j]) == InvoiceId(Items(o)[i])
  }

  predicate RepeatsContent(o: Options, i: nat)
    requires i < |Items(o)| && Items(o)[i].Item?
  {
    ContentOf(o, Items(o)[i]).Some?
    && exists j :: 0 <= j < i && Items(o)[j].Item? && ContentOf(o, Items(o)[j]) == ContentOf(o, Items(o)[i])
  }

  predicate RepeatsInvoiceNumber(o: Options, i: nat)
    requires i < |Items(o)| && Items(o)[i].Item?
  {
    VendorKeyOf(o, Items(o)[i]).Some?
    && exists j :: 0 <= j < i && Items(o)[j].Item? && VendorKeyOf(o, Items(o)[j]) == VendorKeyOf(o, Items(o)[i])
  }

  /** What the problems with an entry's source document and invoice mean. */
  predicate SourceProblem(o: Options, i: nat, problem: Problem)
    requires i < |Items(o)| && Items(o)[i].Item?
  {
    var item := Items(o)[i];
    var document := DocumentOf(o, item);
    match problem
    case Proportional => item.proportional
    case NoDocumentId => DocumentId(item) == ""
    case RepeatedDocument => RepeatsDocument(o, i)
    case RepeatedInvoice => RepeatsInvoice(o, i)
    case DocumentTaken => Taken(o.takenDocuments, DocumentId(item))
    case InvoiceTaken => InvoiceId(item).Some? && Taken(o.takenInvoices, InvoiceId(item).value)
    case DocumentUnknown => document.None?
    case DocumentInactive => document.Some? && document.value.status != "active"
    case DocumentVoided => document.Some? && document.value.voidStatus == "voided"
    case Statement => document.Some? && IsStatement(document.value)
    case RepeatedContent => RepeatsContent(o, i)
    case ContentTaken => ContentOf(o, item).Some? && Taken(o.takenContents, ContentOf(o, item).value)
    case _ => false
  }

  predicate IsStatement(document: Document) {
    document.documentType == "bank-statement" || document.documentType == "private-account-statement"
  }

  /** What the problems with an entry's money and wording mean. */
  predicate MoneyProblem(o: Options, i: nat, problem: Problem)
    requires Readable(o) && i < |Items(o)| && Items(o)[i].Item?
  {
    var item := Items(o)[i];
    var document := DocumentOf(o, item);
    var stated := ParseOptional(item.amountEur);
    match problem
    case OtherCurrency => ItemCurrency(o, item) != Currency(o)
    case BadAmount => Amount(item).Err?
    case NoCounterparty => document.Some? && Counterparty(item, document.value) == ""
    case NoDescription => document.Some? && Description(item, document.value) == ""
    case RepeatedInvoiceNumber => RepeatsInvoiceNumber(o, i)
    case BadEur => stated.Err?
    case ZeroEur => stated.Ok? && Amount(item).Ok? && ItemShare(o, item) == Err(ZeroEur)
    case EurDiffers => stated.Ok? && Amount(item).Ok? && ItemShare(o, item) == Err(EurDiffers)
    case InexactEur => stated.Ok? && Amount(item).Ok? && ItemShare(o, item) == Err(InexactEur)
    case BadVat => ParseOptional(item.vatAmount).Err?
    case _ => false
  }

  predicate Has(o: Options, i: nat, problem: Problem)
    requires Readable(o) && i < |Items(o)|
  {
    if Items(o)[i].NotAnObject? then problem.NotObject?
    else SourceProblem(o, i, problem) || MoneyProblem(o, i, problem)
  }

  /** The order in which the source looks for problems with one entry. */
  function Rank(problem: Problem): (r: nat)
    ensures r < 23
  {
    match problem
    case NotObject => 0
    case Proportional => 1
    case NoDocumentId => 2
    case RepeatedDocument => 3
    case RepeatedInvoice => 4
    case DocumentTaken => 5
    case InvoiceTaken => 6
    case DocumentUnknown => 7
    case DocumentInactive => 8
    case DocumentVoided => 9
    case Statement => 10
    case RepeatedContent => 11
    case ContentTaken => 12
    case OtherCurrency => 13
    case BadAmount => 14
    case NoCounterparty => 15
    case NoDescription => 16
    case RepeatedInvoiceNumber => 17
    case BadEur => 18
    case ZeroEur => 19
    case EurDiffers => 20
    case InexactEur => 21
    case BadVat => 22
  }

  /** The i-th entry has none of the first `rank` problems. */
  ghost predicate Clear(o: Options, i: nat, rank: nat)
    requires Readable(o) && i < |Items(o)|
  {
    forall problem: Problem :: Rank(problem) < rank ==> !Has(o, i, problem)
  }

  ghost predicate AllClear(o: Options, n: nat)
    requires Readable(o) && n <= |Items(o)|
  {
    forall i :: 0 <= i < n ==> Clear(o, i, 23)
  }

  // ---------------------------------------------------------------- sums

  /** Additions of doubles, each rounded. */
  function DoubleSum(s: seq<nat>): nat {
    if s == [] then 0 else Double(DoubleSum(s[..|s| - 1]) + s[|s| - 1])
  }

  function Sum(s: seq<nat>): nat {
    if s == [] then 0 else Sum(s[..|s| - 1]) + s[|s| - 1]
  }

  /** A sum of doubles is safe exactly when the true sum is, and then equals it. */
  lemma {:induction false} DoubleSumIsSum(s: seq<nat>)
    ensures DoubleSum(s) <= MAX_SAFE <==> Sum(s) <= MAX_SAFE
    ensures Sum(s) <= MAX_SAFE ==> DoubleSum(s) == Sum(s)
  {
    if s != [] {
      hide Double;
      DoubleSumIsSum(s[..|s| - 1]);
      SafeExactly(DoubleSum(s[..|s| - 1]) + s[|s| - 1]);
    }
  }

  // ---------------------------------------------------------------- the result

  /** An entry of a clear request, read. */
  function AmountAt(o: Options, i: nat): nat
    requires i < |Items(o)|
  {
    var item := Items(o)[i];
    if item.Item? && Amount(item).Ok? then Amount(item).value.cents else 0
  }

  function ShareAt(o: Options, i: nat): Option<nat>
    requires Readable(o) && i < |Items(o)|
  {
    var item := Items(o)[i];
    if item.Item? && Amount(item).Ok? && ParseOptional(item.amountEur).Ok? && ItemShare(o, item).Ok? then ItemShare(o, item).value
    else None
  }

  function Amounts(o: Options, n: nat): (s: seq<nat>)
    requires n <= |Items(o)|
    ensures |s| == n && forall i :: 0 <= i < n ==> s[i] == AmountAt(o, i)
  {
    if n == 0 then [] else Amounts(o, n - 1) + [AmountAt(o, n - 1)]
  }

  /** The shares of the first n entries, those without one left out. */
  function Shares(o: Options, n: nat): (s: seq<nat>)
    requires Readable(o) && n <= |Items(o)|
    ensures |s| <= n
  {
    if n == 0 then []
    else if ShareAt(o, n - 1).Some? then Shares(o, n - 1) + [ShareAt(o, n - 1).value]
    else Shares(o, n - 1)
  }

  function NormalizedItem(o: Options, i: nat): Allocation
    requires Readable(o) && i < |Items(o)| && Items(o)[i].Item?
    requires DocumentOf(o, Items(o)[i]).Some? && ParseOptional(Items(o)[i].vatAmount).Ok?
  {
    var item := Items(o)[i];
    var document := DocumentOf(o, item).value;
    var vat := ParseOptional(item.vatAmount).value;
    Allocation(Or(item.id, "alloc-" + Decimal.Print(i + 1)), DocumentId(item), InvoiceId(item), InvoiceNumber(item, document),
               Counterparty(item, document), o.words.vendor(Counterparty(item, document)), Description(item, document),
               CentsToFixed(AmountAt(o, i)), Currency(o),
               if ShareAt(o, i).Some? then Some(CentsToFixed(ShareAt(o, i).value)) else None,
               if vat.Some? then Some(vat.value.formatted) else None,
               if vat.Some? then Some(o.words.upper(Trim(Or(item.vatCurrency, Currency(o))))) else None)
  }

  /** The whole acceptance condition: no entry has a problem and the sums are the payment's. */
  ghost predicate Acceptable(o: Options) {
    Items(o) != [] && Readable(o) && AllClear(o, |Items(o)|)
    && Adds(o) && !Partial(o) && AddsInEur(o)
  }

  predicate Adds(o: Options)
    requires Readable(o)
  {
    DoubleSum(Amounts(o, |Items(o)|)) == Total(o).value.cents
  }

  predicate Partial(o: Options)
    requires Readable(o)
  {
    0 < |Shares(o, |Items(o)|)| < |Items(o)|
  }

  predicate AddsInEur(o: Options)
    requires Readable(o)
  {
    TotalEur(o).value.Some? && Shares(o, |Items(o)|) != [] ==>
      DoubleSum(Shares(o, |Items(o)|)) == TotalEur(o).value.value.cents
  }

  /** What each refusal says about the request; no two of them, and none beside acceptance, can hold at once. */
  ghost predicate Refuses(o: Options, refusal: Refusal) {
    match refusal
    case NoAllocations => Items(o) == []
    case BadTotal => Items(o) != [] && Total(o).Err?
    case BadTotalEur => Items(o) != [] && Total(o).Ok? && TotalEur(o).Err?
    case At(i, problem) =>
      Readable(o) && i < |Items(o)| && AllClear(o, i) && Clear(o, i, Rank(problem)) && Has(o, i, problem)
    case SumMismatch => Items(o) != [] && Readable(o) && AllClear(o, |Items(o)|) && !Adds(o)
    case PartialEur => Items(o) != [] && Readable(o) && AllClear(o, |Items(o)|) && Adds(o) && Partial(o)
    case EurSumMismatch =>
      Items(o) != [] && Readable(o) && AllClear(o, |Items(o)|) && Adds(o) && !Partial(o) && !AddsInEur(o)
  }

  ghost predicate IsNormalized(o: Options, n: nat, list: seq<Allocation>)
    requires Readable(o) && n <= |Items(o)|
  {
    |list| == n
    && forall i :: 0 <= i < n ==>
         Items(o)[i].Item? && DocumentOf(o, Items(o)[i]).Some? && ParseOptional(Items(o)[i].vatAmount).Ok?
         && list[i] == NormalizedItem(o, i)
  }
}
