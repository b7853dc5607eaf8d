// `validateAndNormalizeAllocations`: the loop over the entries, with its sets and running sums.
module AllocationValidation {
  import opened Cents
  import opened Doubles
  import opened Text
  import opened Wrappers
  import opened Allocations

  // ---------------------------------------------------------------- what the loop has seen

  function SeenDocuments(o: Options, n: nat): set<string>
    requires n <= |Items(o)|
  {
    set i | 0 <= i < n && Items(o)[i].Item? :: DocumentId(Items(o)[i])
  }

  function SeenInvoices(o: Options, n: nat): set<string>
    requires n <= |Items(o)|
  {
    set i | 0 <= i < n && Items(o)[i].Item? && InvoiceId(Items(o)[i]).Some? :: InvoiceId(Items(o)[i]).value
  }

  function SeenContents(o: Options, n: nat): set<string>
    requires n <= |Items(o)|
  {
    set i | 0 <= i < n && Items(o)[i].Item? && ContentOf(o, Items(o)[i]).Some? :: ContentOf(o, Items(o)[i]).value
  }

  function SeenNumbers(o: Options, n: nat): set<string>
    requires n <= |Items(o)|
  {
    set i | 0 <= i < n && Items(o)[i].Item? && VendorKeyOf(o, Items(o)[i]).Some? :: VendorKeyOf(o, Items(o)[i]).value
  }

  lemma {:induction false} RepeatsMeansSeen(o: Options, i: nat)
    requires i < |Items(o)| && Items(o)[i].Item?
    ensures RepeatsDocument(o, i) <==> DocumentId(Items(o)[i]) in SeenDocuments(o, i)
    ensures RepeatsInvoice(o, i) <==>
              InvoiceId(Items(o)[i]).Some? && InvoiceId(Items(o)[i]).value in SeenInvoices(o, i)
    ensures RepeatsContent(o, i) <==>
              ContentOf(o, Items(o)[i]).Some? && ContentOf(o, Items(o)[i]).value in SeenContents(o, i)
    ensures RepeatsInvoiceNumber(o, i) <==>
              VendorKeyOf(o, Items(o)[i]).Some? && VendorKeyOf(o, Items(o)[i]).value in SeenNumbers(o, i)
  {
    hide DocumentId, InvoiceId, ContentOf, VendorKeyOf;
  }

  lemma {:induction false} SeenNext(o: Options, i: nat)
    requires i < |Items(o)| && Items(o)[i].Item?
    ensures SeenDocuments(o, i + 1) == SeenDocuments(o, i) + {DocumentId(Items(o)[i])}
    ensures SeenInvoices(o, i + 1) ==
              SeenInvoices(o, i) + (if InvoiceId(Items(o)[i]).Some? then {InvoiceId(Items(o)[i]).value} else {})
    ensures SeenContents(o, i + 1) ==
              SeenContents(o, i) + (if ContentOf(o, Items(o)[i]).Some? then {ContentOf(o, Items(o)[i]).value} else {})
    ensures SeenNumbers(o, i + 1) ==
              SeenNumbers(o, i) + (if VendorKeyOf(o, Items(o)[i]).Some? then {VendorKeyOf(o, Items(o)[i]).value} else {})
  {
    hide DocumentId, InvoiceId, ContentOf, VendorKeyOf;
  }

  // ---------------------------------------------------------------- one entry

  lemma {:induction false} ClearNext(o: Options, i: nat, problem: Problem)
    requires Readable(o) && i < |Items(o)| && Clear(o, i, Rank(problem)) && !Has(o, i, problem)
    ensures Clear(o, i, Rank(problem) + 1)
  {
    hide Has;
    forall other: Problem | Rank(other) < Rank(problem) + 1 ensures !Has(o, i, other) {
      if Rank(other) == Rank(problem) { assert other == problem; }
    }
  }

  lemma {:induction false} ClearFirst(o: Options, i: nat)
    requires Readable(o) && i < |Items(o)| && Items(o)[i].Item?
    ensures Clear(o, i, Rank(NotObject) + 1)
  {
    hide RepeatsDocument, RepeatsInvoice, RepeatsContent, RepeatsInvoiceNumber, DocumentOf, ItemShare, Amount, ParseOptional;
    hide Readable, DocumentId, InvoiceId, ContentOf, Counterparty, Description, ItemCurrency, Currency;
    forall other: Problem | Rank(other) < 1 ensures !Has(o, i, other) {
      assert other == NotObject;
    }
  }

  lemma {:induction false} SourceIs(o: Options, i: nat, problem: Problem)
    requires Readable(o) && i < |Items(o)| && Items(o)[i].Item? && Rank(problem) < 13
    ensures Has(o, i, problem) == SourceProblem(o, i, problem)
  {
  }

  lemma {:induction false} MoneyIs(o: Options, i: nat, problem: Problem)
    requires Readable(o) && i < |Items(o)| && Items(o)[i].Item? && Rank(problem) >= 13
    ensures Has(o, i, problem) == MoneyProblem(o, i, problem)
  {
  }

  /** Looks for the problems with the entry's document and invoice ids, in the source's order. */
  method FindIdProblem(o: Options, i: nat, item: Raw, seenDocuments: set<string>, seenInvoices: set<string>) returns (found: Option<Problem>)
    requires Readable(o) && i < |Items(o)| && item == Items(o)[i] && item.Item?
    requires seenDocuments == SeenDocuments(o, i) && seenInvoices == SeenInvoices(o, i)
    ensures found.None? ==> Clear(o, i, 7)
    ensures found.Some? ==> Has(o, i, found.value) && Clear(o, i, Rank(found.value))
  {
    hide Clear, Has, RepeatsDocument, RepeatsInvoice, RepeatsContent, SeenDocuments, SeenInvoices, SeenContents, Readable;
    hide DocumentId, InvoiceId, Content;
    RepeatsMeansSeen(o, i);
    ClearFirst(o, i);
    SourceIs(o, i, Proportional);
    if item.proportional { return Some(Proportional); }
    ClearNext(o, i, Proportional);
    var documentId, invoiceId := DocumentId(item), InvoiceId(item);
    SourceIs(o, i, NoDocumentId);
    if documentId == "" { return Some(NoDocumentId); }
    ClearNext(o, i, NoDocumentId);
    SourceIs(o, i, RepeatedDocument);
    if documentId in seenDocuments { return Some(RepeatedDocument); }
    ClearNext(o, i, RepeatedDocument);
    SourceIs(o, i, RepeatedInvoice);
    if invoiceId.Some? && invoiceId.value in seenInvoices { return Some(RepeatedInvoice); }
    ClearNext(o, i, RepeatedInvoice);
    SourceIs(o, i, DocumentTaken);
    if Taken(o.takenDocuments, documentId) { return Some(DocumentTaken); }
    ClearNext(o, i, DocumentTaken);
    SourceIs(o, i, InvoiceTaken);
    if invoiceId.Some? && Taken(o.takenInvoices, invoiceId.value) { return Some(InvoiceTaken); }
    ClearNext(o, i, InvoiceTaken);
    return None;
  }

  /** Then for the problems with the document itself. */
  method FindDocumentProblem(o: Options, i: nat, item: Raw, seenContents: set<string>) returns (found: Option<Problem>)
    requires Readable(o) && i < |Items(o)| && item == Items(o)[i] && item.Item? && Clear(o, i, 7)
    requires seenContents == SeenContents(o, i)
    ensures found.None? ==> Clear(o, i, 13) && DocumentOf(o, item).Some?
    ensures found.Some? ==> Has(o, i, found.value) && Clear(o, i, Rank(found.value))
  {
    hide Clear, Has, RepeatsDocument, RepeatsInvoice, RepeatsContent, SeenDocuments, SeenInvoices, SeenContents, Readable;
    hide DocumentId, InvoiceId, Content;
    RepeatsMeansSeen(o, i);
    var documentId := DocumentId(item);
    SourceIs(o, i, DocumentUnknown);
    if documentId !in o.documents { return Some(DocumentUnknown); }
    ClearNext(o, i, DocumentUnknown);
    var document := o.documents[documentId];
    SourceIs(o, i, DocumentInactive);
    if document.status != "active" { return Some(DocumentInactive); }
    ClearNext(o, i, DocumentInactive);
    SourceIs(o, i, DocumentVoided);
    if document.voidStatus == "voided" { return Some(DocumentVoided); }
    ClearNext(o, i, DocumentVoided);
    SourceIs(o, i, Statement);
    if IsStatement(document) { return Some(Statement); }
    ClearNext(o, i, Statement);
    var content := Content(document);
    SourceIs(o, i, RepeatedContent);
    if content.Some? && content.value in seenContents { return Some(RepeatedContent); }
    ClearNext(o, i, RepeatedContent);
    SourceIs(o, i, ContentTaken);
    if content.Some? && Taken(o.takenContents, content.value) { return Some(ContentTaken); }
    ClearNext(o, i, ContentTaken);
    return None;
  }

  /** Looks for the problems with the entry's amount and wording, in the source's order. */
  method FindWordingProblem(o: Options, i: nat, item: Raw, seenNumbers: set<string>) returns (found: Option<Problem>)
    requires Readable(o) && i < |Items(o)| && item == Items(o)[i] && item.Item? && DocumentOf(o, item).Some?
    requires Clear(o, i, 13) && seenNumbers == SeenNumbers(o, i)
    ensures found.None? ==> Clear(o, i, 18) && Amount(item).Ok?
    ensures found.Some? ==> Has(o, i, found.value) && Clear(o, i, Rank(found.value))
  {
    hide Clear, Has, RepeatsInvoiceNumber, SeenNumbers, DocumentId, Counterparty, Description, VendorKey, ParseOptional, Amount;
    hide Currency, ItemCurrency, Share, Total, TotalEur, ItemShare;
    RepeatsMeansSeen(o, i);
    var document := DocumentOf(o, item).value;
    MoneyIs(o, i, OtherCurrency);
    if ItemCurrency(o, item) != Currency(o) { return Some(OtherCurrency); }
    ClearNext(o, i, OtherCurrency);
    MoneyIs(o, i, BadAmount);
    if Amount(item).Err? { return Some(BadAmount); }
    ClearNext(o, i, BadAmount);
    MoneyIs(o, i, NoCounterparty);
    if Counterparty(item, document) == "" { return Some(NoCounterparty); }
    ClearNext(o, i, NoCounterparty);
    MoneyIs(o, i, NoDescription);
    if Description(item, document) == "" { return Some(NoDescription); }
    ClearNext(o, i, NoDescription);
    var number := VendorKey(o.words, item, document);
    MoneyIs(o, i, RepeatedInvoiceNumber);
    if number.Some? && number.value in seenNumbers { return Some(RepeatedInvoiceNumber); }
    ClearNext(o, i, RepeatedInvoiceNumber);
    return None;
  }

  /** Then for the problems with its EUR value and VAT. */
  method FindMoneyProblem(o: Options, i: nat, item: Raw) returns (found: Option<Problem>)
    requires Readable(o) && i < |Items(o)| && item == Items(o)[i] && item.Item? && Amount(item).Ok? && Clear(o, i, 18)
    ensures found.None? ==>
              Clear(o, i, 23) && ParseOptional(item.amountEur).Ok? && ItemShare(o, item).Ok? && ParseOptional(item.vatAmount).Ok?
    ensures found.Some? ==> Has(o, i, found.value) && Clear(o, i, Rank(found.value))
  {
    hide Clear, Has, RepeatsInvoiceNumber, DocumentId, Counterparty, Description, VendorKey, ParseOptional, Amount, ItemShare;
    hide Currency, ItemCurrency, Share, Total, TotalEur;
    MoneyIs(o, i, BadEur);
    var stated := ParseOptional(item.amountEur);
    if stated.Err? { return Some(BadEur); }
    ClearNext(o, i, BadEur);
    found := FindShareProblem(o, i, item);
    if found.Some? { return; }
    MoneyIs(o, i, BadVat);
    if ParseOptional(item.vatAmount).Err? { return Some(BadVat); }
    ClearNext(o, i, BadVat);
    return None;
  }

  method FindShareProblem(o: Options, i: nat, item: Raw) returns (found: Option<Problem>)
    requires Readable(o) && i < |Items(o)| && item == Items(o)[i] && item.Item?
    requires Clear(o, i, 19) && Amount(item).Ok? && ParseOptional(item.amountEur).Ok?
    ensures found.None? ==> Clear(o, i, 22) && ItemShare(o, item).Ok?
    ensures found.Some? ==> Has(o, i, found.value) && Clear(o, i, Rank(found.value))
  {
    hide Clear, Has, ParseOptional, Amount, ItemShare, Readable;
    ShareProblemsAre(o, i);
    var share := ItemShare(o, item);
    if share == Err(ZeroEur) { return Some(ZeroEur); }
    ClearNext(o, i, ZeroEur);
    if share == Err(EurDiffers) { return Some(EurDiffers); }
    ClearNext(o, i, EurDiffers);
    if share == Err(InexactEur) { return Some(InexactEur); }
    ClearNext(o, i, InexactEur);
    return None;
  }

  lemma {:induction false} ShareProblemsAre(o: Options, i: nat)
    requires Readable(o) && i < |Items(o)| && Items(o)[i].Item?
    requires Amount(Items(o)[i]).Ok? && ParseOptional(Items(o)[i].amountEur).Ok?
    ensures var share := ItemShare(o, Items(o)[i]);
            (Has(o, i, ZeroEur) <==> share == Err(ZeroEur)) && (Has(o, i, EurDiffers) <==> share == Err(EurDiffers))
            && (Has(o, i, InexactEur) <==> share == Err(InexactEur))
            && (share.Err? ==> share.error.ZeroEur? || share.error.EurDiffers? || share.error.InexactEur?)
  {
    hide Currency, Total, TotalEur, Amount, ParseOptional, Double;
  }

  method FindProblem(o: Options, i: nat, item: Raw, seenDocuments: set<string>, seenInvoices: set<string>,
                     seenContents: set<string>, seenNumbers: set<string>) returns (found: Option<Problem>)
    requires Readable(o) && i < |Items(o)| && item == Items(o)[i] && AllClear(o, i)
    requires seenDocuments == SeenDocuments(o, i) && seenInvoices == SeenInvoices(o, i)
    requires seenContents == SeenContents(o, i) && seenNumbers == SeenNumbers(o, i)
    ensures found.None? ==>
              AllClear(o, i + 1) && item.Item? && DocumentOf(o, item).Some? && Amount(item).Ok?
              && ParseOptional(item.amountEur).Ok? && ItemShare(o, item).Ok? && ParseOptional(item.vatAmount).Ok?
    ensures found.Some? ==> Refuses(o, At(i, found.value))
  {
    hide Clear, Has, ParseOptional, ItemShare, Amount, DocumentOf, Readable, AllClear;
    hide SeenDocuments, SeenInvoices, SeenContents, SeenNumbers;
    if item.NotAnObject? {
      NotAnObjectIs(o, i);
      return Some(NotObject);
    }
    found := FindIdProblem(o, i, item, seenDocuments, seenInvoices);
    if found.Some? { return; }
    found := FindDocumentProblem(o, i, item, seenContents);
    if found.Some? { return; }
    found := FindWordingProblem(o, i, item, seenNumbers);
    if found.Some? { return; }
    found := FindMoneyProblem(o, i, item);
    if found.None? { AllClearNext(o, i); }
  }

  // ---------------------------------------------------------------- the whole request

  /** One round of the loop: the entry's problem or, without one, what it adds to the sets, its amount, its
      EUR share and its normal form. */
  method ReadEntry(o: Options, i: nat, item: Raw, documents: set<string>, invoices: set<string>, contents: set<string>, numbers: set<string>)
      returns (found: Option<Problem>, documents2: set<string>, invoices2: set<string>, contents2: set<string>, numbers2: set<string>,
               amount: nat, share: Option<nat>)
    requires Readable(o) && i < |Items(o)| && item == Items(o)[i] && AllClear(o, i)
    requires documents == SeenDocuments(o, i) && invoices == SeenInvoices(o, i)
    requires contents == SeenContents(o, i) && numbers == SeenNumbers(o, i)
    ensures found.Some? ==> Refuses(o, At(i, found.value))
    ensures found.None? ==>
              AllClear(o, i + 1) && documents2 == SeenDocuments(o, i + 1) && invoices2 == SeenInvoices(o, i + 1)
              && contents2 == SeenContents(o, i + 1) && numbers2 == SeenNumbers(o, i + 1)
              && amount == AmountAt(o, i) && share == ShareAt(o, i)
              && item.Item? && DocumentOf(o, item).Some? && ParseOptional(item.vatAmount).Ok?
  {
    hide *;
    documents2, invoices2, contents2, numbers2, amount, share := documents, invoices, contents, numbers, 0, None;
    found := FindProblem(o, i, item, documents, invoices, contents, numbers);
    if found.Some? { return; }
    SeenNext(o, i);
    AmountHere(o, i);
    var invoiceId, content, number := InvoiceId(item), ContentOf(o, item), VendorKeyOf(o, item);
    documents2 := documents + {DocumentId(item)};
    invoices2 := invoices + (if invoiceId.Some? then {invoiceId.value} else {});
    contents2 := contents + (if content.Some? then {content.value} else {});
    numbers2 := numbers + (if number.Some? then {number.value} else {});
    amount, share := Amount(item).value.cents, ItemShare(o, item).value;
  }

  /** The loop: reads the entries until one has a problem, with sets of what was seen and running sums. */
  method ReadEntries(o: Options) returns (refusal: Option<Refusal>, normalized: seq<Allocation>, sumCents: nat, sumEurCents: nat, explicitEurCount: nat)
    requires Readable(o)
    ensures refusal.Some? ==> Refuses(o, refusal.value)
    ensures refusal.None? ==>
              AllClear(o, |Items(o)|) && IsNormalized(o, |Items(o)|, normalized)
              && sumCents == DoubleSum(Amounts(o, |Items(o)|)) && sumEurCents == DoubleSum(Shares(o, |Items(o)|))
              && explicitEurCount == |Shares(o, |Items(o)|)|
  {
    hide *;
    var items := Items(o);
    var documents: set<string>, invoices: set<string>, contents: set<string>, numbers: set<string> := {}, {}, {}, {};
    normalized, sumCents, sumEurCents, explicitEurCount := [], 0, 0, 0;
    NothingYet(o);
    var i := 0;
    while i < |items|
      invariant i <= |items| && AllClear(o, i)
      invariant documents == SeenDocuments(o, i) && invoices == SeenInvoices(o, i)
      invariant contents == SeenContents(o, i) && numbers == SeenNumbers(o, i)
      invariant sumCents == DoubleSum(Amounts(o, i))
      invariant sumEurCents == DoubleSum(Shares(o, i)) && explicitEurCount == |Shares(o, i)|
      invariant IsNormalized(o, i, normalized)
    {
      var found, amount, share;
      found, documents, invoices, contents, numbers, amount, share :=
        ReadEntry(o, i, items[i], documents, invoices, contents, numbers);
      if found.Some? { return Some(At(i, found.value)), [], 0, 0, 0; }
      AmountsNext(o, i);
      SharesNext(o, i);
      sumCents := Double(sumCents + amount);
      if share.Some? {
        sumEurCents := Double(sumEurCents + share.value);
        explicitEurCount := explicitEurCount + 1;
      }
      NormalizedNext(o, i, normalized);
      normalized := normalized + [NormalizedItem(o, i)];
      i := i + 1;
    }
    refusal := None;
  }

  /** Validates the split and returns it in normal form. It is accepted exactly when it is acceptable; a
      refusal names what is wrong, and an entry's problem is the first one of the first bad entry. */
  method ValidateAndNormalizeAllocations(o: Options) returns (r: Result<seq<Allocation>, Refusal>)
    ensures r.Ok? ==> Acceptable(o) && IsNormalized(o, |Items(o)|, r.value)
    ensures r.Err? ==> Refuses(o, r.error)
  {
    hide Clear, Has, NormalizedItem, ParseOptional, ItemShare, Amount, DocumentOf, DoubleSum, Amounts, Shares, AllClear;
    if o.allocations.None? || o.allocations.value == [] { return Err(NoAllocations); }
    var total := Total(o);
    if total.Err? { return Err(BadTotal); }
    AcceptedIsPositive(Else(o.amount, ""));
    var totalEur := TotalEur(o);
    if totalEur.Err? { return Err(BadTotalEur); }
    var refusal, normalized, sumCents, sumEurCents, explicitEurCount := ReadEntries(o);
    if refusal.Some? { return Err(refusal.value); }
    if sumCents != total.value.cents { return Err(SumMismatch); }
    if explicitEurCount > 0 && explicitEurCount != |normalized| { return Err(PartialEur); }
    if totalEur.value.Some? && explicitEurCount > 0 {
      if sumEurCents != totalEur.value.value.cents { return Err(EurSumMismatch); }
    }
    return Ok(normalized);
  }

  lemma {:induction false} AcceptedIsPositive(raw: string)
    requires ParseStrict(raw).Ok?
    ensures 0 < ParseStrict(raw).value.cents <= MAX_SAFE
  {
  }

  lemma {:induction false} NothingYet(o: Options)
    requires Readable(o)
    ensures SeenDocuments(o, 0) == {} && SeenInvoices(o, 0) == {} && SeenContents(o, 0) == {} && SeenNumbers(o, 0) == {}
    ensures DoubleSum(Amounts(o, 0)) == 0 && DoubleSum(Shares(o, 0)) == 0 && |Shares(o, 0)| == 0
    ensures AllClear(o, 0) && IsNormalized(o, 0, [])
  {
  }

  lemma {:induction false} AllClearNext(o: Options, i: nat)
    requires Readable(o) && i < |Items(o)| && AllClear(o, i) && Clear(o, i, 23)
    ensures AllClear(o, i + 1)
  {
    hide Clear;
  }

  lemma {:induction false} NormalizedNext(o: Options, i: nat, list: seq<Allocation>)
    requires Readable(o) && i < |Items(o)| && IsNormalized(o, i, list)
    requires Items(o)[i].Item? && DocumentOf(o, Items(o)[i]).Some? && ParseOptional(Items(o)[i].vatAmount).Ok?
    ensures IsNormalized(o, i + 1, list + [NormalizedItem(o, i)])
  {
    hide NormalizedItem, DocumentOf, ParseOptional;
  }

  lemma {:induction false} NotAnObjectIs(o: Options, i: nat)
    requires Readable(o) && i < |Items(o)| && Items(o)[i].NotAnObject?
    ensures Has(o, i, NotObject) && Clear(o, i, Rank(NotObject))
  {
  }

  lemma {:induction false} AmountHere(o: Options, i: nat)
    requires Readable(o) && i < |Items(o)| && Items(o)[i].Item? && Amount(Items(o)[i]).Ok?
    requires ParseOptional(Items(o)[i].amountEur).Ok? && ItemShare(o, Items(o)[i]).Ok?
    ensures AmountAt(o, i) == Amount(Items(o)[i]).value.cents && ShareAt(o, i) == ItemShare(o, Items(o)[i]).value
  {
    hide ItemShare, Amount, ParseOptional;
  }

  lemma {:induction false} AmountsNext(o: Options, i: nat)
    requires i < |Items(o)|
    ensures DoubleSum(Amounts(o, i + 1)) == Double(DoubleSum(Amounts(o, i)) + AmountAt(o, i))
  {
    hide AmountAt, Double, DoubleSum;
    DoubleSumNext(Amounts(o, i), AmountAt(o, i));
  }

  lemma {:induction false} SharesNext(o: Options, i: nat)
    requires Readable(o) && i < |Items(o)|
    ensures |Shares(o, i + 1)| == |Shares(o, i)| + (if ShareAt(o, i).Some? then 1 else 0)
    ensures DoubleSum(Shares(o, i + 1)) ==
              if ShareAt(o, i).Some? then Double(DoubleSum(Shares(o, i)) + ShareAt(o, i).value) else DoubleSum(Shares(o, i))
  {
    hide ShareAt, Double, DoubleSum, Readable;
    if ShareAt(o, i).Some? { DoubleSumNext(Shares(o, i), ShareAt(o, i).value); }
  }

  lemma {:induction false} DoubleSumNext(s: seq<nat>, x: nat)
    ensures DoubleSum(s + [x]) == Double(DoubleSum(s) + x)
  {
    hide Double;
    assert (s + [x])[..|s + [x]| - 1] == s;
  }

  lemma {:induction false} NotClearBeyond(o: Options, i: nat, problem: Problem)
    requires Readable(o) && i < |Items(o)| && Has(o, i, problem)
    ensures forall rank: nat :: rank > Rank(problem) ==> !Clear(o, i, rank)
    ensures forall n: nat :: i < n <= |Items(o)| ==> !AllClear(o, n)
  {
    hide Has;
    forall n: nat | i < n <= |Items(o)| ensures !AllClear(o, n) {
      assert !Clear(o, i, 23);
    }
  }

  /** Acceptance and refusal exclude each other, and so do any two refusals: the outcome is determined. */
  lemma {:induction false} RefusalExcludesAcceptance(o: Options, refusal: Refusal)
    requires Refuses(o, refusal)
    ensures !Acceptable(o)
  {
    hide Has, Adds, Partial, AddsInEur, Clear, AllClear;
    if refusal.At? { NotClearBeyond(o, refusal.index, refusal.problem); }
  }

  lemma {:induction false} RefusalIsUnique(o: Options, a: Refusal, b: Refusal)
    requires Refuses(o, a) && Refuses(o, b)
    ensures a == b
  {
    hide Has, Adds, Partial, AddsInEur, Clear, AllClear;
    if a.At? { NotClearBeyond(o, a.index, a.problem); }
    if b.At? { NotClearBeyond(o, b.index, b.problem); }
    if a.At? && b.At? { SameRank(a.problem, b.problem); }
  }

  lemma {:induction false} SameRank(p: Problem, q: Problem)
    ensures Rank(p) == Rank(q) ==> p == q
  {
  }
}
