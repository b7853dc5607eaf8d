// Stored allocations: reading them back.
module AllocationReader {
  import Decimal
  import opened Cents
  import opened Doubles
  import opened Text
  import opened Wrappers
  import opened Allocations
  import opened AllocationValidation
  import opened AllocationMoney

  /** One element of the stored list; None stands for an absent attribute. */
  datatype Stored =
    | NotARow
    | Row(id: Option<string>, documentId: Option<string>, invoiceId: Option<string>, invoiceNumber: Option<string>,
          counterparty: Option<string>, counterpartyCanonical: Option<string>, description: Option<string>,
          amount: Option<string>, currency: Option<string>, amountEur: Option<string>,
          vatAmount: Option<string>, vatCurrency: Option<string>)

  function Field(a: Option<string>): string {
    Trim(Or(a, ""))
  }

  /** `value ? trim(value) : absent` */
  function WhenGiven(a: Option<string>): Option<string> {
    if Or(a, "") == "" then None else Some(Trim(a.value))
  }

  /** `value !== undefined && trim(value) !== "" ? trim(value) : absent` */
  function WhenFilled(a: Option<string>): Option<string> {
    if a.None? || Trim(a.value) == "" then None else Some(Trim(a.value))
  }

  predicate IsReadable(row: Stored) {
    row.Row? && Field(row.documentId) != "" && Field(row.counterparty) != "" && Field(row.description) != ""
    && Field(row.amount) != ""
  }

  function ReadRow(words: Words, fallback: string, index: nat, row: Stored): Allocation
    requires row.Row?
  {
    var canonical := Field(row.counterpartyCanonical);
    Allocation(Or(row.id, "alloc-" + Decimal.Print(index + 1)), Field(row.documentId), WhenGiven(row.invoiceId),
               WhenGiven(row.invoiceNumber), Field(row.counterparty),
               if canonical != "" then canonical else words.vendor(Field(row.counterparty)),
               Field(row.description), Field(row.amount), words.upper(Trim(Or(row.currency, fallback))),
               WhenFilled(row.amountEur), WhenFilled(row.vatAmount), WhenGiven(row.vatCurrency))
  }

  function ReadRows(words: Words, fallback: string, rows: seq<Stored>): seq<Allocation> {
    if rows == [] then []
    else
      var front, last := ReadRows(words, fallback, rows[..|rows| - 1]), rows[|rows| - 1];
      if IsReadable(last) then front + [ReadRow(words, fallback, |rows| - 1, last)] else front
  }

  /** Rows that lack a document, counterparty, description or amount are passed over. */
  method ReadTransactionAllocations(words: Words, currency: Option<string>, rows: Option<seq<Stored>>)
      returns (result: seq<Allocation>)
    ensures result == if rows.None? then [] else ReadRows(words, words.upper(Trim(Or(currency, "EUR"))), rows.value)
  {
    if rows.None? { return []; }
    result := [];
    var fallback := words.upper(Trim(Or(currency, "EUR")));
    for index := 0 to |rows.value|
      invariant result == ReadRows(words, fallback, rows.value[..index])
    {
      hide ReadRow;
      var row := rows.value[index];
      assert rows.value[..index + 1][..index] == rows.value[..index];
      if row.NotARow? { continue; }
      if Field(row.documentId) == "" || Field(row.counterparty) == "" || Field(row.description) == "" || Field(row.amount) == "" {
        continue;
      }
      result := result + [ReadRow(words, fallback, index, row)];
    }
    assert rows.value[..|rows.value|] == rows.value;
  }

  // ---------------------------------------------------------------- reading back

  function Store(a: Allocation): Stored {
    Row(Some(a.id), Some(a.documentId), a.invoiceId, a.invoiceNumber, Some(a.counterparty), Some(a.counterpartyCanonical),
        Some(a.description), Some(a.amount), Some(a.currency), a.amountEur, a.vatAmount, a.vatCurrency)
  }

  function StoreAll(list: seq<Allocation>): (rows: seq<Stored>)
    ensures |rows| == |list| && forall i :: 0 <= i < |list| ==> rows[i] == Store(list[i])
  {
    if list == [] then [] else StoreAll(list[..|list| - 1]) + [Store(list[|list| - 1])]
  }

  predicate Filled(s: string) {
    s != "" && Tight(s)
  }

  /** The shape every stored allocation has. */
  predicate WellFormed(words: Words, currency: string, a: Allocation) {
    a.id != "" && Filled(a.documentId) && Filled(a.counterparty) && Filled(a.counterpartyCanonical) && Filled(a.description)
    && Filled(a.amount) && a.currency == currency && words.upper(Trim(currency)) == currency
    && (a.invoiceId.Some? ==> Filled(a.invoiceId.value)) && (a.invoiceNumber.Some? ==> Filled(a.invoiceNumber.value))
    && (a.amountEur.Some? ==> Filled(a.amountEur.value)) && (a.vatAmount.Some? ==> Filled(a.vatAmount.value))
    && (a.vatCurrency.Some? ==> Tight(a.vatCurrency.value))
    && (a.vatAmount.Some? <==> a.vatCurrency.Some?)
  }

  lemma {:induction false} FilledReadsBack(a: Option<string>)
    requires a.Some? ==> Filled(a.value)
    ensures WhenGiven(a) == a && WhenFilled(a) == a
    ensures a.Some? ==> Field(a) == a.value
  {
    if a.Some? { TrimOfTight(a.value); }
  }

  lemma {:induction false} StoredReadsBack(words: Words, currency: string, index: nat, a: Allocation)
    requires WellFormed(words, currency, a)
    ensures IsReadable(Store(a))
    ensures ReadRow(words, currency, index, Store(a)) == a <==> a.vatCurrency != Some("")
  {
    hide Trim, Tight;
    FilledReadsBack(Some(a.documentId));
    FilledReadsBack(Some(a.counterparty));
    FilledReadsBack(Some(a.counterpartyCanonical));
    FilledReadsBack(Some(a.description));
    FilledReadsBack(Some(a.amount));
    FilledReadsBack(a.invoiceId);
    FilledReadsBack(a.invoiceNumber);
    FilledReadsBack(a.amountEur);
    FilledReadsBack(a.vatAmount);
    if a.vatCurrency.Some? && a.vatCurrency.value != "" { FilledReadsBack(a.vatCurrency); }
    assert Or(Some(currency), currency) == currency;
  }

  lemma {:induction false} ListReadsBack(words: Words, currency: string, list: seq<Allocation>)
    requires forall i :: 0 <= i < |list| ==> WellFormed(words, currency, list[i])
    ensures |ReadRows(words, currency, StoreAll(list))| == |list|
    ensures ReadRows(words, currency, StoreAll(list)) == list <==> forall i :: 0 <= i < |list| ==> list[i].vatCurrency != Some("")
  {
    hide WellFormed, ReadRow, IsReadable;
    if list != [] {
      var front, last := list[..|list| - 1], list[|list| - 1];
      ListReadsBack(words, currency, front);
      assert StoreAll(list)[..|list| - 1] == StoreAll(front);
      StoredReadsBack(words, currency, |list| - 1, last);
      var read := ReadRow(words, currency, |list| - 1, Store(last));
      assert ReadRows(words, currency, StoreAll(list)) == ReadRows(words, currency, StoreAll(front)) + [read];
      assert list == front + [last];
      if ReadRows(words, currency, StoreAll(list)) == list {
        assert ReadRows(words, currency, StoreAll(list))[..|list| - 1] == front;
        assert ReadRows(words, currency, StoreAll(list))[|list| - 1] == last;
        assert forall i :: 0 <= i < |front| ==> front[i].vatCurrency != Some("");
      }
    }
  }

  lemma {:induction false} NormalizedIsWellFormed(o: Options, i: nat)
    requires o.words.Lawful() && Readable(o) && i < |Items(o)| && Clear(o, i, 23)
    requires Items(o)[i].Item? && DocumentOf(o, Items(o)[i]).Some? && ParseOptional(Items(o)[i].vatAmount).Ok?
    ensures WellFormed(o.words, Currency(o), NormalizedItem(o, i))
  {
    hide Readable, Clear, AmountAt, ShareAt, ParseOptional, CentsToFixed, DocumentOf, DocumentId, InvoiceId, InvoiceNumber;
    hide Counterparty, Description, Tight, Trim, Currency, Words.Lawful;
    var item := Items(o)[i];
    var document := DocumentOf(o, item).value;
    EntryIsFilled(o, i);
    TextsAreTight(item, document);
    FixedIsFilled(AmountAt(o, i));
    if ShareAt(o, i).Some? { FixedIsFilled(ShareAt(o, i).value); }
    var vat := ParseOptional(item.vatAmount).value;
    if vat.Some? { VatIsFilled(item.vatAmount); }
    IdLetters(i);
    CurrenciesAreUpper(o, item);
    assert Tight(o.words.vendor(Counterparty(item, document))) && o.words.vendor(Counterparty(item, document)) != "";
  }

  lemma {:induction false} CurrenciesAreUpper(o: Options, item: Raw)
    requires o.words.Lawful() && item.Item?
    ensures o.words.upper(Trim(Currency(o))) == Currency(o) && Tight(o.words.upper(Trim(Or(item.vatCurrency, Currency(o)))))
    ensures forall s :: Tight(o.words.vendor(s)) && o.words.vendor(s) != ""
  {
    hide Trim, Tight;
  }

  lemma {:induction false} IdLetters(i: nat)
    ensures "alloc-" + Decimal.Print(i + 1) != ""
  {
    assert |"alloc-" + Decimal.Print(i + 1)| >= 6;
  }

  lemma {:induction false} FixedIsFilled(cents: nat)
    ensures Filled(CentsToFixed(cents))
  {
    FixedShape(cents);
    hide Fixed;
  }

  lemma {:induction false} EntryIsFilled(o: Options, i: nat)
    requires Readable(o) && i < |Items(o)| && Clear(o, i, 23) && Items(o)[i].Item? && DocumentOf(o, Items(o)[i]).Some?
    ensures var item := Items(o)[i]; var document := DocumentOf(o, item).value;
            DocumentId(item) != "" && Counterparty(item, document) != "" && Description(item, document) != ""
  {
    hide Clear, Has, DocumentId, Counterparty, Description, Readable, DocumentOf;
    ClearOf(o, i, NoDocumentId);
    ClearOf(o, i, NoCounterparty);
    ClearOf(o, i, NoDescription);
    SourceIs(o, i, NoDocumentId);
    MoneyIs(o, i, NoCounterparty);
    MoneyIs(o, i, NoDescription);
  }

  lemma {:induction false} TextsAreTight(item: Raw, document: Document)
    requires item.Item?
    ensures Tight(DocumentId(item)) && Tight(Counterparty(item, document)) && Tight(Description(item, document))
    ensures InvoiceId(item).Some? ==> Filled(InvoiceId(item).value)
    ensures InvoiceNumber(item, document).Some? ==> Filled(InvoiceNumber(item, document).value)
  {
    hide Tight, Trim;
    TrimIsTight(Or(item.documentId, Or(item.pdfDocumentId, "")));
    TrimIsTight(Else(item.counterparty, Else(document.counterparty, "")));
    TrimIsTight(Else(item.description, Else(document.description, "")));
    TrimIsTight(Or(item.invoiceId, ""));
    TrimIsTight(Else(item.invoiceNumber, Else(document.invoiceNumber, "")));
  }

  lemma {:induction false} VatIsFilled(raw: Option<string>)
    requires ParseOptional(raw).Ok? && ParseOptional(raw).value.Some?
    ensures Filled(ParseOptional(raw).value.value.formatted)
  {
    FixedIsFilled(Computed(Trim(raw.value)));
    hide Fixed, Computed, TwoDecimals, Tight, HasExponent, MoreDecimals;
  }

  /** What the reader gives back for an accepted split stored with its payment: the same allocations, in
      the same order, exactly unless a VAT currency is blank, which the reader drops. */
  lemma {:induction false} AcceptedReadsBack(o: Options, list: seq<Allocation>)
    requires o.words.Lawful() && Acceptable(o) && IsNormalized(o, |Items(o)|, list)
    ensures |ReadRows(o.words, Currency(o), StoreAll(list))| == |list|
    ensures ReadRows(o.words, Currency(o), StoreAll(list)) == list <==> forall i :: 0 <= i < |list| ==> list[i].vatCurrency != Some("")
  {
    forall i | 0 <= i < |list| ensures WellFormed(o.words, Currency(o), list[i]) {
      hide WellFormed, NormalizedItem, Currency;
      ClearAt(o, i);
      ClearEntry(o, i);
      NormalizedIsWellFormed(o, i);
      assert list[i] == NormalizedItem(o, i);
    }
    hide Acceptable, IsNormalized, WellFormed, Currency;
    ListReadsBack(o.words, Currency(o), list);
  }
}
