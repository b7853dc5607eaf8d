// Saving a stored split again: exactly when the normal form is a fixed point of the validation.
module AllocationResave {
  import Decimal
  import opened Cents
  import opened Doubles
  import opened Text
  import opened Wrappers
  import opened Allocations
  import opened AllocationValidation
  import opened AllocationMoney
  import opened AllocationReader

  /** The request that sends an allocation back as it was stored. */
  function Resubmitted(a: Allocation): Raw {
    Item(Some(a.id), Some(a.documentId), None, a.invoiceId, a.invoiceNumber, Some(a.counterparty), Some(a.description),
         Some(a.amount), Some(a.currency), a.amountEur, a.vatAmount, a.vatCurrency, false)
  }

  function ResubmittedAll(list: seq<Allocation>): (items: seq<Raw>)
    ensures |items| == |list| && forall i :: 0 <= i < |list| ==> items[i] == Resubmitted(list[i])
  {
    if list == [] then [] else ResubmittedAll(list[..|list| - 1]) + [Resubmitted(list[|list| - 1])]
  }

  function Again(o: Options, list: seq<Allocation>): Options {
    o.(allocations := Some(ResubmittedAll(list)))
  }

  /** What the optional parser read of the i-th entry's VAT amount. */
  function VatAt(o: Options, i: nat): Option<nat>
    requires i < |Items(o)|
  {
    var item := Items(o)[i];
    if item.Item? && ParseOptional(item.vatAmount).Ok? then CentsOf(ParseOptional(item.vatAmount).value) else None
  }

  /** A stored amount that the optional parser reads back as itself. */
  predicate Reads(cents: Option<nat>) {
    cents.Some? ==> Restored(cents.value) == cents
  }

  predicate Lasting(o: Options)
    requires Readable(o)
  {
    forall i :: 0 <= i < |Items(o)| ==> Reads(ShareAt(o, i)) && Reads(VatAt(o, i))
  }

  /** An accepted request and its stored form. */
  ghost predicate IsStored(o: Options, list: seq<Allocation>) {
    o.words.Lawful() && Acceptable(o) && IsNormalized(o, |Items(o)|, list)
  }

  ghost predicate Saved(o: Options, list: seq<Allocation>) {
    IsStored(o, list) && Lasting(o)
  }

  ghost predicate StoredAt(o: Options, list: seq<Allocation>, i: nat) {
    Readable(o) && i < |Items(o)| && |list| == |Items(o)| && Clear(o, i, 23) && Items(o)[i].Item?
    && DocumentOf(o, Items(o)[i]).Some? && Amount(Items(o)[i]).Ok? && ParseOptional(Items(o)[i].amountEur).Ok?
    && ItemShare(o, Items(o)[i]).Ok? && ParseOptional(Items(o)[i].vatAmount).Ok?
    && list[i] == NormalizedItem(o, i) && WellFormed(o.words, Currency(o), list[i])
  }

  ghost predicate SavedAt(o: Options, list: seq<Allocation>, i: nat) {
    StoredAt(o, list, i) && Reads(ShareAt(o, i)) && Reads(VatAt(o, i))
  }

  lemma {:induction false} StoredEntry(o: Options, list: seq<Allocation>, i: nat)
    requires IsStored(o, list) && i < |list|
    ensures StoredAt(o, list, i)
  {
    hide NormalizedItem, WellFormed, ParseOptional, Amount, ItemShare, ShareAt, Currency;
    ClearAt(o, i);
    ClearEntry(o, i);
    NormalizedIsWellFormed(o, i);
    assert list[i] == NormalizedItem(o, i);
  }

  lemma {:induction false} SavedEntry(o: Options, list: seq<Allocation>, i: nat)
    requires Saved(o, list) && i < |list|
    ensures SavedAt(o, list, i)
  {
    hide IsStored, StoredAt, Reads, ShareAt, VatAt;
    StoredEntry(o, list, i);
    assert |list| == |Items(o)| by { StoredLength(o, list); }
  }

  lemma {:induction false} StoredLength(o: Options, list: seq<Allocation>)
    requires IsStored(o, list)
    ensures Readable(o) && |list| == |Items(o)|
  {
  }

  // ---------------------------------------------------------------- what is read the second time

  lemma {:induction false} SamePayment(o: Options, list: seq<Allocation>)
    ensures var p := Again(o, list);
            Currency(p) == Currency(o) && Total(p) == Total(o) && TotalEur(p) == TotalEur(o) && Items(p) == ResubmittedAll(list)
            && (Readable(p) <==> Readable(o))
  {
    hide ParseOptional, ParseStrict;
  }

  lemma {:induction false} FilledIsPresent(s: string)
    requires Filled(s)
    ensures Present(Trim(s)) == Some(s) && Trim(s) == s
  {
    TrimOfTight(s);
  }

  lemma {:induction false} SameSource(o: Options, list: seq<Allocation>, i: nat)
    requires SavedAt(o, list, i)
    ensures var p := Again(o, list); var item, next := Items(o)[i], Items(p)[i];
            DocumentId(next) == DocumentId(item) && InvoiceId(next) == InvoiceId(item)
            && DocumentOf(p, next) == DocumentOf(o, item) && ContentOf(p, next) == ContentOf(o, item)
  {
    hide Trim, Tight, ParseOptional, ParseStrict, Readable, ShareAt, AmountAt, Clear, Currency;
    var a := list[i];
    FilledIsPresent(a.documentId);
    assert Present("") == None && Trim("") == "" by { TrimOfTight(""); }
    if a.invoiceId.Some? { FilledIsPresent(a.invoiceId.value); }
  }

  lemma {:induction false} SameWording(o: Options, list: seq<Allocation>, i: nat)
    requires SavedAt(o, list, i)
    ensures var p := Again(o, list); var item, next, document := Items(o)[i], Items(p)[i], DocumentOf(o, Items(o)[i]).value;
            Counterparty(next, document) == Counterparty(item, document) && Description(next, document) == Description(item, document)
            && ItemCurrency(p, next) == Currency(o)
  {
    hide Trim, Tight, ParseOptional, ParseStrict, Readable, ShareAt, AmountAt, Clear, Currency, DocumentOf;
    FilledIsPresent(list[i].counterparty);
    FilledIsPresent(list[i].description);
    SamePayment(o, list);
    assert Or(Some(Currency(o)), Currency(o)) == Currency(o);
  }

  /** An absent invoice number falls back on the document's, as it did the first time. */
  lemma {:induction false} SameNumber(o: Options, list: seq<Allocation>, i: nat)
    requires SavedAt(o, list, i)
    requires list[i].invoiceNumber.None? ==> NoFallback(o, i)
    ensures var p := Again(o, list); var item, next, document := Items(o)[i], Items(p)[i], DocumentOf(o, Items(o)[i]).value;
            InvoiceNumber(next, document) == InvoiceNumber(item, document)
  {
    hide Tight, ParseOptional, ParseStrict, Readable, ShareAt, AmountAt, Clear, Currency, DocumentOf;
    if list[i].invoiceNumber.Some? { FilledIsPresent(list[i].invoiceNumber.value); }
  }

  predicate NoFallback(o: Options, i: nat)
    requires i < |Items(o)| && Items(o)[i].Item? && DocumentOf(o, Items(o)[i]).Some?
  {
    Trim(Else(DocumentOf(o, Items(o)[i]).value.invoiceNumber, "")) == ""
  }

  lemma {:induction false} SameMoney(o: Options, list: seq<Allocation>, i: nat)
    requires SavedAt(o, list, i)
    ensures var p := Again(o, list); var item, next := Items(o)[i], Items(p)[i];
            Amount(next).Ok? && Amount(next).value.cents == AmountAt(o, i) && AmountAt(p, i) == AmountAt(o, i)
            && ParseOptional(next.amountEur).Ok? && CentsOf(ParseOptional(next.amountEur).value) == ShareAt(o, i)
            && ParseOptional(next.vatAmount) == ParseOptional(item.vatAmount)
  {
    hide Readable, Clear, Currency, DocumentOf, WellFormed, ShareAt, Counterparty, Description, InvoiceNumber, DocumentId, InvoiceId;
    hide ParseStrict, ParseOptional, ItemShare, CentsToFixed, Restored, TwoDecimals;
    var item := Items(o)[i];
    StoredAmount(o, i);
    if ShareAt(o, i).Some? {
      OptionalOfPrinted(ShareAt(o, i).value);
    } else {
      AbsentIsNone();
    }
    var vat := ParseOptional(item.vatAmount).value;
    if vat.Some? {
      FormattedIsFixed(item.vatAmount);
      OptionalOfPrinted(vat.value.cents);
    } else {
      AbsentIsNone();
    }
  }

  lemma {:induction false} AbsentIsNone()
    ensures ParseOptional(None) == Ok(None)
  {
  }

  lemma {:induction false} FormattedIsFixed(raw: Option<string>)
    requires ParseOptional(raw).Ok? && ParseOptional(raw).value.Some?
    ensures ParseOptional(raw).value.value.formatted == CentsToFixed(ParseOptional(raw).value.value.cents)
  {
    hide CentsToFixed, Computed, TwoDecimals, MoreDecimals, HasExponent;
  }

  /** The stored share is taken as stated the second time, and refused only when it is zero. */
  lemma {:induction false} SameShare(o: Options, list: seq<Allocation>, i: nat)
    requires SavedAt(o, list, i)
    ensures Readable(Again(o, list)) && Amount(Items(Again(o, list))[i]).Ok?
            && ParseOptional(Items(Again(o, list))[i].amountEur).Ok?
    ensures ItemShare(Again(o, list), Items(Again(o, list))[i]) ==
              if ShareAt(o, i) == Some(0) then Err(ZeroEur) else Ok(ShareAt(o, i))
  {
    SamePayment(o, list);
    SameMoney(o, list, i);
    var item := Items(o)[i];
    ShareTwice(Currency(o), Total(o).value.cents, CentsOf(TotalEur(o).value), Amount(item).value.cents,
               CentsOf(ParseOptional(item.amountEur).value));
    hide ParseOptional, ParseStrict, Amount, WellFormed, NormalizedItem, DocumentOf, Clear, Share, Currency, Total, TotalEur, Again;
    assert AmountAt(o, i) == Amount(item).value.cents && ShareAt(o, i) == ItemShare(o, item).value;
  }

  lemma {:induction false} ShareTwice(currency: string, total: nat, totalEur: Option<nat>, amount: nat, stated: Option<nat>)
    requires total > 0 && Share(currency, total, totalEur, amount, stated).Ok?
    ensures var share := Share(currency, total, totalEur, amount, stated).value;
            Share(currency, total, totalEur, amount, share) == if share == Some(0) then Err(ZeroEur) else Ok(share)
  {
    hide Double;
  }

  /** A share is zero only for a foreign payment worth nothing in EUR. */
  lemma {:induction false} ZeroShare(o: Options, list: seq<Allocation>, i: nat)
    requires SavedAt(o, list, i) && ShareAt(o, i) == Some(0)
    ensures Currency(o) != "EUR" && TotalEur(o).value.Some? && TotalEur(o).value.value.cents == 0
  {
    StoredAmount(o, i);
    var item := Items(o)[i];
    hide ParseOptional, ParseStrict, Amount, WellFormed, NormalizedItem, DocumentOf, Clear, Share, Currency, Total, TotalEur, CentsToFixed;
    ZeroShareMeans(Currency(o), Total(o).value.cents, CentsOf(TotalEur(o).value), Amount(item).value.cents,
                   CentsOf(ParseOptional(item.amountEur).value));
  }

  lemma {:induction false} ZeroShareMeans(currency: string, total: nat, totalEur: Option<nat>, amount: nat, stated: Option<nat>)
    requires total > 0 && amount > 0
    ensures Share(currency, total, totalEur, amount, stated) == Ok(Some(0)) ==> currency != "EUR" && totalEur == Some(0)
  {
    hide Double;
    if totalEur.Some? {
      SafeExactly(amount * totalEur.value);
      SafeExactly(Double(amount * totalEur.value) / total);
      ZeroProduct(amount, totalEur.value);
      ZeroQuotient(Double(amount * totalEur.value), total);
    }
  }

  lemma {:induction false} ZeroProduct(a: nat, b: nat)
    ensures a > 0 && a * b == 0 ==> b == 0
  {
    if a > 0 && b > 0 { assert a * b >= 1 * b; }
  }

  lemma {:induction false} ZeroQuotient(n: nat, a: nat)
    requires a > 0
    ensures n % a == 0 && n / a == 0 ==> n == 0
  {
  }

  // ---------------------------------------------------------------- repeats

  predicate NoFallbacks(o: Options, list: seq<Allocation>) {
    forall i :: 0 <= i < |list| && i < |Items(o)| && Items(o)[i].Item? && DocumentOf(o, Items(o)[i]).Some? ==>
      list[i].invoiceNumber.None? ==> NoFallback(o, i)
  }

  lemma {:induction false} SameKey(o: Options, list: seq<Allocation>, i: nat)
    requires SavedAt(o, list, i) && NoFallbacks(o, list)
    ensures VendorKeyOf(Again(o, list), Items(Again(o, list))[i]) == VendorKeyOf(o, Items(o)[i])
  {
    hide DocumentOf, InvoiceNumber, Counterparty, NormalizedItem, WellFormed, Readable, Clear, Amount, ParseOptional, ItemShare, ShareAt;
    SameSource(o, list, i);
    SameWording(o, list, i);
    SameNumber(o, list, i);
  }

  lemma {:induction false} SameRepeats(o: Options, list: seq<Allocation>, i: nat)
    requires Saved(o, list) && NoFallbacks(o, list) && i < |list| && SavedAt(o, list, i)
    ensures var p := Again(o, list);
            (RepeatsDocument(p, i) <==> RepeatsDocument(o, i)) && (RepeatsInvoice(p, i) <==> RepeatsInvoice(o, i))
            && (RepeatsContent(p, i) <==> RepeatsContent(o, i)) && (RepeatsInvoiceNumber(p, i) <==> RepeatsInvoiceNumber(o, i))
  {
    var p := Again(o, list);
    hide DocumentId, InvoiceId, ContentOf, VendorKeyOf, SavedAt, NoFallbacks, Saved, Again;
    assert |Items(p)| == |Items(o)| == |list| && forall j :: 0 <= j <= i ==> Items(p)[j].Item? by { SameLength(o, list); }
    forall j | 0 <= j <= i
      ensures Items(o)[j].Item? && DocumentId(Items(p)[j]) == DocumentId(Items(o)[j])
              && InvoiceId(Items(p)[j]) == InvoiceId(Items(o)[j])
              && ContentOf(p, Items(p)[j]) == ContentOf(o, Items(o)[j])
              && VendorKeyOf(p, Items(p)[j]) == VendorKeyOf(o, Items(o)[j])
    {
      SavedIsItem(o, list, j);
      SavedEntry(o, list, j);
      SameSource(o, list, j);
      SameKey(o, list, j);
    }
  }

  lemma {:induction false} SameLength(o: Options, list: seq<Allocation>)
    requires Saved(o, list)
    ensures |Items(Again(o, list))| == |Items(o)| == |list|
    ensures forall j :: 0 <= j < |list| ==> Items(Again(o, list))[j].Item?
  {
  }

  lemma {:induction false} SavedIsItem(o: Options, list: seq<Allocation>, i: nat)
    requires Saved(o, list) && i < |list|
    ensures i < |Items(o)| && Items(o)[i].Item?
  {
    SavedEntry(o, list, i);
  }

  // ---------------------------------------------------------------- the second validation

  lemma {:induction false} SourceStaysClear(o: Options, list: seq<Allocation>, i: nat, problem: Problem)
    requires Saved(o, list) && NoFallbacks(o, list) && i < |list| && SavedAt(o, list, i)
    ensures |Items(Again(o, list))| == |list| && Items(Again(o, list))[i].Item?
    ensures !SourceProblem(Again(o, list), i, problem)
  {
    SameLength(o, list);
    SameSource(o, list, i);
    SameRepeats(o, list, i);
    hide DocumentId, InvoiceId, ContentOf, DocumentOf, RepeatsDocument, RepeatsInvoice, RepeatsContent, Taken, IsStatement;
    hide Readable, Clear, WellFormed, NormalizedItem, Amount, ParseOptional, ItemShare, ShareAt, NoFallbacks, Saved;
    if Rank(problem) < 13 {
      ClearOf(o, i, problem);
      SourceIs(o, i, problem);
    }
  }

  lemma {:induction false} MoneyStaysClear(o: Options, list: seq<Allocation>, i: nat, problem: Problem)
    requires Saved(o, list) && NoFallbacks(o, list) && i < |list| && SavedAt(o, list, i)
    ensures |Items(Again(o, list))| == |list| && Items(Again(o, list))[i].Item? && Readable(Again(o, list))
    ensures MoneyProblem(Again(o, list), i, problem) <==> problem.ZeroEur? && ShareAt(o, i) == Some(0)
  {
    hide DocumentId, InvoiceId, ContentOf, DocumentOf, RepeatsInvoiceNumber, Counterparty, Description, ItemCurrency, Currency;
    hide Clear, WellFormed, NormalizedItem, Amount, ParseOptional, NoFallbacks, Saved, Again;
    SameLength(o, list);
    SameSource(o, list, i);
    SameWording(o, list, i);
    SameMoney(o, list, i);
    SameShare(o, list, i);
    SameRepeats(o, list, i);
    SamePayment(o, list);
    EntryIsFilled(o, i);
    NoNumberRepeats(o, i);
  }

  lemma {:induction false} EntryStaysClear(o: Options, list: seq<Allocation>, i: nat)
    requires Saved(o, list) && NoFallbacks(o, list) && i < |list|
    ensures Readable(Again(o, list)) && i < |Items(Again(o, list))|
    ensures Clear(Again(o, list), i, 23) <==> ShareAt(o, i) != Some(0)
  {
    SavedEntry(o, list, i);
    var p := Again(o, list);
    SamePayment(o, list);
    SameLength(o, list);
    hide SourceProblem, MoneyProblem, Readable, Saved, SavedAt, ShareAt, NoFallbacks, Again;
    forall problem: Problem ensures Has(p, i, problem) <==> problem.ZeroEur? && ShareAt(o, i) == Some(0) {
      SourceStaysClear(o, list, i, problem);
      MoneyStaysClear(o, list, i, problem);
    }
    assert Rank(ZeroEur) < 23;
  }

  /** A foreign payment that is worth nothing in EUR. */
  predicate WorthlessInEur(o: Options)
    requires Readable(o)
  {
    Currency(o) != "EUR" && TotalEur(o).value.Some? && TotalEur(o).value.value.cents == 0
  }

  /** Every share of such a payment is zero. */
  lemma {:induction false} WorthlessShares(o: Options, list: seq<Allocation>)
    requires Saved(o, list)
    ensures WorthlessInEur(o) <==> exists i :: 0 <= i < |list| && ShareAt(o, i) == Some(0)
  {
    hide WorthlessInEur, ShareAt, SavedAt, ParseOptional, ParseStrict;
    if WorthlessInEur(o) {
      WorthlessTotal(o, list);
      LastShare(o, |list|);
      assert ShareAt(o, |list| - 1) == Some(0);
    } else {
      forall i | 0 <= i < |list| ensures ShareAt(o, i) != Some(0) {
        SavedEntry(o, list, i);
        if ShareAt(o, i) == Some(0) { ZeroShareIsWorthless(o, list, i); }
      }
    }
  }

  lemma {:induction false} LastShare(o: Options, n: nat)
    requires Readable(o) && 0 < n <= |Items(o)| && |Shares(o, n)| == n && Sum(Shares(o, n)) == 0
    ensures ShareAt(o, n - 1) == Some(0)
  {
    hide Readable, ShareAt;
  }

  lemma {:induction false} ZeroShareIsWorthless(o: Options, list: seq<Allocation>, i: nat)
    requires SavedAt(o, list, i) && ShareAt(o, i) == Some(0)
    ensures WorthlessInEur(o)
  {
    hide SavedAt, ShareAt;
    ZeroShare(o, list, i);
  }

  lemma {:induction false} WorthlessTotal(o: Options, list: seq<Allocation>)
    requires Saved(o, list) && WorthlessInEur(o)
    ensures |Shares(o, |list|)| == |list| > 0 && Sum(Shares(o, |list|)) == 0
  {
    hide ParseOptional, ParseStrict, Currency;
    AcceptedTotalsInEur(o, list);
  }

  /** The second validation accepts exactly when the payment is not a worthless foreign one. */
  lemma {:induction false} AcceptedAgain(o: Options, list: seq<Allocation>)
    requires Saved(o, list) && NoFallbacks(o, list)
    ensures Acceptable(Again(o, list)) <==> !WorthlessInEur(o)
  {
    SamePayment(o, list);
    SameLength(o, list);
    WorthlessShares(o, list);
    hide Clear, Amounts, Shares, DoubleSum, WorthlessInEur, NoFallbacks, ShareAt, Saved, Again, Total, TotalEur, Adds, AddsInEur, Partial;
    if !WorthlessInEur(o) {
      NoneIsZero(o, list);
    } else {
      var i :| 0 <= i < |list| && ShareAt(o, i) == Some(0);
      EntryStaysClear(o, list, i);
    }
  }

  lemma {:induction false} NoneIsZero(o: Options, list: seq<Allocation>)
    requires Saved(o, list) && NoFallbacks(o, list) && forall i :: 0 <= i < |list| ==> ShareAt(o, i) != Some(0)
    ensures Acceptable(Again(o, list))
  {
    hide Clear, Again, Amounts, Shares, DoubleSum, NoFallbacks, ShareAt, Saved, Adds, Partial, AddsInEur, Readable;
    SamePayment(o, list);
    SameLength(o, list);
    SavedIsAcceptable(o, list);
    var p := Again(o, list);
    forall i | 0 <= i < |list| ensures Clear(p, i, 23) { EntryStaysClear(o, list, i); }
    AddsAgain(o, list);
  }

  lemma {:induction false} AddsAgain(o: Options, list: seq<Allocation>)
    requires Saved(o, list) && forall i :: 0 <= i < |list| ==> ShareAt(o, i) != Some(0)
    requires Readable(o) && Readable(Again(o, list)) && |list| == |Items(o)| == |Items(Again(o, list))|
    ensures var p := Again(o, list);
            (Adds(o) <==> Adds(p)) && (Partial(o) <==> Partial(p)) && (AddsInEur(o) <==> AddsInEur(p))
  {
    hide Again, Amounts, Shares, DoubleSum, ShareAt, Saved, Readable, Total, TotalEur, Currency;
    SamePayment(o, list);
    SameSums(o, list, |list|);
  }

  lemma {:induction false} SavedIsAcceptable(o: Options, list: seq<Allocation>)
    requires Saved(o, list)
    ensures Acceptable(o)
  {
  }

  lemma {:induction false} SameSums(o: Options, list: seq<Allocation>, n: nat)
    requires Saved(o, list) && n <= |list| == |Items(o)| == |Items(Again(o, list))| && Readable(o) && Readable(Again(o, list))
    requires forall i :: 0 <= i < |list| ==> ShareAt(o, i) != Some(0)
    ensures Amounts(Again(o, list), n) == Amounts(o, n) && Shares(Again(o, list), n) == Shares(o, n)
  {
    hide ShareAt, AmountAt, Again, Readable, SavedAt, Saved;
    if n > 0 {
      SameSums(o, list, n - 1);
      SavedEntry(o, list, n - 1);
      SameAt(o, list, n - 1);
    }
  }

  lemma {:induction false} SameAt(o: Options, list: seq<Allocation>, i: nat)
    requires SavedAt(o, list, i) && ShareAt(o, i) != Some(0) && Readable(Again(o, list))
    ensures AmountAt(Again(o, list), i) == AmountAt(o, i) && ShareAt(Again(o, list), i) == ShareAt(o, i)
  {
    hide Readable, ItemShare, Amount, ParseOptional, Clear, NormalizedItem, WellFormed, DocumentOf;
    SameMoney(o, list, i);
    SameShare(o, list, i);
    assert Items(Again(o, list))[i].Item?;
  }

  /** An allocation comes out of the second validation unchanged unless a blank VAT currency is replaced. */
  lemma {:induction false} NormalizedAgain(o: Options, list: seq<Allocation>, i: nat)
    requires SavedAt(o, list, i) && NoFallbacks(o, list) && ShareAt(o, i) != Some(0) && o.words.Lawful()
    ensures Readable(Again(o, list)) && DocumentOf(Again(o, list), Items(Again(o, list))[i]).Some?
            && ParseOptional(Items(Again(o, list))[i].vatAmount).Ok?
    ensures NormalizedItem(Again(o, list), i) == list[i] <==> Currency(o) == "" || list[i].vatCurrency != Some("")
  {
    SamePayment(o, list);
    SameSource(o, list, i);
    SameMoney(o, list, i);
    if list[i].vatCurrency.Some? { SameVatCurrency(o, list, i); }
    SameFields(o, list, i);
    hide DocumentOf, DocumentId, InvoiceId, InvoiceNumber, Counterparty, Description, ShareAt, AmountAt, ParseOptional, CentsToFixed;
    hide Clear, Amount, ItemShare, Currency, Trim, Tight, NoFallbacks, WellFormed, Or, Readable, Again, NormalizedItem;
    assert list[i] == NormalizedItem(o, i);
  }

  /** The VAT currency is upper case already, and a blank one is replaced by the payment's. */
  lemma {:induction false} SameVatCurrency(o: Options, list: seq<Allocation>, i: nat)
    requires SavedAt(o, list, i) && o.words.Lawful() && list[i].vatCurrency.Some?
    ensures o.words.upper(Trim(Or(list[i].vatCurrency, Currency(o)))) == list[i].vatCurrency.value <==>
              Currency(o) == "" || list[i].vatCurrency != Some("")
  {
    var item := Items(o)[i];
    hide Trim, Tight, Clear, Readable, ShareAt, AmountAt, ParseOptional, CentsToFixed, DocumentOf;
    assert o.words.upper(Trim(Currency(o))) == Currency(o);
    assert o.words.upper(Trim(list[i].vatCurrency.value)) == list[i].vatCurrency.value;
  }

  lemma {:induction false} SameFields(o: Options, list: seq<Allocation>, i: nat)
    requires SavedAt(o, list, i) && NoFallbacks(o, list) && ShareAt(o, i) != Some(0)
    requires Readable(Again(o, list)) && DocumentOf(Again(o, list), Items(Again(o, list))[i]).Some?
    requires ParseOptional(Items(Again(o, list))[i].vatAmount).Ok?
    ensures NormalizedItem(Again(o, list), i) ==
              NormalizedItem(o, i).(vatCurrency :=
                if list[i].vatCurrency.Some? then Some(o.words.upper(Trim(Or(list[i].vatCurrency, Currency(o))))) else None)
  {
    SamePayment(o, list);
    SameSource(o, list, i);
    SameWording(o, list, i);
    SameNumber(o, list, i);
    SameMoney(o, list, i);
    SameAt(o, list, i);
    SavedShape(o, list, i);
    hide DocumentOf, DocumentId, InvoiceId, InvoiceNumber, Counterparty, Description, ShareAt, AmountAt, ParseOptional, CentsToFixed;
    hide Currency, Trim, NoFallbacks, Readable, Or, ContentOf, ItemCurrency, SavedAt, Clear;
  }

  lemma {:induction false} SavedShape(o: Options, list: seq<Allocation>, i: nat)
    requires SavedAt(o, list, i)
    ensures list[i] == NormalizedItem(o, i) && list[i].id != ""
    ensures Items(Again(o, list))[i] == Resubmitted(list[i]) && Or(Some(list[i].id), "alloc-" + Decimal.Print(i + 1)) == list[i].id
  {
    hide NormalizedItem, ParseOptional, Amount, ItemShare, Clear, Readable, DocumentOf;
  }

  /** Without the document's own invoice number to fall back on, or else the second result has one more. */
  lemma {:induction false} FallbackShows(o: Options, list: seq<Allocation>, i: nat)
    requires SavedAt(o, list, i) && list[i].invoiceNumber.None? && !NoFallback(o, i)
    requires Readable(Again(o, list)) && DocumentOf(Again(o, list), Items(Again(o, list))[i]).Some?
    requires ParseOptional(Items(Again(o, list))[i].vatAmount).Ok?
    ensures NormalizedItem(Again(o, list), i) != list[i]
  {
    SameSource(o, list, i);
    hide DocumentId, InvoiceId, Counterparty, Description, ShareAt, AmountAt, ParseOptional, CentsToFixed;
    hide Clear, Amount, ItemShare, Currency, Trim, Tight, Readable, WellFormed;
    assert NormalizedItem(Again(o, list), i).invoiceNumber.Some?;
  }

  /** The second result is the first. */
  ghost predicate Unchanged(o: Options, list: seq<Allocation>) {
    Acceptable(Again(o, list)) && |list| == |Items(Again(o, list))| && IsNormalized(Again(o, list), |list|, list)
  }

  /** Saving a stored split again, under the same payment and documents, is accepted with the same result
      exactly when the payment is not a foreign one worth nothing in EUR, no VAT currency is blank beside a
      payment currency that is not, no allocation without an invoice number has a document with one, and every
      stored EUR or VAT amount reads back as itself. */
  lemma {:induction false} SavingAgain(o: Options, list: seq<Allocation>)
    requires IsStored(o, list)
    ensures Readable(o)
    ensures Unchanged(o, list) <==>
              Lasting(o) && !WorthlessInEur(o) && NoFallbacks(o, list)
              && (Currency(o) == "" || forall i :: 0 <= i < |list| ==> list[i].vatCurrency != Some(""))
  {
    hide WorthlessInEur, SavedAt, Currency, Lasting, NoFallbacks;
    StoredLength(o, list);
    if Unchanged(o, list) { UnchangedLasts(o, list); }
    if Lasting(o) {
      SameLength(o, list);
      if Unchanged(o, list) { UnchangedHasNoFallbacks(o, list); }
      if NoFallbacks(o, list) {
        AcceptedAgain(o, list);
        if !WorthlessInEur(o) { UnchangedExactly(o, list); }
      }
    }
  }

  lemma {:induction false} UnchangedLasts(o: Options, list: seq<Allocation>)
    requires IsStored(o, list) && Unchanged(o, list)
    ensures Readable(o) && Lasting(o)
  {
    hide IsStored, StoredAt, Reads, ShareAt, VatAt, Unchanged, Readable;
    StoredLength(o, list);
    forall i | 0 <= i < |Items(o)| ensures Reads(ShareAt(o, i)) && Reads(VatAt(o, i)) {
      StoredEntry(o, list, i);
      UnchangedAt(o, list, i);
      ShareLasts(o, list, i);
      VatLasts(o, list, i);
    }
  }

  /** The i-th stored allocation comes out of the second validation as it was. */
  ghost predicate IsUnchangedAt(o: Options, list: seq<Allocation>, i: nat) {
    var p := Again(o, list);
    && Readable(p) && i < |list| == |Items(p)| && Clear(p, i, 23) && Items(p)[i] == Resubmitted(list[i])
    && DocumentOf(p, Items(p)[i]).Some? && ParseOptional(Items(p)[i].vatAmount).Ok?
    && list[i] == NormalizedItem(p, i)
  }

  lemma {:induction false} UnchangedAt(o: Options, list: seq<Allocation>, i: nat)
    requires IsStored(o, list) && Unchanged(o, list) && i < |list|
    ensures IsUnchangedAt(o, list, i)
  {
    hide NormalizedItem, ParseOptional, Amount, ItemShare, ShareAt, Currency, Clear, DocumentOf, IsStored;
    var p := Again(o, list);
    assert Clear(p, i, 23);
    SamePayment(o, list);
    assert list[i] == NormalizedItem(p, i);
  }

  lemma {:induction false} ShareLasts(o: Options, list: seq<Allocation>, i: nat)
    requires StoredAt(o, list, i) && IsUnchangedAt(o, list, i)
    ensures Reads(ShareAt(o, i))
  {
    hide Readable, Clear, Currency, DocumentOf, WellFormed, Counterparty, Description, InvoiceNumber, DocumentId, InvoiceId;
    hide ParseStrict, ParseOptional, CentsToFixed, Restored, Amount, Total, TotalEur, Again;
    var p := Again(o, list);
    if ShareAt(o, i).Some? {
      var share := ShareAt(o, i).value;
      OptionalOfPrinted(share);
      ClearEntry(p, i);
      assert list[i].amountEur == Some(CentsToFixed(share));
      assert Restored(share).Some?;
      assert ShareAt(p, i) == Restored(share);
      StoredIsADouble(o, i);
      PrintedAgain(share);
    }
  }

  lemma {:induction false} VatLasts(o: Options, list: seq<Allocation>, i: nat)
    requires StoredAt(o, list, i) && IsUnchangedAt(o, list, i)
    ensures Reads(VatAt(o, i))
  {
    hide Readable, Clear, Currency, DocumentOf, WellFormed, Counterparty, Description, InvoiceNumber, DocumentId, InvoiceId;
    hide ParseStrict, ParseOptional, CentsToFixed, Restored, Amount, Total, TotalEur, Again, ShareAt, ItemShare;
    if VatAt(o, i).Some? {
      var vat := VatAt(o, i).value;
      FormattedIsFixed(Items(o)[i].vatAmount);
      OptionalOfPrinted(vat);
      assert list[i].vatAmount == Some(CentsToFixed(vat));
      StoredIsADouble(o, i);
      PrintedAgain(vat);
    }
  }

  /** An amount that prints the same after it was read back is the same. */
  lemma {:induction false} PrintedAgain(cents: nat)
    requires Double(cents) == cents && Restored(cents).Some?
    ensures CentsToFixed(Restored(cents).value) == CentsToFixed(cents) <==> Restored(cents).value == cents
  {
    hide CentsToFixed, Double;
    RestoredIsADouble(cents);
    if CentsToFixed(Restored(cents).value) == CentsToFixed(cents) { PrintedDiffers(cents, Restored(cents).value); }
  }

  /** Amounts below 2^55 always read back as themselves. */
  lemma {:induction false} LastsBelow(o: Options)
    requires Readable(o)
    requires forall i :: 0 <= i < |Items(o)| ==>
               (ShareAt(o, i).Some? ==> ShareAt(o, i).value < 0x80_0000_0000_0000)
               && (VatAt(o, i).Some? ==> VatAt(o, i).value < 0x80_0000_0000_0000)
    ensures Lasting(o)
  {
    hide Readable, ShareAt, VatAt, Restored;
    forall i | 0 <= i < |Items(o)| ensures Reads(ShareAt(o, i)) && Reads(VatAt(o, i)) {
      StoredIsADouble(o, i);
      if ShareAt(o, i).Some? { RereadExactly(ShareAt(o, i).value); }
      if VatAt(o, i).Some? { RereadExactly(VatAt(o, i).value); }
    }
  }

  lemma {:induction false} StoredIsADouble(o: Options, i: nat)
    requires Readable(o) && i < |Items(o)|
    ensures ShareAt(o, i).Some? ==> Double(ShareAt(o, i).value) == ShareAt(o, i).value
    ensures VatAt(o, i).Some? ==> Double(VatAt(o, i).value) == VatAt(o, i).value
  {
    hide ParseStrict, ParseOptional, CentsToFixed, Total, TotalEur, Currency, Double;
    var item := Items(o)[i];
    if VatAt(o, i).Some? { ParsedIsADouble(item.vatAmount); }
    if ShareAt(o, i).Some? {
      AcceptedIsPositive(Else(item.amount, ""));
      SmallIsExact(AmountAt(o, i));
      if ParseOptional(item.amountEur).value.Some? {
        ParsedIsADouble(item.amountEur);
      } else if TotalEur(o).value.Some? {
        DoubleIsADouble(Double(AmountAt(o, i) * TotalEur(o).value.value.cents) / Total(o).value.cents);
      }
    }
  }

  lemma {:induction false} ParsedIsADouble(raw: Option<string>)
    requires ParseOptional(raw).Ok? && ParseOptional(raw).value.Some?
    ensures Double(ParseOptional(raw).value.value.cents) == ParseOptional(raw).value.value.cents
  {
    hide Computed, TwoDecimals, MoreDecimals, HasExponent, CentsToFixed, Double, Trim, Said, Unit;
    ComputedExactly(Trim(raw.value));
  }

  lemma {:induction false} UnchangedHasNoFallbacks(o: Options, list: seq<Allocation>)
    requires Saved(o, list) && Unchanged(o, list)
    ensures NoFallbacks(o, list)
  {
    hide NoFallback, SavedAt, NormalizedItem, DocumentOf, ParseOptional, Readable, Again;
    forall i | 0 <= i < |list| && list[i].invoiceNumber.None? && i < |Items(o)| && Items(o)[i].Item? && DocumentOf(o, Items(o)[i]).Some?
      ensures NoFallback(o, i)
    {
      SavedEntry(o, list, i);
      assert list[i] == NormalizedItem(Again(o, list), i);
      if !NoFallback(o, i) { FallbackShows(o, list, i); }
    }
  }

  lemma {:induction false} UnchangedExactly(o: Options, list: seq<Allocation>)
    requires Saved(o, list) && NoFallbacks(o, list) && !WorthlessInEur(o) && Acceptable(Again(o, list))
    requires |list| == |Items(Again(o, list))|
    ensures Unchanged(o, list) <==> Currency(o) == "" || forall i :: 0 <= i < |list| ==> list[i].vatCurrency != Some("")
  {
    var p := Again(o, list);
    forall i | 0 <= i < |list|
      ensures IsEntry(p, list, i) <==> Currency(o) == "" || list[i].vatCurrency != Some("")
    {
      EntryUnchanged(o, list, i);
      hide NormalizedItem, DocumentOf, ParseOptional, Readable, Again, Currency, WorthlessInEur, NoFallbacks, Saved, Acceptable;
    }
    UnchangedIsEntries(p, list);
    assert Unchanged(o, list) <==> IsNormalized(p, |list|, list);
    hide Readable, Again, Currency, WorthlessInEur, NoFallbacks, Saved, IsEntry, Acceptable, IsNormalized, Unchanged;
  }

  /** The i-th entry of the request has this normal form. */
  ghost predicate IsEntry(p: Options, list: seq<Allocation>, i: nat)
    requires Readable(p) && |list| == |Items(p)| && i < |list|
  {
    Items(p)[i].Item? && DocumentOf(p, Items(p)[i]).Some? && ParseOptional(Items(p)[i].vatAmount).Ok?
    && list[i] == NormalizedItem(p, i)
  }

  lemma {:induction false} UnchangedIsEntries(p: Options, list: seq<Allocation>)
    requires Readable(p) && |list| == |Items(p)|
    ensures IsNormalized(p, |list|, list) <==> forall i :: 0 <= i < |list| ==> IsEntry(p, list, i)
  {
    hide NormalizedItem, DocumentOf, ParseOptional, Readable;
    if IsNormalized(p, |list|, list) {
      forall i | 0 <= i < |list| ensures IsEntry(p, list, i) {}
    }
    if forall i :: 0 <= i < |list| ==> IsEntry(p, list, i) {
      forall i | 0 <= i < |list|
        ensures Items(p)[i].Item? && DocumentOf(p, Items(p)[i]).Some? && ParseOptional(Items(p)[i].vatAmount).Ok?
                && list[i] == NormalizedItem(p, i)
      {
        assert IsEntry(p, list, i);
      }
    }
  }

  lemma {:induction false} EntryUnchanged(o: Options, list: seq<Allocation>, i: nat)
    requires Saved(o, list) && NoFallbacks(o, list) && !WorthlessInEur(o) && i < |list| == |Items(Again(o, list))|
    ensures Readable(Again(o, list)) && Items(Again(o, list))[i].Item?
    ensures DocumentOf(Again(o, list), Items(Again(o, list))[i]).Some? && ParseOptional(Items(Again(o, list))[i].vatAmount).Ok?
    ensures NormalizedItem(Again(o, list), i) == list[i] <==> Currency(o) == "" || list[i].vatCurrency != Some("")
  {
    hide SavedAt, NormalizedItem, DocumentOf, ParseOptional, Readable, Again, Currency, WorthlessInEur, NoFallbacks, ShareAt;
    WorthlessShares(o, list);
    SameLength(o, list);
    SavedEntry(o, list, i);
    NormalizedAgain(o, list, i);
  }
}
