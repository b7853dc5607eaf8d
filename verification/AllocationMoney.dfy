// What an accepted split guarantees: totals, uniqueness, and EUR shares.
module AllocationMoney {
  import opened Cents
  import opened Doubles
  import opened Text
  import opened Wrappers
  import opened Allocations
  import opened AllocationValidation

  // ---------------------------------------------------------------- an entry without problems

  lemma {:induction false} ClearEntry(o: Options, i: nat)
    requires Readable(o) && i < |Items(o)| && Clear(o, i, 23)
    ensures Items(o)[i].Item?
    ensures var item := Items(o)[i];
            DocumentOf(o, item).Some? && Amount(item).Ok? && ParseOptional(item.amountEur).Ok? && ItemShare(o, item).Ok?
            && ParseOptional(item.vatAmount).Ok?
  {
    hide SourceProblem, MoneyProblem, Clear;
    ClearOf(o, i, NotObject);
    assert Items(o)[i].Item?;
    MoneyParts(o, i);
    SourceParts(o, i);
    ClearOf(o, i, DocumentUnknown);
    ClearOf(o, i, BadAmount);
    ClearOf(o, i, BadEur);
    ClearOf(o, i, ZeroEur);
    ClearOf(o, i, EurDiffers);
    ClearOf(o, i, InexactEur);
    ClearOf(o, i, BadVat);
  }

  lemma {:induction false} ClearOf(o: Options, i: nat, problem: Problem)
    requires Readable(o) && i < |Items(o)| && Clear(o, i, 23)
    ensures !Has(o, i, problem)
  {
    hide Has;
    assert Rank(problem) < 23;
  }

  lemma {:induction false} MoneyParts(o: Options, i: nat)
    requires Readable(o) && i < |Items(o)| && Items(o)[i].Item?
    ensures var item := Items(o)[i];
            (Amount(item).Err? ==> Has(o, i, BadAmount)) && (ParseOptional(item.amountEur).Err? ==> Has(o, i, BadEur))
            && (ParseOptional(item.vatAmount).Err? ==> Has(o, i, BadVat))
            && (Amount(item).Ok? && ParseOptional(item.amountEur).Ok? && ItemShare(o, item).Err? ==>
                  Has(o, i, ZeroEur) || Has(o, i, EurDiffers) || Has(o, i, InexactEur))
  {
    hide ParseOptional, Amount, Readable, Has, ItemShare;
    MoneyIs(o, i, BadAmount);
    MoneyIs(o, i, BadEur);
    MoneyIs(o, i, BadVat);
    var item := Items(o)[i];
    if Amount(item).Ok? && ParseOptional(item.amountEur).Ok? { ShareProblemsAre(o, i); }
  }

  lemma {:induction false} SourceParts(o: Options, i: nat)
    requires Readable(o) && i < |Items(o)| && Items(o)[i].Item?
    ensures DocumentOf(o, Items(o)[i]).None? ==> Has(o, i, DocumentUnknown)
  {
    hide Has, Readable, DocumentOf, DocumentId, RepeatsDocument, RepeatsInvoice, RepeatsContent, ContentOf, InvoiceId, Taken;
    SourceIs(o, i, DocumentUnknown);
  }

  // ---------------------------------------------------------------- totals

  lemma {:induction false} PartOfSum(s: seq<nat>, i: nat)
    requires i < |s|
    ensures s[i] <= Sum(s)
  {
    if i < |s| - 1 { PartOfSum(s[..|s| - 1], i); }
  }

  /** The stored amounts are canonical texts of the requested amounts, and in whole cents, without any
      rounding, they total the payment. */
  lemma {:induction false} AcceptedTotals(o: Options, list: seq<Allocation>)
    requires Acceptable(o) && IsNormalized(o, |Items(o)|, list)
    ensures Sum(Amounts(o, |list|)) == Total(o).value.cents
    ensures forall i :: 0 <= i < |list| ==>
              ParseStrict(list[i].amount) == Ok(Parsed(Amounts(o, |list|)[i], list[i].amount))
              && Amount(Items(o)[i]) == ParseStrict(list[i].amount)
  {
    hide Amount, ParseStrict;
    AcceptedIsPositive(Else(o.amount, ""));
    DoubleSumIsSum(Amounts(o, |list|));
    forall i | 0 <= i < |list|
      ensures ParseStrict(list[i].amount) == Ok(Parsed(Amounts(o, |list|)[i], list[i].amount))
              && Amount(Items(o)[i]) == ParseStrict(list[i].amount)
    {
      assert Clear(o, i, 23);
      ClearEntry(o, i);
      StoredAmount(o, i);
      assert list[i] == NormalizedItem(o, i);
    }
  }

  lemma {:induction false} StoredAmount(o: Options, i: nat)
    requires i < |Items(o)| && Items(o)[i].Item? && Amount(Items(o)[i]).Ok?
    ensures ParseStrict(CentsToFixed(AmountAt(o, i))) == Ok(Parsed(AmountAt(o, i), CentsToFixed(AmountAt(o, i))))
    ensures Amount(Items(o)[i]) == ParseStrict(CentsToFixed(AmountAt(o, i)))
    ensures 0 < AmountAt(o, i) <= MAX_SAFE
  {
    hide CentsToFixed, ParseStrict;
    AcceptedExactly(Else(Items(o)[i].amount, ""));
    ParseOfFixed(AmountAt(o, i));
  }

  /** When the payment has a EUR value, every stored allocation has one, and they total it: in whole cents if it
      is a safe number, and always in the rounded additions of the program, which are the true total exactly
      when no rounding of theirs moves it. When the payment has none, either all stored allocations have
      one or none does. */
  lemma {:induction false} AcceptedTotalsInEur(o: Options, list: seq<Allocation>)
    requires Acceptable(o) && IsNormalized(o, |Items(o)|, list)
    ensures TotalEur(o).value.Some? ==>
              var shares, totalEur := Shares(o, |list|), TotalEur(o).value.value.cents;
              (forall i :: 0 <= i < |list| ==> list[i].amountEur.Some?)
              && |shares| == |list| && DoubleSum(shares) == totalEur
              && (totalEur <= MAX_SAFE ==> Sum(shares) == totalEur)
              && (Sum(shares) == totalEur <==> DoubleSum(shares) == Sum(shares))
    ensures (forall i :: 0 <= i < |list| ==> list[i].amountEur.Some?) || (forall i :: 0 <= i < |list| ==> list[i].amountEur.None?)
  {
    hide ParseOptional, ParseStrict, Amount, AllClear, ShareAt, Shares, DoubleSum, Sum, DocumentOf, Adds, Total, TotalEur;
    var n := |list|;
    forall i | 0 <= i < n ensures list[i].amountEur.Some? <==> ShareAt(o, i).Some? {
      assert list[i] == NormalizedItem(o, i);
    }
    SharesCount(o, n);
    if TotalEur(o).value.Some? {
      forall i | 0 <= i < n ensures ShareAt(o, i).Some? { ShareExists(o, i); }
      EurSums(Shares(o, n), TotalEur(o).value.value.cents);
    }
  }

  lemma {:induction false} EurSums(shares: seq<nat>, totalEur: nat)
    requires DoubleSum(shares) == totalEur
    ensures totalEur <= MAX_SAFE ==> Sum(shares) == totalEur
    ensures Sum(shares) == totalEur <==> DoubleSum(shares) == Sum(shares)
  {
    hide DoubleSum, Sum;
    DoubleSumIsSum(shares);
  }

  lemma {:induction false} ShareExists(o: Options, i: nat)
    requires Readable(o) && AllClear(o, |Items(o)|) && i < |Items(o)| && TotalEur(o).value.Some?
    ensures ShareAt(o, i).Some?
  {
    hide ParseOptional, ParseStrict, Amount, TotalEur, Total, Double;
    assert Clear(o, i, 23);
    ClearEntry(o, i);
  }

  lemma {:induction false} SharesCount(o: Options, n: nat)
    requires Readable(o) && n <= |Items(o)|
    ensures |Shares(o, n)| == n <==> forall i :: 0 <= i < n ==> ShareAt(o, i).Some?
    ensures Shares(o, n) == [] <==> forall i :: 0 <= i < n ==> ShareAt(o, i).None?
  {
    hide ShareAt, Readable;
    if n > 0 { SharesCount(o, n - 1); }
  }

  // ---------------------------------------------------------------- uniqueness

  /** Documents, invoices, file contents and vendors' invoice numbers are pairwise distinct in an accepted
      split, and none of the first three belongs to another payment. */
  lemma {:induction false} AcceptedAreDistinct(o: Options, list: seq<Allocation>, i: nat, j: nat)
    requires Acceptable(o) && IsNormalized(o, |Items(o)|, list) && i < j < |list|
    ensures list[i].documentId != list[j].documentId
    ensures list[j].invoiceId.Some? ==> list[i].invoiceId != list[j].invoiceId
    ensures ContentOf(o, Items(o)[j]).Some? ==> ContentOf(o, Items(o)[i]) != ContentOf(o, Items(o)[j])
    ensures VendorKeyOf(o, Items(o)[j]).Some? ==> VendorKeyOf(o, Items(o)[i]) != VendorKeyOf(o, Items(o)[j])
    ensures !Taken(o.takenDocuments, list[j].documentId)
    ensures list[j].invoiceId.Some? ==> !Taken(o.takenInvoices, list[j].invoiceId.value)
    ensures ContentOf(o, Items(o)[j]).Some? ==> !Taken(o.takenContents, ContentOf(o, Items(o)[j]).value)
  {
    hide ParseOptional, ParseStrict, Amount, Readable, AllClear, Has, DocumentOf, ContentOf, VendorKeyOf, ItemShare;
    hide DocumentId, InvoiceId, RepeatsDocument, RepeatsInvoice, RepeatsContent, RepeatsInvoiceNumber;
    assert list[i] == NormalizedItem(o, i) && list[j] == NormalizedItem(o, j);
    ClearAt(o, j);
    NoSourceRepeats(o, j);
    NoNumberRepeats(o, j);
    RepeatsPairs(o, i, j);
  }

  lemma {:induction false} NoSourceRepeats(o: Options, j: nat)
    requires Readable(o) && j < |Items(o)| && Items(o)[j].Item? && Clear(o, j, 23)
    ensures !RepeatsDocument(o, j) && !RepeatsInvoice(o, j) && !RepeatsContent(o, j)
    ensures !Taken(o.takenDocuments, DocumentId(Items(o)[j]))
    ensures InvoiceId(Items(o)[j]).Some? ==> !Taken(o.takenInvoices, InvoiceId(Items(o)[j]).value)
    ensures ContentOf(o, Items(o)[j]).Some? ==> !Taken(o.takenContents, ContentOf(o, Items(o)[j]).value)
  {
    hide Has, Clear, Readable, DocumentOf, RepeatsDocument, RepeatsInvoice, RepeatsContent, ContentOf, DocumentId, InvoiceId, Taken;
    NoSourceProblem(o, j, RepeatedDocument);
    NoSourceProblem(o, j, RepeatedInvoice);
    NoSourceProblem(o, j, RepeatedContent);
    NoSourceProblem(o, j, DocumentTaken);
    NoSourceProblem(o, j, InvoiceTaken);
    NoSourceProblem(o, j, ContentTaken);
  }

  lemma {:induction false} NoSourceProblem(o: Options, j: nat, problem: Problem)
    requires Readable(o) && j < |Items(o)| && Items(o)[j].Item? && Clear(o, j, 23) && Rank(problem) < 13
    ensures !SourceProblem(o, j, problem)
  {
    hide Has, Clear, Readable, SourceProblem;
    ClearOf(o, j, problem);
    SourceIs(o, j, problem);
  }

  lemma {:induction false} NoNumberRepeats(o: Options, j: nat)
    requires Readable(o) && j < |Items(o)| && Items(o)[j].Item? && Clear(o, j, 23)
    ensures !RepeatsInvoiceNumber(o, j)
  {
    hide Has, Clear, RepeatsInvoiceNumber, ParseOptional, Amount, ItemShare, Counterparty, Description, ItemCurrency, DocumentOf, Readable;
    ClearOf(o, j, RepeatedInvoiceNumber);
    MoneyIs(o, j, RepeatedInvoiceNumber);
  }

  lemma {:induction false} RepeatsPairs(o: Options, i: nat, j: nat)
    requires i < j < |Items(o)| && Items(o)[i].Item? && Items(o)[j].Item?
    ensures DocumentId(Items(o)[i]) == DocumentId(Items(o)[j]) ==> RepeatsDocument(o, j)
    ensures InvoiceId(Items(o)[j]).Some? && InvoiceId(Items(o)[i]) == InvoiceId(Items(o)[j]) ==> RepeatsInvoice(o, j)
    ensures ContentOf(o, Items(o)[j]).Some? && ContentOf(o, Items(o)[i]) == ContentOf(o, Items(o)[j]) ==> RepeatsContent(o, j)
    ensures VendorKeyOf(o, Items(o)[j]).Some? && VendorKeyOf(o, Items(o)[i]) == VendorKeyOf(o, Items(o)[j]) ==>
              RepeatsInvoiceNumber(o, j)
  {
    hide ContentOf, VendorKeyOf, DocumentId, InvoiceId;
  }

  lemma {:induction false} ClearAt(o: Options, i: nat)
    requires Readable(o) && AllClear(o, |Items(o)|) && i < |Items(o)|
    ensures Clear(o, i, 23)
  {
  }

  // ---------------------------------------------------------------- derived EUR shares

  /** Two numbers that rounding may have moved apart: by no more than one part in 2^53. */
  predicate Close(x: nat, y: nat) {
    0x20_0000_0000_0000 * x <= 0x20_0000_0000_0000 * y + y && 0x20_0000_0000_0000 * y <= 0x20_0000_0000_0000 * x + y
  }

  /** What a derived share ought to be: the proportion when it is whole, a refusal when it is not. */
  function RightShare(total: nat, product: nat): Result<Option<nat>, Problem>
    requires total > 0
  {
    if product % total != 0 then Err(InexactEur) else Ok(Some(product / total))
  }

  /** The program rounds the product before it takes the remainder. While the share is a safe number, the outcome is
      right exactly when the product is a double, as every safe one is, or when neither the product nor what
      it is rounded to divides; an accepted share is the exact proportion exactly when the product is a
      double. */
  lemma {:induction false} ShareIsExact(currency: string, total: nat, totalEur: nat, amount: nat)
    requires currency != "EUR" && 0 < total && Double(amount * totalEur) / total <= MAX_SAFE
    ensures var product, share := amount * totalEur, Share(currency, total, Some(totalEur), amount, None);
            && (product <= MAX_SAFE ==> Double(product) == product)
            && (Double(product) == product <==> product % Unit(product) == 0)
            && (share == RightShare(total, product) <==>
                  Double(product) == product || (product % total != 0 && Double(product) % total != 0))
            && (share.Ok? ==> share.value.Some? && (share.value.value * total == product <==> Double(product) == product))
  {
    hide Double, Unit;
    var product := amount * totalEur;
    SafeExactly(product);
    DoubleExactly(product);
    SafeExactly(Double(product) / total);
    Divides(product, total);
    Divides(Double(product), total);
  }

  /** A part of a payment worth a safe number of EUR cents has a safe share. */
  lemma {:induction false} SharesAreSafe(total: nat, totalEur: nat, amount: nat)
    requires 0 < total && amount <= total && totalEur <= MAX_SAFE
    ensures Double(amount * totalEur) / total <= MAX_SAFE
    ensures Close(Double(amount * totalEur), amount * totalEur) && amount * totalEur <= total * MAX_SAFE
  {
    hide Double;
    var product := amount * totalEur;
    RoundingError(product);
    MonotoneProduct(amount, total, totalEur);
    MonotoneProduct(totalEur, MAX_SAFE, total);
    var rounded := Double(product);
    assert rounded < total * (MAX_SAFE + 1);
    QuotientBelow(rounded, total, MAX_SAFE + 1);
  }

  lemma {:induction false} QuotientBelow(n: nat, a: nat, q: nat)
    requires a > 0 && n < a * q
    ensures n / a < q
  {
    assert n == n / a * a + n % a;
    if n / a >= q { MultiplyAtLeast(n / a, a, q, a); }
  }

  lemma {:induction false} Divides(n: nat, a: nat)
    requires a > 0
    ensures n % a == 0 <==> n / a * a == n
  {
    assert n == n / a * a + n % a;
  }

  /** A part of a payment worth a safe number of EUR cents is never off by a whole cent, and a share that divides
      exactly is accepted exactly when the product is a double. */
  lemma {:induction false} ShareIsNear(currency: string, total: nat, totalEur: nat, amount: nat)
    requires currency != "EUR" && 0 < total && amount <= total && totalEur <= MAX_SAFE
    ensures var product, share := amount * totalEur, Share(currency, total, Some(totalEur), amount, None);
            && (share.Ok? ==> share.value.Some? && product < share.value.value * total + total && share.value.value * total < product + total)
            && (product % total == 0 ==> (share.Ok? <==> Double(product) == product))
  {
    hide Double, Close;
    var product := amount * totalEur;
    SharesAreSafe(total, totalEur, amount);
    SmallIsExact(Double(product) / total);
    NearShare(product, Double(product), total);
  }

  lemma {:induction false} NearShare(product: nat, rounded: nat, total: nat)
    requires total > 0 && Close(rounded, product) && product <= total * MAX_SAFE
    ensures rounded % total == 0 ==> product < rounded / total * total + total && rounded / total * total < product + total
    ensures product % total == 0 && rounded % total == 0 ==> rounded == product
  {
    Divides(product, total);
    Divides(rounded, total);
    if product % total == 0 && rounded % total == 0 { NearMultiples(rounded / total, product / total, total); }
  }

  /** Multiples of a number that differ by less than it are the same. */
  lemma {:induction false} NearMultiples(x: nat, y: nat, a: nat)
    requires x * a < y * a + a && y * a < x * a + a
    ensures x == y
  {
    if x < y { NextMultiple(x, y, a); } else if y < x { NextMultiple(y, x, a); }
  }

  lemma {:induction false} MonotoneProduct(a: nat, b: nat, c: nat)
    requires a <= b
    ensures a * c <= b * c
  {
    assert b * c == a * c + (b - a) * c;
  }

  /** No entry states its own EUR value. */
  predicate NoneStated(o: Options) {
    forall i :: 0 <= i < |Items(o)| && Items(o)[i].Item? ==> ParseOptional(Items(o)[i].amountEur) == Ok(None)
  }

  function RoundedProduct(a: nat, b: nat): nat {
    Double(a * b)
  }

  lemma {:induction false} RoundedIsClose(a: nat, b: nat)
    ensures Close(RoundedProduct(a, b), a * b)
  {
    RoundingError(a * b);
    hide Double;
  }

  /** When every share times a is the rounded product of its amount and e, the sums are close to proportion. */
  lemma {:induction false} SharesNearProportion(shares: seq<nat>, amounts: seq<nat>, a: nat, e: nat)
    requires |shares| == |amounts| && forall i :: 0 <= i < |shares| ==> shares[i] * a == RoundedProduct(amounts[i], e)
    ensures Close(Sum(shares) * a, Sum(amounts) * e)
  {
    hide RoundedProduct, Close;
    if shares == [] {
      NothingIsClose();
    } else {
      var i := |shares| - 1;
      SharesNearProportion(shares[..i], amounts[..i], a, e);
      RoundedIsClose(amounts[i], e);
      CloseAdds(Sum(shares[..i]), shares[i], a, Sum(amounts[..i]), amounts[i], e);
    }
  }

  lemma {:induction false} SharesAre(o: Options, n: nat)
    requires Readable(o) && n <= |Items(o)| && forall i :: 0 <= i < n ==> ShareAt(o, i).Some?
    ensures |Shares(o, n)| == n && forall i :: 0 <= i < n ==> Shares(o, n)[i] == ShareAt(o, i).value
  {
    hide ShareAt, Readable;
    if n > 0 { SharesAre(o, n - 1); }
  }

  lemma {:induction false} NothingIsClose()
    ensures Close(0, 0)
  {
  }

  lemma {:induction false} CloseAdds(x: nat, y: nat, a: nat, u: nat, v: nat, e: nat)
    requires Close(x * a, u * e) && Close(y * a, v * e)
    ensures Close((x + y) * a, (u + v) * e)
  {
    Distributes(x, y, a);
    Distributes(u, v, e);
  }

  lemma {:induction false} Distributes(x: nat, y: nat, a: nat)
    ensures (x + y) * a == x * a + y * a
  {
  }

  lemma {:induction false} ShareIsRounded(o: Options, i: nat)
    requires Readable(o) && AllClear(o, |Items(o)|) && i < |Items(o)| && NoneStated(o)
    requires Currency(o) != "EUR" && TotalEur(o).value.Some? && TotalEur(o).value.value.cents <= MAX_SAFE
    requires AmountAt(o, i) <= Total(o).value.cents
    ensures ShareAt(o, i).Some?
    ensures ShareAt(o, i).value * Total(o).value.cents == RoundedProduct(AmountAt(o, i), TotalEur(o).value.value.cents)
  {
    hide ParseOptional, ParseStrict, Amount, Total, TotalEur, Currency, Double;
    assert Clear(o, i, 23);
    ClearEntry(o, i);
    var total, totalEur, amount := Total(o).value.cents, TotalEur(o).value.value.cents, AmountAt(o, i);
    SharesAreSafe(total, totalEur, amount);
    SmallIsExact(Double(amount * totalEur) / total);
    Divides(Double(amount * totalEur), total);
  }

  /** A foreign payment worth a safe number of EUR cents, split without stating EUR on any entry: once every
      entry is clear and the amounts add up, the derived EUR shares total the payment's EUR value, however
      large the products and whatever their rounding did to single shares. The mismatch and the partial-EUR
      refusals cannot happen, and the split is accepted. */
  lemma {:induction false} DerivedSharesTotal(o: Options)
    requires Items(o) != [] && Readable(o) && AllClear(o, |Items(o)|) && NoneStated(o) && Adds(o)
    requires Currency(o) != "EUR" && TotalEur(o).value.Some? && TotalEur(o).value.value.cents <= MAX_SAFE
    ensures Sum(Shares(o, |Items(o)|)) == TotalEur(o).value.value.cents
    ensures Acceptable(o)
    ensures !Refuses(o, EurSumMismatch) && !Refuses(o, PartialEur)
  {
    hide Readable, AllClear, NoneStated, Currency, Total, TotalEur, Shares, Amounts, Sum, DoubleSum, Items;
    DerivedSum(o);
    DoubleSumIsSum(Shares(o, |Items(o)|));
  }

  lemma {:induction false} DerivedSum(o: Options)
    requires Readable(o) && AllClear(o, |Items(o)|) && NoneStated(o) && Adds(o)
    requires Currency(o) != "EUR" && TotalEur(o).value.Some? && TotalEur(o).value.value.cents <= MAX_SAFE
    ensures |Shares(o, |Items(o)|)| == |Items(o)| && Sum(Shares(o, |Items(o)|)) == TotalEur(o).value.value.cents
  {
    hide ParseOptional, ParseStrict, AllClear, NoneStated, Currency, Total, TotalEur, RoundedProduct, ShareAt, AmountAt, Sum, DoubleSum;
    var n := |Items(o)|;
    var a, e := Total(o).value.cents, TotalEur(o).value.value.cents;
    TotalIsSafe(o);
    DoubleSumIsSum(Amounts(o, n));
    forall i | 0 <= i < n ensures ShareAt(o, i).Some? && ShareAt(o, i).value * a == RoundedProduct(AmountAt(o, i), e) {
      PartOfSum(Amounts(o, n), i);
      ShareIsRounded(o, i);
    }
    SharesAre(o, n);
    SharesNearProportion(Shares(o, n), Amounts(o, n), a, e);
    hide Shares, Amounts;
    MonotoneProduct(e, MAX_SAFE, a);
    NearMultiples(Sum(Shares(o, n)), e, a);
  }

  lemma {:induction false} TotalIsSafe(o: Options)
    requires Readable(o)
    ensures 0 < Total(o).value.cents <= MAX_SAFE
  {
    AcceptedIsPositive(Else(o.amount, ""));
  }
}
