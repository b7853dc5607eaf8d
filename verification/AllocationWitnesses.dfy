// Payments and splits at which the validation falls short of what it is meant to do. Each is a whole request,
// and says what the validation makes of it.
module AllocationWitnesses {
  import opened Cents
  import opened Doubles
  import opened Text
  import opened Wrappers
  import opened Allocations
  import opened AllocationValidation
  import opened AllocationMoney
  import opened AllocationReader
  import opened AllocationResave

  // ---------------------------------------------------------------- requests in which only money matters

  /** One entry: its amount, and its stated EUR value and VAT if any, in cents; the VAT currency as given; and whether
      it states an empty invoice number for a document that has one. */
  datatype Part = Part(amount: nat, eur: Option<nat>, vat: Option<nat>, vatCurrency: Option<string>, unnumbered: bool)

  function Words(): Allocations.Words {
    Allocations.Words(s => s, s => s, s => "vendor")
  }

  function Id(i: nat): string {
    if i == 0 then "a" else if i == 1 then "b" else "c"
  }

  function Invoice(parts: seq<Part>, i: nat): Document {
    Document("active", "invoice", "", None, None, None, if i < |parts| && parts[i].unnumbered then Some("7") else None)
  }

  function AsText(cents: Option<nat>): Option<string> {
    if cents.Some? then Some(Written(cents.value)) else None
  }

  function Entry(i: nat, part: Part): Raw {
    Item(None, Some(Id(i)), None, None, if part.unnumbered then Some("") else None, Some("counterparty"), Some("description"), Some(Written(part.amount)), None,
         AsText(part.eur), AsText(part.vat), part.vatCurrency, false)
  }

  function Entries(parts: seq<Part>): (items: seq<Raw>)
    ensures |items| == |parts| && forall i :: 0 <= i < |items| ==> items[i] == Entry(i, parts[i])
  {
    seq(|parts|, i requires 0 <= i < |parts| => Entry(i, parts[i]))
  }

  /** A payment in dollars of known EUR value, split over plain invoices. */
  function Payment(total: nat, totalEur: nat, parts: seq<Part>): Options {
    Options(Some("USD"), Some(Written(total)), Some(Written(totalEur)), Some(Entries(parts)),
            map["a" := Invoice(parts, 0), "b" := Invoice(parts, 1), "c" := Invoice(parts, 2)], map[], map[], map[], Words())
  }

  ghost predicate IsPlain(total: nat, parts: seq<Part>) {
    0 < total <= MAX_SAFE && 1 <= |parts| <= 3 && forall i :: 0 <= i < |parts| ==> 0 < parts[i].amount <= MAX_SAFE
  }

  function Stated(part: Part): Option<nat> {
    if part.eur.Some? then Some(Reread(part.eur.value)) else None
  }

  function PartShare(total: nat, totalEur: nat, part: Part): Result<Option<nat>, Problem>
    requires total > 0
  {
    Share("USD", total, Some(Reread(totalEur)), part.amount, Stated(part))
  }

  lemma {:induction false} PaymentIsReadable(total: nat, totalEur: nat, parts: seq<Part>)
    requires IsPlain(total, parts)
    ensures var o := Payment(total, totalEur, parts);
            Readable(o) && Total(o).Ok? && TotalEur(o).Ok?
            && Total(o).value.cents == total && CentsOf(TotalEur(o).value) == Some(Reread(totalEur))
            && Currency(o) == "USD" && Items(o) == Entries(parts)
  {
    hide ParseStrict, ParseOptional, CentsToFixed, Written, Reread;
    ParseOfFixed(total);
    OptionalOfWritten(totalEur);
    TrimOfTight("USD");
  }

  lemma {:induction false} EntryIsRead(o: Options, i: nat, part: Part)
    requires i < |Items(o)| && Items(o)[i] == Entry(i, part) && 0 < part.amount <= MAX_SAFE
    ensures var item := Items(o)[i];
            Amount(item) == Ok(Parsed(part.amount, CentsToFixed(part.amount))) && AmountAt(o, i) == part.amount
            && ParseOptional(item.amountEur).Ok? && CentsOf(ParseOptional(item.amountEur).value) == Stated(part)
            && ParseOptional(item.vatAmount).Ok? && (VatAt(o, i).Some? <==> part.vat.Some?)
            && (part.vat.Some? ==> VatAt(o, i) == Some(Reread(part.vat.value)))
  {
    hide ParseStrict, ParseOptional, CentsToFixed, Written, Reread;
    ParseOfFixed(part.amount);
    AbsentIsNone();
    if part.eur.Some? { OptionalOfWritten(part.eur.value); }
    if part.vat.Some? { OptionalOfWritten(part.vat.value); }
  }

  lemma {:induction false} EntrySource(total: nat, totalEur: nat, parts: seq<Part>, i: nat)
    requires IsPlain(total, parts) && i < |parts|
    ensures var o := Payment(total, totalEur, parts); var item := Items(o)[i];
            DocumentId(item) == Id(i) && DocumentOf(o, item) == Some(Invoice(parts, i)) && InvoiceId(item) == None
            && ContentOf(o, item) == None && VendorKeyOf(o, item) == None
            && Counterparty(item, Invoice(parts, i)) == "counterparty" && Description(item, Invoice(parts, i)) == "description"
            && InvoiceNumber(item, Invoice(parts, i)) == None
            && ItemCurrency(o, item) == "USD"
  {
    hide Written, Trim;
    TrimOfTight(Id(i));
    TrimOfTight("");
    TrimOfTight("USD");
    TrimOfTight("counterparty");
    TrimOfTight("description");
  }

  /** Nothing can be wrong with an entry but its share. */
  lemma {:induction false} OnlyShares(total: nat, totalEur: nat, parts: seq<Part>, i: nat, problem: Problem)
    requires IsPlain(total, parts) && i < |parts|
    ensures var o := Payment(total, totalEur, parts);
            Readable(o) && i < |Items(o)| && (Has(o, i, problem) <==> PartShare(total, totalEur, parts[i]) == Err(problem))
  {
    hide ParseStrict, ParseOptional, CentsToFixed, Written, Reread, Readable, Total, TotalEur, Currency, Amount;
    hide DocumentId, DocumentOf, InvoiceId, ContentOf, VendorKeyOf, Counterparty, Description, ItemCurrency, SourceProblem, Share;
    var o := Payment(total, totalEur, parts);
    PaymentIsReadable(total, totalEur, parts);
    EntryIsRead(o, i, parts[i]);
    forall j | 0 <= j <= i ensures DocumentId(Items(o)[j]) == Id(j) { EntrySource(total, totalEur, parts, j); }
    EntrySource(total, totalEur, parts, i);
    ShareFailures("USD", total, Some(Reread(totalEur)), parts[i].amount, Stated(parts[i]));
    SourceIsPlain(o, i, problem);
  }

  lemma {:induction false} SourceIsPlain(o: Options, i: nat, problem: Problem)
    requires i < |Items(o)| <= 3 && (forall j :: 0 <= j <= i ==> Items(o)[j].Item? && DocumentId(Items(o)[j]) == Id(j))
    requires !Items(o)[i].proportional && InvoiceId(Items(o)[i]) == None
    requires var d := DocumentOf(o, Items(o)[i]); d.Some? && d.value.status == "active" && d.value.documentType == "invoice" && d.value.voidStatus == ""
    requires ContentOf(o, Items(o)[i]) == None && o.takenDocuments == map[]
    ensures !SourceProblem(o, i, problem)
  {
    hide DocumentId, DocumentOf, InvoiceId, ContentOf;
  }

  lemma {:induction false} ShareFailures(currency: string, total: nat, totalEur: Option<nat>, amount: nat, stated: Option<nat>)
    requires total > 0
    ensures var r := Share(currency, total, totalEur, amount, stated);
            r.Err? ==> r.error in {ZeroEur, EurDiffers, InexactEur}
  {
    hide Double;
  }

  lemma {:induction false} PaymentEntry(total: nat, totalEur: nat, parts: seq<Part>, i: nat)
    requires IsPlain(total, parts) && i < |parts|
    ensures var o := Payment(total, totalEur, parts);
            Readable(o) && i < |Items(o)| && AmountAt(o, i) == parts[i].amount
            && ShareAt(o, i) == (if PartShare(total, totalEur, parts[i]).Ok? then PartShare(total, totalEur, parts[i]).value else None)
  {
    hide ParseStrict, ParseOptional, CentsToFixed, Written, Reread, Share, Amount, Total, TotalEur, Currency;
    var o := Payment(total, totalEur, parts);
    PaymentIsReadable(total, totalEur, parts);
    EntryIsRead(o, i, parts[i]);
  }

  /** Entries whose shares are all in order are clear. */
  lemma {:induction false} PaymentIsClear(total: nat, totalEur: nat, parts: seq<Part>)
    requires IsPlain(total, parts) && forall i :: 0 <= i < |parts| ==> PartShare(total, totalEur, parts[i]).Ok?
    ensures var o := Payment(total, totalEur, parts); Items(o) != [] && Readable(o) && AllClear(o, |Items(o)|)
  {
    hide Has, Readable, PartShare;
    var o := Payment(total, totalEur, parts);
    PaymentIsReadable(total, totalEur, parts);
    forall i, problem: Problem | 0 <= i < |parts| ensures !Has(o, i, problem) { OnlyShares(total, totalEur, parts, i, problem); }
  }

  function PartAmounts(parts: seq<Part>): (s: seq<nat>)
    ensures |s| == |parts| && forall i :: 0 <= i < |s| ==> s[i] == parts[i].amount
  {
    if parts == [] then [] else PartAmounts(parts[..|parts| - 1]) + [parts[|parts| - 1].amount]
  }

  lemma {:induction false} PaymentSums(total: nat, totalEur: nat, parts: seq<Part>, shares: seq<nat>)
    requires IsPlain(total, parts) && |shares| == |parts|
    requires forall i :: 0 <= i < |parts| ==> PartShare(total, totalEur, parts[i]) == Ok(Some(shares[i]))
    ensures var o := Payment(total, totalEur, parts);
            Readable(o) && |Items(o)| == |parts| && Amounts(o, |parts|) == PartAmounts(parts) && Shares(o, |parts|) == shares
            && Total(o).value.cents == total && CentsOf(TotalEur(o).value) == Some(Reread(totalEur))
  {
    hide Readable, PartShare, ShareAt, AmountAt, Payment, Total, TotalEur, Reread;
    var o := Payment(total, totalEur, parts);
    PaymentIsReadable(total, totalEur, parts);
    forall i | 0 <= i < |parts| ensures ShareAt(o, i) == Some(shares[i]) && AmountAt(o, i) == parts[i].amount {
      PaymentEntry(total, totalEur, parts, i);
    }
    SharesAre(o, |parts|);
  }

  // ---------------------------------------------------------------- rounding of derived shares

  function Plain(amount: nat): Part {
    Part(amount, None, None, None, false)
  }

  /** A payment of 1000000.01 dollars worth 900719.93 EUR is refused as inexact although one invoice takes all of
      it: its product is rounded. */
  lemma {:induction false} ExactShareIsRefused()
    ensures var o := Payment(100000001, 90071993, [Plain(100000001)]);
            Refuses(o, At(0, InexactEur)) && TotalEur(o).Ok? && CentsOf(TotalEur(o).value) == Some(90071993)
    ensures 100000001 * 90071993 % 100000001 == 0
  {
    hide ParseStrict, ParseOptional, CentsToFixed, Written, Reread, Readable, Has, Double;
    var parts := [Plain(100000001)];
    var o := Payment(100000001, 90071993, parts);
    PaymentIsReadable(100000001, 90071993, parts);
    RereadSafe(90071993);
    RoundedDown();
    forall problem: Problem ensures Has(o, 0, problem) <==> problem == InexactEur { OnlyShares(100000001, 90071993, parts, 0, problem); }
  }

  lemma {:induction false} RereadSafe(cents: nat)
    requires cents <= 9007199254740992
    ensures Reread(cents) == cents
  {
    SmallIsExact(cents);
    RereadExactly(cents);
  }

  lemma {:induction false} RoundedDown()
    ensures Double(100000001 * 90071993) == 9007199390071992
  {
    assert IsPower(2);
    UnitIs(9007199390071993, 2);
    hide Unit;
  }

  /** A payment of 2000000.00 dollars worth 1800000.11 EUR, split into 1109090.91 and 890909.09, is accepted although
      neither share divides: both products are rounded, in opposite directions, to ones that do. */
  lemma {:induction false} InexactSharesAreAccepted()
    ensures var o := Payment(200000000, 180000011, [Plain(110909091), Plain(89090909)]);
            Acceptable(o) && CentsOf(TotalEur(o).value) == Some(180000011)
            && ShareAt(o, 0) == Some(99818188) && ShareAt(o, 1) == Some(80181823)
    ensures 110909091 * 180000011 % 200000000 == 1 && 89090909 * 180000011 % 200000000 == 199999999
  {
    hide ParseStrict, ParseOptional, CentsToFixed, Written, Reread, Readable, Has, Double, Payment, DoubleSum;
    var parts := [Plain(110909091), Plain(89090909)];
    RereadSafe(180000011);
    RoundedToMultiples();
    SmallIsExact(99818188);
    SmallIsExact(80181823);
    var shares := [99818188, 80181823];
    assert PartShare(200000000, 180000011, parts[0]) == Ok(Some(shares[0]));
    assert PartShare(200000000, 180000011, parts[1]) == Ok(Some(shares[1]));
    SmallPair(110909091, 89090909);
    SmallPair(99818188, 80181823);
    assert PartAmounts(parts) == [110909091, 89090909];
    OnlyEurTotal(200000000, 180000011, parts, shares);
    PaymentEntry(200000000, 180000011, parts, 0);
    PaymentEntry(200000000, 180000011, parts, 1);
  }

  lemma {:induction false} RoundedToMultiples()
    ensures Double(110909091 * 180000011) == 99818188 * 200000000
    ensures Double(89090909 * 180000011) == 80181823 * 200000000
  {
    assert IsPower(4) by { assert IsPower(2); }
    assert IsPower(2);
    UnitIs(110909091 * 180000011, 4);
    UnitIs(89090909 * 180000011, 2);
    hide Unit;
  }

  lemma {:induction false} SmallPair(a: nat, b: nat)
    requires a + b <= MAX_SAFE
    ensures DoubleSum([a, b]) == a + b
  {
    DoubleSumIsSum([a, b]);
    SumOfPair(a, b);
    hide DoubleSum;
  }

  lemma {:induction false} SumOfPair(a: nat, b: nat)
    ensures Sum([a, b]) == a + b
  {
    assert [a, b][..1] == [a] && [a][..0] == [];
    assert Sum([a]) == Sum([]) + a;
  }

  /** A split whose entries are in order is accepted or refused for its EUR total. */
  lemma {:induction false} OnlyEurTotal(total: nat, totalEur: nat, parts: seq<Part>, shares: seq<nat>)
    requires IsPlain(total, parts) && |parts| == |shares| && DoubleSum(PartAmounts(parts)) == total
    requires forall i :: 0 <= i < |parts| ==> PartShare(total, totalEur, parts[i]) == Ok(Some(shares[i]))
    ensures var o := Payment(total, totalEur, parts);
            Readable(o) && |Items(o)| == |parts| && CentsOf(TotalEur(o).value) == Some(Reread(totalEur)) && Shares(o, |parts|) == shares
            && (if DoubleSum(shares) == Reread(totalEur) then Acceptable(o) else Refuses(o, EurSumMismatch))
  {
    hide Readable, PartShare, ShareAt, Payment, Reread, AllClear, DoubleSum, Amounts, Shares, Total, TotalEur, PartAmounts;
    hide Items, IsPlain, Acceptable, Refuses;
    PaymentIsClear(total, totalEur, parts);
    PaymentSums(total, totalEur, parts, shares);
    ByEurTotal(Payment(total, totalEur, parts));
  }

  lemma {:induction false} ByEurTotal(o: Options)
    requires Items(o) != [] && Readable(o) && AllClear(o, |Items(o)|) && TotalEur(o).value.Some? && |Shares(o, |Items(o)|)| == |Items(o)|
    requires Adds(o)
    ensures if DoubleSum(Shares(o, |Items(o)|)) == TotalEur(o).value.value.cents then Acceptable(o) else Refuses(o, EurSumMismatch)
  {
    hide AllClear, Readable, DoubleSum, Shares, TotalEur, Total, Amounts, Items;
  }

  // ---------------------------------------------------------------- EUR values beyond the safe range

  /** The request derives these shares, worth just the payment's EUR value together. */
  ghost predicate Derives(o: Options, shares: seq<nat>, totalEur: nat) {
    Readable(o) && CentsOf(TotalEur(o).value) == Some(totalEur) && |shares| == |Items(o)| && NoneStated(o)
    && Shares(o, |shares|) == shares && Sum(shares) == totalEur
  }

  /** Six cents worth 135107988821114.94 EUR, split into 1, 4 and 1: every share is exact and they total the payment's
      EUR value, but the rounded additions do not, and the split is refused. */
  lemma {:induction false} ExactTotalIsRefused()
    ensures var o := Payment(6, 13510798882111494, [Plain(1), Plain(4), Plain(1)]);
            Derives(o, [2251799813685249, 9007199254740996, 2251799813685249], 13510798882111494) && Refuses(o, EurSumMismatch)
  {
    hide *;
    var parts, shares := [Plain(1), Plain(4), Plain(1)], [2251799813685249, 9007199254740996, 2251799813685249];
    LargeShares();
    LargeSums();
    SixCents(parts);
    OnlyEurTotal(6, 13510798882111494, parts, shares);
    NothingStated(6, 13510798882111494, parts);
    DerivesThese(Payment(6, 13510798882111494, parts), shares, 13510798882111494);
  }

  lemma {:induction false} DerivesThese(o: Options, shares: seq<nat>, totalEur: nat)
    requires Readable(o) && CentsOf(TotalEur(o).value) == Some(totalEur) && |shares| == |Items(o)| && NoneStated(o)
    requires Shares(o, |shares|) == shares && Sum(shares) == totalEur
    ensures Derives(o, shares, totalEur)
  {
  }

  lemma {:induction false} NothingStated(total: nat, totalEur: nat, parts: seq<Part>)
    requires forall i :: 0 <= i < |parts| ==> parts[i].eur.None?
    ensures NoneStated(Payment(total, totalEur, parts))
  {
    hide Written;
    AbsentIsNone();
  }

  lemma {:induction false} SixCents(parts: seq<Part>)
    requires parts == [Plain(1), Plain(4), Plain(1)]
    ensures IsPlain(6, parts) && PartAmounts(parts) == [1, 4, 1] && forall i :: 0 <= i < |parts| ==> parts[i].eur.None?
  {
  }

  /** A derived share from the rounded product. */
  lemma {:induction false} DerivedPart(total: nat, totalEur: nat, amount: nat, share: nat)
    requires total > 0 && Reread(totalEur) == totalEur && Double(amount * totalEur) == share * total && Double(share) == share
    ensures PartShare(total, totalEur, Plain(amount)) == Ok(Some(share))
  {
    hide Double, Reread;
    QuotientIs(share * total, total, share, 0);
  }

  lemma {:induction false} LargeShares()
    ensures Reread(13510798882111494) == 13510798882111494
    ensures PartShare(6, 13510798882111494, Plain(1)) == Ok(Some(2251799813685249))
    ensures PartShare(6, 13510798882111494, Plain(4)) == Ok(Some(9007199254740996))
  {
    hide Double, Reread, PartShare;
    LargeDoubles();
    RereadExactly(13510798882111494);
    DerivedPart(6, 13510798882111494, 1, 2251799813685249);
    DerivedPart(6, 13510798882111494, 4, 9007199254740996);
  }

  lemma {:induction false} LargeDoubles()
    ensures Double(13510798882111494) == 13510798882111494 && Double(2251799813685249) == 2251799813685249
    ensures Double(9007199254740996) == 9007199254740996 && Double(54043195528445976) == 54043195528445976
  {
    hide Double, IsPower, Unit;
    TwoAndEight();
    UnitIs(13510798882111494, 2);
    UnitIs(9007199254740996, 2);
    UnitIs(54043195528445976, 8);
    DoubleExactly(13510798882111494);
    DoubleExactly(54043195528445976);
    DoubleExactly(9007199254740996);
    SmallIsExact(2251799813685249);
  }

  lemma {:induction false} TwoAndEight()
    ensures IsPower(2) && IsPower(8)
  {
    assert IsPower(4);
  }

  lemma {:induction false} SumsOfThree(a: nat, b: nat, c: nat)
    ensures Sum([a, b, c]) == a + b + c
    ensures DoubleSum([a, b, c]) == Double(DoubleSum([a, b]) + c)
    ensures DoubleSum([a, b]) == Double(Double(a) + b)
  {
    hide Double;
    SumOfPair(a, b);
    assert [a, b, c][..2] == [a, b] && [a, b][..1] == [a] && [a][..0] == [];
    assert DoubleSum([a]) == Double(DoubleSum([]) + a);
  }

  lemma {:induction false} LargeSums()
    ensures DoubleSum([1, 4, 1]) == 6
    ensures DoubleSum([2251799813685249, 9007199254740996, 2251799813685249]) == 13510798882111492
    ensures Sum([2251799813685249, 9007199254740996, 2251799813685249]) == 13510798882111494
  {
    hide IsPower, Unit, DoubleSum, Sum;
    SumsOfThree(1, 4, 1);
    DoubleSumIsSum([1, 4, 1]);
    SumsOfThree(2251799813685249, 9007199254740996, 2251799813685249);
    SmallIsExact(2251799813685249);
    TwoAndEight();
    UnitIs(11258999068426245, 2);
    UnitIs(13510798882111493, 2);
  }

  /** Two cents worth 90071992547409.92 EUR, split with stated EUR values of all of that and one cent more: the
      rounded additions lose the cent, and the split is accepted. */
  lemma {:induction false} CentTooMuchIsAccepted()
    ensures var o := Payment(2, 9007199254740992, [Stating(9007199254740992), Stating(1)]);
            Acceptable(o) && CentsOf(TotalEur(o).value) == Some(9007199254740992) && Shares(o, 2) == [9007199254740992, 1]
    ensures Sum([9007199254740992, 1]) == 9007199254740993
  {
    hide *;
    var parts, shares := [Stating(9007199254740992), Stating(1)], [9007199254740992, 1];
    TwoCents(parts);
    LostCent();
    RereadSafe(9007199254740992);
    OnlyEurTotal(2, 9007199254740992, parts, shares);
  }

  function Stating(eur: nat): Part {
    Part(1, Some(eur), None, None, false)
  }

  lemma {:induction false} TwoCents(parts: seq<Part>)
    requires parts == [Stating(9007199254740992), Stating(1)]
    ensures IsPlain(2, parts) && PartAmounts(parts) == [1, 1]
    ensures PartShare(2, 9007199254740992, parts[0]) == Ok(Some(9007199254740992))
    ensures PartShare(2, 9007199254740992, parts[1]) == Ok(Some(1))
  {
    hide Double, Reread;
    RereadSafe(9007199254740992);
    RereadSafe(1);
  }

  lemma {:induction false} LostCent()
    ensures DoubleSum([1, 1]) == 2 && DoubleSum([9007199254740992, 1]) == 9007199254740992
    ensures Sum([9007199254740992, 1]) == 9007199254740993
  {
    hide IsPower, Unit, DoubleSum, Sum;
    SmallPair(1, 1);
    SumOfPair(9007199254740992, 1);
    SumsOfThree(9007199254740992, 1, 0);
    SmallIsExact(9007199254740992);
    TwoAndEight();
    UnitIs(9007199254740993, 2);
  }

  // ---------------------------------------------------------------- saving again

  lemma {:induction false} WordsAreLawful()
    ensures Words().Lawful()
  {
    forall s: string ensures Trim(Trim(s)) == Trim(s) && Tight(Trim(s)) {
      TrimIsTight(s);
      TrimOfTight(Trim(s));
    }
  }

  /** An accepted split of one entry has a stored form. */
  lemma {:induction false} StoredForm(total: nat, totalEur: nat, part: Part, share: nat) returns (list: seq<Allocation>)
    requires IsPlain(total, [part]) && part.amount == total && PartShare(total, totalEur, part) == Ok(Some(share))
    requires Double(share) == share == Reread(totalEur)
    ensures var o := Payment(total, totalEur, [part]);
            IsStored(o, list) && |list| == 1 && Readable(o) && |Items(o)| == 1
            && Currency(o) == "USD" && CentsOf(TotalEur(o).value) == Some(share)
            && (part.vat.Some? ==> VatAt(o, 0) == Some(Reread(part.vat.value)))
            && list[0].vatCurrency == (if part.vat.Some? then Some(Trim(Or(part.vatCurrency, "USD"))) else None)
            && list[0].invoiceNumber == None && Items(o)[0].Item? && DocumentOf(o, Items(o)[0]).Some?
            && DocumentOf(o, Items(o)[0]).value.invoiceNumber == (if part.unnumbered then Some("7") else None)
            && Items(o)[0].vatAmount == AsText(part.vat)
            && list[0].vatAmount == (if part.vat.Some? then Some(CentsToFixed(Reread(part.vat.value))) else None)
  {
    hide Readable, PartShare, ShareAt, Payment, Reread, AllClear, DoubleSum, Amounts, Shares, Total, TotalEur, PartAmounts;
    hide Double, DocumentOf, ParseOptional, NormalizedItem, Currency, Acceptable;
    var parts := [part];
    var o := Payment(total, totalEur, parts);
    assert PartAmounts(parts) == [total];
    SmallIsExact(total);
    SumOfOne(total);
    SumOfOne(share);
    OnlyEurTotal(total, totalEur, parts, [share]);
    PaymentIsReadable(total, totalEur, parts);
    WordsAreLawful();
    PaymentDocument(total, totalEur, parts);
    EntryIsRead(o, 0, part);
    list := [NormalizedItem(o, 0)];
    StoredCurrency(total, totalEur, part);
  }

  lemma {:induction false} SumOfOne(a: nat)
    ensures DoubleSum([a]) == Double(a)
  {
    hide Double;
    assert [a][..0] == [];
    assert DoubleSum([a]) == Double(DoubleSum([]) + a);
  }

  lemma {:induction false} PaymentDocument(total: nat, totalEur: nat, parts: seq<Part>)
    requires IsPlain(total, parts)
    ensures var o := Payment(total, totalEur, parts);
            Items(o) == Entries(parts) && o.words == Words() && DocumentOf(o, Items(o)[0]) == Some(Invoice(parts, 0))
  {
    EntrySource(total, totalEur, parts, 0);
    hide DocumentOf;
  }

  lemma {:induction false} StoredCurrency(total: nat, totalEur: nat, part: Part)
    requires IsPlain(total, [part])
    ensures var o := Payment(total, totalEur, [part]);
            Readable(o) && |Items(o)| == 1 && DocumentOf(o, Items(o)[0]).Some? && ParseOptional(Items(o)[0].vatAmount).Ok?
            && NormalizedItem(o, 0).vatCurrency == (if part.vat.Some? then Some(Trim(Or(part.vatCurrency, "USD"))) else None)
            && NormalizedItem(o, 0).invoiceNumber == None && Items(o)[0].vatAmount == AsText(part.vat)
            && NormalizedItem(o, 0).vatAmount == (if part.vat.Some? then Some(CentsToFixed(Reread(part.vat.value))) else None)
  {
    hide Readable, ShareAt, AmountAt, Reread, Total, TotalEur, Currency, Trim, CentsToFixed, Written, ParseStrict, ParseOptional, DocumentOf;
    PaymentIsReadable(total, totalEur, [part]);
    PaymentDocument(total, totalEur, [part]);
    EntrySource(total, totalEur, [part], 0);
    EntryIsRead(Payment(total, totalEur, [part]), 0, part);
    if part.vat.Some? { OptionalOfWritten(part.vat.value); }
  }

  /** One dollar worth 0.00 EUR on one invoice is accepted and stored with a zero share, which is then refused. */
  lemma {:induction false} WorthlessIsNotSavedAgain() returns (o: Options, list: seq<Allocation>)
    ensures IsStored(o, list) && Readable(o) && WorthlessInEur(o) && !Unchanged(o, list)
  {
    hide *;
    var part := Part(100, None, None, None, false);
    OneDollar(0, part);
    o := Payment(100, 0, [part]);
    list := StoredForm(100, 0, part, 0);
    SavingAgain(o, list);
    IsWorthless(o);
  }

  lemma {:induction false} IsWorthless(o: Options)
    requires Readable(o) && Currency(o) == "USD" && CentsOf(TotalEur(o).value) == Some(0)
    ensures WorthlessInEur(o)
  {
    hide ParseOptional, ParseStrict, Currency;
  }

  lemma {:induction false} OneDollar(eur: nat, part: Part)
    requires part.amount == 100 && part.eur.None? && eur <= 100
    ensures IsPlain(100, [part]) && PartShare(100, eur, part) == Ok(Some(eur)) && Double(eur) == eur == Reread(eur)
  {
    hide Double, Reread;
    RereadSafe(eur);
    SmallIsExact(eur);
    SmallIsExact(100 * eur);
  }

  /** A VAT currency of white space is stored as an empty one, which the second validation replaces. */
  lemma {:induction false} BlankCurrencyIsNotSavedAgain() returns (o: Options, list: seq<Allocation>)
    ensures IsStored(o, list) && Currency(o) == "USD" && |list| == 1 && list[0].vatCurrency == Some("") && !Unchanged(o, list)
  {
    hide *;
    var part := Part(100, None, Some(19), Some(" "), false);
    OneDollar(100, part);
    o := Payment(100, 100, [part]);
    list := StoredForm(100, 100, part, 100);
    Blank();
    SavingAgain(o, list);
  }

  lemma {:induction false} Blank()
    ensures Trim(Or(Some(" "), "USD")) == ""
  {
    assert TrimStart(" ") == "";
  }

  /** A VAT amount of 376961377936967.10 is stored as 376961377936967.12, which reads back as yet another amount. */
  lemma {:induction false} DriftingVatIsNotSavedAgain() returns (o: Options, list: seq<Allocation>)
    ensures IsStored(o, list) && Readable(o) && |Items(o)| == 1 && VatAt(o, 0) == Some(37696137793696712) && !Unchanged(o, list)
    ensures Restored(37696137793696712) == Some(37696137793696720)
  {
    hide *;
    var part := Part(100, None, Some(37696137793696710), None, false);
    OneDollar(100, part);
    o := Payment(100, 100, [part]);
    list := StoredForm(100, 100, part, 100);
    Drift();
    DoesNotLast(o);
    SavingAgain(o, list);
  }

  lemma {:induction false} DoesNotLast(o: Options)
    requires Readable(o) && |Items(o)| == 1 && VatAt(o, 0).Some? && Restored(VatAt(o, 0).value) != VatAt(o, 0)
    ensures !Lasting(o)
  {
    hide Restored, VatAt, ShareAt, Readable, Items;
    assert !Reads(VatAt(o, 0));
  }

  lemma {:induction false} Drift()
    ensures Reread(37696137793696710) == 37696137793696712 && Restored(37696137793696712) == Some(37696137793696720)
  {
    hide Reread, Double, Fixed, Written, Told, IsPlain;
    DriftingSums();
    StepsAre(37696137793696710, 376961377936967, 10);
    StepsAre(37696137793696712, 376961377936967, 12);
    PrintsExactly(37696137793696712);
  }

  /** Reading in its rounded steps, for a whole part below 2^53. */
  lemma {:induction false} StepsAre(cents: nat, whole: nat, fraction: nat)
    requires cents == whole * 100 + fraction && fraction < 100 && whole <= 9007199254740992
    ensures Reread(cents) == Double(Double(whole * 100) + fraction)
  {
    hide Reread, Double;
    RereadSteps(cents);
    QuotientIs(cents, 100, whole, fraction);
    SmallIsExact(whole);
  }

  lemma {:induction false} DriftingSums()
    ensures Double(37696137793696700) == 37696137793696704 && Double(37696137793696714) == 37696137793696712
    ensures Double(37696137793696716) == 37696137793696720 && Double(37696137793696712) == 37696137793696712
  {
    hide Unit, IsPower;
    TwoAndEight();
    UnitIs(37696137793696700, 8);
    UnitIs(37696137793696714, 8);
    UnitIs(37696137793696716, 8);
    UnitIs(37696137793696712, 8);
  }

  /** A VAT amount of 564547864874734.96, which is read exactly, is stored as 564547864874735.96, a whole unit of
      currency more, and changes again the second time. */
  lemma {:induction false} VatIsStoredOneTooMuch() returns (o: Options, list: seq<Allocation>)
    ensures IsStored(o, list) && Readable(o) && |Items(o)| == 1 && |list| == 1 && !Unchanged(o, list)
    ensures Items(o)[0].Item? && Items(o)[0].vatAmount == Some(Written(56454786487473496)) && VatAt(o, 0) == Some(56454786487473496)
    ensures list[0].vatAmount == Some(Written(56454786487473596)) && Restored(56454786487473496) == Some(56454786487473600)
  {
    hide *;
    var part := Part(100, None, Some(56454786487473496), None, false);
    assert AsText(part.vat) == Some(Written(56454786487473496)) by { TextOf(part.vat); }
    OneDollar(100, part);
    o := Payment(100, 100, [part]);
    list := StoredForm(100, 100, part, 100);
    LargePrintIsOneTooMuch();
    OneTooMuch();
    DoesNotLast(o);
    SavingAgain(o, list);
  }

  lemma {:induction false} TextOf(cents: Option<nat>)
    ensures AsText(cents) == if cents.Some? then Some(Written(cents.value)) else None
  {
  }

  lemma {:induction false} OneTooMuch()
    ensures Restored(56454786487473496) == Some(56454786487473600)
  {
    hide Reread, Double, FloorHundredth, IsPlain, Told;
    RoundsUp();
    PlainHere(56454786487473496, 564547864874735);
    StepsAre(56454786487473596, 564547864874735, 96);
    LargeSteps();
  }

  lemma {:induction false} LargeSteps()
    ensures Double(56454786487473500) == 56454786487473504 && Double(56454786487473600) == 56454786487473600
  {
    hide Unit, IsPower;
    TwoAndEight();
    UnitIs(56454786487473500, 8);
    UnitIs(56454786487473600, 8);
  }

  /** An entry that states an empty invoice number for a document that has one is stored without a number, and given
      the document's the second time. */
  lemma {:induction false} UnnumberedIsNotSavedAgain() returns (o: Options, list: seq<Allocation>)
    ensures IsStored(o, list) && |list| == 1 && list[0].invoiceNumber == None && !NoFallbacks(o, list) && !Unchanged(o, list)
  {
    hide *;
    var part := Part(100, None, None, None, true);
    OneDollar(100, part);
    o := Payment(100, 100, [part]);
    list := StoredForm(100, 100, part, 100);
    FallsBack(o, list);
    SavingAgain(o, list);
  }

  lemma {:induction false} FallsBack(o: Options, list: seq<Allocation>)
    requires |list| == 1 && |Items(o)| == 1 && list[0].invoiceNumber.None? && Items(o)[0].Item?
    requires DocumentOf(o, Items(o)[0]).Some? && DocumentOf(o, Items(o)[0]).value.invoiceNumber == Some("7")
    ensures !NoFallbacks(o, list)
  {
    hide DocumentOf;
    TrimOfTight("7");
    assert !NoFallback(o, 0);
  }
}
