// Amounts of money as text and as whole cents (backend/src/bookkeepingAllocations.ts).
module Cents {
  import opened Decimal
  import opened Doubles
  import opened Text
  import opened Wrappers

  datatype Rejection = Missing | Negative | Ambiguous | Malformed | NotPositive

  datatype Parsed = Parsed(cents: nat, formatted: string)

  // ---------------------------------------------------------------- printing

  /** The plain text that says a number of cents. */
  function Written(cents: nat): string {
    Print(cents / 100) + "." + PadStart(Print(cents % 100), 2)
  }

  function Tens(k: nat): (t: nat)
    ensures t >= 1
  {
    if k == 0 then 1 else 10 * Tens(k - 1)
  }

  /** The multiple of t next to w that reads as the double w, the closer of two. */
  function Candidate(w: nat, t: nat): (c: Option<nat>)
    requires t >= 1
    ensures c.Some? ==> Double(c.value) == w
  {
    var low := w / t * t;
    if Double(low) == w && (Double(low + t) != w || 2 * (w - low) <= t) then Some(low)
    else if Double(low + t) == w then Some(low + t)
    else None
  }

  /** A number of few significant digits that reads as the double w: see Number::toString in section 6.1.6.1.20 of
      ECMA-262. */
  function ShortestFrom(w: nat, k: nat): nat {
    if k == 0 then w
    else if Candidate(w, Tens(k)).Some? then Candidate(w, Tens(k)).value
    else ShortestFrom(w, k - 1)
  }

  /** Up to 2^53 a whole double has no shorter digits than its own. */
  function Shortest(w: nat): (s: nat)
    ensures w <= 9007199254740992 ==> s == w
  {
    if w <= 9007199254740992 then w else ShortestFrom(w, |Print(w)|)
  }

  function WithoutZeros(digits: string): (s: string)
    ensures s <= digits && (digits != [] ==> s != [])
  {
    if |digits| > 1 && digits[|digits| - 1] == '0' then WithoutZeros(digits[..|digits| - 1]) else digits
  }

  const EXPONENT_FROM := 1_000_000_000_000_000_000_000

  function Exponential(digits: string): string
    requires digits != []
  {
    var s := WithoutZeros(digits);
    s[..1] + (if |s| > 1 then "." + s[1..] else "") + "e+" + Print(|digits| - 1)
  }

  /** `String(w)` for a whole double. */
  function NumberText(w: nat): string {
    var digits := Print(Shortest(w));
    if Shortest(w) < EXPONENT_FROM then digits else Exponential(digits)
  }

  /** `centsToFixed` for a whole number of cents that is a double: the quotient by a hundred is one too. */
  function CentsToFixed(cents: int): string {
    if cents < 0 then "-" + Fixed(-cents) else Fixed(cents)
  }

  function Fixed(cents: nat): string {
    NumberText(FloorHundredth(cents)) + "." + PadStart(Print(cents % 100), 2)
  }

  /** The print has no exponent. */
  predicate IsPlain(cents: nat) {
    Shortest(FloorHundredth(cents)) < EXPONENT_FROM
  }

  /** The cents that the print says. */
  function Told(cents: nat): nat {
    100 * Shortest(FloorHundredth(cents)) + cents % 100
  }

  // ---------------------------------------------------------------- parsing

  /** The position of the first point, or the length. */
  function Point(s: string): (p: nat)
    ensures p <= |s| && '.' !in s[..p] && (p < |s| ==> s[p] == '.')
  {
    if s == [] || s[0] == '.' then 0 else 1 + Point(s[1..])
  }

  function Whole(s: string): string {
    s[..Point(s)]
  }

  function Fraction(s: string): string {
    if Point(s) < |s| then s[Point(s) + 1..] else ""
  }

  /** One or more digits, then optionally a point and one or two digits. */
  predicate TwoDecimals(s: string) {
    Whole(s) != [] && AllDigits(Whole(s)) && AllDigits(Fraction(s))
    && (Point(s) == |s| || 1 <= |Fraction(s)| <= 2)
  }

  predicate MoreDecimals(s: string) {
    Whole(s) != [] && AllDigits(Whole(s)) && AllDigits(Fraction(s)) && |Fraction(s)| >= 3
  }

  predicate HasExponent(s: string) {
    'e' in s || 'E' in s
  }

  function TwoDigits(fraction: string): (r: string)
    requires AllDigits(fraction)
    ensures AllDigits(r) && |r| == 2
  {
    (fraction + "00")[..2]
  }

  /** The cents a two-decimal text says. */
  function Said(s: string): nat
    requires TwoDecimals(s)
  {
    Value(Whole(s)) * 100 + Value(TwoDigits(Fraction(s)))
  }

  /** The cents the source works out, each operation rounded to a double. */
  function Computed(s: string): nat
    requires TwoDecimals(s)
  {
    Double(Double(Double(Value(Whole(s))) * 100) + Value(TwoDigits(Fraction(s))))
  }

  function ParseStrict(raw: string): Result<Parsed, Rejection> {
    var trimmed := Trim(raw);
    if trimmed == [] then Err(Missing)
    else if trimmed[0] == '-' then Err(Negative)
    else if HasExponent(trimmed) || MoreDecimals(trimmed) then Err(Ambiguous)
    else if !TwoDecimals(trimmed) then Err(Malformed)
    else
      var cents := Computed(trimmed);
      if cents > MAX_SAFE || cents <= 0 then Err(NotPositive) else Ok(Parsed(cents, CentsToFixed(cents)))
  }

  /** The optional parser has no bound: it keeps whatever the double arithmetic gives. */
  function ParseOptional(raw: Option<string>): Result<Option<Parsed>, Rejection> {
    if raw.None? || Trim(raw.value) == [] then Ok(None)
    else
      var trimmed := Trim(raw.value);
      if trimmed[0] == '-' then Err(Negative)
      else if HasExponent(trimmed) || MoreDecimals(trimmed) then Err(Ambiguous)
      else if !TwoDecimals(trimmed) then Err(Malformed)
      else Ok(Some(Parsed(Computed(trimmed), CentsToFixed(Computed(trimmed)))))
  }

  // ---------------------------------------------------------------- doubles do no harm below the bound

  /** Despite the rounding, the computed cents are safe exactly when the cents said are, and then equal them. */
  lemma {:induction false} ComputedIsSaid(s: string)
    requires TwoDecimals(s)
    ensures Computed(s) <= MAX_SAFE <==> Said(s) <= MAX_SAFE
    ensures Said(s) <= MAX_SAFE ==> Computed(s) == Said(s)
  {
    hide Double, Value, Whole, Fraction;
    var whole, fraction := Value(Whole(s)), Value(TwoDigits(Fraction(s)));
    SafeExactly(whole);
    SafeExactly(Double(whole) * 100);
    SafeExactly(Double(Double(whole) * 100) + fraction);
  }

  /** Below 2^55 only the last addition can round, since every multiple of a hundred is a double: the computed
      cents are the double nearest to the cents said, and are those exactly when they are a multiple of the
      distance between doubles there. At any size, only a double can come out right. */
  lemma {:induction false} ComputedExactly(s: string)
    requires TwoDecimals(s)
    ensures Said(s) < 0x80_0000_0000_0000 ==> Computed(s) == Double(Said(s))
    ensures Said(s) < 0x80_0000_0000_0000 ==> (Computed(s) == Said(s) <==> Said(s) % Unit(Said(s)) == 0)
    ensures Computed(s) == Said(s) ==> Said(s) % Unit(Said(s)) == 0
    ensures Double(Computed(s)) == Computed(s)
  {
    hide Double, Value, Whole, Fraction, Unit;
    var whole, fraction := Value(Whole(s)), Value(TwoDigits(Fraction(s)));
    DoubleIsADouble(Double(Double(whole) * 100) + fraction);
    DoubleExactly(Said(s));
    if Said(s) < 0x80_0000_0000_0000 {
      SmallIsExact(whole);
      HundredsAreExact(whole);
    }
  }

  lemma {:induction false} HundredsAreExact(whole: nat)
    requires whole * 100 < 0x80_0000_0000_0000
    ensures Double(whole * 100) == whole * 100
  {
    hide Unit, Double;
    var n := whole * 100;
    UnitBelow(n);
    DoubleExactly(n);
    assert n % 4 == 0 && n % 2 == 0;
  }

  // ---------------------------------------------------------------- printing and parsing

  lemma {:induction false} PointOfConcat(whole: string, rest: string)
    requires '.' !in whole
    ensures Point(whole + "." + rest) == |whole|
  {
    if whole == [] {
      assert whole + "." + rest == "." + rest;
    } else {
      assert (whole + "." + rest)[1..] == whole[1..] + "." + rest;
      PointOfConcat(whole[1..], rest);
    }
  }

  lemma {:induction false} WrittenParts(cents: nat)
    ensures Whole(Written(cents)) == Print(cents / 100)
    ensures Fraction(Written(cents)) == PadStart(Print(cents % 100), 2)
    ensures AllDigits(PadStart(Print(cents % 100), 2)) && |PadStart(Print(cents % 100), 2)| == 2
    ensures TwoDecimals(Written(cents))
  {
    var whole, fraction := Print(cents / 100), PadStart(Print(cents % 100), 2);
    assert '.' !in whole;
    PointOfConcat(whole, fraction);
    ValueOfPadded(cents % 100, 2);
    TwoDigitPrint(cents % 100);
    assert Written(cents)[..|whole|] == whole;
    assert Written(cents)[|whole| + 1..] == fraction;
  }

  lemma {:induction false} TwoDigitPrint(n: nat)
    requires n < 100
    ensures 1 <= |Print(n)| <= 2
  {
    if n >= 10 { assert |Print(n / 10)| == 1; }
  }

  /** The printed text says the number of cents it was printed from. */
  lemma {:induction false} SaidOfWritten(cents: nat)
    ensures TwoDecimals(Written(cents)) && Said(Written(cents)) == cents
  {
    WrittenParts(cents);
    var fraction := PadStart(Print(cents % 100), 2);
    assert (fraction + "00")[..2] == fraction;
    ValueOfPadded(cents % 100, 2);
    ValueOfPrint(cents / 100);
  }

  /** Printed text starts with a digit, ends with one, and has no exponent. */
  lemma {:induction false} WrittenIsPlain(cents: nat)
    ensures Written(cents) != [] && Tight(Written(cents)) && Written(cents)[0] != '-'
    ensures !HasExponent(Written(cents)) && !MoreDecimals(Written(cents))
  {
    WrittenParts(cents);
    var whole, fraction := Print(cents / 100), PadStart(Print(cents % 100), 2);
    assert Written(cents)[0] == whole[0] && IsDigit(whole[0]);
    assert Written(cents)[|Written(cents)| - 1] == fraction[1] && IsDigit(fraction[1]);
    forall c | c in Written(cents) ensures IsDigit(c) || c == '.' {}
  }

  /** A print without exponent is the plain text of some number of cents. */
  lemma {:induction false} FixedIsWritten(cents: nat)
    requires IsPlain(cents)
    ensures Fixed(cents) == Written(Told(cents))
  {
    hide FloorHundredth, Shortest, Print, PadStart;
    QuotientIs(Told(cents), 100, Shortest(FloorHundredth(cents)), cents % 100);
  }

  /** Below 100 * 2^49 a double is printed exactly. */
  lemma {:induction false} PrintsExactly(cents: nat)
    requires Double(cents) == cents && cents < 0xC8_0000_0000_0000
    ensures IsPlain(cents) && Told(cents) == cents && Fixed(cents) == Written(cents)
  {
    hide FloorHundredth, Double, Fixed, Written;
    HundredthIsExact(cents);
    FixedIsWritten(cents);
  }

  /** Below 100 * 2^53 the print is right exactly when the quotient by a hundred does not round up. */
  lemma {:induction false} PrintsRightExactly(cents: nat)
    requires cents < COARSE
    ensures CentsToFixed(cents) == Written(cents) <==> RoundsDown(cents)
  {
    hide FloorHundredth, Fixed, Written, Print, PadStart, RoundsDown, Said, TwoDecimals;
    HundredthIsNear(cents);
    HundredthExactly(cents);
    PlainHere(cents, FloorHundredth(cents));
    FixedIsWritten(cents);
    SaidOfWritten(cents);
    SaidOfWritten(Told(cents));
  }

  lemma {:induction false} ZerosLeave(digits: string)
    requires digits != [] && AllDigits(digits)
    ensures WithoutZeros(digits) != [] && AllDigits(WithoutZeros(digits))
  {
    if |digits| > 1 && digits[|digits| - 1] == '0' { ZerosLeave(digits[..|digits| - 1]); }
  }

  /** Every print starts and ends with a digit; one with an exponent is not plain. */
  lemma {:induction false} FixedShape(cents: nat)
    ensures Fixed(cents) != [] && Tight(Fixed(cents)) && Fixed(cents)[0] != '-'
    ensures !IsPlain(cents) ==> HasExponent(Fixed(cents))
  {
    hide FloorHundredth, Shortest, Print, PadStart;
    var w := FloorHundredth(cents);
    var fraction := PadStart(Print(cents % 100), 2);
    ValueOfPadded(cents % 100, 2);
    TwoDigitPrint(cents % 100);
    NumberTextShape(w);
    var text := NumberText(w);
    Shaped(text, fraction);
  }

  lemma {:induction false} NumberTextShape(w: nat)
    ensures NumberText(w) != [] && IsDigit(NumberText(w)[0])
    ensures Shortest(w) >= EXPONENT_FROM ==> 'e' in NumberText(w)
  {
    hide Shortest, Print, Exponential;
    ExponentialShape(Print(Shortest(w)));
  }

  lemma {:induction false} ExponentialShape(digits: string)
    requires digits != [] && AllDigits(digits)
    ensures Exponential(digits) != [] && IsDigit(Exponential(digits)[0]) && 'e' in Exponential(digits)
  {
    hide Print, WithoutZeros;
    ZerosLeave(digits);
    var s := WithoutZeros(digits);
    var start := s[..1] + (if |s| > 1 then "." + s[1..] else "");
    assert Exponential(digits) == start + "e+" + Print(|digits| - 1);
    assert Exponential(digits)[|start|] == 'e' && Exponential(digits)[0] == s[0];
  }

  lemma {:induction false} Shaped(text: string, fraction: string)
    requires text != [] && IsDigit(text[0]) && fraction != [] && AllDigits(fraction)
    ensures var all := text + "." + fraction;
            all != [] && Tight(all) && all[0] != '-' && ('e' in text ==> HasExponent(all))
  {
    var all := text + "." + fraction;
    assert all[0] == text[0] && all[|all| - 1] == fraction[|fraction| - 1];
    if 'e' in text {
      var i :| 0 <= i < |text| && text[i] == 'e';
      assert all[i] == 'e';
    }
  }

  /** Writing cents and parsing the text gives the cents back, for every positive safe integer and whatever white
      space surrounds the text. */
  lemma {:induction false} ParseOfPrinted(cents: nat, before: string, after: string)
    requires AllSpace(before) && AllSpace(after)
    requires 0 < cents <= MAX_SAFE
    ensures CentsToFixed(cents) == Written(cents)
    ensures ParseStrict(before + CentsToFixed(cents) + after) == Ok(Parsed(cents, CentsToFixed(cents)))
  {
    hide Fixed, Written, Computed, TwoDecimals, MoreDecimals, HasExponent, Double, Trim;
    SmallIsExact(cents);
    PrintsExactly(cents);
    WrittenIsPlain(cents);
    SaidOfWritten(cents);
    ComputedIsSaid(Written(cents));
    TrimOfPadded(before, Written(cents), after);
  }

  lemma {:induction false} ParseOfFixed(cents: nat)
    requires 0 < cents <= MAX_SAFE
    ensures CentsToFixed(cents) == Written(cents)
    ensures ParseStrict(CentsToFixed(cents)) == Ok(Parsed(cents, CentsToFixed(cents)))
  {
    hide ParseStrict, CentsToFixed, Written;
    ParseOfPrinted(cents, "", "");
    assert "" + CentsToFixed(cents) + "" == CentsToFixed(cents);
  }

  /** Zero and every negative amount are refused. */
  lemma {:induction false} NotPositiveIsRefused(cents: int)
    requires cents <= 0
    ensures ParseStrict(CentsToFixed(cents)) == Err(if cents < 0 then Negative else NotPositive)
  {
    hide Fixed, ParseStrict;
    if cents < 0 { SignedIsRefused(Fixed(-cents), -cents); } else { ZeroIsRefused(); }
  }

  lemma {:induction false} SignedIsRefused(text: string, cents: nat)
    requires text == Fixed(cents)
    ensures ParseStrict("-" + text) == Err(Negative)
  {
    FixedShape(cents);
    hide Fixed, Computed, TwoDecimals, MoreDecimals, HasExponent;
    assert ("-" + text)[|"-" + text| - 1] == text[|text| - 1];
    assert Tight("-" + text);
    TrimOfTight("-" + text);
  }

  lemma {:induction false} ZeroIsRefused()
    ensures ParseStrict(Fixed(0)) == Err(NotPositive)
  {
    hide Fixed, Written, Computed, TwoDecimals, MoreDecimals, HasExponent, Trim, Said, Double;
    SmallIsExact(0);
    PrintsExactly(0);
    WrittenIsPlain(0);
    SaidOfWritten(0);
    ComputedIsSaid(Written(0));
    TrimOfTight(Written(0));
  }

  /** A text is accepted exactly when, trimmed, it is a plain amount with at most two decimals that says
      a positive safe number of cents; and then that number is the result. */
  lemma {:induction false} AcceptedExactly(raw: string)
    ensures ParseStrict(raw).Ok? <==> TwoDecimals(Trim(raw)) && 0 < Said(Trim(raw)) <= MAX_SAFE
    ensures ParseStrict(raw).Ok? ==>
              ParseStrict(raw).value == Parsed(Said(Trim(raw)), CentsToFixed(Said(Trim(raw))))
  {
    var s := Trim(raw);
    if TwoDecimals(s) {
      PlainWhenTwoDecimals(s);
      ComputedIsSaid(s);
    }
  }

  lemma {:induction false} PlainWhenTwoDecimals(s: string)
    requires TwoDecimals(s)
    ensures s != [] && s[0] != '-' && !HasExponent(s) && !MoreDecimals(s)
  {
    var p := Point(s);
    assert s[0] == Whole(s)[0] && IsDigit(s[0]);
    forall i | 0 <= i < |s| ensures IsDigit(s[i]) || s[i] == '.' {
      if i < p { assert s[i] == Whole(s)[i]; }
      if i > p { assert s[i] == Fraction(s)[i - p - 1]; }
    }
  }

  /** Every accepted text has a canonical form, which is accepted unchanged. */
  lemma {:induction false} CanonicalReparses(raw: string)
    requires ParseStrict(raw).Ok?
    ensures ParseStrict(ParseStrict(raw).value.formatted) == ParseStrict(raw)
  {
    AcceptedExactly(raw);
    ParseOfFixed(ParseStrict(raw).value.cents);
  }

  /** Different doubles print differently, however the print of a large one is rounded, unless both have exponents. */
  lemma {:induction false} PrintedDiffers(a: nat, b: nat)
    requires Double(a) == a && Double(b) == b && IsPlain(a) && CentsToFixed(a) == CentsToFixed(b)
    ensures a == b
  {
    hide Fixed, Written, FloorHundredth, Shortest, Double, Said, TwoDecimals, HasExponent;
    FixedIsWritten(a);
    WrittenIsPlain(Told(a));
    FixedShape(b);
    FixedIsWritten(b);
    SaidOfWritten(Told(a));
    SaidOfWritten(Told(b));
    ToldTellsApart(a, b);
  }

  lemma {:induction false} ToldTellsApart(a: nat, b: nat)
    requires Double(a) == a && Double(b) == b && Told(a) == Told(b)
    ensures a == b
  {
    hide FloorHundredth, Shortest, Double;
    HundredthIsNear(a);
    HundredthIsNear(b);
    var v, w := Shortest(FloorHundredth(a)), Shortest(FloorHundredth(b));
    QuotientIs(Told(a), 100, v, a % 100);
    QuotientIs(Told(b), 100, w, b % 100);
    assert FloorHundredth(a) == Double(v) && FloorHundredth(b) == Double(w) by { ShortestReads(FloorHundredth(a)); ShortestReads(FloorHundredth(b)); }
    HundredthTellsApart(a, b);
  }

  lemma {:induction false} ShortestReads(w: nat)
    requires Double(w) == w
    ensures Double(Shortest(w)) == w
  {
    hide Double;
    if w > 9007199254740992 { ShortestFromReads(w, |Print(w)|); }
  }

  lemma {:induction false} ShortestFromReads(w: nat, k: nat)
    requires Double(w) == w
    ensures Double(ShortestFrom(w, k)) == w
  {
    hide Double, Tens;
    if k > 0 && Candidate(w, Tens(k)).None? { ShortestFromReads(w, k - 1); }
  }

  // ---------------------------------------------------------------- the optional parser

  /** The optional parser accepts the same plain amounts, zero included; blank text and an absent value
      are no amount. It has no bound: below 2^55 it gives the double nearest to the cents said, so the right
      cents exactly when they are a double, as all safe ones are. */
  lemma {:induction false} OptionalAcceptsExactly(raw: Option<string>)
    ensures ParseOptional(raw).Ok? && ParseOptional(raw).value.Some? <==> raw.Some? && TwoDecimals(Trim(raw.value))
    ensures ParseOptional(raw) == Ok(None) <==> raw.None? || Trim(raw.value) == []
    ensures raw.Some? && TwoDecimals(Trim(raw.value)) && Said(Trim(raw.value)) <= MAX_SAFE ==>
              ParseOptional(raw) == Ok(Some(Parsed(Said(Trim(raw.value)), CentsToFixed(Said(Trim(raw.value))))))
    ensures raw.Some? && TwoDecimals(Trim(raw.value)) && Said(Trim(raw.value)) < 0x80_0000_0000_0000 ==>
              var said := Said(Trim(raw.value));
              ParseOptional(raw).value == Some(Parsed(Double(said), CentsToFixed(Double(said))))
              && (Double(said) == said <==> said % Unit(said) == 0)
    ensures raw.Some? && TwoDecimals(Trim(raw.value)) && ParseOptional(raw).value.value.cents == Said(Trim(raw.value)) ==>
              Said(Trim(raw.value)) % Unit(Said(Trim(raw.value))) == 0
  {
    hide TwoDecimals, MoreDecimals, HasExponent, Computed, Said, Double, Unit, CentsToFixed, Trim;
    if raw.Some? {
      if TwoDecimals(Trim(raw.value)) {
        PlainWhenTwoDecimals(Trim(raw.value));
        ComputedIsSaid(Trim(raw.value));
        ComputedExactly(Trim(raw.value));
        DoubleExactly(Said(Trim(raw.value)));
      }
    }
  }

  /** What reading the plain text of an amount gives. */
  function Reread(cents: nat): nat {
    SaidOfWritten(cents);
    Computed(Written(cents))
  }

  lemma {:induction false} OptionalOfWritten(cents: nat)
    ensures ParseOptional(Some(Written(cents))) == Ok(Some(Parsed(Reread(cents), CentsToFixed(Reread(cents)))))
  {
    WrittenIsPlain(cents);
    SaidOfWritten(cents);
    TrimOfTight(Written(cents));
    hide Written, Computed, TwoDecimals, MoreDecimals, HasExponent, Trim, CentsToFixed;
  }

  /** What printing an amount and reading it again gives: nothing when the print has an exponent. */
  function Restored(cents: nat): Option<nat> {
    if IsPlain(cents) then Some(Reread(Told(cents))) else None
  }

  lemma {:induction false} OptionalOfPrinted(cents: nat)
    ensures ParseOptional(Some(CentsToFixed(cents))) ==
              if Restored(cents).Some? then Ok(Some(Parsed(Restored(cents).value, CentsToFixed(Restored(cents).value))))
              else Err(Ambiguous)
  {
    hide Fixed, Written, Computed, TwoDecimals, MoreDecimals, HasExponent, Trim, Reread, Told;
    if IsPlain(cents) {
      hide ParseOptional, IsPlain;
      FixedIsWritten(cents);
      OptionalOfWritten(Told(cents));
    } else {
      hide IsPlain;
      FixedShape(cents);
      TrimOfTight(Fixed(cents));
    }
  }

  /** Every amount below 2^55 reads as the double nearest to it, and every double there as itself, printed or
      written. */
  lemma {:induction false} RereadExactly(cents: nat)
    requires cents < 0x80_0000_0000_0000
    ensures Reread(cents) == Double(cents)
    ensures Double(cents) == cents ==> Restored(cents) == Some(cents)
  {
    hide Written, Computed, TwoDecimals, Said, Double, Unit, IsPlain, Told;
    SaidOfWritten(cents);
    ComputedExactly(Written(cents));
    if Double(cents) == cents { PrintsExactly(cents); }
  }

  lemma {:induction false} RestoredIsADouble(cents: nat)
    ensures Restored(cents).Some? ==> Double(Restored(cents).value) == Restored(cents).value
  {
    hide Written, Computed, TwoDecimals, Said, Double, Unit, IsPlain, Told;
    if Restored(cents).Some? {
      SaidOfWritten(Told(cents));
      ComputedExactly(Written(Told(cents)));
    }
  }

  /** Beyond the safe range the optional parser silently changes the amount: 90071992547409.93 loses a cent. The
      strict parser refuses the same text. */
  lemma {:induction false} OptionalParserLosesACent()
    ensures ParseOptional(Some(Written(9007199254740993))) ==
              Ok(Some(Parsed(9007199254740992, Written(9007199254740992))))
    ensures ParseStrict(Written(9007199254740993)) == Err(NotPositive)
  {
    hide Written, Computed, TwoDecimals, MoreDecimals, HasExponent, Trim, Double, Fixed;
    var cents := 9007199254740993;
    OptionalOfWritten(cents);
    LostCent();
    SmallIsExact(9007199254740992);
    PrintsExactly(9007199254740992);
    WrittenIsPlain(cents);
    SaidOfWritten(cents);
    TrimOfTight(Written(cents));
  }

  lemma {:induction false} LostCent()
    ensures Reread(9007199254740993) == 9007199254740992
  {
    hide Double, Reread, Restored;
    RereadExactly(9007199254740993);
    BetweenTwoDoubles();
  }

  lemma {:induction false} BetweenTwoDoubles()
    ensures Double(9007199254740993) == 9007199254740992
  {
    hide Unit;
    assert IsPower(2);
    UnitIs(9007199254740993, 2);
  }

  lemma {:induction false} PartsCompute(text: string, whole: nat, fraction: nat)
    requires TwoDecimals(text) && Whole(text) == Print(whole) && fraction < 100 && Fraction(text) == PadStart(Print(fraction), 2)
    ensures Computed(text) == Double(Double(Double(whole) * 100) + fraction)
  {
    ValueOfPrint(whole);
    ValueOfPadded(fraction, 2);
    TwoDigitPrint(fraction);
    hide TwoDecimals, Print, PadStart, Double;
    assert (PadStart(Print(fraction), 2) + "00")[..2] == PadStart(Print(fraction), 2);
  }

  /** Reading in its rounded steps. */
  lemma {:induction false} RereadSteps(cents: nat)
    ensures Reread(cents) == Double(Double(Double(cents / 100) * 100) + cents % 100)
  {
    hide TwoDecimals, Written, Double, Computed, Whole, Fraction;
    SaidOfWritten(cents);
    WrittenParts(cents);
    PartsCompute(Written(cents), cents / 100, cents % 100);
  }

  /** From 2^55 on the product by a hundred is rounded as well, and even an amount that is a double may be
      changed: 360287970189641.04 becomes 360287970189640.96. */
  lemma {:induction false} LargerDoubleIsChanged()
    ensures Double(36028797018964104) == 36028797018964104
    ensures ParseOptional(Some(Written(36028797018964104))) ==
              Ok(Some(Parsed(36028797018964096, Written(36028797018964096))))
  {
    hide Fixed, Written, Computed, TwoDecimals, Double, Print, PadStart, Reread;
    RoundedTwice();
    OptionalOfWritten(36028797018964104);
    RereadSteps(36028797018964104);
    PrintsExactly(36028797018964096);
  }

  lemma {:induction false} RoundedTwice()
    ensures Double(36028797018964104) == 36028797018964104 && Double(36028797018964096) == 36028797018964096
    ensures Double(Double(Double(360287970189641) * 100) + 4) == 36028797018964096
  {
    SmallIsExact(360287970189641);
    assert IsPower(8) by { assert IsPower(2) && IsPower(4); }
    UnitIs(36028797018964104, 8);
    UnitIs(36028797018964096, 8);
    UnitIs(36028797018964100, 8);
    hide Unit;
  }

  /** From 100 * 2^49 on the quotient by a hundred may round up to the next whole number, and the print is a unit of
      currency too much: 564547864874734.96 is printed as 564547864874735.96. */
  lemma {:induction false} LargePrintIsOneTooMuch()
    ensures Double(56454786487473496) == 56454786487473496 && Reread(56454786487473496) == 56454786487473496
    ensures CentsToFixed(56454786487473496) == Written(56454786487473596)
  {
    hide Fixed, Written, Double, Reread, FloorHundredth, IsPlain;
    ReadsAsItself();
    RoundsUp();
    assert IsPlain(56454786487473496) && Told(56454786487473496) == 56454786487473596 by { PlainHere(56454786487473496, 564547864874735); }
    FixedIsWritten(56454786487473496);
  }

  lemma {:induction false} PlainHere(cents: nat, w: nat)
    requires FloorHundredth(cents) == w && w <= 9007199254740992
    ensures IsPlain(cents) && Told(cents) == 100 * w + cents % 100
  {
    hide FloorHundredth;
  }

  lemma {:induction false} ReadsAsItself()
    ensures Double(56454786487473496) == 56454786487473496 && Reread(56454786487473496) == 56454786487473496
  {
    hide Reread;
    RereadSteps(56454786487473496);
    SmallIsExact(564547864874734);
    assert IsPower(8) by { assert IsPower(2) && IsPower(4); }
    UnitIs(56454786487473496, 8);
    UnitIs(56454786487473400, 8);
    hide Unit;
  }

  lemma {:induction false} RoundsUp()
    ensures FloorHundredth(56454786487473496) == 564547864874735
  {
    assert IsPower(1) && IsPower(2) && IsPower(4) && IsPower(8);
    ScaleIs(56454786487473496, 1);
    ScaleIs(56454786487473496, 2);
    ScaleIs(56454786487473496, 4);
    ScaleIs(56454786487473496, 8);
    hide Scale;
  }

  lemma {:induction false} ScaleIs(n: nat, p: nat)
    requires n > 0 && IsPower(p) && IsPower(2 * p)
    ensures Scale(n, p) == if n * p >= FINE then p else Scale(n, 2 * p)
  {
  }
}
