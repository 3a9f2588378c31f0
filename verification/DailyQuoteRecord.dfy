/** Daily quote records: decimals kept as canonical text, checked and compared by value. */
module DailyQuoteRecord {
  import opened Json
  import opened Decimal
  import opened JsonNumber
  import opened QuoteDecimal

  datatype Quote = Quote(
    id: string, stockId: string, date: string, open: Option<string>, high: Option<string>, low: Option<string>,
    close: string, volume: string, turnover: Option<string>, changePct: Option<string>, status: string)

  const OBSERVED := "observed"
  const PLACEHOLDER := "placeholder"

  // ---- values of decimal texts ----

  function ValueOf(text: string): Scaled
    requires QuotePattern(text)
  {
    LiteralRead(text);
    Meaning(ReadLiteral(text))
  }

  const ZERO := Scaled(0, 0)

  /** What `CanonicalQuoteDecimal` answers. */
  ghost function CanonicalOf(text: string, precision: nat, scale: nat): Option<string> {
    if QuotePattern(text) && Fits(ValueOf(text), precision, scale) then Some(Render(CanonicalLiteral(ReadLiteral(text)))) else None
  }

  method Canonicalize(text: string, precision: nat, scale: nat) returns (canonical: Option<string>)
    requires scale <= precision
    ensures canonical == CanonicalOf(text, precision, scale)
  {
    canonical := CanonicalQuoteDecimal(text, precision, scale);
    if QuotePattern(text) { LiteralRead(text); }
    hide QuotePattern, ReadLiteral, Fits, Render, CanonicalLiteral, Plain;
  }

  /** A canonical text matches the pattern, has the same value and is its own canonical text. */
  lemma CanonicalText(text: string, precision: nat, scale: nat)
    requires CanonicalOf(text, precision, scale).Some?
    ensures var c := CanonicalOf(text, precision, scale).value;
            QuotePattern(c) && SameRational(ValueOf(text), ValueOf(c)) && CanonicalLiteral(ReadLiteral(c)) == ReadLiteral(c)
  {
    LiteralRead(text);
    var l := ReadLiteral(text);
    var c := Render(CanonicalLiteral(l));
    Idempotent(l);
    ValuePreserved(l);
    PatternMatches(CanonicalLiteral(l));
    LiteralRead(c);
    RenderInjective(CanonicalLiteral(l), ReadLiteral(c));
    RenderPlain(CanonicalLiteral(l), ReadLiteral(c));
  }

  lemma RenderPlain(l: Literal, m: Literal)
    requires Plain(l) && Plain(m) && Render(l) == Render(m)
    ensures l == m
  {
    Parts(l);
    Parts(m);
    hide IndexAny, TrimMinus, HasMinus, Render, TrimRight, IsDigits;
    assert FractionDigits(l) == FractionDigits(m);
  }

  /** The sign of `a - b`. */
  function CompareQuoteDecimal(a: string, b: string): int
    requires QuotePattern(a) && QuotePattern(b)
  {
    if LessRational(ValueOf(a), ValueOf(b)) then -1 else if LessRational(ValueOf(b), ValueOf(a)) then 1 else 0
  }

  lemma ZeroValue()
    ensures QuotePattern("0") && SameRational(ValueOf("0"), ZERO)
  {
    var zero := Literal(false, "0", None, None);
    assert TrimMinus("0") == "0" && IndexAny("0", ".") == -1;
    assert ReadLiteral("0") == zero;
    LiteralRead("0");
    assert "0" + "" == "0" && "" + "0" == "0";
    assert TrimRight("") == "";
    assert CanonicalLiteral(zero) == zero && Render(zero) == "0";
    QuoteDecimal.ZeroText(zero);
  }

  // ---- validity ----

  ghost predicate DecimalFits(text: string, precision: nat, scale: nat) {
    QuotePattern(text) && Fits(ValueOf(text), precision, scale)
  }

  ghost predicate OptionalFits(text: Option<string>, precision: nat, scale: nat) {
    text.Some? ==> DecimalFits(text.value, precision, scale)
  }

  ghost predicate DecimalsFit(q: Quote) {
    && DecimalFits(q.close, 20, 6) && DecimalFits(q.volume, 24, 6)
    && OptionalFits(q.open, 20, 6) && OptionalFits(q.high, 20, 6) && OptionalFits(q.low, 20, 6)
    && OptionalFits(q.turnover, 20, 10) && OptionalFits(q.changePct, 20, 10)
  }

  predicate Positive(x: Scaled) { LessRational(ZERO, x) }

  predicate AtMost(x: Scaled, y: Scaled) { !LessRational(y, x) }

  /** A valid record, in terms of the values it holds. */
  ghost predicate ValidQuote(validDate: string -> bool, q: Quote) {
    && validDate(q.date) && DecimalsFit(q)
    && Positive(ValueOf(q.close)) && AtMost(ZERO, ValueOf(q.volume))
    && (q.turnover.Some? ==> AtMost(ZERO, ValueOf(q.turnover.value)))
    && if q.status == PLACEHOLDER then
         q.open.None? && q.high.None? && q.low.None? && SameRational(ValueOf(q.volume), ZERO)
       else
         && q.status == OBSERVED && q.open.Some? && q.high.Some? && q.low.Some?
         && var low, high := ValueOf(q.low.value), ValueOf(q.high.value);
         && Positive(low) && AtMost(low, high)
         && AtMost(low, ValueOf(q.open.value)) && AtMost(ValueOf(q.open.value), high)
         && AtMost(low, ValueOf(q.close)) && AtMost(ValueOf(q.close), high)
  }

  method CheckDecimal(text: string, precision: nat, scale: nat) returns (ok: bool)
    requires scale <= precision
    ensures ok <==> DecimalFits(text, precision, scale)
  {
    var canonical := Canonicalize(text, precision, scale);
    ok := canonical.Some?;
  }

  method CheckOptional(text: Option<string>, precision: nat, scale: nat) returns (ok: bool)
    requires scale <= precision
    ensures ok <==> OptionalFits(text, precision, scale)
  {
    if text.None? {
      return true;
    }
    ok := CheckDecimal(text.value, precision, scale);
  }

  method CheckDecimals(q: Quote) returns (ok: bool)
    ensures ok <==> DecimalsFit(q)
  {
    hide DecimalFits;
    ok := CheckDecimal(q.close, 20, 6);
    if !ok { return; }
    ok := CheckDecimal(q.volume, 24, 6);
    if !ok { return; }
    ok := CheckOptional(q.open, 20, 6);
    if !ok { return; }
    ok := CheckOptional(q.high, 20, 6);
    if !ok { return; }
    ok := CheckOptional(q.low, 20, 6);
    if !ok { return; }
    ok := CheckOptional(q.turnover, 20, 10);
    if !ok { return; }
    ok := CheckOptional(q.changePct, 20, 10);
  }

  /** Comparing texts with "0" compares their values with zero. */
  lemma CompareZero(a: string)
    requires QuotePattern(a)
    ensures QuotePattern("0")
    ensures CompareQuoteDecimal(a, "0") > 0 <==> Positive(ValueOf(a))
    ensures CompareQuoteDecimal(a, "0") < 0 <==> !AtMost(ZERO, ValueOf(a))
    ensures CompareQuoteDecimal(a, "0") == 0 <==> SameRational(ValueOf(a), ZERO)
  {
    ZeroValue();
    LessSame(ValueOf("0"), ZERO, ValueOf(a));
  }

  lemma LessSame(x: Scaled, y: Scaled, z: Scaled)
    requires SameRational(x, y)
    ensures LessRational(x, z) <==> LessRational(y, z)
    ensures LessRational(z, x) <==> LessRational(z, y)
    ensures SameRational(z, y) <==> !LessRational(z, y) && !LessRational(y, z)
    ensures !(LessRational(z, y) && LessRational(y, z))
  {
    var k := Min(Min(x.exponent, y.exponent), z.exponent);
    CommonScale(x, y, k);
    CommonScale(x, z, k);
    CommonScale(y, z, k);
    CommonScale(z, x, k);
    CommonScale(z, y, k);
    hide SameRational, LessRational, At;
  }

  lemma CompareSigns(a: string, b: string)
    requires QuotePattern(a) && QuotePattern(b)
    ensures CompareQuoteDecimal(a, b) < 0 <==> !AtMost(ValueOf(b), ValueOf(a))
    ensures CompareQuoteDecimal(a, b) > 0 <==> !AtMost(ValueOf(a), ValueOf(b))
  {
    LessSame(ValueOf(a), ValueOf(a), ValueOf(b));
  }

  /** `ValidateDailyQuote`. */
  method ValidateDailyQuote(validDate: string -> bool, q: Quote) returns (ok: bool)
    ensures ok <==> ValidQuote(validDate, q)
  {
    if !validDate(q.date) {
      return false;
    }
    var fit := CheckDecimals(q);
    if !fit {
      return false;
    }
    CompareZero(q.close);
    CompareZero(q.volume);
    hide QuotePattern, CompareQuoteDecimal, Fits, Positive, AtMost, SameRational, ValueOf;
    if CompareQuoteDecimal(q.close, "0") <= 0 || CompareQuoteDecimal(q.volume, "0") < 0 {
      return false;
    }
    if q.turnover.Some? {
      CompareZero(q.turnover.value);
      if CompareQuoteDecimal(q.turnover.value, "0") < 0 {
        return false;
      }
    }
    if q.status == PLACEHOLDER {
      return q.open.None? && q.high.None? && q.low.None? && CompareQuoteDecimal(q.volume, "0") == 0;
    }
    if q.status != OBSERVED || q.open.None? || q.high.None? || q.low.None? {
      return false;
    }
    CompareZero(q.low.value);
    CompareSigns(q.high.value, q.low.value);
    CompareSigns(q.open.value, q.low.value);
    CompareSigns(q.open.value, q.high.value);
    CompareSigns(q.close, q.low.value);
    CompareSigns(q.close, q.high.value);
    ok := !(CompareQuoteDecimal(q.low.value, "0") <= 0 || CompareQuoteDecimal(q.high.value, q.low.value) < 0
            || CompareQuoteDecimal(q.open.value, q.low.value) < 0 || CompareQuoteDecimal(q.open.value, q.high.value) > 0
            || CompareQuoteDecimal(q.close, q.low.value) < 0 || CompareQuoteDecimal(q.close, q.high.value) > 0);
  }

  // ---- decoding one row ----

  /** The raw JSON texts of one row of the file. */
  datatype Row = Row(date: string, open: string, high: string, low: string, close: string, volume: string, turnover: string, change: string)

  ghost predicate RowFits(r: Row) {
    && DecimalFits(r.open, 20, 6) && DecimalFits(r.high, 20, 6) && DecimalFits(r.low, 20, 6)
    && DecimalFits(r.close, 20, 6) && DecimalFits(r.volume, 24, 6)
    && (r.turnover == "null" || DecimalFits(r.turnover, 20, 10)) && (r.change == "null" || DecimalFits(r.change, 20, 10))
  }

  /** The source writes a row of zeros when nothing was traded. */
  ghost predicate NotTraded(r: Row)
    requires RowFits(r)
  {
    && SameRational(ValueOf(r.open), ZERO) && SameRational(ValueOf(r.high), ZERO) && SameRational(ValueOf(r.low), ZERO)
    && SameRational(ValueOf(r.volume), ZERO)
  }

  ghost function NumberOf(raw: string, precision: nat, scale: nat): string
    requires DecimalFits(raw, precision, scale)
  {
    CanonicalOf(raw, precision, scale).value
  }

  ghost function OptionalOf(raw: string, precision: nat, scale: nat): Option<string>
    requires raw == "null" || DecimalFits(raw, precision, scale)
  {
    if raw == "null" then None else Some(NumberOf(raw, precision, scale))
  }

  ghost function Decoded(r: Row): Quote
    requires RowFits(r)
  {
    var q := Quote("", "", r.date, Some(NumberOf(r.open, 20, 6)), Some(NumberOf(r.high, 20, 6)), Some(NumberOf(r.low, 20, 6)),
                   NumberOf(r.close, 20, 6), NumberOf(r.volume, 24, 6), OptionalOf(r.turnover, 20, 10), OptionalOf(r.change, 20, 10), OBSERVED);
    if NotTraded(r) then q.(open := None, high := None, low := None, status := PLACEHOLDER) else q
  }

  lemma ZeroByText(raw: string, precision: nat, scale: nat)
    requires DecimalFits(raw, precision, scale)
    ensures NumberOf(raw, precision, scale) == "0" <==> SameRational(ValueOf(raw), ZERO)
  {
    LiteralRead(raw);
    QuoteDecimal.ZeroText(ReadLiteral(raw));
  }

  method QuoteNumber(raw: string, precision: nat, scale: nat, nullable: bool) returns (value: Option<string>, ok: bool)
    requires scale <= precision
    ensures ok <==> (raw == "null" && nullable) || DecimalFits(raw, precision, scale)
    ensures ok ==> value == if raw == "null" && nullable then None else Some(NumberOf(raw, precision, scale))
  {
    if raw == "null" && nullable {
      return None, true;
    }
    value := Canonicalize(raw, precision, scale);
    ok := value.Some?;
  }

  /** One row of the file: it is a placeholder exactly when open, high, low and volume are zero in value. */
  method DecodeRow(validDate: string -> bool, r: Row) returns (result: Option<Quote>)
    ensures result.Some? <==> RowFits(r) && ValidQuote(validDate, Decoded(r))
    ensures result.Some? ==> result.value == Decoded(r)
  {
    hide DecimalFits, NumberOf, ValidQuote, SameRational, ValueOf;
    var open, a := QuoteNumber(r.open, 20, 6, false);
    if !a { return None; }
    var high, b := QuoteNumber(r.high, 20, 6, false);
    if !b { return None; }
    var low, c := QuoteNumber(r.low, 20, 6, false);
    if !c { return None; }
    var close, d := QuoteNumber(r.close, 20, 6, false);
    if !d { return None; }
    var volume, e := QuoteNumber(r.volume, 24, 6, false);
    if !e { return None; }
    var turnover, f := QuoteNumber(r.turnover, 20, 10, true);
    if !f { return None; }
    var change, g := QuoteNumber(r.change, 20, 10, true);
    if !g { return None; }
    var q := Quote("", "", r.date, open, high, low, close.value, volume.value, turnover, change, OBSERVED);
    ZeroByText(r.open, 20, 6);
    ZeroByText(r.high, 20, 6);
    ZeroByText(r.low, 20, 6);
    ZeroByText(r.volume, 24, 6);
    if open.value == "0" && high.value == "0" && low.value == "0" && volume.value == "0" {
      q := q.(open := None, high := None, low := None, status := PLACEHOLDER);
    }
    var valid := ValidateDailyQuote(validDate, q);
    if !valid {
      return None;
    }
    return Some(q);
  }

  // ---- comparing whole records ----

  ghost predicate CanonicalDecimal(text: string) { QuotePattern(text) && CanonicalLiteral(ReadLiteral(text)) == ReadLiteral(text) }

  ghost predicate CanonicalOptional(text: Option<string>) { text.Some? ==> CanonicalDecimal(text.value) }

  ghost predicate CanonicalRecord(q: Quote) {
    && CanonicalOptional(q.open) && CanonicalOptional(q.high) && CanonicalOptional(q.low) && CanonicalDecimal(q.close)
    && CanonicalDecimal(q.volume) && CanonicalOptional(q.turnover) && CanonicalOptional(q.changePct)
  }

  ghost predicate SameDecimal(a: string, b: string)
    requires CanonicalDecimal(a) && CanonicalDecimal(b)
  {
    SameRational(ValueOf(a), ValueOf(b))
  }

  ghost predicate SameOptional(a: Option<string>, b: Option<string>)
    requires CanonicalOptional(a) && CanonicalOptional(b)
  {
    a.Some? == b.Some? && (a.Some? ==> SameDecimal(a.value, b.value))
  }

  /** Equal identity, date and status, and the same values throughout. */
  ghost predicate SameRecord(q: Quote, r: Quote)
    requires CanonicalRecord(q) && CanonicalRecord(r)
  {
    && q.id == r.id && q.stockId == r.stockId && q.date == r.date && q.status == r.status
    && SameOptional(q.open, r.open) && SameOptional(q.high, r.high) && SameOptional(q.low, r.low) && SameDecimal(q.close, r.close)
    && SameDecimal(q.volume, r.volume) && SameOptional(q.turnover, r.turnover) && SameOptional(q.changePct, r.changePct)
  }

  lemma DecimalTextDecides(a: string, b: string)
    requires CanonicalDecimal(a) && CanonicalDecimal(b)
    ensures a == b <==> SameDecimal(a, b)
  {
    LiteralRead(a);
    LiteralRead(b);
    TextDecidesValue(ReadLiteral(a), ReadLiteral(b));
  }

  lemma OptionalTextDecides(a: Option<string>, b: Option<string>)
    requires CanonicalOptional(a) && CanonicalOptional(b)
    ensures a == b <==> SameOptional(a, b)
  {
    if a.Some? && b.Some? { DecimalTextDecides(a.value, b.value); }
    hide CanonicalDecimal, SameDecimal;
  }

  /** Comparing canonical records field by field as text compares them by value. */
  lemma RecordTextDecides(q: Quote, r: Quote)
    requires CanonicalRecord(q) && CanonicalRecord(r)
    ensures q == r <==> SameRecord(q, r)
  {
    OptionalTextDecides(q.open, r.open);
    OptionalTextDecides(q.high, r.high);
    OptionalTextDecides(q.low, r.low);
    DecimalTextDecides(q.close, r.close);
    DecimalTextDecides(q.volume, r.volume);
    OptionalTextDecides(q.turnover, r.turnover);
    OptionalTextDecides(q.changePct, r.changePct);
    hide CanonicalDecimal, SameDecimal, SameOptional, CanonicalOptional;
  }

  lemma NumberCanonical(raw: string, precision: nat, scale: nat)
    requires DecimalFits(raw, precision, scale)
    ensures CanonicalDecimal(NumberOf(raw, precision, scale))
  {
    CanonicalText(raw, precision, scale);
  }

  lemma OptionalCanonical(raw: string, precision: nat, scale: nat)
    requires raw == "null" || DecimalFits(raw, precision, scale)
    ensures CanonicalOptional(OptionalOf(raw, precision, scale))
  {
    if raw != "null" { NumberCanonical(raw, precision, scale); }
    hide CanonicalDecimal, NumberOf, DecimalFits;
  }

  /** A decoded row is a canonical record. */
  lemma DecodedCanonical(r: Row)
    requires RowFits(r)
    ensures CanonicalRecord(Decoded(r))
  {
    hide CanonicalDecimal, NumberOf, OptionalOf, DecimalFits, NotTraded;
    NumberCanonical(r.open, 20, 6);
    NumberCanonical(r.high, 20, 6);
    NumberCanonical(r.low, 20, 6);
    NumberCanonical(r.close, 20, 6);
    NumberCanonical(r.volume, 24, 6);
    OptionalCanonical(r.turnover, 20, 10);
    OptionalCanonical(r.change, 20, 10);
  }
}
