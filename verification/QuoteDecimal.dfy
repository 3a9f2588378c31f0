/** Decimal prices and rates: kept as text, compared as rationals. */
module QuoteDecimal {
  import opened Json
  import opened Decimal
  import opened JsonNumber

  /** What `quoteDecimalPattern` matches: a number of the JSON grammar without an exponent. */
  predicate Plain(l: Literal) { Grammar(l) && l.exponent.None? }

  predicate WholePattern(whole: string) {
    IsDigits(whole) && whole != [] && (whole[0] == '0' ==> |whole| == 1)
  }

  /** The pattern, read character by character. */
  predicate QuotePattern(value: string) {
    var u := TrimMinus(value);
    var i := IndexAny(u, ".");
    if i < 0 then WholePattern(u) else WholePattern(u[..i]) && IsDigits(u[i + 1..]) && u[i + 1..] != []
  }

  /** The value as a column `numeric(precision, scale)` can hold it: an integer of fewer than
    `precision + 1` digits over `10^scale`. */
  ghost predicate Fits(x: Scaled, precision: nat, scale: nat) {
    exists n :: FitsAs(x, n, precision, scale)
  }

  ghost predicate FitsAs(x: Scaled, n: int, precision: nat, scale: nat) {
    SameRational(x, Scaled(n, 0 - scale)) && 0 - Pow10(precision) < n < Pow10(precision)
  }

  /** The literal with trailing zeros of the fraction and the sign of zero removed. */
  function CanonicalLiteral(l: Literal): Literal {
    var fraction := TrimRight(FractionDigits(l));
    Literal(l.negative && !(l.whole == "0" && fraction == []), l.whole, if fraction == [] then None else Some(fraction), None)
  }

  predicate Canonical(l: Literal) {
    && Plain(l)
    && (l.fraction.Some? ==> l.fraction.value[|l.fraction.value| - 1] != '0')
    && !(l.negative && l.whole == "0" && l.fraction.None?)
  }

  // ---- the operation ----

  /** `CanonicalQuoteDecimal`: accepts exactly the representable values and keeps the value. */
  method CanonicalQuoteDecimal(value: string, precision: nat, scale: nat) returns (canonical: Option<string>)
    requires scale <= precision
    ensures forall l | Plain(l) && Render(l) == value ::
              (canonical.Some? <==> Fits(Meaning(l), precision, scale)) &&
              (canonical.Some? ==> canonical.value == Render(CanonicalLiteral(l)))
    ensures !QuotePattern(value) ==> canonical.None?
  {
    if !QuotePattern(value) {
      NotPlain(value);
      hide *;
      return None;
    }
    hide HasMinus, TrimMinus, IndexAny, TrimRight, TrimLeft, Render, CanonicalLiteral, Plain, Fits, QuotePattern, Meaning;
    var negative := HasMinus(value);
    var unsigned := TrimMinus(value);
    var index := IndexAny(unsigned, ".");
    var whole := if index >= 0 then unsigned[..index] else unsigned;
    var fraction := "";
    if index >= 0 {
      fraction := TrimRight(unsigned[index + 1..]);
    }
    if |TrimLeft(whole)| > precision - scale || |fraction| > scale {
      canonical := None;
    } else {
      var out := whole;
      if fraction != "" {
        out := out + ("." + fraction);
      }
      if negative && out != "0" {
        out := "-" + out;
      }
      canonical := Some(out);
    }
    forall l | Plain(l) && Render(l) == value
      ensures canonical.Some? <==> Fits(Meaning(l), precision, scale)
      ensures canonical.Some? ==> canonical.value == Render(CanonicalLiteral(l))
    {
      Decided(l, precision, scale);
      assert whole == WholeOf(value) && fraction == FractionOf(value);
    }
  }

  /** The part before the point, and the part behind it without trailing zeros. */
  function WholeOf(value: string): string {
    var u := TrimMinus(value);
    var i := IndexAny(u, "."); if i >= 0 then u[..i] else u
  }

  function FractionOf(value: string): string {
    var u := TrimMinus(value);
    var i := IndexAny(u, "."); if i >= 0 then TrimRight(u[i + 1..]) else ""
  }

  /** The length tests decide whether the value fits, and the pieces make up the canonical text. */
  lemma Decided(l: Literal, precision: nat, scale: nat)
    requires Plain(l) && scale <= precision
    ensures var value := Render(l); var whole, fraction := WholeOf(value), FractionOf(value);
            var out := if fraction != "" then whole + ("." + fraction) else whole;
            && (|TrimLeft(whole)| <= precision - scale && |fraction| <= scale <==> Fits(Meaning(l), precision, scale))
            && Render(CanonicalLiteral(l)) == if HasMinus(value) && out != "0" then "-" + out else out
  {
    Parts(l);
    FitsByDigits(l, precision, scale);
    CanonicalRender(l);
    assert WholeOf(Render(l)) == l.whole && FractionOf(Render(l)) == TrimRight(FractionDigits(l));
    hide *;
  }

  lemma NotPlain(value: string)
    requires !QuotePattern(value)
    ensures forall l | Plain(l) :: Render(l) != value
  {
    forall l | Plain(l) ensures Render(l) != value {
      PatternMatches(l);
    }
  }

  /** The pieces the method cuts a value into. */
  lemma Parts(l: Literal)
    requires Plain(l)
    ensures var value := Render(l);
            var u := TrimMinus(value);
            var i := IndexAny(u, ".");
            && HasMinus(value) == l.negative
            && (if i >= 0 then u[..i] else u) == l.whole
            && (if i >= 0 then TrimRight(u[i + 1..]) else "") == TrimRight(FractionDigits(l))
            && (i >= 0 ==> u[i + 1..] == FractionDigits(l)) && (i >= 0 <==> l.fraction.Some?)
  {
    assert Render(l) == Mantissa(l);
    SignPieces(l);
    PointPieces(l);
    hide IndexAny, TrimMinus, HasMinus, Render, Mantissa, Grammar;
    if l.fraction.Some? {
      assert Unsigned(l)[..|l.whole|] == l.whole;
      assert Unsigned(l)[|l.whole| + 1..] == l.fraction.value;
    } else {
      assert Unsigned(l) == l.whole;
    }
  }

  /** The pattern matches exactly the plain decimal literals. */
  lemma PatternMatches(l: Literal)
    requires Plain(l)
    ensures QuotePattern(Render(l))
  {
    Parts(l);
    hide IndexAny, TrimMinus, Render, TrimRight;
  }

  /** The literal a matching text spells. */
  function ReadLiteral(text: string): Literal {
    var u := TrimMinus(text);
    var i := IndexAny(u, ".");
    if i < 0 then Literal(HasMinus(text), u, None, None) else Literal(HasMinus(text), u[..i], Some(u[i + 1..]), None)
  }

  /** Conversely a matching text is the text of a plain literal. */
  lemma LiteralRead(text: string)
    requires QuotePattern(text)
    ensures Plain(ReadLiteral(text)) && Render(ReadLiteral(text)) == text
  {
    var u := TrimMinus(text);
    var i := IndexAny(u, ".");
    var l := ReadLiteral(text);
    IndexAnyFinds(u, ".");
    assert i >= 0 ==> u == u[..i] + ("." + u[i + 1..]);
    assert Unsigned(l) == u;
    assert text == (if HasMinus(text) then "-" else "") + u;
    hide IndexAny, TrimMinus, Unsigned, IsDigits;
    assert Render(l) == Mantissa(l) + "" == Mantissa(l);
  }

  lemma {:induction false} IndexAnyFinds(s: string, chars: string)
    ensures IndexAny(s, chars) >= 0 ==> s[IndexAny(s, chars)] in chars
  {
    if s != [] { IndexAnyFinds(s[1..], chars); }
  }

  lemma CanonicalRender(l: Literal)
    requires Plain(l)
    ensures var fraction := TrimRight(FractionDigits(l));
            var out := if fraction != "" then l.whole + ("." + fraction) else l.whole;
            Render(CanonicalLiteral(l)) == if l.negative && out != "0" then "-" + out else out
  {
    var fraction := TrimRight(FractionDigits(l));
    var c := CanonicalLiteral(l);
    hide TrimRight, FractionDigits;
    var out := if fraction != "" then l.whole + ("." + fraction) else l.whole;
    PointMakesLonger(l.whole, fraction);
    assert (out == "0") == (l.whole == "0" && fraction == "");
    assert Unsigned(c) == out by { assert l.whole + "" == l.whole; }
    hide Unsigned;
    assert "" + out == out;
    assert Mantissa(c) + "" == Mantissa(c);
  }

  lemma PointMakesLonger(whole: string, fraction: string)
    requires whole != ""
    ensures whole + ("." + fraction) != "0"
  {
    assert |whole + ("." + fraction)| >= 2;
  }

  // ---- the value is kept ----

  lemma CanonicalGrammar(l: Literal)
    requires Plain(l)
    ensures Canonical(CanonicalLiteral(l))
  {
    TrimRightDigits(FractionDigits(l));
    hide TrimRight;
  }

  lemma TrimRightDigits(s: string)
    requires IsDigits(s)
    ensures IsDigits(TrimRight(s))
  {
    TrimRightValue(s);
  }

  /** The mantissa as one number. */
  function Digits(l: Literal): nat
    requires Plain(l)
  {
    DigitsOf(l);
    Value(AllDigits(l))
  }

  lemma MeaningOfPlain(l: Literal)
    requires Plain(l)
    ensures Meaning(l) == Scaled(if l.negative then 0 - Digits(l) else Digits(l), 0 - |FractionDigits(l)|)
  {
  }

  lemma DigitsSplit(l: Literal)
    requires Plain(l)
    ensures IsDigits(l.whole) && IsDigits(FractionDigits(l))
    ensures Digits(l) == Value(l.whole) * Pow10(|FractionDigits(l)|) + Value(FractionDigits(l))
  {
    ValueConcat(l.whole, FractionDigits(l));
  }

  lemma TrimKeepsDigits(l: Literal)
    requires Plain(l) && Plain(CanonicalLiteral(l))
    ensures var c := CanonicalLiteral(l); var k := |FractionDigits(l)| - |FractionDigits(c)|;
            k >= 0 && Digits(l) == Digits(c) * Pow10(k)
  {
    var c := CanonicalLiteral(l);
    var f := FractionDigits(l);
    DigitsSplit(l);
    DigitsSplit(c);
    TrimRightValue(f);
    var t := TrimRight(f);
    assert FractionDigits(c) == t;
    var k := |f| - |t|;
    Pow10Add(|t|, k);
    TrimArithmetic(Value(l.whole), Pow10(|t|), Value(t), Pow10(k));
    hide *;
  }

  lemma TrimArithmetic(w: int, p: int, v: int, q: int)
    ensures w * (p * q) + v * q == (w * p + v) * q
  {
    Associate(w, p, q);
  }

  lemma ZeroDigits(l: Literal)
    requires Plain(l) && l.whole == "0" && FractionDigits(l) == []
    ensures Digits(l) == 0
  {
    assert AllDigits(l) == "0";
    assert "0"[..0] == [];
    assert Value("0") == 0;
  }

  /** The canonical literal denotes the same rational. */
  lemma ValuePreserved(l: Literal)
    requires Plain(l)
    ensures Canonical(CanonicalLiteral(l))
    ensures SameRational(Meaning(l), Meaning(CanonicalLiteral(l)))
  {
    CanonicalGrammar(l);
    var c := CanonicalLiteral(l);
    MeaningOfPlain(l);
    MeaningOfPlain(c);
    TrimKeepsDigits(l);
    if l.negative != c.negative {
      ZeroDigits(c);
    }
    var k := |FractionDigits(l)| - |FractionDigits(c)|;
    SignedSame(l.negative, Digits(l), c.negative, Digits(c), k, 0 - |FractionDigits(l)|);
    hide *;
  }

  lemma SignedSame(p: bool, m: nat, q: bool, n: nat, k: nat, e: int)
    requires m == n * Pow10(k) && (p != q ==> n == 0)
    ensures SameRational(Scaled(if p then 0 - m else m, e), Scaled(if q then 0 - n else n, e + k))
  {
    assert (0 - n) * Pow10(k) == 0 - n * Pow10(k);
    assert n == 0 ==> m == 0;
    assert Pow10(0) == 1;
  }

  // ---- the text decides the value ----

  /** A digit string is its last digit behind the value of the rest, and a digit is known by its value. */
  lemma LastSplit(s: string)
    requires IsDigits(s) && s != []
    ensures Value(s[..|s| - 1]) == Value(s) / 10 && DigitValue(s[|s| - 1]) == Value(s) % 10
    ensures s[|s| - 1] == DigitChar(DigitValue(s[|s| - 1]))
  {
    LastDigitOf(Value(s[..|s| - 1]), DigitValue(s[|s| - 1]));
  }

  lemma {:induction false} FixedWidth(a: string, b: string)
    requires IsDigits(a) && IsDigits(b) && |a| == |b| && Value(a) == Value(b)
    ensures a == b
  {
    hide Value, DigitValue;
    if a != [] {
      LastSplit(a);
      LastSplit(b);
      FixedWidth(a[..|a| - 1], b[..|b| - 1]);
      assert a == a[..|a| - 1] + [a[|a| - 1]] && b == b[..|b| - 1] + [b[|b| - 1]];
    }
  }

  lemma {:induction false} DivideOut(w: nat, f: nat, v: nat, g: nat, p: nat)
    requires f < p && g < p && w * p + f == v * p + g
    ensures w == v && f == g
  {
    if w < v {
      assert w * p + p == (w + 1) * p;
      ScaleAtMost(w + 1, v, p);
      assert false;
    } else if v < w {
      assert v * p + p == (v + 1) * p;
      ScaleAtMost(v + 1, w, p);
      assert false;
    }
  }

  lemma ScaleAtMost(a: nat, b: nat, p: nat)
    requires a <= b
    ensures a * p <= b * p
  {
  }

  lemma LastFractionDigit(l: Literal)
    requires Canonical(l) && FractionDigits(l) != []
    ensures Digits(l) % 10 != 0
  {
    DigitsOf(l);
    var all := AllDigits(l);
    LastDigit(all);
    assert all[|all| - 1] == l.fraction.value[|l.fraction.value| - 1];
  }

  /** The number of decimals of a canonical literal is the least the value admits. */
  lemma ScaleIsLeast(l: Literal, n: int, s: nat)
    requires Canonical(l) && SameRational(Meaning(l), Scaled(n, 0 - s))
    ensures |FractionDigits(l)| <= s
    ensures n == (if l.negative then 0 - Digits(l) else Digits(l)) * Pow10(s - |FractionDigits(l)|)
  {
    MeaningOfPlain(l);
    var k := |FractionDigits(l)|;
    var m := if l.negative then 0 - Digits(l) else Digits(l);
    if k > s {
      LastFractionDigit(l);
      CommonScale(Meaning(l), Scaled(n, 0 - s), 0 - k);
      assert At(Meaning(l), 0 - k) == m * Pow10(0) == m;
      assert m == n * Pow10(k - s);
      TenTimes(n, Pow10(k - s - 1));
      TenDivides(n * Pow10(k - s - 1));
      NegateDivisible(Digits(l));
      assert false;
    } else {
      CommonScale(Meaning(l), Scaled(n, 0 - s), 0 - s);
      assert At(Scaled(n, 0 - s), 0 - s) == n * Pow10(0) == n;
    }
  }

  lemma NegateDivisible(n: nat)
    ensures (0 - n) % 10 == 0 <==> n % 10 == 0
  {
  }

  /** Two canonical literals of the same value are the same literal. */
  lemma CanonicalUnique(c: Literal, d: Literal)
    requires Canonical(c) && Canonical(d) && SameRational(Meaning(c), Meaning(d))
    ensures c == d
  {
    MeaningOfPlain(c);
    MeaningOfPlain(d);
    var j, k := |FractionDigits(c)|, |FractionDigits(d)|;
    ScaleIsLeast(c, Meaning(d).mantissa, k);
    SameRationalSymmetric(Meaning(c), Meaning(d));
    ScaleIsLeast(d, Meaning(c).mantissa, j);
    assert j == k && Pow10(0) == 1;
    assert Meaning(c).mantissa == Meaning(d).mantissa;
    DigitsSplit(c);
    DigitsSplit(d);
    ValueBound(FractionDigits(c));
    ValueBound(FractionDigits(d));
    DivideOut(Value(c.whole), Value(FractionDigits(c)), Value(d.whole), Value(FractionDigits(d)), Pow10(k));
    FixedWidth(FractionDigits(c), FractionDigits(d));
    ValueNatText(c.whole);
    ValueNatText(d.whole);
    assert c.whole == d.whole && c.fraction == d.fraction;
    SignOfValue(c, d);
  }

  lemma SameRationalSymmetric(x: Scaled, y: Scaled)
    requires SameRational(x, y)
    ensures SameRational(y, x)
  {
  }

  lemma SignOfValue(c: Literal, d: Literal)
    requires Canonical(c) && Canonical(d) && c.whole == d.whole && c.fraction == d.fraction
    requires Meaning(c).mantissa == Meaning(d).mantissa
    ensures c.negative == d.negative
  {
    MeaningOfPlain(c);
    MeaningOfPlain(d);
    if c.negative != d.negative {
      assert Digits(c) == 0;
      ZeroIsPlainZero(c);
    }
  }

  lemma ZeroIsPlainZero(c: Literal)
    requires Canonical(c) && Digits(c) == 0
    ensures c.whole == "0" && c.fraction.None?
  {
    if c.fraction.Some? {
      LastFractionDigit(c);
    }
    assert AllDigits(c) == c.whole;
    ValueNatText(c.whole);
  }

  /** Two accepted texts are equal exactly when their values are. */
  lemma TextDecidesValue(l: Literal, m: Literal)
    requires Plain(l) && Plain(m)
    ensures Render(CanonicalLiteral(l)) == Render(CanonicalLiteral(m)) <==> SameRational(Meaning(l), Meaning(m))
  {
    ValuePreserved(l);
    ValuePreserved(m);
    var c, d := CanonicalLiteral(l), CanonicalLiteral(m);
    SameRationalJoin(Meaning(l), Meaning(c), Meaning(m), Meaning(d));
    if Render(c) == Render(d) {
      RenderInjective(c, d);
    } else if SameRational(Meaning(c), Meaning(d)) {
      CanonicalUnique(c, d);
    }
  }

  lemma SameRationalJoin(x: Scaled, c: Scaled, y: Scaled, d: Scaled)
    requires SameRational(x, c) && SameRational(y, d)
    ensures SameRational(x, y) <==> SameRational(c, d)
    ensures SameRational(c, c)
  {
    NormalDecides(x, c);
    NormalDecides(y, d);
    NormalDecides(x, y);
    NormalDecides(c, d);
  }

  /** Canonical text is left alone. */
  lemma Idempotent(l: Literal)
    requires Plain(l)
    ensures Plain(CanonicalLiteral(l)) && CanonicalLiteral(CanonicalLiteral(l)) == CanonicalLiteral(l)
  {
    CanonicalGrammar(l);
    var c := CanonicalLiteral(l);
    CanonicalGrammar(c);
    ValuePreserved(c);
    SameRationalSymmetric(Meaning(c), Meaning(CanonicalLiteral(c)));
    CanonicalUnique(CanonicalLiteral(c), c);
  }

  /** The textual zero test of the placeholder rule is a value test. */
  lemma ZeroText(l: Literal)
    requires Plain(l)
    ensures Render(CanonicalLiteral(l)) == "0" <==> SameRational(Meaning(l), Scaled(0, 0))
  {
    var zero := Literal(false, "0", None, None);
    assert "0" + "" == "0" && "" + "0" == "0";
    assert Render(zero) == "0";
    ZeroDigits(zero);
    MeaningOfPlain(zero);
    assert TrimRight("") == "";
    assert CanonicalLiteral(zero) == zero;
    TextDecidesValue(l, zero);
  }

  // ---- which values are accepted ----

  lemma {:induction false} DigitCount(s: string, n: nat)
    requires IsDigits(s)
    ensures |TrimLeft(s)| <= n <==> Value(s) < Pow10(n)
  {
    hide *;
    TrimLeftValue(s);
    var t := TrimLeft(s);
    ValueBound(t);
    if |t| <= n {
      Pow10Monotone(|t|, n);
    } else {
      LeadingDigit(t);
      Pow10Monotone(n, |t| - 1);
    }
  }

  lemma {:induction false} LeadingDigit(t: string)
    requires IsDigits(t) && t != [] && t[0] != '0'
    ensures Value(t) >= Pow10(|t| - 1)
  {
    if |t| == 1 {
      ValuePositive(t);
      assert Pow10(0) == 1;
    } else {
      LeadingDigit(t[..|t| - 1]);
    }
  }

  /** The two length tests of the source accept exactly the values the column can hold. */
  lemma FitsByDigits(l: Literal, precision: nat, scale: nat)
    requires Plain(l) && scale <= precision
    ensures |TrimLeft(l.whole)| <= precision - scale && |TrimRight(FractionDigits(l))| <= scale
            <==> Fits(Meaning(l), precision, scale)
  {
    ValuePreserved(l);
    var c := CanonicalLiteral(l);
    FitsSame(Meaning(l), Meaning(c), precision, scale);
    CanonicalFits(c, precision, scale);
    assert FractionDigits(c) == TrimRight(FractionDigits(l)) && c.whole == l.whole;
  }

  lemma FitsSame(x: Scaled, y: Scaled, precision: nat, scale: nat)
    requires SameRational(x, y)
    ensures Fits(x, precision, scale) <==> Fits(y, precision, scale)
  {
    forall n ensures FitsAs(x, n, precision, scale) <==> FitsAs(y, n, precision, scale) {
      NormalDecides(x, y);
      NormalDecides(x, Scaled(n, 0 - scale));
      NormalDecides(y, Scaled(n, 0 - scale));
    }
  }

  lemma CanonicalFits(c: Literal, precision: nat, scale: nat)
    requires Canonical(c) && scale <= precision
    ensures |TrimLeft(c.whole)| <= precision - scale && |FractionDigits(c)| <= scale <==> Fits(Meaning(c), precision, scale)
  {
    DigitsSplit(c);
    DigitCount(c.whole, precision - scale);
    if |FractionDigits(c)| <= scale {
      ShortFits(c, precision, scale);
    } else {
      LongDoesNotFit(c, precision, scale);
    }
    hide *;
  }

  /** The digits of the literal as an integer over `10^scale`. */
  function Shifted(c: Literal, scale: nat): int
    requires Plain(c) && |FractionDigits(c)| <= scale
  {
    (if c.negative then 0 - Digits(c) else Digits(c)) * Pow10(scale - |FractionDigits(c)|)
  }

  lemma ShortFits(c: Literal, precision: nat, scale: nat)
    requires Plain(c) && scale <= precision && |FractionDigits(c)| <= scale
    ensures IsDigits(c.whole) && (Value(c.whole) < Pow10(precision - scale) <==> Fits(Meaning(c), precision, scale))
  {
    MeaningOfPlain(c);
    MagnitudeFits(c, precision, scale);
    Rescaled(Meaning(c), Shifted(c, scale), scale);
    FitsExactly(Meaning(c), Shifted(c, scale), precision, scale);
    hide Pow10, Digits, Meaning, Fits, SameRational, FractionDigits, Value;
  }

  lemma LongDoesNotFit(c: Literal, precision: nat, scale: nat)
    requires Canonical(c) && |FractionDigits(c)| > scale
    ensures !Fits(Meaning(c), precision, scale)
  {
    hide Pow10, Digits, SameRational, Value;
    if Fits(Meaning(c), precision, scale) {
      var m :| FitsAs(Meaning(c), m, precision, scale);
      ScaleIsLeast(c, m, scale);
    }
  }

  /** Over a fixed power of ten a rational has one numerator, so it alone decides whether the value fits. */
  lemma FitsExactly(x: Scaled, n: int, precision: nat, scale: nat)
    requires SameRational(x, Scaled(n, 0 - scale))
    ensures Fits(x, precision, scale) <==> 0 - Pow10(precision) < n < Pow10(precision)
  {
    hide Pow10, SameRational;
    if Fits(x, precision, scale) {
      var m :| FitsAs(x, m, precision, scale);
      OneNumerator(x, m, n, scale);
    }
    if 0 - Pow10(precision) < n < Pow10(precision) {
      assert FitsAs(x, n, precision, scale);
    }
  }

  lemma OneNumerator(x: Scaled, m: int, n: int, scale: nat)
    requires SameRational(x, Scaled(m, 0 - scale)) && SameRational(x, Scaled(n, 0 - scale))
    ensures m == n
  {
    NormalDecides(x, Scaled(m, 0 - scale));
    NormalDecides(x, Scaled(n, 0 - scale));
    NormalDecides(Scaled(m, 0 - scale), Scaled(n, 0 - scale));
    assert Pow10(0) == 1;
  }

  lemma Rescaled(x: Scaled, n: int, scale: nat)
    requires 0 - scale <= x.exponent && n == x.mantissa * Pow10(x.exponent + scale)
    ensures SameRational(x, Scaled(n, 0 - scale))
  {
    CommonScale(x, Scaled(n, 0 - scale), 0 - scale);
    assert Pow10(0) == 1;
  }

  lemma MagnitudeFits(c: Literal, precision: nat, scale: nat)
    requires Plain(c) && scale <= precision && |FractionDigits(c)| <= scale
    ensures var n := Shifted(c, scale);
            IsDigits(c.whole) &&
            (Value(c.whole) < Pow10(precision - scale) <==> 0 - Pow10(precision) < n < Pow10(precision))
  {
    var k := |FractionDigits(c)|;
    DigitsSplit(c);
    ValueBound(FractionDigits(c));
    var w, f, p, q := Value(c.whole), Value(FractionDigits(c)), Pow10(k), Pow10(scale - k);
    Pow10Add(k, scale - k);
    Pow10Add(precision - scale, scale);
    WholeDecides(w, f, p, q, Pow10(precision - scale));
    SignedBound(c.negative, Digits(c), q, Pow10(precision));
  }

  lemma SignedBound(negative: bool, d: nat, q: nat, bound: nat)
    ensures var n := (if negative then 0 - d else d) * q; d * q < bound <==> 0 - bound < n < bound
  {
    assert (0 - d) * q == 0 - d * q;
    assert d * q >= 0;
  }

  lemma WholeDecides(w: nat, f: nat, p: nat, q: nat, b: nat)
    requires f < p && q > 0
    ensures w < b <==> (w * p + f) * q < b * (p * q)
  {
    if w < b {
      ScaleAtMost(w + 1, b, p);
      assert w * p + f < (w + 1) * p <= b * p;
      ScaleOrder(w * p + f, b * p, q);
    } else {
      ScaleAtMost(b, w, p);
      ScaleAtMost(b * p, w * p + f, q);
    }
    Associate(b, p, q);
  }
}
