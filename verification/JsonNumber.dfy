/** The numeric normal form that decides whether two stored configurations are the same. */
module JsonNumber {
  import opened Json
  import opened Decimal

  // ---- section 6 of RFC 8259 ----

  datatype Exponent = Exponent(mark: char, sign: string, digits: string)

  datatype Literal = Literal(negative: bool, whole: string, fraction: Option<string>, exponent: Option<Exponent>)

  predicate Grammar(l: Literal) {
    && IsDigits(l.whole) && l.whole != [] && (l.whole[0] == '0' ==> |l.whole| == 1)
    && (l.fraction.Some? ==> IsDigits(l.fraction.value) && l.fraction.value != [])
    && (l.exponent.Some? ==>
          var e := l.exponent.value;
          (e.mark == 'e' || e.mark == 'E') && (e.sign == "" || e.sign == "+" || e.sign == "-") && IsDigits(e.digits) && e.digits != [])
  }

  function FractionText(l: Literal): string {
    if l.fraction.Some? then "." + l.fraction.value else ""
  }

  function ExponentText(l: Literal): string {
    if l.exponent.Some? then [l.exponent.value.mark] + (l.exponent.value.sign + l.exponent.value.digits) else ""
  }

  function Unsigned(l: Literal): string { l.whole + FractionText(l) }

  function Mantissa(l: Literal): string { (if l.negative then "-" else "") + Unsigned(l) }

  function Render(l: Literal): string { Mantissa(l) + ExponentText(l) }

  function FractionDigits(l: Literal): string { if l.fraction.Some? then l.fraction.value else "" }

  function ExponentValue(l: Literal): int
    requires Grammar(l)
  {
    if l.exponent.None? then 0
    else if l.exponent.value.sign == "-" then 0 - Value(l.exponent.value.digits)
    else Value(l.exponent.value.digits)
  }

  /** All digits of the mantissa, without the decimal point. */
  function AllDigits(l: Literal): string { l.whole + FractionDigits(l) }

  lemma DigitsOf(l: Literal)
    requires Grammar(l)
    ensures IsDigits(AllDigits(l))
  {
  }

  /** The rational the literal denotes. */
  function Meaning(l: Literal): Scaled
    requires Grammar(l)
  {
    DigitsOf(l);
    var n := Value(AllDigits(l));
    Scaled(if l.negative then 0 - n else n, ExponentValue(l) - |FractionDigits(l)|)
  }

  /** The canonical text of a rational: mantissa without trailing zeros, `e`, exponent. */
  function NormalText(x: Scaled): string {
    var n := Normal(x);
    if n.mantissa == 0 then "0" else Compose(n.mantissa < 0, NatText(Magnitude(n.mantissa)), n.exponent)
  }

  function Magnitude(i: int): nat { if i < 0 then 0 - i else i }

  function Compose(negative: bool, digits: string, exponent: int): string {
    (if negative then "-" else "") + digits + "e" + IntText(exponent)
  }

  // ---- the string operations of the source ----

  /** `strings.IndexAny`: the first position holding one of `chars`, or -1. */
  function IndexAny(s: string, chars: string): (i: int)
    ensures -1 <= i < |s|
  {
    if s == [] then -1
    else if s[0] in chars then 0
    else var i := IndexAny(s[1..], chars); if i < 0 then -1 else i + 1
  }

  /** `big.Int.SetString` in base 10. */
  function SetString(s: string): Option<int> {
    var negative := s != [] && s[0] == '-';
    var digits := if s != [] && (s[0] == '-' || s[0] == '+') then s[1..] else s;
    if digits == [] || !IsDigits(digits) then None
    else Some(if negative then 0 - Value(digits) else Value(digits))
  }

  // The pieces the source cuts a token into.

  function MantissaOf(raw: string): string {
    var i := IndexAny(raw, "eE"); if i >= 0 then raw[..i] else raw
  }

  function ExponentOf(raw: string): string {
    var i := IndexAny(raw, "eE"); if i >= 0 then raw[i + 1..] else "0"
  }

  predicate HasMinus(s: string) { s != [] && s[0] == '-' }

  function TrimMinus(s: string): string { if HasMinus(s) then s[1..] else s }

  function PointDigits(u: string): nat {
    var i := IndexAny(u, "."); if i >= 0 then |u| - i - 1 else 0
  }

  function WithoutPoint(u: string): string {
    var i := IndexAny(u, "."); if i >= 0 then u[..i] + u[i + 1..] else u
  }

  /** The text built from the pieces when the digits are not all zero. */
  function Assemble(negative: bool, digits: string, exponent: int): string {
    Compose(negative, TrimRight(digits), exponent + (|digits| - |TrimRight(digits)|))
  }

  /** The last steps, from the parsed exponent, the sign, the digits and the number of decimals. */
  function FromPieces(exponent: Option<int>, negative: bool, digits: string, decimals: nat): Option<string> {
    if exponent.None? then None
    else if TrimLeft(digits) == [] then Some("0")
    else Some(Assemble(negative, TrimLeft(digits), exponent.value - decimals))
  }

  function FromText(raw: string): Option<string> {
    var unsigned := TrimMinus(MantissaOf(raw));
    FromPieces(SetString(ExponentOf(raw)), HasMinus(MantissaOf(raw)), WithoutPoint(unsigned), PointDigits(unsigned))
  }

  /** `normalizeJSONNumber`: on every number of the grammar the result is the canonical text of the
    rational it denotes. */
  method NormalizeJSONNumber(raw: string) returns (canonical: Option<string>)
    ensures forall l | Grammar(l) && Render(l) == raw :: canonical == Some(NormalText(Meaning(l)))
  {
    hide IndexAny, SetString, TrimLeft, TrimRight, IntText, Compose, Assemble, FromPieces, FromText, Render, Grammar, NormalText, Meaning;
    var mantissa, exponentText := raw, "0";
    var index := IndexAny(raw, "eE");
    if index >= 0 {
      mantissa, exponentText := raw[..index], raw[index + 1..];
    }
    assert mantissa == MantissaOf(raw) && exponentText == ExponentOf(raw);
    var parsed := SetString(exponentText);
    if parsed.None? {
      NoExponent(raw);
      return None;
    }
    var exponent := parsed.value;
    var negative := mantissa != [] && mantissa[0] == '-';
    if negative {
      mantissa := mantissa[1..];
    }
    ghost var unsigned := TrimMinus(MantissaOf(raw));
    assert mantissa == unsigned && negative == HasMinus(MantissaOf(raw));
    var fractionDigits := 0;
    index := IndexAny(mantissa, ".");
    if index >= 0 {
      fractionDigits := |mantissa| - index - 1;
      mantissa := mantissa[..index] + mantissa[index + 1..];
    }
    assert mantissa == WithoutPoint(unsigned) && fractionDigits == PointDigits(unsigned);
    TextPieces(raw, parsed, negative, mantissa, fractionDigits);
    AllLiterals(raw, FromText(raw));
    hide *;
    ghost var decimals := mantissa;
    var digits := TrimLeft(mantissa);
    if digits == [] {
      FinishZero(parsed, negative, decimals, fractionDigits);
      canonical := Some("0");
    } else {
      exponent := exponent - fractionDigits;
      var trimmed := TrimRight(digits);
      exponent := exponent + (|digits| - |trimmed|);
      var prefix := "";
      if negative {
        prefix := "-";
      }
      canonical := Some(prefix + trimmed + "e" + IntText(exponent));
      Finish(parsed, negative, decimals, fractionDigits, digits, trimmed, exponent, prefix);
    }
  }

  lemma FinishZero(parsed: Option<int>, negative: bool, digits: string, decimals: nat)
    requires parsed.Some? && TrimLeft(digits) == []
    ensures FromPieces(parsed, negative, digits, decimals) == Some("0")
  {
  }

  lemma Finish(parsed: Option<int>, negative: bool, all: string, decimals: nat,
               digits: string, trimmed: string, exponent: int, prefix: string)
    requires parsed.Some? && digits == TrimLeft(all) && digits != [] && trimmed == TrimRight(digits)
    requires exponent == parsed.value - decimals + (|digits| - |trimmed|)
    requires prefix == if negative then "-" else ""
    ensures FromPieces(parsed, negative, all, decimals) == Some(prefix + trimmed + "e" + IntText(exponent))
  {
    hide TrimLeft, TrimRight, IntText;
    assert FromPieces(parsed, negative, all, decimals) == Some(Compose(negative, trimmed, exponent));
  }

  lemma AllLiterals(raw: string, canonical: Option<string>)
    requires canonical == FromText(raw)
    ensures forall l | Grammar(l) && Render(l) == raw :: canonical == Some(NormalText(Meaning(l)))
  {
    hide *;
    forall l | Grammar(l) && Render(l) == raw ensures canonical == Some(NormalText(Meaning(l))) {
      FromTextNormal(l);
    }
  }

  lemma NoExponent(raw: string)
    requires SetString(ExponentOf(raw)).None?
    ensures forall l | Grammar(l) :: Render(l) != raw
  {
    hide *;
    forall l | Grammar(l) ensures Render(l) != raw {
      ExponentPieces(l);
      ExponentReads(l);
    }
  }

  // ---- reading the parts of a literal off its text ----

  lemma {:induction false} IndexAnySkips(a: string, b: string, chars: string)
    requires forall i | 0 <= i < |a| :: a[i] !in chars
    ensures IndexAny(a + b, chars) == if b != [] && b[0] in chars then |a| else if IndexAny(b, chars) < 0 then -1 else |a| + IndexAny(b, chars)
  {
    if a == [] {
      assert a + b == b;
    } else {
      assert (a + b)[1..] == a[1..] + b;
      IndexAnySkips(a[1..], b, chars);
    }
  }

  lemma MantissaHasNoMark(l: Literal)
    requires Grammar(l)
    ensures forall i | 0 <= i < |Mantissa(l)| :: Mantissa(l)[i] !in "eE"
  {
  }

  function ExponentSource(l: Literal): string {
    if l.exponent.Some? then l.exponent.value.sign + l.exponent.value.digits else "0"
  }

  lemma ExponentPieces(l: Literal)
    requires Grammar(l)
    ensures MantissaOf(Render(l)) == Mantissa(l)
    ensures ExponentOf(Render(l)) == ExponentSource(l)
  {
    MantissaHasNoMark(l);
    IndexAnySkips(Mantissa(l), ExponentText(l), "eE");
    hide Mantissa, IndexAny;
    if l.exponent.None? {
      assert Render(l) == Mantissa(l);
    } else {
      assert Render(l)[|Mantissa(l)| + 1..] == ExponentSource(l);
    }
  }

  lemma SignedReads(sign: string, digits: string)
    requires (sign == "" || sign == "+" || sign == "-") && digits != [] && IsDigits(digits)
    ensures SetString(sign + digits) == Some(if sign == "-" then 0 - Value(digits) else Value(digits))
  {
    hide Value;
    var s := sign + digits;
    if sign == "" {
      assert s == digits;
    } else {
      assert s[0] == sign[0] && s[1..] == digits;
    }
  }

  lemma ExponentReads(l: Literal)
    requires Grammar(l)
    ensures SetString(ExponentSource(l)) == Some(ExponentValue(l))
  {
    if l.exponent.None? {
      SignedReads("", "0");
      assert "0"[..0] == [];
      assert "" + "0" == "0" && Value("0") == 0;
    } else {
      var e := l.exponent.value;
      SignedReads(e.sign, e.digits);
      hide SetString, Value, IsDigits;
    }
  }

  lemma SignPieces(l: Literal)
    requires Grammar(l)
    ensures HasMinus(Mantissa(l)) == l.negative
    ensures TrimMinus(Mantissa(l)) == Unsigned(l)
  {
    hide FractionText;
    if l.negative {
      assert Mantissa(l)[1..] == Unsigned(l);
    } else {
      assert Mantissa(l) == Unsigned(l);
    }
  }

  lemma PointPieces(l: Literal)
    requires Grammar(l)
    ensures WithoutPoint(Unsigned(l)) == AllDigits(l)
    ensures PointDigits(Unsigned(l)) == |FractionDigits(l)|
    ensures (IndexAny(Unsigned(l), ".") < 0) == l.fraction.None?
    ensures l.fraction.Some? ==> IndexAny(Unsigned(l), ".") == |l.whole|
  {
    IndexAnySkips(l.whole, FractionText(l), ".");
    if l.fraction.None? {
      assert Unsigned(l) == l.whole;
      assert AllDigits(l) == l.whole;
    } else {
      hide IndexAny;
      assert Unsigned(l)[|l.whole| + 1..] == l.fraction.value;
    }
  }

  /** What the steps of the method read off the text of `l`. */
  lemma Pieces(l: Literal)
    requires Grammar(l)
    ensures var raw := Render(l); var u := TrimMinus(MantissaOf(raw));
            && SetString(ExponentOf(raw)) == Some(ExponentValue(l))
            && HasMinus(MantissaOf(raw)) == l.negative
            && WithoutPoint(u) == AllDigits(l)
            && PointDigits(u) == |FractionDigits(l)|
  {
    ExponentPieces(l);
    ExponentReads(l);
    SignPieces(l);
    PointPieces(l);
    hide *;
  }

  // ---- the text is the normal form ----

  lemma Assembled(l: Literal)
    requires Grammar(l)
    ensures FromPieces(Some(ExponentValue(l)), l.negative, AllDigits(l), |FractionDigits(l)|)
            == Some(NormalText(Meaning(l)))
  {
    hide AllDigits, Meaning, NormalText, Assemble, FromPieces, TrimLeft, FractionDigits, ExponentValue;
    if TrimLeft(AllDigits(l)) == [] {
      ZeroText(l);
    } else {
      NonzeroText(l);
    }
    AssembledPieces(Some(ExponentValue(l)), l.negative, AllDigits(l), |FractionDigits(l)|);
    hide *;
  }

  lemma AssembledPieces(exponent: Option<int>, negative: bool, digits: string, decimals: nat)
    requires exponent.Some?
    ensures FromPieces(exponent, negative, digits, decimals) ==
            Some(if TrimLeft(digits) == [] then "0" else Assemble(negative, TrimLeft(digits), exponent.value - decimals))
  {
    hide Assemble, TrimLeft;
  }

  lemma FromTextNormal(l: Literal)
    requires Grammar(l)
    ensures FromText(Render(l)) == Some(NormalText(Meaning(l)))
  {
    Pieces(l);
    Assembled(l);
    TextPieces(Render(l), Some(ExponentValue(l)), l.negative, AllDigits(l), |FractionDigits(l)|);
    hide *;
  }

  lemma TextPieces(raw: string, exponent: Option<int>, negative: bool, digits: string, decimals: nat)
    requires SetString(ExponentOf(raw)) == exponent && HasMinus(MantissaOf(raw)) == negative
    requires WithoutPoint(TrimMinus(MantissaOf(raw))) == digits && PointDigits(TrimMinus(MantissaOf(raw))) == decimals
    ensures FromText(raw) == FromPieces(exponent, negative, digits, decimals)
  {
    hide FromPieces, SetString, ExponentOf, MantissaOf, TrimMinus, HasMinus, WithoutPoint, PointDigits;
  }

  lemma ZeroText(l: Literal)
    requires Grammar(l) && TrimLeft(AllDigits(l)) == []
    ensures NormalText(Meaning(l)) == "0"
  {
    DigitsOf(l);
    TrimLeftValue(AllDigits(l));
  }

  lemma NonzeroText(l: Literal)
    requires Grammar(l) && TrimLeft(AllDigits(l)) != []
    ensures NormalText(Meaning(l)) ==
            Assemble(l.negative, TrimLeft(AllDigits(l)), ExponentValue(l) - |FractionDigits(l)|)
  {
    hide *;
    DigitsOf(l);
    TrimmedLeft(AllDigits(l));
    NonzeroDigits(l, TrimLeft(AllDigits(l)), ExponentValue(l) - |FractionDigits(l)|);
  }

  /** Digits without a leading zero. */
  predicate Leading(digits: string) { IsDigits(digits) && digits != [] && digits[0] != '0' }

  lemma TrimmedLeft(s: string)
    requires IsDigits(s) && TrimLeft(s) != []
    ensures Leading(TrimLeft(s)) && IsDigits(TrimLeft(s)) && Value(TrimLeft(s)) == Value(s)
  {
    TrimLeftValue(s);
    hide Value;
  }

  lemma NonzeroDigits(l: Literal, digits: string, e: int)
    requires Grammar(l) && IsDigits(AllDigits(l)) && Leading(digits) && IsDigits(digits)
    requires Value(digits) == Value(AllDigits(l)) && e == ExponentValue(l) - |FractionDigits(l)|
    ensures NormalText(Meaning(l)) == Assemble(l.negative, digits, e)
  {
    hide *;
    TrimmedDigits(digits);
    NonzeroParts(l, digits, TrimRight(digits), e);
  }

  lemma NonzeroParts(l: Literal, digits: string, trimmed: string, e: int)
    requires Grammar(l) && IsDigits(AllDigits(l)) && IsDigits(digits)
    requires Value(digits) == Value(AllDigits(l)) && trimmed == TrimRight(digits)
    requires IsDigits(trimmed) && NatText(Value(trimmed)) == trimmed && Value(trimmed) % 10 != 0 && Value(trimmed) > 0
    requires e == ExponentValue(l) - |FractionDigits(l)|
    ensures NormalText(Meaning(l)) == Assemble(l.negative, digits, e)
  {
    hide *;
    TrimRightValue(digits);
    var n: nat, k: nat := Value(trimmed), |digits| - |trimmed|;
    var m := if l.negative then 0 - n else n;
    SignedProduct(l.negative, n, Pow10(k));
    MeaningIs(l, m * Pow10(k), e);
    NormalOfTrimmed(m, k, e);
    SignOf(l.negative, n, m);
    AssembleIs(l.negative, digits, trimmed, e, k);
    NormalTextOf(Meaning(l), m, e + k);
  }

  lemma SignOf(negative: bool, n: nat, m: int)
    requires n > 0 && m == if negative then 0 - n else n
    ensures m != 0 && (m < 0) == negative && Magnitude(m) == n
  {
  }

  lemma NormalTextOf(x: Scaled, m: int, f: int)
    requires Normal(x) == Scaled(m, f) && m != 0
    ensures NormalText(x) == Compose(m < 0, NatText(Magnitude(m)), f)
  {
    hide Normal, Compose;
  }

  lemma AssembleIs(negative: bool, digits: string, trimmed: string, e: int, k: nat)
    requires trimmed == TrimRight(digits) && k == |digits| - |trimmed|
    ensures Assemble(negative, digits, e) == Compose(negative, trimmed, e + k)
  {
    hide TrimRight, Compose;
  }

  lemma MeaningIs(l: Literal, m: int, e: int)
    requires Grammar(l) && IsDigits(AllDigits(l)) && e == ExponentValue(l) - |FractionDigits(l)|
    requires m == var n := Value(AllDigits(l)); if l.negative then 0 - n else n
    ensures Meaning(l) == Scaled(m, e)
  {
  }

  lemma SignedProduct(negative: bool, n: nat, p: nat)
    requires n % 10 != 0
    ensures (if negative then 0 - n else n) * p == if negative then 0 - n * p else n * p
    ensures (if negative then 0 - n else n) % 10 != 0
  {
  }

  lemma TrimmedDigits(digits: string)
    requires Leading(digits)
    ensures var t := TrimRight(digits);
            t != [] && IsDigits(t) && NatText(Value(t)) == t && Value(t) % 10 != 0 && Value(t) > 0
  {
    var t := TrimRight(digits);
    TrimRightValue(digits);
    ValuePositive(digits);
    assert Value([]) == 0;
    assert t != [];
    assert t[0] == digits[0];
    ValueNatText(t);
    ValuePositive(t);
    LastDigit(t);
  }

  lemma {:induction false} NormalOfTrimmed(m: int, k: nat, e: int)
    requires m % 10 != 0
    ensures Normal(Scaled(m * Pow10(k), e)) == Scaled(m, e + k)
    decreases k
  {
    if k > 0 {
      var x := m * Pow10(k - 1);
      TenfoldProduct(m, Pow10(k - 1));
      assert m * Pow10(k) == 10 * x;
      NormalOfTrimmed(m, k - 1, e + 1);
      NormalStep(x, e);
    }
  }

  lemma NormalStep(x: int, e: int)
    requires x != 0
    ensures Normal(Scaled(10 * x, e)) == Normal(Scaled(x, e + 1))
  {
    assert 10 * x % 10 == 0 && 10 * x / 10 == x;
  }

  lemma TenfoldProduct(m: int, p: int)
    requires m != 0 && p > 0
    ensures m * (10 * p) == 10 * (m * p) && m * p != 0
  {
  }

  // ---- the text decides the number ----

  lemma ComposeSplits(negative: bool, digits: string, exponent: int)
    requires IsDigits(digits)
    ensures var t := Compose(negative, digits, exponent);
            var head := (if negative then "-" else "") + digits;
            IndexAny(t, "eE") == |head| && t[..|head|] == head && t[|head| + 1..] == IntText(exponent)
  {
    var head := (if negative then "-" else "") + digits;
    var tail := "e" + IntText(exponent);
    hide IntText;
    IndexAnySkips(head, tail, "eE");
    assert Compose(negative, digits, exponent) == head + tail;
  }

  lemma ComposeInjective(p: bool, a: string, e: int, q: bool, b: string, f: int)
    requires IsDigits(a) && IsDigits(b) && a != [] && b != [] && Compose(p, a, e) == Compose(q, b, f)
    ensures p == q && a == b && e == f
  {
    ComposeSplits(p, a, e);
    ComposeSplits(q, b, f);
    hide Compose, IndexAny;
    IntTextInjective(e, f);
    hide IntText;
    var g, h := (if p then "-" else "") + a, (if q then "-" else "") + b;
    assert g == h;
    assert p == (g[0] == '-') && q == (h[0] == '-');
    assert a == if p then g[1..] else g;
    assert b == if q then h[1..] else h;
  }

  /** Two canonical texts are equal exactly when the rationals are. */
  lemma NormalTextDecides(x: Scaled, y: Scaled)
    ensures NormalText(x) == NormalText(y) <==> SameRational(x, y)
  {
    NormalDecides(x, y);
    var m, n := Normal(x), Normal(y);
    NormalAt(x, Min(x.exponent, 0));
    NormalAt(y, Min(y.exponent, 0));
    var a, b := NatText(Magnitude(m.mantissa)), NatText(Magnitude(n.mantissa));
    NatTextValue(Magnitude(m.mantissa));
    NatTextValue(Magnitude(n.mantissa));
    ComposeSplits(m.mantissa < 0, a, m.exponent);
    ComposeSplits(n.mantissa < 0, b, n.exponent);
    assert IndexAny("0", "eE") == -1;
    hide Compose, IndexAny, Normal, NatText, IntText, SameRational, Value;
    if NormalText(x) == NormalText(y) && m.mantissa != 0 && n.mantissa != 0 {
      ComposeInjective(m.mantissa < 0, a, m.exponent, n.mantissa < 0, b, n.exponent);
    }
  }

  /** Two number tokens normalise to the same text exactly when they denote the same rational. */
  lemma NumbersDecide(l: Literal, m: Literal)
    requires Grammar(l) && Grammar(m)
    ensures NormalText(Meaning(l)) == NormalText(Meaning(m)) <==> SameRational(Meaning(l), Meaning(m))
  {
    NormalTextDecides(Meaning(l), Meaning(m));
  }

  /** The grammar is uniquely readable, so a token has one meaning. */
  lemma RenderInjective(l: Literal, m: Literal)
    requires Grammar(l) && Grammar(m) && Render(l) == Render(m)
    ensures Meaning(l) == Meaning(m)
  {
    Pieces(l);
    Pieces(m);
    hide Grammar, Render, Value, ExponentValue, IndexAny;
  }

  // ---- which numbers are 64-bit integers ----

  /** Of the numbers of the grammar, a 64-bit parser reads exactly those without fraction and exponent whose value is in
    range, and it reads the value they denote. */
  lemma Int64Read(l: Literal)
    requires Grammar(l)
    ensures ParseInt64(Render(l)).Some? <==>
            && l.fraction.None? && l.exponent.None?
            && exists i | -0x8000_0000_0000_0000 <= i < 0x8000_0000_0000_0000 :: SameRational(Meaning(l), Scaled(i, 0))
    ensures ParseInt64(Render(l)).Some? ==> SameRational(Meaning(l), Scaled(ParseInt64(Render(l)).value, 0))
  {
    var rest := l.whole + FractionText(l) + ExponentText(l);
    SignedText(l);
    assert rest[0] == l.whole[0];
    var digits := if Render(l) != "" && (Render(l)[0] == '-' || Render(l)[0] == '+') then Render(l)[1..] else Render(l);
    assert digits == rest;
    if l.fraction.Some? || l.exponent.Some? {
      Undigital(l);
    } else {
      assert rest == l.whole && AllDigits(l) == l.whole;
      var n := if l.negative then 0 - Value(l.whole) else Value(l.whole);
      assert Meaning(l) == Scaled(n, 0);
      forall i ensures SameRational(Meaning(l), Scaled(i, 0)) <==> i == n {
        UnitScale(n, i);
      }
    }
  }

  lemma Undigital(l: Literal)
    requires Grammar(l) && (l.fraction.Some? || l.exponent.Some?)
    ensures !IsDigits(l.whole + FractionText(l) + ExponentText(l))
  {
    var rest := l.whole + FractionText(l) + ExponentText(l);
    assert rest[|l.whole|] == if l.fraction.Some? then '.' else l.exponent.value.mark;
  }

  lemma SignedText(l: Literal)
    requires Grammar(l)
    ensures Render(l) == (if l.negative then "-" else "") + (l.whole + FractionText(l) + ExponentText(l))
  {
    hide *;
    RenderParts(l);
    RegroupText(if l.negative then "-" else "", l.whole, FractionText(l), ExponentText(l));
  }

  lemma RenderParts(l: Literal)
    ensures Render(l) == ((if l.negative then "-" else "") + (l.whole + FractionText(l))) + ExponentText(l)
  {
    hide FractionText, ExponentText;
  }

  lemma RegroupText(a: string, b: string, c: string, d: string)
    ensures (a + (b + c)) + d == a + (b + c + d)
  {
  }

  lemma UnitScale(n: int, i: int)
    ensures SameRational(Scaled(n, 0), Scaled(i, 0)) <==> i == n
  {
    assert Pow10(0) == 1;
  }
}
