/** Decimal digit strings, powers of ten, and rationals written as `mantissa * 10^exponent`. */
module Decimal {
  import opened Json

  function Pow10(k: nat): (p: nat)
    ensures p > 0
  {
    if k == 0 then 1 else 10 * Pow10(k - 1)
  }

  lemma {:induction false} Pow10Add(a: nat, b: nat)
    ensures Pow10(a + b) == Pow10(a) * Pow10(b)
  {
    if a > 0 { Pow10Add(a - 1, b); }
  }

  lemma {:induction false} Pow10Monotone(a: nat, b: nat)
    requires a <= b
    ensures Pow10(a) <= Pow10(b)
    decreases b - a
  {
    if a < b { Pow10Monotone(a + 1, b); }
  }

  // ---- digit strings ----

  predicate IsDigit(c: char) { '0' <= c <= '9' }

  predicate IsDigits(s: string) { forall i | 0 <= i < |s| :: IsDigit(s[i]) }

  function DigitValue(c: char): (d: nat)
    requires IsDigit(c)
    ensures d < 10
  {
    c as int - '0' as int
  }

  function DigitChar(d: nat): (c: char)
    requires d < 10
    ensures IsDigit(c) && DigitValue(c) == d
  {
    ('0' as int + d) as char
  }

  function Value(s: string): nat
    requires IsDigits(s)
  {
    if s == [] then 0 else 10 * Value(s[..|s| - 1]) + DigitValue(s[|s| - 1])
  }

  function NatText(n: nat): (s: string)
    ensures s != [] && IsDigits(s)
  {
    if n < 10 then [DigitChar(n)] else NatText(n / 10) + [DigitChar(n % 10)]
  }

  /** Go's `big.Int.String`. */
  function IntText(i: int): string { if i < 0 then "-" + NatText(-i) else NatText(i) }

  const INT64_LIMIT := 0x8000_0000_0000_0000

  /** `strconv.ParseInt(text, 10, 64)`. */
  function ParseInt64(text: string): Option<int> {
    var negative := text != "" && text[0] == '-';
    var digits := if text != "" && (text[0] == '-' || text[0] == '+') then text[1..] else text;
    if digits == "" || !IsDigits(digits) then None
    else if negative then if Value(digits) <= INT64_LIMIT then Some(0 - Value(digits)) else None
    else if Value(digits) < INT64_LIMIT then Some(Value(digits)) else None
  }

  lemma {:induction false} NatTextValue(n: nat)
    ensures Value(NatText(n)) == n
  {
    if n < 10 {
      assert Value([]) == 0;
      assert NatText(n)[..0] == [];
    } else {
      var s := NatText(n);
      NatTextValue(n / 10);
      assert s[..|s| - 1] == NatText(n / 10);
    }
  }

  /** A digit string without a leading zero is the text of its value. */
  lemma {:induction false} ValueNatText(s: string)
    requires IsDigits(s) && s != [] && (s[0] != '0' || |s| == 1)
    ensures NatText(Value(s)) == s
    ensures |s| > 1 ==> Value(s) > 0
  {
    var init, last := s[..|s| - 1], s[|s| - 1];
    assert s == init + [last];
    if |s| == 1 {
      assert init == [];
    } else {
      ValueNatText(init);
      ValuePositive(init);
      LastDigitOf(Value(init), DigitValue(last));
    }
  }

  lemma {:induction false} ValuePositive(s: string)
    requires IsDigits(s) && s != [] && s[0] != '0'
    ensures Value(s) > 0
  {
    if |s| > 1 {
      ValuePositive(s[..|s| - 1]);
    } else {
      assert Value(s[..0]) == 0;
    }
  }

  lemma IntTextInjective(i: int, j: int)
    requires IntText(i) == IntText(j)
    ensures i == j
  {
    var m, n := if i < 0 then -i else i, if j < 0 then -j else j;
    NatTextValue(m);
    NatTextValue(n);
    assert (i < 0) == (IntText(i)[0] == '-') && (j < 0) == (IntText(j)[0] == '-');
    if i < 0 {
      assert NatText(m) == IntText(i)[1..] && NatText(n) == IntText(j)[1..];
    }
  }

  lemma {:induction false} ValueConcat(a: string, b: string)
    requires IsDigits(a) && IsDigits(b)
    ensures IsDigits(a + b) && Value(a + b) == Value(a) * Pow10(|b|) + Value(b)
  {
    if b == [] {
      assert a + b == a;
    } else {
      var init := b[..|b| - 1];
      ValueConcat(a, init);
      assert (a + b)[..|a + b| - 1] == a + init && (a + b)[|a + b| - 1] == b[|b| - 1];
      ConcatStep(Value(a), Pow10(|init|), Value(init), DigitValue(b[|b| - 1]));
    }
  }

  lemma ConcatStep(v: int, p: int, w: int, d: int)
    ensures 10 * (v * p + w) + d == v * (10 * p) + (10 * w + d)
  {
    TenTimes(v, p);
  }

  lemma TenTimes(v: int, p: int)
    ensures v * (10 * p) == 10 * (v * p)
  {
  }

  lemma {:induction false} ValueBound(s: string)
    requires IsDigits(s)
    ensures Value(s) < Pow10(|s|)
  {
    if s != [] { ValueBound(s[..|s| - 1]); }
  }

  // ---- trimming zeros ----

  /** `strings.TrimLeft(s, "0")`. */
  function TrimLeft(s: string): (t: string)
    ensures |t| <= |s| && t == s[|s| - |t|..]
    ensures t != [] ==> t[0] != '0'
  {
    if s != [] && s[0] == '0' then TrimLeft(s[1..]) else s
  }

  /** `strings.TrimRight(s, "0")`. */
  function TrimRight(s: string): (t: string)
    ensures |t| <= |s| && t == s[..|t|]
    ensures t != [] ==> t[|t| - 1] != '0'
  {
    if s != [] && s[|s| - 1] == '0' then TrimRight(s[..|s| - 1]) else s
  }

  lemma {:induction false} TrimLeftValue(s: string)
    requires IsDigits(s)
    ensures IsDigits(TrimLeft(s)) && Value(TrimLeft(s)) == Value(s)
  {
    if s != [] && s[0] == '0' {
      TrimLeftValue(s[1..]);
      LeadingZero(s);
    }
  }

  lemma {:induction false} LeadingZero(s: string)
    requires IsDigits(s) && s != [] && s[0] == '0'
    ensures Value(s[1..]) == Value(s)
  {
    if |s| == 1 {
      assert Value(s[..0]) == 0;
    } else {
      LeadingZero(s[..|s| - 1]);
      assert s[1..][..|s| - 2] == s[..|s| - 1][1..];
    }
  }

  lemma {:induction false} TrimRightValue(s: string)
    requires IsDigits(s)
    ensures IsDigits(TrimRight(s)) && Value(s) == Value(TrimRight(s)) * Pow10(|s| - |TrimRight(s)|)
  {
    if s != [] && s[|s| - 1] == '0' {
      var init := s[..|s| - 1];
      TrimRightValue(init);
      TenTimes(Value(TrimRight(init)), Pow10(|init| - |TrimRight(init)|));
    }
  }

  lemma LastDigit(s: string)
    requires IsDigits(s) && s != []
    ensures Value(s) % 10 == DigitValue(s[|s| - 1])
  {
    LastDigitOf(Value(s[..|s| - 1]), DigitValue(s[|s| - 1]));
  }

  lemma LastDigitOf(v: nat, d: nat)
    requires d < 10
    ensures (10 * v + d) % 10 == d && (10 * v + d) / 10 == v
  {
  }

  // ---- rationals with a power-of-ten denominator ----

  /** The rational `mantissa * 10^exponent`. */
  datatype Scaled = Scaled(mantissa: int, exponent: int)

  /** The rational as an integer multiple of `10^k`. */
  function At(x: Scaled, k: int): int
    requires k <= x.exponent
  {
    x.mantissa * Pow10(x.exponent - k)
  }

  function Min(a: int, b: int): int { if a <= b then a else b }

  /** Two scaled integers denote the same rational. */
  predicate SameRational(x: Scaled, y: Scaled) {
    var k := Min(x.exponent, y.exponent);
    At(x, k) == At(y, k)
  }

  predicate LessRational(x: Scaled, y: Scaled) {
    var k := Min(x.exponent, y.exponent);
    At(x, k) < At(y, k)
  }

  lemma AtShift(x: Scaled, k: int, j: int)
    requires j <= k <= x.exponent
    ensures At(x, j) == At(x, k) * Pow10(k - j)
  {
    Pow10Add(x.exponent - k, k - j);
    Associate(x.mantissa, Pow10(x.exponent - k), Pow10(k - j));
  }

  lemma Associate(a: int, b: int, c: int)
    ensures a * (b * c) == a * b * c
  {
  }

  lemma ScaleOrder(a: int, b: int, p: int)
    requires p > 0
    ensures a < b <==> a * p < b * p
    ensures a == b <==> a * p == b * p
  {
  }

  /** Any common scale may be used for the comparison. */
  lemma CommonScale(x: Scaled, y: Scaled, j: int)
    requires j <= x.exponent && j <= y.exponent
    ensures SameRational(x, y) <==> At(x, j) == At(y, j)
    ensures LessRational(x, y) <==> At(x, j) < At(y, j)
  {
    var k := Min(x.exponent, y.exponent);
    AtShift(x, k, j);
    AtShift(y, k, j);
    ScaleOrder(At(x, k), At(y, k), Pow10(k - j));
  }

  /** The representation whose mantissa is zero or not divisible by ten. */
  function Normal(x: Scaled): Scaled
    decreases if x.mantissa < 0 then -x.mantissa else x.mantissa
  {
    if x.mantissa == 0 then Scaled(0, 0)
    else if x.mantissa % 10 == 0 then Normal(Scaled(x.mantissa / 10, x.exponent + 1))
    else x
  }

  lemma AtTenfold(m: int, e: int, k: int)
    requires k <= e
    ensures At(Scaled(m, e + 1), k) == At(Scaled(10 * m, e), k)
  {
    Associate(m, 10, Pow10(e - k));
  }

  lemma {:induction false} NormalAt(x: Scaled, k: int)
    requires k <= x.exponent && k <= 0
    ensures k <= Normal(x).exponent && At(Normal(x), k) == At(x, k)
    ensures Normal(x).mantissa % 10 == 0 ==> Normal(x) == Scaled(0, 0)
    decreases if x.mantissa < 0 then -x.mantissa else x.mantissa
  {
    if x.mantissa == 0 {
      assert At(x, k) == 0 == At(Scaled(0, 0), k);
    } else if x.mantissa % 10 == 0 {
      var m := x.mantissa / 10;
      AtTenfold(m, x.exponent, k);
      hide At;
      assert x == Scaled(10 * m, x.exponent);
      NormalAt(Scaled(m, x.exponent + 1), k);
    }
  }

  /** The normal form decides equality of rationals. */
  lemma NormalDecides(x: Scaled, y: Scaled)
    ensures SameRational(x, y) <==> Normal(x) == Normal(y)
  {
    var k := Min(Min(x.exponent, y.exponent), 0);
    NormalAt(x, k);
    NormalAt(y, k);
    CommonScale(x, y, k);
    if At(Normal(x), k) == At(Normal(y), k) {
      NormalUnique(Normal(x), Normal(y), k);
    }
  }

  lemma NormalUnique(x: Scaled, y: Scaled, k: int)
    requires k <= x.exponent && k <= y.exponent && At(x, k) == At(y, k)
    requires x.mantissa % 10 == 0 ==> x == Scaled(0, 0)
    requires y.mantissa % 10 == 0 ==> y == Scaled(0, 0)
    ensures x == y
  {
    CommonScale(x, y, k);
    if x.exponent <= y.exponent {
      NormalUniqueOrdered(x, y);
    } else {
      NormalUniqueOrdered(y, x);
    }
  }

  lemma NormalUniqueOrdered(x: Scaled, y: Scaled)
    requires x.exponent <= y.exponent && SameRational(x, y)
    requires x.mantissa % 10 == 0 ==> x == Scaled(0, 0)
    requires y.mantissa % 10 == 0 ==> y == Scaled(0, 0)
    ensures x == y
  {
    var d := y.exponent - x.exponent;
    assert x.mantissa == y.mantissa * Pow10(d);
    if d > 0 {
      ScaleOrder(0, y.mantissa, Pow10(d));
      TenTimes(y.mantissa, Pow10(d - 1));
      TenDivides(y.mantissa * Pow10(d - 1));
    }
  }

  lemma TenDivides(m: int)
    ensures 10 * m % 10 == 0
  {
  }
}
