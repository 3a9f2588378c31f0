/** UTF-8 and UTF-16 encodings of scalar strings, and the two key orders built on them.

  A Dafny `char` is a Unicode scalar value, so a `string` is exactly a string that passes the
  validity test both printers make before they write it. */
module Unicode {

  type Byte = b: int | 0 <= b < 256

  /** Go's `utf16.Encode` on one rune. */
  function Utf16Units(c: char): (units: seq<int>)
    ensures 1 <= |units| <= 2
  {
    var v := c as int;
    if v < 0x1_0000 then [v]
    else [0xD800 + (v - 0x1_0000) / 0x400, 0xDC00 + (v - 0x1_0000) % 0x400]
  }

  function Utf16(s: string): seq<int> {
    if s == [] then [] else Utf16Units(s[0]) + Utf16(s[1..])
  }

  /** The encoding of section 3 of RFC 3629. */
  function Utf8Bytes(c: char): (bytes: seq<Byte>)
    ensures 1 <= |bytes| <= 4
  {
    var v := c as int;
    if v < 0x80 then [v]
    else if v < 0x800 then [0xC0 + v / 0x40, 0x80 + v % 0x40]
    else if v < 0x1_0000 then [0xE0 + v / 0x1000, 0x80 + v / 0x40 % 0x40, 0x80 + v % 0x40]
    else [0xF0 + v / 0x4_0000, 0x80 + v / 0x1000 % 0x40, 0x80 + v / 0x40 % 0x40, 0x80 + v % 0x40]
  }

  function Utf8(s: string): seq<Byte> {
    if s == [] then [] else Utf8Bytes(s[0]) + Utf8(s[1..])
  }

  /** Lexicographic order on code units: the first difference decides, else the shorter is less. */
  predicate LexLess(a: seq<int>, b: seq<int>) {
    if b == [] then false
    else if a == [] then true
    else if a[0] != b[0] then a[0] < b[0]
    else LexLess(a[1..], b[1..])
  }

  /** `a` stands before `b`: after a common beginning of length `k` either `a` is at its end and `b` goes on, or the
    next unit of `a` is the smaller one. */
  ghost predicate Precedes(a: seq<int>, b: seq<int>) {
    exists k :: PrecedesAt(a, b, k)
  }

  ghost predicate PrecedesAt(a: seq<int>, b: seq<int>, k: int) {
    && 0 <= k <= |a| && k <= |b| && (forall i | 0 <= i < k :: a[i] == b[i])
    && ((k == |a| && k < |b|) || (k < |a| && k < |b| && a[k] < b[k]))
  }

  /** The index loop of the source: true exactly when the left encoding precedes the right one. */
  method Utf16Less(left: string, right: string) returns (less: bool)
    ensures less <==> Precedes(Utf16(left), Utf16(right))
    ensures less == LexLess(Utf16(left), Utf16(right))
  {
    LexPrecedes(Utf16(left), Utf16(right));
    var a := Utf16(left);
    var b := Utf16(right);
    var index := 0;
    while index < |a| && index < |b|
      invariant 0 <= index <= |a| && index <= |b|
      invariant LexLess(a, b) == LexLess(a[index..], b[index..])
    {
      if a[index] != b[index] {
        return a[index] < b[index];
      }
      index := index + 1;
    }
    return |a| < |b|;
  }

  // ---- the recursive comparison decides which of two sequences stands first ----

  lemma {:induction false} LexPrecedes(a: seq<int>, b: seq<int>)
    ensures LexLess(a, b) <==> Precedes(a, b)
  {
    if a == [] || b == [] {
      assert b != [] ==> PrecedesAt(a, b, 0);
    } else if a[0] != b[0] {
      assert a[0] < b[0] ==> PrecedesAt(a, b, 0);
    } else {
      LexPrecedes(a[1..], b[1..]);
      if k :| PrecedesAt(a[1..], b[1..], k) {
        PrecedesPushed(a, b, k);
      }
      if k :| PrecedesAt(a, b, k) {
        PrecedesDropped(a, b, k);
      }
    }
  }

  lemma PrecedesPushed(a: seq<int>, b: seq<int>, k: int)
    requires a != [] && b != [] && a[0] == b[0] && PrecedesAt(a[1..], b[1..], k)
    ensures PrecedesAt(a, b, k + 1)
  {
    forall i | 0 <= i < k + 1 ensures a[i] == b[i] {
      if i > 0 { assert a[1..][i - 1] == b[1..][i - 1]; }
    }
  }

  lemma PrecedesDropped(a: seq<int>, b: seq<int>, k: int)
    requires a != [] && b != [] && a[0] == b[0] && PrecedesAt(a, b, k)
    ensures PrecedesAt(a[1..], b[1..], k - 1)
  {
    assert k > 0;
  }

  // ---- lexicographic order is a strict total order ----

  lemma {:induction false} LexIrreflexive(a: seq<int>)
    ensures !LexLess(a, a)
  {
    if a != [] { LexIrreflexive(a[1..]); }
  }

  lemma {:induction false} LexTransitive(a: seq<int>, b: seq<int>, c: seq<int>)
    requires LexLess(a, b) && LexLess(b, c)
    ensures LexLess(a, c)
  {
    if a != [] && a[0] == b[0] == c[0] { LexTransitive(a[1..], b[1..], c[1..]); }
  }

  lemma {:induction false} LexTotal(a: seq<int>, b: seq<int>)
    ensures a == b || LexLess(a, b) || LexLess(b, a)
  {
    if a != [] && b != [] && a[0] == b[0] {
      LexTotal(a[1..], b[1..]);
      assert a == [a[0]] + a[1..] && b == [b[0]] + b[1..];
    }
  }

  /** A common prefix does not take part in the comparison. */
  lemma {:induction false} LexSkip(p: seq<int>, a: seq<int>, b: seq<int>)
    ensures LexLess(p + a, p + b) == LexLess(a, b)
  {
    if p == [] {
      assert p + a == a && p + b == b;
    } else {
      assert (p + a)[1..] == p[1..] + a && (p + b)[1..] == p[1..] + b;
      LexSkip(p[1..], a, b);
    }
  }

  // ---- both encodings are prefix codes, hence injective ----

  lemma Utf16Head(c: char, x: seq<int>, d: char, y: seq<int>)
    requires Utf16Units(c) + x == Utf16Units(d) + y
    ensures c == d && x == y
  {
    var u, w := Utf16Units(c) + x, Utf16Units(d) + y;
    assert u[0] == Utf16Units(c)[0] && w[0] == Utf16Units(d)[0];
    assert (c as int < 0x1_0000) == (d as int < 0x1_0000);
    if c as int >= 0x1_0000 {
      assert u[1] == Utf16Units(c)[1] && w[1] == Utf16Units(d)[1];
    }
    assert c as int == d as int;
    assert x == u[|Utf16Units(c)|..] && y == w[|Utf16Units(d)|..];
  }

  lemma Utf8Length(c: char)
    ensures |Utf8Bytes(c)| ==
      var b := Utf8Bytes(c)[0]; if b < 0x80 then 1 else if b < 0xE0 then 2 else if b < 0xF0 then 3 else 4
  {
  }

  lemma Utf8Head(c: char, x: seq<Byte>, d: char, y: seq<Byte>)
    requires Utf8Bytes(c) + x == Utf8Bytes(d) + y
    ensures c == d && x == y
  {
    var u, w := Utf8Bytes(c) + x, Utf8Bytes(d) + y;
    assert u[0] == Utf8Bytes(c)[0] && w[0] == Utf8Bytes(d)[0];
    Utf8Length(c);
    Utf8Length(d);
    var n := |Utf8Bytes(c)|;
    assert u[..n] == Utf8Bytes(c) && w[..n] == Utf8Bytes(d);
    Utf8CharInjective(c, d);
    assert x == u[n..] && y == w[n..];
  }

  /** The base-64 digits that UTF-8 spreads over its bytes determine the number. */
  lemma Radix64(v: nat)
    ensures v == v / 0x40 * 0x40 + v % 0x40
    ensures v / 0x40 == v / 0x1000 * 0x40 + v / 0x40 % 0x40
    ensures v / 0x1000 == v / 0x4_0000 * 0x40 + v / 0x1000 % 0x40
  {
  }

  lemma Utf8CharInjective(c: char, d: char)
    requires Utf8Bytes(c) == Utf8Bytes(d)
    ensures c == d
  {
    var p, q := Utf8Bytes(c), Utf8Bytes(d);
    var v, w := c as int, d as int;
    Radix64(v);
    Radix64(w);
    assert p[0] == q[0];
    assert |p| > 1 ==> p[1] == q[1];
    assert |p| > 2 ==> p[2] == q[2];
    assert |p| > 3 ==> p[3] == q[3];
    assert v == w;
  }

  /** What section 3 of RFC 3629 asks of an encoded scalar: the first byte tells the length, each further byte carries six
    bits, the carried bits are the scalar, and no shorter form would do. */
  lemma Utf8Standard(c: char)
    ensures var b: seq<int>, v := Utf8Bytes(c), c as int;
            match |b|
            case 1 => b[0] < 0x80 && v == b[0]
            case 2 => 0xC0 <= b[0] < 0xE0 && v >= 0x80 && v == Carried(b[0] - 0xC0, b[1..])
            case 3 => 0xE0 <= b[0] < 0xF0 && v >= 0x800 && v == Carried(b[0] - 0xE0, b[1..])
            case _ => 0xF0 <= b[0] < 0xF8 && v >= 0x1_0000 && v == Carried(b[0] - 0xF0, b[1..])
    ensures forall i | 0 < i < |Utf8Bytes(c)| :: 0x80 <= Utf8Bytes(c)[i] < 0xC0
  {
    var b: seq<int> := Utf8Bytes(c);
    Radix64(c as int);
    if |b| == 2 {
      assert b[1..] == [b[1]];
    } else if |b| == 3 {
      assert b[1..] == [b[1]] + [b[2]];
      CarriedStep(b[0] - 0xE0, b[1], [b[2]]);
    } else if |b| == 4 {
      assert b[1..] == [b[1]] + ([b[2]] + [b[3]]);
      CarriedStep(b[0] - 0xF0, b[1], [b[2]] + [b[3]]);
      CarriedStep((b[0] - 0xF0) * 0x40 + (b[1] - 0x80), b[2], [b[3]]);
    }
  }

  lemma CarriedStep(first: int, next: int, rest: seq<int>)
    ensures Carried(first, [next] + rest) == Carried(first * 0x40 + (next - 0x80), rest)
  {
    assert ([next] + rest)[1..] == rest;
  }

  /** The number whose leading bits are `first`, followed by six bits of each byte. */
  function Carried(first: int, rest: seq<int>): int
    decreases |rest|
  {
    if rest == [] then first else Carried(first * 0x40 + (rest[0] - 0x80), rest[1..])
  }

  /** A scalar of the Basic Multilingual Plane is its own unit; any other is a high and a low surrogate that carry ten
    bits each. */
  lemma Utf16Standard(c: char)
    ensures var u := Utf16Units(c);
            if Supplementary(c) then
              |u| == 2 && 0xD800 <= u[0] < 0xDC00 <= u[1] < 0xE000 &&
              c as int == 0x1_0000 + (u[0] - 0xD800) * 0x400 + (u[1] - 0xDC00)
            else u == [c as int]
  {
  }

  lemma {:induction false} Utf16Injective(s: string, t: string)
    requires Utf16(s) == Utf16(t)
    ensures s == t
  {
    if s != [] && t != [] {
      Utf16Head(s[0], Utf16(s[1..]), t[0], Utf16(t[1..]));
      Utf16Injective(s[1..], t[1..]);
      assert s == [s[0]] + s[1..] && t == [t[0]] + t[1..];
    }
  }

  lemma {:induction false} Utf8Injective(s: string, t: string)
    requires Utf8(s) == Utf8(t)
    ensures s == t
  {
    if s != [] && t != [] {
      Utf8Head(s[0], Utf8(s[1..]), t[0], Utf8(t[1..]));
      Utf8Injective(s[1..], t[1..]);
      assert s == [s[0]] + s[1..] && t == [t[0]] + t[1..];
    }
  }

  lemma {:induction false} Utf8Concat(s: string, t: string)
    ensures Utf8(s + t) == Utf8(s) + Utf8(t)
  {
    if s == [] {
      assert s + t == t;
    } else {
      assert (s + t)[1..] == s[1..] + t;
      Utf8Concat(s[1..], t);
    }
  }

  // ---- the key orders ----

  /** The order canonical.go sorts object keys by (section 3.2.3 of RFC 8785). */
  predicate KeyLess16(s: string, t: string) { LexLess(Utf16(s), Utf16(t)) }

  /** The order of Go's `sort.Strings`: bytewise, used by the research printer. */
  predicate KeyLess8(s: string, t: string) { LexLess(Utf8(s), Utf8(t)) }

  /** Both key orders in terms of the encodings alone. */
  lemma KeyOrdersPrecede(s: string, t: string)
    ensures KeyLess16(s, t) <==> Precedes(Utf16(s), Utf16(t))
    ensures KeyLess8(s, t) <==> Precedes(Utf8(s), Utf8(t))
  {
    LexPrecedes(Utf16(s), Utf16(t));
    LexPrecedes(Utf8(s), Utf8(t));
  }

  lemma {:induction false} Utf16Concat(s: string, t: string)
    ensures Utf16(s + t) == Utf16(s) + Utf16(t)
  {
    if s == [] {
      assert s + t == t;
    } else {
      assert (s + t)[1..] == s[1..] + t;
      Utf16Concat(s[1..], t);
    }
  }

  /** A key stands before every longer key that starts with it. */
  lemma PrefixFirst(s: string, t: string)
    requires t != []
    ensures KeyLess16(s, s + t) && KeyLess8(s, s + t)
    ensures !KeyLess16(s + t, s) && !KeyLess8(s + t, s)
  {
    Utf16Concat(s, t);
    Utf8Concat(s, t);
    LexSkip(Utf16(s), [], Utf16(t));
    LexSkip(Utf8(s), [], Utf8(t));
    LexSkip(Utf16(s), Utf16(t), []);
    LexSkip(Utf8(s), Utf8(t), []);
    assert Utf16(s) + [] == Utf16(s) && Utf8(s) + [] == Utf8(s);
  }

  lemma KeyLess16IsStrictTotalOrder(r: string, s: string, t: string)
    ensures !KeyLess16(s, s)
    ensures KeyLess16(r, s) && KeyLess16(s, t) ==> KeyLess16(r, t)
    ensures s == t || KeyLess16(s, t) || KeyLess16(t, s)
    ensures !(KeyLess16(s, t) && KeyLess16(t, s))
  {
    LexIrreflexive(Utf16(s));
    if KeyLess16(r, s) && KeyLess16(s, t) { LexTransitive(Utf16(r), Utf16(s), Utf16(t)); }
    LexTotal(Utf16(s), Utf16(t));
    if Utf16(s) == Utf16(t) { Utf16Injective(s, t); }
    if KeyLess16(s, t) && KeyLess16(t, s) { LexTransitive(Utf16(s), Utf16(t), Utf16(s)); }
  }

  lemma KeyLess8IsStrictTotalOrder(r: string, s: string, t: string)
    ensures !KeyLess8(s, s)
    ensures KeyLess8(r, s) && KeyLess8(s, t) ==> KeyLess8(r, t)
    ensures s == t || KeyLess8(s, t) || KeyLess8(t, s)
    ensures !(KeyLess8(s, t) && KeyLess8(t, s))
  {
    LexIrreflexive(Utf8(s));
    if KeyLess8(r, s) && KeyLess8(s, t) { LexTransitive(Utf8(r), Utf8(s), Utf8(t)); }
    LexTotal(Utf8(s), Utf8(t));
    if Utf8(s) == Utf8(t) { Utf8Injective(s, t); }
    if KeyLess8(s, t) && KeyLess8(t, s) { LexTransitive(Utf8(s), Utf8(t), Utf8(s)); }
  }

  // ---- where the two orders differ ----

  predicate Supplementary(c: char) { c as int >= 0x1_0000 }

  predicate AboveSurrogates(c: char) { 0xE000 <= c as int < 0x1_0000 }

  predicate Crosses(c: char, d: char) {
    (Supplementary(c) && AboveSurrogates(d)) || (AboveSurrogates(c) && Supplementary(d))
  }

  /** At the first difference one string has a supplementary scalar and the other a scalar above the
    surrogate block, so that UTF-16 reverses the order of UTF-8. */
  predicate OrdersCross(s: string, t: string) {
    s != [] && t != [] &&
    if s[0] == t[0] then OrdersCross(s[1..], t[1..]) else Crosses(s[0], t[0])
  }

  lemma Utf8CharOrder(c: char, x: seq<Byte>, d: char, y: seq<Byte>)
    requires c != d
    ensures LexLess(Utf8Bytes(c) + x, Utf8Bytes(d) + y) == ((c as int) < d as int)
  {
    if (c as int) < d as int {
      Utf8CharLess(c, x, d, y);
    } else {
      Utf8CharLess(d, y, c, x);
      LexIrreflexive(Utf8Bytes(c) + x);
      if LexLess(Utf8Bytes(c) + x, Utf8Bytes(d) + y) {
        LexTransitive(Utf8Bytes(c) + x, Utf8Bytes(d) + y, Utf8Bytes(c) + x);
      }
    }
  }

  /** The first differing position of two unequal unit sequences decides. */
  lemma {:induction false} LexAt(a: seq<int>, b: seq<int>, k: nat)
    requires k < |a| && k < |b| && a[..k] == b[..k] && a[k] < b[k]
    ensures LexLess(a, b)
  {
    if k > 0 {
      assert a[0] == a[..k][0] && b[0] == b[..k][0];
      assert a[1..][..k - 1] == a[..k][1..] && b[1..][..k - 1] == b[..k][1..];
      LexAt(a[1..], b[1..], k - 1);
    }
  }

  lemma Utf8CharLess(c: char, x: seq<Byte>, d: char, y: seq<Byte>)
    requires (c as int) < d as int
    ensures LexLess(Utf8Bytes(c) + x, Utf8Bytes(d) + y)
  {
    var p, q := Utf8Bytes(c), Utf8Bytes(d);
    var a, b := p + x, q + y;
    assert forall i | 0 <= i < |p| :: a[i] == p[i];
    assert forall i | 0 <= i < |q| :: b[i] == q[i];
    Utf8CharDiffers(c, d);
    var k :| 0 <= k < |p| && k < |q| && p[..k] == q[..k] && p[k] < q[k];
    assert a[..k] == p[..k] && b[..k] == q[..k];
    LexAt(a, b, k);
  }

  lemma Utf8CharDiffers(c: char, d: char)
    requires (c as int) < d as int
    ensures exists k :: 0 <= k < |Utf8Bytes(c)| && k < |Utf8Bytes(d)| &&
                        Utf8Bytes(c)[..k] == Utf8Bytes(d)[..k] && Utf8Bytes(c)[k] < Utf8Bytes(d)[k]
  {
    var p, q := Utf8Bytes(c), Utf8Bytes(d);
    if |p| < |q| || p[0] < q[0] {
      assert p[..0] == q[..0];
    } else {
      assert |p| == |q| && p[0] == q[0];
      if |p| == 2 {
        assert p[..1] == q[..1];
      } else if |p| == 3 {
        Utf8ThreeDiffers(c, d);
      } else {
        Utf8FourDiffers(c, d);
      }
    }
  }

  lemma Utf8ThreeDiffers(c: char, d: char)
    requires (c as int) < d as int && |Utf8Bytes(c)| == |Utf8Bytes(d)| == 3
    requires Utf8Bytes(c)[0] == Utf8Bytes(d)[0]
    ensures exists k :: 0 <= k < 3 &&
                        Utf8Bytes(c)[..k] == Utf8Bytes(d)[..k] && Utf8Bytes(c)[k] < Utf8Bytes(d)[k]
  {
    var p, q := Utf8Bytes(c), Utf8Bytes(d);
    Radix64(c as int);
    Radix64(d as int);
    assert p[1] < q[1] || (p[1] == q[1] && p[2] < q[2]);
    FirstDifference(p, q, if p[1] < q[1] then 1 else 2);
  }

  lemma Utf8FourDiffers(c: char, d: char)
    requires (c as int) < d as int && |Utf8Bytes(c)| == |Utf8Bytes(d)| == 4
    requires Utf8Bytes(c)[0] == Utf8Bytes(d)[0]
    ensures exists k :: 0 <= k < 4 &&
                        Utf8Bytes(c)[..k] == Utf8Bytes(d)[..k] && Utf8Bytes(c)[k] < Utf8Bytes(d)[k]
  {
    var p, q := Utf8Bytes(c), Utf8Bytes(d);
    Radix64(c as int);
    Radix64(d as int);
    assert p[1] < q[1] || (p[1] == q[1] && (p[2] < q[2] || (p[2] == q[2] && p[3] < q[3])));
    FirstDifference(p, q, if p[1] < q[1] then 1 else if p[2] < q[2] then 2 else 3);
  }

  lemma FirstDifference(p: seq<Byte>, q: seq<Byte>, n: nat)
    requires n < |p| == |q| && p[n] < q[n] && forall i | 0 <= i < n :: p[i] == q[i]
    ensures exists k :: 0 <= k < |p| && p[..k] == q[..k] && p[k] < q[k]
  {
    assert p[..n] == q[..n];
  }

  lemma Utf16CharOrder(c: char, x: seq<int>, d: char, y: seq<int>)
    requires c != d
    ensures LexLess(Utf16Units(c) + x, Utf16Units(d) + y) == (((c as int) < d as int) != Crosses(c, d))
  {
    var a, b := Utf16Units(c) + x, Utf16Units(d) + y;
    assert a[0] == Utf16Units(c)[0] && b[0] == Utf16Units(d)[0];
    if a[0] == b[0] {
      assert Supplementary(c) && Supplementary(d);
      assert a[1..][0] == Utf16Units(c)[1] && b[1..][0] == Utf16Units(d)[1];
      assert c as int == 0x1_0000 + (a[0] - 0xD800) * 0x400 + (a[1] - 0xDC00);
      assert d as int == 0x1_0000 + (b[0] - 0xD800) * 0x400 + (b[1] - 0xDC00);
    }
  }

  /** The two key orders agree on exactly the pairs that do not cross. */
  lemma {:induction false} KeyOrdersAgree(s: string, t: string)
    ensures KeyLess8(s, t) == KeyLess16(s, t) <==> !OrdersCross(s, t)
  {
    if s == [] || t == [] {
    } else if s[0] == t[0] {
      LexSkip(Utf8Bytes(s[0]), Utf8(s[1..]), Utf8(t[1..]));
      LexSkip(Utf16Units(s[0]), Utf16(s[1..]), Utf16(t[1..]));
      KeyOrdersAgree(s[1..], t[1..]);
    } else {
      Utf8CharOrder(s[0], Utf8(s[1..]), t[0], Utf8(t[1..]));
      Utf16CharOrder(s[0], Utf16(s[1..]), t[0], Utf16(t[1..]));
    }
  }

  /** On the Basic Multilingual Plane the orders always agree. */
  lemma {:induction false} BmpNeverCrosses(s: string, t: string)
    requires forall c | c in s + t :: !Supplementary(c)
    ensures !OrdersCross(s, t)
  {
    if s != [] && t != [] {
      assert s[0] in s + t && t[0] in s + t;
      forall c | c in s[1..] + t[1..] ensures c in s + t {}
      BmpNeverCrosses(s[1..], t[1..]);
    }
  }
}
