/** Ordered JSON documents, their text, and the proof that the text is uniquely readable. */
module CanonicalText {
  import opened Json
  import opened Sequences

  /** A JSON document whose members have an order and whose numbers are already text. */
  datatype Doc =
    | DNull
    | DBool(b: bool)
    | DStr(s: string)
    | DNum(text: string)
    | DArr(items: seq<Doc>)
    | DObj(members: seq<Member>)

  datatype Member = Member(key: string, value: Doc)

  const HEX_DIGITS := "0123456789abcdef"

  /** Section 3.2.2.2 of RFC 8785. */
  function Escape(c: char): (text: string)
    ensures |text| > 0 && text[0] != '"'
  {
    if c == '"' || c == '\\' then ['\\', c]
    else if c == '\U{8}' then "\\b"
    else if c == '\t' then "\\t"
    else if c == '\n' then "\\n"
    else if c == '\U{C}' then "\\f"
    else if c == '\r' then "\\r"
    else if c as int <= 0x1F then "\\u00" + [HEX_DIGITS[c as int / 16], HEX_DIGITS[c as int % 16]]
    else [c]
  }

  /** The rest of a string literal after its opening quote. */
  function Body(s: string): (text: string)
    ensures |text| > 0
  {
    if s == [] then "\"" else Escape(s[0]) + Body(s[1..])
  }

  /** The escaped characters of a string without its quotes. */
  function EscapeAll(s: string): string {
    if s == [] then "" else Escape(s[0]) + EscapeAll(s[1..])
  }

  lemma {:induction false} BodyIsEscapeAll(s: string)
    ensures Body(s) == EscapeAll(s) + "\""
  {
    if s != [] { BodyIsEscapeAll(s[1..]); }
  }

  lemma {:induction false} EscapeAllConcat(s: string, t: string)
    ensures EscapeAll(s + t) == EscapeAll(s) + EscapeAll(t)
  {
    if s == [] {
      assert s + t == t;
    } else {
      assert (s + t)[1..] == s[1..] + t;
      EscapeAllConcat(s[1..], t);
    }
  }

  function StringText(s: string): string { "\"" + Body(s) }

  function Text(d: Doc): string
    decreases d, 1
  {
    match d
    case DNull => "null"
    case DBool(b) => if b then "true" else "false"
    case DStr(s) => StringText(s)
    case DNum(text) => text
    case DArr(items) => "[" + ItemsText(items, true)
    case DObj(members) => "{" + MembersText(members, true)
  }

  /** The remaining items of an array with their separators and the closing bracket. */
  function ItemsText(items: seq<Doc>, first: bool): (text: string)
    decreases items, 0
  {
    if items == [] then "]"
    else Comma(first) + Text(items[0]) + ItemsText(items[1..], false)
  }

  function MembersText(members: seq<Member>, first: bool): (text: string)
    decreases members, 0
  {
    if members == [] then "}"
    else Comma(first) + StringText(members[0].key) + ":" + Text(members[0].value)
         + MembersText(members[1..], false)
  }

  predicate WellFormed(d: Doc) {
    match d
    case DNum(text) => NumberText(text)
    case DArr(items) => forall i | 0 <= i < |items| :: WellFormed(items[i])
    case DObj(members) => forall i | 0 <= i < |members| :: WellFormed(members[i].value)
    case _ => true
  }

  /** What may follow a value inside or after a document. */
  predicate Delimited(rest: string) {
    rest == [] || rest[0] == ',' || rest[0] == ']' || rest[0] == '}'
  }

  // ---- sequence steps ----

  /** `(p + q) + r` may be read after dropping `p`. */
  lemma After(p: string, q: string, r: string)
    ensures (p + q + r)[|p|..] == q + r
    ensures p != [] ==> (p + q + r)[0] == p[0]
  {
    assert p + q + r == p + (q + r);
  }

  lemma Cancel(p: string, x: string, y: string)
    requires p + x == p + y
    ensures x == y
  {
    assert x == (p + x)[|p|..] && y == (p + y)[|p|..];
  }

  lemma FirstOf(p: string, x: string)
    requires p != []
    ensures (p + x)[0] == p[0]
  {
  }

  // ---- string literals ----

  lemma EscapeRead(c: char, x: string, d: char, y: string)
    requires Escape(c) + x == Escape(d) + y
    ensures c == d && x == y
  {
    var u, w := Escape(c) + x, Escape(d) + y;
    assert u[0] == Escape(c)[0] && w[0] == Escape(d)[0];
    if u[0] == '\\' {
      assert u[1] == Escape(c)[1] && w[1] == Escape(d)[1];
      if u[1] == 'u' {
        assert u[4] == Escape(c)[4] && w[4] == Escape(d)[4];
        assert u[5] == Escape(c)[5] && w[5] == Escape(d)[5];
        HexDigitsDistinct(c as int, d as int);
      }
    }
    assert c == d;
    Cancel(Escape(c), x, y);
  }

  lemma HexDigitsDistinct(i: int, j: int)
    requires 0 <= i < 256 && 0 <= j < 256
    requires HEX_DIGITS[i / 16] == HEX_DIGITS[j / 16] && HEX_DIGITS[i % 16] == HEX_DIGITS[j % 16]
    ensures i == j
  {
    assert forall a, b | 0 <= a < 16 && 0 <= b < 16 :: HEX_DIGITS[a] == HEX_DIGITS[b] ==> a == b;
  }

  lemma {:induction false} BodyRead(s: string, x: string, t: string, y: string)
    requires Body(s) + x == Body(t) + y
    ensures s == t && x == y
  {
    FirstOf(Body(s), x);
    FirstOf(Body(t), y);
    BodyStart(s);
    BodyStart(t);
    if s == [] {
      Cancel("\"", x, y);
    } else {
      After(Escape(s[0]), Body(s[1..]), x);
      After(Escape(t[0]), Body(t[1..]), y);
      BodyStep(s, x);
      BodyStep(t, y);
      EscapeRead(s[0], Body(s[1..]) + x, t[0], Body(t[1..]) + y);
      BodyRead(s[1..], x, t[1..], y);
      Rejoin(s, t);
    }
  }

  lemma BodyStart(s: string)
    ensures (Body(s)[0] == '"') == (s == [])
  {
  }

  lemma BodyStep(s: string, x: string)
    requires s != []
    ensures Body(s) + x == Escape(s[0]) + (Body(s[1..]) + x)
  {
    assert Body(s) == Escape(s[0]) + Body(s[1..]);
    hide *;
    Regroup(Escape(s[0]), Body(s[1..]), x);
  }

  lemma Rejoin<T>(s: seq<T>, t: seq<T>)
    requires s != [] && t != [] && s[0] == t[0] && s[1..] == t[1..]
    ensures s == t
  {
    assert s == [s[0]] + s[1..] && t == [t[0]] + t[1..];
  }

  lemma StringRead(s: string, x: string, t: string, y: string)
    requires StringText(s) + x == StringText(t) + y
    ensures s == t && x == y
  {
    After("\"", Body(s), x);
    After("\"", Body(t), y);
    BodyRead(s, x, t, y);
  }

  // ---- numbers ----

  /** How many number characters a text starts with. */
  function Span(s: string): (n: nat)
    ensures n <= |s|
  {
    if s == [] || !NumberChar(s[0]) then 0 else 1 + Span(s[1..])
  }

  lemma {:induction false} SpanOfNumber(m: string, x: string)
    requires (forall c | c in m :: NumberChar(c)) && Delimited(x)
    ensures Span(m + x) == |m|
  {
    if m == [] {
      assert m + x == x;
    } else {
      assert (m + x)[1..] == m[1..] + x;
      SpanOfNumber(m[1..], x);
    }
  }

  lemma NumberRead(m: string, x: string, n: string, y: string)
    requires NumberText(m) && NumberText(n) && Delimited(x) && Delimited(y) && m + x == n + y
    ensures m == n && x == y
  {
    SpanOfNumber(m, x);
    SpanOfNumber(n, y);
    assert m == (m + x)[..|m|] && n == (n + y)[..|n|];
    Cancel(m, x, y);
  }

  // ---- documents ----

  /** The first character of a document's text tells its kind. */
  function Kind(c: char): int {
    match c
    case 'n' => 0
    case 't' => 1
    case 'f' => 2
    case '"' => 3
    case '[' => 4
    case '{' => 5
    case _ => if '0' <= c <= '9' || c == '-' then 6 else 7
  }

  function KindOf(d: Doc): int {
    match d
    case DNull => 0
    case DBool(b) => if b then 1 else 2
    case DStr(_) => 3
    case DArr(_) => 4
    case DObj(_) => 5
    case DNum(_) => 6
  }

  lemma TextStart(d: Doc, x: string)
    requires WellFormed(d)
    ensures |Text(d)| > 0
    ensures Kind((Text(d) + x)[0]) == KindOf(d)
  {
  }

  /** Unique readability: a document's text followed by a delimiter can be read in one way only. */
  lemma {:induction false} TextRead(a: Doc, x: string, b: Doc, y: string)
    requires WellFormed(a) && WellFormed(b) && Delimited(x) && Delimited(y)
    requires Text(a) + x == Text(b) + y
    ensures a == b && x == y
    decreases a, 1
  {
    TextStart(a, x);
    TextStart(b, y);
    match a {
      case DNull => Cancel("null", x, y);
      case DBool(p) => Cancel(Text(a), x, y);
      case DStr(s) => StringRead(s, x, b.s, y);
      case DNum(m) => NumberRead(m, x, b.text, y);
      case DArr(items) =>
        After("[", ItemsText(items, true), x);
        After("[", ItemsText(b.items, true), y);
        ItemsRead(items, x, b.items, y, true);
      case DObj(members) =>
        After("{", MembersText(members, true), x);
        After("{", MembersText(b.members, true), y);
        MembersRead(members, x, b.members, y, true);
    }
  }

  function Comma(first: bool): string { if first then "" else "," }

  lemma {:induction false} ItemsRead(a: seq<Doc>, x: string, b: seq<Doc>, y: string, first: bool)
    requires forall i | 0 <= i < |a| :: WellFormed(a[i])
    requires forall i | 0 <= i < |b| :: WellFormed(b[i])
    requires ItemsText(a, first) + x == ItemsText(b, first) + y
    ensures a == b && x == y
    decreases a, 0
  {
    ItemsStart(a, first, x);
    ItemsStart(b, first, y);
    if a == [] {
      Cancel("]", x, y);
    } else {
      var p, q := ItemsText(a[1..], false) + x, ItemsText(b[1..], false) + y;
      ItemsStep(a, first, x);
      ItemsStep(b, first, y);
      Cancel(Comma(first), Text(a[0]) + p, Text(b[0]) + q);
      ItemsStart(a[1..], false, x);
      ItemsStart(b[1..], false, y);
      TextRead(a[0], p, b[0], q);
      ItemsRead(a[1..], x, b[1..], y, false);
      Rejoin(a, b);
    }
  }

  lemma ItemsStep(a: seq<Doc>, first: bool, x: string)
    requires a != []
    ensures ItemsText(a, first) + x == Comma(first) + (Text(a[0]) + (ItemsText(a[1..], false) + x))
  {
    assert ItemsText(a, first) == Comma(first) + Text(a[0]) + ItemsText(a[1..], false);
    hide *;
    Regroup(Comma(first) + Text(a[0]), ItemsText(a[1..], false), x);
    Regroup(Comma(first), Text(a[0]), ItemsText(a[1..], false) + x);
  }

  lemma ItemsStart(a: seq<Doc>, first: bool, x: string)
    requires forall i | 0 <= i < |a| :: WellFormed(a[i])
    ensures |ItemsText(a, first)| > 0
    ensures ((ItemsText(a, first) + x)[0] == ']') == (a == [])
    ensures !first ==> Delimited(ItemsText(a, first) + x)
  {
    if a != [] {
      TextStart(a[0], ItemsText(a[1..], false) + x);
      ItemsStep(a, first, x);
    }
  }

  lemma {:induction false} MembersRead(a: seq<Member>, x: string, b: seq<Member>, y: string, first: bool)
    requires forall i | 0 <= i < |a| :: WellFormed(a[i].value)
    requires forall i | 0 <= i < |b| :: WellFormed(b[i].value)
    requires MembersText(a, first) + x == MembersText(b, first) + y
    ensures a == b && x == y
    decreases a, 0
  {
    MembersStart(a, first, x);
    MembersStart(b, first, y);
    if a == [] {
      Cancel("}", x, y);
    } else {
      var p, q := MembersText(a[1..], false) + x, MembersText(b[1..], false) + y;
      var pa, pb := Text(a[0].value) + p, Text(b[0].value) + q;
      MembersStep(a, first, x);
      MembersStep(b, first, y);
      Cancel(Comma(first), StringText(a[0].key) + (":" + pa), StringText(b[0].key) + (":" + pb));
      StringRead(a[0].key, ":" + pa, b[0].key, ":" + pb);
      Cancel(":", pa, pb);
      MembersStart(a[1..], false, x);
      MembersStart(b[1..], false, y);
      TextRead(a[0].value, p, b[0].value, q);
      MembersRead(a[1..], x, b[1..], y, false);
      Rejoin(a, b);
    }
  }

  lemma MembersStep(a: seq<Member>, first: bool, x: string)
    requires a != []
    ensures MembersText(a, first) + x ==
            Comma(first) + (StringText(a[0].key) + (":" + (Text(a[0].value) + (MembersText(a[1..], false) + x))))
  {
    assert MembersText(a, first) ==
           Comma(first) + StringText(a[0].key) + ":" + Text(a[0].value) + MembersText(a[1..], false);
    hide *;
    var c, k, v, m := Comma(first), StringText(a[0].key), Text(a[0].value), MembersText(a[1..], false);
    Regroup(c + k + ":" + v, m, x);
    Regroup(c + k + ":", v, m + x);
    Regroup(c + k, ":", v + (m + x));
    Regroup(c, k, ":" + (v + (m + x)));
  }

  lemma MembersStart(a: seq<Member>, first: bool, x: string)
    ensures |MembersText(a, first)| > 0
    ensures ((MembersText(a, first) + x)[0] == '}') == (a == [])
    ensures !first ==> Delimited(MembersText(a, first) + x)
  {
    if a != [] {
      MembersStep(a, first, x);
    }
  }
}
