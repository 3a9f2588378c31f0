/** Reading a JSON string literal back: section 7 of RFC 8259, as far as no surrogate escapes are needed. */
module StringLiteral {
  import opened Json
  import opened CanonicalText

  datatype Read = Read(s: string, rest: string) | Malformed

  function Prepend(c: char, r: Read): Read { if r.Read? then Read([c] + r.s, r.rest) else r }

  predicate IsHex(c: char) { '0' <= c <= '9' || 'a' <= c <= 'f' || 'A' <= c <= 'F' }

  function HexValue(c: char): (v: nat)
    requires IsHex(c)
    ensures v < 16
  {
    if '0' <= c <= '9' then c as int - '0' as int else if 'a' <= c <= 'f' then c as int - 'a' as int + 10 else c as int - 'A' as int + 10
  }

  /** The character of a two-character escape. */
  function ShortEscape(c: char): Option<char> {
    if c == '"' || c == '\\' || c == '/' then Some(c)
    else if c == 'b' then Some('\U{8}')
    else if c == 'f' then Some('\U{C}')
    else if c == 'n' then Some('\n')
    else if c == 'r' then Some('\r')
    else if c == 't' then Some('\t')
    else None
  }

  function FourHex(t: string): nat
    requires |t| >= 4 && IsHex(t[0]) && IsHex(t[1]) && IsHex(t[2]) && IsHex(t[3])
  {
    ((HexValue(t[0]) * 16 + HexValue(t[1])) * 16 + HexValue(t[2])) * 16 + HexValue(t[3])
  }

  /** Reads a literal after its opening quote, up to and including the closing one. */
  function Unescape(t: string): (r: Read)
    ensures r.Read? ==> |r.rest| < |t|
    decreases |t|
  {
    if t == "" then Malformed
    else if t[0] == '"' then Read("", t[1..])
    else if t[0] == '\\' then
      if |t| < 2 then Malformed
      else if ShortEscape(t[1]).Some? then Prepend(ShortEscape(t[1]).value, Unescape(t[2..]))
      else if t[1] == 'u' && |t| >= 6 && IsHex(t[2]) && IsHex(t[3]) && IsHex(t[4]) && IsHex(t[5]) then
        var v := FourHex(t[2..]);
        if 0xD800 <= v <= 0xDFFF then Malformed else Prepend(v as char, Unescape(t[6..]))
      else Malformed
    else if t[0] as int < 0x20 then Malformed
    else Prepend(t[0], Unescape(t[1..]))
  }

  function ReadString(t: string): (r: Read)
    ensures r.Read? ==> |r.rest| < |t|
  {
    if t != "" && t[0] == '"' then Unescape(t[1..]) else Malformed
  }

  lemma Dropped(p: string, tail: string, n: nat)
    requires n == |p|
    ensures (p + tail)[n..] == tail && forall i | 0 <= i < n :: (p + tail)[i] == p[i]
  {
  }

  lemma ShortRead(c: char, e: char, tail: string)
    requires ShortEscape(e) == Some(c)
    ensures Unescape(['\\', e] + tail) == Prepend(c, Unescape(tail))
  {
    Dropped(['\\', e], tail, 2);
  }

  lemma HexRead(c: char, tail: string)
    requires c as int <= 0x1F
    ensures Unescape("\\u00" + [HEX_DIGITS[c as int / 16], HEX_DIGITS[c as int % 16]] + tail) == Prepend(c, Unescape(tail))
  {
    var h, l := HEX_DIGITS[c as int / 16], HEX_DIGITS[c as int % 16];
    var p := "\\u00" + [h, l];
    Dropped(p, tail, 6);
    var t := p + tail;
    assert t[0] == '\\' && t[1] == 'u' && t[2] == '0' && t[3] == '0' && t[4] == h && t[5] == l;
    HexDigit(c as int / 16);
    HexDigit(c as int % 16);
    assert t[2..][0] == '0' && t[2..][1] == '0' && t[2..][2] == h && t[2..][3] == l;
    assert FourHex(t[2..]) == c as int;
    assert ShortEscape('u').None?;
  }

  lemma HexDigit(n: nat)
    requires n < 16
    ensures IsHex(HEX_DIGITS[n]) && HexValue(HEX_DIGITS[n]) == n
  {
  }

  /** Reading undoes the escaping of one character. */
  lemma EscapeUndone(c: char, tail: string)
    ensures Unescape(Escape(c) + tail) == Prepend(c, Unescape(tail))
  {
    if c == '"' || c == '\\' {
      ShortRead(c, c, tail);
    } else if c == '\U{8}' {
      ShortRead(c, 'b', tail);
      assert "\\b" == ['\\', 'b'];
    } else if c == '\t' {
      ShortRead(c, 't', tail);
      assert "\\t" == ['\\', 't'];
    } else if c == '\n' {
      ShortRead(c, 'n', tail);
      assert "\\n" == ['\\', 'n'];
    } else if c == '\U{C}' {
      ShortRead(c, 'f', tail);
      assert "\\f" == ['\\', 'f'];
    } else if c == '\r' {
      ShortRead(c, 'r', tail);
      assert "\\r" == ['\\', 'r'];
    } else if c as int <= 0x1F {
      HexRead(c, tail);
    } else {
      Dropped([c], tail, 1);
    }
  }

  /** Reading a printed string gives the string back, and leaves what follows it. */
  lemma {:induction false} RoundTrip(s: string, rest: string)
    ensures ReadString(StringText(s) + rest) == Read(s, rest)
  {
    Dropped("\"", Body(s) + rest, 1);
    assert StringText(s) + rest == "\"" + (Body(s) + rest);
    BodyUndone(s, rest);
    hide Unescape, Body;
  }

  lemma {:induction false} BodyUndone(s: string, rest: string)
    ensures Unescape(Body(s) + rest) == Read(s, rest)
  {
    if s == "" {
      Dropped("\"", rest, 1);
    } else {
      BodyStep(s, rest);
      EscapeUndone(s[0], Body(s[1..]) + rest);
      BodyUndone(s[1..], rest);
      hide Unescape, Body, Escape;
      assert [s[0]] + s[1..] == s;
    }
  }
}
