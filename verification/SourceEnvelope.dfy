/** What the snapshot measure measures: the bytes of the envelope's text. */
module SourceEnvelope {
  import opened Decimal
  import opened Unicode
  import opened SourceCatalog

  // ---- timestamps ----

  /** Of the nine digits of a second's fraction those up to the last that is not zero are written. */
  lemma {:induction false} FractionWritten(d: string)
    requires IsDigits(d)
    ensures FractionWidth(Value(d), |d|) == |TrimRight(d)|
  {
    if d != "" {
      var init, last := d[..|d| - 1], DigitValue(d[|d| - 1]);
      LastDigitOf(Value(init), last);
      FractionWritten(init);
    }
  }

  /** A quoted timestamp of a whole second has 22 characters; a fraction adds a point and its written digits. */
  lemma StampWritten(t: int, d: string)
    requires IsDigits(d) && |d| == 9 && Value(d) == t % 1_000_000_000
    ensures StampWidth(t) == |"\"2006-01-02T15:04:05" + (if TrimRight(d) == "" then "" else "." + TrimRight(d)) + "Z\""|
  {
    FractionWritten(d);
  }

  // ---- the envelope ----

  function Joined(parts: seq<string>): string {
    if parts == [] then ""
    else if |parts| == 1 then parts[0]
    else Joined(parts[..|parts| - 1]) + "," + parts[|parts| - 1]
  }

  const HEAD := "{\"request_"
  const KEY := "id\":\""
  const RESULT := "\",\"result\""
  const SOURCES := ":{\"sources"
  const LIST := "\":["
  const TAIL := "]}}\n"

  /** The longest request identity is 128 times a character of four bytes. */
  function Envelope(parts: seq<string>): string {
    (HEAD + KEY + Repeated('\U{1F4A7}', 128) + RESULT + SOURCES) + (LIST + Joined(parts) + TAIL)
  }

  function Repeated(c: char, n: nat): string { if n == 0 then "" else Repeated(c, n - 1) + [c] }

  lemma {:induction false} RepeatedBytes(c: char, n: nat)
    ensures |Utf8(Repeated(c, n))| == n * |Utf8Bytes(c)|
  {
    if n > 0 {
      RepeatedBytes(c, n - 1);
      Utf8Concat(Repeated(c, n - 1), [c]);
      assert Utf8([c]) == Utf8Bytes(c) + Utf8([]);
      OneMore(n - 1, |Utf8Bytes(c)|);
    }
  }

  lemma OneMore(n: nat, k: nat)
    ensures n * k + k == (n + 1) * k
  {
  }

  lemma {:induction false} PlainBytes(s: string)
    requires forall i | 0 <= i < |s| :: s[i] as int < 0x80
    ensures |Utf8(s)| == |s|
  {
    if s != "" { PlainBytes(s[1..]); }
  }

  function Bytes(parts: seq<string>): nat {
    if parts == [] then 0 else Bytes(parts[..|parts| - 1]) + |Utf8(parts[|parts| - 1])| + 1
  }

  /** Joined by commas the parts take one byte less than each with a comma of its own. */
  lemma {:induction false} JoinedBytes(parts: seq<string>)
    ensures |Utf8(Joined(parts))| == if parts == [] then 0 else Bytes(parts) - 1
    ensures parts != [] ==> Bytes(parts) >= 1
  {
    if |parts| > 1 {
      var init, last := parts[..|parts| - 1], parts[|parts| - 1];
      JoinedBytes(init);
      PlainBytes(",");
      Utf8Concat(Joined(init) + ",", last);
      Utf8Concat(Joined(init), ",");
    } else if |parts| == 1 {
      assert parts[..0] == [];
    }
  }

  lemma ThreeParts(a: string, b: string, c: string)
    ensures |Utf8(a + b + c)| == |Utf8(a)| + |Utf8(b)| + |Utf8(c)|
  {
    hide Utf8;
    Utf8Concat(a, b);
    Utf8Concat(a + b, c);
  }

  lemma FiveParts(a: string, b: string, c: string, d: string, e: string)
    ensures |Utf8(a + b + c + d + e)| == |Utf8(a)| + |Utf8(b)| + |Utf8(c)| + |Utf8(d)| + |Utf8(e)|
  {
    hide Utf8;
    Utf8Concat(a, b);
    Utf8Concat(a + b, c);
    Utf8Concat(a + b + c, d);
    Utf8Concat(a + b + c + d, e);
  }

  lemma HeadBytes()
    ensures |Utf8(HEAD)| == 10
  {
    PlainBytes(HEAD);
    hide Utf8;
  }

  lemma KeyBytes()
    ensures |Utf8(KEY)| == 5
  {
    PlainBytes(KEY);
    hide Utf8;
  }

  lemma ResultBytes()
    ensures |Utf8(RESULT)| == 10
  {
    PlainBytes(RESULT);
    hide Utf8;
  }

  lemma SourcesBytes()
    ensures |Utf8(SOURCES)| == 10
  {
    PlainBytes(SOURCES);
    hide Utf8;
  }

  lemma ListBytes()
    ensures |Utf8(LIST)| == 3
  {
    PlainBytes(LIST);
    hide Utf8;
  }

  lemma TailBytes()
    ensures |Utf8(TAIL)| == 4
  {
    PlainBytes(TAIL);
    hide Utf8;
  }

  lemma IdentityBytes()
    ensures |Utf8(Repeated('\U{1F4A7}', 128))| == 512
  {
    assert |Utf8Bytes('\U{1F4A7}')| == 4;
    hide *;
    RepeatedBytes('\U{1F4A7}', 128);
  }

  lemma EnvelopeBytes(parts: seq<string>)
    ensures |Utf8(Envelope(parts))| == 554 + |Utf8(Joined(parts))|
  {
    HeadBytes();
    KeyBytes();
    ResultBytes();
    SourcesBytes();
    ListBytes();
    TailBytes();
    IdentityBytes();
    hide *;
    EnvelopeParts(parts);
    var front, back := HEAD + KEY + Repeated('\U{1F4A7}', 128) + RESULT + SOURCES, LIST + Joined(parts) + TAIL;
    FiveParts(HEAD, KEY, Repeated('\U{1F4A7}', 128), RESULT, SOURCES);
    ThreeParts(LIST, Joined(parts), TAIL);
    Utf8Concat(front, back);
  }

  lemma EnvelopeParts(parts: seq<string>)
    ensures Envelope(parts) ==
            (HEAD + KEY + Repeated('\U{1F4A7}', 128) + RESULT + SOURCES) + (LIST + Joined(parts) + TAIL)
  {
  }

  ghost function Texts<D>(text: Source<D> -> string, rows: seq<Source<D>>): (t: seq<string>)
    ensures |t| == |rows|
  {
    seq(|rows|, i requires 0 <= i < |rows| => text(rows[i]))
  }

  lemma {:induction false} ItemsMeasured<D>(r: Rules<D>, rows: seq<Source<D>>, text: Source<D> -> string)
    requires forall s | s in rows :: |Utf8(text(s))| == ItemSize(r, s)
    ensures ItemsSize(r, rows) == Bytes(Texts(text, Enabled(rows)))
    ensures forall s | s in Enabled(rows) :: s in rows && s.enabled
  {
    hide ItemSize, Utf8;
    if rows == [] {
      assert Texts(text, Enabled(rows)) == [];
    } else {
      var init, last := rows[..|rows| - 1], rows[|rows| - 1];
      assert rows == init + [last];
      ItemsMeasured(r, init, text);
      if last.enabled {
        var t := Texts(text, Enabled(init));
        assert Texts(text, Enabled(rows)) == t + [text(last)];
        assert (t + [text(last)])[..|t|] == t;
      } else {
        assert Enabled(rows) == Enabled(init);
      }
    }
  }

  /** When every source is written in as many bytes as its measure says, the envelope has exactly the size measured. */
  lemma MeasureIsLength<D>(r: Rules<D>, rows: seq<Source<D>>, text: Source<D> -> string)
    requires forall s | s in rows :: |Utf8(text(s))| == ItemSize(r, s)
    ensures EnvelopeSize(r, rows) == |Utf8(Envelope(Texts(text, Enabled(rows))))|
  {
    var parts := Texts(text, Enabled(rows));
    ItemsMeasured(r, rows, text);
    JoinedBytes(parts);
    EnvelopeBytes(parts);
    hide Utf8, Envelope, Joined, Bytes, ItemsSize, ItemSize;
    assert parts == [] ==> ItemsSize(r, rows) == 0 by { NoBytes(); }
  }

  lemma NoBytes()
    ensures Bytes([]) == 0
  {
  }
}
