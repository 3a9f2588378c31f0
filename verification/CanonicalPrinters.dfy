/** The two canonical printers of the repository, writing into a byte buffer. */
module CanonicalPrinters {
  import opened Json
  import opened Sequences
  import opened Unicode
  import opened CanonicalText
  import opened CanonicalForm

  /** Go's `bytes.Buffer`, as far as the printers use it. */
  class Buffer {
    var bytes: seq<Byte>

    constructor ()
      ensures bytes == []
    {
      bytes := [];
    }

    method WriteByte(b: Byte)
      modifies this
      ensures bytes == old(bytes) + [b]
    {
      bytes := bytes + [b];
    }

    method WriteRune(c: char)
      modifies this
      ensures bytes == old(bytes) + Utf8([c])
    {
      assert Utf8([c]) == Utf8Bytes(c) + Utf8([]);
      bytes := bytes + Utf8Bytes(c);
    }

    method WriteString(s: string)
      modifies this
      ensures bytes == old(bytes) + Utf8(s)
    {
      bytes := bytes + Utf8(s);
    }
  }

  // ---- what the two printers do with numbers ----

  /** Outcome of parsing a number token as a double; out of range, NaN and infinities are `Invalid`,
    both signed zeros are `Zero`. */
  datatype Float = Invalid | Zero | NonZero(r: real)

  /** The runtime's double parser and shortest formatter. */
  datatype Floats = Floats(parse: NumberLiteral -> Float, format: real -> string)

  /** The formatter writes number characters, gives distinct doubles distinct texts, and writes "0"
    for no non-zero double. */
  ghost predicate Faithful(fl: Floats) {
    && (forall l | fl.parse(l).NonZero? :: NumberText(fl.format(fl.parse(l).r)) && fl.format(fl.parse(l).r) != "0")
    && (forall l, m | fl.parse(l).NonZero? && fl.parse(m).NonZero? ::
          fl.format(fl.parse(l).r) == fl.format(fl.parse(m).r) ==> fl.parse(l) == fl.parse(m))
  }

  function ReportNumber(fl: Floats, literal: NumberLiteral): Option<string> {
    match fl.parse(literal)
    case Invalid => None
    case Zero => Some("0")
    case NonZero(r) => Some(fl.format(r))
  }

  function ReportProfile(fl: Floats): Profile {
    Profile(Utf16Order, (literal: NumberLiteral) => ReportNumber(fl, literal), true)
  }

  function ResearchNumber(literal: NumberLiteral): Option<string> { Some(literal) }

  function ResearchProfile(): Profile {
    Profile(Utf8Order, (literal: NumberLiteral) => ResearchNumber(literal), false)
  }

  lemma ProfilesSound(fl: Floats)
    requires Faithful(fl)
    ensures Sound(ReportProfile(fl)) && Sound(ResearchProfile())
  {
    ResearchSound();
  }

  lemma ResearchSound()
    ensures Sound(ResearchProfile())
  {
  }

  // ---- the Report printer ----

  /** One round of the loop in `writeCanonicalString`. */
  method WriteReportRune(writer: Buffer, current: char)
    modifies writer
    ensures writer.bytes == old(writer.bytes) + Utf8(Escape(current))
  {
    hide Utf8;
    if current == '"' || current == '\\' {
      ghost var before := writer.bytes;
      writer.WriteRune('\\');
      ghost var x := writer.bytes;
      writer.WriteRune(current);
      Append(before, "\\", [current], x, writer.bytes);
      assert Escape(current) == "\\" + [current];
    } else if current == '\U{8}' {
      writer.WriteString("\\b");
    } else if current == '\t' {
      writer.WriteString("\\t");
    } else if current == '\n' {
      writer.WriteString("\\n");
    } else if current == '\U{C}' {
      writer.WriteString("\\f");
    } else if current == '\r' {
      writer.WriteString("\\r");
    } else if current as int <= 0x1F {
      ghost var before := writer.bytes;
      writer.WriteString("\\u00");
      ghost var x := writer.bytes;
      writer.WriteRune(HEX_DIGITS[current as int / 16]);
      ghost var y := writer.bytes;
      writer.WriteRune(HEX_DIGITS[current as int % 16]);
      Append(before, "\\u00", [HEX_DIGITS[current as int / 16]], x, y);
      Append(before, "\\u00" + [HEX_DIGITS[current as int / 16]], [HEX_DIGITS[current as int % 16]], y, writer.bytes);
      HexEscape(current);
    } else {
      writer.WriteRune(current);
    }
  }

  /** The opening quote and the first `i` characters. */
  function Opened(value: string, i: nat): string
    requires i <= |value|
  {
    "\"" + EscapeAll(value[..i])
  }

  method WriteReportString(writer: Buffer, value: string)
    modifies writer
    ensures writer.bytes == old(writer.bytes) + Utf8(StringText(value))
  {
    ghost var before := writer.bytes;
    writer.WriteString("\"");
    OpenedStart(value);
    for i := 0 to |value|
      invariant writer.bytes == before + Utf8(Opened(value, i))
    {
      ghost var start := writer.bytes;
      WriteReportRune(writer, value[i]);
      OpenedStep(value, i, before, start, writer.bytes);
    }
    ghost var start := writer.bytes;
    writer.WriteString("\"");
    OpenedEnd(value, before, start, writer.bytes);
  }

  lemma OpenedStart(value: string)
    ensures Opened(value, 0) == "\""
  {
  }

  lemma OpenedStep(value: string, i: nat, before: seq<Byte>, x: seq<Byte>, y: seq<Byte>)
    requires i < |value| && x == before + Utf8(Opened(value, i)) && y == x + Utf8(Escape(value[i]))
    ensures y == before + Utf8(Opened(value, i + 1))
  {
    EscapeAllStep(value, i);
    hide Utf8, Escape, EscapeAll;
    Bracketed("\"", EscapeAll(value[..i]), Escape(value[i]));
    Append(before, Opened(value, i), Escape(value[i]), x, y);
  }

  lemma OpenedEnd(value: string, before: seq<Byte>, x: seq<Byte>, y: seq<Byte>)
    requires x == before + Utf8(Opened(value, |value|)) && y == x + Utf8("\"")
    ensures y == before + Utf8(StringText(value))
  {
    assert value[..|value|] == value;
    BodyIsEscapeAll(value);
    Append(before, Opened(value, |value|), "\"", x, y);
    assert StringText(value) == Opened(value, |value|) + "\"";
  }

  /** Two writes after each other are one write of both texts. */
  lemma Append(before: seq<Byte>, s: string, t: string, x: seq<Byte>, y: seq<Byte>)
    requires x == before + Utf8(s) && y == x + Utf8(t)
    ensures y == before + Utf8(s + t)
  {
    Utf8Concat(s, t);
    AppendBytes(before, Utf8(s), Utf8(t), x, y);
  }

  lemma AppendBytes(before: seq<Byte>, s: seq<Byte>, t: seq<Byte>, x: seq<Byte>, y: seq<Byte>)
    requires x == before + s && y == x + t
    ensures y == before + (s + t)
  {
  }

  lemma EscapeAllStep(value: string, i: nat)
    requires i < |value|
    ensures EscapeAll(value[..i + 1]) == EscapeAll(value[..i]) + Escape(value[i])
  {
    EscapeAllConcat(value[..i], [value[i]]);
    assert value[..i + 1] == value[..i] + [value[i]];
    assert EscapeAll([value[i]]) == Escape(value[i]) + EscapeAll([]);
  }

  lemma HexEscape(c: char)
    requires c as int <= 0x1F && c !in "\U{8}\t\n\U{C}\r"
    ensures Escape(c) == "\\u00" + [HEX_DIGITS[c as int / 16]] + [HEX_DIGITS[c as int % 16]]
  {
    hide HEX_DIGITS;
  }

  /** The first `n` items with the separators written before them. */
  ghost function Joined(p: Profile, items: seq<JSON>, n: nat): string
    requires n <= |items| && forall i | 0 <= i < n :: Accepts(p, items[i])
  {
    if n == 0 then "" else Joined(p, items, n - 1) + Comma(n == 1) + Printed(p, items[n - 1])
  }

  lemma GroupItem(a: string, b: string, c: string, d: string)
    ensures a + b + c + d == a + (b + c + d)
  {
  }

  lemma ItemsTextStep(docs: seq<Doc>, n: nat)
    requires n < |docs|
    ensures ItemsText(docs[n..], n == 0) == Comma(n == 0) + Text(docs[n]) + ItemsText(docs[n + 1..], false)
  {
    assert docs[n..][0] == docs[n] && docs[n..][1..] == docs[n + 1..];
  }

  lemma {:induction false} JoinedItems(p: Profile, items: seq<JSON>, docs: seq<Doc>, n: nat)
    requires Accepts(p, Arr(items)) && n <= |items| == |docs| && docs == Canonical(p, Arr(items)).items
    ensures Joined(p, items, n) + ItemsText(docs[n..], n == 0) == ItemsText(docs, true)
  {
    hide ItemsText, Canonical;
    if n == 0 {
      assert docs[0..] == docs;
      assert "" + ItemsText(docs, true) == ItemsText(docs, true);
    } else {
      hide Joined;
      JoinedItems(p, items, docs, n - 1);
      JoinedItemsStep(p, items, docs, n - 1);
    }
  }

  lemma JoinedItemsStep(p: Profile, items: seq<JSON>, docs: seq<Doc>, n: nat)
    requires Accepts(p, Arr(items)) && n < |items| == |docs| && docs == Canonical(p, Arr(items)).items
    ensures Joined(p, items, n) + ItemsText(docs[n..], n == 0) == Joined(p, items, n + 1) + ItemsText(docs[n + 1..], false)
  {
    CanonicalItems(p, items, n);
    ItemsTextStep(docs, n);
    hide Text, ItemsText, Comma;
    GroupItem(Joined(p, items, n), Comma(n == 0), Printed(p, items[n]), ItemsText(docs[n + 1..], false));
  }

  ghost function JoinedMembers(p: Profile, fields: map<string, JSON>, keys: seq<string>, n: nat): string
    requires n <= |keys| && forall i | 0 <= i < n :: keys[i] in fields && Accepts(p, fields[keys[i]])
  {
    if n == 0 then ""
    else JoinedMembers(p, fields, keys, n - 1) + Comma(n == 1) + StringText(keys[n - 1]) + ":" + Printed(p, fields[keys[n - 1]])
  }

  lemma GroupMember(a: string, b: string, k: string, v: string, d: string)
    ensures a + b + k + ":" + v + d == a + (b + k + ":" + v + d)
  {
  }

  lemma MembersTextStep(members: seq<Member>, n: nat)
    requires n < |members|
    ensures MembersText(members[n..], n == 0) ==
            Comma(n == 0) + StringText(members[n].key) + ":" + Text(members[n].value) + MembersText(members[n + 1..], false)
  {
    assert members[n..][0] == members[n] && members[n..][1..] == members[n + 1..];
  }

  lemma {:induction false} JoinedObject(p: Profile, fields: map<string, JSON>, keys: seq<string>, members: seq<Member>, n: nat)
    requires Accepts(p, Obj(fields)) && keys == SortedKeys(p.order, fields.Keys) && n <= |keys| == |members|
    requires forall i | 0 <= i < |keys| :: keys[i] in fields
    requires members == Canonical(p, Obj(fields)).members
    ensures JoinedMembers(p, fields, keys, n) + MembersText(members[n..], n == 0) == MembersText(members, true)
  {
    hide MembersText, Canonical, SortedKeys, JoinedMembers, Accepts;
    if n == 0 {
      JoinedObjectStart(p, fields, keys, members);
    } else {
      JoinedObject(p, fields, keys, members, n - 1);
      JoinedObjectStep(p, fields, keys, members, n - 1);
    }
  }

  lemma JoinedObjectStart(p: Profile, fields: map<string, JSON>, keys: seq<string>, members: seq<Member>)
    ensures JoinedMembers(p, fields, keys, 0) + MembersText(members[0..], true) == MembersText(members, true)
  {
    hide MembersText;
    assert members[0..] == members;
  }

  lemma JoinedObjectStep(p: Profile, fields: map<string, JSON>, keys: seq<string>, members: seq<Member>, n: nat)
    requires Accepts(p, Obj(fields)) && keys == SortedKeys(p.order, fields.Keys) && n < |keys| == |members|
    requires forall i | 0 <= i < |keys| :: keys[i] in fields
    requires members == Canonical(p, Obj(fields)).members
    ensures JoinedMembers(p, fields, keys, n) + MembersText(members[n..], n == 0) ==
            JoinedMembers(p, fields, keys, n + 1) + MembersText(members[n + 1..], false)
  {
    CanonicalMembers(p, fields, n);
    MembersTextStep(members, n);
    hide Text, MembersText, Comma, StringText;
    var v := Printed(p, fields[keys[n]]);
    assert members[n].value == Canonical(p, fields[keys[n]]);
    GroupMember(JoinedMembers(p, fields, keys, n), Comma(n == 0), StringText(keys[n]), v,
                  MembersText(members[n + 1..], false));
  }

  // ---- sorting the collected keys ----

  function InsertKey(o: KeyOrder, k: string, keys: seq<string>): (r: seq<string>)
    ensures forall j :: j in r <==> j == k || j in keys
    ensures |r| == |keys| + 1
  {
    if keys == [] || Less(o, k, keys[0]) then [k] + keys
    else [keys[0]] + InsertKey(o, k, keys[1..])
  }

  /** Go's `sort.Slice` with the printer's comparison. */
  function SortSlice(o: KeyOrder, keys: seq<string>): (r: seq<string>)
    ensures forall j :: j in r <==> j in keys
    ensures |r| == |keys|
  {
    if keys == [] then [] else InsertKey(o, keys[0], SortSlice(o, keys[1..]))
  }

  lemma {:induction false} InsertAscending(o: KeyOrder, k: string, keys: seq<string>)
    requires Ascending(o, keys) && k !in keys
    ensures Ascending(o, InsertKey(o, k, keys))
  {
    if keys != [] {
      LessIsStrictTotalOrder(o, k, keys[0], k);
      if Less(o, k, keys[0]) {
        forall i | 0 <= i < |keys| ensures Less(o, k, keys[i]) {
          HeadIsLeast(o, keys, keys[i]);
          LessIsStrictTotalOrder(o, k, keys[0], keys[i]);
        }
      } else {
        InsertAscending(o, k, keys[1..]);
        var r := InsertKey(o, k, keys[1..]);
        forall i | 0 <= i < |r| ensures Less(o, keys[0], r[i]) {
          assert r[i] in r;
        }
      }
    }
  }

  lemma {:induction false} SortAscending(o: KeyOrder, keys: seq<string>)
    requires Distinct(keys)
    ensures Ascending(o, SortSlice(o, keys))
  {
    if keys != [] {
      SortAscending(o, keys[1..]);
      InsertAscending(o, keys[0], SortSlice(o, keys[1..]));
    }
  }

  /** Collects the keys of an object in whatever order the map yields them, and sorts them. */
  method CollectKeys(o: KeyOrder, fields: map<string, JSON>) returns (keys: seq<string>)
    ensures keys == SortedKeys(o, fields.Keys)
    ensures |keys| == |fields|
    ensures forall k :: k in keys <==> k in fields
    ensures InOrder(o, keys)
  {
    keys := [];
    var remaining := fields.Keys;
    while remaining != {}
      invariant remaining <= fields.Keys
      invariant forall k :: k in keys <==> k in fields.Keys - remaining
      invariant Distinct(keys)
      invariant |keys| + |remaining| == |fields.Keys|
      decreases remaining
    {
      var key :| key in remaining;
      assert key !in keys;
      keys := keys + [key];
      remaining := remaining - {key};
    }
    SortAscending(o, keys);
    keys := SortSlice(o, keys);
    SortedKeysUnique(o, keys, SortedKeys(o, fields.Keys));
    AscendingInOrder(o, keys);
  }

  /** The opening bracket and the first `n` items. */
  ghost function ArrayHead(p: Profile, items: seq<JSON>, n: nat): string
    requires n <= |items| && forall i | 0 <= i < n :: Accepts(p, items[i])
  {
    "[" + Joined(p, items, n)
  }

  ghost function ObjectHead(p: Profile, fields: map<string, JSON>, keys: seq<string>, n: nat): string
    requires n <= |keys| && forall i | 0 <= i < n :: keys[i] in fields && Accepts(p, fields[keys[i]])
  {
    "{" + JoinedMembers(p, fields, keys, n)
  }

  /** A comma is written before every entry but the first. */
  lemma CommaWritten(before: seq<Byte>, head: string, first: bool, x: seq<Byte>, y: seq<Byte>)
    requires x == before + Utf8(head) && y == if first then x else x + Utf8(",")
    ensures y == before + Utf8(head + Comma(first))
  {
    if first {
      assert head + "" == head;
    } else {
      Append(before, head, ",", x, y);
    }
  }

  lemma ArrayHeadStart(p: Profile, items: seq<JSON>)
    ensures ArrayHead(p, items, 0) == "["
  {
  }

  lemma ObjectHeadStart(p: Profile, fields: map<string, JSON>, keys: seq<string>)
    ensures ObjectHead(p, fields, keys, 0) == "{"
  {
  }

  lemma ItemWritten(p: Profile, items: seq<JSON>, n: nat, before: seq<Byte>, x: seq<Byte>, y: seq<Byte>, z: seq<Byte>)
    requires n < |items| && forall i | 0 <= i <= n :: Accepts(p, items[i])
    requires x == before + Utf8(ArrayHead(p, items, n))
    requires y == if n == 0 then x else x + Utf8(",")
    requires z == y + Utf8(Printed(p, items[n]))
    ensures z == before + Utf8(ArrayHead(p, items, n + 1))
  {
    ArrayHeadStep(p, items, n);
    hide Utf8, Printed, ArrayHead;
    var head := ArrayHead(p, items, n);
    CommaWritten(before, head, n == 0, x, y);
    Append(before, head + Comma(n == 0), Printed(p, items[n]), y, z);
  }

  lemma ArrayHeadStep(p: Profile, items: seq<JSON>, n: nat)
    requires n < |items| && forall i | 0 <= i <= n :: Accepts(p, items[i])
    ensures ArrayHead(p, items, n + 1) == ArrayHead(p, items, n) + Comma(n == 0) + Printed(p, items[n])
  {
    hide Printed, Comma;
    var j := Joined(p, items, n);
    GroupItem("[", j, Comma(n == 0), Printed(p, items[n]));
  }

  /** What is written for one object member. */
  ghost function MemberText(p: Profile, first: bool, key: string, value: JSON): string
    requires Accepts(p, value)
  {
    Comma(first) + StringText(key) + ":" + Printed(p, value)
  }

  lemma MemberWritten(p: Profile, first: bool, key: string, value: JSON, before: seq<Byte>,
                      y: seq<Byte>, k: seq<Byte>, c: seq<Byte>, z: seq<Byte>)
    requires Accepts(p, value)
    requires y == if first then before else before + Utf8(",")
    requires k == y + Utf8(StringText(key))
    requires c == k + Utf8(":")
    requires z == c + Utf8(Printed(p, value))
    ensures z == before + Utf8(MemberText(p, first, key, value))
  {
    assert before == before + Utf8("");
    CommaWritten(before, "", first, before, y);
    assert "" + Comma(first) == Comma(first);
    Append(before, Comma(first), StringText(key), y, k);
    Append(before, Comma(first) + StringText(key), ":", k, c);
    Append(before, Comma(first) + StringText(key) + ":", Printed(p, value), c, z);
  }

  lemma ObjectHeadStep(p: Profile, fields: map<string, JSON>, keys: seq<string>, n: nat, before: seq<Byte>,
                       x: seq<Byte>, z: seq<Byte>)
    requires n < |keys| && forall i | 0 <= i <= n :: keys[i] in fields && Accepts(p, fields[keys[i]])
    requires x == before + Utf8(ObjectHead(p, fields, keys, n))
    requires z == x + Utf8(MemberText(p, n == 0, keys[n], fields[keys[n]]))
    ensures z == before + Utf8(ObjectHead(p, fields, keys, n + 1))
  {
    Append(before, ObjectHead(p, fields, keys, n), MemberText(p, n == 0, keys[n], fields[keys[n]]), x, z);
    MemberHead(JoinedMembers(p, fields, keys, n), Comma(n == 0), StringText(keys[n]), Printed(p, fields[keys[n]]));
  }

  lemma MemberHead(j: string, c: string, k: string, v: string)
    ensures "{" + (j + c + k + ":" + v) == "{" + j + (c + k + ":" + v)
  {
  }

  lemma ArrayWritten(p: Profile, value: JSON, before: seq<Byte>, x: seq<Byte>, y: seq<Byte>)
    requires value.Arr? && Accepts(p, value)
    requires x == before + Utf8(ArrayHead(p, value.items, |value.items|)) && y == x + Utf8("]")
    ensures y == before + Utf8(Printed(p, value))
  {
    ArrayClosed(p, value);
    hide Utf8, Printed, ArrayHead;
    Append(before, ArrayHead(p, value.items, |value.items|), "]", x, y);
  }

  lemma ArrayClosed(p: Profile, value: JSON)
    requires value.Arr? && Accepts(p, value)
    ensures ArrayHead(p, value.items, |value.items|) + "]" == Printed(p, value)
  {
    var joined := Joined(p, value.items, |value.items|);
    var docs := Canonical(p, value).items;
    JoinedItems(p, value.items, docs, |docs|);
    assert docs[|docs|..] == [];
    assert ItemsText([], |docs| == 0) == "]";
    Bracketed("[", joined, "]");
  }

  lemma Bracketed(l: string, inner: string, r: string)
    ensures l + inner + r == l + (inner + r)
  {
  }

  lemma ObjectWritten(p: Profile, value: JSON, keys: seq<string>, before: seq<Byte>, x: seq<Byte>, y: seq<Byte>)
    requires value.Obj? && Accepts(p, value) && keys == SortedKeys(p.order, value.fields.Keys)
    requires forall i | 0 <= i < |keys| :: keys[i] in value.fields
    requires x == before + Utf8(ObjectHead(p, value.fields, keys, |keys|)) && y == x + Utf8("}")
    ensures y == before + Utf8(Printed(p, value))
  {
    ObjectClosed(p, value, keys);
    hide Utf8, Printed, ObjectHead;
    Append(before, ObjectHead(p, value.fields, keys, |keys|), "}", x, y);
  }

  lemma ObjectClosed(p: Profile, value: JSON, keys: seq<string>)
    requires value.Obj? && Accepts(p, value) && keys == SortedKeys(p.order, value.fields.Keys)
    requires forall i | 0 <= i < |keys| :: keys[i] in value.fields
    ensures ObjectHead(p, value.fields, keys, |keys|) + "}" == Printed(p, value)
  {
    hide StringText, JoinedMembers;
    var inner := JoinedMembers(p, value.fields, keys, |keys|);
    var members := Canonical(p, value).members;
    JoinedObject(p, value.fields, keys, members, |members|);
    assert members[|members|..] == [];
    assert MembersText([], |members| == 0) == "}";
    Bracketed("{", inner, "}");
  }

  /** What both printers write for an object: one member for each key, in the order of the encodings. */
  lemma PrintedObject(p: Profile, fields: map<string, JSON>) returns (keys: seq<string>)
    requires Accepts(p, Obj(fields))
    ensures |keys| == |fields| && forall k :: k in keys <==> k in fields
    ensures p.order.Utf16Order? ==> forall i, j | 0 <= i < j < |keys| :: Precedes(Utf16(keys[i]), Utf16(keys[j]))
    ensures p.order.Utf8Order? ==> forall i, j | 0 <= i < j < |keys| :: Precedes(Utf8(keys[i]), Utf8(keys[j]))
    ensures forall i | 0 <= i < |keys| :: keys[i] in fields && Accepts(p, fields[keys[i]])
    ensures Printed(p, Obj(fields)) == "{" + JoinedMembers(p, fields, keys, |keys|) + "}"
  {
    keys := SortedKeys(p.order, fields.Keys);
    AscendingInOrder(p.order, keys);
    KeyCount(p.order, keys, fields.Keys);
    forall i | 0 <= i < |keys| ensures keys[i] in fields && Accepts(p, fields[keys[i]]) {
      assert keys[i] in keys;
    }
    ObjectClosed(p, Obj(fields), keys);
  }

  lemma {:induction false} KeyCount(o: KeyOrder, keys: seq<string>, s: set<string>)
    requires Ascending(o, keys) && Lists(keys, s)
    ensures |keys| == |s|
  {
    if keys != [] {
      assert keys[0] in keys;
      forall k ensures k in keys[1..] <==> k in s - {keys[0]} {
        InTail(o, keys, k);
      }
      KeyCount(o, keys[1..], s - {keys[0]});
    } else {
      assert s == {};
    }
  }

  /** `writeCanonicalJSON` of the Report package. */
  method WriteReportJSON(fl: Floats, writer: Buffer, value: JSON) returns (ok: bool)
    modifies writer
    ensures ok <==> Accepts(ReportProfile(fl), value)
    ensures ok ==> writer.bytes == old(writer.bytes) + Utf8(Printed(ReportProfile(fl), value))
    decreases value, 1
  {
    match value {
      case Null =>
        writer.WriteString("null");
        ok := true;
      case Bool(b) =>
        if b { writer.WriteString("true"); } else { writer.WriteString("false"); }
        ok := true;
      case Num(literal) =>
        var number := fl.parse(literal);
        if number.Invalid? {
          return false;
        }
        if number.Zero? {
          writer.WriteString("0");
          return true;
        }
        writer.WriteString(fl.format(number.r));
        ok := true;
      case Str(s) =>
        WriteReportString(writer, s);
        ok := true;
      case Arr(_) =>
        ok := WriteReportArray(fl, writer, value);
      case Obj(_) =>
        ok := WriteReportObject(fl, writer, value);
    }
  }

  method WriteReportArray(fl: Floats, writer: Buffer, value: JSON) returns (ok: bool)
    requires value.Arr?
    modifies writer
    ensures ok <==> Accepts(ReportProfile(fl), value)
    ensures ok ==> writer.bytes == old(writer.bytes) + Utf8(Printed(ReportProfile(fl), value))
    decreases value, 0
  {
    hide Utf8, Text, SortedKeys, Printed, MemberText, ObjectHead, InOrder;
    ghost var p := ReportProfile(fl);
    ghost var before := writer.bytes;
    var items := value.items;
    writer.WriteString("[");
    ArrayHeadStart(p, items);
    for index := 0 to |items|
      invariant forall i | 0 <= i < index :: Accepts(p, items[i])
      invariant writer.bytes == before + Utf8(ArrayHead(p, items, index))
    {
      ghost var x := writer.bytes;
      if index > 0 {
        writer.WriteString(",");
      }
      ghost var y := writer.bytes;
      var accepted := WriteReportJSON(fl, writer, items[index]);
      if !accepted {
        return false;
      }
      ItemWritten(p, items, index, before, x, y, writer.bytes);
    }
    ghost var inner := writer.bytes;
    writer.WriteString("]");
    ArrayWritten(p, value, before, inner, writer.bytes);
    return true;
  }

  /** One round of the loop over an object's sorted keys. */
  method WriteReportMember(fl: Floats, writer: Buffer, first: bool, key: string, value: JSON) returns (ok: bool)
    modifies writer
    ensures ok <==> Accepts(ReportProfile(fl), value)
    ensures ok ==> writer.bytes == old(writer.bytes) + Utf8(MemberText(ReportProfile(fl), first, key, value))
    decreases value, 2
  {
    ghost var before := writer.bytes;
    if !first {
      writer.WriteString(",");
    }
    ghost var y := writer.bytes;
    WriteReportString(writer, key);
    ghost var k := writer.bytes;
    writer.WriteString(":");
    ghost var c := writer.bytes;
    ok := WriteReportJSON(fl, writer, value);
    if ok {
      MemberWritten(ReportProfile(fl), first, key, value, before, y, k, c, writer.bytes);
    }
  }

  method WriteReportObject(fl: Floats, writer: Buffer, value: JSON) returns (ok: bool)
    requires value.Obj?
    modifies writer
    ensures ok <==> Accepts(ReportProfile(fl), value)
    ensures ok ==> writer.bytes == old(writer.bytes) + Utf8(Printed(ReportProfile(fl), value))
    decreases value, 0
  {
    hide Utf8, Text, SortedKeys, Printed, MemberText, ObjectHead, InOrder;
    ghost var p := ReportProfile(fl);
    ghost var before := writer.bytes;
    var fields := value.fields;
    var keys := CollectKeys(Utf16Order, fields);
    writer.WriteString("{");
    ObjectHeadStart(p, fields, keys);
    assert forall i | 0 <= i < |keys| :: keys[i] in keys;
    for index := 0 to |keys|
      invariant forall i | 0 <= i < index :: Accepts(p, fields[keys[i]])
      invariant writer.bytes == before + Utf8(ObjectHead(p, fields, keys, index))
    {
      ghost var x := writer.bytes;
      var accepted := WriteReportMember(fl, writer, index == 0, keys[index], fields[keys[index]]);
      if !accepted {
        return false;
      }
      ObjectHeadStep(p, fields, keys, index, before, x, writer.bytes);
    }
    ghost var inner := writer.bytes;
    writer.WriteString("}");
    assert forall k | k in fields :: k in keys;
    ObjectWritten(p, value, keys, before, inner, writer.bytes);
    return true;
  }

  // ---- the research printer ----

  /** What the byte-wise printer writes for one byte. */
  function EscapeByte(b: Byte): seq<Byte> {
    if b < 0x80 then Utf8(Escape(b as char)) else [b]
  }

  function EscapeBytes(bytes: seq<Byte>): seq<Byte> {
    if bytes == [] then [] else EscapeByte(bytes[0]) + EscapeBytes(bytes[1..])
  }

  lemma {:induction false} EscapeBytesConcat(a: seq<Byte>, b: seq<Byte>)
    ensures EscapeBytes(a + b) == EscapeBytes(a) + EscapeBytes(b)
  {
    if a == [] {
      assert a + b == b;
    } else {
      assert (a + b)[1..] == a[1..] + b;
      EscapeBytesConcat(a[1..], b);
    }
  }

  lemma {:induction false} HighBytesUnchanged(bytes: seq<Byte>)
    requires forall i | 0 <= i < |bytes| :: bytes[i] >= 0x80
    ensures EscapeBytes(bytes) == bytes
  {
    if bytes != [] { HighBytesUnchanged(bytes[1..]); }
  }

  lemma EscapeCharBytes(c: char)
    ensures EscapeBytes(Utf8Bytes(c)) == Utf8(Escape(c))
  {
    if (c as int) < 0x80 {
      assert EscapeBytes(Utf8Bytes(c)) == EscapeByte(c as int) + EscapeBytes([]);
    } else {
      HighBytesUnchanged(Utf8Bytes(c));
      assert Utf8([c]) == Utf8Bytes(c) + Utf8([]);
    }
  }

  /** Escaping byte by byte gives the encoding of escaping rune by rune. */
  lemma {:induction false} ByteEscapingIsRuneEscaping(s: string)
    ensures EscapeBytes(Utf8(s)) == Utf8(EscapeAll(s))
  {
    if s != [] {
      ByteEscapingIsRuneEscaping(s[1..]);
      EscapeCharBytes(s[0]);
      EscapeBytesConcat(Utf8Bytes(s[0]), Utf8(s[1..]));
      Utf8Concat(Escape(s[0]), EscapeAll(s[1..]));
    }
  }

  const HEX_BYTES: seq<Byte> := [48, 49, 50, 51, 52, 53, 54, 55, 56, 57, 97, 98, 99, 100, 101, 102]

  lemma AsciiText(s: string)
    requires forall i | 0 <= i < |s| :: s[i] as int < 0x80
    ensures |Utf8(s)| == |s| && forall i | 0 <= i < |s| :: Utf8(s)[i] == s[i] as int
  {
    if s != [] { AsciiText(s[1..]); }
  }

  /** One round of the byte loop. */
  method WriteResearchByte(writer: Buffer, character: Byte)
    modifies writer
    ensures writer.bytes == old(writer.bytes) + EscapeByte(character)
  {
    hide Utf8;
    WrittenByte(character);
    if character == 34 || character == 92 {
      writer.WriteByte(92);
      writer.WriteByte(character);
    } else if character == 8 {
      writer.WriteString("\\b");
    } else if character == 9 {
      writer.WriteString("\\t");
    } else if character == 10 {
      writer.WriteString("\\n");
    } else if character == 12 {
      writer.WriteString("\\f");
    } else if character == 13 {
      writer.WriteString("\\r");
    } else if character < 0x20 {
      writer.WriteString("\\u00");
      writer.WriteByte(HEX_BYTES[character / 16]);
      writer.WriteByte(HEX_BYTES[character % 16]);
    } else {
      writer.WriteByte(character);
    }
  }

  function OpenedBytes(bytes: seq<Byte>, i: nat): seq<Byte>
    requires i <= |bytes|
  {
    [34] + EscapeBytes(bytes[..i])
  }

  /** The byte-wise writer takes the string's UTF-8 bytes. */
  method WriteResearchString(writer: Buffer, value: string)
    modifies writer
    ensures writer.bytes == old(writer.bytes) + Utf8(StringText(value))
  {
    ghost var before := writer.bytes;
    var bytes := Utf8(value);
    writer.WriteByte(34);
    assert OpenedBytes(bytes, 0) == [34];
    for index := 0 to |bytes|
      invariant writer.bytes == before + OpenedBytes(bytes, index)
    {
      ghost var x := writer.bytes;
      WriteResearchByte(writer, bytes[index]);
      EscapeBytesStep(bytes, index, before, x, writer.bytes);
    }
    ghost var x := writer.bytes;
    writer.WriteByte(34);
    QuotedBytes(value, before, x, writer.bytes);
  }

  lemma EscapeBytesSnoc(bytes: seq<Byte>, i: nat)
    requires i < |bytes|
    ensures EscapeBytes(bytes[..i + 1]) == EscapeBytes(bytes[..i]) + EscapeByte(bytes[i])
  {
    hide Utf8, EscapeByte;
    EscapeBytesConcat(bytes[..i], [bytes[i]]);
    assert bytes[..i + 1] == bytes[..i] + [bytes[i]];
    assert EscapeBytes([bytes[i]]) == EscapeByte(bytes[i]) + EscapeBytes([]);
  }

  lemma EscapeBytesStep(bytes: seq<Byte>, i: nat, before: seq<Byte>, x: seq<Byte>, y: seq<Byte>)
    requires i < |bytes| && x == before + OpenedBytes(bytes, i) && y == x + EscapeByte(bytes[i])
    ensures y == before + OpenedBytes(bytes, i + 1)
  {
    hide Utf8, EscapeByte, EscapeBytes;
    EscapeBytesSnoc(bytes, i);
    AppendBytes([34], EscapeBytes(bytes[..i]), EscapeByte(bytes[i]), OpenedBytes(bytes, i), OpenedBytes(bytes, i + 1));
    AppendBytes(before, OpenedBytes(bytes, i), EscapeByte(bytes[i]), x, y);
  }

  lemma QuotedBytes(value: string, before: seq<Byte>, x: seq<Byte>, y: seq<Byte>)
    requires x == before + OpenedBytes(Utf8(value), |Utf8(value)|) && y == x + [34]
    ensures y == before + Utf8(StringText(value))
  {
    assert Utf8(value)[..|Utf8(value)|] == Utf8(value);
    QuotedText(value);
    assert Utf8(StringText(value)) == OpenedBytes(Utf8(value), |Utf8(value)|) + [34];
  }

  lemma QuotedText(value: string)
    ensures Utf8(StringText(value)) == [34] + EscapeBytes(Utf8(value)) + [34]
  {
    ByteEscapingIsRuneEscaping(value);
    BodyIsEscapeAll(value);
    Utf8Concat("\"", Body(value));
    Utf8Concat(EscapeAll(value), "\"");
    AsciiText("\"");
    assert Utf8("\"") == [34];
  }

  lemma WrittenByte(b: Byte)
    ensures b == 34 || b == 92 ==> EscapeByte(b) == [92, b]
    ensures b < 0x20 && b !in {8, 9, 10, 12, 13} ==>
              EscapeByte(b) == Utf8("\\u00") + [HEX_BYTES[b / 16], HEX_BYTES[b % 16]]
    ensures b >= 0x20 && b != 34 && b != 92 ==> EscapeByte(b) == [b]
  {
    hide Utf8;
    if b == 34 || b == 92 {
      AsciiText(['\\', b as char]);
    } else if b < 0x20 && b !in {8, 9, 10, 12, 13} {
      var h, l := HEX_DIGITS[b / 16], HEX_DIGITS[b % 16];
      HexEscape(b as char);
      assert h as int == HEX_BYTES[b / 16] && l as int == HEX_BYTES[b % 16];
      AsciiText([h]);
      AsciiText([l]);
      Utf8Concat("\\u00", [h]);
      Utf8Concat("\\u00" + [h], [l]);
      PairOf(Utf8("\\u00"), Utf8([h]), Utf8([l]));
    } else if 0x20 <= b < 0x80 {
      AsciiText([b as char]);
    }
  }

  lemma PairOf(p: seq<Byte>, h: seq<Byte>, l: seq<Byte>)
    requires |h| == |l| == 1
    ensures p + h + l == p + [h[0], l[0]]
  {
  }

  /** `writeCanonicalJSON` of the research package: numbers as written, no booleans. */
  method WriteResearchJSON(writer: Buffer, value: JSON) returns (ok: bool)
    modifies writer
    ensures ok <==> Accepts(ResearchProfile(), value)
    ensures ok ==> writer.bytes == old(writer.bytes) + Utf8(Printed(ResearchProfile(), value))
    decreases value, 1
  {
    match value {
      case Null =>
        writer.WriteString("null");
        ok := true;
      case Bool(_) =>
        ok := false;
      case Num(literal) =>
        writer.WriteString(literal);
        ok := true;
      case Str(s) =>
        WriteResearchString(writer, s);
        ok := true;
      case Arr(_) =>
        ok := WriteResearchArray(writer, value);
      case Obj(_) =>
        ok := WriteResearchObject(writer, value);
    }
  }

  method WriteResearchArray(writer: Buffer, value: JSON) returns (ok: bool)
    requires value.Arr?
    modifies writer
    ensures ok <==> Accepts(ResearchProfile(), value)
    ensures ok ==> writer.bytes == old(writer.bytes) + Utf8(Printed(ResearchProfile(), value))
    decreases value, 0
  {
    hide Utf8, Text, SortedKeys, Printed, MemberText, ObjectHead, InOrder;
    ghost var p := ResearchProfile();
    ghost var before := writer.bytes;
    var items := value.items;
    writer.WriteString("[");
    ArrayHeadStart(p, items);
    for index := 0 to |items|
      invariant forall i | 0 <= i < index :: Accepts(p, items[i])
      invariant writer.bytes == before + Utf8(ArrayHead(p, items, index))
    {
      ghost var x := writer.bytes;
      if index > 0 {
        writer.WriteString(",");
      }
      ghost var y := writer.bytes;
      var accepted := WriteResearchJSON(writer, items[index]);
      if !accepted {
        return false;
      }
      ItemWritten(p, items, index, before, x, y, writer.bytes);
    }
    ghost var inner := writer.bytes;
    writer.WriteString("]");
    ArrayWritten(p, value, before, inner, writer.bytes);
    return true;
  }

  /** One round of the loop over an object's sorted keys. */
  method WriteResearchMember(writer: Buffer, first: bool, key: string, value: JSON) returns (ok: bool)
    modifies writer
    ensures ok <==> Accepts(ResearchProfile(), value)
    ensures ok ==> writer.bytes == old(writer.bytes) + Utf8(MemberText(ResearchProfile(), first, key, value))
    decreases value, 2
  {
    ghost var before := writer.bytes;
    if !first {
      writer.WriteString(",");
    }
    ghost var y := writer.bytes;
    WriteResearchString(writer, key);
    ghost var k := writer.bytes;
    writer.WriteString(":");
    ghost var c := writer.bytes;
    ok := WriteResearchJSON(writer, value);
    if ok {
      MemberWritten(ResearchProfile(), first, key, value, before, y, k, c, writer.bytes);
    }
  }

  method WriteResearchObject(writer: Buffer, value: JSON) returns (ok: bool)
    requires value.Obj?
    modifies writer
    ensures ok <==> Accepts(ResearchProfile(), value)
    ensures ok ==> writer.bytes == old(writer.bytes) + Utf8(Printed(ResearchProfile(), value))
    decreases value, 0
  {
    hide Utf8, Text, SortedKeys, Printed, MemberText, ObjectHead, InOrder;
    ghost var p := ResearchProfile();
    ghost var before := writer.bytes;
    var fields := value.fields;
    var keys := CollectKeys(Utf8Order, fields);
    writer.WriteString("{");
    ObjectHeadStart(p, fields, keys);
    assert forall i | 0 <= i < |keys| :: keys[i] in keys;
    for index := 0 to |keys|
      invariant forall i | 0 <= i < index :: Accepts(p, fields[keys[i]])
      invariant writer.bytes == before + Utf8(ObjectHead(p, fields, keys, index))
    {
      ghost var x := writer.bytes;
      var accepted := WriteResearchMember(writer, index == 0, keys[index], fields[keys[index]]);
      if !accepted {
        return false;
      }
      ObjectHeadStep(p, fields, keys, index, before, x, writer.bytes);
    }
    ghost var inner := writer.bytes;
    writer.WriteString("}");
    assert forall k | k in fields :: k in keys;
    ObjectWritten(p, value, keys, before, inner, writer.bytes);
    return true;
  }
}
