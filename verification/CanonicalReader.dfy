/** Reading a canonical text back: the grammar of RFC 8259 without white space. */
module CanonicalReader {
  import opened Json
  import opened CanonicalText
  import opened CanonicalForm
  import opened CanonicalPrinters
  import opened StringLiteral

  datatype Value = Value(doc: Doc, rest: string) | NoValue

  datatype Items = Items(items: seq<Doc>, rest: string) | NoItems

  datatype Members = Members(members: seq<Member>, rest: string) | NoMembers

  predicate Starts(t: string, c: char) { t != "" && t[0] == c }

  /** Section 3 of RFC 8259: a literal name, a string, a number, an array or an object. */
  function ReadValue(t: string): (v: Value)
    ensures v.Value? ==> |v.rest| < |t|
    decreases |t|, 1
  {
    if "null" <= t then Value(DNull, t[4..])
    else if "true" <= t then Value(DBool(true), t[4..])
    else if "false" <= t then Value(DBool(false), t[5..])
    else if Starts(t, '"') then
      match ReadString(t)
      case Read(s, rest) => Value(DStr(s), rest)
      case Malformed => NoValue
    else if Starts(t, '[') then
      if Starts(t[1..], ']') then Value(DArr([]), t[2..])
      else match ReadItems(t[1..])
        case Items(items, rest) => Value(DArr(items), rest)
        case NoItems => NoValue
    else if Starts(t, '{') then
      if Starts(t[1..], '}') then Value(DObj([]), t[2..])
      else match ReadMembers(t[1..])
        case Members(members, rest) => Value(DObj(members), rest)
        case NoMembers => NoValue
    else if t != "" && NumberText(t[..Span(t)]) then Value(DNum(t[..Span(t)]), t[Span(t)..])
    else NoValue
  }

  /** Section 5 of RFC 8259: values separated by commas, up to the closing bracket. */
  function ReadItems(t: string): (i: Items)
    ensures i.Items? ==> |i.rest| < |t|
    decreases |t|, 2
  {
    match ReadValue(t)
    case NoValue => NoItems
    case Value(doc, rest) =>
      if Starts(rest, ']') then Items([doc], rest[1..])
      else if Starts(rest, ',') then
        match ReadItems(rest[1..])
        case NoItems => NoItems
        case Items(more, after) => Items([doc] + more, after)
      else NoItems
  }

  /** Section 4 of RFC 8259: a string, a colon and a value each, separated by commas, up to the closing brace. */
  function ReadMembers(t: string): (m: Members)
    ensures m.Members? ==> |m.rest| < |t|
    decreases |t|, 2
  {
    match ReadString(t)
    case Malformed => NoMembers
    case Read(key, afterKey) =>
      if !Starts(afterKey, ':') then NoMembers
      else match ReadValue(afterKey[1..])
        case NoValue => NoMembers
        case Value(doc, rest) =>
          if Starts(rest, '}') then Members([Member(key, doc)], rest[1..])
          else if Starts(rest, ',') then
            match ReadMembers(rest[1..])
            case NoMembers => NoMembers
            case Members(more, after) => Members([Member(key, doc)] + more, after)
          else NoMembers
  }

  // ---- reading undoes writing ----

  lemma NameRead(name: string, x: string)
    requires name in {"null", "true", "false"}
    ensures name <= name + x && (name + x)[|name|..] == x && (name + x)[0] == name[0]
  {
  }

  lemma NotNamed(t: string)
    requires t != "" && t[0] != 'n' && t[0] != 't' && t[0] != 'f'
    ensures !("null" <= t) && !("true" <= t) && !("false" <= t)
  {
  }

  /** A document's text is read back as the document, and what follows it is left. */
  lemma {:induction false} ReadBack(d: Doc, x: string)
    requires WellFormed(d) && Delimited(x)
    ensures ReadValue(Text(d) + x) == Value(d, x)
    decreases d, 1
  {
    var t := Text(d) + x;
    TextStart(d, x);
    match d {
      case DNull => NameRead("null", x);
      case DBool(b) => NameRead(if b then "true" else "false", x);
      case DStr(s) =>
        NotNamed(t);
        RoundTrip(s, x);
      case DNum(m) => NumberReadBack(m, x);
      case DArr(items) =>
        if items != [] { ItemsReadBack(items, x); }
        ArrayRead(items, x);
      case DObj(members) =>
        if members != [] { MembersReadBack(members, x); }
        ObjectRead(members, x);
    }
    hide ReadValue, ReadItems, ReadMembers, ReadString;
  }

  lemma NumberReadBack(m: string, x: string)
    requires NumberText(m) && Delimited(x)
    ensures ReadValue(m + x) == Value(DNum(m), x)
  {
    var t := m + x;
    assert t[0] == m[0];
    NotNamed(t);
    SpanOfNumber(m, x);
    assert t[..|m|] == m && t[|m|..] == x;
    hide Span, NumberChar;
  }

  lemma ArrayRead(items: seq<Doc>, x: string)
    requires forall i | 0 <= i < |items| :: WellFormed(items[i])
    requires items != [] ==> ReadItems(ItemsText(items, true) + x) == Items(items, x)
    ensures ReadValue("[" + ItemsText(items, true) + x) == Value(DArr(items), x)
  {
    var t := "[" + ItemsText(items, true) + x;
    After("[", ItemsText(items, true), x);
    NotNamed(t);
    ItemsStart(items, true, x);
    if items == [] {
      assert t == "[]" + x && t[2..] == x;
    }
    hide ReadItems, WellFormed;
  }

  lemma ObjectRead(members: seq<Member>, x: string)
    requires members != [] ==> ReadMembers(MembersText(members, true) + x) == Members(members, x)
    ensures ReadValue("{" + MembersText(members, true) + x) == Value(DObj(members), x)
  {
    var t := "{" + MembersText(members, true) + x;
    After("{", MembersText(members, true), x);
    NotNamed(t);
    MembersStart(members, true, x);
    if members == [] {
      assert t == "{}" + x && t[2..] == x;
    }
    hide ReadMembers;
  }

  lemma FirstDropped(c: char, p: string)
    ensures ([c] + p)[0] == c && ([c] + p)[1..] == p
  {
  }

  lemma ItemRead(t: string, doc: Doc, p: string)
    requires ReadValue(t) == Value(doc, p)
    ensures Starts(p, ']') ==> ReadItems(t) == Items([doc], p[1..])
    ensures Starts(p, ',') && ReadItems(p[1..]).Items? ==>
              ReadItems(t) == Items([doc] + ReadItems(p[1..]).items, ReadItems(p[1..]).rest)
  {
    hide ReadValue;
  }

  lemma {:induction false} ItemsReadBack(items: seq<Doc>, x: string)
    requires items != [] && forall i | 0 <= i < |items| :: WellFormed(items[i])
    ensures ReadItems(ItemsText(items, true) + x) == Items(items, x)
    decreases items, 0
  {
    var tail := items[1..];
    var p := ItemsText(tail, false) + x;
    hide Text, ItemsText, ReadValue, ReadItems;
    ItemsStart(tail, false, x);
    ItemsStep(items, true, x);
    CommaEither(Text(items[0]) + p);
    ReadBack(items[0], p);
    ItemRead(ItemsText(items, true) + x, items[0], p);
    assert items == [items[0]] + tail;
    if tail == [] {
      NoItemsText(x);
      FirstDropped(']', x);
    } else {
      ItemsComma(tail, x);
      FirstDropped(',', ItemsText(tail, true) + x);
      ItemsReadBack(tail, x);
    }
  }

  lemma NoItemsText(x: string)
    ensures ItemsText([], false) + x == [']'] + x
  {
  }

  lemma ItemsComma(items: seq<Doc>, x: string)
    requires items != []
    ensures ItemsText(items, false) + x == [','] + (ItemsText(items, true) + x)
  {
    hide *;
    ItemsStep(items, false, x);
    ItemsStep(items, true, x);
    CommaEither(Text(items[0]) + (ItemsText(items[1..], false) + x));
  }

  lemma CommaEither(r: string)
    ensures Comma(true) + r == r && Comma(false) + r == [','] + r
  {
  }

  /** One member is read, and the brace or comma behind it decides how to go on. */
  lemma MemberRead(t: string, key: string, v: string, doc: Doc, p: string)
    requires ReadString(t) == Read(key, [':'] + v) && ReadValue(v) == Value(doc, p)
    ensures Starts(p, '}') ==> ReadMembers(t) == Members([Member(key, doc)], p[1..])
    ensures Starts(p, ',') && ReadMembers(p[1..]).Members? ==>
              ReadMembers(t) == Members([Member(key, doc)] + ReadMembers(p[1..]).members, ReadMembers(p[1..]).rest)
  {
    FirstDropped(':', v);
    hide ReadString, ReadValue;
  }

  lemma {:induction false} MembersReadBack(members: seq<Member>, x: string)
    requires members != [] && forall i | 0 <= i < |members| :: WellFormed(members[i].value)
    ensures ReadMembers(MembersText(members, true) + x) == Members(members, x)
    decreases members, 0
  {
    var key, doc, tail := members[0].key, members[0].value, members[1..];
    var p := MembersText(tail, false) + x;
    var v := Text(doc) + p;
    hide Text, MembersText, StringText, ReadValue, ReadMembers, ReadString;
    MembersStart(tail, false, x);
    FirstMember(members, x);
    RoundTrip(key, [':'] + v);
    ReadBack(doc, p);
    MemberRead(MembersText(members, true) + x, key, v, doc, p);
    assert members == [Member(key, doc)] + tail;
    if tail == [] {
      NoMembersText(x);
      FirstDropped('}', x);
    } else {
      MembersComma(tail, x);
      FirstDropped(',', MembersText(tail, true) + x);
      MembersReadBack(tail, x);
    }
  }

  lemma FirstMember(members: seq<Member>, x: string)
    requires members != []
    ensures MembersText(members, true) + x ==
            StringText(members[0].key) + ([':'] + (Text(members[0].value) + (MembersText(members[1..], false) + x)))
  {
    MembersStep(members, true, x);
    hide *;
    CommaEither(StringText(members[0].key) + (":" + (Text(members[0].value) + (MembersText(members[1..], false) + x))));
  }

  lemma NoMembersText(x: string)
    ensures MembersText([], false) + x == ['}'] + x
  {
  }

  lemma MembersComma(members: seq<Member>, x: string)
    requires members != []
    ensures MembersText(members, false) + x == [','] + (MembersText(members, true) + x)
  {
    hide *;
    MembersStep(members, false, x);
    MembersStep(members, true, x);
    CommaEither(StringText(members[0].key) + (":" + (Text(members[0].value) + (MembersText(members[1..], false) + x))));
  }

  /** What a printer writes for an accepted value is read back as the value's canonical document. */
  lemma PrintedReadBack(p: Profile, v: JSON)
    requires Sound(p) && Accepts(p, v)
    ensures ReadValue(Printed(p, v)) == Value(Canonical(p, v), "")
  {
    CanonicalWellFormed(p, v);
    ReadBack(Canonical(p, v), "");
    assert Printed(p, v) + "" == Printed(p, v);
    hide Canonical, Accepts, Text, ReadValue;
  }

  // ---- the value that is read ----

  /** The decoded value a document stands for: members form a map. */
  function Content(d: Doc): JSON
    requires WellFormed(d)
    decreases d, 1
  {
    match d
    case DNull => Null
    case DBool(b) => Bool(b)
    case DStr(s) => Str(s)
    case DNum(text) => Num(text)
    case DArr(items) => Arr(seq(|items|, i requires 0 <= i < |items| => Content(items[i])))
    case DObj(members) => Obj(Fields(members))
  }

  function Fields(members: seq<Member>): map<string, JSON>
    requires forall i | 0 <= i < |members| :: WellFormed(members[i].value)
    decreases members, 0
  {
    if members == [] then map[]
    else Fields(members[..|members| - 1])[members[|members| - 1].key := Content(members[|members| - 1].value)]
  }

  /** The value with every number spelled as the profile writes it. */
  ghost function Renumbered(p: Profile, v: JSON): JSON
    requires Sound(p) && Accepts(p, v)
    decreases v
  {
    match v
    case Num(literal) => Num(p.number(literal).value)
    case Arr(items) => Arr(seq(|items|, i requires 0 <= i < |items| => Renumbered(p, items[i])))
    case Obj(fields) => Obj(map k | k in fields :: Renumbered(p, fields[k]))
    case _ => v
  }

  lemma {:induction false} FieldsAre(members: seq<Member>, f: map<string, JSON>)
    requires forall i | 0 <= i < |members| :: WellFormed(members[i].value)
    requires forall i | 0 <= i < |members| :: members[i].key in f && f[members[i].key] == Content(members[i].value)
    ensures forall k :: k in Fields(members) <==> exists i | 0 <= i < |members| :: members[i].key == k
    ensures forall k | k in Fields(members) :: k in f && Fields(members)[k] == f[k]
  {
    hide Content, WellFormed;
    if members != [] { FieldsAre(members[..|members| - 1], f); }
  }

  /** The canonical document of a value holds that value, up to the spelling of numbers. */
  lemma {:induction false} ContentKept(p: Profile, v: JSON)
    requires Sound(p) && Accepts(p, v)
    ensures WellFormed(Canonical(p, v)) && Content(Canonical(p, v)) == Renumbered(p, v)
    decreases v
  {
    CanonicalWellFormed(p, v);
    match v {
      case Arr(items) =>
        forall i | 0 <= i < |items|
          ensures WellFormed(Canonical(p, items[i])) && Content(Canonical(p, items[i])) == Renumbered(p, items[i])
        {
          ContentKept(p, items[i]);
        }
        var read, kept := Content(Canonical(p, v)).items, Renumbered(p, v).items;
        assert |read| == |kept| && forall i | 0 <= i < |kept| :: read[i] == kept[i];
      case Obj(fields) =>
        forall k | k in fields ensures WellFormed(Canonical(p, fields[k])) && Content(Canonical(p, fields[k])) == Renumbered(p, fields[k]) {
          ContentKept(p, fields[k]);
        }
        ObjectKept(p, fields);
      case _ =>
    }
  }

  lemma ObjectKept(p: Profile, fields: map<string, JSON>)
    requires Sound(p) && Accepts(p, Obj(fields)) && WellFormed(Canonical(p, Obj(fields)))
    requires forall k | k in fields :: WellFormed(Canonical(p, fields[k])) && Content(Canonical(p, fields[k])) == Renumbered(p, fields[k])
    ensures Content(Canonical(p, Obj(fields))) == Renumbered(p, Obj(fields))
  {
    var keys, members := SortedKeys(p.order, fields.Keys), Canonical(p, Obj(fields)).members;
    ObjectMembers(p, fields);
    RenumberedFields(p, fields);
    hide Canonical, Accepts, SortedKeys, Renumbered;
    FieldsEqual(keys, members, Renumbered(p, Obj(fields)).fields);
  }

  lemma ObjectMembers(p: Profile, fields: map<string, JSON>)
    requires Accepts(p, Obj(fields))
    ensures var keys, members := SortedKeys(p.order, fields.Keys), Canonical(p, Obj(fields)).members;
            && |members| == |keys| && (forall k :: k in keys <==> k in fields)
            && forall i | 0 <= i < |keys| :: keys[i] in fields && members[i] == Member(keys[i], Canonical(p, fields[keys[i]]))
  {
    var keys := SortedKeys(p.order, fields.Keys);
    forall i | 0 <= i < |keys|
      ensures keys[i] in fields && Canonical(p, Obj(fields)).members[i] == Member(keys[i], Canonical(p, fields[keys[i]]))
    {
      CanonicalMembers(p, fields, i);
    }
  }

  lemma RenumberedFields(p: Profile, fields: map<string, JSON>)
    requires Sound(p) && Accepts(p, Obj(fields))
    ensures var kept := Renumbered(p, Obj(fields)).fields;
            kept.Keys == fields.Keys && forall k | k in fields :: kept[k] == Renumbered(p, fields[k])
  {
  }

  lemma FieldsEqual(keys: seq<string>, members: seq<Member>, kept: map<string, JSON>)
    requires |members| == |keys| && forall k :: k in keys <==> k in kept
    requires forall i | 0 <= i < |keys| ::
               members[i].key == keys[i] && keys[i] in kept && WellFormed(members[i].value) && Content(members[i].value) == kept[keys[i]]
    ensures Fields(members) == kept
  {
    hide Content, WellFormed, Fields;
    FieldsAre(members, kept);
    forall k | k in kept ensures k in Fields(members) {
      var i :| 0 <= i < |keys| && keys[i] == k;
      assert members[i].key == k;
    }
  }

  /** Reading what a printer wrote for a value gives the value back, up to the spelling of numbers. */
  lemma PrintedValueBack(p: Profile, v: JSON)
    requires Sound(p) && Accepts(p, v)
    ensures var r := ReadValue(Printed(p, v));
            r.Value? && r.rest == "" && WellFormed(r.doc) && Content(r.doc) == Renumbered(p, v)
  {
    PrintedReadBack(p, v);
    ContentKept(p, v);
    hide *;
  }

  lemma {:induction false} ResearchKeepsNumbers(v: JSON)
    requires Accepts(ResearchProfile(), v)
    ensures Sound(ResearchProfile()) && Renumbered(ResearchProfile(), v) == v
    decreases v
  {
    ResearchSound();
    match v {
      case Arr(items) =>
        forall i | 0 <= i < |items| ensures Renumbered(ResearchProfile(), items[i]) == items[i] {
          ResearchKeepsNumbers(items[i]);
        }
      case Obj(fields) =>
        forall k | k in fields ensures Renumbered(ResearchProfile(), fields[k]) == fields[k] {
          ResearchKeepsNumbers(fields[k]);
        }
        assert Renumbered(ResearchProfile(), v).fields == fields;
      case _ =>
    }
  }

  /** Reading what the research printer wrote gives the very value back. */
  lemma ResearchValueBack(v: JSON)
    requires Accepts(ResearchProfile(), v)
    ensures var r := ReadValue(Printed(ResearchProfile(), v));
            r.Value? && r.rest == "" && WellFormed(r.doc) && Content(r.doc) == v
  {
    ResearchKeepsNumbers(v);
    PrintedValueBack(ResearchProfile(), v);
    hide *;
  }
}
