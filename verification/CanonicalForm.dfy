/** From a decoded JSON value to the one ordered document a printer may write for it. */
module CanonicalForm {
  import opened Json
  import opened Unicode
  import opened CanonicalText

  datatype KeyOrder = Utf16Order | Utf8Order

  /** What distinguishes the two printers: how keys are ordered, how a number literal is written
    (`None` when the printer reports an error) and whether booleans are admitted. */
  datatype Profile = Profile(order: KeyOrder, number: NumberLiteral -> Option<string>, booleans: bool)

  ghost predicate Sound(p: Profile) {
    forall literal | p.number(literal).Some? :: NumberText(p.number(literal).value)
  }

  predicate Less(o: KeyOrder, s: string, t: string) {
    match o
    case Utf16Order => KeyLess16(s, t)
    case Utf8Order => KeyLess8(s, t)
  }

  lemma LessIsStrictTotalOrder(o: KeyOrder, r: string, s: string, t: string)
    ensures !Less(o, s, s)
    ensures Less(o, r, s) && Less(o, s, t) ==> Less(o, r, t)
    ensures s == t || Less(o, s, t) || Less(o, t, s)
    ensures !(Less(o, s, t) && Less(o, t, s))
  {
    KeyLess16IsStrictTotalOrder(r, s, t);
    KeyLess8IsStrictTotalOrder(r, s, t);
  }

  // ---- the sorted key sequence of a key set is unique ----

  ghost predicate Ascending(o: KeyOrder, keys: seq<string>) {
    forall i, j | 0 <= i < j < |keys| :: Less(o, keys[i], keys[j])
  }

  /** The code units a key order compares. */
  function Units(o: KeyOrder, s: string): seq<int> {
    match o
    case Utf16Order => Utf16(s)
    case Utf8Order => Utf8(s)
  }

  /** Each key's encoding stands before the encodings of all later keys. */
  ghost predicate InOrder(o: KeyOrder, keys: seq<string>) {
    forall i, j | 0 <= i < j < |keys| :: Precedes(Units(o, keys[i]), Units(o, keys[j]))
  }

  lemma AscendingInOrder(o: KeyOrder, keys: seq<string>)
    ensures Ascending(o, keys) <==> InOrder(o, keys)
  {
    forall i, j | 0 <= i < j < |keys|
      ensures Less(o, keys[i], keys[j]) <==> Precedes(Units(o, keys[i]), Units(o, keys[j]))
    {
      KeyOrdersPrecede(keys[i], keys[j]);
    }
  }

  ghost predicate Lists(keys: seq<string>, s: set<string>) {
    forall k :: k in keys <==> k in s
  }

  ghost predicate IsLeast(o: KeyOrder, s: set<string>, least: string) {
    least in s && forall k | k in s && k != least :: Less(o, least, k)
  }

  lemma {:induction false} LeastKey(o: KeyOrder, s: set<string>) returns (least: string)
    requires s != {}
    ensures IsLeast(o, s, least)
    decreases s
  {
    var k :| k in s;
    if s == {k} {
      least := k;
    } else {
      var rest := s - {k};
      var m := LeastKey(o, rest);
      LessIsStrictTotalOrder(o, k, m, k);
      if Less(o, k, m) {
        least := k;
        forall j | j in s && j != k ensures Less(o, k, j) {
          assert j in rest;
          LessIsStrictTotalOrder(o, k, m, j);
        }
      } else {
        least := m;
        assert Less(o, m, k);
        forall j | j in s && j != m ensures Less(o, m, j) {
          assert j == k || j in rest;
        }
      }
    }
  }

  ghost function SortedKeys(o: KeyOrder, s: set<string>): (keys: seq<string>)
    ensures Lists(keys, s)
    ensures Ascending(o, keys)
  {
    if s == {} then [] else
      assert exists m :: IsLeast(o, s, m) by { var m := LeastKey(o, s); }
      var m :| IsLeast(o, s, m);
      [m] + SortedKeys(o, s - {m})
  }

  /** Whatever order a map is iterated in, sorting its keys gives the same sequence. */
  lemma {:induction false} SortedKeysUnique(o: KeyOrder, a: seq<string>, b: seq<string>)
    requires Ascending(o, a) && Ascending(o, b)
    requires forall k :: k in a <==> k in b
    ensures a == b
  {
    assert b != [] ==> b[0] in b;
    if a != [] {
      assert a[0] in a;
      HeadIsLeast(o, a, b[0]);
      HeadIsLeast(o, b, a[0]);
      LessIsStrictTotalOrder(o, a[0], b[0], a[0]);
      assert a[0] == b[0];
      forall k ensures k in a[1..] <==> k in b[1..] {
        InTail(o, a, k);
        InTail(o, b, k);
      }
      SortedKeysUnique(o, a[1..], b[1..]);
      Rejoin(a, b);
    }
  }

  lemma HeadIsLeast(o: KeyOrder, a: seq<string>, k: string)
    requires Ascending(o, a) && k in a
    ensures k == a[0] || Less(o, a[0], k)
  {
  }

  lemma InTail(o: KeyOrder, a: seq<string>, k: string)
    requires Ascending(o, a) && a != []
    ensures k in a[1..] <==> k in a && k != a[0]
  {
    LessIsStrictTotalOrder(o, a[0], a[0], a[0]);
  }

  // ---- the canonical document ----

  predicate Accepts(p: Profile, v: JSON) {
    match v
    case Bool(_) => p.booleans
    case Num(literal) => p.number(literal).Some?
    case Arr(items) => forall i | 0 <= i < |items| :: Accepts(p, items[i])
    case Obj(fields) => forall k | k in fields :: Accepts(p, fields[k])
    case _ => true
  }

  ghost function Canonical(p: Profile, v: JSON): Doc
    requires Accepts(p, v)
    decreases v
  {
    match v
    case Null => DNull
    case Bool(b) => DBool(b)
    case Str(s) => DStr(s)
    case Num(literal) => DNum(p.number(literal).value)
    case Arr(items) => DArr(seq(|items|, i requires 0 <= i < |items| => Canonical(p, items[i])))
    case Obj(fields) =>
      var keys := SortedKeys(p.order, fields.Keys);
      DObj(seq(|keys|, i requires 0 <= i < |keys| => assert keys[i] in keys; Member(keys[i], Canonical(p, fields[keys[i]]))))
  }

  /** The text a printer with profile `p` writes for `v`. */
  ghost function Printed(p: Profile, v: JSON): string
    requires Accepts(p, v)
  {
    Text(Canonical(p, v))
  }

  lemma {:induction false} CanonicalWellFormed(p: Profile, v: JSON)
    requires Sound(p) && Accepts(p, v)
    ensures WellFormed(Canonical(p, v))
    decreases v
  {
    match v {
      case Arr(items) =>
        forall i | 0 <= i < |items| ensures WellFormed(Canonical(p, items[i])) { CanonicalWellFormed(p, items[i]); }
      case Obj(fields) =>
        var keys := SortedKeys(p.order, fields.Keys);
        forall i | 0 <= i < |keys| ensures keys[i] in fields && WellFormed(Canonical(p, fields[keys[i]])) {
          assert keys[i] in keys;
          CanonicalWellFormed(p, fields[keys[i]]);
        }
      case _ =>
    }
  }

  /** Equality of values up to what the profile writes for a number. */
  predicate SameValue(p: Profile, v: JSON, w: JSON) {
    match (v, w)
    case (Null, Null) => true
    case (Bool(b), Bool(c)) => b == c
    case (Str(s), Str(t)) => s == t
    case (Num(l), Num(m)) => p.number(l) == p.number(m)
    case (Arr(a), Arr(b)) => |a| == |b| && forall i | 0 <= i < |a| :: SameValue(p, a[i], b[i])
    case (Obj(f), Obj(g)) => f.Keys == g.Keys && forall k | k in f :: SameValue(p, f[k], g[k])
    case _ => false
  }

  lemma CanonicalItems(p: Profile, items: seq<JSON>, i: nat)
    requires Accepts(p, Arr(items)) && i < |items|
    ensures var doc := Canonical(p, Arr(items)); |doc.items| == |items| && doc.items[i] == Canonical(p, items[i])
  {
  }

  lemma CanonicalMembers(p: Profile, fields: map<string, JSON>, i: nat)
    requires Accepts(p, Obj(fields)) && i < |SortedKeys(p.order, fields.Keys)|
    ensures var keys := SortedKeys(p.order, fields.Keys);
            var doc := Canonical(p, Obj(fields));
            |doc.members| == |keys| && keys[i] in fields &&
            doc.members[i] == Member(keys[i], Canonical(p, fields[keys[i]]))
  {
    var keys := SortedKeys(p.order, fields.Keys);
    assert keys[i] in keys;
  }

  lemma {:induction false} CanonicalDecides(p: Profile, v: JSON, w: JSON)
    requires Accepts(p, v) && Accepts(p, w)
    ensures Canonical(p, v) == Canonical(p, w) <==> SameValue(p, v, w)
    decreases v
  {
    match (v, w) {
      case (Arr(a), Arr(b)) =>
        var s, t := Canonical(p, v).items, Canonical(p, w).items;
        forall i | 0 <= i < |a| && i < |b|
          ensures s[i] == t[i] <==> SameValue(p, a[i], b[i])
        {
          CanonicalItems(p, a, i);
          CanonicalItems(p, b, i);
          CanonicalDecides(p, a[i], b[i]);
        }
        assert s == t <==> |s| == |t| && forall i | 0 <= i < |s| :: s[i] == t[i];
      case (Obj(f), Obj(g)) =>
        forall k | k in f && k in g
          ensures Canonical(p, f[k]) == Canonical(p, g[k]) <==> SameValue(p, f[k], g[k])
        {
          CanonicalDecides(p, f[k], g[k]);
        }
        if f.Keys == g.Keys {
          SameKeysDecide(p, f, g);
        } else {
          KeysDecide(p, f, g);
        }
      case _ =>
    }
  }

  lemma KeysDecide(p: Profile, f: map<string, JSON>, g: map<string, JSON>)
    requires Accepts(p, Obj(f)) && Accepts(p, Obj(g)) && f.Keys != g.Keys
    ensures Canonical(p, Obj(f)) != Canonical(p, Obj(g))
  {
    var a, b := SortedKeys(p.order, f.Keys), SortedKeys(p.order, g.Keys);
    assert a != b;
    var s, t := Canonical(p, Obj(f)).members, Canonical(p, Obj(g)).members;
    assert |s| == |a| && |t| == |b|;
    if |a| == |b| {
      var i :| 0 <= i < |a| && a[i] != b[i];
      CanonicalMembers(p, f, i);
      CanonicalMembers(p, g, i);
      assert s[i] != t[i];
    }
  }

  lemma SameKeysDecide(p: Profile, f: map<string, JSON>, g: map<string, JSON>)
    requires Accepts(p, Obj(f)) && Accepts(p, Obj(g)) && f.Keys == g.Keys
    requires forall k | k in f && k in g :: Canonical(p, f[k]) == Canonical(p, g[k]) <==> SameValue(p, f[k], g[k])
    ensures Canonical(p, Obj(f)) == Canonical(p, Obj(g)) <==> SameValue(p, Obj(f), Obj(g))
  {
    var a := SortedKeys(p.order, f.Keys);
    var s, t := Canonical(p, Obj(f)).members, Canonical(p, Obj(g)).members;
    forall i | 0 <= i < |a|
      ensures a[i] in f && a[i] in g && (s[i] == t[i] <==> Canonical(p, f[a[i]]) == Canonical(p, g[a[i]]))
    {
      CanonicalMembers(p, f, i);
      CanonicalMembers(p, g, i);
    }
    assert |s| == |t| == |a|;
    assert Canonical(p, Obj(f)) == Canonical(p, Obj(g)) <==> s == t;
    hide Canonical, Accepts;
    assert s == t <==> forall i | 0 <= i < |a| :: s[i] == t[i];
    if s == t {
      forall k | k in f ensures SameValue(p, f[k], g[k]) {
        assert k in a;
        var i :| 0 <= i < |a| && a[i] == k;
        assert s[i] == t[i];
      }
    }
  }

  /** The printed text decides the value: two accepted values print to the same text exactly when they
    are the same value, and that stays so with any delimited text behind each. */
  lemma TextDecidesValue(p: Profile, v: JSON, x: string, w: JSON, y: string)
    requires Sound(p) && Accepts(p, v) && Accepts(p, w) && Delimited(x) && Delimited(y)
    ensures Printed(p, v) + x == Printed(p, w) + y <==> SameValue(p, v, w) && x == y
  {
    CanonicalDecides(p, v, w);
    CanonicalWellFormed(p, v);
    CanonicalWellFormed(p, w);
    if Printed(p, v) + x == Printed(p, w) + y {
      TextRead(Canonical(p, v), x, Canonical(p, w), y);
    }
  }

  /** The bytes that are hashed decide the value. */
  lemma HashInputDecidesValue(p: Profile, v: JSON, w: JSON)
    requires Sound(p) && Accepts(p, v) && Accepts(p, w)
    ensures Utf8(Printed(p, v)) == Utf8(Printed(p, w)) <==> SameValue(p, v, w)
  {
    var s, t := Printed(p, v), Printed(p, w);
    TextDecidesValue(p, v, [], w, []);
    assert s + [] == s && t + [] == t;
    if Utf8(s) == Utf8(t) { Utf8Injective(s, t); }
  }
}
