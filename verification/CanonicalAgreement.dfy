/** What the two canonical texts tell about a value, and when they coincide. */
module CanonicalAgreement {
  import opened Json
  import opened Unicode
  import opened CanonicalText
  import opened CanonicalForm
  import opened CanonicalPrinters

  // ---- the Report text decides the value up to doubles ----

  /** Two decoded values that differ at most in how a double is spelled. */
  predicate SameUpToDoubles(fl: Floats, v: JSON, w: JSON) {
    match (v, w)
    case (Null, Null) => true
    case (Bool(b), Bool(c)) => b == c
    case (Str(s), Str(t)) => s == t
    case (Num(l), Num(m)) => fl.parse(l) == fl.parse(m)
    case (Arr(a), Arr(b)) => |a| == |b| && forall i | 0 <= i < |a| :: SameUpToDoubles(fl, a[i], b[i])
    case (Obj(f), Obj(g)) => f.Keys == g.Keys && forall k | k in f :: SameUpToDoubles(fl, f[k], g[k])
    case _ => false
  }

  lemma SameNumber(fl: Floats, l: NumberLiteral, m: NumberLiteral)
    requires Faithful(fl) && fl.parse(l) != Invalid && fl.parse(m) != Invalid
    ensures ReportNumber(fl, l) == ReportNumber(fl, m) <==> fl.parse(l) == fl.parse(m)
  {
  }

  lemma {:induction false} SameValueIsSameDoubles(fl: Floats, v: JSON, w: JSON)
    requires Faithful(fl) && Accepts(ReportProfile(fl), v) && Accepts(ReportProfile(fl), w)
    ensures SameValue(ReportProfile(fl), v, w) <==> SameUpToDoubles(fl, v, w)
    decreases v
  {
    match (v, w) {
      case (Num(l), Num(m)) => SameNumber(fl, l, m);
      case (Arr(a), Arr(b)) =>
        forall i | 0 <= i < |a| && i < |b|
          ensures SameValue(ReportProfile(fl), a[i], b[i]) <==> SameUpToDoubles(fl, a[i], b[i])
        {
          SameValueIsSameDoubles(fl, a[i], b[i]);
        }
      case (Obj(f), Obj(g)) =>
        forall k | k in f && k in g
          ensures SameValue(ReportProfile(fl), f[k], g[k]) <==> SameUpToDoubles(fl, f[k], g[k])
        {
          SameValueIsSameDoubles(fl, f[k], g[k]);
        }
      case _ =>
    }
  }

  /** Equal hash inputs mean equal Reports, and equal Reports have equal hash inputs. */
  lemma ReportHashInputDecides(fl: Floats, v: JSON, w: JSON)
    requires Faithful(fl) && Accepts(ReportProfile(fl), v) && Accepts(ReportProfile(fl), w)
    ensures Utf8(Printed(ReportProfile(fl), v)) == Utf8(Printed(ReportProfile(fl), w)) <==> SameUpToDoubles(fl, v, w)
  {
    ProfilesSound(fl);
    HashInputDecidesValue(ReportProfile(fl), v, w);
    SameValueIsSameDoubles(fl, v, w);
  }

  lemma {:induction false} SameValueIsEqual(v: JSON, w: JSON)
    requires Accepts(ResearchProfile(), v) && Accepts(ResearchProfile(), w)
    ensures SameValue(ResearchProfile(), v, w) <==> v == w
    decreases v
  {
    match (v, w) {
      case (Arr(a), Arr(b)) =>
        forall i | 0 <= i < |a| && i < |b| ensures SameValue(ResearchProfile(), a[i], b[i]) <==> a[i] == b[i] {
          SameValueIsEqual(a[i], b[i]);
        }
        assert a == b <==> |a| == |b| && forall i | 0 <= i < |a| :: a[i] == b[i];
      case (Obj(f), Obj(g)) =>
        forall k | k in f && k in g ensures SameValue(ResearchProfile(), f[k], g[k]) <==> f[k] == g[k] {
          SameValueIsEqual(f[k], g[k]);
        }
        assert f == g <==> f.Keys == g.Keys && forall k | k in f :: f[k] == g[k];
      case _ =>
    }
  }

  /** The research fingerprint input determines the decoded payload exactly. */
  lemma ResearchHashInputDecides(v: JSON, w: JSON)
    requires Accepts(ResearchProfile(), v) && Accepts(ResearchProfile(), w)
    ensures Utf8(Printed(ResearchProfile(), v)) == Utf8(Printed(ResearchProfile(), w)) <==> v == w
  {
    ResearchSound();
    HashInputDecidesValue(ResearchProfile(), v, w);
    SameValueIsEqual(v, w);
  }

  // ---- what the printers accept ----

  /** The leaf stands somewhere in the value. */
  predicate Occurs(v: JSON, leaf: JSON)
    decreases v
  {
    match v
    case Arr(items) => exists i | 0 <= i < |items| :: Occurs(items[i], leaf)
    case Obj(fields) => exists k | k in fields :: Occurs(fields[k], leaf)
    case _ => v == leaf
  }

  /** The Report printer accepts exactly the values whose numbers are all finite doubles, the research printer exactly those
    without booleans. */
  lemma {:induction false} AcceptedIff(fl: Floats, v: JSON)
    ensures Accepts(ReportProfile(fl), v) <==> forall l: NumberLiteral | Occurs(v, Num(l)) :: fl.parse(l) != Invalid
    ensures Accepts(ResearchProfile(), v) <==> !Occurs(v, Bool(true)) && !Occurs(v, Bool(false))
    decreases v
  {
    match v {
      case Arr(items) =>
        forall i | 0 <= i < |items|
          ensures Accepts(ReportProfile(fl), items[i]) <==> forall l: NumberLiteral | Occurs(items[i], Num(l)) :: fl.parse(l) != Invalid
          ensures Accepts(ResearchProfile(), items[i]) <==> !Occurs(items[i], Bool(true)) && !Occurs(items[i], Bool(false))
        {
          AcceptedIff(fl, items[i]);
        }
      case Obj(fields) =>
        forall k | k in fields
          ensures Accepts(ReportProfile(fl), fields[k]) <==> forall l: NumberLiteral | Occurs(fields[k], Num(l)) :: fl.parse(l) != Invalid
          ensures Accepts(ResearchProfile(), fields[k]) <==> !Occurs(fields[k], Bool(true)) && !Occurs(fields[k], Bool(false))
        {
          AcceptedIff(fl, fields[k]);
        }
      case _ =>
    }
  }

  // ---- when the two printers write the same ----

  predicate OnlyTextLeaves(v: JSON) {
    match v
    case Bool(_) => false
    case Num(_) => false
    case Arr(items) => forall i | 0 <= i < |items| :: OnlyTextLeaves(items[i])
    case Obj(fields) => forall k | k in fields :: OnlyTextLeaves(fields[k])
    case _ => true
  }

  /** Text-only means without numbers and booleans. */
  lemma {:induction false} OnlyTextIff(v: JSON)
    ensures OnlyTextLeaves(v) <==> (forall b :: !Occurs(v, Bool(b))) && forall l: NumberLiteral :: !Occurs(v, Num(l))
    decreases v
  {
    match v {
      case Arr(items) =>
        forall i | 0 <= i < |items|
          ensures OnlyTextLeaves(items[i]) <==> (forall b :: !Occurs(items[i], Bool(b))) && forall l: NumberLiteral :: !Occurs(items[i], Num(l))
        {
          OnlyTextIff(items[i]);
        }
      case Obj(fields) =>
        forall k | k in fields
          ensures OnlyTextLeaves(fields[k]) <==> (forall b :: !Occurs(fields[k], Bool(b))) && forall l: NumberLiteral :: !Occurs(fields[k], Num(l))
        {
          OnlyTextIff(fields[k]);
        }
      case Bool(b) => assert Occurs(v, Bool(b));
      case Num(l) => assert Occurs(v, Num(l));
      case _ =>
    }
  }

  /** No object has two keys that UTF-8 and UTF-16 order differently. */
  predicate CrossingFree(v: JSON) {
    match v
    case Arr(items) => forall i | 0 <= i < |items| :: CrossingFree(items[i])
    case Obj(fields) =>
      && NoCrossing(fields.Keys)
      && (forall k | k in fields :: CrossingFree(fields[k]))
    case _ => true
  }

  lemma {:induction false} TextLeavesAccepted(fl: Floats, v: JSON)
    requires OnlyTextLeaves(v)
    ensures Accepts(ReportProfile(fl), v) && Accepts(ResearchProfile(), v)
    decreases v
  {
    match v {
      case Arr(items) =>
        forall i | 0 <= i < |items| ensures Accepts(ReportProfile(fl), items[i]) && Accepts(ResearchProfile(), items[i]) {
          TextLeavesAccepted(fl, items[i]);
        }
      case Obj(fields) =>
        forall k | k in fields ensures Accepts(ReportProfile(fl), fields[k]) && Accepts(ResearchProfile(), fields[k]) {
          TextLeavesAccepted(fl, fields[k]);
        }
      case _ =>
    }
  }

  /** A sequence ascending in both orders holds no crossing pair. */
  lemma AscendingInBoth(a: seq<string>, i: nat, j: nat)
    requires Ascending(Utf16Order, a) && Ascending(Utf8Order, a) && i < |a| && j < |a|
    ensures !OrdersCross(a[i], a[j])
  {
    KeyOrdersAgree(a[i], a[j]);
    KeyLess16IsStrictTotalOrder(a[i], a[i], a[j]);
    KeyLess8IsStrictTotalOrder(a[i], a[i], a[j]);
    hide OrdersCross, KeyLess16, KeyLess8;
    if i < j {
      assert Less(Utf16Order, a[i], a[j]) && Less(Utf8Order, a[i], a[j]);
    } else if j < i {
      assert Less(Utf16Order, a[j], a[i]) && Less(Utf8Order, a[j], a[i]);
    }
  }

  lemma AscendingWithoutCrossing(b: seq<string>, i: nat, j: nat)
    requires Ascending(Utf8Order, b) && i < j < |b| && !OrdersCross(b[i], b[j])
    ensures Less(Utf16Order, b[i], b[j])
  {
    KeyOrdersAgree(b[i], b[j]);
    hide OrdersCross, KeyLess16, KeyLess8;
    assert Less(Utf8Order, b[i], b[j]);
  }

  predicate NoCrossing(s: set<string>) {
    forall k, l | k in s && l in s :: !OrdersCross(k, l)
  }

  lemma SameKeyOrder(s: set<string>)
    ensures SortedKeys(Utf16Order, s) == SortedKeys(Utf8Order, s) <==> NoCrossing(s)
  {
    var a, b := SortedKeys(Utf16Order, s), SortedKeys(Utf8Order, s);
    hide OrdersCross, KeyLess16, KeyLess8, SortedKeys, Less;
    if a == b {
      forall k, l | k in s && l in s ensures !OrdersCross(k, l) {
        assert k in a && l in a;
        var i, j :| 0 <= i < |a| && 0 <= j < |a| && a[i] == k && a[j] == l;
        AscendingInBoth(a, i, j);
      }
    }
    if NoCrossing(s) {
      forall i, j | 0 <= i < j < |b| ensures Less(Utf16Order, b[i], b[j]) {
        assert b[i] in b && b[j] in b;
        AscendingWithoutCrossing(b, i, j);
      }
      SortedKeysUnique(Utf16Order, a, b);
    }
  }

  /** The canonical documents of a text-only value coincide exactly when its keys never cross. */
  lemma {:induction false} DocumentsAgree(fl: Floats, v: JSON)
    requires OnlyTextLeaves(v) && Accepts(ReportProfile(fl), v) && Accepts(ResearchProfile(), v)
    ensures Canonical(ReportProfile(fl), v) == Canonical(ResearchProfile(), v) <==> CrossingFree(v)
    decreases v
  {
    var p, q := ReportProfile(fl), ResearchProfile();
    match v {
      case Arr(items) =>
        var s, t := Canonical(p, v).items, Canonical(q, v).items;
        forall i | 0 <= i < |items| ensures s[i] == t[i] <==> CrossingFree(items[i]) {
          CanonicalItems(p, items, i);
          CanonicalItems(q, items, i);
          DocumentsAgree(fl, items[i]);
        }
        assert s == t <==> forall i | 0 <= i < |items| :: s[i] == t[i];
      case Obj(fields) =>
        forall k | k in fields ensures Canonical(p, fields[k]) == Canonical(q, fields[k]) <==> CrossingFree(fields[k]) {
          DocumentsAgree(fl, fields[k]);
        }
        ObjectsAgree(p, q, fields);
      case _ =>
    }
  }

  lemma ObjectsAgree(p: Profile, q: Profile, fields: map<string, JSON>)
    requires p.order == Utf16Order && q.order == Utf8Order && Accepts(p, Obj(fields)) && Accepts(q, Obj(fields))
    requires forall k | k in fields :: Canonical(p, fields[k]) == Canonical(q, fields[k]) <==> CrossingFree(fields[k])
    ensures Canonical(p, Obj(fields)) == Canonical(q, Obj(fields)) <==> CrossingFree(Obj(fields))
  {
    var a, b := SortedKeys(Utf16Order, fields.Keys), SortedKeys(Utf8Order, fields.Keys);
    var s, t := Canonical(p, Obj(fields)).members, Canonical(q, Obj(fields)).members;
    assert |s| == |a| && |t| == |b|;
    SameKeyOrder(fields.Keys);
    if a == b {
      forall i | 0 <= i < |a| ensures a[i] in fields && (s[i] == t[i] <==> CrossingFree(fields[a[i]])) {
        CanonicalMembers(p, fields, i);
        CanonicalMembers(q, fields, i);
      }
      MembersAgree(fields, a, s, t);
    } else {
      hide SortedKeys;
      forall i | 0 <= i < |a| && i < |b| && a[i] != b[i] ensures s[i] != t[i] {
        CanonicalMembers(p, fields, i);
        CanonicalMembers(q, fields, i);
      }
      assert s != t;
    }
  }

  lemma MembersAgree(fields: map<string, JSON>, keys: seq<string>, s: seq<Member>, t: seq<Member>)
    requires |s| == |t| == |keys| && Lists(keys, fields.Keys)
    requires forall i | 0 <= i < |keys| :: keys[i] in fields && (s[i] == t[i] <==> CrossingFree(fields[keys[i]]))
    ensures s == t <==> forall k | k in fields :: CrossingFree(fields[k])
  {
    hide CrossingFree;
    if s == t {
      forall k | k in fields ensures CrossingFree(fields[k]) {
        assert k in keys;
        var i :| 0 <= i < |keys| && keys[i] == k;
        assert s[i] == t[i];
      }
    }
    assert s == t <==> forall i | 0 <= i < |keys| :: s[i] == t[i];
  }

  /** Both printers write identical bytes for a text-only value exactly when its keys never cross. */
  lemma PrintersAgree(fl: Floats, v: JSON)
    requires Faithful(fl) && OnlyTextLeaves(v)
    ensures Accepts(ReportProfile(fl), v) && Accepts(ResearchProfile(), v)
    ensures Utf8(Printed(ReportProfile(fl), v)) == Utf8(Printed(ResearchProfile(), v)) <==> CrossingFree(v)
  {
    var p, q := ReportProfile(fl), ResearchProfile();
    TextLeavesAccepted(fl, v);
    ProfilesSound(fl);
    DocumentsAgree(fl, v);
    CanonicalWellFormed(p, v);
    CanonicalWellFormed(q, v);
    var s, t := Printed(p, v), Printed(q, v);
    if Utf8(s) == Utf8(t) {
      Utf8Injective(s, t);
      assert s + [] == s && t + [] == t;
      TextRead(Canonical(p, v), [], Canonical(q, v), []);
    }
  }
}
