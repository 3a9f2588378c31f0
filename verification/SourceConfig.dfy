/** `sameConfig`: stored and submitted configurations compared up to the spelling of numbers. */
module SourceConfig {
  import opened Json
  import opened Decimal
  import opened JsonNumber

  /** The token is a number of section 6 of RFC 8259. */
  ghost predicate IsNumber(text: string) {
    exists l :: Grammar(l) && Render(l) == text
  }

  ghost function MeaningOf(text: string): Scaled
    requires IsNumber(text)
  {
    var l :| Grammar(l) && Render(l) == text;
    Meaning(l)
  }

  /** A value as the decoder delivers it: every number token is in the grammar. */
  ghost predicate Decoded(v: JSON) {
    match v
    case Num(literal) => IsNumber(literal)
    case Arr(items) => forall i | 0 <= i < |items| :: Decoded(items[i])
    case Obj(fields) => forall k | k in fields :: Decoded(fields[k])
    case _ => true
  }

  /** Structural equality up to numeric value. */
  ghost predicate NumericallyEqual(v: JSON, w: JSON)
    requires Decoded(v) && Decoded(w)
  {
    match (v, w)
    case (Null, Null) => true
    case (Bool(b), Bool(c)) => b == c
    case (Str(s), Str(t)) => s == t
    case (Num(l), Num(m)) => SameRational(MeaningOf(l), MeaningOf(m))
    case (Arr(a), Arr(b)) => |a| == |b| && forall i | 0 <= i < |a| :: NumericallyEqual(a[i], b[i])
    case (Obj(f), Obj(g)) => f.Keys == g.Keys && forall k | k in f :: NumericallyEqual(f[k], g[k])
    case _ => false
  }

  lemma DigitsAreNumberChars(s: string)
    requires IsDigits(s)
    ensures forall c | c in s :: NumberChar(c)
  {
  }

  lemma NormalTextIsNumber(x: Scaled)
    ensures NumberText(NormalText(x))
  {
    var n := Normal(x);
    if n.mantissa != 0 {
      var digits, e := NatText(Magnitude(n.mantissa)), n.exponent;
      var power := if e < 0 then NatText(0 - e) else NatText(e);
      DigitsAreNumberChars(digits);
      DigitsAreNumberChars(power);
      hide Normal, NatText;
      assert IntText(e) == (if e < 0 then "-" else "") + power;
      assert NormalText(x) == (if n.mantissa < 0 then "-" else "") + digits + "e" + IntText(e);
    }
  }

  /** The value with every number replaced by its canonical text. */
  ghost function NormalTree(v: JSON): JSON
    requires Decoded(v)
    decreases v
  {
    match v
    case Num(literal) => NormalTextIsNumber(MeaningOf(literal)); Num(NormalText(MeaningOf(literal)))
    case Arr(items) => Arr(seq(|items|, i requires 0 <= i < |items| => NormalTree(items[i])))
    case Obj(fields) => Obj(map k | k in fields :: NormalTree(fields[k]))
    case _ => v
  }

  /** `normalizeJSONValue`: rewrites the slices and maps of a freshly decoded value in place. */
  method NormalizeJSONValue(value: JSON) returns (normalized: Option<JSON>)
    requires Decoded(value)
    ensures normalized == Some(NormalTree(value))
    decreases value
  {
    match value {
      case Num(literal) =>
        var canonical := NormalizeJSONNumber(literal);
        ghost var l :| Grammar(l) && Render(l) == literal && MeaningOf(literal) == Meaning(l);
        NormalTextIsNumber(Meaning(l));
        assert canonical == Some(NormalText(Meaning(l)));
        return Some(Num(canonical.value));
      case Arr(items) =>
        var typed := items;
        for index := 0 to |items|
          invariant |typed| == |items|
          invariant forall i | 0 <= i < index :: typed[i] == NormalTree(items[i])
          invariant forall i | index <= i < |items| :: typed[i] == items[i]
        {
          var item := NormalizeJSONValue(items[index]);
          typed := typed[index := item.value];
        }
        assert typed == NormalTree(value).items;
        return Some(Arr(typed));
      case Obj(fields) =>
        var typed := fields;
        var remaining := fields.Keys;
        while remaining != {}
          invariant remaining <= fields.Keys == typed.Keys
          invariant forall k | k in fields && k !in remaining :: typed[k] == NormalTree(fields[k])
          invariant forall k | k in remaining :: typed[k] == fields[k]
          decreases remaining
        {
          var key :| key in remaining;
          var item := NormalizeJSONValue(fields[key]);
          typed := typed[key := item.value];
          remaining := remaining - {key};
        }
        assert typed == NormalTree(value).fields;
        return Some(Obj(typed));
      case _ =>
        return Some(value);
    }
  }

  /** `sameConfig` on two raw messages that decode to `left` and `right`, `None` when they do not. */
  method SameConfig(left: Option<JSON>, right: Option<JSON>) returns (same: bool)
    requires left.Some? ==> Decoded(left.value)
    requires right.Some? ==> Decoded(right.value)
    ensures same <==> left.Some? && right.Some? && NumericallyEqual(left.value, right.value)
  {
    if left.None? || right.None? {
      return false;
    }
    var leftValue := NormalizeJSONValue(left.value);
    var rightValue := NormalizeJSONValue(right.value);
    NormalTreeDecides(left.value, right.value);
    return leftValue == rightValue;
  }

  /** The rewritten trees are equal exactly when the values are equal up to the spelling of numbers. */
  lemma {:induction false} NormalTreeDecides(v: JSON, w: JSON)
    requires Decoded(v) && Decoded(w)
    ensures NormalTree(v) == NormalTree(w) <==> NumericallyEqual(v, w)
    decreases v
  {
    match (v, w) {
      case (Num(l), Num(m)) => NormalTextDecides(MeaningOf(l), MeaningOf(m));
      case (Arr(a), Arr(b)) =>
        var s, t := NormalTree(v).items, NormalTree(w).items;
        forall i | 0 <= i < |a| && i < |b| ensures s[i] == t[i] <==> NumericallyEqual(a[i], b[i]) {
          NormalTreeDecides(a[i], b[i]);
        }
        assert s == t <==> |a| == |b| && forall i | 0 <= i < |a| :: s[i] == t[i];
      case (Obj(f), Obj(g)) =>
        var s, t := NormalTree(v).fields, NormalTree(w).fields;
        assert s.Keys == f.Keys && t.Keys == g.Keys;
        forall k | k in f && k in g ensures s[k] == t[k] <==> NumericallyEqual(f[k], g[k]) {
          NormalTreeDecides(f[k], g[k]);
        }
        assert s == t <==> f.Keys == g.Keys && forall k | k in f :: s[k] == t[k];
      case _ =>
    }
  }

  /** `sameConfig` is an equivalence relation on decoded configurations. */
  lemma SameConfigIsEquivalence(u: JSON, v: JSON, w: JSON)
    requires Decoded(u) && Decoded(v) && Decoded(w)
    ensures NumericallyEqual(u, u)
    ensures NumericallyEqual(u, v) ==> NumericallyEqual(v, u)
    ensures NumericallyEqual(u, v) && NumericallyEqual(v, w) ==> NumericallyEqual(u, w)
  {
    NormalTreeDecides(u, u);
    NormalTreeDecides(u, v);
    NormalTreeDecides(v, u);
    NormalTreeDecides(v, w);
    NormalTreeDecides(u, w);
  }
}
