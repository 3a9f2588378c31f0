/** The binder accepts exactly the documents that are one value of the shape. */
module BindingValues {
  import opened Json
  import opened Sequences
  import opened Binding
  import opened Decimal
  import JsonNumber

  /** A JSON document with its members in order: a key may occur twice. */
  datatype Value =
    | NullValue
    | BoolValue(b: bool)
    | StrValue(s: string)
    | NumValue(literal: string)
    | ArrValue(items: seq<Value>)
    | ObjValue(members: seq<Member>)

  datatype Member = Member(key: string, value: Value)

  function Tokens(v: Value): (t: seq<Token>)
    ensures t != [] && !Closing(t[0])
  {
    match v
    case NullValue => [NullToken]
    case BoolValue(b) => [BoolToken(b)]
    case StrValue(s) => [StrToken(s)]
    case NumValue(literal) => [NumToken(literal)]
    case ArrValue(items) => [OpenArray] + ItemTokens(items) + [CloseArray]
    case ObjValue(members) => [OpenObject] + MemberTokens(members) + [CloseObject]
  }

  function ItemTokens(items: seq<Value>): seq<Token> {
    if items == [] then [] else Tokens(items[0]) + ItemTokens(items[1..])
  }

  function MemberTokens(members: seq<Member>): seq<Token> {
    if members == [] then [] else [StrToken(members[0].key)] + Tokens(members[0].value) + MemberTokens(members[1..])
  }

  // ---- what a shape means ----

  predicate DistinctKeys(members: seq<Member>) {
    forall i, j | 0 <= i < j < |members| :: members[i].key != members[j].key
  }

  function Keys(members: seq<Member>): set<string> { set m | m in members :: m.key }

  predicate Conforms(env: nat -> Shape, v: Value, shape: Shape)
    decreases v
  {
    || (v.NullValue? && shape.nullable)
    || if shape.any then true
       else if shape.fields.Some? then
         && v.ObjValue? && DistinctKeys(v.members)
         && (forall m | m in v.members :: m.key in shape.fields.value && Conforms(env, m.value, env(shape.fields.value[m.key])))
         && (forall k | k in shape.required :: k in Keys(v.members))
       else if shape.item.Some? then v.ArrValue? && forall w | w in v.items :: Conforms(env, w, env(shape.item.value))
       else if shape.str then v.StrValue?
       else if shape.boolean then v.BoolValue?
       else if shape.number then v.NumValue?
       else if shape.integer then v.NumValue? && ParseInt64(v.literal).Some?
       else !v.ArrValue? && !v.ObjValue?
  }

  /** A shape that asks for an integer: no wildcard, object, array, string, boolean or number in general. */
  predicate IntegerShape(shape: Shape) {
    shape.integer && !shape.any && shape.fields.None? && shape.item.None? && !shape.str && !shape.boolean && !shape.number
  }

  /** An integer shape admits a number of section 6 of RFC 8259 exactly when it is written without fraction and exponent
    and denotes a 64-bit integer; of the other values it admits null alone, and that only when it is nullable. */
  lemma IntegerConforms(env: nat -> Shape, shape: Shape, l: JsonNumber.Literal, v: Value)
    requires IntegerShape(shape) && JsonNumber.Grammar(l)
    ensures Conforms(env, NumValue(JsonNumber.Render(l)), shape) <==>
            && l.fraction.None? && l.exponent.None?
            && exists i | -0x8000_0000_0000_0000 <= i < 0x8000_0000_0000_0000 :: SameRational(JsonNumber.Meaning(l), Scaled(i, 0))
    ensures !v.NumValue? ==> (Conforms(env, v, shape) <==> v.NullValue? && shape.nullable)
  {
    JsonNumber.Int64Read(l);
    hide ParseInt64, JsonNumber.Render, JsonNumber.Grammar, JsonNumber.Meaning, SameRational;
  }

  // ---- the first failure in document order ----

  function Problem(env: nat -> Shape, v: Value, shape: Shape, path: string): Option<Failure>
    decreases v, 0
  {
    if (v.NullValue? && shape.nullable) || shape.any then None
    else if shape.fields.Some? then
      if v.ObjValue? then MembersProblem(env, v.members, shape, path, {}) else Some(Failure(path, NotAnObject))
    else if shape.item.Some? then
      if v.ArrValue? then ItemsProblem(env, v.items, env(shape.item.value), path, 0) else Some(Failure(path, NotAnArray))
    else match Leaf(shape, Tokens(v)[0])
      case None => None
      case Some(reason) => Some(Failure(path, reason))
  }

  function MembersProblem(env: nat -> Shape, members: seq<Member>, shape: Shape, path: string, seen: set<string>): Option<Failure>
    requires shape.fields.Some?
    decreases members, 1
  {
    if members == [] then
      match FirstMissing(shape.required, seen)
      case Some(field) => Some(Failure(JoinPath(path, field), Missing))
      case None => None
    else
      var key := members[0].key;
      if key in seen then Some(Failure(JoinPath(path, key), Duplicate))
      else if key !in shape.fields.value then Some(Failure(JoinPath(path, key), Unknown))
      else match Problem(env, members[0].value, env(shape.fields.value[key]), JoinPath(path, key))
        case Some(f) => Some(f)
        case None => MembersProblem(env, members[1..], shape, path, seen + {key})
  }

  function ItemsProblem(env: nat -> Shape, items: seq<Value>, item: Shape, path: string, index: nat): Option<Failure>
    decreases items, 1
  {
    if items == [] then None
    else match Problem(env, items[0], item, ItemPath(path, index))
      case Some(f) => Some(f)
      case None => ItemsProblem(env, items[1..], item, path, index + 1)
  }

  // ---- there is a failure exactly when the value does not conform ----

  lemma {:induction false} FirstMissingNone(required: seq<string>, seen: set<string>)
    ensures FirstMissing(required, seen).None? <==> forall k | k in required :: k in seen
  {
    if required != [] { FirstMissingNone(required[1..], seen); }
  }

  lemma {:induction false} ConformsIff(env: nat -> Shape, v: Value, shape: Shape, path: string)
    ensures Conforms(env, v, shape) <==> Problem(env, v, shape, path).None?
    decreases v, 0
  {
    if (v.NullValue? && shape.nullable) || shape.any {
    } else if shape.fields.Some? {
      if v.ObjValue? {
        MembersConformIff(env, v.members, shape, path, {});
      }
    } else if shape.item.Some? {
      if v.ArrValue? {
        ItemsConformIff(env, v.items, env(shape.item.value), path, 0);
      }
    }
  }

  lemma {:induction false} ItemsConformIff(env: nat -> Shape, items: seq<Value>, item: Shape, path: string, index: nat)
    ensures (forall w | w in items :: Conforms(env, w, item)) <==> ItemsProblem(env, items, item, path, index).None?
    decreases items, 1
  {
    if items != [] {
      ConformsIff(env, items[0], item, ItemPath(path, index));
      ItemsConformIff(env, items[1..], item, path, index + 1);
      assert items == [items[0]] + items[1..];
    }
  }

  ghost predicate MembersConform(env: nat -> Shape, members: seq<Member>, shape: Shape, seen: set<string>)
    requires shape.fields.Some?
  {
    && DistinctKeys(members)
    && (forall m | m in members :: m.key !in seen)
    && (forall m | m in members :: m.key in shape.fields.value && Conforms(env, m.value, env(shape.fields.value[m.key])))
    && (forall k | k in shape.required :: k in seen + Keys(members))
  }

  lemma DistinctKeysStep(members: seq<Member>)
    requires members != []
    ensures DistinctKeys(members) <==> DistinctKeys(members[1..]) && forall m | m in members[1..] :: m.key != members[0].key
  {
    var tail := members[1..];
    if DistinctKeys(members) {
      forall m | m in tail ensures m.key != members[0].key {
        var k :| 0 <= k < |tail| && tail[k] == m;
        assert members[k + 1] == m;
      }
      forall i, j | 0 <= i < j < |tail| ensures tail[i].key != tail[j].key {
        assert members[i + 1].key != members[j + 1].key;
      }
    }
    if DistinctKeys(tail) && forall m | m in tail :: m.key != members[0].key {
      forall i, j | 0 <= i < j < |members| ensures members[i].key != members[j].key {
        assert members[j] == tail[j - 1];
        if i > 0 { assert members[i] == tail[i - 1]; }
      }
    }
  }

  lemma MembersConformStep(env: nat -> Shape, members: seq<Member>, shape: Shape, seen: set<string>)
    requires shape.fields.Some? && members != []
    ensures MembersConform(env, members, shape, seen) <==>
              && members[0].key !in seen && members[0].key in shape.fields.value
              && Conforms(env, members[0].value, env(shape.fields.value[members[0].key]))
              && MembersConform(env, members[1..], shape, seen + {members[0].key})
  {
    var head, tail := members[0], members[1..];
    DistinctKeysStep(members);
    hide Conforms, DistinctKeys;
    assert members == [head] + tail;
    assert seen + Keys(members) == seen + {head.key} + Keys(tail);
    assert forall m :: m in members <==> m == head || m in tail;
  }

  lemma {:induction false} MembersConformIff(env: nat -> Shape, members: seq<Member>, shape: Shape, path: string, seen: set<string>)
    requires shape.fields.Some?
    ensures MembersConform(env, members, shape, seen) <==> MembersProblem(env, members, shape, path, seen).None?
    decreases members, 1
  {
    if members == [] {
      FirstMissingNone(shape.required, seen);
      assert seen + Keys(members) == seen;
    } else {
      var key := members[0].key;
      MembersConformStep(env, members, shape, seen);
      if key in shape.fields.value {
        ConformsIff(env, members[0].value, env(shape.fields.value[key]), JoinPath(path, key));
      }
      MembersConformIff(env, members[1..], shape, path, seen + {key});
      hide Conforms, MembersConform, Problem;
    }
  }

  // ---- exact consumption ----

  function Answer(problem: Option<Failure>, rest: seq<Token>): Outcome {
    match problem
    case None => Rest(rest)
    case Some(f) => Fail(f)
  }

  /** Bracketed by its delimiters, a composite leaves its content, the closing delimiter and the rest. */
  lemma Opened(open: Token, content: seq<Token>, close: Token, rest: seq<Token>)
    ensures ([open] + content + [close] + rest)[0] == open
    ensures ([open] + content + [close] + rest)[1..] == content + ([close] + rest)
  {
  }

  lemma Keyed(key: Token, value: seq<Token>, more: seq<Token>, rest: seq<Token>)
    ensures ([key] + value + more + rest)[0] == key
    ensures ([key] + value + more + rest)[1..] == value + (more + rest)
  {
  }

  /** On the tokens of a value followed by anything, the binder consumes exactly the value, or reports
    its first failure. */
  lemma {:induction false} ExactValue(env: nat -> Shape, v: Value, shape: Shape, rest: seq<Token>, ending: Ending, path: string)
    ensures Check(env, shape, Tokens(v) + rest, ending, path) == Answer(Problem(env, v, shape, path), rest)
    decreases v, 0
  {
    var t := Tokens(v) + rest;
    assert t[0] == Tokens(v)[0];
    match v {
      case ArrValue(items) =>
        Opened(OpenArray, ItemTokens(items), CloseArray, rest);
        if shape.any {
          ExactSkippedItems(env, items, [CloseArray] + rest, ending, path);
        } else if shape.fields.None? && shape.item.Some? {
          ExactItems(env, items, env(shape.item.value), rest, ending, path, 0);
        }
      case ObjValue(members) =>
        Opened(OpenObject, MemberTokens(members), CloseObject, rest);
        if shape.any {
          ExactSkippedMembers(env, members, [CloseObject] + rest, ending, path);
        } else if shape.fields.Some? {
          ExactMembers(env, members, shape, rest, ending, path, {});
        }
      case _ =>
        assert t[1..] == rest;
    }
  }

  lemma {:induction false} ExactItems(env: nat -> Shape, items: seq<Value>, item: Shape, rest: seq<Token>, ending: Ending, path: string, index: nat)
    ensures CheckItems(env, item, ItemTokens(items) + ([CloseArray] + rest), ending, path, index)
         == Answer(ItemsProblem(env, items, item, path, index), rest)
    decreases items, 1
  {
    var after := [CloseArray] + rest;
    if items == [] {
      assert ItemTokens(items) + after == after && after[1..] == rest;
    } else {
      var more := ItemTokens(items[1..]) + after;
      Regroup(Tokens(items[0]), ItemTokens(items[1..]), after);
      ExactValue(env, items[0], item, more, ending, ItemPath(path, index));
      ExactItems(env, items[1..], item, rest, ending, path, index + 1);
      hide Check, Problem, Tokens, ItemPath;
      assert ItemTokens(items) + after == Tokens(items[0]) + more;
      assert (Tokens(items[0]) + more)[0] == Tokens(items[0])[0];
    }
  }

  lemma {:induction false} ExactMembers(env: nat -> Shape, members: seq<Member>, shape: Shape, rest: seq<Token>, ending: Ending, path: string, seen: set<string>)
    requires shape.fields.Some?
    ensures CheckMembers(env, shape, MemberTokens(members) + ([CloseObject] + rest), ending, path, seen)
         == Answer(MembersProblem(env, members, shape, path, seen), rest)
    decreases members, 1
  {
    var after := [CloseObject] + rest;
    if members == [] {
      assert MemberTokens(members) + after == after && after[1..] == rest;
    } else {
      var key, value, tail := members[0].key, members[0].value, members[1..];
      var more := MemberTokens(tail) + after;
      Keyed(StrToken(key), Tokens(value), MemberTokens(tail), after);
      if key in shape.fields.value {
        ExactValue(env, value, env(shape.fields.value[key]), more, ending, JoinPath(path, key));
      }
      ExactMembers(env, tail, shape, rest, ending, path, seen + {key});
      hide Check, Problem, Tokens, JoinPath;
      assert MemberTokens(members) == [StrToken(key)] + Tokens(value) + MemberTokens(tail);
    }
  }

  lemma {:induction false} ExactSkippedItems(env: nat -> Shape, items: seq<Value>, after: seq<Token>, ending: Ending, path: string)
    requires after != [] && Closing(after[0])
    ensures SkipItems(env, ItemTokens(items) + after, ending, path) == Rest(after[1..])
    decreases items, 1
  {
    if items == [] {
      assert ItemTokens(items) + after == after;
    } else {
      var more := ItemTokens(items[1..]) + after;
      Regroup(Tokens(items[0]), ItemTokens(items[1..]), after);
      ExactValue(env, items[0], ANY, more, ending, path);
      ExactSkippedItems(env, items[1..], after, ending, path);
      hide Check, Tokens;
      assert ItemTokens(items) + after == Tokens(items[0]) + more;
      assert (Tokens(items[0]) + more)[0] == Tokens(items[0])[0];
    }
  }

  lemma {:induction false} ExactSkippedMembers(env: nat -> Shape, members: seq<Member>, after: seq<Token>, ending: Ending, path: string)
    requires after != [] && Closing(after[0])
    ensures SkipMembers(env, MemberTokens(members) + after, ending, path) == Rest(after[1..])
    decreases members, 1
  {
    if members == [] {
      assert MemberTokens(members) + after == after;
    } else {
      var key, value, tail := members[0].key, members[0].value, members[1..];
      Keyed(StrToken(key), Tokens(value), MemberTokens(tail), after);
      ExactValue(env, value, ANY, MemberTokens(tail) + after, ending, path);
      ExactSkippedMembers(env, tail, after, ending, path);
      hide Check, Tokens;
      assert MemberTokens(members) == [StrToken(key)] + Tokens(value) + MemberTokens(tail);
    }
  }

  // ---- a stream that ends early is never accepted ----

  lemma Dropped(s: seq<Token>, t: seq<Token>)
    requires s != []
    ensures (s + t)[0] == s[0] && (s + t)[1..] == s[1..] + t
  {
  }

  /** Success does not depend on what follows. */
  lemma {:induction false} Extension(env: nat -> Shape, shape: Shape, s: seq<Token>, t: seq<Token>, ending: Ending, path: string)
    requires Check(env, shape, s, ending, path).Rest?
    ensures Check(env, shape, s + t, ending, path) == Rest(Check(env, shape, s, ending, path).tokens + t)
    decreases |s|, 0
  {
    Dropped(s, t);
    if s[0].NullToken? && shape.nullable {
    } else if shape.any {
      if s[0].OpenObject? {
        ExtendSkippedMembers(env, s[1..], t, ending, path);
      } else if s[0].OpenArray? {
        ExtendSkippedItems(env, s[1..], t, ending, path);
      }
    } else if shape.fields.Some? {
      ExtendMembers(env, shape, s[1..], t, ending, path, {});
    } else if shape.item.Some? {
      ExtendItems(env, env(shape.item.value), s[1..], t, ending, path, 0);
    }
  }

  lemma {:induction false} ExtendMembers(env: nat -> Shape, shape: Shape, s: seq<Token>, t: seq<Token>, ending: Ending, path: string, seen: set<string>)
    requires shape.fields.Some? && CheckMembers(env, shape, s, ending, path, seen).Rest?
    ensures CheckMembers(env, shape, s + t, ending, path, seen) == Rest(CheckMembers(env, shape, s, ending, path, seen).tokens + t)
    decreases |s|, 1
  {
    Dropped(s, t);
    if More(s, ending) {
      var key := s[0].s;
      Extension(env, env(shape.fields.value[key]), s[1..], t, ending, JoinPath(path, key));
      var r := Check(env, env(shape.fields.value[key]), s[1..], ending, JoinPath(path, key)).tokens;
      ExtendMembers(env, shape, r, t, ending, path, seen + {key});
    }
  }

  lemma {:induction false} ExtendItems(env: nat -> Shape, item: Shape, s: seq<Token>, t: seq<Token>, ending: Ending, path: string, index: nat)
    requires CheckItems(env, item, s, ending, path, index).Rest?
    ensures CheckItems(env, item, s + t, ending, path, index) == Rest(CheckItems(env, item, s, ending, path, index).tokens + t)
    decreases |s|, 1
  {
    Dropped(s, t);
    if More(s, ending) {
      Extension(env, item, s, t, ending, ItemPath(path, index));
      ExtendItems(env, item, Check(env, item, s, ending, ItemPath(path, index)).tokens, t, ending, path, index + 1);
    }
  }

  lemma {:induction false} ExtendSkippedMembers(env: nat -> Shape, s: seq<Token>, t: seq<Token>, ending: Ending, path: string)
    requires SkipMembers(env, s, ending, path).Rest?
    ensures SkipMembers(env, s + t, ending, path) == Rest(SkipMembers(env, s, ending, path).tokens + t)
    decreases |s|, 1
  {
    Dropped(s, t);
    if More(s, ending) {
      Extension(env, ANY, s[1..], t, ending, path);
      ExtendSkippedMembers(env, Check(env, ANY, s[1..], ending, path).tokens, t, ending, path);
    }
  }

  lemma {:induction false} ExtendSkippedItems(env: nat -> Shape, s: seq<Token>, t: seq<Token>, ending: Ending, path: string)
    requires SkipItems(env, s, ending, path).Rest?
    ensures SkipItems(env, s + t, ending, path) == Rest(SkipItems(env, s, ending, path).tokens + t)
    decreases |s|, 1
  {
    Dropped(s, t);
    if More(s, ending) {
      Extension(env, ANY, s, t, ending, path);
      ExtendSkippedItems(env, Check(env, ANY, s, ending, path).tokens, t, ending, path);
    }
  }

  lemma TruncatedRefused(env: nat -> Shape, v: Value, shape: Shape, s: seq<Token>, missing: seq<Token>, ending: Ending, path: string)
    requires Tokens(v) == s + missing && missing != []
    ensures Check(env, shape, s, ending, path).Fail?
  {
    ExactValue(env, v, shape, [], ending, path);
    assert Tokens(v) + [] == Tokens(v);
    hide Check, Tokens, Problem;
    if Check(env, shape, s, ending, path).Rest? {
      Extension(env, shape, s, missing, ending, path);
    }
  }

  // ---- the body ----

  /** What the decoder can deliver: a whole value and more, or a value cut short. */
  ghost predicate DecoderStream(t: seq<Token>) {
    || (exists v: Value, rest: seq<Token> :: t == Tokens(v) + rest)
    || (exists v: Value, missing: seq<Token> :: missing != [] && Tokens(v) == t + missing)
  }

  /** A body is accepted if and only if it is exactly one value and that value conforms to the shape. */
  lemma AcceptedIffConforming(env: nat -> Shape, shape: Shape, t: seq<Token>, ending: Ending)
    requires DecoderStream(t)
    ensures Strict(env, shape, t, ending).None? <==>
            ending.Done? && exists v :: t == Tokens(v) && Conforms(env, v, shape)
  {
    if v, rest :| t == Tokens(v) + rest {
      WholeValue(env, shape, v, rest, ending);
    } else {
      var v, missing :| missing != [] && Tokens(v) == t + missing;
      TruncatedRefused(env, v, shape, t, missing, ending, "");
    }
    forall v | t == Tokens(v) && Conforms(env, v, shape) && ending.Done? ensures Strict(env, shape, t, ending).None? {
      assert t + [] == t;
      WholeValue(env, shape, v, [], ending);
    }
  }

  lemma WholeValue(env: nat -> Shape, shape: Shape, v: Value, rest: seq<Token>, ending: Ending)
    ensures Strict(env, shape, Tokens(v) + rest, ending).None? <==> ending.Done? && rest == [] && Conforms(env, v, shape)
    ensures rest == [] ==> Tokens(v) + rest == Tokens(v)
  {
    ExactValue(env, v, shape, rest, ending, "");
    ConformsIff(env, v, shape, "");
    hide Check, Conforms, Problem, Tokens;
  }

  /** Shapes may be cyclic: lists of every length conform to one shape that refers to itself. */
  lemma {:induction false} CyclicShape(depth: nat)
    ensures var list := Shape(Some(map["next" := 0]), None, false, false, false, false, false, true, []);
            Conforms(_ => list, Nested(depth), list)
  {
    if depth > 0 { CyclicShape(depth - 1); }
  }

  function Nested(depth: nat): Value {
    if depth == 0 then NullValue else ObjValue([Member("next", Nested(depth - 1))])
  }
}
