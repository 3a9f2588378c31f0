/** Where a refused body goes wrong: the path of the binder's failure names a place that violates the shape. */
module BindingPlaces {
  import opened Json
  import opened Decimal
  import opened Binding
  import opened BindingValues

  /** One step into a value: to the member with a key, or to the item at a position. */
  datatype Step = Field(key: string) | Index(i: nat)

  /** The text of a place: keys are joined by dots, positions stand in brackets. */
  function PathText(path: string, place: seq<Step>): string
    decreases |place|
  {
    if place == [] then path
    else match place[0]
      case Field(key) => PathText(if path == "" then key else path + "." + key, place[1..])
      case Index(i) => PathText(path + "[" + NatText(i) + "]", place[1..])
  }

  /** The value itself has the wrong kind. */
  ghost predicate WrongKind(v: Value, shape: Shape, reason: Reason) {
    if shape.fields.Some? then reason == NotAnObject && !v.ObjValue?
    else if shape.item.Some? then reason == NotAnArray && !v.ArrValue?
    else if shape.str then reason == NotAString && !v.StrValue?
    else if shape.boolean then reason == NotABoolean && !v.BoolValue?
    else if shape.number then reason == NotANumber && !v.NumValue?
    else if shape.integer then reason == NotAnInteger && !(v.NumValue? && ParseInt64(v.literal).Some?)
    else reason == NotAScalar && (v.ObjValue? || v.ArrValue?)
  }

  /** The object has a member that is twice there or not allowed, or lacks one that is required. */
  ghost predicate WrongMember(v: Value, shape: Shape, key: string, reason: Reason) {
    && v.ObjValue? && shape.fields.Some?
    && match reason
       case Duplicate => exists i, j | 0 <= i < j < |v.members| :: v.members[i].key == v.members[j].key == key
       case Unknown => key !in shape.fields.value && exists m | m in v.members :: m.key == key
       case Missing => key in shape.required && forall m | m in v.members :: m.key != key
       case _ => false
  }

  /** At that place the body breaks the rule the reason names. */
  ghost predicate Violated(env: nat -> Shape, v: Value, shape: Shape, place: seq<Step>, reason: Reason)
    decreases |place|
  {
    if (v.NullValue? && shape.nullable) || shape.any then false
    else if place == [] then WrongKind(v, shape, reason)
    else match place[0]
      case Field(key) =>
        || (|place| == 1 && WrongMember(v, shape, key, reason))
        || (v.ObjValue? && shape.fields.Some? && key in shape.fields.value
            && exists m | m in v.members :: m.key == key && Violated(env, m.value, env(shape.fields.value[key]), place[1..], reason))
      case Index(i) =>
        && v.ArrValue? && shape.fields.None? && shape.item.Some? && i < |v.items|
        && Violated(env, v.items[i], env(shape.item.value), place[1..], reason)
  }

  /** A reported failure is a violation at the place its path names. */
  lemma {:induction false} ProblemLocated(env: nat -> Shape, v: Value, shape: Shape, path: string) returns (place: seq<Step>)
    requires Problem(env, v, shape, path).Some?
    ensures var f := Problem(env, v, shape, path).value;
            f.path == PathText(path, place) && Violated(env, v, shape, place, f.reason)
    decreases v, 0
  {
    if shape.fields.Some? && v.ObjValue? {
      place := MemberLocated(env, v, v.members, shape, path, {}, 0);
    } else if shape.fields.None? && shape.item.Some? && v.ArrValue? {
      assert v.items[0..] == v.items;
      place := ItemLocated(env, v, v.items, shape, path, 0);
    } else {
      place := [];
    }
  }

  lemma {:induction false} MemberLocated(env: nat -> Shape, v: Value, members: seq<Member>, shape: Shape, path: string, seen: set<string>, n: nat)
    returns (place: seq<Step>)
    requires v.ObjValue? && shape.fields.Some? && !shape.any && n <= |v.members| && members == v.members[n..]
    requires forall k :: k in seen <==> exists i | 0 <= i < n :: v.members[i].key == k
    requires MembersProblem(env, members, shape, path, seen).Some?
    ensures var f := MembersProblem(env, members, shape, path, seen).value;
            f.path == PathText(path, place) && Violated(env, v, shape, place, f.reason)
    decreases members, 1
  {
    if members == [] {
      var field := FirstMissing(shape.required, seen).value;
      MissingField(shape.required, seen);
      place := [Field(field)];
      assert WrongMember(v, shape, field, Missing);
    } else {
      var m := members[0];
      assert m == v.members[n] && m in v.members;
      if m.key in seen {
        place := [Field(m.key)];
        var i :| 0 <= i < n && v.members[i].key == m.key;
        assert WrongMember(v, shape, m.key, Duplicate);
      } else if m.key !in shape.fields.value {
        place := [Field(m.key)];
        assert WrongMember(v, shape, m.key, Unknown);
      } else if Problem(env, m.value, env(shape.fields.value[m.key]), JoinPath(path, m.key)).Some? {
        var tail := ProblemLocated(env, m.value, env(shape.fields.value[m.key]), JoinPath(path, m.key));
        place := [Field(m.key)] + tail;
        assert place[1..] == tail;
      } else {
        place := MemberLocated(env, v, members[1..], shape, path, seen + {m.key}, n + 1);
      }
    }
  }

  lemma {:induction false} MissingField(required: seq<string>, seen: set<string>)
    requires FirstMissing(required, seen).Some?
    ensures FirstMissing(required, seen).value in required && FirstMissing(required, seen).value !in seen
  {
    if required[0] in seen { MissingField(required[1..], seen); }
  }

  lemma {:induction false} ItemLocated(env: nat -> Shape, v: Value, items: seq<Value>, shape: Shape, path: string, n: nat)
    returns (place: seq<Step>)
    requires v.ArrValue? && shape.fields.None? && shape.item.Some? && !shape.any && n <= |v.items| && items == v.items[n..]
    requires ItemsProblem(env, items, env(shape.item.value), path, n).Some?
    ensures var f := ItemsProblem(env, items, env(shape.item.value), path, n).value;
            f.path == PathText(path, place) && Violated(env, v, shape, place, f.reason)
    decreases items, 1
  {
    var item := env(shape.item.value);
    assert items[0] == v.items[n];
    if Problem(env, items[0], item, ItemPath(path, n)).Some? {
      var tail := ProblemLocated(env, items[0], item, ItemPath(path, n));
      place := [Index(n)] + tail;
      assert place[1..] == tail;
    } else {
      place := ItemLocated(env, v, items[1..], shape, path, n + 1);
    }
  }

  lemma {:induction false} ViolatedRefused(env: nat -> Shape, v: Value, shape: Shape, place: seq<Step>, reason: Reason)
    requires Violated(env, v, shape, place, reason)
    ensures !Conforms(env, v, shape)
    decreases |place|
  {
    if place != [] {
      match place[0] {
        case Field(key) =>
          if |place| == 1 && WrongMember(v, shape, key, reason) {
            WrongMemberRefused(env, v, shape, key, reason);
          } else {
            var m :| m in v.members && m.key == key && Violated(env, m.value, env(shape.fields.value[key]), place[1..], reason);
            ViolatedRefused(env, m.value, env(shape.fields.value[key]), place[1..], reason);
          }
        case Index(i) =>
          ViolatedRefused(env, v.items[i], env(shape.item.value), place[1..], reason);
      }
    }
  }

  lemma WrongMemberRefused(env: nat -> Shape, v: Value, shape: Shape, key: string, reason: Reason)
    requires WrongMember(v, shape, key, reason) && !shape.any
    ensures !Conforms(env, v, shape)
  {
  }

  /** A value conforms exactly when no place violates its shape. */
  lemma ConformsUnlessViolated(env: nat -> Shape, v: Value, shape: Shape)
    ensures Conforms(env, v, shape) <==> !exists place, reason :: Violated(env, v, shape, place, reason)
  {
    ConformsIff(env, v, shape, "");
    if !Conforms(env, v, shape) {
      var place := ProblemLocated(env, v, shape, "");
      assert Violated(env, v, shape, place, Problem(env, v, shape, "").value.reason);
    }
    forall place, reason | Violated(env, v, shape, place, reason) ensures !Conforms(env, v, shape) {
      ViolatedRefused(env, v, shape, place, reason);
    }
  }

  /** A body that is one value is either accepted, or refused with the path of a place that violates the shape and the rule
    it breaks there. */
  lemma RefusalLocated(env: nat -> Shape, v: Value, shape: Shape) returns (place: seq<Step>)
    requires !Conforms(env, v, shape)
    ensures var f := Strict(env, shape, Tokens(v), Done);
            f.Some? && f.value.path == PathText("", place) && Violated(env, v, shape, place, f.value.reason)
  {
    ConformsIff(env, v, shape, "");
    place := ProblemLocated(env, v, shape, "");
    ExactValue(env, v, shape, [], Done, "");
    assert Tokens(v) + [] == Tokens(v);
    hide Check, Problem, Tokens, Conforms, Violated;
  }
}
