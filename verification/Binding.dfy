/** The strict request binder: a recursive-descent check of a JSON token stream against a shape. */
module Binding {
  import opened Json
  import opened Decimal

  /** The tokens of Go's `json.Decoder` with `UseNumber`. */
  datatype Token =
    | OpenObject
    | CloseObject
    | OpenArray
    | CloseArray
    | StrToken(s: string)
    | NumToken(literal: string)
    | BoolToken(b: bool)
    | NullToken

  predicate Closing(t: Token) { t.CloseObject? || t.CloseArray? }

  predicate Delim(t: Token) { t.OpenObject? || t.OpenArray? || Closing(t) }

  /** A shape refers to its children by number, so that shapes may be cyclic. */
  datatype Shape = Shape(
    fields: Option<map<string, nat>>, item: Option<nat>, any: bool, str: bool, boolean: bool, number: bool,
    integer: bool, nullable: bool, required: seq<string>)

  const ANY := Shape(None, None, true, false, false, false, false, false, [])

  datatype Reason =
    | Unreadable | Trailing | NotAnObject | NotAnArray | KeyNotString | Duplicate | Unknown | Missing
    | NotAString | NotABoolean | NotANumber | NotAnInteger | NotAScalar | UnexpectedDelimiter

  datatype Failure = Failure(path: string, reason: Reason)

  /** Either the tokens left after one value, or the failure. */
  datatype Outcome = Rest(tokens: seq<Token>) | Fail(failure: Failure)

  function JoinPath(parent: string, field: string): string { if parent == "" then field else parent + "." + field }

  function ItemPath(path: string, index: nat): string { path + "[" + NatText(index) + "]" }

  function FirstMissing(required: seq<string>, seen: set<string>): Option<string> {
    if required == [] then None
    else if required[0] !in seen then Some(required[0])
    else FirstMissing(required[1..], seen)
  }

  // ---- what the binder does to a token stream ----

  /** A shape that is no object, array or wildcard decides on the first token alone. */
  function Leaf(shape: Shape, token: Token): Option<Reason> {
    if shape.str then if token.StrToken? then None else Some(NotAString)
    else if shape.boolean then if token.BoolToken? then None else Some(NotABoolean)
    else if shape.number then if token.NumToken? then None else Some(NotANumber)
    else if shape.integer then if token.NumToken? && ParseInt64(token.literal).Some? then None else Some(NotAnInteger)
    else if token.OpenObject? || token.OpenArray? then Some(NotAScalar)
    else None
  }

  /** What follows the last readable token: nothing, a closing bracket that does not fit, or other text the decoder
    cannot read. */
  datatype Ending = Done | Misplaced | Garbled

  function Check(env: nat -> Shape, shape: Shape, t: seq<Token>, ending: Ending, path: string): (o: Outcome)
    ensures o.Rest? ==> |o.tokens| < |t|
    decreases |t|, 0
  {
    if t == [] then Fail(Failure(path, Unreadable))
    else if t[0].NullToken? && shape.nullable then Rest(t[1..])
    else if shape.any then
      if !Delim(t[0]) then Rest(t[1..])
      else if t[0].OpenObject? then SkipMembers(env, t[1..], ending, path)
      else if t[0].OpenArray? then SkipItems(env, t[1..], ending, path)
      else Fail(Failure(path, UnexpectedDelimiter))
    else if shape.fields.Some? then
      if t[0].OpenObject? then CheckMembers(env, shape, t[1..], ending, path, {}) else Fail(Failure(path, NotAnObject))
    else if shape.item.Some? then
      if t[0].OpenArray? then CheckItems(env, env(shape.item.value), t[1..], ending, path, 0) else Fail(Failure(path, NotAnArray))
    else match Leaf(shape, t[0])
      case None => Rest(t[1..])
      case Some(reason) => Fail(Failure(path, reason))
  }

  /** `Decoder.More`: it looks at the next character only, and stops at any closing bracket. */
  predicate More(t: seq<Token>, ending: Ending) { if t == [] then ending.Garbled? else !Closing(t[0]) }

  /** Reading the delimiter that ends an object or array. */
  function Close(t: seq<Token>, path: string): Outcome {
    if t == [] then Fail(Failure(path, Unreadable)) else Rest(t[1..])
  }

  function CheckMembers(env: nat -> Shape, shape: Shape, t: seq<Token>, ending: Ending, path: string, seen: set<string>): (o: Outcome)
    requires shape.fields.Some?
    ensures o.Rest? ==> |o.tokens| < |t|
    decreases |t|, 1
  {
    if !More(t, ending) then
      match FirstMissing(shape.required, seen)
      case Some(field) => Fail(Failure(JoinPath(path, field), Missing))
      case None => Close(t, path)
    else if t == [] then Fail(Failure(path, Unreadable))
    else if !t[0].StrToken? then Fail(Failure(path, KeyNotString))
    else
      var key := t[0].s;
      if key in seen then Fail(Failure(JoinPath(path, key), Duplicate))
      else if key !in shape.fields.value then Fail(Failure(JoinPath(path, key), Unknown))
      else match Check(env, env(shape.fields.value[key]), t[1..], ending, JoinPath(path, key))
        case Fail(f) => Fail(f)
        case Rest(r) => CheckMembers(env, shape, r, ending, path, seen + {key})
  }

  function CheckItems(env: nat -> Shape, item: Shape, t: seq<Token>, ending: Ending, path: string, index: nat): (o: Outcome)
    ensures o.Rest? ==> |o.tokens| < |t|
    decreases |t|, 1
  {
    if !More(t, ending) then Close(t, path)
    else match Check(env, item, t, ending, ItemPath(path, index))
      case Fail(f) => Fail(f)
      case Rest(r) => CheckItems(env, item, r, ending, path, index + 1)
  }

  function SkipMembers(env: nat -> Shape, t: seq<Token>, ending: Ending, path: string): (o: Outcome)
    ensures o.Rest? ==> |o.tokens| < |t|
    decreases |t|, 1
  {
    if !More(t, ending) then Close(t, path)
    else if t == [] then Fail(Failure(path, Unreadable))
    else match Check(env, ANY, t[1..], ending, path)
      case Fail(f) => Fail(f)
      case Rest(r) => SkipMembers(env, r, ending, path)
  }

  function SkipItems(env: nat -> Shape, t: seq<Token>, ending: Ending, path: string): (o: Outcome)
    ensures o.Rest? ==> |o.tokens| < |t|
    decreases |t|, 1
  {
    if !More(t, ending) then Close(t, path)
    else match Check(env, ANY, t, ending, path)
      case Fail(f) => Fail(f)
      case Rest(r) => SkipItems(env, r, ending, path)
  }

  /** The whole body: one value, then the end of the input. */
  function Strict(env: nat -> Shape, shape: Shape, t: seq<Token>, ending: Ending): Option<Failure> {
    match Check(env, shape, t, ending, "")
    case Fail(f) => Some(f)
    case Rest(r) => if r != [] then Some(Failure("", Trailing)) else if !ending.Done? then Some(Failure("", Unreadable)) else None
  }

  // ---- the cursor-driven code ----

  class Decoder {
    const tokens: seq<Token>
    const ending: Ending
    var pos: nat

    constructor (tokens: seq<Token>, ending: Ending)
      ensures Valid() && Left() == tokens && this.ending == ending
    {
      this.tokens := tokens;
      this.ending := ending;
      pos := 0;
    }

    ghost predicate Valid()
      reads this
    {
      pos <= |tokens|
    }

    ghost function Left(): seq<Token>
      requires Valid()
      reads this
    {
      tokens[pos..]
    }

    method Token() returns (t: Option<Token>)
      requires Valid()
      modifies this
      ensures Valid()
      ensures old(Left()) == [] ==> t.None? && Left() == []
      ensures old(Left()) != [] ==> t == Some(old(Left())[0]) && Left() == old(Left())[1..]
    {
      if pos == |tokens| {
        return None;
      }
      t := Some(tokens[pos]);
      pos := pos + 1;
    }

    method HasMore() returns (more: bool)
      requires Valid()
      ensures more == More(Left(), ending)
    {
      more := if pos == |tokens| then ending.Garbled? else !Closing(tokens[pos]);
    }

    /** The decoder stands behind what `o` leaves over, or the failure is the one `o` names. */
    ghost predicate Did(o: Outcome, failure: Option<Failure>)
      reads this
    {
      && Valid()
      && match o
         case Rest(r) => failure.None? && Left() == r
         case Fail(f) => failure == Some(f)
    }

    method ValidateValue(env: nat -> Shape, shape: Shape, path: string) returns (failure: Option<Failure>)
      requires Valid()
      modifies this
      ensures Did(Check(env, shape, old(Left()), ending, path), failure)
      decreases |tokens| - pos, 0
    {
      var token := Token();
      if token.None? {
        return Some(Failure(path, Unreadable));
      }
      if token.value.NullToken? && shape.nullable {
        return None;
      }
      if shape.any {
        failure := ConsumeComposite(env, token.value, path);
        return;
      }
      if shape.fields.Some? {
        if !token.value.OpenObject? {
          return Some(Failure(path, NotAnObject));
        }
        failure := ValidateMembers(env, shape, path);
        return;
      }
      if shape.item.Some? {
        if !token.value.OpenArray? {
          return Some(Failure(path, NotAnArray));
        }
        failure := ValidateItems(env, env(shape.item.value), path);
        return;
      }
      if shape.str {
        return if token.value.StrToken? then None else Some(Failure(path, NotAString));
      }
      if shape.boolean {
        return if token.value.BoolToken? then None else Some(Failure(path, NotABoolean));
      }
      if shape.number {
        return if token.value.NumToken? then None else Some(Failure(path, NotANumber));
      }
      if shape.integer {
        return if token.value.NumToken? && ParseInt64(token.value.literal).Some? then None else Some(Failure(path, NotAnInteger));
      }
      if token.value.OpenObject? || token.value.OpenArray? {
        return Some(Failure(path, NotAScalar));
      }
      return None;
    }

    method ReadClose(path: string) returns (failure: Option<Failure>)
      requires Valid()
      modifies this
      ensures Did(Close(old(Left()), path), failure)
    {
      var token := Token();
      failure := if token.None? then Some(Failure(path, Unreadable)) else None;
    }

    method ValidateMembers(env: nat -> Shape, shape: Shape, path: string) returns (failure: Option<Failure>)
      requires Valid() && shape.fields.Some?
      modifies this
      ensures Did(CheckMembers(env, shape, old(Left()), ending, path, {}), failure)
      decreases |tokens| - pos, 1
    {
      hide Check, ParseInt64, JoinPath;
      var seen: set<string> := {};
      ghost var all := CheckMembers(env, shape, Left(), ending, path, {});
      var more := HasMore();
      while more
        invariant Valid() && more == More(Left(), ending) && pos >= old(pos)
        invariant CheckMembers(env, shape, Left(), ending, path, seen) == all
        decreases |tokens| - pos
      {
        var token := Token();
        if token.None? {
          return Some(Failure(path, Unreadable));
        }
        if !token.value.StrToken? {
          return Some(Failure(path, KeyNotString));
        }
        var key := token.value.s;
        if key in seen {
          return Some(Failure(JoinPath(path, key), Duplicate));
        }
        seen := seen + {key};
        if key !in shape.fields.value {
          return Some(Failure(JoinPath(path, key), Unknown));
        }
        failure := ValidateValue(env, env(shape.fields.value[key]), JoinPath(path, key));
        if failure.Some? {
          return;
        }
        more := HasMore();
      }
      var missing := FindMissing(shape.required, seen);
      if missing.Some? {
        return Some(Failure(JoinPath(path, missing.value), Missing));
      }
      failure := ReadClose(path);
    }

    method FindMissing(required: seq<string>, seen: set<string>) returns (missing: Option<string>)
      ensures missing == FirstMissing(required, seen)
    {
      assert required[0..] == required;
      for i := 0 to |required|
        invariant FirstMissing(required, seen) == FirstMissing(required[i..], seen)
      {
        assert required[i..][1..] == required[i + 1..];
        if required[i] !in seen {
          return Some(required[i]);
        }
      }
      return None;
    }

    method ValidateItems(env: nat -> Shape, item: Shape, path: string) returns (failure: Option<Failure>)
      requires Valid()
      modifies this
      ensures Did(CheckItems(env, item, old(Left()), ending, path, 0), failure)
      decreases |tokens| - pos, 1
    {
      hide Check, ItemPath;
      var index := 0;
      ghost var all := CheckItems(env, item, Left(), ending, path, 0);
      var more := HasMore();
      while more
        invariant Valid() && more == More(Left(), ending) && pos >= old(pos)
        invariant CheckItems(env, item, Left(), ending, path, index) == all
        decreases |tokens| - pos
      {
        failure := ValidateValue(env, item, ItemPath(path, index));
        if failure.Some? {
          return;
        }
        index := index + 1;
        more := HasMore();
      }
      failure := ReadClose(path);
    }

    /** Skips the rest of a value of any kind. */
    method ConsumeComposite(env: nat -> Shape, token: Token, path: string) returns (failure: Option<Failure>)
      requires Valid()
      modifies this
      ensures Did(Check(env, ANY, [token] + old(Left()), ending, path), failure)
      decreases |tokens| - pos, 1
    {
      if !Delim(token) {
        return None;
      }
      ghost var all := Check(env, ANY, [token] + Left(), ending, path);
      assert ([token] + Left())[1..] == Left();
      var more: bool;
      if token.OpenObject? {
        hide Check;
        more := HasMore();
        while more
          invariant Valid() && more == More(Left(), ending) && pos >= old(pos)
          invariant SkipMembers(env, Left(), ending, path) == all
          decreases |tokens| - pos
        {
          var key := Token();
          if key.None? {
            return Some(Failure(path, Unreadable));
          }
          failure := ValidateValue(env, ANY, path);
          if failure.Some? {
            return;
          }
          more := HasMore();
        }
      } else if token.OpenArray? {
        hide Check;
        more := HasMore();
        while more
          invariant Valid() && more == More(Left(), ending) && pos >= old(pos)
          invariant SkipItems(env, Left(), ending, path) == all
          decreases |tokens| - pos
        {
          failure := ValidateValue(env, ANY, path);
          if failure.Some? {
            return;
          }
          more := HasMore();
        }
      } else {
        return Some(Failure(path, UnexpectedDelimiter));
      }
      failure := ReadClose(path);
    }
  }

  method DecodeStrict(env: nat -> Shape, shape: Shape, tokens: seq<Token>, ending: Ending) returns (failure: Option<Failure>)
    ensures failure == Strict(env, shape, tokens, ending)
  {
    var decoder := new Decoder(tokens, ending);
    failure := decoder.ValidateValue(env, shape, "");
    if failure.Some? {
      return;
    }
    var token := decoder.Token();
    if token.Some? {
      return Some(Failure("", Trailing));
    }
    return if !ending.Done? then Some(Failure("", Unreadable)) else None;
  }
}
