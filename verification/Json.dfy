/** Shared value types: decoded JSON as Go's `encoding/json` delivers it with `UseNumber`. */
module Json {

  datatype Option<+T> = None | Some(value: T)

  predicate NumberChar(c: char) { '0' <= c <= '9' || c == '-' || c == '+' || c == '.' || c == 'e' || c == 'E' }

  /** The characters of a number token: it starts with a digit or a minus sign. */
  predicate NumberText(text: string) {
    text != [] && ('0' <= text[0] <= '9' || text[0] == '-') && forall c | c in text :: NumberChar(c)
  }

  /** The decoder hands out number tokens only in this form. */
  type NumberLiteral = text: string | NumberText(text) witness "0"

  /** Object members form a map, so they have no order and no duplicates; numbers keep their literal. */
  datatype JSON =
    | Null
    | Bool(b: bool)
    | Str(s: string)
    | Num(literal: NumberLiteral)
    | Arr(items: seq<JSON>)
    | Obj(fields: map<string, JSON>)
}
