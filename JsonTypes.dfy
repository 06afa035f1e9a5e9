/** Values, tokens, outcomes and character classes shared by the tokenizer,
    the parser and the serializer of src/JSON.ts. */
module JsonTypes {

  /** The `value` field of a token: a string (punctuation and string tokens),
      a number (kept as the lexeme handed to `parseFloat`), a boolean or null. */
  datatype TokenValue = Text(text: string) | Number(lexeme: string) | Boolean(b: bool) | NullValue

  /** A token `{type, value}`; `kind` is the `type` string. */
  datatype Token = Token(kind: string, value: TokenValue)

  /** The token types the tokenizer emits. */
  const Punctuation: string := "punctuation"
  const StringKind: string := "string"
  const NumberKind: string := "number"
  const BooleanKind: string := "boolean"
  const NullKind: string := "null"

  /** A JavaScript value as the codec sees it. `Num` carries the decimal text
      of the number; `Obj` lists the properties in `Object.keys` order; `Other`
      stands for every value of another type (undefined, a function, a bigint, ...). */
  datatype JsVal =
    | Null
    | Bool(b: bool)
    | Num(text: string)
    | Str(s: string)
    | Arr(elems: seq<JsVal>)
    | Obj(fields: seq<(string, JsVal)>)
    | Other

  /** The two exception classes the code can raise. */
  datatype Exception = SyntaxError | TypeError

  /** How a call ends: with a result, with an exception, or with `Hangs`:
      a scan that keeps reading past the end of its input, which in a
      JavaScript engine ends only in a RangeError or an out-of-memory abort
      once the lexeme it builds outgrows the engine's limits. */
  datatype Outcome<+T> = Done(value: T) | Threw(error: Exception) | Hangs

  /** The characters matched by the regular expression `\s`. */
  predicate IsWhitespace(c: char) {
    c == ' ' || c == '\t' || c == '\n' || c == '\r' || c == '\U{000B}' || c == '\U{000C}'
    || c == '\U{00A0}' || c == '\U{1680}' || ('\U{2000}' <= c <= '\U{200A}')
    || c == '\U{2028}' || c == '\U{2029}' || c == '\U{202F}' || c == '\U{205F}'
    || c == '\U{3000}' || c == '\U{FEFF}'
  }

  /** The six structural characters that become punctuation tokens. */
  predicate IsPunctuation(c: char) {
    c == '{' || c == '}' || c == '[' || c == ']' || c == ',' || c == ':'
  }

  /** The class `[\d-.]`: a digit, `-` or `.` starts a number. */
  predicate IsNumberStart(c: char) {
    ('0' <= c <= '9') || c == '-' || c == '.'
  }

  /** `/[\d-.]/.test(s)`: some character of `s` is a digit, `-` or `.`. */
  predicate HasNumberStart(s: string) {
    exists j :: 0 <= j < |s| && IsNumberStart(s[j])
  }

  /** The class `[\d.eE+-]` that the number scan keeps consuming. */
  predicate IsNumberChar(c: char) {
    IsNumberStart(c) || c == 'e' || c == 'E' || c == '+'
  }

  /** A token of the shape the tokenizer produces: each of the five types
      paired with its kind of value. */
  predicate IsLexical(t: Token) {
    match t.kind
    case "punctuation" => t.value.Text? && |t.value.text| == 1 && IsPunctuation(t.value.text[0])
    case "string" => t.value.Text? && '"' !in t.value.text
    case "number" => t.value.Number?
    case "boolean" => t.value.Boolean?
    case "null" => t.value.NullValue?
    case _ => false
  }
}
