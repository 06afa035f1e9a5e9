/** What the parser of src/JSON.ts (`parseValue` and the `parse*` helpers,
    lines 115-137 and 215-319) does at a cursor position in a token list:
    the value or exception it ends with and where it leaves the cursor. */
module Parsing {
  import opened JsonTypes

  /** The JavaScript value stored in a token's `value` field. A number token
      stands for `parseFloat` of its lexeme; the model keeps the lexeme. */
  function ValueOf(v: TokenValue): JsVal {
    match v
    case Text(s) => Str(s)
    case Number(lexeme) => Num(lexeme)
    case Boolean(b) => Bool(b)
    case NullValue => Null
  }

  /** A token type test `tokens[i]?.type === kind`: false when `i` is past
      the end of the list. */
  predicate KindAt(tokens: seq<Token>, i: nat, kind: string) {
    i < |tokens| && tokens[i].kind == kind
  }

  /** A token value test `tokens[i]?.value === text` against a string. */
  predicate TextAt(tokens: seq<Token>, i: nat, text: string) {
    i < |tokens| && tokens[i].value == Text(text)
  }

  /** `parseString` (src/JSON.ts:245-253) and `parseNumber`
      (src/JSON.ts:311-319): the token's value and the cursor moved by one when
      the token has type `kind`; otherwise SyntaxError and the cursor stays. */
  function TypedValueAt(tokens: seq<Token>, i: nat, kind: string): (r: (Outcome<JsVal>, nat))
    ensures r.0.Done? <==> KindAt(tokens, i, kind)
    ensures r.0.Done? ==> r == (Done(ValueOf(tokens[i].value)), i + 1)
    ensures !r.0.Done? ==> r == (Threw(SyntaxError), i)
  {
    if KindAt(tokens, i, kind) then (Done(ValueOf(tokens[i].value)), i + 1)
    else (Threw(SyntaxError), i)
  }

  /** `parseTrue` (src/JSON.ts:285-292) and `parseFalse`
      (src/JSON.ts:298-305): `b` and the cursor moved by one when the token's
      value is the string `text`; otherwise SyntaxError and the cursor stays. */
  function LiteralAt(tokens: seq<Token>, i: nat, text: string, b: bool): (r: (Outcome<JsVal>, nat))
    ensures r.0.Done? <==> TextAt(tokens, i, text)
    ensures r.0.Done? ==> r == (Done(Bool(b)), i + 1)
    ensures !r.0.Done? ==> r == (Threw(SyntaxError), i)
  {
    if TextAt(tokens, i, text) then (Done(Bool(b)), i + 1)
    else (Threw(SyntaxError), i)
  }

  /** `parseValue` (src/JSON.ts:115-137) with the cursor at `i`: a missing
      token makes `token.type` throw TypeError; otherwise it dispatches on the
      token's type. `parseObject` and `parseArray` compare the token record
      itself with a string (src/JSON.ts:217, 262), which never holds, so they
      throw SyntaxError without moving the cursor. */
  function ParseAt(tokens: seq<Token>, i: nat): (r: (Outcome<JsVal>, nat))
    ensures !r.0.Hangs?
    ensures r.1 == if r.0.Done? then i + 1 else i
    ensures r.0 == Threw(TypeError) <==> i >= |tokens|
  {
    if i >= |tokens| then (Threw(TypeError), i)
    else
      var kind := tokens[i].kind;
      if kind == "{" || kind == "[" then (Threw(SyntaxError), i)
      else if kind == "\"" then TypedValueAt(tokens, i, StringKind)
      else if kind == "t" then LiteralAt(tokens, i, "true", true)
      else if kind == "f" then LiteralAt(tokens, i, "false", false)
      else if HasNumberStart(kind) then TypedValueAt(tokens, i, NumberKind)
      else (Threw(SyntaxError), i)
  }

  /** `parseValue` returns a value exactly when the token has type `t` and
      the value "true", or type `f` and the value "false": the `"` case
      needs type "string" and the number case type "number", and neither
      can hold once the dispatch has picked them. On success the value is the
      boolean and the cursor moves by one; on failure it stays, and the
      exception is TypeError exactly when there is no token. */
  lemma ParseAtOutcome(tokens: seq<Token>, i: nat)
    ensures ParseAt(tokens, i).0.Done? <==>
      (KindAt(tokens, i, "t") && TextAt(tokens, i, "true")) ||
      (KindAt(tokens, i, "f") && TextAt(tokens, i, "false"))
    ensures ParseAt(tokens, i).0.Done? ==>
      ParseAt(tokens, i) == (Done(Bool(tokens[i].kind == "t")), i + 1)
    ensures !ParseAt(tokens, i).0.Done? ==>
      ParseAt(tokens, i) == (Threw(if i < |tokens| then SyntaxError else TypeError), i)
  {
  }

  /** No token the tokenizer emits is accepted: at such a token `parseValue`
      throws SyntaxError and leaves the cursor where it was. */
  lemma LexicalTokenRejected(tokens: seq<Token>, i: nat)
    requires i < |tokens| && IsLexical(tokens[i])
    ensures ParseAt(tokens, i) == (Threw(SyntaxError), i)
  {
    ParseAtOutcome(tokens, i);
  }
}
