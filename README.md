# A model of the `JSON` class of src/JSON.ts

The repository has one hand-written JSON codec: the class `JSON` in
src/JSON.ts. This project models that class **as written**, defects
included, and proves what it does. The class has three parts:

- **The tokenizer `tokenize`.** It makes one left-to-right scan with a local
  cursor and emits `{type, value}` tokens of five types: `punctuation`,
  `string`, `number`, `boolean` and `null`.
- **The recursive-descent parser `parseValue` and its `parse*` helpers.** They
  step the instance cursor `index`.
- **The serializer `serializeValue` and its `serialize*` helpers.** The arrays
  and objects are built in `for` loops.

## Modules

- `JsonTypes` holds the shared definitions:
  - tokens (`Token`, `TokenValue`) and values (`JsVal`);
  - the two exception classes;
  - `Outcome`, which is `Done(value)`, `Threw(error)` or `Hangs`;
  - the character classes `\s`, `[\d-.]` and `[\d.eE+-]`.
- `Lexer` gives the tokenizer as functions. `ScanAt` is one pass of the loop
  body. `LexFrom` is the scan from a cursor. `Lex` is the scan of the whole
  text. The module also proves what each kind of input produces.
- `Serialization` gives the serializer's output as functions: `Serialize`,
  `SerializeEach`, `SerializeMembers` and `Join`.
- `Parsing` gives `ParseAt`: what `parseValue` does at a cursor. The result
  is the outcome paired with the new cursor.
- `Codec` holds the class `Json`. It has the field `index` and one method for
  each method of the source except `serializeString` and
  `serializePrimitive`, which are the functions `Serialization.SerializeString`
  and `Serialization.SerializePrimitive` that `SerializeValue` calls. The
  imperative methods are proved against the
  functions above. These are `tokenize`, the string and number scans, the
  cursor-stepping `parse*` methods and the serializer loops.
- `RoundTrip` shows what the tokenizer and the parser make of the
  serializer's output.
- `Examples` shows what `stringify` and `parse` give for the inputs of
  test/JSON.test.ts.

## What the code does, and what the model keeps

- **`JSON.parse` never returns a value.**
  - `parseValue` switches on `token.type` and looks for `"{"`, `"["`, `"\""`,
    `"t"`, `"f"`, or a type containing a digit, `-` or `.`. The tokenizer emits
    none of these types.
  - So `parse` throws SyntaxError exactly when the scan throws, or when it
    finishes with at least one token. A text whose scan hangs, such as `5` or
    `{"a`, hangs in `parse` too.
  - It throws TypeError on a text with no token: `tokens[0]` is undefined, so
    reading `token.type` fails.
  - `Codec.ParseNeverSucceeds` proves this, both directions included.
- **`parseObject` and `parseArray` always throw SyntaxError.** Their guards
  compare the token record itself with a string, so they never hold.
- **`parseTrue` and `parseFalse` compare the token's value with the strings
  `"true"` and `"false"`.** The model keeps that comparison.
- **Two scans of the tokenizer never find their end.**
  - The string loop has no exit when no later `"` closes the string.
  - The number loop has no exit when its run reaches the end of the text. Past
    the end, `jsonString[index]` is `undefined`, and `/[\d.eE+-]/` matches the
    `e` of the text "undefined".
  - Each further pass appends "undefined" to the growing lexeme, so in a
    JavaScript engine the call ends only when the engine's string-length or
    heap limit is hit: a RangeError or an out-of-memory abort, never a
    result.
  - Instead of requiring that neither happens, the model reports the outcome
    `Hangs`, which stands for that non-result. This keeps `tokenize` total and
    makes it possible to prove when it happens:
    - `Lexer.LexHangsExactlyOffEnd` shows that the scan hangs exactly when it
      gets to one of these two situations.
    - `Lexer.LexUnclosedString` and `Lexer.LexTrailingNumber` show that each of
      them does hang.
  - A bare number therefore never parses: `stringify(5)` is `5`, and
    `parse("5")` hangs in the model's sense.
- **Strings are written and read with no escaping at all.** A string
  containing `"` does not survive `stringify` followed by the tokenizer.
- **A property whose value is unsupported keeps its key but prints an empty
  value.** Examples of such values are undefined and functions. The
  serializer writes `"key2":`, which is not JSON.

The test files expect behaviour the code does not have. The model follows the
code:

- **test/JSON.test.ts:5-10 and __test__/JSON.spec.ts:5-10** expect `parse` to
  succeed. It throws SyntaxError.
- **test/JSON.test.ts:27-61** run `stringify` on the result of `parse`. Those
  `parse` calls throw.
- **test/JSON.test.ts:55-61** expect an undefined property to be dropped.
  `stringify` keeps it: `Examples.StringifyUndefinedMember`.
- **test/JSON.test.ts imports `_JSON`**, which src/JSON.ts does not export.

The stringify expectations do match the code. Test lines 19-24 are
`Examples.StringifyObjectWithArray`, and the empty cases of lines 27-37 are
`Examples.StringifyEmpty`.

## Model

| member | source | states |
|---|---|---|
| Codec.Json.constructor | src/JSON.ts:5-6 | a new instance's parser cursor `index` starts at 0 |
| Codec.Json.Parse | src/JSON.ts:13-16 | `parse` tokenizes with one instance and parses with a fresh one (cursor 0); its outcome is the tokenizer's exception or hang, or else `parseValue`'s outcome on the tokens |
| Codec.ParseText | src/JSON.ts:13-16 | the tokenizer's hang or SyntaxError passes through `parse`; a text with no token makes `parseValue` throw TypeError |
| Codec.ParseNeverSucceeds | src/JSON.ts:13-16 | `parse` never returns a value. It hangs iff the scan hangs. It throws TypeError iff the text has no token. It throws SyntaxError iff the scan throws or yields at least one token |
| Codec.Json.Stringify | src/JSON.ts:23-25 | `stringify` returns the text `serializeValue` gives for the value |
| Codec.Json.Tokenize | src/JSON.ts:32-108 | the loop's outcome equals `Lex(s)`. Invariant: the tokens so far, followed by the scan from the cursor, make up the scan of the whole text |
| Codec.Json.ScanToken | src/JSON.ts:37-104 | one pass of the loop body at cursor `i` takes the same branch as `ScanAt`, in the source's order: whitespace, punctuation, string, number, `true`, `false`, `null`, SyntaxError |
| Codec.Json.ReadString | src/JSON.ts:58-65 | the string loop collects exactly the characters after the opening quote and before the next `"`, and stops on that quote. When there is none, the method stops at the end of the text, where the source's loop would go on; the caller reports `Hangs` |
| Codec.Json.ReadNumber | src/JSON.ts:72-78 | the number loop collects the maximal run over `[\d.eE+-]` from its first character, and stops on the first character outside the class. When the run reaches the end of the text, the method stops there, where the source's loop would go on; the caller reports `Hangs` |
| Lexer.QuoteFrom | src/JSON.ts:62-65 | the stop index of the string scan lies between the start and the end of the text, and is a `"` when it is not the end |
| Lexer.NumberEnd | src/JSON.ts:75-78 | the stop index of the number scan lies between the start and the end of the text, and is outside `[\d.eE+-]` when it is not the end |
| Lexer.QuoteFromSkips | src/JSON.ts:62-65 | no `"` comes between the start of the string scan and where it stops |
| Lexer.NumberEndSkips | src/JSON.ts:75-78 | every character the number scan passes is in `[\d.eE+-]` |
| Lexer.QuoteFromIs | src/JSON.ts:62-65 | an index with no `"` before it, which is a `"` or the end of the text, is where the string scan stops |
| Lexer.NumberEndIs | src/JSON.ts:75-78 | an index with only `[\d.eE+-]` before it, whose own character is outside the class or which is the end of the text, is where the number scan stops |
| Lexer.ScanAt | src/JSON.ts:37-104 | a step that emits tokens moves the cursor forward and stays within the text; a step that stops either hangs or throws SyntaxError |
| Lexer.LexFrom | src/JSON.ts:36-107 | the only exception the tokenizer throws itself is the SyntaxError of line 104; the engine-limit errors behind `Hangs` are not modelled |
| Lexer.Lex | src/JSON.ts:32-108 | the scan of the whole text starts at cursor 0, and the only exception it throws itself is SyntaxError |
| Lexer.LexStep | src/JSON.ts:36-105 | one pass of the loop either extends the tokens and moves the cursor, or settles the outcome of the whole scan |
| Lexer.LexFromShift | src/JSON.ts:36-107 | the scan from cursor `|p| + k` of `p + b` does not depend on the text `p` before the cursor |
| Lexer.LexTokensAreLexical | src/JSON.ts:53-98 | every token the tokenizer returns has one of the five types, with the matching kind of value |
| Lexer.ReachesBound | src/JSON.ts:36-105 | a cursor the scan gets to lies between its start and the end of the text |
| Lexer.RunsOffEndStops | src/JSON.ts:58-82 | at an opening quote with no later `"`, or at a number run that reaches the end of the text, the pass has no exit |
| Lexer.LexHangsExactlyOffEnd | src/JSON.ts:58-82 | the scan hangs if and only if it gets to (every earlier pass emits and moves on) an opening quote with no later `"`, or a number run that reaches the end of the text |
| Lexer.LexSkipsWhitespace | src/JSON.ts:40-43 | whitespace in front of the text produces no token |
| Lexer.LexPunctuation | src/JSON.ts:45-56 | each of `{ } [ ] , :` yields exactly one punctuation token holding that character; the scan goes on with the next character |
| Lexer.LexString | src/JSON.ts:58-70 | a string token holds exactly the characters between the opening `"` and the next `"`, unescaped; the scan resumes after the closing quote |
| Lexer.LexUnclosedString | src/JSON.ts:62-65 | a string with no closing `"` makes the scan hang |
| Lexer.LexNumber | src/JSON.ts:72-82 | a lexeme over `[\d.eE+-]` starting on `[\d-.]`, followed by another character, yields one number token holding that lexeme; the scan goes on from that character |
| Lexer.LexTrailingNumber | src/JSON.ts:75-78 | a number run reaching the end of the text makes the scan hang |
| Lexer.LexTrue | src/JSON.ts:85-89 | `true` yields a boolean true token and the scan advances by 4 |
| Lexer.LexFalse | src/JSON.ts:91-95 | `false` yields a boolean false token and the scan advances by 5 |
| Lexer.LexNull | src/JSON.ts:97-101 | `null` yields a null token and the scan advances by 4 |
| Lexer.LexUnexpectedCharacter | src/JSON.ts:84-104 | a character that is not whitespace, punctuation, a quote or `[\d-.]`, where none of `true`, `false`, `null` begins (so also `tru`, `nul`), throws SyntaxError |
| Lexer.LexAppend | src/JSON.ts:36-107 | when a prefix scans to completion, the whole text scans as the prefix's tokens followed by the rest's |
| Lexer.LexRender | src/JSON.ts:36-107 | tokens written out, each followed by a blank, scan back as exactly those tokens |
| Parsing.TypedValueAt | src/JSON.ts:245-253 | `parseString` and `parseNumber` succeed iff the token has the expected type; then they return its value and move the cursor by one, otherwise they throw SyntaxError and the cursor stays |
| Parsing.LiteralAt | src/JSON.ts:285-305 | `parseTrue` and `parseFalse` succeed iff the token's value is the string "true" or "false"; then they return the boolean and move the cursor by one, otherwise they throw SyntaxError and the cursor stays |
| Parsing.ParseAt | src/JSON.ts:115-137 | `parseValue` never hangs; it moves the cursor by one exactly when it returns a value and leaves it otherwise; it throws TypeError exactly when there is no token at the cursor |
| Parsing.ParseAtOutcome | src/JSON.ts:115-137 | `parseValue` returns a value iff the token has type `t` and value "true", or type `f` and value "false". Then it returns that boolean and the cursor moves by one. Otherwise it throws without moving the cursor: TypeError iff there is no token, SyntaxError otherwise |
| Parsing.LexicalTokenRejected | src/JSON.ts:115-137 | `parseValue` throws SyntaxError at every token the tokenizer can produce, and the cursor stays |
| Codec.Json.ParseValue | src/JSON.ts:115-137 | the dispatch on `token.type` gives the outcome and the new cursor of `ParseAt` at the old cursor |
| Codec.Json.ParseObject | src/JSON.ts:215-239 | the guard never holds: it throws SyntaxError and the cursor stays |
| Codec.Json.ParseArray | src/JSON.ts:260-279 | the guard never holds: it throws SyntaxError and the cursor stays |
| Codec.Json.ParseString | src/JSON.ts:245-253 | it succeeds iff the token has type "string". Then it returns the token's value and the cursor moves by exactly one. Otherwise it throws SyntaxError and the cursor stays |
| Codec.Json.ParseNumber | src/JSON.ts:311-319 | it succeeds iff the token has type "number". Then it returns the token's value and the cursor moves by exactly one. Otherwise it throws SyntaxError and the cursor stays |
| Codec.Json.ParseTrue | src/JSON.ts:285-292 | it returns true and moves the cursor by one iff the token's value is the string "true"; otherwise it throws SyntaxError and the cursor stays |
| Codec.Json.ParseFalse | src/JSON.ts:298-305 | it returns false and moves the cursor by one iff the token's value is the string "false"; otherwise it throws SyntaxError and the cursor stays |
| Serialization.SerializeString | src/JSON.ts:196-199 | the text is `s` between two `"`, verbatim, two characters longer than `s` |
| Serialization.SerializePrimitive | src/JSON.ts:205-208 | null prints as `null`, the booleans as `true` and `false`, and a number as its decimal text |
| Serialization.SerializeShape | src/JSON.ts:139-158 | `Serialize`: an array prints between `[` and `]`, an object between `{` and `}`, a string as `serializeString` gives it, null and booleans as their words, a number as its text, and an unsupported value as the empty text |
| Serialization.MemberParts | src/JSON.ts:169 | `SerializeMember`: a property prints as the quoted key, then `:`, then the value's text, with nothing in between |
| Serialization.JoinLength | src/JSON.ts:160-190 | `Join`: the parts joined with nothing added but one comma between neighbours: the length is the parts' total plus one per separator, and the text starts with the first part |
| Serialization.SerializeEach | src/JSON.ts:180-190 | one text per array element |
| Serialization.SerializeMembers | src/JSON.ts:160-173 | one `"key":value` text per property |
| Serialization.JoinSnoc | src/JSON.ts:166-169 | adding a part at the end adds a comma only when parts are already there |
| Serialization.PartAppended | src/JSON.ts:182-186 | after the separator, one pass appends part `i` to the comma-joined first `i` parts |
| Codec.Json.SerializeValue | src/JSON.ts:139-158 | the type dispatch gives `Serialize(v)`: an unsupported value gives the empty text |
| Codec.Json.SerializeObject | src/JSON.ts:160-173 | the loop gives `{`, then the `"key":value` texts in key order joined by `,` with no whitespace, then `}`. Invariant: the text so far is `{` plus the first `i` members joined |
| Codec.Json.SerializeArray | src/JSON.ts:180-190 | the loop gives `[`, then the element texts in order joined by `,`, then `]`. Invariant: the text so far is `[` plus the first `i` elements joined |
| RoundTrip.LexSerialized | src/JSON.ts:139-208 | the text of a printable value, followed by a character that ends a number run, scans as the value's tokens and then the rest |
| RoundTrip.LexElements | src/JSON.ts:180-190 | the comma-joined element texts scan as the elements' tokens with a comma token between neighbours |
| RoundTrip.LexMember | src/JSON.ts:169 | `"key":value` scans as a string token, a colon token and the value's tokens |
| RoundTrip.LexMembers | src/JSON.ts:160-173 | the comma-joined properties scan as their tokens with a comma token between neighbours |
| RoundTrip.LexStringify | src/JSON.ts:23-25 | `stringify` of a printable value that is not a bare number scans as exactly the value's tokens; for a bare number, the scan hangs |
| RoundTrip.ParseOfStringify | src/JSON.ts:13-25 | `parse(stringify(v))` never gives a printable `v` back: it hangs for a bare number and throws SyntaxError otherwise |
| Examples.StringifyArray | src/JSON.ts:180-190 | `[1, 2, 3]` serializes as `[1,2,3]` |
| Examples.StringifyObjectWithArray | test/JSON.test.ts:19-24 | `{key: 'value', array: [1, 2, 3]}` serializes as `{"key":"value","array":[1,2,3]}`, as the test expects |
| Examples.StringifyEmpty | test/JSON.test.ts:27-37 | the empty array and object serialize as `[]` and `{}` |
| Examples.ParseEmpty | test/JSON.test.ts:27-37 | `parse("{}")` and `parse("[]")` throw SyntaxError, where the test expects values |
| Examples.StringifyUndefinedMember | test/JSON.test.ts:55-61 | a property whose value is undefined serializes as `"key2":`, where the test expects it dropped |

## Left out

- **`parseFloat` (src/JSON.ts:80) and the `${value}` conversion of numbers
  (src/JSON.ts:207).** Both are IEEE-754 float conversions. A number token
  keeps its lexeme, and `Num` carries the decimal text that
  `serializePrimitive` would print. The model therefore does not show that
  `12345678901234567890` loses precision.
- **The loop bodies of `parseObject` and `parseArray` (src/JSON.ts:218-235,
  263-275).** Their guards never hold, so no input reaches them.
- **JavaScript strings as UTF-16 code units.** The model works on Dafny
  `char`s. A character outside the basic plane is one `char` here but two
  code units there.
- **The key order `Object.keys` gives (src/JSON.ts:162).** An object is
  modelled as its properties already in that order. Duplicate keys are not
  merged.
- **Exception messages.** An exception is modelled by its class only.
- **Arguments that are not strings.** `parse` is modelled on string input
  only.
- **Lexer.ScanAt, Codec.Json.ReadString, Codec.Json.ReadNumber: engine
  limits are not modelled.** The string and number loops that run past the
  end of the text end, in a JavaScript engine, with a RangeError ("Invalid
  string length") or an out-of-memory abort once the lexeme outgrows the
  engine's string-length or heap limit. The model gives the outcome `Hangs`
  for both and does not tell them apart.
- **Cyclic values.** `serializeValue` recurses without bound on a cyclic object and
  ends with a stack-overflow RangeError. `JsVal` is a finite tree, so the
  model cannot express a cyclic value.
- **Codec.Json.Tokenize: one pass of its loop body is the separate method
  `ScanToken`.** A string or number loop that never ends is reported as
  `Hangs` rather than looping. Its contract is otherwise the source's loop.
- **The test files, demo/index.ts and jest.config.js.** They are not part of
  this model. Their expectations are discussed above.
