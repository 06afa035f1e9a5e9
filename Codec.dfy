/** The class `JSON` of src/JSON.ts: the tokenizer loop, the parser that
    steps the instance cursor `index`, the serializer loops, and the two
    static entry points. */
module Codec {
  import opened JsonTypes
  import opened Lexer
  import opened Serialization
  import opened Parsing

  /** What `JSON.parse` ends with on the text `s`: the tokenizer's
      exception or hang, or else what `parseValue` gives at cursor 0. */
  function ParseText(s: string): (r: Outcome<JsVal>)
    ensures Lex(s).Hangs? ==> r == Hangs
    ensures Lex(s).Threw? ==> r == Threw(SyntaxError)
    ensures Lex(s) == Done([]) ==> r == Threw(TypeError)
  {
    match Lex(s)
    case Done(tokens) => ParseAt(tokens, 0).0
    case Threw(e) => Threw(e)
    case Hangs => Hangs
  }

  /** `JSON.parse` never returns a value: it hangs exactly when the scan
      hangs, throws TypeError exactly when the text holds no token (there is
      no `tokens[0]`), and throws SyntaxError when the scan does or when
      there is any token at all, since `parseValue` matches none of the
      five token types the tokenizer emits. */
  lemma {:induction false} ParseNeverSucceeds(s: string)
    ensures !ParseText(s).Done?
    ensures ParseText(s).Hangs? <==> Lex(s).Hangs?
    ensures ParseText(s) == Threw(TypeError) <==> Lex(s) == Done([])
    ensures ParseText(s) == Threw(SyntaxError) <==>
      Lex(s) == Threw(SyntaxError) || (Lex(s).Done? && Lex(s).value != [])
  {
    if Lex(s).Done? && Lex(s).value != [] {
      var tokens := Lex(s).value;
      LexTokensAreLexical(s);
      assert tokens[0] in tokens;
      LexicalTokenRejected(tokens, 0);
    }
  }

  class Json {
    /** The parser's cursor into the token list (src/JSON.ts:6). */
    var index: nat

    constructor ()
      ensures index == 0
    {
      index := 0;
    }

    /** `JSON.parse` (src/JSON.ts:13-16): tokenize with one instance, parse
        with a fresh one, whose cursor starts at 0. */
    static method Parse(s: string) returns (r: Outcome<JsVal>)
      ensures r == ParseText(s)
    {
      var lexer := new Json();
      var lexed := lexer.Tokenize(s);
      if !lexed.Done? {
        r := if lexed.Hangs? then Hangs else Threw(lexed.error);
        return;
      }
      var tokens := lexed.value;
      var parser := new Json();
      r := parser.ParseValue(tokens);
    }

    /** `JSON.stringify` (src/JSON.ts:23-25). */
    static method Stringify(v: JsVal) returns (r: string)
      ensures r == Serialize(v)
    {
      var codec := new Json();
      r := codec.SerializeValue(v);
    }

    /** `tokenize` (src/JSON.ts:32-108): one left-to-right scan with a local
        cursor, one token (or none, for whitespace) per pass. Where the
        source's string or number loop reads past the end of the text with no
        exit (until the engine's string-length or heap limit raises a
        RangeError or aborts), the method reports `Hangs`. */
    method Tokenize(s: string) returns (r: Outcome<seq<Token>>)
      ensures r == Lex(s)
    {
      var tokens: seq<Token> := [];
      var i := 0;
      PrependNothing(Lex(s));
      while i < |s|
        invariant i <= |s|
        invariant Lex(s) == Prepend(tokens, LexFrom(s, i))
        decreases |s| - i
      {
        var step := ScanToken(s, i);
        LexStep(s, i, tokens);
        match step
        case Stop(outcome) =>
          return outcome;
        case Emit(ts, next) =>
          tokens := tokens + ts;
          i := next;
      }
      r := Done(tokens);
      assert tokens + [] == tokens;
    }

    /** One pass of the loop body of src/JSON.ts:37-104 with the cursor at
        `i`: the tokens it pushes and where it leaves the cursor, or how the
        scan ends (the SyntaxError of line 104, or a string or number loop
        with no exit, reported as `Hangs`). */
    method ScanToken(s: string, i: nat) returns (step: Step)
      requires i < |s|
      ensures step == ScanAt(s, i)
    {
      var c := s[i];
      if IsWhitespace(c) {
        return Emit([], i + 1);
      }
      if IsPunctuation(c) {
        return Emit([Token(Punctuation, Text([c]))], i + 1);
      }
      if c == '"' {
        var stringValue, close := ReadString(s, i);
        QuoteFromIs(s, i + 1, close);
        if close == |s| {
          return Stop(Hangs);
        }
        return Emit([Token(StringKind, Text(stringValue))], close + 1);
      }
      if IsNumberStart(c) {
        var numberValue, end := ReadNumber(s, i);
        NumberEndIs(s, i, end);
        if end == |s| {
          return Stop(Hangs);
        }
        return Emit([Token(NumberKind, Number(numberValue))], end);
      }
      if StartsWith(s, i, "true") {
        return Emit([Token(BooleanKind, Boolean(true))], i + 4);
      }
      if StartsWith(s, i, "false") {
        return Emit([Token(BooleanKind, Boolean(false))], i + 5);
      }
      if StartsWith(s, i, "null") {
        return Emit([Token(NullKind, NullValue)], i + 4);
      }
      return Stop(Threw(SyntaxError));
    }

    /** The string scan of src/JSON.ts:59-65, from the opening quote at
        `start`: the characters up to the next quote, and where that quote
        is. When `i == |s|` there is none, and the source's loop, which keeps
        appending `undefined` past the end, has no exit; it ends only at an
        engine limit, which the caller reports as `Hangs`. */
    method ReadString(s: string, start: nat) returns (stringValue: string, i: nat)
      requires start < |s| && s[start] == '"'
      ensures start < i <= |s| && stringValue == s[start + 1..i]
      ensures forall j :: start < j < i ==> s[j] != '"'
      ensures i < |s| ==> s[i] == '"'
    {
      stringValue := "";
      i := start + 1;
      while i < |s| && s[i] != '"'
        invariant start < i <= |s|
        invariant stringValue == s[start + 1..i]
        invariant forall j :: start < j < i ==> s[j] != '"'
        decreases |s| - i
      {
        stringValue := stringValue + [s[i]];
        i := i + 1;
      }
    }

    /** The number scan of src/JSON.ts:73-78, from its first character at
        `start`: the maximal run over `[\d.eE+-]`, and where it ends. When
        `i == |s|` the run reaches the end of the text, and the source's
        loop, whose test coerces `undefined` to "undefined" (which contains
        an `e`), has no exit; it ends only at an engine limit, which the caller
        reports as `Hangs`. */
    method ReadNumber(s: string, start: nat) returns (numberValue: string, i: nat)
      requires start < |s| && IsNumberStart(s[start])
      ensures start < i <= |s| && numberValue == s[start..i]
      ensures forall j :: start <= j < i ==> IsNumberChar(s[j])
      ensures i < |s| ==> !IsNumberChar(s[i])
    {
      numberValue := "";
      i := start;
      while i < |s| && IsNumberChar(s[i])
        invariant start <= i <= |s|
        invariant numberValue == s[start..i]
        invariant forall j :: start <= j < i ==> IsNumberChar(s[j])
        decreases |s| - i
      {
        numberValue := numberValue + [s[i]];
        i := i + 1;
      }
    }

    /** `parseValue` (src/JSON.ts:115-137). */
    method ParseValue(tokens: seq<Token>) returns (r: Outcome<JsVal>)
      modifies this
      ensures (r, index) == ParseAt(tokens, old(index))
    {
      if index >= |tokens| {
        // `token` is undefined and reading `token.type` throws
        return Threw(TypeError);
      }
      var token := tokens[index];
      match token.kind {
        case "{" =>
          r := ParseObject(tokens);
        case "[" =>
          r := ParseArray(tokens);
        case "\"" =>
          r := ParseString(tokens);
        case "t" =>
          r := ParseTrue(tokens);
        case "f" =>
          r := ParseFalse(tokens);
        case _ =>
          if HasNumberStart(token.kind) {
            r := ParseNumber(tokens);
          } else {
            r := Threw(SyntaxError);
          }
      }
    }

    /** `parseObject` (src/JSON.ts:215-239). Its guard compares the token
        record with the string "{", which is never strictly equal, so it
        always throws SyntaxError and leaves the cursor alone. */
    method ParseObject(tokens: seq<Token>) returns (r: Outcome<JsVal>)
      modifies this
      ensures r == Threw(SyntaxError) && index == old(index)
    {
      r := Threw(SyntaxError);
    }

    /** `parseArray` (src/JSON.ts:260-279), whose guard compares the token
        record with the string "[": it always throws SyntaxError and leaves
        the cursor alone. */
    method ParseArray(tokens: seq<Token>) returns (r: Outcome<JsVal>)
      modifies this
      ensures r == Threw(SyntaxError) && index == old(index)
    {
      r := Threw(SyntaxError);
    }

    /** `parseString` (src/JSON.ts:245-253). */
    method ParseString(tokens: seq<Token>) returns (r: Outcome<JsVal>)
      modifies this
      ensures (r, index) == TypedValueAt(tokens, old(index), StringKind)
      ensures r.Done? <==> KindAt(tokens, old(index), StringKind)
      ensures r.Done? ==> index == old(index) + 1 && r.value == ValueOf(tokens[old(index)].value)
      ensures !r.Done? ==> r == Threw(SyntaxError) && index == old(index)
    {
      if index < |tokens| && tokens[index].kind == StringKind {
        var value := tokens[index].value;
        index := index + 1;
        r := Done(ValueOf(value));
      } else {
        r := Threw(SyntaxError);
      }
    }

    /** `parseNumber` (src/JSON.ts:311-319). */
    method ParseNumber(tokens: seq<Token>) returns (r: Outcome<JsVal>)
      modifies this
      ensures (r, index) == TypedValueAt(tokens, old(index), NumberKind)
      ensures r.Done? <==> KindAt(tokens, old(index), NumberKind)
      ensures r.Done? ==> index == old(index) + 1 && r.value == ValueOf(tokens[old(index)].value)
      ensures !r.Done? ==> r == Threw(SyntaxError) && index == old(index)
    {
      if index < |tokens| && tokens[index].kind == NumberKind {
        var value := tokens[index].value;
        index := index + 1;
        r := Done(ValueOf(value));
      } else {
        r := Threw(SyntaxError);
      }
    }

    /** `parseTrue` (src/JSON.ts:285-292): compares the token's value with
        the string "true". */
    method ParseTrue(tokens: seq<Token>) returns (r: Outcome<JsVal>)
      modifies this
      ensures (r, index) == LiteralAt(tokens, old(index), "true", true)
    {
      if index < |tokens| && tokens[index].value == Text("true") {
        index := index + 1;
        r := Done(Bool(true));
      } else {
        r := Threw(SyntaxError);
      }
    }

    /** `parseFalse` (src/JSON.ts:298-305): compares the token's value with
        the string "false". */
    method ParseFalse(tokens: seq<Token>) returns (r: Outcome<JsVal>)
      modifies this
      ensures (r, index) == LiteralAt(tokens, old(index), "false", false)
    {
      if index < |tokens| && tokens[index].value == Text("false") {
        index := index + 1;
        r := Done(Bool(false));
      } else {
        r := Threw(SyntaxError);
      }
    }

    /** `serializeValue` (src/JSON.ts:139-158). */
    method SerializeValue(v: JsVal) returns (r: string)
      ensures r == Serialize(v)
      decreases v, 1
    {
      match v {
        case Arr(elems) =>
          r := SerializeArray(elems);
        case Obj(fields) =>
          r := SerializeObject(fields);
        case Str(s) =>
          r := SerializeString(s);
        case Null =>
          r := SerializePrimitive(v);
        case Bool(_) =>
          r := SerializePrimitive(v);
        case Num(_) =>
          r := SerializePrimitive(v);
        case Other =>
          r := "";
      }
    }

    /** `serializeObject` (src/JSON.ts:160-173): `"key":value` for each key
        in order, separated by commas, between braces. */
    method SerializeObject(fields: seq<(string, JsVal)>) returns (r: string)
      ensures r == Serialize(Obj(fields))
      decreases fields, 0
    {
      var result := "{";
      for i := 0 to |fields|
        invariant result == "{" + Join(SerializeMembers(fields)[..i])
      {
        var field := fields[i];
        if i > 0 {
          result := result + ",";
        }
        assert fields decreases to field;
        assert field decreases to field.1;
        var text := SerializeValue(field.1);
        MembersAt(fields, i);
        PartAppended(SerializeMembers(fields), i, "{", result);
        result := result + "\"" + field.0 + "\":" + text;
      }
      assert SerializeMembers(fields)[..|fields|] == SerializeMembers(fields);
      r := result + "}";
    }

    /** `serializeArray` (src/JSON.ts:180-190): the elements in order,
        separated by commas, between brackets. */
    method SerializeArray(elems: seq<JsVal>) returns (r: string)
      ensures r == Serialize(Arr(elems))
      decreases elems, 0
    {
      var result := "[";
      for i := 0 to |elems|
        invariant result == "[" + Join(SerializeEach(elems)[..i])
      {
        if i > 0 {
          result := result + ",";
        }
        var text := SerializeValue(elems[i]);
        EachAt(elems, i);
        PartAppended(SerializeEach(elems), i, "[", result);
        result := result + text;
      }
      assert SerializeEach(elems)[..|elems|] == SerializeEach(elems);
      r := result + "]";
    }
  }
}
