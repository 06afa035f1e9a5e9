/** What the tokenizer makes of the serializer's output, and what
    `JSON.parse` then does with it: `parse(stringify(v))` never gives `v`
    back. */
module RoundTrip {
  import opened JsonTypes
  import opened Lexer
  import opened Serialization
  import opened Parsing
  import opened Codec

  /** A value whose text the tokenizer can read back: no unsupported value
      anywhere (those print as nothing), no `"` inside a string or a key
      (nothing is escaped), and number texts shaped as the tokenizer cuts
      them. */
  predicate Printable(v: JsVal)
    decreases v, 1
  {
    match v
    case Null => true
    case Bool(_) => true
    case Num(t) => IsNumberLexeme(t)
    case Str(s) => '"' !in s
    case Arr(elems) => AllPrintable(elems)
    case Obj(fields) => AllMembersPrintable(fields)
    case Other => false
  }

  predicate AllPrintable(elems: seq<JsVal>)
    decreases elems, 0
  {
    elems != [] ==> Printable(elems[0]) && AllPrintable(elems[1..])
  }

  predicate MemberPrintable(field: (string, JsVal))
    decreases field, 2
  {
    '"' !in field.0 && Printable(field.1)
  }

  predicate AllMembersPrintable(fields: seq<(string, JsVal)>)
    decreases fields, 0
  {
    fields != [] ==> MemberPrintable(fields[0]) && AllMembersPrintable(fields[1..])
  }

  function Punct(c: char): Token {
    Token(Punctuation, Text([c]))
  }

  /** The tokens the text of `v` is made of, in order. */
  function Tokens(v: JsVal): seq<Token>
    decreases v, 1
  {
    match v
    case Null => [Token(NullKind, NullValue)]
    case Bool(b) => [Token(BooleanKind, Boolean(b))]
    case Num(t) => [Token(NumberKind, Number(t))]
    case Str(s) => [Token(StringKind, Text(s))]
    case Arr(elems) => [Punct('[')] + ElementTokens(elems) + [Punct(']')]
    case Obj(fields) => [Punct('{')] + MemberTokens(fields) + [Punct('}')]
    case Other => []
  }

  /** The tokens of the elements, with a comma token between neighbours. */
  function ElementTokens(elems: seq<JsVal>): seq<Token>
    decreases elems, 0
  {
    if elems == [] then []
    else if |elems| == 1 then Tokens(elems[0])
    else Tokens(elems[0]) + [Punct(',')] + ElementTokens(elems[1..])
  }

  /** The tokens of `"key":value`. */
  function MemberTokensOf(field: (string, JsVal)): seq<Token>
    decreases field, 2
  {
    [Token(StringKind, Text(field.0)), Punct(':')] + Tokens(field.1)
  }

  function MemberTokens(fields: seq<(string, JsVal)>): seq<Token>
    decreases fields, 0
  {
    if fields == [] then []
    else if |fields| == 1 then MemberTokensOf(fields[0])
    else MemberTokensOf(fields[0]) + [Punct(',')] + MemberTokens(fields[1..])
  }

  /** The rest starts with a character that ends a number run. */
  predicate EndsNumber(rest: string) {
    rest != [] && !IsNumberChar(rest[0])
  }

  /** The text of a printable value, followed by anything that cannot extend
      a number at its end, scans as the value's tokens and then the rest. */
  lemma {:induction false} LexSerialized(v: JsVal, rest: string)
    requires Printable(v)
    requires v.Num? ==> EndsNumber(rest)
    ensures Lex(Serialize(v) + rest) == Prepend(Tokens(v), Lex(rest))
    decreases v, 1
  {
    match v
    case Null =>
      LexNull(rest);
    case Bool(b) =>
      if b { LexTrue(rest); } else { LexFalse(rest); }
    case Num(t) =>
      LexNumber(t, rest);
    case Str(s) =>
      LexString(s, rest);
    case Arr(elems) =>
      var close := "]" + rest;
      var inner := Join(SerializeEach(elems));
      assert Serialize(v) + rest == ['['] + (inner + close);
      LexPunctuation('[', inner + close);
      LexElements(elems, close);
      LexPunctuation(']', rest);
      PrependAssoc(ElementTokens(elems), [Punct(']')], Lex(rest));
      PrependAssoc([Punct('[')], ElementTokens(elems) + [Punct(']')], Lex(rest));
      assert [Punct('[')] + (ElementTokens(elems) + [Punct(']')]) == Tokens(v);
    case Obj(fields) =>
      var close := "}" + rest;
      var inner := Join(SerializeMembers(fields));
      assert Serialize(v) + rest == ['{'] + (inner + close);
      LexPunctuation('{', inner + close);
      LexMembers(fields, close);
      LexPunctuation('}', rest);
      PrependAssoc(MemberTokens(fields), [Punct('}')], Lex(rest));
      PrependAssoc([Punct('{')], MemberTokens(fields) + [Punct('}')], Lex(rest));
      assert [Punct('{')] + (MemberTokens(fields) + [Punct('}')]) == Tokens(v);
  }

  /** The comma-joined texts of the elements, followed by a `]`, scan as
      their tokens and then the rest. */
  lemma {:induction false} LexElements(elems: seq<JsVal>, rest: string)
    requires AllPrintable(elems)
    requires EndsNumber(rest)
    ensures Lex(Join(SerializeEach(elems)) + rest) == Prepend(ElementTokens(elems), Lex(rest))
    decreases elems, 0
  {
    if elems == [] {
      assert Join(SerializeEach(elems)) + rest == rest;
      PrependNothing(Lex(rest));
    } else if |elems| == 1 {
      assert SerializeEach(elems) == [Serialize(elems[0])];
      LexSerialized(elems[0], rest);
    } else {
      var head := Serialize(elems[0]);
      var tail := Join(SerializeEach(elems[1..])) + rest;
      assert Join(SerializeEach(elems)) + rest == head + ([','] + tail);
      LexSerialized(elems[0], [','] + tail);
      LexPunctuation(',', tail);
      LexElements(elems[1..], rest);
      PrependAssoc([Punct(',')], ElementTokens(elems[1..]), Lex(rest));
      PrependAssoc(Tokens(elems[0]), [Punct(',')] + ElementTokens(elems[1..]), Lex(rest));
      assert Tokens(elems[0]) + ([Punct(',')] + ElementTokens(elems[1..])) == ElementTokens(elems);
    }
  }

  /** The text `"key":value` of a property scans as a string token, a colon
      and the value's tokens. */
  lemma {:induction false} LexMember(field: (string, JsVal), rest: string)
    requires MemberPrintable(field)
    requires EndsNumber(rest)
    ensures Lex(SerializeMember(field) + rest) == Prepend(MemberTokensOf(field), Lex(rest))
    decreases field, 2
  {
    var value := Serialize(field.1) + rest;
    assert SerializeMember(field) + rest == "\"" + field.0 + "\"" + ([':'] + value);
    LexString(field.0, [':'] + value);
    LexPunctuation(':', value);
    assert field decreases to field.1;
    LexSerialized(field.1, rest);
    PrependAssoc([Punct(':')], Tokens(field.1), Lex(rest));
    PrependAssoc([Token(StringKind, Text(field.0))], [Punct(':')] + Tokens(field.1), Lex(rest));
    assert [Token(StringKind, Text(field.0))] + ([Punct(':')] + Tokens(field.1)) == MemberTokensOf(field);
  }

  /** The comma-joined properties, followed by a `}`, scan as their tokens
      and then the rest. */
  lemma {:induction false} LexMembers(fields: seq<(string, JsVal)>, rest: string)
    requires AllMembersPrintable(fields)
    requires EndsNumber(rest)
    ensures Lex(Join(SerializeMembers(fields)) + rest) == Prepend(MemberTokens(fields), Lex(rest))
    decreases fields, 0
  {
    if fields == [] {
      assert Join(SerializeMembers(fields)) + rest == rest;
      PrependNothing(Lex(rest));
    } else if |fields| == 1 {
      assert SerializeMembers(fields) == [SerializeMember(fields[0])];
      LexMember(fields[0], rest);
    } else {
      var head := SerializeMember(fields[0]);
      var tail := Join(SerializeMembers(fields[1..])) + rest;
      assert Join(SerializeMembers(fields)) + rest == head + ([','] + tail);
      LexMember(fields[0], [','] + tail);
      LexPunctuation(',', tail);
      LexMembers(fields[1..], rest);
      PrependAssoc([Punct(',')], MemberTokens(fields[1..]), Lex(rest));
      PrependAssoc(MemberTokensOf(fields[0]), [Punct(',')] + MemberTokens(fields[1..]), Lex(rest));
      assert MemberTokensOf(fields[0]) + ([Punct(',')] + MemberTokens(fields[1..])) == MemberTokens(fields);
    }
  }

  /** The text `stringify` gives a printable value that is not a bare number
      scans as exactly the value's tokens; a bare number runs to the end of
      the text and the scan hangs. */
  lemma LexStringify(v: JsVal)
    requires Printable(v)
    ensures !v.Num? ==> Lex(Serialize(v)) == Done(Tokens(v))
    ensures v.Num? ==> Lex(Serialize(v)) == Hangs
  {
    if v.Num? {
      LexTrailingNumber(v.text);
    } else {
      assert Serialize(v) + [] == Serialize(v);
      LexSerialized(v, []);
      assert Tokens(v) + [] == Tokens(v);
    }
  }

  /** `parse(stringify(v))` never gives a printable `v` back: a bare number
      makes the scan hang, and any other value throws SyntaxError. */
  lemma ParseOfStringify(v: JsVal)
    requires Printable(v)
    ensures ParseText(Serialize(v)) == if v.Num? then Hangs else Threw(SyntaxError)
  {
    LexStringify(v);
    ParseNeverSucceeds(Serialize(v));
    if !v.Num? {
      match v
      case Arr(_) =>
      case Obj(_) =>
      case _ =>
    }
  }
}
