/** What the model gives for the inputs of test/JSON.test.ts: the text
    `stringify` returns and the outcome of `parse`. */
module Examples {
  import opened JsonTypes
  import opened Lexer
  import opened Serialization
  import opened Codec

  /** The array `[1, 2, 3]` serializes as `[1,2,3]`. */
  lemma StringifyArray()
    ensures Serialize(Arr([Num("1"), Num("2"), Num("3")])) == "[1,2,3]"
  {
    var elems := [Num("1"), Num("2"), Num("3")];
    assert SerializeEach(elems) == ["1", "2", "3"];
    assert Join(["1", "2", "3"]) == "1,2,3";
  }

  /** `{ key: 'value', array: [1, 2, 3] }` as the test file writes it. */
  const SampleObject: JsVal := Obj([("key", Str("value")), ("array", Arr([Num("1"), Num("2"), Num("3")]))])

  /** The text of each property of the sample object, in key order. */
  lemma SampleMemberTexts()
    ensures SerializeMembers(SampleObject.fields) == ["\"key\":\"value\"", "\"array\":[1,2,3]"]
  {
    StringifyArray();
    var fields := SampleObject.fields;
    assert SerializeMember(fields[0]) == "\"key\":\"value\"";
    assert SerializeMember(fields[1]) == "\"array\":[1,2,3]";
    assert SerializeMembers(fields[1..]) == [SerializeMember(fields[1])];
  }

  /** The two properties of the sample object joined by a comma. */
  lemma StringifyMembers()
    ensures Join(SerializeMembers(SampleObject.fields)) == "\"key\":\"value\",\"array\":[1,2,3]"
  {
    SampleMemberTexts();
  }

  /** The text the test file expects for the sample object. */
  const SampleText: string := "{\"key\":\"value\",\"array\":[1,2,3]}"

  lemma SampleTextBraced(inner: string)
    requires inner == "\"key\":\"value\",\"array\":[1,2,3]"
    ensures "{" + inner + "}" == SampleText
  {
  }

  /** The sample object serializes with no whitespace, keys in order,
      elements joined by commas. */
  lemma StringifyObjectWithArray()
    ensures Serialize(SampleObject) == SampleText
  {
    var inner := Join(SerializeMembers(SampleObject.fields));
    assert Serialize(SampleObject) == "{" + inner + "}";
    StringifyMembers();
    SampleTextBraced(inner);
  }

  /** An empty array and an empty object serialize as `[]` and `{}`. */
  lemma StringifyEmpty()
    ensures Serialize(Arr([])) == "[]" && Serialize(Obj([])) == "{}"
  {
    assert SerializeEach([]) == [];
    assert SerializeMembers([]) == [];
  }

  /** A property whose value is undefined keeps its key and gets an empty
      value: the text is not JSON, and not the `{"key1":null}` the test
      expects. */
  lemma StringifyUndefinedMember()
    ensures Serialize(Obj([("key1", Null), ("key2", Other)])) == "{\"key1\":null,\"key2\":}"
  {
    var fields := [("key1", Null), ("key2", Other)];
    assert SerializeMember(fields[0]) == "\"key1\":null";
    assert SerializeMember(fields[1]) == "\"key2\":";
    assert fields[1..][1..] == [];
    assert SerializeMembers(fields) == ["\"key1\":null", "\"key2\":"];
  }

  /** `{}` and `[]` scan as two punctuation tokens, which `parseValue`
      rejects: parsing them throws SyntaxError. */
  lemma ParseEmpty()
    ensures ParseText("{}") == Threw(SyntaxError)
    ensures ParseText("[]") == Threw(SyntaxError)
  {
    LexPunctuation('}', []);
    LexPunctuation('{', "}");
    assert ['{'] + "}" == "{}";
    ParseNeverSucceeds("{}");
    LexPunctuation(']', []);
    LexPunctuation('[', "]");
    assert ['['] + "]" == "[]";
    ParseNeverSucceeds("[]");
  }
}
