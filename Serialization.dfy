/** What the serializer of src/JSON.ts (`serializeValue` and its helpers,
    lines 139-208) produces for a value, as functions. */
module Serialization {
  import opened JsonTypes

  /** `serializeString` (src/JSON.ts:196-199): the characters of `s` between
      two double quotes, with nothing escaped. */
  function SerializeString(s: string): (r: string)
    ensures |r| == |s| + 2 && r[0] == '"' && r[|r| - 1] == '"'
    ensures r[1..|r| - 1] == s
  {
    "\"" + s + "\""
  }

  /** `serializePrimitive` (src/JSON.ts:205-208): the template string of a
      number, a boolean or null. */
  function SerializePrimitive(v: JsVal): (r: string)
    requires v.Null? || v.Bool? || v.Num?
    ensures v.Null? ==> r == "null"
    ensures v.Bool? ==> r == if v.b then "true" else "false"
    ensures v.Num? ==> r == v.text
  {
    match v
    case Null => "null"
    case Bool(b) => if b then "true" else "false"
    case Num(text) => text
  }

  /** The total length of the parts. */
  function TotalLength(parts: seq<string>): nat {
    if parts == [] then 0 else |parts[0]| + TotalLength(parts[1..])
  }

  /** The parts, separated by `,` with no whitespace. */
  function Join(parts: seq<string>): string {
    if parts == [] then ""
    else if |parts| == 1 then parts[0]
    else parts[0] + "," + Join(parts[1..])
  }

  /** The text `serializeValue` returns for `v`: the dispatch of
      src/JSON.ts:139-158, with arrays and objects as the loops of
      src/JSON.ts:160-190 build them. */
  function Serialize(v: JsVal): string
    decreases v, 1
  {
    match v
    case Arr(elems) => "[" + Join(SerializeEach(elems)) + "]"
    case Obj(fields) => "{" + Join(SerializeMembers(fields)) + "}"
    case Str(s) => SerializeString(s)
    case Null => SerializePrimitive(v)
    case Bool(_) => SerializePrimitive(v)
    case Num(_) => SerializePrimitive(v)
    case Other => ""
  }

  /** The text of each element, in order. */
  function SerializeEach(elems: seq<JsVal>): (r: seq<string>)
    ensures |r| == |elems|
    decreases elems, 0
  {
    if elems == [] then [] else [Serialize(elems[0])] + SerializeEach(elems[1..])
  }

  /** The text `"key":value` of one property. */
  function SerializeMember(field: (string, JsVal)): string
    decreases field, 2
  {
    "\"" + field.0 + "\":" + Serialize(field.1)
  }

  /** The text of a property is the quoted key, a colon and the value's
      text, with nothing in between. */
  lemma MemberParts(field: (string, JsVal))
    ensures var r := SerializeMember(field);
      |r| == |field.0| + 3 + |Serialize(field.1)| &&
      r[..|field.0| + 2] == SerializeString(field.0) && r[|field.0| + 2] == ':' &&
      r[|field.0| + 3..] == Serialize(field.1)
  {
  }

  /** The text of each property, in key order. */
  function SerializeMembers(fields: seq<(string, JsVal)>): (r: seq<string>)
    ensures |r| == |fields|
    decreases fields, 0
  {
    if fields == [] then [] else [SerializeMember(fields[0])] + SerializeMembers(fields[1..])
  }

  /** Joining adds exactly one comma between neighbours and nothing else,
      and the text starts with the first part. */
  lemma {:induction false} JoinLength(parts: seq<string>)
    ensures |Join(parts)| == TotalLength(parts) + if parts == [] then 0 else |parts| - 1
    ensures parts != [] ==> Join(parts)[..|parts[0]|] == parts[0]
  {
    if |parts| > 1 {
      JoinLength(parts[1..]);
      assert Join(parts) == parts[0] + ("," + Join(parts[1..]));
    }
  }

  /** An array prints between brackets and an object between braces; a
      string, a primitive and an unsupported value print as their own
      serializers give them. */
  lemma SerializeShape(v: JsVal)
    ensures var r := Serialize(v);
      (v.Arr? ==> |r| >= 2 && r[0] == '[' && r[|r| - 1] == ']') &&
      (v.Obj? ==> |r| >= 2 && r[0] == '{' && r[|r| - 1] == '}') &&
      (v.Str? ==> r == SerializeString(v.s)) &&
      (v.Null? ==> r == "null") &&
      (v.Bool? ==> r == if v.b then "true" else "false") &&
      (v.Num? ==> r == v.text) &&
      (v.Other? ==> r == "")
  {
  }

  /** Adding one part at the end adds one comma and that part. */
  lemma {:induction false} JoinSnoc(parts: seq<string>, p: string)
    ensures Join(parts + [p]) == if parts == [] then p else Join(parts) + "," + p
  {
    if parts != [] {
      assert (parts + [p])[0] == parts[0];
      assert (parts + [p])[1..] == parts[1..] + [p];
      JoinSnoc(parts[1..], p);
    }
  }

  /** The text at position `i` is the text of element `i`. */
  lemma {:induction false} EachAt(elems: seq<JsVal>, i: nat)
    requires i < |elems|
    ensures SerializeEach(elems)[i] == Serialize(elems[i])
  {
    if i > 0 {
      EachAt(elems[1..], i - 1);
    }
  }

  /** The text at position `i` is the text of property `i`. */
  lemma {:induction false} MembersAt(fields: seq<(string, JsVal)>, i: nat)
    requires i < |fields|
    ensures SerializeMembers(fields)[i] == SerializeMember(fields[i])
  {
    if i > 0 {
      MembersAt(fields[1..], i - 1);
    }
  }

  /** One pass of the loops of `serializeArray` and `serializeObject`:
      after the separator, part `i` extends the joined first `i` parts. */
  lemma PartAppended(parts: seq<string>, i: nat, open: string, result: string)
    requires i < |parts|
    requires result == open + Join(parts[..i]) + (if i > 0 then "," else "")
    ensures result + parts[i] == open + Join(parts[..i + 1])
  {
    assert parts[..i + 1] == parts[..i] + [parts[i]];
    JoinSnoc(parts[..i], parts[i]);
  }
}
