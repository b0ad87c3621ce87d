/**
 * Schema property nodes and the text `resolveTypeText` shows for their type
 * (lib/index.js): the declared `type` or `typeof`, replaced by the quoted `enum`
 * values, replaced in turn, for object-like nodes, by a `{ key: type, ... }`
 * listing of the children.
 */
module PropertyTypes {
  import opened JsStrings
  import opened JsValues

  /** A `type` or `typeof` entry: absent, one name, or a list of names. */
  datatype TypeField = Absent | Name(name: string) | Names(names: seq<string>)

  /** A node's `properties`: absent, or the child nodes in declaration order. */
  datatype Fields = NoFields | Fields(entries: seq<(string, Node)>)

  /** A property node of a schema, as far as the generator reads it. `docProps` is the node's
      `doc.props` object (empty when `doc` or `props` is absent). */
  datatype Node = Node(
    typeField: TypeField,
    typeofField: TypeField,
    enumValues: Option<seq<string>>,
    properties: Fields,
    description: Option<string>,
    docProps: seq<(string, Value)>)

  /** Whether a `type`/`typeof` value is truthy: an empty name is falsy, any list is truthy. */
  predicate Truthy(t: TypeField) {
    match t
    case Absent => false
    case Name(s) => s != ""
    case Names(_) => true
  }

  /** A `type`/`typeof` value as text, a list joined by ` | `; `None` for an absent one. */
  function FieldText(t: TypeField): Option<string> {
    match t
    case Absent => None
    case Name(s) => Some(s)
    case Names(ss) => Some(JoinWith(ss, " | "))
  }

  /** `type || typeof`, with a list joined by ` | `. */
  function BaseText(n: Node): Option<string> {
    if Truthy(n.typeField) then FieldText(n.typeField) else FieldText(n.typeofField)
  }

  /** Each enum value wrapped in double quotes, which are not escaped. */
  function Quoted(vals: seq<string>): (r: seq<string>)
    ensures |r| == |vals| && forall i :: 0 <= i < |vals| ==> r[i] == "\"" + vals[i] + "\""
  {
    if vals == [] then [] else ["\"" + vals[0] + "\""] + Quoted(vals[1..])
  }

  function EnumText(vals: seq<string>): string {
    JoinWith(Quoted(vals), " | ")
  }

  /** `isObjectProperty`: `type` is exactly `object`, or there are `properties`. */
  predicate IsObject(n: Node) {
    n.typeField == Name("object") || n.properties.Fields?
  }

  /** The type text of a node; `Thrown` when an object-like node without `properties` is listed
      (`Object.keys(undefined)`); `Ok(None)` when no text is found (printed as `undefined`). */
  function TypeText(n: Node): Outcome<Option<string>>
    decreases n, 1, 0
  {
    if IsObject(n) then
      if n.properties.NoFields? then Thrown
      else
        match MemberTexts(n, 0)
        case Thrown => Thrown
        case Ok(ts) => Ok(Some("{ " + JoinWith(ts, ", ") + " }"))
    else if n.enumValues.Some? then Ok(Some(EnumText(n.enumValues.value)))
    else Ok(BaseText(n))
  }

  /** `key: <type text>` for each child of `n` from position `i` on. */
  function MemberTexts(n: Node, i: nat): Outcome<seq<string>>
    requires n.properties.Fields? && i <= |n.properties.entries|
    decreases n, 0, |n.properties.entries| - i
  {
    var es := n.properties.entries;
    if i == |es| then Ok([])
    else
      match TypeText(es[i].1)
      case Thrown => Thrown
      case Ok(t) =>
        match MemberTexts(n, i + 1)
        case Thrown => Thrown
        case Ok(ts) => Ok([es[i].0 + ": " + Show(t)] + ts)
  }

  /** Some node reachable through `properties` declares `type: 'object'` but has no `properties`. */
  predicate Malformed(n: Node)
    decreases n
  {
    match n.properties
    case NoFields => n.typeField == Name("object")
    case Fields(es) => exists i :: 0 <= i < |es| && Malformed(es[i].1)
  }

  /** The type text is computed exactly when no node of the tree is malformed. */
  lemma {:induction false} TypeTextThrowsIffMalformed(n: Node)
    ensures TypeText(n).Thrown? <==> Malformed(n)
    decreases n, 1, 0
  {
    if n.properties.Fields? {
      MemberTextsThrowIffMalformed(n, 0);
    }
  }

  lemma {:induction false} MemberTextsThrowIffMalformed(n: Node, i: nat)
    requires n.properties.Fields? && i <= |n.properties.entries|
    ensures var es := n.properties.entries;
      MemberTexts(n, i).Thrown? <==> exists j :: i <= j < |es| && Malformed(es[j].1)
    decreases n, 0, |n.properties.entries| - i
  {
    var es := n.properties.entries;
    if i < |es| {
      TypeTextThrowsIffMalformed(es[i].1);
      MemberTextsThrowIffMalformed(n, i + 1);
    }
  }

  /** The text of a well-formed child. */
  function ChildText(n: Node): Option<string>
    requires !Malformed(n)
  {
    TypeTextThrowsIffMalformed(n);
    TypeText(n).value
  }

  /** `key: <type text>` per child, in declaration order. */
  lemma {:induction false} MemberTextsInOrder(n: Node, i: nat)
    requires n.properties.Fields? && i <= |n.properties.entries|
    requires forall j :: 0 <= j < |n.properties.entries| ==> !Malformed(n.properties.entries[j].1)
    ensures var es := n.properties.entries;
      MemberTexts(n, i).Ok? && |MemberTexts(n, i).value| == |es| - i &&
      forall j :: 0 <= j < |es| - i ==>
        MemberTexts(n, i).value[j] == es[i + j].0 + ": " + Show(ChildText(es[i + j].1))
    decreases |n.properties.entries| - i
  {
    var es := n.properties.entries;
    if i < |es| {
      MemberTextsInOrder(n, i + 1);
      TypeTextThrowsIffMalformed(es[i].1);
      var ts := MemberTexts(n, i + 1).value;
      assert MemberTexts(n, i).value == [es[i].0 + ": " + Show(ChildText(es[i].1))] + ts;
    }
  }

  /** An object-like node with well-formed children lists them in declaration order; its enum and
      base text are ignored. */
  lemma {:induction false} ObjectText(n: Node)
    requires n.properties.Fields?
    requires forall j :: 0 <= j < |n.properties.entries| ==> !Malformed(n.properties.entries[j].1)
    ensures var es := n.properties.entries;
      TypeText(n) == Ok(Some("{ " + JoinWith(seq(|es|, j requires 0 <= j < |es| =>
        es[j].0 + ": " + Show(ChildText(es[j].1))), ", ") + " }"))
  {
    var es := n.properties.entries;
    MemberTextsInOrder(n, 0);
    assert MemberTexts(n, 0).value == seq(|es|, j requires 0 <= j < |es| =>
      es[j].0 + ": " + Show(ChildText(es[j].1)));
  }

  /** `type: 'object'` without `properties` throws. */
  lemma {:induction false} ObjectWithoutPropertiesThrows(n: Node)
    requires n.typeField == Name("object") && n.properties.NoFields?
    ensures TypeText(n) == Thrown
  {
  }

  /** A node that is not object-like and has an enum shows the quoted values. */
  lemma {:induction false} EnumWins(n: Node)
    requires !IsObject(n) && n.enumValues.Some?
    ensures TypeText(n) == Ok(Some(JoinWith(Quoted(n.enumValues.value), " | ")))
    ensures forall i :: 0 <= i < |n.enumValues.value| ==>
      Quoted(n.enumValues.value)[i] == "\"" + n.enumValues.value[i] + "\""
  {
  }

  /** Otherwise the text is `type`, or `typeof` when `type` is falsy. */
  lemma {:induction false} BaseWins(n: Node)
    requires !IsObject(n) && n.enumValues.None?
    ensures Truthy(n.typeField) ==> TypeText(n) == Ok(FieldText(n.typeField))
    ensures !Truthy(n.typeField) ==> TypeText(n) == Ok(FieldText(n.typeofField))
  {
  }

  /** An empty `type` falls back to `typeof`; neither gives no text. */
  lemma {:induction false} FalsyTypeFallsBack(d: Option<string>)
    ensures TypeText(Node(Name(""), Name("integer"), None, NoFields, d, [])) == Ok(Some("integer"))
    ensures TypeText(Node(Absent, Absent, None, NoFields, d, [])) == Ok(None)
  {
  }

  /** A list type joins with ` | `. */
  lemma {:induction false} ListType()
    ensures TypeText(Node(Names(["string", "number"]), Absent, None, NoFields, None, [])) ==
      Ok(Some("string | number"))
  {
    var n := Node(Names(["string", "number"]), Absent, None, NoFields, None, []);
    var ss := ["string", "number"];
    assert ss[1..] == ["number"];
    assert JoinWith(ss, " | ") == "string" + " | " + "number" == "string | number";
    assert BaseText(n) == Some("string | number");
  }

  /** `enum: ['a', 'b']` shows `"a" | "b"`. */
  lemma {:induction false} EnumExample()
    ensures TypeText(Node(Name("string"), Absent, Some(["a", "b"]), NoFields, None, [])) ==
      Ok(Some("\"a\" | \"b\""))
  {
    var q := Quoted(["a", "b"]);
    assert q[0] == "\"" + "a" + "\"" == "\"a\"";
    assert q[1] == "\"" + "b" + "\"" == "\"b\"";
    assert q == ["\"a\"", "\"b\""];
    assert q[1..] == ["\"b\""];
    assert JoinWith(q, " | ") == "\"a\"" + " | " + "\"b\"" == "\"a\" | \"b\"";
    assert EnumText(["a", "b"]) == "\"a\" | \"b\"";
  }

  /** `{ type: 'object', properties: { foo: { type: 'string' } } }` shows `{ foo: string }`. */
  lemma {:induction false} ObjectExample()
    ensures var foo := Node(Name("string"), Absent, None, NoFields, None, []);
      TypeText(Node(Name("object"), Absent, None, Fields([("foo", foo)]), None, [])) ==
        Ok(Some("{ foo: string }"))
  {
    var foo := Node(Name("string"), Absent, None, NoFields, None, []);
    var n := Node(Name("object"), Absent, None, Fields([("foo", foo)]), None, []);
    assert TypeText(foo) == Ok(Some("string"));
    assert MemberTexts(n, 1) == Ok([]);
    assert "foo" + ": " + Show(Some("string")) == "foo: string";
    assert MemberTexts(n, 0) == Ok(["foo" + ": " + Show(Some("string"))] + []);
    assert ["foo: string"] + [] == ["foo: string"];
    assert JoinWith(["foo: string"], ", ") == "foo: string";
    assert "{ " + "foo: string" + " }" == "{ foo: string }";
  }
}
