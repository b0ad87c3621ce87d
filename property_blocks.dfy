/**
 * One property block, as `getPropertyContent` renders it (lib/index.js): a
 * `## key` heading, the type and description bullets, one bullet per `doc.props`
 * entry, and the extra content — for object-like nodes preceded by a section
 * that names each child field.
 */
module PropertyBlocks {
  import opened JsStrings
  import opened JsValues
  import opened I18n
  import opened PropertyTypes

  /** The full-width colon that follows the object-fields sentence. */
  const FullWidthColon: string := "\U{FF1A}"

  /** `${$i18n(path)}`: the label for `path`, as template text. */
  function LabelText(dict: Value, path: string): string {
    ToStr(Label(dict, path))
  }

  /** One `- <label>: <value>` line per `doc.props` entry, in key order. */
  function PropLines(dict: Value, props: seq<(string, Value)>): (r: seq<string>)
    ensures |r| == |props|
    ensures forall i :: 0 <= i < |props| ==>
      r[i] == "- " + LabelText(dict, "props." + props[i].0) + ": " + ToStr(props[i].1)
  {
    if props == [] then []
    else ["- " + LabelText(dict, "props." + props[0].0) + ": " + ToStr(props[0].1)] + PropLines(dict, props[1..])
  }

  /** One ``- `key`: <description>`` entry per child field, in declaration order. */
  function ChildLines(es: seq<(string, Node)>): (r: seq<string>)
    ensures |r| == |es|
    ensures forall i :: 0 <= i < |es| ==> r[i] == "- `" + es[i].0 + "`: " + Show(es[i].1.description)
  {
    if es == [] then []
    else ["- `" + es[0].0 + "`: " + Show(es[0].1.description)] + ChildLines(es[1..])
  }

  /** The extra content of a block: the merged text (`''` when absent), preceded for an object-like
      node by the object-fields section; `Thrown` for an object-like node without `properties`. */
  function ExtraContent(dict: Value, n: Node, extra: Option<string>): Outcome<string> {
    var merged := if extra.Some? then extra.value else "";
    if !IsObject(n) then Ok(merged)
    else if n.properties.NoFields? then Thrown
    else Ok("\n" + FieldsIntro(dict) + FullWidthColon + "\n\n" +
      JoinWith(ChildLines(n.properties.entries), "-") + "\n    " + merged)
  }

  /** `${$i18n('props.type')}`, `${$i18n('props.description')}` and `${$i18n('objectFieldsDesc')}`,
      each fixed path given with its segments (`TypeLabelIsLabel` and the two lemmas after it tie them to `Label`). */
  function TypeLabel(dict: Value): string {
    ToStr(LabelAlong(dict, "props.type", ["props", "type"]))
  }

  function DescriptionLabel(dict: Value): string {
    ToStr(LabelAlong(dict, "props.description", ["props", "description"]))
  }

  function FieldsIntro(dict: Value): string {
    ToStr(LabelAlong(dict, "objectFieldsDesc", ["objectFieldsDesc"]))
  }

  /** Each fixed label is the label function's value for its path. */
  lemma {:induction false} TypeLabelIsLabel(dict: Value)
    ensures TypeLabel(dict) == LabelText(dict, "props.type")
  {
    SplitTwo("props", "type");
    assert "props" + "." + "type" == "props.type";
  }

  lemma {:induction false} DescriptionLabelIsLabel(dict: Value)
    ensures DescriptionLabel(dict) == LabelText(dict, "props.description")
  {
    SplitTwo("props", "description");
    assert "props" + "." + "description" == "props.description";
  }

  lemma {:induction false} FieldsIntroIsLabel(dict: Value)
    ensures FieldsIntro(dict) == LabelText(dict, "objectFieldsDesc")
  {
    SplitNone("objectFieldsDesc", '.');
  }

  /** The type label is the dictionary's `props.type`, or its placeholder. */
  lemma {:induction false} TypeLabelOf(dict: Value)
    ensures TypeLabel(dict) ==
      if Nullish(dict) || Nullish(Index(dict, "props")) then "i18n_props.type"
      else ToStr(Index(Index(dict, "props"), "type"))
  {
    WalkTwo(dict, "props", "type");
  }

  /** The description label is the dictionary's `props.description`, or its placeholder. */
  lemma {:induction false} DescriptionLabelOf(dict: Value)
    ensures DescriptionLabel(dict) ==
      if Nullish(dict) || Nullish(Index(dict, "props")) then "i18n_props.description"
      else ToStr(Index(Index(dict, "props"), "description"))
  {
    WalkTwo(dict, "props", "description");
  }

  /** The object-fields sentence is the dictionary's `objectFieldsDesc`, or its placeholder. */
  lemma {:induction false} FieldsIntroOf(dict: Value)
    ensures FieldsIntro(dict) ==
      if Nullish(dict) then "i18n_objectFieldsDesc" else ToStr(Index(dict, "objectFieldsDesc"))
  {
    if !Nullish(dict) {
      assert ["objectFieldsDesc"][1..] == [];
      assert Walk(dict, ["objectFieldsDesc"]) == Walk(Index(dict, "objectFieldsDesc"), []);
    }
  }

  /** The `doc.props` lines joined by newlines. */
  function ExtraProps(dict: Value, props: seq<(string, Value)>): string {
    JoinWith(PropLines(dict, props), "\n")
  }

  /** The first line of a block and its type bullet. */
  function BlockHead(key: string, typeLabel: string, typeText: Option<string>): string {
    "## " + key + "\n\n- " + typeLabel + ": `" + Show(typeText) + "`"
  }

  /** The rest of a block, before trimming. */
  function BlockTail(descriptionLabel: string, description: Option<string>, extraProps: string, extraContent: string): string {
    "\n- " + descriptionLabel + ": " + Show(description) + "\n" + extraProps + "\n\n" + extraContent + "\n  "
  }

  /** The block of property `key` with node `n`, labels from `dict` and merged text `extra`. */
  function PropertyContent(key: string, n: Node, dict: Value, extra: Option<string>): Outcome<string> {
    match ExtraContent(dict, n, extra)
    case Thrown => Thrown
    case Ok(ec) =>
      match TypeText(n)
      case Thrown => Thrown
      case Ok(tt) =>
        Ok(Trim("\n" + BlockHead(key, TypeLabel(dict), tt) +
          BlockTail(DescriptionLabel(dict), n.description, ExtraProps(dict, n.docProps), ec)))
  }

  /** A block is rendered exactly when no node of the property's tree is malformed. */
  lemma {:induction false} PropertyContentThrowsIffMalformed(key: string, n: Node, dict: Value, extra: Option<string>)
    ensures PropertyContent(key, n, dict, extra).Thrown? <==> Malformed(n)
  {
    TypeTextThrowsIffMalformed(n);
  }

  lemma {:induction false} HeadEnds(key: string, typeLabel: string, tt: Option<string>)
    ensures var head := BlockHead(key, typeLabel, tt);
      |head| >= |key| + 5 && head[..|key| + 5] == "## " + key + "\n\n" &&
      head[0] == '#' && head[|head| - 1] == '`'
  {
    var head := BlockHead(key, typeLabel, tt);
    var rest := "- " + typeLabel + ": `" + Show(tt) + "`";
    assert head == ("## " + key + "\n\n") + rest;
  }

  /** Trimming a block only removes the leading newline and trailing whitespace: the block
      starts with its heading and type bullet, and then only its end is trimmed. */
  lemma {:induction false} BlockShape(key: string, n: Node, dict: Value, extra: Option<string>)
    requires PropertyContent(key, n, dict, extra).Ok?
    ensures TypeText(n).Ok? && ExtraContent(dict, n, extra).Ok?
    ensures PropertyContent(key, n, dict, extra).value ==
      BlockHead(key, TypeLabel(dict), TypeText(n).value) +
      TrimEnd(BlockTail(DescriptionLabel(dict), n.description, ExtraProps(dict, n.docProps),
        ExtraContent(dict, n, extra).value))
    ensures var b := PropertyContent(key, n, dict, extra).value; Trim(b) == b
  {
    var head := BlockHead(key, TypeLabel(dict), TypeText(n).value);
    var tail := BlockTail(DescriptionLabel(dict), n.description, ExtraProps(dict, n.docProps),
      ExtraContent(dict, n, extra).value);
    HeadEnds(key, TypeLabel(dict), TypeText(n).value);
    TrimAfterVisible("\n", head, tail);
  }

  lemma {:induction false} HeadedText(key: string, typeLabel: string, tt: Option<string>, tail: string)
    ensures var b := BlockHead(key, typeLabel, tt) + TrimEnd(tail);
      |b| >= |key| + 5 && b[..|key| + 5] == "## " + key + "\n\n" && EndsVisibly(b)
  {
    var head := BlockHead(key, typeLabel, tt);
    var t := TrimEnd(tail);
    TrimEndShape(tail);
    HeadEnds(key, typeLabel, tt);
    assert (head + t)[..|key| + 5] == head[..|key| + 5];
    if t == [] {
      assert head + t == head;
    }
  }

  /** Every block begins with its `## key` heading line followed by an empty line, and ends visibly. */
  lemma {:induction false} BlockStartsWithHeading(key: string, n: Node, dict: Value, extra: Option<string>)
    requires PropertyContent(key, n, dict, extra).Ok?
    ensures var b := PropertyContent(key, n, dict, extra).value;
      |b| >= |key| + 5 && b[..|key| + 5] == "## " + key + "\n\n" && EndsVisibly(b)
  {
    BlockShape(key, n, dict, extra);
    HeadedText(key, TypeLabel(dict), TypeText(n).value,
      BlockTail(DescriptionLabel(dict), n.description, ExtraProps(dict, n.docProps), ExtraContent(dict, n, extra).value));
  }

  /** A plain property without `doc.props` or merged text, whose description ends visibly, is
      exactly its heading and two bullets. */
  lemma {:induction false} PlainBlock(key: string, n: Node, dict: Value, extra: Option<string>)
    requires !IsObject(n) && n.docProps == [] && (extra.None? || extra.value == "")
    requires EndsVisibly(Show(n.description))
    ensures PropertyContent(key, n, dict, extra) == Ok(
      BlockHead(key, TypeLabel(dict), TypeText(n).value) +
      ("\n- " + DescriptionLabel(dict) + ": " + Show(n.description)))
  {
    TypeTextThrowsIffMalformed(n);
    BlockShape(key, n, dict, extra);
    assert ExtraContent(dict, n, extra) == Ok("");
    assert ExtraProps(dict, n.docProps) == "";
    PlainTail(DescriptionLabel(dict), n.description);
  }

  /** A plain block is its heading line, a blank line, the type line and the description line. */
  lemma {:induction false} PlainBlockLines(key: string, n: Node, dict: Value, extra: Option<string>)
    requires !IsObject(n) && n.docProps == [] && (extra.None? || extra.value == "")
    requires EndsVisibly(Show(n.description))
    ensures PropertyContent(key, n, dict, extra) == Ok("## " + key + "\n\n" +
      (("- " + TypeLabel(dict) + ": `" + Show(TypeText(n).value) + "`") + "\n" +
       ("- " + DescriptionLabel(dict) + ": " + Show(n.description))))
  {
    PlainBlock(key, n, dict, extra);
    HeadAndDescription(key, TypeLabel(dict), TypeText(n).value, DescriptionLabel(dict), Show(n.description));
  }

  /** The type line and the description line are bullet lines: each starts with `- `, ends with a
      visible character and, when its labels and texts hold no newline, is a single line. */
  lemma {:induction false} PlainLinesShape(tl: string, tt: Option<string>, dl: string, d: string)
    requires '\n' !in tl && '\n' !in Show(tt) && '\n' !in dl && '\n' !in d && EndsVisibly(d)
    ensures var t := "- " + tl + ": `" + Show(tt) + "`";
      var e := "- " + dl + ": " + d;
      '\n' !in t && '\n' !in e && |t| >= 2 && t[..2] == "- " && EndsVisibly(t) &&
      |e| >= 2 && e[..2] == "- " && EndsVisibly(e)
  {
    var e := "- " + dl + ": " + d;
    assert e[|e| - 1] == d[|d| - 1];
  }

  lemma {:induction false} HeadAndDescription(key: string, tl: string, tt: Option<string>, dl: string, d: string)
    ensures BlockHead(key, tl, tt) + ("\n- " + dl + ": " + d) ==
      "## " + key + "\n\n" + (("- " + tl + ": `" + Show(tt) + "`") + "\n" + ("- " + dl + ": " + d))
  {
    var x := "- " + tl + ": `" + Show(tt) + "`";
    var y := "- " + dl + ": " + d;
    var h := "## " + key + "\n\n";
    assert BlockHead(key, tl, tt) == h + x;
    assert "\n- " + dl + ": " + d == "\n" + y;
    assert (h + x) + ("\n" + y) == h + (x + "\n" + y);
  }

  lemma {:induction false} PlainTail(descriptionLabel: string, description: Option<string>)
    requires EndsVisibly(Show(description))
    ensures TrimEnd(BlockTail(descriptionLabel, description, "", "")) ==
      "\n- " + descriptionLabel + ": " + Show(description)
  {
    var d := Show(description);
    var x := "\n- " + descriptionLabel + ": " + d;
    var w := "\n" + "" + "\n\n" + "" + "\n  ";
    assert BlockTail(descriptionLabel, description, "", "") == x + w;
    assert x[|x| - 1] == d[|d| - 1];
    TrimEndKeepsVisiblePrefix(x, w);
    TrimEndBlank(w);
    assert x + "" == x;
  }

  /** The object-fields section: the locale's sentence, a full-width colon, an empty line, the
      child entries, then the merged text; a missing merged text counts as `''`. */
  lemma {:induction false} ObjectSection(dict: Value, n: Node, extra: Option<string>)
    requires n.properties.Fields?
    ensures var es := n.properties.entries;
      ExtraContent(dict, n, extra) == Ok("\n" + FieldsIntro(dict) + FullWidthColon + "\n\n" +
        JoinWith(ChildLines(es), "-") + "\n    " + (if extra.None? then "" else extra.value))
  {
  }

  /** The children are glued by `-`, not by newlines: when no key or description holds a newline,
      all child entries share one line. */
  lemma {:induction false} ChildrenOnOneLine(es: seq<(string, Node)>)
    requires forall i :: 0 <= i < |es| ==> '\n' !in es[i].0 && '\n' !in Show(es[i].1.description)
    ensures '\n' !in JoinWith(ChildLines(es), "-")
  {
    var lines := ChildLines(es);
    forall i | 0 <= i < |lines| ensures '\n' !in lines[i] {
      assert lines[i] == "- `" + es[i].0 + "`: " + Show(es[i].1.description);
    }
    JoinWithout(lines, "-", '\n');
  }

  /** Two child entries: the second starts right after a `-`, on the same line. */
  lemma {:induction false} TwoChildren(a: string, x: Node, b: string, y: Node)
    ensures JoinWith(ChildLines([(a, x), (b, y)]), "-") ==
      "- `" + a + "`: " + Show(x.description) + "-- `" + b + "`: " + Show(y.description)
  {
    var lines := ChildLines([(a, x), (b, y)]);
    assert lines[1..] == [lines[1]];
  }
}
