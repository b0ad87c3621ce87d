/**
 * The document generator `jsonschema2md` (lib/index.js): for each task it looks up
 * the schema, merges the schema's `doc` override onto the built-in label table,
 * picks the locale, parses the merge file and assembles the document from the
 * front matter, the title, the description, the heading and one block per
 * property. File reading is a parameter: a map from absolute paths to loaded
 * schemas and a map from paths to file texts.
 */
module Transform {
  import opened JsStrings
  import opened JsValues
  import Config
  import opened I18n
  import opened MergedMarkdown
  import opened PropertyTypes
  import opened PropertyBlocks

  /** One entry of `src`: the schema path (already absolute), and the optional merge-file path,
      locale, front matter and heading. */
  datatype Task = Task(
    schemaPath: string,
    schemaMarkdown: Option<string>,
    locale: Option<string>,
    frontmatter: Option<string>,
    heading: Option<string>)

  /** What loading a schema file yields, as far as the generator reads it. */
  datatype Schema = Schema(title: Option<string>, description: Option<string>, properties: Fields, doc: Value)

  /** The files the generator can read: schemas by absolute path, and text files by path. */
  datatype FileSystem = FileSystem(schemas: map<string, Schema>, texts: map<string, string>)

  /** `src`: one task, or a list of them. */
  datatype Source = One(task: Task) | Many(tasks: seq<Task>)

  /** The result: the document itself for exactly one task, otherwise the list of documents. */
  datatype Output = Single(md: string) | List(mds: seq<string>)

  /** `safeTrim`: a present string, trimmed, or `''`. */
  function SafeTrim(str: Option<string>): (r: string)
    ensures r == "" || (!IsSpace(r[0]) && !IsSpace(r[|r| - 1]))
    ensures str.None? ==> r == ""
    ensures str.Some? ==> r == Trim(str.value)
  {
    if str.None? then ""
    else
      TrimIsInnerPiece(str.value);
      Trim(str.value)
  }

  /** Safe-trimming is idempotent. */
  lemma {:induction false} SafeTrimIdempotent(str: Option<string>)
    ensures SafeTrim(Some(SafeTrim(str))) == SafeTrim(str)
  {
    if str.Some? {
      TrimIdempotent(str.value);
    }
  }

  /** The label table after merging a schema's `doc`; a missing or non-object `doc` changes nothing. */
  function DocConfig(doc: Value): (r: Value)
    ensures r.Obj?
  {
    if doc.Obj? then Merge(Config.DefaultDocConfig, doc) else Config.DefaultDocConfig
  }

  /** The task's locale, `en-US` when it has none. */
  function LocaleName(task: Task): string {
    if task.locale.None? then "en-US" else task.locale.value
  }

  /** `docConfig.locales[locale]`; `Thrown` when `locales` itself is `undefined` or `null`. */
  function LocaleDict(doc: Value, locale: string): Outcome<Value> {
    var locales := Index(DocConfig(doc), "locales");
    if Nullish(locales) then Thrown else Ok(Index(locales, locale))
  }

  /** `'\n\n' + s` for a non-empty `s`. */
  function Frame(s: string): string {
    if s == "" then "" else "\n\n" + s
  }

  /** The title line, the whitespace-only line, the description and the framed heading. */
  function Intro(title: Option<string>, description: Option<string>, heading: string): string {
    "# " + Show(title) + "\n \n" + Show(description) + Frame(heading)
  }

  /** Everything after the front matter, before trimming. */
  function DocBody(title: Option<string>, description: Option<string>, heading: string, blocks: seq<string>): string {
    Intro(title, description, heading) + "\n\n" + JoinWith(blocks, "\n\n")
  }

  /** The document, given the safe-trimmed front matter and heading and the property blocks. */
  function Document(frontmatter: string, title: Option<string>, description: Option<string>,
                    heading: string, blocks: seq<string>): string
  {
    Trim(Frame(frontmatter) + DocBody(title, description, heading, blocks) + "\n    ")
  }

  /** One block per property, in key order, each with its entry of the merge map as extra content;
      `Thrown` when any block throws. */
  function Blocks(es: seq<(string, Node)>, dict: Value, merged: map<string, string>): Outcome<seq<string>> {
    if exists i :: 0 <= i < |es| && PropertyContent(es[i].0, es[i].1, dict, Entry(merged, es[i].0)).Thrown? then Thrown
    else Ok(seq(|es|, i requires 0 <= i < |es| => PropertyContent(es[i].0, es[i].1, dict, Entry(merged, es[i].0)).value))
  }

  /** The merge map of a task. */
  function MergedContent(fs: FileSystem, task: Task): map<string, string> {
    Parse(MergeSourceText(fs.texts, MergeSourcePath(task.schemaMarkdown, task.schemaPath)))
  }

  /** One task's document; `Thrown` when the schema cannot be loaded, `locales` is nullish,
      `properties` is absent, or a property's tree is malformed. */
  function Transform(fs: FileSystem, task: Task): Outcome<string> {
    if task.schemaPath !in fs.schemas then Thrown
    else
      var schema := fs.schemas[task.schemaPath];
      match LocaleDict(schema.doc, LocaleName(task))
      case Thrown => Thrown
      case Ok(dict) =>
        if schema.properties.NoFields? then Thrown
        else
          match Blocks(schema.properties.entries, dict, MergedContent(fs, task))
          case Thrown => Thrown
          case Ok(bs) =>
            Ok(Document(SafeTrim(task.frontmatter), schema.title, schema.description, SafeTrim(task.heading), bs))
  }

  /** The tasks of `src`, a single task counting as a list of one. */
  function Tasks(src: Source): seq<Task> {
    match src
    case One(t) => [t]
    case Many(ts) => ts
  }

  /** The generator as the source runs it: a loop over the tasks that collects each document;
      the first task that throws ends the run. */
  method Jsonschema2md(fs: FileSystem, src: Source) returns (r: Outcome<Output>)
    ensures r.Thrown? <==> exists i :: 0 <= i < |Tasks(src)| && Transform(fs, Tasks(src)[i]).Thrown?
    ensures r.Ok? && |Tasks(src)| == 1 ==> r.value == Single(Transform(fs, Tasks(src)[0]).value)
    ensures r.Ok? && |Tasks(src)| != 1 ==>
      r.value.List? && |r.value.mds| == |Tasks(src)| &&
      forall i :: 0 <= i < |Tasks(src)| ==> r.value.mds[i] == Transform(fs, Tasks(src)[i]).value
  {
    r := Collect(Tasks(src), t => Transform(fs, t));
  }

  /** The loop of the generator, for any per-task rendering `render`. */
  method Collect(tasks: seq<Task>, render: Task -> Outcome<string>) returns (r: Outcome<Output>)
    ensures r.Thrown? <==> exists i :: 0 <= i < |tasks| && render(tasks[i]).Thrown?
    ensures r.Ok? && |tasks| == 1 ==> r.value == Single(render(tasks[0]).value)
    ensures r.Ok? && |tasks| != 1 ==>
      r.value.List? && |r.value.mds| == |tasks| &&
      forall i :: 0 <= i < |tasks| ==> r.value.mds[i] == render(tasks[i]).value
  {
    var results: seq<string> := [];
    for k := 0 to |tasks|
      invariant |results| == k
      invariant forall i :: 0 <= i < k ==> render(tasks[i]).Ok? && results[i] == render(tasks[i]).value
    {
      var md := render(tasks[k]);
      if md.Thrown? {
        return Thrown;
      }
      results := results + [md.value];
    }
    if |results| == 1 {
      return Ok(Single(results[0]));
    }
    return Ok(List(results));
  }

  // ---------------------------------------------------------------------------------------------
  // Blocks.

  /** The blocks are computed exactly when no property's tree is malformed, and then they are the
      properties' blocks in key order. */
  lemma {:induction false} BlocksInOrder(es: seq<(string, Node)>, dict: Value, merged: map<string, string>)
    ensures Blocks(es, dict, merged).Thrown? <==> exists i :: 0 <= i < |es| && Malformed(es[i].1)
    ensures Blocks(es, dict, merged).Ok? ==>
      |Blocks(es, dict, merged).value| == |es| &&
      forall i :: 0 <= i < |es| ==>
        PropertyContent(es[i].0, es[i].1, dict, Entry(merged, es[i].0)).Ok? &&
        Blocks(es, dict, merged).value[i] == PropertyContent(es[i].0, es[i].1, dict, Entry(merged, es[i].0)).value
  {
    forall i | 0 <= i < |es|
      ensures PropertyContent(es[i].0, es[i].1, dict, Entry(merged, es[i].0)).Thrown? <==> Malformed(es[i].1)
    {
      PropertyContentThrowsIffMalformed(es[i].0, es[i].1, dict, Entry(merged, es[i].0));
    }
  }

  // ---------------------------------------------------------------------------------------------
  // Errors.

  /** The error conditions of one task, stated independently. */
  predicate Fails(fs: FileSystem, task: Task) {
    task.schemaPath !in fs.schemas ||
    (var schema := fs.schemas[task.schemaPath];
      Nullish(Index(DocConfig(schema.doc), "locales")) ||
      schema.properties.NoFields? ||
      exists i :: 0 <= i < |schema.properties.entries| && Malformed(schema.properties.entries[i].1))
  }

  /** A task throws exactly when its schema is missing, `locales` is `undefined` or `null`,
      `properties` is absent, or some property's tree is malformed. */
  lemma {:induction false} TransformThrowsIffFails(fs: FileSystem, task: Task)
    ensures Transform(fs, task).Thrown? <==> Fails(fs, task)
  {
    if task.schemaPath in fs.schemas {
      var schema := fs.schemas[task.schemaPath];
      if schema.properties.Fields? && LocaleDict(schema.doc, LocaleName(task)).Ok? {
        BlocksInOrder(schema.properties.entries, LocaleDict(schema.doc, LocaleName(task)).value, MergedContent(fs, task));
      }
    }
  }

  /** A `doc` that does not mention `locales` leaves the built-in locales in place. */
  lemma {:induction false} LocalesKept(doc: Value)
    requires doc.Obj? ==> "locales" !in Keys(doc.fields)
    ensures Index(DocConfig(doc), "locales") == Index(Config.DefaultDocConfig, "locales")
  {
    Config.ExactlyTwoLocales();
    if doc.Obj? {
      IndexMerge(Config.DefaultDocConfig, doc, "locales");
      assert Get(doc.fields, "locales") == Undef;
    }
  }

  /** Without a `locales` override the locale lookup never throws; no locale means English, and
      a locale the table lacks gives `undefined`, so every label becomes its placeholder. */
  lemma {:induction false} LocaleChoice(doc: Value, task: Task)
    requires doc.Obj? ==> "locales" !in Keys(doc.fields)
    ensures LocaleDict(doc, LocaleName(task)).Ok?
    ensures task.locale.None? ==> LocaleDict(doc, LocaleName(task)).value == Config.EnUS
    ensures task.locale.Some? && task.locale.value != "en-US" && task.locale.value != "zh-CN" ==>
      LocaleDict(doc, LocaleName(task)).value == Undef &&
      forall p :: p != "" ==> LabelText(LocaleDict(doc, LocaleName(task)).value, p) == "i18n_" + p
  {
    LocalesKept(doc);
    Config.ExactlyTwoLocales();
    var locales := Index(Config.DefaultDocConfig, "locales");
    if task.locale.Some? && task.locale.value != "en-US" && task.locale.value != "zh-CN" {
      assert Get(locales.fields, task.locale.value) == Undef;
      forall p | p != "" ensures LabelText(Undef, p) == "i18n_" + p {
        MissingDictionaryGivesPlaceholder(Undef, p);
      }
    }
  }

  /** Merging an override of `props.type` onto any dictionary with a `props` table replaces that
      entry and keeps the description entry and the object-fields sentence. */
  lemma {:induction false} TypeOverrideEntries(base: Value, t: string)
    requires base.Obj? && Index(base, "props").Obj?
    ensures var dict := Merge(base, Obj([("props", Obj([("type", Str(t))]))]));
      dict.Obj? && Index(dict, "props").Obj? &&
      Index(Index(dict, "props"), "type") == Str(t) &&
      Index(Index(dict, "props"), "description") == Index(Index(base, "props"), "description") &&
      Index(dict, "objectFieldsDesc") == Index(base, "objectFieldsDesc")
  {
    var props := Obj([("type", Str(t))]);
    var entry := Obj([("props", props)]);
    var bp := Index(base, "props");
    var dict := Merge(base, entry);
    assert Index(entry, "props") == props;
    IndexMerge(base, entry, "props");
    assert Index(dict, "props") == Merge(bp, props);
    assert Index(props, "type") == Str(t);
    IndexMerge(bp, props, "type");
    assert Index(props, "description") == Undef;
    IndexMerge(bp, props, "description");
    assert Index(entry, "objectFieldsDesc") == Undef;
    IndexMerge(base, entry, "objectFieldsDesc");
  }

  /** Merging an override of `props.type` onto any dictionary with a `props` table replaces that
      label and keeps the description label and the object-fields sentence. */
  lemma {:induction false} TypeOverride(base: Value, t: string)
    requires base.Obj? && Index(base, "props").Obj?
    ensures var dict := Merge(base, Obj([("props", Obj([("type", Str(t))]))]));
      TypeLabel(dict) == t &&
      DescriptionLabel(dict) == DescriptionLabel(base) &&
      FieldsIntro(dict) == FieldsIntro(base)
  {
    var dict := Merge(base, Obj([("props", Obj([("type", Str(t))]))]));
    TypeOverrideEntries(base, t);
    TypeLabelOf(dict);
    DescriptionLabelOf(dict);
    DescriptionLabelOf(base);
    FieldsIntroOf(dict);
    FieldsIntroOf(base);
  }

  /** A `doc` that overrides one locale's entry yields that locale's built-in table (`undefined` for a
      locale the table lacks) merged with the override. */
  lemma {:induction false} LocaleOverride(locale: string, entry: Value)
    ensures var doc := Obj([("locales", Obj([(locale, entry)]))]);
      LocaleDict(doc, locale) == Ok(Merge(Index(Index(Config.DefaultDocConfig, "locales"), locale), entry))
  {
    var locales := Obj([(locale, entry)]);
    var doc := Obj([("locales", locales)]);
    Config.ExactlyTwoLocales();
    var d := Config.DefaultDocConfig;
    var l := Index(d, "locales");
    IndexMerge(d, doc, "locales");
    assert Index(doc, "locales") == locales;
    assert Index(DocConfig(doc), "locales") == Merge(l, locales);
    assert l.Obj?;
    IndexMerge(l, locales, locale);
    assert Index(locales, locale) == entry;
  }

  /** A `doc` that overrides `props.type` of a built-in locale replaces that label and keeps the
      description label and the object-fields sentence of the built-in table. */
  lemma {:induction false} OverrideWins(locale: string, t: string)
    requires locale == "zh-CN" || locale == "en-US"
    ensures var doc := Obj([("locales", Obj([(locale, Obj([("props", Obj([("type", Str(t))]))]))]))]);
      var builtin := Index(Index(Config.DefaultDocConfig, "locales"), locale);
      LocaleDict(doc, locale).Ok? &&
      TypeLabel(LocaleDict(doc, locale).value) == t &&
      DescriptionLabel(LocaleDict(doc, locale).value) == DescriptionLabel(builtin) &&
      FieldsIntro(LocaleDict(doc, locale).value) == FieldsIntro(builtin)
  {
    var entry := Obj([("props", Obj([("type", Str(t))]))]);
    var doc := Obj([("locales", Obj([(locale, entry)]))]);
    var builtin := Index(Index(Config.DefaultDocConfig, "locales"), locale);
    LocaleOverride(locale, entry);
    assert LocaleDict(doc, locale) == Ok(Merge(builtin, entry));
    Config.BuiltinLocaleShape(locale);
    TypeOverride(builtin, t);
  }

  // ---------------------------------------------------------------------------------------------
  // The shape of the document.

  /** Joining ends with the last part. */
  lemma {:induction false} JoinEndsVisibly(parts: seq<string>, sep: string)
    requires parts != [] && EndsVisibly(parts[|parts| - 1])
    ensures EndsVisibly(JoinWith(parts, sep))
    decreases |parts|
  {
    if |parts| > 1 {
      JoinEndsVisibly(parts[1..], sep);
      var rest := JoinWith(parts[1..], sep);
      assert JoinWith(parts, sep) == (parts[0] + sep) + rest;
    }
  }

  lemma {:induction false} BodyEnds(title: Option<string>, description: Option<string>, heading: string, blocks: seq<string>)
    requires blocks != [] && EndsVisibly(blocks[|blocks| - 1])
    ensures var body := DocBody(title, description, heading, blocks);
      body[0] == '#' && EndsVisibly(body)
  {
    JoinEndsVisibly(blocks, "\n\n");
    var j := JoinWith(blocks, "\n\n");
    var p := Intro(title, description, heading) + "\n\n";
    assert p[0] == '#';
    assert DocBody(title, description, heading, blocks) == p + j;
  }

  /** Trimming the document removes only the frame of the front matter and the trailing
      whitespace: the front matter comes right before `# title`, without a separator. */
  lemma {:induction false} DocumentShape(frontmatter: string, title: Option<string>, description: Option<string>,
                                         heading: string, blocks: seq<string>)
    requires frontmatter == [] || (!IsSpace(frontmatter[0]) && !IsSpace(frontmatter[|frontmatter| - 1]))
    requires blocks != [] && EndsVisibly(blocks[|blocks| - 1])
    ensures Document(frontmatter, title, description, heading, blocks) ==
      frontmatter + DocBody(title, description, heading, blocks)
  {
    var body := DocBody(title, description, heading, blocks);
    BodyEnds(title, description, heading, blocks);
    TrimEndBlank("\n    ");
    if frontmatter == [] {
      assert Frame(frontmatter) + body + "\n    " == "" + body + "\n    ";
      TrimAfterVisible("", body, "\n    ");
      assert body + "" == body;
      assert frontmatter + body == body;
    } else {
      var head := frontmatter + body;
      assert head[0] == frontmatter[0];
      assert head[|head| - 1] == body[|body| - 1];
      assert Frame(frontmatter) + body + "\n    " == "\n\n" + head + "\n    ";
      TrimAfterVisible("\n\n", head, "\n    ");
      assert head + "" == head;
    }
  }

  /** The document is already trimmed. */
  lemma {:induction false} DocumentIsTrimmed(frontmatter: string, title: Option<string>, description: Option<string>,
                                             heading: string, blocks: seq<string>)
    ensures var d := Document(frontmatter, title, description, heading, blocks); Trim(d) == d
  {
    TrimIdempotent(Frame(frontmatter) + DocBody(title, description, heading, blocks) + "\n    ");
  }

  /** A task that does not fail, and has properties, yields its document: safe-trimmed front
      matter glued to `# title`, the whitespace-only line, the description, the heading and the
      blocks joined by empty lines. */
  lemma {:induction false} TransformShape(fs: FileSystem, task: Task)
    requires !Fails(fs, task)
    requires fs.schemas[task.schemaPath].properties.entries != []
    ensures var schema := fs.schemas[task.schemaPath];
      LocaleDict(schema.doc, LocaleName(task)).Ok? &&
      (var dict := LocaleDict(schema.doc, LocaleName(task)).value;
       var bs := Blocks(schema.properties.entries, dict, MergedContent(fs, task));
       bs.Ok? && |bs.value| == |schema.properties.entries| &&
       Transform(fs, task) ==
         Ok(SafeTrim(task.frontmatter) + DocBody(schema.title, schema.description, SafeTrim(task.heading), bs.value)))
  {
    var schema := fs.schemas[task.schemaPath];
    var dict := LocaleDict(schema.doc, LocaleName(task)).value;
    var es := schema.properties.entries;
    var merged := MergedContent(fs, task);
    BlocksInOrder(es, dict, merged);
    var bs := Blocks(es, dict, merged).value;
    var n := |es| - 1;
    BlockStartsWithHeading(es[n].0, es[n].1, dict, Entry(merged, es[n].0));
    DocumentShape(SafeTrim(task.frontmatter), schema.title, schema.description, SafeTrim(task.heading), bs);
  }

  /** What precedes block `i` in the newline-framed join, up to the newline just before it. */
  function JoinBefore(bs: seq<string>, i: nat): string
    requires i < |bs|
  {
    if i == 0 then "\n" else "\n\n" + JoinWith(bs[..i], "\n\n") + "\n"
  }

  /** What follows block `i` in the newline-framed join. */
  function JoinAfter(bs: seq<string>, i: nat): string
    requires i < |bs|
  {
    if i + 1 == |bs| then "" else "\n\n" + JoinWith(bs[i + 1..], "\n\n")
  }

  /** Where block `i` sits in the newline-framed join. */
  lemma {:induction false} JoinAround(bs: seq<string>, i: nat)
    requires i < |bs|
    ensures "\n\n" + JoinWith(bs, "\n\n") == JoinBefore(bs, i) + "\n" + bs[i] + JoinAfter(bs, i)
  {
    var tail := bs[i..];
    assert tail == [bs[i]] + bs[i + 1..];
    var jt := JoinWith(tail, "\n\n");
    if i + 1 < |bs| {
      JoinCons(bs[i], bs[i + 1..], "\n\n");
    } else {
      assert tail == [bs[i]];
    }
    if i == 0 {
      assert bs == tail;
    } else {
      assert bs == bs[..i] + tail;
      JoinAppend(bs[..i], tail, "\n\n");
    }
  }

  /** Regrouping a document around a block that starts with its heading line. */
  lemma {:induction false} Regroup(fm: string, intro: string, before: string, block: string, after: string, key: string)
    requires |block| >= |key| + 5 && block[..|key| + 5] == "## " + key + "\n\n"
    ensures fm + (intro + (before + "\n" + block + after)) ==
      (fm + intro + before) + "\n## " + key + "\n\n" + (block[|key| + 5..] + after)
  {
    assert block == "## " + key + "\n\n" + block[|key| + 5..];
  }

  /** A document whose block `i` starts with the heading line of `key` parses back with `key`. */
  lemma {:induction false} KeyInDocument(fm: string, title: Option<string>, description: Option<string>,
                                         heading: string, bs: seq<string>, i: nat, key: string)
    requires i < |bs| && IsHeadingKey(key)
    requires |bs[i]| >= |key| + 5 && bs[i][..|key| + 5] == "## " + key + "\n\n"
    ensures key in Parse(fm + DocBody(title, description, heading, bs))
  {
    DocAround(fm, title, description, heading, bs, i, key);
    KeyRecovered(fm + Intro(title, description, heading) + JoinBefore(bs, i), key, bs[i][|key| + 5..] + JoinAfter(bs, i));
  }

  /** A document regrouped around block `i`, which starts with its heading line. */
  lemma {:induction false} DocAround(fm: string, title: Option<string>, description: Option<string>,
                                     heading: string, bs: seq<string>, i: nat, key: string)
    requires i < |bs|
    requires |bs[i]| >= |key| + 5 && bs[i][..|key| + 5] == "## " + key + "\n\n"
    ensures fm + DocBody(title, description, heading, bs) ==
      (fm + Intro(title, description, heading) + JoinBefore(bs, i)) + "\n## " + key + "\n\n" +
      (bs[i][|key| + 5..] + JoinAfter(bs, i))
  {
    var intro := Intro(title, description, heading);
    var before, after := JoinBefore(bs, i), JoinAfter(bs, i);
    JoinAround(bs, i);
    assert DocBody(title, description, heading, bs) == intro + (before + "\n" + bs[i] + after);
    Regroup(fm, intro, before, bs[i], after, key);
  }

  /** What follows a block that is not the last starts with a blank line and the next block. */
  lemma {:induction false} AfterShape(bs: seq<string>, i: nat)
    requires i + 1 < |bs| && |bs[i + 1]| >= 3 && bs[i + 1][..3] == "## "
    ensures var after := JoinAfter(bs, i);
      |after| >= 5 && after[..5] == "\n\n## " && after[2..] == JoinWith(bs[i + 1..], "\n\n")
  {
    var j := JoinWith(bs[i + 1..], "\n\n");
    if i + 2 < |bs| {
      assert bs[i + 1..] == [bs[i + 1]] + bs[i + 2..];
      JoinCons(bs[i + 1], bs[i + 2..], "\n\n");
    } else {
      assert bs[i + 1..] == [bs[i + 1]];
    }
    assert j[..3] == bs[i + 1][..3];
  }

  /** Re-reading a document as a merge file gives block `i`'s key the trimmed lines of the block
      after its heading line, up to the next heading line; every generated line counts, bullets
      included, not only text that came from a merge file. */
  lemma {:induction false} BlockBodyRecovered(fm: string, title: Option<string>, description: Option<string>,
                                              heading: string, bs: seq<string>, i: nat, key: string)
    requires i < |bs| && IsHeadingKey(key)
    requires |bs[i]| >= |key| + 5 && bs[i][..|key| + 5] == "## " + key + "\n\n"
    requires NoHeadingFor(Split(fm + Intro(title, description, heading) + JoinBefore(bs, i), '\n'), key)
    requires NoHeadings(Split(bs[i][|key| + 5..], '\n'))
    requires i + 1 < |bs| ==> (|bs[i + 1]| >= 3 && bs[i + 1][..3] == "## " &&
      NoHeadingFor(Split(JoinWith(bs[i + 1..], "\n\n"), '\n'), key))
    ensures var md := fm + DocBody(title, description, heading, bs);
      var body := bs[i][|key| + 5..] + (if i + 1 < |bs| then "\n" else "");
      key in Parse(md) && Parse(md)[key] == JoinWith(DropLeadingEmpty(TrimLines(Split(body, '\n'))), "\n")
  {
    DocAround(fm, title, description, heading, bs, i, key);
    var rest := bs[i][|key| + 5..];
    if i + 1 < |bs| {
      AfterShape(bs, i);
    } else {
      assert rest + "" == rest;
    }
    SectionRecovered(fm + Intro(title, description, heading) + JoinBefore(bs, i), key, rest, JoinAfter(bs, i));
  }

  /** Re-reading a document whose block `i` is its heading line, a blank line and two bullet lines
      gives that key the two bullet lines. */
  lemma {:induction false} BulletBlockReadBack(fm: string, title: Option<string>, description: Option<string>,
                                               heading: string, bs: seq<string>, i: nat, key: string,
                                               t: string, d: string)
    requires i < |bs| && IsHeadingKey(key)
    requires '\n' !in t && '\n' !in d
    requires |t| >= 2 && t[..2] == "- " && EndsVisibly(t)
    requires |d| >= 2 && d[..2] == "- " && EndsVisibly(d)
    requires bs[i] == "## " + key + "\n\n" + (t + "\n" + d)
    requires NoHeadingFor(Split(fm + Intro(title, description, heading) + JoinBefore(bs, i), '\n'), key)
    requires i + 1 < |bs| ==> (|bs[i + 1]| >= 3 && bs[i + 1][..3] == "## " &&
      NoHeadingFor(Split(JoinWith(bs[i + 1..], "\n\n"), '\n'), key))
    ensures var md := fm + DocBody(title, description, heading, bs);
      key in Parse(md) && Parse(md)[key] == t + "\n" + d + (if i + 1 < |bs| then "\n" else "")
  {
    assert bs[i][..|key| + 5] == "## " + key + "\n\n";
    var rest := bs[i][|key| + 5..];
    assert rest == t + "\n" + d;
    BulletsReadBack(t, d);
    BlockBodyRecovered(fm, title, description, heading, bs, i, key);
    if i + 1 < |bs| {
      assert rest + "\n" == t + "\n" + d + "\n";
    } else {
      assert rest + "" == t + "\n" + d;
    }
  }

  /** Re-reading a document whose block `i` describes a plain property, with nothing merged into
      it, gives that key the block's own two bullet lines: the type line and the description line
      that a regeneration writes again. */
  lemma {:induction false} PlainBlockReadBack(fm: string, title: Option<string>, description: Option<string>,
                                              heading: string, bs: seq<string>, i: nat,
                                              key: string, n: Node, dict: Value, extra: Option<string>)
    requires i < |bs| && IsHeadingKey(key)
    requires !IsObject(n) && n.docProps == [] && (extra.None? || extra.value == "")
    requires EndsVisibly(Show(n.description)) && TypeText(n).Ok?
    requires '\n' !in TypeLabel(dict) && '\n' !in Show(TypeText(n).value)
    requires '\n' !in DescriptionLabel(dict) && '\n' !in Show(n.description)
    requires PropertyContent(key, n, dict, extra) == Ok(bs[i])
    requires NoHeadingFor(Split(fm + Intro(title, description, heading) + JoinBefore(bs, i), '\n'), key)
    requires i + 1 < |bs| ==> (|bs[i + 1]| >= 3 && bs[i + 1][..3] == "## " &&
      NoHeadingFor(Split(JoinWith(bs[i + 1..], "\n\n"), '\n'), key))
    ensures var md := fm + DocBody(title, description, heading, bs);
      var t := "- " + TypeLabel(dict) + ": `" + Show(TypeText(n).value) + "`";
      var d := "- " + DescriptionLabel(dict) + ": " + Show(n.description);
      key in Parse(md) && Parse(md)[key] == t + "\n" + d + (if i + 1 < |bs| then "\n" else "")
  {
    PlainBlockLines(key, n, dict, extra);
    PlainLinesShape(TypeLabel(dict), TypeText(n).value, DescriptionLabel(dict), Show(n.description));
    BulletBlockReadBack(fm, title, description, heading, bs, i, key,
      "- " + TypeLabel(dict) + ": `" + Show(TypeText(n).value) + "`",
      "- " + DescriptionLabel(dict) + ": " + Show(n.description));
  }

  /** A generated document parses back, as a merge file, with a heading for every property key
      that a `## ` line reproduces exactly. */
  lemma {:induction false} KeysRecovered(fs: FileSystem, task: Task, i: nat)
    requires !Fails(fs, task)
    requires i < |fs.schemas[task.schemaPath].properties.entries|
    requires IsHeadingKey(fs.schemas[task.schemaPath].properties.entries[i].0)
    ensures Transform(fs, task).Ok? &&
      fs.schemas[task.schemaPath].properties.entries[i].0 in Parse(Transform(fs, task).value)
  {
    var schema := fs.schemas[task.schemaPath];
    var es := schema.properties.entries;
    var dict := LocaleDict(schema.doc, LocaleName(task)).value;
    var merged := MergedContent(fs, task);
    TransformShape(fs, task);
    var bs := Blocks(es, dict, merged).value;
    BlocksInOrder(es, dict, merged);
    var key := es[i].0;
    BlockStartsWithHeading(key, es[i].1, dict, Entry(merged, key));
    KeyInDocument(SafeTrim(task.frontmatter), schema.title, schema.description, SafeTrim(task.heading), bs, i, key);
  }
}
