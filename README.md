# schema2md core, modelled in Dafny

schema2md turns JSON Schema files into Markdown documents. For each task the
generator `jsonschema2md`:

1. loads the schema;
2. merges the schema's `doc` override onto the built-in label table
   `DEFAULT_DOC_CONFIG`;
3. picks the locale's label dictionary;
4. parses an optional "merge" Markdown file into a map from heading to body;
5. writes the document. The document holds the front matter, `# title`, the
   description, an optional heading and one block per property. A block holds
   a `## key` heading, bullets for the type label and the description label,
   one bullet per `doc.props` entry and the extra content. For object-like
   properties the extra content is a section that lists the child fields.

The model has eight modules:

- `JsStrings`: JavaScript's `trim`, `split` and `join` on `seq<char>`.
- `JsValues`: JSON-like values, sequences of keyed entries kept in enumeration
  order, property reads, template-literal text and the recursive merge.
- `Config`: the built-in table of `lib/config.js`.
- `I18n`: the label function returned by `getI18nFn`, plus `Lookup`, the
  loop version that the source actually runs.
- `MergedMarkdown`: the merge-file parser (`Parse` as a fold, plus the
  `ParseMergedMarkdown` loop) and the choice of which merge file to read.
- `PropertyTypes`: `isObjectProperty` and `resolveTypeText`.
- `PropertyBlocks`: `getPropertyContent`.
- `Transform`: one task's document, and `Jsonschema2md`, the loop over tasks
  that collects the results.

A JavaScript exception is modelled as the `Thrown` case of `Outcome`. File
access is a parameter. A `FileSystem` value maps absolute schema paths to
loaded schemas and text-file paths to their contents.

Notes on the code, which the model follows:

- When the last segment of a label path is missing, the label is `undefined`
  (printed as "undefined"). The `i18n_<path>` placeholder appears only when an
  intermediate value is `undefined` or `null`.
- Child-field entries of an object section are glued by `-`, not by newlines.
- A non-empty front matter is followed directly by `# title`, with no newline
  between them.
- `.json$` is an unescaped regular expression without the `u` flag, so any
  non-terminator UTF-16 code unit before `json` is replaced. The model works on
  code points (see "Left out").
- Read back as a merge file, a generated document gives a property key the
  lines of its block after the heading, bullets included, provided no line of
  the block body is a heading and no other line heads that key. Each line comes
  back trimmed, leading empty lines are dropped and the rest are joined by
  newlines, so indentation (of prose or of nested lists) is lost. Regenerating
  from such a file appends those bullets again.

## Model

| member | source | states |
|---|---|---|
| JsStrings.TrimStartShape | lib/index.js:95 | Removing leading whitespace returns a suffix of the input: everything dropped is whitespace, and the result is empty or starts with a non-whitespace character |
| JsStrings.TrimEndShape | lib/index.js:95 | Removing trailing whitespace returns a prefix of the input: everything dropped is whitespace, and the result is empty or ends with a non-whitespace character |
| JsStrings.TrimIsInnerPiece | lib/index.js:95 | `trim` returns a contiguous piece of its input that is empty or has visible characters at both ends |
| JsStrings.TrimIdempotent | lib/index.js:95 | Trimming twice gives the same result as trimming once |
| JsStrings.Trim | lib/index.js:95 | `trim` removes leading whitespace, then trailing whitespace; the `Trim*` lemmas state what that leaves |
| JsStrings.Split | lib/index.js:50 | `split` yields at least one piece, and no piece contains the separator |
| JsStrings.SplitJoin | lib/index.js:50 | Joining the pieces of `split` with the separator gives back the input |
| JsStrings.SplitFirstKeeps | lib/index.js:50 | The first piece starts with every prefix of the input that holds no separator |
| JsValues.Get | lib/index.js:24 | A property read returns the value of the first entry stored under that key, and `undefined` when no entry has the key |
| JsValues.ToStr | lib/index.js:241-242 | Template-literal text of a value: a string is itself, `undefined` and `null` print their names, an object prints `[object Object]` |
| JsValues.Merge | lib/index.js:142 | `merge(a, b)`: objects merge key by key, keeping `a`'s entry order and adding `b`'s new keys after it; an `undefined` override keeps `a`; any other override replaces it |
| JsValues.Keys | lib/index.js:165 | `Object.keys` lists every key, in entry order |
| JsValues.IndexMerge | lib/index.js:142 | Reading a key of a merged object equals merging what each side holds under that key |
| Config.ExactlyTwoLocales | lib/config.js:1-20 | The table's only key is `locales`, which lists `zh-CN` and then `en-US` and maps them to the two built-in dictionaries |
| Config.LocaleShape | lib/config.js:3-18 | Each locale has a string `objectFieldsDesc` and a `props` table with exactly the string labels `type`, `description`, `level` |
| Config.ZhCNLabels | lib/config.js:5-9 | The Chinese labels are 类型, 描述, 级别 |
| Config.EnUSLabels | lib/config.js:13-17 | The English labels are Type, Description, and `level` in lower case |
| Config.ZhCNLacks | lib/config.js:5-9 | The Chinese `props` table has no key other than `type`, `description` and `level`: any other key reads as `undefined` |
| Config.EnUSLacks | lib/config.js:13-17 | The English `props` table has no key other than `type`, `description` and `level`: any other key reads as `undefined` |
| I18n.Label | lib/index.js:14-31 | The label function: the dictionary itself for an empty path, otherwise the walk along the dot-separated segments, or `i18n_<path>` when the walk throws |
| I18n.Lookup | lib/index.js:13-31 | The shifting loop returns the dictionary itself for an empty path, and otherwise the label the recursive walk defines |
| I18n.WalkMatchesChain | lib/index.js:21-28 | The walk throws exactly when some value it indexes is `undefined` or `null`; otherwise it reaches the optional-chain value |
| I18n.LabelOutcome | lib/index.js:19-30 | For a non-empty path the label is the placeholder `i18n_<path>` exactly when some intermediate value is nullish, and otherwise the value reached |
| I18n.MissingDictionaryGivesPlaceholder | lib/index.js:26-28 | With a missing dictionary, every non-empty path gives its placeholder |
| I18n.MissingLastSegmentIsUndefined | lib/index.js:22-30 | If the parent object exists but lacks the last segment, the label is `undefined`, not the placeholder |
| I18n.SplitTwo | lib/index.js:19 | `a.b` splits into `[a, b]` when neither part contains a dot |
| I18n.WalkTwo | lib/index.js:22-25 | A two-segment walk throws when the dictionary or its first member is nullish; otherwise it indexes twice |
| I18n.LabelOne | lib/index.js:14-30 | A one-segment label is one index into the dictionary, or the placeholder for a missing dictionary |
| I18n.LabelTwo | lib/index.js:14-30 | A two-segment label is two indexes, or the placeholder when the dictionary or its first member is nullish |
| I18n.ZhCNTypeLabel | lib/index.js:241 | `props.type` in the Chinese table is 类型 |
| I18n.UnknownPropsLabel | lib/index.js:19-30 | In either built-in table, `props.<k>` is `undefined` for every dot-free k other than `type`, `description` and `level` (a k with a dot reaches `undefined` one step early and gives the placeholder) |
| I18n.UnknownLabelIsUndefined | lib/index.js:220 | `props.nonexistent` is `undefined` in both the Chinese and the English table |
| MergedMarkdown.HashRun | lib/index.js:47 | `#+` counts exactly the leading `#` characters |
| MergedMarkdown.SpaceRun | lib/index.js:47 | `\s+` counts exactly the leading whitespace characters |
| MergedMarkdown.TextRun | lib/index.js:47 | `(.*)` stops at the first line terminator |
| MergedMarkdown.HeadingOf | lib/index.js:47-51 | `line.match(/^#+\s+(.*)/)`: no match, or the capture after the hashes and the whitespace, up to the first line terminator |
| MergedMarkdown.HeadingOfMatches | lib/index.js:47-51 | A recognised heading line matches the pattern with the counted runs and the captured text |
| MergedMarkdown.MatchedRuns | lib/index.js:47 | Any greedy match of the pattern has exactly the runs that `HeadingOf` counts |
| MergedMarkdown.MatchIsHeading | lib/index.js:47-51 | Every greedy match of the pattern is recognised, with the same capture |
| MergedMarkdown.HeadingOfIsGreedyMatch | lib/index.js:47-51 | A line is recognised with capture `h` if and only if the pattern matches it greedily with capture `h` |
| MergedMarkdown.Step | lib/index.js:50-64 | One line of the reduce: a heading line sets the current key to its trimmed capture; any other line, under a non-empty key, trims and sets or appends to that key's entry |
| MergedMarkdown.Parse | lib/index.js:42-66 | `{}` for an empty text; otherwise the fold of `Step` over the newline-separated lines, from an empty key and an empty map |
| MergedMarkdown.ParseMergedMarkdown | lib/index.js:42-66 | The loop over the lines returns the map that the fold defines, including `{}` for empty input |
| MergedMarkdown.StepBucket | lib/index.js:51-62 | One line moves the current heading as the pattern says and extends only the current heading's bucket |
| MergedMarkdown.FoldBucket | lib/index.js:50-65 | After the whole file, each heading's bucket is its old bucket extended by exactly the lines that fall under it |
| MergedMarkdown.AccumulateConcat | lib/index.js:57-61 | Extending a bucket by two runs of lines equals extending it by their concatenation |
| MergedMarkdown.AccumulateOnto | lib/index.js:59-61 | A non-empty body grows by newline-joined lines |
| MergedMarkdown.AccumulateFromEmpty | lib/index.js:57-58 | An empty body is falsy, so leading empty lines overwrite it and only the rest is joined |
| MergedMarkdown.AccumulateFresh | lib/index.js:57-61 | A new body is its lines with leading empty ones dropped, joined by newlines |
| MergedMarkdown.DropLeadingEmpty | lib/index.js:57-58 | What is dropped is a prefix of empty lines, and what remains is empty or starts with a non-empty line |
| MergedMarkdown.ParseBodies | lib/index.js:42-66 | A heading has an entry if and only if some non-heading line falls under it; the entry is those lines, trimmed, without leading empty ones, newline-joined |
| MergedMarkdown.StepWellFormed | lib/index.js:51-62 | One step keeps keys non-empty and trimmed and bodies starting visibly |
| MergedMarkdown.FoldWellFormed | lib/index.js:50-65 | The fold keeps keys non-empty and trimmed and bodies starting visibly |
| MergedMarkdown.ParseWellFormed | lib/index.js:53-58 | Every key is non-empty and trimmed, and every body is empty or starts with a non-whitespace character |
| MergedMarkdown.NoKeyDiscards | lib/index.js:55 | Lines before the first heading change nothing |
| MergedMarkdown.WithoutHeadingsEmpty | lib/index.js:43-55 | A merge file without heading lines gives `{}`, as an empty file does |
| MergedMarkdown.BlankHeadingDiscards | lib/index.js:53-55 | A heading whose text trims to `''` discards the lines under it up to the next heading |
| MergedMarkdown.HeadingAddsNothing | lib/index.js:52-53 | A heading line sets the current key to its trimmed text and leaves the map unchanged |
| MergedMarkdown.RepeatedHeadingAppends | lib/index.js:59-61 | Under a heading that already has a non-empty body, a new line is appended after a newline |
| MergedMarkdown.HeadingOfRendered | lib/index.js:239 | The `## key` line of a block is recognised as heading `key` |
| MergedMarkdown.KeyRecovered | lib/index.js:50-58 | A `## key` line followed by an empty line anywhere after the first line puts `key` into the map |
| MergedMarkdown.TrimLines | lib/index.js:56 | Each line trimmed, in order |
| MergedMarkdown.NoHeadingsAll | lib/index.js:51 | A run of lines has no heading line exactly when every line fails the pattern |
| MergedMarkdown.HashHashSpaceIsHeading | lib/index.js:47-51 | Every line starting with `## ` is a heading line |
| MergedMarkdown.FirstLineHeads | lib/index.js:47-51 | The first line of a text starting with `## ` is a heading line |
| MergedMarkdown.GovernedSkip | lib/index.js:50-62 | While the current key is not `h`, lines that do not head `h` give `h` nothing, up to a following heading line |
| MergedMarkdown.GovernedRun | lib/index.js:50-62 | Under key `h`, a run of non-heading lines gives `h` exactly those lines, trimmed |
| MergedMarkdown.GovernedElsewhere | lib/index.js:50-62 | Under another key, lines that are not headed `h` give `h` nothing |
| MergedMarkdown.NoHeadingsNewline | lib/index.js:50 | A trailing newline adds one empty line, which is not a heading |
| MergedMarkdown.LinesAround | lib/index.js:50 | Splitting `before`, a `## key` line, an empty line, a body and a newline-started rest gives the lines of each part in order |
| MergedMarkdown.GovernedAround | lib/index.js:50-62 | With no other `key` heading before or after and no heading in the body, `key` receives the empty line and the body's trimmed lines |
| MergedMarkdown.BodyRecovered | lib/index.js:42-66 | In such a text, `key` is in the map and its entry is the body's trimmed lines, leading empty ones dropped, newline-joined |
| MergedMarkdown.SectionRecovered | lib/index.js:42-66 | A `key` section that ends the text, or is followed after an empty line by a heading line, is read back as its own trimmed lines (plus a final empty line in the second case) |
| MergedMarkdown.SectionBeforeHeading | lib/index.js:42-66 | A `key` section followed by an empty line and a heading line is read back with its lines and one final empty line |
| MergedMarkdown.BulletLines | lib/index.js:50-56 | Two single-line bullets joined by a newline split into those two lines; trimming leaves each unchanged, and neither is a heading |
| MergedMarkdown.BulletsReadBack | lib/index.js:50-61 | Under a heading, two bullet lines are read back as themselves, with or without a final empty line |
| MergedMarkdown.ReplaceJsonSuffix | lib/index.js:80 | `p.replace(/.json$/, '.md')` |
| MergedMarkdown.ReplaceJsonSuffixMatches | lib/index.js:80 | The path changes exactly when the pattern matches, meaning a non-terminator character (a code point in the model), then `json`, then the end of the input; the match is then replaced by `.md` |
| MergedMarkdown.MergeSourcePath | lib/index.js:76-81 | A truthy `schemaMarkdown` wins; otherwise the schema path with its `json` suffix replaced |
| MergedMarkdown.MergeSourceText | lib/index.js:82-85 | The file's text when it exists, and `''` otherwise |
| MergedMarkdown.ExplicitSourceWins | lib/index.js:77-78 | A non-empty `schemaMarkdown` is the merge-file path |
| MergedMarkdown.JsonBecomesMd | lib/index.js:79-81 | Otherwise `x.json` is merged from `x.md` |
| MergedMarkdown.AnyCharacterBeforeJson | lib/index.js:80 | `.` in the pattern matches any non-terminator character, so `configjson` is merged from `confi.md` |
| MergedMarkdown.OtherPathsUnchanged | lib/index.js:80 | A path that does not end in `json` is used unchanged |
| PropertyTypes.IsObject | lib/index.js:197-199 | A node is object-like when its `type` is `'object'` or it has `properties` |
| PropertyTypes.TypeText | lib/index.js:257-275 | The type text: `{ k: t, … }` for an object-like node, which throws without `properties`; else the quoted enum; else the (joined) `type`, or `typeof` when `type` is falsy |
| PropertyTypes.MemberTexts | lib/index.js:266-272 | The children's `key: text` entries, in order, throwing at the first malformed one |
| PropertyTypes.Quoted | lib/index.js:263 | Each enum value is wrapped in unescaped double quotes, in order |
| PropertyTypes.TypeTextThrowsIffMalformed | lib/index.js:257-275 | The type text throws if and only if some node of the tree has `type: 'object'` and no `properties` |
| PropertyTypes.MemberTextsThrowIffMalformed | lib/index.js:267-270 | Listing the children from position i throws if and only if one of them is malformed |
| PropertyTypes.MemberTextsInOrder | lib/index.js:268-270 | Each child is shown as `key: <its type text>`, in declaration order |
| PropertyTypes.ObjectText | lib/index.js:266-272 | An object-like node shows `{ k1: t1, k2: t2 }` and ignores enum and base type |
| PropertyTypes.ObjectWithoutPropertiesThrows | lib/index.js:197-199 | Declaring `type: 'object'` makes a node object-like even without `properties`, so listing its children throws |
| PropertyTypes.EnumWins | lib/index.js:262-264 | A non-object node with an enum shows its values quoted and joined by a vertical bar with a space on each side |
| PropertyTypes.BaseWins | lib/index.js:258-261 | Otherwise the text comes from `type`, or from `typeof` when `type` is falsy |
| PropertyTypes.FalsyTypeFallsBack | lib/index.js:258 | An empty `type` falls back to `typeof`; with neither field there is no text |
| PropertyTypes.ListType | lib/index.js:259-261 | A list type is joined by a vertical bar with a space on each side |
| PropertyTypes.EnumExample | lib/index.js:262-264 | The enum `a`, `b` shows the two quoted values separated by a vertical bar with spaces |
| PropertyTypes.ObjectExample | lib/index.js:266-272 | An object with one string child `foo` shows `{ foo: string }` |
| PropertyBlocks.PropertyContent | lib/index.js:210-247 | A block: the `## key` heading, the type and description bullets, the `doc.props` bullets and the extra content, trimmed; it throws when the type text does |
| PropertyBlocks.ExtraContent | lib/index.js:214-236 | The merged text (`''` when absent), preceded for an object-like node by the field sentence and the child entries |
| PropertyBlocks.PropLines | lib/index.js:219-223 | There is one `- <label of props.k>: <value>` line per `doc.props` entry, in key order |
| PropertyBlocks.ChildLines | lib/index.js:232-234 | There is one ``- `key`: <description>`` entry per child field, in order |
| PropertyBlocks.TypeLabelIsLabel | lib/index.js:241 | The type bullet's label is the label function's value for `props.type` |
| PropertyBlocks.DescriptionLabelIsLabel | lib/index.js:242 | The description bullet's label is the label function's value for `props.description` |
| PropertyBlocks.FieldsIntroIsLabel | lib/index.js:230 | The object-section sentence is the label function's value for `objectFieldsDesc` |
| PropertyBlocks.TypeLabelOf | lib/index.js:241 | The type label is the dictionary's `props.type`, or `i18n_props.type` when the dictionary or its `props` is nullish |
| PropertyBlocks.DescriptionLabelOf | lib/index.js:242 | The description label is `props.description`, or its placeholder |
| PropertyBlocks.FieldsIntroOf | lib/index.js:230 | The sentence is `objectFieldsDesc`, or its placeholder for a missing dictionary |
| PropertyBlocks.PropertyContentThrowsIffMalformed | lib/index.js:228-241 | A block throws if and only if the property's tree is malformed |
| PropertyBlocks.BlockShape | lib/index.js:238-246 | A block is the heading and type bullet followed by the end-trimmed rest, and it is already trimmed |
| PropertyBlocks.BlockStartsWithHeading | lib/index.js:238-246 | Every block starts with `## key` and an empty line, and ends with a visible character |
| PropertyBlocks.PlainBlock | lib/index.js:238-246 | A plain property without extras renders exactly as heading, type bullet and description bullet |
| PropertyBlocks.PlainBlockLines | lib/index.js:238-246 | A plain block is its heading line, an empty line, the type line and the description line |
| PropertyBlocks.PlainLinesShape | lib/index.js:241-242 | The type line and the description line start with `- `, end visibly, and are single lines when their labels and texts hold no newline |
| PropertyBlocks.ObjectSection | lib/index.js:228-236 | An object section is: newline, sentence, full-width colon, empty line, child entries, then the merged text (`''` when absent) |
| PropertyBlocks.ChildrenOnOneLine | lib/index.js:232-234 | Child entries are glued by `-`, so without newlines in keys and descriptions they share one line |
| PropertyBlocks.TwoChildren | lib/index.js:232-234 | With two children, the second entry follows the first after `-` on the same line |
| Transform.SafeTrim | lib/index.js:94-96 | A missing value gives `''`; a present one is trimmed; the result has no whitespace at either end |
| Transform.SafeTrimIdempotent | lib/index.js:94-96 | Safe-trimming twice gives the same result as once |
| Transform.DocConfig | lib/index.js:141-142 | The merged label table is always an object |
| Transform.Tasks | lib/index.js:124-126 | A non-array `src` is one task; an array is its tasks in order |
| Transform.LocaleDict | lib/index.js:144-145 | `docConfig.locales[locale]`, which throws when `locales` is nullish |
| Transform.Blocks | lib/index.js:165-172 | One block per property in key order, each given its entry of the merge map; it throws when any block does |
| Transform.Document | lib/index.js:161-174 | The template: framed front matter, `# title`, a whitespace-only line, the description, the framed heading, the blocks joined by empty lines, all trimmed |
| Transform.Transform | lib/index.js:130-174 | One task: a missing schema, nullish `locales`, absent `properties` or a throwing block throws; otherwise the document |
| Transform.Jsonschema2md | lib/index.js:119-188 | The run throws if and only if some task throws; for exactly one task (including a non-array `src`) it returns that document; otherwise it returns the list of documents in task order |
| Transform.Collect | lib/index.js:128-187 | The loop stops at the first task that throws; otherwise it collects every task's result in order and unwraps a single one |
| Transform.BlocksInOrder | lib/index.js:165-172 | The blocks are computed if and only if no property is malformed; then there is one block per property, in key order, each with its merged text |
| Transform.TransformThrowsIffFails | lib/index.js:137-172 | A task throws if and only if its schema is missing, `locales` is nullish after the merge, `properties` is absent, or a property is malformed |
| Transform.LocalesKept | lib/index.js:141-142 | A `doc` that does not mention `locales` leaves the built-in locales in place |
| Transform.LocaleChoice | lib/index.js:144-145 | Without a `locales` override the lookup never throws; no locale means `en-US`; an unknown locale makes every label its placeholder |
| Transform.TypeOverrideEntries | lib/index.js:142 | Merging `{props: {type: t}}` replaces `props.type` and keeps `props.description` and `objectFieldsDesc` |
| Transform.TypeOverride | lib/index.js:142-145 | After that merge, the type label is t and the other two labels are unchanged |
| Transform.LocaleOverride | lib/index.js:141-145 | A `doc` overriding one locale yields that locale's built-in dictionary (`undefined` if the table lacks it) merged with the override |
| Transform.OverrideWins | lib/index.js:141-145 | For a built-in locale, a `doc` overriding `props.type` changes exactly the type label |
| Transform.DocumentShape | lib/index.js:161-174 | Trimming the document removes only the front matter's frame and the trailing whitespace, leaving front matter glued to `# title` |
| Transform.DocumentIsTrimmed | lib/index.js:161-174 | The document is already trimmed |
| Transform.TransformShape | lib/index.js:151-174 | A task that does not fail and has properties yields a document: the safe-trimmed front matter, `# title`, a whitespace-only line, the description, the framed heading and the blocks joined by empty lines |
| Transform.KeyInDocument | lib/index.js:161-172 | A document whose block i starts with its heading line parses back with that key |
| Transform.DocAround | lib/index.js:161-172 | A document regrouped around block i: everything before it, the `## key` line and the empty line, then the rest of block i and what follows |
| Transform.AfterShape | lib/index.js:165-172 | What follows a block that is not the last is an empty line and then the next block |
| Transform.BlockBodyRecovered | lib/index.js:161-172 | Parsed as a merge file, a document gives block i's key every trimmed line of the block after its heading, bullets included, leading empty lines dropped and the rest joined by newlines, when no line of the block body is a heading and no other line heads that key |
| Transform.BulletBlockReadBack | lib/index.js:161-172 | A block made of its heading and two bullet lines gives its key those two lines back |
| Transform.PlainBlockReadBack | lib/index.js:161-172 | A plain property's block, with nothing merged into it, gives its key its own type and description bullets |
| Transform.KeysRecovered | lib/index.js:161-172 | A task that does not fail yields a document that, parsed as a merge file, has an entry for each property key that a `## ` line reproduces exactly |

## Left out

- Reading files (`require` of the schema, `fs.existsSync` and `fs.readFileSync` of the merge file) is a `FileSystem` parameter. Clearing the `require` cache is not modelled.
- `normalizePath` and `cwd` are not modelled; task schema paths are taken as already absolute. A task field named `abSchemaPath` would override the computed path through the object spread, and this is not modelled.
- Transform.Jsonschema2md: the model is the run with `write: false`. With the default `write = true` (lib/index.js:122), `normalizePath(cwd, task.outputPath)` (lib/index.js:178) throws for a task without `outputPath`, because `path.isAbsolute(undefined)` throws. `fs.writeFile` called without a callback (lib/index.js:180) throws on current Node versions. So the default run throws at its first task, and that is not modelled.
- The `console.log` calls are output only, and are left out. So is the `async` nature of the function.
- `src` defaults to `[]`. The model has no default; the caller passes `Many([])`, which gives the empty list.
- `JsValues.Merge` models `lodash.merge` only on `undefined`, `null`, strings and plain objects. Arrays, class instances, prototype keys and a `doc` that is not an object (treated as no override) are not modelled.
- `{ ...DEFAULT_DOC_CONFIG }` is a shallow copy, and `merge` writes into the nested `locales` object. In the source, one schema's override therefore stays in the shared table for later tasks. The model copies the table afresh for each task, so this aliasing is not captured.
- Keys that collide with `Object.prototype` members (`constructor`, `__proto__`, `toString`) are not modelled. In the source such a key finds a built-in member: in the merge map (`memo[currentKey]`, `mergedContent[key]`), in the label function (`$i18n('props.constructor')` for a `doc.props` entry named `constructor`) and in the locale lookup (a locale named `constructor`). `JsValues.Index`, `I18n.Label` and the merge map of the model see only stored entries.
- `JsValues.Index` gives `undefined` for every member of a string, so string members such as `length` and character indexing are not modelled.
- `Object.keys` puts integer-like keys first in JavaScript. The model keeps declaration order throughout and assumes property keys are distinct.
- Enum values are strings. Other enum values and their `String` conversion are not modelled.
- `resolveTypeText`'s `wrap` argument is never passed as true, so the newline-joined variant is left out.
- A `null` property node (`const { doc = {} } = property`, lib/index.js:217, and `property.type`, lib/index.js:258) throws in the source. So do a `null` child (`.description`, lib/index.js:233) and a schema module that is `null` (destructured at lib/index.js:139). A `Node` is always an object and a loaded schema always a record, so these throws cannot arise in the model.
- Transform.TransformThrowsIffFails: the equivalence covers only the shapes the datatypes express. The `null` nodes, children and schemas above also throw in the source.
- PropertyBlocks.PropertyContentThrowsIffMalformed: likewise, a `null` property or child also throws in the source.
- PropertyTypes.TypeTextThrowsIffMalformed: likewise, a `null` node or child also throws in the source.
- A `doc: null` on a property makes `const { props = {} } = doc` throw, and `props: null` makes `Object.keys(props)` throw (lib/index.js:218-219). A non-object `props` such as a string is listed by `Object.keys` as its character indices. The model takes `doc.props` as a list of entries and models none of these.
- `safeTrim` of a non-string truthy value (calling `.trim` on it throws) is not modelled. Front matter and heading are strings or absent.
- MergedMarkdown.ReplaceJsonSuffix: the model's strings are sequences of Unicode code points, where JavaScript strings are UTF-16 code units and `/.json$/` (no `u` flag) matches one code unit with `.`. An astral character (such as an emoji) right before `json` is dropped whole by the model, while the source removes only its low surrogate and keeps the high surrogate (`"a😀json"` becomes `"a\uD83D.md"`). Lone surrogates cannot be represented. `ReplaceJsonSuffixMatches`, `MergeSourcePath` and `AnyCharacterBeforeJson` inherit this difference.
- MergedMarkdown.ReplaceJsonSuffixMatches: `JsonSuffixAt` takes one code point where `/.json$/` takes one UTF-16 code unit; the two agree on paths without astral characters.
- MergedMarkdown.MergeSourcePath: the replaced suffix is the one of `ReplaceJsonSuffix`, with the same astral-character difference.
- MergedMarkdown.AnyCharacterBeforeJson: "any character" means any non-terminator code point; for an astral character the source keeps its high surrogate.
- MergedMarkdown.MergeSourceText: only the choice between the file's text and `''` is modelled. The filesystem check itself is a parameter.
- Transform.TransformShape: the document's layout is stated only for schemas with at least one property. With `properties: {}` the join is empty and the trim reaches back into the intro.
- Re-reading a generated document as its own merge file is not an identity on the merged text. `Transform.BlockBodyRecovered` gives the entry a key receives when no line of its block body is a heading and no other line heads the key: the lines of its block after the heading, bullets included, each trimmed, leading empty lines dropped, joined by newlines. `Transform.PlainBlockReadBack` shows a plain property receiving its own two bullets, which a regeneration appends again. No lemma states when merged text survives regeneration unchanged; trimming alone loses indentation.
