# lingui-multi, modelled in Dafny

lingui-multi extracts translatable messages from TypeScript sources and
compiles per-bundle message catalogs for Lingui. This project models the
logic at its core and proves properties of it:

- **Choice strings** (`dist/parser.js`). `createPluralString` checks a
  plural/select choice map and renders the ICU MessageFormat argument
  `{value, kind, label {body} …}`. `parseCallPlurals` and `parseJSXPlurals`
  build that choice map from a call such as `plural({value, one: …})` or from
  a JSX element such as `<Plural value={n} _0="none" other="…"/>`.
  `parsePluralElement` turns each choice body into text.
- **Flatteners**. `parseTextFromTemplateLiteral` turns a template literal
  into text with `{name}` and `{0}`, `{1}`, … placeholders.
  `parseTextFromJSXElement` turns a JSX subtree into text with `<i>…</i>` and
  `<i/>` element markers and `{i}` placeholders for unknown expressions.
  Both thread a mutable counter context through the recursion.
- **The tree matcher** (`dist/extract.js`). `MyVisitor` walks a parsed
  program post-order. It appends the cleaned text of every `i18n`-tagged
  template and every `<T>` element to `translatableStrings`. It uses its own
  copies of the flatteners:
  - `cleanIdentifier` prefixes `_` to names starting with `min` or `max`;
  - `cleanText` normalises whitespace;
  - there is no `Trans` exception.
- **The collector** (`dist/collect.js`). `collectFromFiles` builds a catalog
  `key -> {translation, origin}` from a tree of paths. It skips missing and
  ignored paths and every file that is not `.ts`/`.tsx`. `_mergeCatalogs`
  merges two catalogs.
- **The command-line actions** (`dist/lingui-multi.js`), lifted out of their
  file handling.
  - `extract` clears the collected translations, lays each locale's
    persisted catalog over them, and derives the minimal catalog.
  - `compile` handles every bundle, including `__replacement`. For each it:
    - composes the ignore list;
    - screens each locale's keys by their origins;
    - checks that the key counts agree across locales;
    - applies the strict-mode check for empty translations;
    - writes the screened part of the minimal catalog to the bundle's file.

Modules:
- `Wrappers`: `Option` and `Result`.
- `Text`: the JavaScript string operations used, such as `replace` with a
  string pattern, `trim`, `\s+` collapsing and decimal rendering.
- `OrderedMap`: JavaScript objects as insertion-ordered key lists.
- `Ast`: the subset of swc nodes the code inspects, each with its
  `span.start`.
- `Templates`: the template flattener, shared by both copies and
  parameterised by `cleanIdentifier`.
- `Parser`, `Extract`, `Catalogs`, `Collect`, `LinguiExtract` and
  `LinguiCompile`: the rest of the core, one module per concern.

### How the code is modelled

Code that mutates state is modelled as methods. Each method is proved equal
to a specification function of the state before the call:
- the JSX contexts are classes whose counters the recursive flattening
  methods update;
- `MyVisitor` is a class whose `translatableStrings` the visit methods
  extend;
- the collector and the actions are loops over maps.

Points of the compile action worth knowing:
- a key is screened into a bundle when **some** origin is not ignored;
- `__replacement` is screened with the global patterns like every other
  bundle;
- the strict check looks at the whole minimal catalog, screened keys or not;
- a key-count mismatch between locales aborts the run.

`parseCallPlurals` hands `{}` to `parsePluralElement` as the JSX context. A
JSX body inside a call plural therefore gets `undefined` and `NaN` element
markers. The model keeps this (`Parser.CallPluralMarkersUndefined`).

## Model

| member | source | states |
|---|---|---|
| Parser.FirstInvalidRule | dist/parser.js:67-75 | no rule is reported exactly when every label is a plural category or contains `=` followed by a digit; a reported rule is one of the labels and is invalid |
| Parser.CreatePluralString | dist/parser.js:49-82 | `ValueArgumentErrorMissing` iff `value` is missing or empty; otherwise `MissingFallbackArgument` with the "Missing <kind> choices" message iff there are no other labels, then the "fallback 'other'" message iff `other` is absent; otherwise `InvalidPluralRule` only for `plural`/`selectordinal` with an invalid label, reporting the first invalid label in insertion order; success is exactly `{value, kind, label {body} …}` over the non-`value` choices in insertion order |
| Parser.PluralStringListsOther | dist/parser.js:56-81 | a successful choice string has an `other` choice and contains `other {<its body>}` |
| Parser.ExactLabelIsRule | dist/parser.js:69 | every `=N` label passes the rule check |
| Parser.UnanchoredRuleAccepted | dist/parser.js:69 | the test is unanchored: `few=1x` passes |
| Parser.Increment | dist/parser.js:114-145 | `++` on a number adds one; on `undefined` or `NaN` it gives `NaN` |
| Parser.CleanIdentifier | dist/parser.js:187-194 | the identifier hook is the identity |
| Parser.CountersAdvance | dist/parser.js:96-152 | from numeric counters, flattening advances `elementIndex` by the number of marked elements and `unknownIndex` by the number of unknown expressions |
| Parser.CountersAdvanceChildren | dist/parser.js:118-122 | the same for a list of children threaded left to right |
| Parser.VisitedGrows | dist/parser.js:123-125 | flattening only adds to `visitedStrings` |
| Parser.VisitedGrowsChildren | dist/parser.js:118-125 | the same for a list of children |
| Parser.TransTextRecorded | dist/parser.js:105-133 | a nested `Trans` element emits no markers and takes no index; its text is its children's text and is recorded in `visitedStrings` |
| Parser.ChildrenSplit | dist/parser.js:118-122 | flattening a prefix of the children and then the rest is flattening them all |
| Parser.ChildIndex | dist/parser.js:102-122 | the element index before child `i` is the start index plus the marked elements of the earlier children |
| Parser.JsxContext.constructor | dist/parser.js:32 | a JSX context holds the given counters, Trans name and visited set |
| Parser.ParseTextFromJSXElement | dist/parser.js:96-152 | the text returned and the context afterwards are those of the flattening specification applied to the context before |
| Parser.ParseChildrenText | dist/parser.js:117-122 | the `children.forEach` loop equals the children's flattening |
| Parser.PluralElementIndex | dist/parser.js:84-94 | only an element of none of the recognised kinds takes the positional index; its body is that index's bare decimal and the index moves on by one |
| Parser.PluralContext.constructor | dist/parser.js:7 | a plural context holds the given index, Trans name and visited set |
| Parser.ParsePluralElement | dist/parser.js:84-94 | the body and both contexts afterwards are those of the element specification; the visited set of the plural context is untouched |
| Parser.ParseCallPlurals | dist/parser.js:7-27 | the result and the index afterwards are the choice string of the gathered choices (kind lower-cased) and the index after the loop |
| Parser.ParseCallChoice | dist/parser.js:12-25 | one property of the loop: its choice and the index afterwards are those of the per-property specification (a shorthand names itself, a key-value property gets its element body with an empty JSX context, anything else adds nothing); the visited set is unchanged |
| Parser.ParseJSXPlurals | dist/parser.js:29-47 | the result, index and visited set afterwards are those of the attribute loop with one JSX context counting from 0 and sharing the visited set |
| Parser.ParseJsxChoice | dist/parser.js:34-44 | one attribute of the loop: outside `id`, `className` and `render` it adds its body under the relabelled name, threading the shared JSX context and the index; a common prop changes nothing |
| Parser.CallLabels | dist/parser.js:12-25 | a label is in the call's choice map iff a shorthand or key-value property assigns it (`=N` for a numeric key) |
| Parser.JsxLabels | dist/parser.js:34-45 | a label is in the JSX choice map iff an attribute outside `id`, `className`, `render` assigns it, with its first `_` turned into `=` |
| Parser.UnderscoreAttributeIsExactLabel | dist/parser.js:43 | attribute `_N` gives label `=N`, which passes the rule check |
| Parser.CallPluralMarkersUndefined | dist/parser.js:23 | a JSX body inside a call plural is flattened with `undefined` counters: `<undefined>text</undefined>` |
| Templates.Pieces | dist/parser.js:155-157 | every expression and every quasi is taken, in order: position `i` holds the `i`-th expression and position `|expressions| + i` the `i`-th quasi |
| Templates.Insert | dist/parser.js:158-168 | one insertion step of the sort adds exactly the one piece |
| Templates.InsertSorted | dist/parser.js:158-168 | inserting into a sorted list keeps it sorted by `span.start` |
| Templates.SortByStartCorrect | dist/parser.js:155-168 | the sorted pieces are in ascending `span.start` order and are a permutation of the input |
| Templates.RenderAppend | dist/parser.js:170-182 | rendering splits over concatenation, with the positional numbering continuing |
| Templates.RenderStep | dist/parser.js:173-182 | one loop step: the piece's text, then the rest with the counter advanced for a positional piece |
| Templates.RenderPieces | dist/parser.js:170-184 | the `forEach` over the sorted pieces emits quasis raw, identifiers as `{name}` and other expressions as `{0}`, `{1}`, … from 0 |
| Templates.ParseTextFromTemplateLiteral | dist/parser.js:154-185 | the result is the rendering of the pieces sorted by `span.start` |
| Templates.FlatTextIsFixed | dist/extract.js:50-81 | a literal with one quasi and no expressions flattens to its raw text |
| Extract.CleanIdentifier | dist/extract.js:25-31 | the result never starts with `min`/`max`; it ends with the input and is at most one longer; it equals the input iff the input does not start with `min`/`max` |
| Extract.CleanIdentifierNotInjective | dist/extract.js:25-31 | `minWidth` and `_minWidth` get the same placeholder |
| Extract.CleanText | dist/extract.js:45-48 | every whitespace character left is a plain space and no two are adjacent; the text never grows |
| Extract.CleanTextKeepsText | dist/extract.js:45-48 | `cleanText` keeps every non-whitespace character, in order |
| Extract.CleanTextWithoutBreaks | dist/extract.js:46 | text without `\r` and `\n` is only collapsed: each whitespace run becomes one space |
| Extract.CleanTextDropsFirstNewline | dist/extract.js:46 | the first `\n` is deleted outright, so the text either side of it is joined before the runs are collapsed |
| Extract.CleanTextDropsFirstReturn | dist/extract.js:46 | the first `\r` is deleted outright, not turned into a space |
| Extract.CleanTextDropsCrlf | dist/extract.js:46 | a first `\r\n` line break is deleted outright, so `Hello\r\nworld` becomes `Helloworld` |
| Extract.CleanTextJoinsWords | dist/extract.js:46 | two words separated by a single `\n` are glued together (`Hello\nworld` becomes `Helloworld`) |
| Text.CollapseRun | dist/extract.js:46 | a non-empty whitespace run between two words becomes exactly one space |
| Text.CollapseAppend | dist/extract.js:46 | collapsing distributes over a split that follows a non-space character |
| Text.CollapseIsCollapsed | dist/extract.js:46 | after `replace(/\s+/g, ' ')` every whitespace character is a plain space and no two are adjacent |
| Extract.Finish | dist/extract.js:18 | the pushed string has no leading or trailing whitespace, is a contiguous piece of the text with its first double space halved, keeps every non-space character in order, and equals the text when that is already trimmed and has no double space |
| Text.NonSpacesTrim | dist/extract.js:18 | `trim` removes whitespace only |
| Text.TrimIsSlice | dist/extract.js:18 | what `trim` keeps is one contiguous piece of the string |
| Text.ReplaceSpacesKeepsText | dist/extract.js:18 | replacing the first occurrence of a whitespace pattern by whitespace keeps every non-space character |
| Extract.CountersAdvance | dist/extract.js:83-131 | flattening advances `elementIndex` by the number of non-root elements (no `Trans` exception) and `unknownIndex` by the unknown expressions |
| Extract.CountersAdvanceChildren | dist/extract.js:103-107 | the same for a list of children |
| Extract.JsxCounters.constructor | dist/extract.js:39 | fresh counters hold the given indices |
| Extract.TagTestAsWritten | dist/extract.js:13 | the test as written throws exactly when the tag is not a member expression |
| Extract.TagTestAgrees | dist/extract.js:13 | where the test as written does not throw it agrees with the corrected test, and a throwing tag is never an `i18n` tag |
| Extract.PlainTagThrows | dist/extract.js:13 | a template tagged by a plain identifier makes the test as written throw |
| Extract.WalkCount | dist/extract.js:11-43 | the walk pushes one string per matched construct, duplicates included |
| Extract.WalkCountAll | dist/extract.js:11-43 | the same for a list of nodes |
| Extract.WalkCountAttributes | dist/extract.js:33-43 | the same for JSX attributes |
| Extract.WalkCountProperties | dist/extract.js:11-43 | the same for object properties |
| Extract.WalkCountProperty | dist/extract.js:11-43 | the same for one object property |
| Extract.WalkTrimmed | dist/extract.js:11-43 | every pushed string is trimmed |
| Extract.WalkTrimmedAll | dist/extract.js:11-43 | the same for a list of nodes |
| Extract.WalkTrimmedAttributes | dist/extract.js:11-43 | the same for JSX attributes |
| Extract.WalkTrimmedProperties | dist/extract.js:11-43 | the same for object properties |
| Extract.WalkTrimmedProperty | dist/extract.js:11-43 | the same for one object property |
| Extract.WalkTrimmedTagged | dist/extract.js:11-20 | the same for a tagged template |
| Extract.WalkTrimmedElement | dist/extract.js:33-43 | the same for a JSX element |
| Extract.EnclosingComesLast | dist/extract.js:33-43 | a `<T>` element's own string comes after everything nested in it |
| Extract.MyVisitor.constructor | dist/extract.js:5-9 | a new visitor has no strings |
| Extract.MyVisitor.Visit | dist/extract.js:4-43 | visiting a node appends exactly the walk of that node |
| Extract.MyVisitor.VisitAll | dist/extract.js:4-43 | visiting nodes in order appends their walks in order |
| Extract.MyVisitor.VisitAttributes | dist/extract.js:33-43 | the same for JSX attributes |
| Extract.MyVisitor.VisitProperties | dist/extract.js:4-43 | the same for object properties |
| Extract.MyVisitor.VisitProperty | dist/extract.js:4-43 | the same for one object property |
| Extract.MyVisitor.VisitTaggedTemplateExpression | dist/extract.js:11-20 | children first, then the cleaned template text if the tag is `i18n.<member>` |
| Extract.MyVisitor.VisitJSXElement | dist/extract.js:33-43 | children first, then the cleaned flattening with fresh counters if the element is `T` |
| Extract.MyVisitor.PushElementMatch | dist/extract.js:35-40 | after the children, a `<T>` element appends its finished root text and any other element appends nothing |
| Extract.MyVisitor.RootText | dist/extract.js:39 | flattening from fresh `{elementIndex: 0, unknownIndex: 0}` counters as the root yields the specification's root text |
| Extract.MyVisitor.VisitTsType | dist/extract.js:22-23 | type nodes are not walked: nothing is appended |
| Extract.MyVisitor.ParseTextFromJSXElement | dist/extract.js:83-131 | the text and counters afterwards are those of the flattening specification |
| Extract.MyVisitor.ParseElementText | dist/extract.js:91-114 | a JSX element: the open marker (unless root), the children with the element index advanced, and the close marker, with the counters the specification leaves |
| Extract.MyVisitor.ParseContainerText | dist/extract.js:115-125 | an expression container: `{identifier}`, a string's value, a template's text, or the next `{n}` placeholder, which alone advances `unknownIndex` |
| Extract.MyVisitor.ParseChildrenText | dist/extract.js:103-107 | the children loop equals the children's flattening |
| Extract.ExtractFromProgram | dist/extract.js:150-168 | a new visitor run over a program yields exactly its walk |
| Catalogs.IgnoredMonotone | dist/collect.js:25 | a path matches an alternation of two pattern lists iff it matches one of the lists |
| Collect.Merged | dist/collect.js:5-22 | the merged keys are the union of the two key sets |
| Collect.MergedOrigins | dist/collect.js:10-16 | a merged key lists the first catalog's origins, then the second's; its translation is `''` |
| Collect.MergedAssociative | dist/collect.js:5-22 | merging is associative |
| Collect.MergedEmpty | dist/collect.js:13-16 | merging with an empty catalog, on either side, keeps each key's origins and clears its translation |
| Collect.AddEntries | dist/collect.js:9-18 | the inner loop adds each entry of a catalog: a copy for a new key, appended origins for a present one |
| Collect.MergeCatalogs | dist/collect.js:5-22 | the method computes the merge |
| Collect.Tagged | dist/collect.js:48-59 | each string of a file is paired with the file's path |
| Collect.OriginsOfAppend | dist/collect.js:48-59 | the origins of a string in two runs of occurrences are those of the first run, then the second |
| Collect.OriginsOfEmpty | dist/collect.js:49-58 | a string has an origin iff it occurs |
| Collect.StringsOfAppend | dist/collect.js:48-59 | the strings of two runs of occurrences are the union of each run's |
| Collect.CatalogOfAppend | dist/collect.js:40 | collecting two runs of occurrences and merging is collecting their concatenation |
| Collect.CatalogOfSnoc | dist/collect.js:48-59 | one more occurrence creates `{translation: '', origin: [[file, 0]]}` or appends `[file, 0]` |
| Collect.AddOccurrences | dist/collect.js:48-59 | the `forEach` over one file's strings turns the catalog of the earlier occurrences into the catalog with this file's occurrences appended |
| Collect.OccurrencesAppend | dist/collect.js:28 | the occurrences of two path lists are those of the first, then the second |
| Collect.OccurrencesSnoc | dist/collect.js:28 | the same for one more path |
| Collect.CollectFromFiles | dist/collect.js:24-63 | the catalog built is the catalog of every occurrence under the paths, in walk order |
| Collect.OccurrencesAdmissible | dist/collect.js:29-46 | every occurrence under a path comes from a `.ts`/`.tsx` file that no pattern matches |
| Collect.OccurrencesAllAdmissible | dist/collect.js:28-46 | the same for a list of paths |
| Collect.OriginsFromOccurrences | dist/collect.js:48-59 | every origin is at line 0 and records an occurrence of its key in that file |
| Collect.CollectedOriginsAdmissible | dist/collect.js:24-63 | every origin of a collected catalog names a non-ignored `.ts`/`.tsx` file, at line 0 |
| Collect.SkippedPathsContributeNothing | dist/collect.js:29-46 | a missing or ignored path, an ignored directory included, and a file that is not `.ts`/`.tsx` contribute nothing |
| LinguiExtract.Prefilled | dist/lingui-multi.js:113-118 | the same keys and origins, every translation `''` |
| LinguiExtract.Prefill | dist/lingui-multi.js:113-118 | the loop clears every translation |
| LinguiExtract.PrefilledMinimalIsEmpty | dist/lingui-multi.js:113-146 | the minimal catalog of a cleared catalog has only empty values |
| LinguiExtract.Overlay | dist/lingui-multi.js:140 | `Object.assign` yields the union of the keys |
| LinguiExtract.OverlayIdempotent | dist/lingui-multi.js:140 | laying the same catalog over twice changes nothing more |
| LinguiExtract.OverlayAssociative | dist/lingui-multi.js:140 | successive overlays compose |
| LinguiExtract.Assign | dist/lingui-multi.js:140 | the key-by-key copy computes the overlay |
| LinguiExtract.MinimalOf | dist/lingui-multi.js:142-146 | the minimal catalog has exactly the complex catalog's keys |
| LinguiExtract.DeriveMinimal | dist/lingui-multi.js:142-146 | the loop maps each key to its entry's translation |
| LinguiExtract.ExtractedMinimal | dist/lingui-multi.js:114-146 | a locale's new minimal catalog has the collected and the persisted keys; persisted translations are kept and new keys get `''` |
| LinguiExtract.PersistedKeysKept | dist/lingui-multi.js:140 | a persisted key keeps its whole persisted entry |
| LinguiExtract.AsWrittenAgreesOnOneLocale | dist/lingui-multi.js:120-155 | with one locale the code as written and the intended reading agree |
| LinguiExtract.AsWrittenLeaksBetweenLocales | dist/lingui-multi.js:139-140 | as written, a translation persisted for `fr` lands in `ro`'s catalog |
| LinguiExtract.ExtractLocales | dist/lingui-multi.js:113-155 | the corrected action: one output per participating locale, in order, each from the cleared collection and that locale's own catalog |
| LinguiExtract.ExtractLocalesAsWritten | dist/lingui-multi.js:113-155 | the action as written: one output per participating locale, in order, each `Object.assign` laying the locale's catalog over the catalog the previous locales left |
| LinguiExtract.ExtractedShape | dist/lingui-multi.js:121-146 | no more outputs than locale entries, each naming a participating locale, and every minimal catalog mirrors its complex one |
| LinguiExtract.ExtractedNames | dist/lingui-multi.js:121-146 | the outputs name exactly the participating locales, one each, in directory order |
| LinguiCompile.ReplacementAlwaysCompiled | dist/lingui-multi.js:202 | the bundle set always holds `__replacement` with no patterns of its own, besides every configured bundle |
| LinguiCompile.IgnoreListComposes | dist/lingui-multi.js:213-229 | a path is ignored for a bundle iff a global pattern or one of the bundle's matches it |
| LinguiCompile.ScreenedWithoutPatterns | dist/lingui-multi.js:257-275 | with no patterns a key is kept iff it has an origin |
| LinguiCompile.IsRequired | dist/lingui-multi.js:259-269 | `required` is set iff some origin's path is not ignored |
| LinguiCompile.ScreenKeys | dist/lingui-multi.js:255-277 | the screened keys are exactly the keys with a non-ignored origin, each once, so their count is that set's size |
| LinguiCompile.GatherMissing | dist/lingui-multi.js:304-311 | the missing keys are exactly those with an empty translation, each once |
| LinguiCompile.Pick | dist/lingui-multi.js:326 | `_.pick` keeps the listed keys the catalog has, with their values |
| LinguiCompile.PickIdempotent | dist/lingui-multi.js:326 | picking again with the same keys changes nothing; picking twice picks the intersection |
| LinguiCompile.PickKeys | dist/lingui-multi.js:326 | the loop over the screened keys computes the pick |
| LinguiCompile.TargetFileDistinct | dist/lingui-multi.js:331-338 | two bundles never write the same file for one locale |
| LinguiCompile.CompileBundle | dist/lingui-multi.js:231-343 | the locale loop of a bundle, with `keyCount` carried, writes and aborts as the bundle specification says |
| LinguiCompile.CountsAgree | dist/lingui-multi.js:281-290 | if a bundle runs through from count `n`, every participating locale has `n` screened keys |
| LinguiCompile.CompletedBundleCountsEqual | dist/lingui-multi.js:281-290 | in a bundle that completes, all participating locales have the same number of screened keys |
| LinguiCompile.StrictAbortOnlyForOtherLocales | dist/lingui-multi.js:302-322 | a missing-translation abort needs strict mode and a configured source locale; it names another locale and a positive count |
| LinguiCompile.StrictSeesUnscreenedKeys | dist/lingui-multi.js:302-322 | in strict mode any empty translation in the minimal catalog aborts, screened or not |
| LinguiCompile.WrittenArePicks | dist/lingui-multi.js:325-341 | each file written is the bundle's file for a participating locale and holds its minimal catalog picked by its screened keys |
| LinguiCompile.Compile | dist/lingui-multi.js:202-345 | the bundle loop runs the bundles in order, stops at the first abort and keeps the files written before it |
| LinguiCompile.CompiledFilesArePicks | dist/lingui-multi.js:208-343 | every file of a whole run is the target of some bundle and some participating locale |

## Left out

- Parsing TypeScript (swc) and the `Visitor` base class are foreign code. `Ast` stands in for the parsed program, and the walk visits the children that the base class would visit.
- File-system, process and command-line plumbing is not modelled. This covers `fs`, `tmp`, `rimraf`, `commander`, `path`, JSON reading and writing and `console` output. Directory trees are the `Collect.FsNode` datatype, locale directories are `Catalogs.LocaleDir`, and `process.exit(1)` and uncaught exceptions are the abort of a run.
- The `@lingui/cli` functions `extract.extract`, `extract.collect` and `compile.createCompiledCatalog` are not part of this model. The collected catalog is an input of the extract action, and a compiled file is recorded as the locale and catalog it is compiled from.
- Regular-expression matching of ignore patterns is the parameter `matches`. The case-insensitive alternation is "some pattern matches".
- JavaScript lists integer-like object keys first. Choice maps keep plain insertion order, and catalogs are unordered maps.
- Keys named after `Object.prototype` members such as `constructor` are not modelled. The source's `c[str]` and `translatableStrings[str]` tests find the inherited member for these keys.
- Entry fields other than `translation` and `origin` are not modelled.
- The `<rootDir>` substitution and the source path list handed to `extract.extract` are not modelled.
- Logging is not modelled, including the `console.log` fallback for unknown node kinds, which contributes `""`.
- The branch that increments `elementIndex` when an element has a closing tag but no opening is not modelled. Every parsed JSX element has an opening, so the branch is unreachable.
- A plural context with a `Trans` name but no `visitedStrings` object throws when it records. The model always has a set.
- Parser.ParseCallPlurals: requires a member-expression callee and at least one argument. The source dereferences both and throws a TypeError without them.
- Parser.ParseJSXPlurals: requires a JSX element, which is how the source calls it.
- Extract.MyVisitor.VisitTaggedTemplateExpression: uses the corrected tag test (see Findings). The model does not abort the walk where the code as written throws.
- LinguiExtract.ExtractLocales: gives each locale its own copy of the cleared catalog, the corrected reading of `dist/lingui-multi.js:140` (see Findings). The code as written, where every `Object.assign` updates the one shared catalog, is `LinguiExtract.ExtractLocalesAsWritten`.
- Spread attributes such as `{...p}` on a plural element are not in `Ast`. The destructuring at `dist/parser.js:35-37` throws a TypeError for them.
- An attribute without a value is not in `Ast`. `attr.value.type` at `dist/parser.js:40` throws a TypeError for it.
- JSX element names are plain strings in `Ast`. A member name such as `<A.B>` has `name.value` undefined. Inside a plural body of a call, or of a context with no `Trans` name, that equals the undefined `localTransComponentName`, so `dist/parser.js:106` takes the element for a `Trans` and line 124 throws on the undefined `visitedStrings`.
- Numeric literals are natural numbers in `Ast` (`NumericLiteral`, `NumKey`). Fractional and other JavaScript numbers are not modelled, nor their `toString` text: a body `1.5` gives `"1.5"` and a key `1.5` gives `"=1.5"` (`dist/parser.js:17`, `:86`).
- Text.ToLowerAscii: lower-cases ASCII letters only, where JavaScript's `toLowerCase` (used for the choice kind at `dist/parser.js:8` and `:30`) lower-cases all of Unicode.
- Templates.SortByStartCorrect: proves the result sorted and a permutation, not that the sort is stable (pieces with equal `span.start` keep their order). The insertion in `Templates.Insert` places a piece after every piece with an equal start, as the stable `Array.prototype.sort` does.
- LinguiCompile.CompileBundle: a minimal catalog that is absent aborts with `MinimalCatalogMissing`. The guard before the read re-tests `messages.json`, which exists at that point, so the read of the missing file throws.

## Findings

| source | as written | input that shows it | evidently intended | confidence | as-written member | corrected member |
|---|---|---|---|---|---|---|
| dist/extract.js:13 | reads `expr.tag.object.type`, which throws for a tag that is not a member expression | a template tagged by a plain identifier, e.g. `` gql`query` `` | such a template is not an `i18n` template and is skipped | not executed; high | Extract.PlainTagThrows | Extract.TagTestAgrees |
| dist/lingui-multi.js:140 | `Object.assign(linguiCatalog, …)` updates the one collected catalog shared by all locales | locale `fr` persisting `{"Hello": "Bonjour"}`, then locale `ro` persisting `{}`: `ro` gets `"Hello": "Bonjour"` | each locale's catalog is the cleared collection overlaid with that locale's own catalog | not executed; high | LinguiExtract.AsWrittenLeaksBetweenLocales | LinguiExtract.ExtractedMinimal |
