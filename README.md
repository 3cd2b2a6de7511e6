# rhai-autodocs: the doc-comment pipeline, in Dafny

rhai-autodocs turns the metadata a Rhai engine exports into documentation. Each
function and custom type carries its doc comments, and modules nest. This
project models the part between the decoded metadata and the template
renderers:

- **Comment cleaning.** Lines carrying the ordering directive
  `# rhai-autodocs:index:<n>` are dropped. The comment markers `///`, `/**` and
  `**/` are removed. Hidden test lines (`# ` lines inside a code fence) are
  removed.
- **Sections.** A comment is split into named sections at its `# ` headings.
- **Items.** Documentation items are built from function groups and custom
  types, with the directive index used by the by-index ordering.
- **Ordering.** Items are ordered stably by name or index. The older snapshots
  order function groups by placing each one at the slot its directive names.
- **Signatures.** Pseudo-Rust signatures such as `fn add(a: int, b: int) -> int`
  are rendered, with engine type names made readable.
- **Module tree.** Overloads are grouped by name, and modules are documented
  recursively under `parent/child` namespaces.
- **Section formats.** The Rust `<details>` block, and the mdBook and Docusaurus
  tab markups.
- **Renumbering scripts.** Two Python scripts renumber the directives of a
  source file.

The repository holds several historical snapshots of the same logic. Each is
modelled as written, in its own module:

- `src/item.rs` is the newest item snapshot. Its module is `Items`.
- `src/doc_item.rs` is the snapshot that `src/module.rs` and `src/export.rs`
  use. Its module is `DocItems`.
- `src/module/options.rs` is modelled in `ModuleOptions` and `ModuleSections`.
- `src/options.rs` is the crate-root snapshot. Its module is `LegacyOptions`.

Some code is shared, and is modelled once:

- The comment helpers of `src/item.rs`, `src/doc_item.rs` and
  `src/function.rs:25-34` take the same steps. Only their signatures and
  constant names differ: `fmt_doc_comments` takes `&str` in `src/item.rs`
  and `String` in `src/doc_item.rs`. `src/function.rs` uses
  `RHAI_FUNCTION_INDEX_PATTERN` where the others use
  `RHAI_ITEM_INDEX_PATTERN`, and both are `"# rhai-autodocs:index:"`
  (`src/export.rs:7`, `src/module/options.rs:6`). The helpers live in
  `DocComments`.
- The directive lookup of both `order_function_groups` snapshots lives in
  `Groups`.

Where the source loops or updates state, the model is a method with loop
invariants. Each such method is proved equal to a specification function, and
the properties are proved as lemmas about that function:

- `find_index`, `remove_test_code` and `extract_sections`;
- the slot-placement loop;
- the in-place insertion sort that stands for `sort_by`;
- the tab folds;
- the parameter loop of `generate_function_definition`;
- the grouping and module-building loops;
- the scripts' counter loop.

Rust library behaviour the code relies on is modelled in `Text`:

- `split_once`, `rsplit_once`, `strip_prefix` and `strip_suffix`;
- `lines` (a trailing line feed gives no empty line; a `\r` before a line feed
  is dropped);
- `trim` (Unicode white space);
- `replace`;
- `parse::<usize>` (an optional `+`, decimal digits, 64-bit overflow);
- the lexicographic `Ord` on `str`.

Rust's stable `sort_by` is modelled in `Sorting`.

Some things the model takes as parameters rather than computing:

- `nameOf`: the overload name that `generate_function_definition().name()`
  gives, from a newer API that is not part of this model.
- `typeToStr`: the kind prefix from the same API.
- `enumerate`: the order in which a `HashMap` of groups hands out its keys.
- `EngineTypeNames`: the `std::any::type_name` strings of the engine's types.

## Model

| member | source | states |
|---|---|---|
| Export.DefaultOptions | src/export.rs:158-160 | `options()` is alphabetical order, Rust sections, standard packages excluded |
| Export.IncludeStandardPackages | src/export.rs:30-34 | sets only the standard-package switch |
| Export.OrderItemsWith | src/export.rs:38-42 | sets only the item order |
| Export.FormatSectionsWith | src/export.rs:47-51 | sets only the section format |
| Export.SettersCommute | src/export.rs:30-51 | the setters touch disjoint fields, so any two of them commute |
| ItemOrdering.OrderedItems | src/export.rs:124-135 | ordering keeps the number of items |
| ItemOrdering.OrderItems | src/export.rs:124-135 | the in-place sort of `order_items` returns exactly the specified order |
| ItemOrdering.OrderedItemsSpec | src/export.rs:124-135 | the result is a permutation of the items. It is sorted ascending by `name()` (alphabetical) or `index()` (by index). Items with equal keys keep their input order |
| Sorting.SortInPlace | src/module/options.rs:138 | insertion sort on the array leaves it equal to the stable sort of its old contents |
| Sorting.SortBySorted | src/export.rs:126-133 | the stable sort is ordered by the key for any total preorder |
| Sorting.SortByPermutation | src/export.rs:126-133 | the stable sort is a permutation of its input |
| Sorting.SortByStable | src/export.rs:126-133 | elements with equal keys keep their relative order |
| Sorting.LexLeTotalPreorder | src/module/options.rs:138 | `str`'s lexicographic `Ord` is a total preorder |
| Sorting.NatLeTotalPreorder | src/export.rs:130-133 | `usize` order is a total preorder |
| Text.SplitOnce | src/item.rs:247 | `split_once` succeeds iff the pattern occurs, splits around it, and the part before holds no other occurrence |
| Text.RSplitOnce | src/item.rs:163 | `rsplit_once` succeeds iff the pattern occurs, splits around it, and the part after holds no other occurrence |
| Text.RSplitOnceBeforeTail | src/item.rs:163 | with a tail free of the pattern's first character, the split is right before the tail |
| Text.StripPrefix | src/function.rs:155 | succeeds iff the text starts with the prefix, giving the rest |
| Text.StripSuffix | src/function.rs:156 | succeeds iff the text ends with the suffix, giving the rest |
| Text.Lines | src/item.rs:212 | `lines()` is empty exactly for the empty text, and no line holds a line feed |
| Text.JoinOfLines | src/item.rs:212 | for text without `\r\n` pairs, the lines joined by line feeds give back the text less one final line feed, so `lines()` loses nothing else |
| Text.LinesOfJoin | src/item.rs:178 | splitting plain lines joined by line feeds gives the lines back |
| Text.Trim | src/function.rs:171 | the text is white space, then the result, then white space, and the result neither starts nor ends with white space |
| Text.LastSegment | src/function.rs:131 | the last `::` segment holds no separator and ends the text |
| Text.RemoveChars | src/module/options.rs:286 | every removed character is gone, every other character stays, and the text never grows. A one-character text is emptied iff its character is removed |
| Text.RemoveCharsConcat | src/module/options.rs:286 | removal distributes over concatenation; with the one-character case this fixes the result as the kept characters in order |
| Text.ParseUsize | src/item.rs:165 | a parsed `usize` fits 64 bits, and the empty text is the `Empty` error |
| Text.ParseUsizeDigits | src/item.rs:165 | a run of digits parses to its decimal value, or is `PosOverflow` past `usize::MAX`; a leading `+` changes nothing |
| Text.ParseUsizeInvalid | src/item.rs:165 | a non-digit met before any overflow is `InvalidDigit`, with or without a leading `+`; so is a lone sign |
| Text.ParseNatToString | src/item.rs:165 | parsing a rendered index gives the index back |
| Text.NatToString | scripts/rhai-autodocs-indexer.py:24 | a rendered counter is a non-empty run of digits |
| DocComments.PatternIsOneLine | src/export.rs:7 | the directive pattern is non-empty and holds no line feed |
| DocComments.WithoutDirective | src/item.rs:189 | the kept lines carry no directive and are no more than the input; one line is dropped iff it carries the directive |
| DocComments.WithoutDirectiveConcat | src/item.rs:189 | the filter distributes over concatenation, so exactly the directive lines are dropped |
| DocComments.WithoutDirectiveSubsequence | src/item.rs:189 | the kept lines are the input lines with some deleted, never altered or reordered |
| DocComments.FirstDirectiveLine | src/item.rs:162-163 | the first line carrying the directive; no earlier line carries it |
| DocComments.DirectiveTextAfter | src/item.rs:163 | the directive text of `a` + pattern + `d` is `d` |
| DocComments.DropDirectiveLines | src/item.rs:187-191 | an entry keeps no directive line; a one-line entry is emptied iff it carries the directive |
| DocComments.RemoveExtraTokens | src/item.rs:185-194 | `remove_extra_tokens` keeps one entry per input entry, none mentioning the directive; a one-line entry is kept as it is unless it carries the directive |
| DocComments.DropDirectiveLinesKeepsOthers | src/item.rs:187-191 | for an entry without carriage returns whose last kept line is not empty, the lines of the cleaned entry are its lines without the directive lines, in order |
| DocComments.RemoveExtraTokensKeepsOthers | src/item.rs:185-194 | for an entry without carriage returns whose last kept line is not empty, that entry of the result is its own lines without the directive lines, in order |
| DocComments.FmtDocCommentsKeepsPlainText | src/item.rs:197-203 | text without `///`, `/**` and `**/` is unchanged by `fmt_doc_comments` |
| DocComments.RemoveTestCode | src/item.rs:209-225 | the flag-driven loop returns the kept lines joined by line feeds |
| DocComments.VisibleLinesSubsequence | src/item.rs:209-225 | the kept lines are the input lines with some deleted, never altered or reordered |
| DocComments.VisibleLinesKeepUnhashed | src/item.rs:219-221 | every line not starting with `# ` survives, such as a `#{` map literal |
| DocComments.VisibleLinesKeepFences | src/item.rs:213-216 | dropping hidden lines keeps every fence line and the fence state |
| DocComments.HashLineIsNoFence | src/item.rs:213-219 | a `# ` line is never a fence line |
| DocComments.VisibleLinesIdempotent | src/item.rs:209-225 | removing test code twice removes nothing more |
| DocComments.VisibleLinesWithoutHashLines | src/item.rs:219 | without `# ` lines nothing is removed |
| DocComments.VisibleLinesWithoutFences | src/item.rs:213-221 | without fence lines nothing is removed and no fence is open at the end |
| DocComments.JoinAvoidsMarkers | src/item.rs:178-179 | lines free of the markers stay free of them once joined |
| DocComments.NoHashNoDirective | src/item.rs:247-249 | a line without `# ` carries no directive and is no hidden line |
| DocComments.DropDirectiveOfBodyLine | src/item.rs:187-191 | a collected body line loses only its closing line feed |
| DocComments.RemoveExtraTokensOfBody | src/item.rs:185-194 | collected plain body lines come back as the lines themselves |
| DocComments.FormatCommentsOfPlainBody | src/item.rs:176-182 | `format_comments` of plain body lines is those lines joined by line feeds |
| DocComments.FoldConcatWithNewlines | src/module/options.rs:235-236 | a fold pushing each line with a line feed yields the lines with line feeds, in order |
| Items.DirectiveIndex | src/item.rs:161-172 | none iff no line carries the directive; a found index fits `usize` |
| Items.FindIndex | src/item.rs:161-172 | the early-return loop gives exactly the index the first directive line declares |
| Items.DirectiveIndexOfNumber | src/item.rs:163-167 | a first directive line ending in `n` declares `n` |
| Items.DirectiveIndexOfNothing | src/item.rs:163-166 | a directive with no text after it is the `ParseOrderMetadata` empty-string error |
| Items.FirstDocumented | src/item.rs:86-88 | the first overload with doc comments; no earlier one has any |
| Items.NewFunction | src/item.rs:80-112 | no item for an undocumented or `anon$` group. Otherwise the root is the first commented overload and every overload is kept. The index is 0 in alphabetical mode. In by-index mode there is no item iff the root's comments lack the directive, an error iff its text does not parse, and otherwise the index it declares |
| Items.NewCustomType | src/item.rs:114-127 | alphabetical mode gives the type with index 0. By-index mode gives no item iff the comments lack the directive, an error iff its text does not parse, and otherwise the type with the declared index |
| Items.Index | src/item.rs:131-135 | the index the item was built with |
| Items.Name | src/item.rs:139-144 | the display name of a custom type, the group name of a function |
| Items.HeadingId | src/item.rs:148-158 | `<prefix>-<name>`: `type-<name>` for a custom type; for a function the kind text with its slashes and spaces removed, every other character kept |
| Items.ExtractSections | src/item.rs:235-275 | the line loop returns exactly the specified sections |
| Items.Segments | src/item.rs:247-263 | one body segment per heading, plus the one before any heading |
| Items.SectionNames | src/item.rs:237-256 | one name per segment |
| Items.ScanMatchesSegments | src/item.rs:242-265 | after any lines, the scanner has emitted one section per heading and holds the last segment |
| Items.SectionsOfShape | src/item.rs:235-275 | section `i` is named `Description` or heading `i` and holds its formatted segment. The last section is left out exactly when its segment is empty |
| Items.FinishShape | src/item.rs:267-274 | the final flush adds the last section iff its body is not empty |
| Items.FinishAgrees | src/item.rs:267-272 | an agreeing scanner state finishes into the named, formatted segments |
| Items.FirstSectionIsDescription | src/item.rs:237-252 | the first emitted section is `Description` |
| Items.EmptyDocsHaveNoSections | src/item.rs:267 | an empty comment has no sections |
| Items.SegmentsWithoutHeadings | src/item.rs:247-263 | without `# ` lines there is no heading and one segment holding every line |
| Items.NoHeadingsOneSection | src/item.rs:263-272 | a non-empty comment without `# ` lines is one `Description` section |
| DocItems.DirectiveIndex | src/doc_item.rs:188-203 | as in the newer snapshot, but a parse failure is a `PreProcessing` error |
| DocItems.FindIndex | src/doc_item.rs:188-203 | the early-return loop gives exactly the declared index or error |
| DocItems.DirectiveIndexOfNumber | src/doc_item.rs:190-198 | a first directive line ending in `n` declares `n` |
| DocItems.DirectiveIndexOfNothing | src/doc_item.rs:190-196 | a directive with nothing after it reports the empty-string parse error |
| DocItems.FirstDocumented | src/doc_item.rs:129-131 | the first overload with doc comments |
| DocItems.NewFunction | src/doc_item.rs:123-155 | same cases as the newer `new_function`, with the crate's error type |
| DocItems.NewCustomType | src/doc_item.rs:157-170 | same cases as the newer `new_custom_type` |
| DocItems.Index | src/doc_item.rs:173-177 | the stored index |
| DocItems.Name | src/doc_item.rs:180-185 | display name or group name |
| DocItems.ExtractSections | src/doc_item.rs:84-119 | the fold over the `first` flag returns exactly the specified sections |
| DocItems.Segments | src/doc_item.rs:96-112 | one body segment per heading plus the leading one |
| DocItems.BodySegments | src/doc_item.rs:96-112 | one body per section name, at least one |
| DocItems.ScanMatchesSegments | src/doc_item.rs:91-116 | after any non-empty lines, every named section but the last has been emitted, and the scanner holds the last |
| DocItems.SectionsOfShape | src/doc_item.rs:84-119 | every named section except the last is emitted, each with its formatted body |
| DocItems.NoHeadingsNoSections | src/doc_item.rs:91-118 | a comment without `# ` lines gives no section at all |
| DocItems.NoHeadings | src/doc_item.rs:96 | without `# ` lines there are no headings |
| DocItems.FirstLineHeadingRenames | src/doc_item.rs:97-106 | a heading on the first line names the first section instead of emitting `Description` |
| DocItems.DirectiveLineStartsSection | src/doc_item.rs:96-97 | a directive line outside a fence is taken for a heading |
| DocItems.SectionsWithFinalShape | src/doc_item.rs:91-118 | once the open section is flushed, every named section is emitted, when the last section's body is not empty |
| DocItems.OneLineDescriptionDropped | src/doc_item.rs:91-118 | a one-line description gives no section as written, and itself once flushed |
| DocItems.SingleLineBody | src/doc_item.rs:112 | a plain first line is collected into the `Description` body |
| DocItems.AddsTwoNumbersDropped | src/doc_item.rs:91-118 | `Adds two numbers.` is lost as written and kept once flushed |
| Groups.FirstWithDirective | src/module/options.rs:146-153 | the first overload with a directive line; no earlier one has any |
| Groups.GroupDirective | src/module/options.rs:145-153 | none iff no overload has a directive line. Otherwise it is the text after the last pattern occurrence on the first directive line of the first such overload |
| Groups.FindGroupDirective | src/module/options.rs:146-153 | the nested search returns exactly that text |
| Groups.GroupDirectiveOfLine | src/module/options.rs:150-153 | an overload whose comment is `a` + pattern + `d` gives `d` |
| ModuleOptions.DefaultOptions | src/module/options.rs:28-30 | alphabetical, Rust sections, no standard packages, Docusaurus |
| ModuleOptions.IncludeStandardPackages | src/module/options.rs:35-39 | sets only the standard-package switch |
| ModuleOptions.OrderFunctionsWith | src/module/options.rs:43-47 | sets only the function order |
| ModuleOptions.FormatSectionsWith | src/module/options.rs:52-56 | sets only the section format |
| ModuleOptions.ForMarkdownProcessor | src/module/options.rs:60-64 | sets only the markdown processor |
| ModuleOptions.ToFault | src/module/options.rs:154-172 | only index 0 panics; the other failures are `PreProcessing` errors |
| ModuleOptions.SlotOf | src/module/options.rs:154-164 | a slot is always within the group count |
| ModuleOptions.SlotOfCases | src/module/options.rs:154-164 | no directive, or a text that does not parse, gives its own error. For a parsed `n`: `n = 0` underflows, `n > len` is out of bounds at `n - 1`, and `1 <= n <= len` gives slot `n - 1` |
| ModuleOptions.SlotsOf | src/module/options.rs:145-164 | one slot result per group, all within range |
| ModuleOptions.PlaceGroups | src/module/options.rs:143-175 | a successful placement has the input's length |
| ModuleOptions.PlaceGroupsStops | src/module/options.rs:161-166 | after the first failure, later groups do not matter |
| ModuleOptions.SlotOfGroup | src/module/options.rs:145-164 | the nested directive search and index check give the group's slot |
| ModuleOptions.PlaceByIndex | src/module/options.rs:142-176 | the loop over a clone gives exactly the specified placement |
| ModuleOptions.OrderFunctionGroups | src/module/options.rs:131-178 | the method returns exactly the specified ordering or fault |
| ModuleOptions.PlaceGroupsSucceeds | src/module/options.rs:145-175 | placement succeeds iff every group names a slot |
| ModuleOptions.PlaceGroupsFailure | src/module/options.rs:160-172 | a failure reports the first group that names no slot, with its reason |
| ModuleOptions.UnnamedSlotKept | src/module/options.rs:143-159 | a slot no group names keeps the clone's group |
| ModuleOptions.LastNamingGroupWins | src/module/options.rs:158-159 | a slot holds the last group that names it |
| ModuleOptions.ByIndexFault | src/module/options.rs:142-176 | by-index mode fails iff some group names no slot, and reports the first such group's fault |
| ModuleOptions.AlphabeticalGroups | src/module/options.rs:137-140 | alphabetical mode is a permutation, sorted by name, with equal names in input order |
| ModuleSections.RustDetails | src/module/options.rs:206-214 | the docs verbatim between the fixed `<details>` opening and closing |
| ModuleSections.PlainTabLine | src/module/options.rs:283-288 | a plain Docusaurus line is the line with its angle brackets removed, then a line feed: no bracket remains and every other character is kept |
| ModuleSections.HeadingOf | src/module/options.rs:279 | a line names at most one tab |
| ModuleSections.TabHeadings | src/module/options.rs:226-227 | at most one section name per line |
| ModuleSections.FoldTabs | src/module/options.rs:278-290 | the push loop yields the start plus every line's piece, in order |
| ModuleSections.FoldTabsCollecting | src/module/options.rs:219-241 | the fold collects exactly the heading names, and the content is the start plus every piece |
| ModuleSections.FoldNames | src/module/options.rs:245-270 | the button fold yields the start plus one button per name |
| ModuleSections.HeadingLineSwitches | src/module/options.rs:279-281 | a heading line anywhere switches to a tab named after its first `# ` |
| ModuleSections.PlainLinesOnly | src/module/options.rs:282-289 | without headings every line goes through the plain-line path |
| ModuleSections.NoTabHeadings | src/module/options.rs:226 | without `# ` lines there are no section names |
| ModuleSections.TabHeadingsAppend | src/module/options.rs:226-227 | names of concatenated lines are the concatenated names |
| ModuleSections.HeadingLineNamed | src/module/options.rs:226-227 | a heading line contributes exactly its own name, in place |
| ModuleSections.FmtDocusaurus | src/module/options.rs:275-294 | the loop gives exactly the specified Docusaurus markup |
| ModuleSections.DocusaurusFrame | src/module/options.rs:276-292 | the output starts with the `<Tabs>` and `Description` opening and ends with the closing |
| ModuleSections.TabItemsWithoutBrackets | src/module/options.rs:283-288 | without headings the tab items carry no `<` or `>` |
| ModuleSections.TabItemsOfPlainLines | src/module/options.rs:282-289 | plain bracket-free lines appear unchanged, each followed by a line feed |
| ModuleSections.KeepLine | src/module/options.rs:235-236 | an mdBook line is kept with a line feed |
| ModuleSections.FmtMdBook | src/module/options.rs:217-273 | the two folds give exactly the specified mdBook markup |
| ModuleSections.TabContentOfPlainLines | src/module/options.rs:234-237 | lines without headings stay in the description tab, each with its line feed, with no extra button |
| ModuleSections.FmtSections | src/module/options.rs:199-298 | the dispatch returns the specified format for each format and processor |
| LegacyOptions.DefaultOptions | src/options.rs:17-19 | alphabetical, Rust sections, no standard packages |
| LegacyOptions.IncludeStandardPackages | src/options.rs:24-28 | sets only the standard-package switch |
| LegacyOptions.OrderFunctionsWith | src/options.rs:32-36 | sets only the function order |
| LegacyOptions.FormatSectionsWith | src/options.rs:41-45 | sets only the section format |
| LegacyOptions.LegacyFault | src/options.rs:111-122 | index 0 and an index past the end panic. An unparsable text is the bare parse message |
| LegacyOptions.LegacyOrderFunctionGroups | src/options.rs:89-128 | the method returns exactly the specified ordering or fault |
| LegacyOptions.SnapshotsAgreeOnOrder | src/options.rs:93-127 | both snapshots succeed on the same groups with the same order, and fail on the same first group |
| LegacyOptions.Verbatim | src/options.rs:172 | a plain line is pushed as it is |
| LegacyOptions.LegacyFmtTabs | src/options.rs:160-195 | the folds give exactly the specified older tabs markup |
| LegacyOptions.LegacyFmtSections | src/options.rs:149-197 | the dispatch returns the specified format |
| LegacyOptions.PlainLinesGlued | src/options.rs:171-173 | lines without headings are concatenated with nothing between them |
| LegacyOptions.TwoLinesRunTogether | src/options.rs:162-179 | `a` line feed `b` renders as `ab` in the tab content |
| FunctionDef.FunctionDocs | src/function.rs:39-51 | none exactly when there are no doc comments |
| FunctionDef.FunctionDocsRust | src/function.rs:44-49 | the Rust format wraps the cleaned comments in `<details>`, whatever the processor |
| FunctionDef.FunctionDocsOfPlainBody | src/function.rs:44-49 | plain comment lines reach the `<details>` block as written |
| FunctionDef.AnyIs | src/function.rs:109-111 | `any(op == name)` is membership |
| FunctionDef.IsOperator | src/function.rs:108-112 | true exactly for `==`, `!=`, `>`, `>=`, `<`, `<=`, `in` |
| FunctionDef.KindPrefix | src/function.rs:57-61 | `op ` iff an operator, `fn ` otherwise |
| FunctionDef.CallPrefix | src/function.rs:64-70 | `get$x` gives `get x(`, `set$x` gives `set x(`, anything else gives `name(` |
| FunctionDef.ParamName | src/function.rs:86-88 | the `name` entry, or `_` |
| FunctionDef.ParamType | src/function.rs:89-91 | the readable `type` entry, or `?` |
| FunctionDef.ParamEntries | src/function.rs:75-96 | exactly `num_params` entries `name: type`, with `_: ?` past the given metadata |
| FunctionDef.ParamList | src/function.rs:72-96 | panics iff there are parameters but no metadata. Empty for no parameters |
| FunctionDef.RenderParams | src/function.rs:72-96 | the `first`-flag loop appends exactly the specified list, or the same panic |
| FunctionDef.ReturnSuffix | src/function.rs:99-104 | `)` for none or `()`, otherwise `) -> ` and the readable type |
| FunctionDef.Definition | src/function.rs:55-105 | fails iff there are parameters but no parameter metadata |
| FunctionDef.DefinitionHead | src/function.rs:57-70 | the kind prefix followed by the call prefix |
| FunctionDef.GenerateFunctionDefinition | src/function.rs:55-105 | the method returns exactly the specified definition |
| FunctionDef.DefinitionLayout | src/function.rs:57-104 | starts with `op ` iff an operator and `fn ` iff not, then the call prefix; ends with the return suffix |
| FunctionDef.AccessorCallPrefix | src/function.rs:64-67 | `get$x`/`set$x` become `get x(`/`set x(` |
| FunctionDef.AccessorDefinition | src/function.rs:57-67 | getters and setters render as `fn get x(` and `fn set x(` |
| FunctionDef.AddParams | src/function.rs:75-95 | with a namer mapping `INT` to `int`, `a: INT, b: INT` renders as `a: int, b: int` |
| FunctionDef.AddParamsReadable | src/function.rs:75-95 | with `def_type_name` itself as the namer, `a: INT, b: INT` renders as `a: int, b: int` |
| FunctionDef.MissingParams | src/function.rs:86-95 | a missing type and a missing entry render as `s: ?, _: ?` |
| FunctionDef.OrElse | src/function.rs:156-160 | the first present value |
| FunctionDef.StripFirstSuffix | src/function.rs:156-160 | the chain never lengthens the text |
| FunctionDef.StripFirstSuffixAt | src/function.rs:156-160 | the first matching ending is stripped |
| FunctionDef.StripFirstSuffixNone | src/function.rs:156-160 | nothing when no ending matches |
| FunctionDef.RemoveResult | src/function.rs:154-172 | a type with none of the wrapper prefixes is unchanged, and the result is never longer |
| FunctionDef.AliasPayload | src/function.rs:161-167 | only the three alias wrappers give a payload |
| FunctionDef.RemoveResultKeepsOpen | src/function.rs:154-172 | a type that does not end in `>` is unchanged |
| FunctionDef.EarlierEndingsMiss | src/function.rs:156-159 | a text in one boxed spelling matches none of the earlier spellings |
| FunctionDef.RemoveResultBoxed | src/function.rs:155-159 | `Result<T, Box<EvalAltResult>>` in all four spellings unwraps to trimmed `T` |
| FunctionDef.RemoveResultPlain | src/function.rs:160 | `Result<T>` with any other error unwraps to trimmed `T` |
| FunctionDef.RemoveResultAliases | src/function.rs:161-167 | `EngineResult<T>` and `(rhai::)RhaiResultOf<T>` unwrap to trimmed `T` |
| FunctionDef.Substitutions | src/function.rs:133-147 | thirteen replacements, none introducing a colon |
| FunctionDef.ReplaceAllWhole | src/function.rs:133-147 | a word equal to the `k`-th pattern, in which no earlier pattern occurs, becomes the `k`-th replacement when no later pattern occurs in that replacement |
| FunctionDef.DefTypeNameInt | src/function.rs:127-150 | `INT` renders as `int` when no engine name occurs in either |
| FunctionDef.DefTypeNameDynamic | src/function.rs:127-150 | `Dynamic` renders as `?` when no engine name occurs in `?` |
| FunctionDef.DefTypeNameStr | src/function.rs:127-150 | `&str` renders as `String` when no engine name occurs in either |
| FunctionDef.DefTypeNameImmutableString | src/function.rs:127-150 | `ImmutableString` renders as `String` when no engine name occurs in either |
| FunctionDef.DefTypeNameResultInt | src/function.rs:127-150 | `Result<INT, Box<EvalAltResult>>` in all four spellings renders as `int` when no engine name occurs in `INT` or `int` |
| FunctionDef.ReadableTypeNames | src/function.rs:127-150 | when each engine type name holds a digit or a colon, as `i64` and `alloc::vec::Vec<..>` do, the five renderings above all hold |
| FunctionDef.DefTypeNameDropsMut | src/function.rs:128 | a leading `&mut` makes no difference |
| FunctionDef.DefTypeNameKeepsPlain | src/function.rs:127-150 | a plain trimmed name with no wrapper, path or replaced name is kept |
| FunctionDef.DefTypeNameHasNoPath | src/function.rs:131-149 | the rendered type never holds a `::` path |
| ModuleTree.GroupFunctions | src/module.rs:123-142 | the `get_mut`/`insert` loop builds exactly the specified groups |
| ModuleTree.GroupedByName | src/module.rs:129-139 | there is a group for exactly the names that occur, holding their overloads in input order |
| ModuleTree.SameGroupIffSameName | src/module.rs:131-137 | two overloads share a group iff their names are equal |
| ModuleTree.GroupedSizes | src/module.rs:129-139 | the group sizes add up to the number of overloads |
| ModuleTree.GroupsPartition | src/module.rs:123-142 | in any enumeration order the groups hold every overload once |
| ModuleTree.BuildAllSpec | src/module.rs:88-92 | the `?` loop succeeds iff every step does, keeps the results in order, and otherwise reports the first error |
| ModuleTree.CollectCustomTypes | src/module.rs:88-92 | the custom-type loop is the first-error loop |
| ModuleTree.CollectFunctions | src/module.rs:94-100 | the function loop keeps only the successes |
| ModuleTree.FunctionItemsFrom | src/module.rs:94-100 | every function item comes from a visited group |
| ModuleTree.FunctionItemsKeep | src/module.rs:95-98 | every visited group that builds an item contributes it |
| ModuleTree.Flatten | src/module.rs:103 | exactly the present items are kept |
| ModuleTree.CollectItems | src/module.rs:86-105 | the item loops and the ordering give exactly the specified items |
| ModuleTree.FormatModuleText | src/module.rs:72-76 | the module text as specified |
| ModuleTree.GenerateInner | src/module.rs:62-121 | the recursive method returns exactly the specified documentation |
| ModuleTree.GenerateSubModules | src/module.rs:107-118 | the sub-module loop as specified |
| ModuleTree.GenerateEntry | src/module.rs:110-116 | one sub-module: decoded, then documented |
| ModuleTree.GenerateModuleDocumentation | src/module.rs:48-60 | the root is named and namespaced `global` |
| ModuleTree.ItemsFailOnlyOnCustomTypes | src/module.rs:88-100 | the items fail iff some custom type fails, reporting the first one |
| ModuleTree.CustomItemsMembers | src/module.rs:88-103 | a custom item is present iff it is built from a custom type |
| ModuleTree.FunctionItemsMembers | src/module.rs:94-103 | a function item is present iff a visited group built it |
| ModuleTree.ModuleItemsMembers | src/module.rs:86-105 | a level's items are exactly the built custom types and function groups |
| ModuleTree.ByIndexItemsCarryDirective | src/module.rs:86-105 | in by-index mode each item's index is the one its comments declare |
| ModuleTree.CustomTypesFirstAmongEquals | src/module.rs:88-105 | among equal keys, custom types come first, then functions in visiting order |
| ModuleTree.ModuleDocNames | src/module.rs:68-105 | a level has its name, its namespace or its name at the root, its module text and its items |
| ModuleTree.SubModuleDocsSucceed | src/module.rs:107-118 | the sub-modules succeed iff every entry does, and are documented in order |
| ModuleTree.SubModuleNamespaces | src/module.rs:109-113 | each child sits under `namespace/key` and is named by its key |
| ModuleTree.SubModuleDocsFirstFailure | src/module.rs:108-117 | a failure is the first failing entry's error |
| ModuleTree.EntryDocOutcome | src/module.rs:110-116 | an entry is a decode error or the child's documentation |
| ModuleTree.ModuleDocFailures | src/module.rs:62-121 | a level succeeds iff all custom types and all sub-module entries do |
| ModuleTree.FunctionsNeverAbort | src/module.rs:94-100 | dropping every function leaves success unchanged |
| ModuleTree.ModuleTextOfPlainDoc | src/module.rs:72-76 | no doc gives `""`; a plain doc is kept line by line |
| ModuleTree.ModuleTextLines | src/module.rs:72-76 | the module text is the unmarked comment's visible lines, a subsequence of its lines |
| Indexer.DirectiveLine | scripts/rhai-autodocs-indexer.py:24 | a rewritten line is itself a directive line |
| Indexer.Directives | scripts/rhai-autodocs-indexer.py:20-25 | the count of directive lines is at most the line count |
| Indexer.RenumberedWith | scripts/rhai-autodocs-indexer.py:21-29 | one output line per input line |
| Indexer.Renumbered | scripts/rhai-autodocs-indexer.py:20-29 | one output line per input line |
| Indexer.Renumber | scripts/rhai-autodocs-indexer.py:20-29 | the counter loop writes exactly the renumbered lines |
| Indexer.RenumberedLines | scripts/rhai-autodocs-indexer.py:21-29 | each line is copied or becomes the directive numbered one past those above it |
| Indexer.OtherLinesCopied | scripts/rhai-autodocs-indexer.py:26-27 | a non-directive line is copied unchanged |
| Indexer.DirectiveNumbered | scripts/rhai-autodocs-indexer.py:23-25 | the `k`-th directive line becomes directive `k` |
| Indexer.DirectivesGrow | scripts/rhai-autodocs-indexer.py:25 | the count grows by one past each directive |
| Indexer.NumbersIncrease | scripts/rhai-autodocs-indexer.py:20-25 | later directive lines get strictly greater numbers |
| Indexer.NumbersConsecutive | scripts/rhai-autodocs-indexer.py:20-25 | the numbers written are exactly 1..m in file order |
| Indexer.RenumberedDirectives | scripts/rhai-autodocs-indexer.py:23-25 | rewriting keeps the number of directive lines |
| Indexer.RenumberedIdempotent | scripts/rhai-autodocs-indexer.py:20-29 | running on its own output changes nothing |
| Indexer.ScriptOutputStable | scripts/rhai-autodocs-indexer.py:20-29 | the written file is a fixed point and has the same directive count |
| Indexer.RunIndexer | scripts/rhai-autodocs-indexer.py:4-29 | the usage text and status 1 iff there is not exactly one argument; otherwise the renumbered file at `<path>.autodocs` |
| Indexer.RunAutodocs | scripts/rhai-autodocs.py:3-17 | with no argument the script crashes; otherwise it writes the renumbered file |

## Left out

- Engine and JSON decoding (`gen_fn_metadata_to_json`, `serde_json`) are not part of this model. The metadata records are given as datatypes. A sub-module value that does not decode is an abstract `Malformed` value, which gives a `Metadata` error.
- `generate_function_definition().name()`, `.type_to_str()` and `.display()` belong to an API that is not part of this model. They are the parameters `nameOf` and `typeToStr`. The `signatures` field is not modelled.
- `std::any::type_name` of the engine's types depends on how the engine is built. These names are the `EngineTypeNames` parameter of `def_type_name`.
- `HashMap` iteration order in `group_functions` is the `enumerate` parameter. Any sequence of keys is allowed, and keys with no group are skipped. The order of `serde_json::Map` is taken as the order of the sub-module sequence.
- `serde::Serialize` impls, Handlebars rendering, templates, the glossary and the examples are not part of this model. Neither is file I/O: the scripts' files are lists of lines, each with its line feed.
- `src/error.rs` and `src/module/error.rs` are not modelled beyond their error variants. Their `Display` texts are not modelled.
- Index 0 in `order_function_groups` is modelled as a debug-build panic on `index - 1`. A release build would wrap instead.
- The literal `remove_test_code` tests in `src/item.rs:283-388` and `src/doc_item.rs:263-369` are not restated as literal strings. They are covered by the general lemmas: subsequence, every non-`# ` line kept, fences kept, idempotence.
- The `remove_result` tests in `src/function.rs:179-197` are covered by the lemmas `RemoveResultBoxed`, `RemoveResultPlain` and `RemoveResultAliases`, which hold for every `T`.
- The end-to-end test in `src/module.rs:176-240` runs the engine and the templates. Its ordering and dropping are covered by `ByIndexItemsCarryDirective` and `OrderedItemsSpec`.
- Text.JoinOfLines: covers only text without `\r\n` pairs, because `lines()` drops the carriage return of such a pair.
- DocComments.DropDirectiveLinesKeepsOthers: covers entries without carriage returns whose last kept line is not empty, because `lines()` strips a carriage return before a line feed and swallows a final empty line.
- DocComments.RemoveExtraTokensKeepsOthers: covers only entries without carriage returns whose last kept line is not empty, for the same reasons: the entry `a\r\r\nb` has the lines `a\r` and `b`, but its cleaned text `a\r\nb` splits into `a` and `b`.
- DocItems.SectionsWithFinalShape: states the flushed sections only when the last section's body is not empty; with an empty last body the flush, like `src/item.rs:267-272`, adds nothing, and `FinishShape` states that case.
- FunctionDef.DefTypeNameInt: like the other `DefTypeName` lemmas, holds when no engine type name occurs in the words involved; `ReadableTypeNames` shows this for names holding a digit or a colon.
- Indexer.RunIndexer: the message is the usage text without the extra line feed `print` adds.
- FunctionDef.DefTypeNameKeepsPlain: does not compute `def_type_name` on concrete engine names, because those names are parameters; it states the mapping on names that hold none of them.

## Findings

| source | as written | input that shows it | evidently intended | confidence | as-written member | corrected member |
|---|---|---|---|---|---|---|
| src/doc_item.rs:91-118 | the section still open when the comment ends is never pushed | the comment `Adds two numbers.` gives no section at all | push the open section when its body is not empty, as `src/item.rs:267-272` does | not executed | DocItems.OneLineDescriptionDropped | DocItems.SectionsWithFinalShape |
| src/options.rs:171-173 | a plain line is pushed into the tab content without a line feed | `a` line feed `b` renders as `ab` | push each line followed by a line feed, as `src/module/options.rs:235-236` does | not executed | LegacyOptions.TwoLinesRunTogether | ModuleSections.TabContentOfPlainLines |
