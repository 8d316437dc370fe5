# documented, modelled in Dafny

`documented` is a set of Rust procedural macros that turn the doc comments of
a type, its fields, its enum variants, or an item into compile-time string
constants. This project models the data pipeline behind those macros and
proves properties about it:

- **The doc-text normaliser** (`get_docs`). It keeps the `#[doc = "..."]`
  fragments in order. It then either trims every line and joins the lines
  with `\n`, or joins the fragments verbatim.
- **The option language** of the helper attributes (`kw = value, ...`). It
  comes with a rule that each option kind may be declared once, and a
  diagnostic anchored at the first occurrence of a repeated kind.
- **Config resolution** for each macro profile:
  - the default;
  - which kinds are accepted;
  - the field-wise override merge that the `optfield` crate generates;
  - `name` beating `rename_all`;
  - layering the default, then the container, then the member.
- **The derive outputs, modelled as data.** `Documented` gives one docs
  value. `DocumentedFields` gives one docs value per member plus the
  name-to-index lookup. `DocumentedVariants` gives one match arm per
  variant. `docs_const` gives a constant with its name and visibility.
  The strict and optional docs policies are both modelled.
- **The older `documented-derive` crate**: its single-`trim` configuration,
  the "declared only once" rule for its helper attribute, and its derives.
- **The README code-fence extractor** of the test crate (`build.rs`). It is
  a line scanner whose two searches share one cursor, plus the assembly of
  one test function per code block.

Modules, one per source file:

| module | file |
|---|---|
| `Diag` | results and diagnostics (an error is a list of located notes; `Error::combine` is concatenation) |
| `Syntax` | the slice of the syntax tree the macros read (spans are `nat`) |
| `Text` | `str::split('\n')`, `str::trim` (Unicode White_Space), `join("\n")` |
| `Util` | documented-macros/src/util.rs |
| `CustomiseCore` | documented-macros/src/config/customise_core.rs |
| `Attr` | documented-macros/src/config/attr.rs |
| `Derive` | documented-macros/src/config/derive.rs |
| `DeriveFields` | documented-macros/src/config/derive_fields.rs |
| `DeriveImpl` | documented-macros/src/derive_impl.rs |
| `AttrImpl` | documented-macros/src/attr_impl.rs |
| `LegacyConfig` | documented-derive/src/config.rs |
| `LegacyDerive` | documented-derive/src/lib.rs |
| `ReadmeExamples` | documented-test/build.rs |

The Rust loops keep their imperative form. Each is a `method` with a `while`
loop, proved equal to a specification function. Those loops are:

- the option loops of the `TryFrom`/`Parse` impls;
- the duplicate-error folds;
- `ensure_unique_options`;
- the fence scanner;
- the test-file fold.

Everything else is pure functions over values as in the source: iterator
chains over collections, `match` tables, and `?` composition.

The modelled source files come from more than one revision of the repository. The
model uses a single option kind set: `vis`, `name` (kind `Rename`),
`rename_all`, `default` and `trim`. Where the files disagree, the model
follows the code that consumes the data:

- **Derive-macro options.** `Derive.DeriveConfig` has a `defaultValue`,
  because documented-macros/src/derive_impl.rs:95 reads one. An option that
  sets it is accepted. `vis`, `name` and `rename_all` are rejected; that
  revision of derive.rs rejects only `vis` and `name` and knows no other
  kind besides `trim`.
- **`rename_all` on the attribute macro.** attr.rs has no arm for it, so the
  docs-constant profile rejects it with "This config option is not
  applicable here".
- **How a kind is displayed.** Duplicate messages use the keyword. The
  `Rename` kind therefore reads `name`, as the `Name` kind in
  documented-macros/src/config/customise_core.rs does.

## Model

| member | source | states |
|---|---|---|
| `Util.GetVisNameAttrs` | documented-macros/src/util.rs:10-46 | succeeds exactly for named items and for macros with an ident. A named macro gets inherited visibility. Impl, use and foreign-mod items, verbatim items, unknown items and anonymous macros each fail at the item's span with their own message. |
| `Util.StringLiterals` | documented-macros/src/util.rs:49-64 | succeeds exactly when every doc value is a string literal. The result is the doc fragments in declaration order. Otherwise the error is at the first non-literal doc value, with "Doc comment is not a string literal". |
| `Util.GetDocs` | documented-macros/src/util.rs:48-82 | `Ok` exactly when every doc value is a literal, and `Ok(None)` exactly when there is no doc attribute. Otherwise the text is the normalisation of the fragments under `trim`. The error is at the first bad doc value. |
| `Util.FirstBadDocIsFirst` | documented-macros/src/util.rs:57-64 | the failed collection reports the first non-literal doc value, not a later one |
| `Util.FragmentsEmpty` | documented-macros/src/util.rs:49-68 | well-formed attributes yield no fragment exactly when none of them is a doc attribute (the `is_empty` check gives `None`) |
| `Util.VerbatimKeepsLines` | documented-macros/src/util.rs:77-78 | without trimming, the text splits back into exactly the lines of the fragments, in order, whitespace included |
| `Util.TrimmedLines` | documented-macros/src/util.rs:70-76 | with trimming, the text has as many lines as the fragments. Line k is the trim of line k of the fragments and has no leading or trailing whitespace. |
| `Util.NewlineCount` | documented-macros/src/util.rs:70-79 | in both modes the text holds (line feeds inside the fragments) + (fragments − 1) line feeds, so trimming never drops a line |
| `Util.TrimIdempotent` | documented-macros/src/util.rs:70-76 | normalising the trimmed text again, as a single fragment, gives the same text |
| `Util.GetDocsIdempotent` | documented-macros/src/util.rs:48-82 | a single doc attribute holding `get_docs`'s trimmed output reads back as that output |
| `Text.Trim` | documented-macros/src/util.rs:74 | the result is an infix `s[i..j]` of the input with only whitespace outside it, and it neither starts nor ends with whitespace, so it is the input with its leading and trailing whitespace removed. It equals the input when that is already trimmed. |
| `Text.TrimStart` | documented-macros/src/util.rs:74 | the result is a suffix of the input that does not start with whitespace, and what it drops is whitespace |
| `Text.TrimEnd` | documented-macros/src/util.rs:74 | the result is a prefix of the input that does not end with whitespace, and what it drops is whitespace |
| `Text.SplitPiecesHaveNoNewline` | documented-macros/src/util.rs:73 | no piece of `split('\n')` contains a line feed |
| `Text.SplitOfJoin` | documented-macros/src/util.rs:73-78 | joining fragments with `\n` and splitting the result gives the lines of all fragments, in order |
| `Text.SplitOfJoinLines` | documented-macros/src/util.rs:73-76 | lines free of line feeds survive a join followed by a split unchanged |
| `Text.JoinOfSplit` | documented-macros/src/util.rs:73-76 | splitting on `\n` and joining back is the identity |
| `Text.SplitCount` | documented-macros/src/util.rs:73 | a string splits into one more piece than it has line feeds |
| `Text.LinesCount` | documented-macros/src/util.rs:73 | the fragments yield (their line feeds + their number) lines |
| `Text.TrimAll` | documented-macros/src/util.rs:74-75 | same length as the input lines; line i is the trim of input line i |
| `CustomiseCore.KeywordKind` | documented-macros/src/config/customise_core.rs:79-99 | finds an accepted kind whose keyword is the word, or fails only when no accepted kind has that keyword |
| `CustomiseCore.ParseKindAt` | documented-macros/src/config/customise_core.rs:79-99 | succeeds exactly at an accepted keyword and returns that keyword's kind. Otherwise it fails with the lookahead message over the accepted kinds at that token, or with "unexpected end of input" at the end. |
| `CustomiseCore.ParseValueAt` | documented-macros/src/config/customise_core.rs:38-43 | a parsed value has the kind that was asked for, and it is the value whose printed token is the one read (`ValueRoundTrip` proves the converse) |
| `CustomiseCore.ParseOptionAt` | documented-macros/src/config/customise_core.rs:29-47 | a non-keyword fails with the lookahead error, and a missing `=` fails with "expected `=`". After keyword and `=`, it succeeds exactly when the value parses, a value error is passed on, and the option's data is the parsed value. On success the option is keyword, `=`, value. Its span is the keyword's span, its data's kind is the keyword's kind, its data is spelt by the value token, and parsing resumes after the value. |
| `CustomiseCore.ParseListFrom` | documented-macros/src/config/attr.rs:58-60 | every option of a parsed comma-separated list has an accepted kind; an empty rest is the empty list; a failing first option fails the list with its error; a parsed non-empty rest starts with the option read at its head |
| `CustomiseCore.ParseRenderRoundTrip` | documented-macros/src/config/customise_core.rs:29-47 | printing options as `kw = value, ...`, with or without a comma after the last, and parsing the tokens gives back the same options, in order, each spanned at its keyword |
| `CustomiseCore.CaseFromName` | documented-macros/src/config/derive_fields.rs:101-102 | a recognised case name is the name of the case it returns |
| `CustomiseCore.OfKind` | documented-macros/src/config/customise_core.rs:104-106 | the group of a kind holds exactly the options of that kind |
| `CustomiseCore.LastOf` | documented-macros/src/config/attr.rs:64-82 | the value a replace-in-a-loop leaves behind: present exactly when the kind occurs, and of that kind |
| `CustomiseCore.LastOfIsLast` | documented-macros/src/config/attr.rs:64-82 | the value found belongs to an option with no option of the same kind after it |
| `CustomiseCore.FirstOfKinds` | documented-macros/src/config/derive_fields.rs:95-100 | returns nothing exactly when no option has a kind in the set. Otherwise it returns the first such option, so that an early `?` return reports it. |
| `CustomiseCore.DuplicateNotes` | documented-macros/src/config/customise_core.rs:117-120 | one "Duplicate declaration here" note per later declaration, at that declaration's span, in order. Both crates' duplicate folds use it, with the option keyword or the attribute as the span. |
| `CustomiseCore.DuplicateErrorShape` | documented-macros/src/config/customise_core.rs:112-120 | the error has one entry per occurrence. The first says "Option <kw> can only be declaration once" at the first occurrence; every later one is a "Duplicate declaration here" note at its occurrence. |
| `CustomiseCore.DuplicateDiagnostic` | documented-macros/src/config/customise_core.rs:113-120 | the `fold` builds exactly that error |
| `CustomiseCore.EnsureUniqueOptions` | documented-macros/src/config/customise_core.rs:103-126 | succeeds exactly when no kind occurs twice. Otherwise it reports a kind that occurs at least twice, with that kind's duplicate error. It takes the options as a value and cannot change them. |
| `CustomiseCore.UniqueCheck` | documented-macros/src/config/derive.rs:88-105 | the same check over a pooled list: `Ok` exactly when duplicate-free, else a duplicated kind's error |
| `CustomiseCore.FirstDuplicateKind` | documented-macros/src/config/derive.rs:88-105 | finds a kind declared twice, or none only when every kind occurs at most once |
| `CustomiseCore.UniqueIffAtMostOne` | documented-macros/src/config/customise_core.rs:103-126 | no two options share a kind exactly when every kind's group has at most one option |
| `CustomiseCore.TwoOfKind` | documented-macros/src/config/customise_core.rs:109-112 | two options of the same kind give that kind a group of two or more |
| `CustomiseCore.NoneOfKind` | documented-macros/src/config/customise_core.rs:104-106 | a kind absent from the list has an empty group |
| `Attr.DefaultConfig` | documented-macros/src/config/attr.rs:34-43 | no custom visibility, no custom name, no default value, `trim` on |
| `Attr.WithCustomisations` | documented-macros/src/config/attr.rs:47-50 | every field the customisation sets overrides, every unset field keeps the old value, and no customisation changes nothing |
| `Attr.AttrProfile` | documented-macros/src/config/attr.rs:64-83 | fails exactly when `rename_all` occurs. Otherwise each field is set exactly when an option of its kind occurs. |
| `Attr.Parse` | documented-macros/src/config/attr.rs:55-84 | a parse error is passed on. Duplicates are rejected with the duplicate error before any option is looked at; a duplicate-free list gives the profile of its options. |
| `Attr.AssignOptions` | documented-macros/src/config/attr.rs:64-83 | the loop computes `AttrProfile` |
| `Attr.AssignStep` | documented-macros/src/config/attr.rs:68-81 | each accepted option changes only the field of its own kind |
| `Attr.EmptyArgumentsGiveDefault` | documented-macros/src/config/attr.rs:54-64 | an empty argument list parses to no options and resolves to the default config |
| `Attr.OneOptionOneField` | documented-macros/src/config/attr.rs:64-82 | a single option sets exactly its own field and no other |
| `Derive.DefaultConfig` | documented-macros/src/config/derive.rs:26-30 | `trim` on, no default value |
| `Derive.WithCustomisations` | documented-macros/src/config/derive.rs:34-37 | set fields override, unset fields keep the old value, no customisation changes nothing |
| `Derive.DeriveProfile` | documented-macros/src/config/derive.rs:46-62 | fails exactly when a `vis`, `name` or `rename_all` option occurs, at such an option's span, with "not applicable to derive macros". Otherwise `trim` and `default` are set exactly when given. |
| `Derive.TryFromOptions` | documented-macros/src/config/derive.rs:49-61 | the loop computes `DeriveProfile` |
| `Derive.Relevant` | documented-macros/src/config/derive.rs:73 | exactly the attributes whose path is the helper name |
| `Derive.AttrOptions` | documented-macros/src/config/derive.rs:75-83 | an attribute not of the form `name(...)` fails at its span with "<name> is not list-like"; a list-form attribute gives the option list its arguments parse to |
| `Derive.OptionLists` | documented-macros/src/config/derive.rs:75-84 | one option list per attribute, in order, each the options that attribute parses to |
| `Derive.Pooled` | documented-macros/src/config/derive.rs:84-86 | succeeds exactly when every attribute's options parse. The value is all their option lists concatenated, in attribute order. Otherwise the error is that of the first failing attribute. |
| `Derive.CustomisationsFromAttrs` | documented-macros/src/config/derive.rs:66-108 | no helper attribute gives no customisation. A failing attribute fails the lookup with that attribute's error. The pooled options must be duplicate-free; a duplicate gives the error of a duplicated kind. A duplicate-free pool gives its profile. |
| `Derive.NotListRejected` | documented-macros/src/config/derive.rs:75-84 | a helper attribute not of the form `name(...)` fails the lookup at its span with "<name> is not list-like" |
| `Derive.TrimSetsOnlyTrim` | documented-macros/src/config/derive.rs:56-58 | a lone `trim` option sets exactly the `trim` field |
| `Derive.OtherAttributesIgnored` | documented-macros/src/config/derive.rs:73 | an attribute with another path changes nothing, wherever it is |
| `Derive.EmptyAttributeHarmless` | documented-macros/src/config/derive.rs:84-88 | an extra empty `name()` helper attribute changes nothing |
| `Derive.DuplicateAcrossAttributes` | documented-macros/src/config/derive.rs:84-105 | the same kind in two helper attributes is an error, because options are pooled before the check |
| `DeriveFields.DefaultConfig` | documented-macros/src/config/derive_fields.rs:45-53 | no rename mode, no default value, `trim` on |
| `DeriveFields.WithCustomisations` | documented-macros/src/config/derive_fields.rs:67-84 | set fields override, unset fields keep the receiver's value, no customisation changes nothing. The receiver is a value and stays unchanged. |
| `DeriveFields.FieldRename` | documented-macros/src/config/derive_fields.rs:130-138 | a `name` option always yields a custom name; without one, the last `rename_all` decides |
| `DeriveFields.BaseProfile` | documented-macros/src/config/derive_fields.rs:91-113 | fails exactly when `vis` or `name` occurs, at such an option's span, with "not applicable here". Otherwise a rename mode is set exactly when `rename_all` occurs. |
| `DeriveFields.FieldProfile` | documented-macros/src/config/derive_fields.rs:120-148 | fails exactly when `vis` occurs, at such an option's span. Otherwise a rename mode is set exactly when `name` or `rename_all` occurs. |
| `DeriveFields.TryFromBase` | documented-macros/src/config/derive_fields.rs:94-112 | the loop computes `BaseProfile` |
| `DeriveFields.TryFromField` | documented-macros/src/config/derive_fields.rs:123-147 | the loop, including its "`rename` has priority" guard, computes `FieldProfile` |
| `DeriveFields.RenameBeatsRenameAll` | documented-macros/src/config/derive_fields.rs:130-138 | for any field options containing `name`, with any `rename_all` anywhere, the rename mode is the last `name` given |
| `DeriveFields.LastOfUnique` | documented-macros/src/config/derive_fields.rs:95-110 | in a duplicate-free list, the last option of a kind is its only one |
| `DeriveFields.BaseOrderIndependent` | documented-macros/src/config/derive_fields.rs:91-113 | two duplicate-free lists with the same options succeed or fail together, and succeeding ones give the same container customisation |
| `DeriveFields.FieldOrderIndependent` | documented-macros/src/config/derive_fields.rs:120-148 | the same for the field profile |
| `DeriveFields.Layering` | documented-macros/src/config/derive_fields.rs:67-84 | from the container's and the field's options as written, each resolved field is the field's last option of that kind, else the container's last, else the default (`trim` on, no default value, no rename mode) |
| `DeriveFields.FieldNameBeatsContainerCase` | documented-macros/src/config/derive_fields.rs:130-138 | a member-level `name` wins over whatever the container's `rename_all` says |
| `DeriveImpl.DocsHandler` | documented-macros/src/derive_impl.rs:47-70 | fails exactly in strict mode with neither docs nor default, with "Missing doc comments" at the target's span. Docs give `"docs"` (strict) or `Some("docs")` (optional). A default alone is used unwrapped. Optional mode with neither gives `None`. |
| `DeriveImpl.TraitIdentFor` | documented-macros/src/derive_impl.rs:73-79 | the prefix in strict mode, the prefix followed by `Opt` in optional mode |
| `DeriveImpl.Members` | documented-macros/src/derive_impl.rs:118-132 | one member per variant or field, in declaration order, positional fields included |
| `DeriveImpl.ContainerConfig` | documented-macros/src/derive_impl.rs:113-116 | succeeds exactly when the container's helper attributes do; the result is the default overlaid by them |
| `DeriveImpl.MemberConfig` | documented-macros/src/derive_impl.rs:137-141 | a member option overrides the container's value, and a field the member leaves unset keeps it |
| `DeriveImpl.MemberDocs` | documented-macros/src/derive_impl.rs:136-147 | a member's docs succeed exactly when its config resolves, its docs are literals, and the policy has docs, a default or optional mode. Otherwise the error is the first failing step's: config, then docs, then the policy's "Missing doc comments". On success the value is the policy applied to the docs read under the member's own `trim` and default. |
| `DeriveImpl.CollectDocs` | documented-macros/src/derive_impl.rs:134-148 | succeeds exactly when every member does, giving one value per member in order. Otherwise the error is that of the first failing member. |
| `DeriveImpl.Arms` | documented-macros/src/derive_impl.rs:152-157 | every entry names a member at its index in the full member list, every named member has an entry, and entries come in index order |
| `DeriveImpl.Idents` | documented-macros/src/derive_impl.rs:134-150 | the members' optional names, position by position |
| `DeriveImpl.Lookup` | documented-macros/src/derive_impl.rs:166-173 | finds nothing exactly when no entry has the name; a hit is the index of an entry with that name |
| `DeriveImpl.ArmsExact` | documented-macros/src/derive_impl.rs:152-157 | `(name, i)` is an entry exactly when member i is named `name` |
| `DeriveImpl.LookupCorrect` | documented-macros/src/derive_impl.rs:166-173 | with distinct names, a member's name maps to its index and an unknown name maps to nothing |
| `DeriveImpl.MembersIndependent` | documented-macros/src/derive_impl.rs:134-145 | replacing one member never changes another member's docs value |
| `DeriveImpl.DocumentedImpl` | documented-macros/src/derive_impl.rs:83-103 | succeeds exactly when the container config resolves, the docs are literals and the policy has docs, a default or optional mode. Otherwise the error is that of the first failing step. On success the trait ident is `Documented` or `DocumentedOpt` and the docs value is the policy applied to the container's docs under its config. |
| `DeriveImpl.DocumentedFieldsImpl` | documented-macros/src/derive_impl.rs:106-176 | a container-config error or the collected members' error is passed on unchanged; with a valid config it succeeds exactly when every member does. On success `FIELD_DOCS` has one value per member, in order, each that member's docs value, and the lookup entries are those of the members' names. |
| `DeriveImpl.DocumentedVariantsImpl` | documented-macros/src/derive_impl.rs:179-244 | a container-config error is passed on, and a struct or union fails at its `struct`/`union` keyword. For an enum it succeeds exactly when every variant does, else with the first failing variant's error. On success there is one arm per variant, in order, with the variant's name, shape and docs value. |
| `DeriveImpl.VariantDocs` | documented-macros/src/derive_impl.rs:237-241 | the generated match finds no arm only for a name no arm has |
| `DeriveImpl.VariantDocsOfEach` | documented-macros/src/derive_impl.rs:218-241 | with distinct variant names, every variant gets its own arm's docs |
| `DeriveImpl.FieldsFailureAborts` | documented-macros/src/derive_impl.rs:134-148 | when member i fails and every earlier member succeeds, `DocumentedFields` fails with member i's error |
| `DeriveImpl.VariantsFailureAborts` | documented-macros/src/derive_impl.rs:204-216 | when variant i fails and every earlier variant succeeds, `DocumentedVariants` fails with variant i's error |
| `DeriveImpl.FirstFailure` | documented-macros/src/derive_impl.rs:148 | the collected docs fail with exactly the error of the first failing member |
| `DeriveImpl.VariantsOnlyOnEnums` | documented-macros/src/derive_impl.rs:191-202 | a struct or union never derives `DocumentedVariants` |
| `DeriveImpl.StrictNeedsDocs` | documented-macros/src/derive_impl.rs:54-60 | strict `Documented` with neither docs nor default fails with "Missing doc comments" at the input |
| `DeriveImpl.OptionalNeverMissing` | documented-macros/src/derive_impl.rs:61-68 | optional `Documented` with a valid config and literal docs never fails |
| `Diag.CollectResults` | documented-macros/src/derive_impl.rs:148 | `collect::<Result<Vec<_>>>()`: all values in order when every entry succeeds, otherwise the first error |
| `Diag.MapResults` | documented-macros/src/derive_impl.rs:134-147 | one result per element, in order, each the function applied to that element |
| `Diag.CollectMapped` | documented-macros/src/derive_impl.rs:134-148 | the collection of mapped results, read in terms of the function: all succeed or the first failure |
| `AttrImpl.DefaultConstName` | documented-macros/src/attr_impl.rs:30-32 | the SCREAMING_SNAKE_CASE name followed by `_DOCS` |
| `AttrImpl.DocsConstImpl` | documented-macros/src/attr_impl.rs:15-39 | an unsupported item is refused first, and a bad doc value is passed on. Missing docs fail at the item with "Missing doc comments". Otherwise the item is kept and the docs are the normaliser's output under the resolved `trim`. Visibility and name are the custom ones if set, otherwise the item's visibility and the derived name. |
| `AttrImpl.UncustomisedConst` | documented-macros/src/attr_impl.rs:19-32 | without customisations the constant inherits the item's visibility, takes the derived name and carries the trimmed docs |
| `AttrImpl.CustomNameWins` | documented-macros/src/attr_impl.rs:29-32 | a custom name and visibility are used verbatim |
| `AttrImpl.UndocumentedRefused` | documented-macros/src/attr_impl.rs:26-27 | an item without doc attributes fails at its span with "Missing doc comments" |
| `AttrImpl.UnsupportedItemFirst` | documented-macros/src/attr_impl.rs:24 | an impl item fails with its own message before docs are read |
| `AttrImpl.DefaultValueIgnored` | documented-macros/src/attr_impl.rs:15-39 | `default_value` has no effect on the constant |
| `AttrImpl.UntrimmedConst` | documented-macros/src/attr_impl.rs:22-26 | `trim = false` gives the fragments joined verbatim |
| `LegacyConfig.DefaultConfig` | documented-derive/src/config.rs:27-31 | `trim` on |
| `LegacyConfig.WithCustomisations` | documented-derive/src/config.rs:34-37 | `trim` changes exactly when it was given |
| `LegacyConfig.TrimProfile` | documented-derive/src/config.rs:45-57 | fails exactly when `trim` occurs twice, at the second keyword, with "cannot be specified more than once". Otherwise `trim` is set exactly when given, to the given value. |
| `LegacyConfig.ParsedCustomisations` | documented-derive/src/config.rs:41-59 | a parse error of the list is passed on; a parsed list holds only `trim` options and gives their profile |
| `LegacyConfig.AssignTrim` | documented-derive/src/config.rs:45-57 | the loop with its "already set" guard computes `TrimProfile` |
| `LegacyConfig.Parse` | documented-derive/src/config.rs:41-59 | the parse as written computes `ParsedCustomisations` |
| `LegacyConfig.ListArgs` | documented-derive/src/config.rs:99-109 | succeeds exactly when every helper attribute is list-like, giving their arguments in order. Otherwise the first non-list attribute fails with "is not list-like". |
| `LegacyConfig.DeclaredOnceError` | documented-derive/src/config.rs:114-125 | "<name> can only be declared once" at the first declaration, then a note at each other |
| `LegacyConfig.DeclaredOnceDiagnostic` | documented-derive/src/config.rs:115-124 | the `fold` over the rest of the iterator builds exactly that error |
| `LegacyConfig.GetConfigCustomisations` | documented-derive/src/config.rs:95-130 | `Ok(None)` exactly without a helper attribute. A non-list form fails. Two or more fail with the declared-once error. A single one gives its parsed arguments. |
| `LegacyConfig.ConfigFrom` | documented-derive/src/lib.rs:81-85 | succeeds exactly when the lookup does; no attribute keeps the base config, one overlays it |
| `LegacyConfig.OnlyTrimRecognised` | documented-derive/src/config.rs:80-92 | any other keyword fails with "expected `trim`" |
| `LegacyConfig.SecondTrimRejected` | documented-derive/src/config.rs:48-51 | a list of two or more `trim` options fails at the second keyword, with or without a trailing comma |
| `LegacyConfig.OneTrimAccepted` | documented-derive/src/config.rs:52-54 | `trim = b` alone, with or without a trailing comma, parses to `b` |
| `LegacyConfig.AtMostOneAttribute` | documented-derive/src/config.rs:111-125 | a successful lookup saw at most one helper attribute |
| `LegacyConfig.NoAttributeDefault` | documented-derive/src/config.rs:111-112 | without the helper attribute, the default config is used |
| `LegacyDerive.GetDocs` | documented-derive/src/lib.rs:411-445 | exactly the documented-macros normaliser, with `trim` read from the config |
| `LegacyDerive.Documented` | documented-derive/src/lib.rs:72-104 | config errors and bad docs are passed on. Missing docs fail at the type's name. Otherwise the result is the docs. |
| `LegacyDerive.MemberDocs` | documented-derive/src/lib.rs:213-224 | a member's config error is passed on; otherwise its docs are read under the base config overlaid by its own attribute |
| `LegacyDerive.CollectDocs` | documented-derive/src/lib.rs:211-229 | succeeds exactly when every member does, giving one value per member in order. Otherwise the first member's error. |
| `LegacyDerive.DocumentedFields` | documented-derive/src/lib.rs:179-267 | a config error or the first failing member's error is passed on; with a valid config it succeeds exactly when every member does. On success there is one optional docs value per member, in order, and lookup entries for the named members at their positions. |
| `LegacyDerive.DocumentedVariants` | documented-derive/src/lib.rs:328-409 | a config error is passed on and a struct or union fails. For an enum it succeeds exactly when every variant does, else with the first failing variant's error. On success there is one arm per variant, in order: its docs, or `NoDocComments` with the variant's name. |
| `LegacyDerive.UpperChar` | documented-derive/src/lib.rs:479 | lower-case ASCII letters become upper case, everything else is unchanged |
| `LegacyDerive.Uppercase` | documented-derive/src/lib.rs:479 | character by character upper-casing, same length |
| `LegacyDerive.DocumentedFunction` | documented-derive/src/lib.rs:450-497 | argument errors and bad docs are passed on. Missing docs fail at the signature. Otherwise the function is kept, and the constant has its visibility, the upper-cased name with `_DOCS`, and the docs. |
| `LegacyDerive.MissingDocsFail` | documented-derive/src/lib.rs:87-95 | an undocumented type fails with "Missing doc comments" at its name |
| `LegacyDerive.UndocumentedFieldIsNone` | documented-derive/src/lib.rs:223-240 | a field without doc attributes gets `None`, never an error |
| `LegacyDerive.FieldTrimOverlay` | documented-derive/src/lib.rs:216-222 | a member's own `trim` wins over the container's; without one the container's is used |
| `LegacyDerive.FunctionConstName` | documented-derive/src/lib.rs:479 | the constant's name is the function's name upper-cased, with `_DOCS` appended, and contains no lower-case ASCII letter |
| `LegacyDerive.ConstNameShape` | documented-derive/src/lib.rs:479 | for any name, the upper-cased name plus `_DOCS` has that length, that suffix and no lower-case ASCII letter |
| `LegacyDerive.UppercaseIdempotent` | documented-derive/src/lib.rs:479 | upper-casing twice is upper-casing once |
| `ReadmeExamples.FirstFence` | documented-test/build.rs:18-22 | a found fence lies at or after the cursor and within the lines |
| `ReadmeExamples.FirstFenceFirst` | documented-test/build.rs:18-22 | `find_map` finds the first matching fence from the cursor on, and nothing only when there is none |
| `ReadmeExamples.FindFence` | documented-test/build.rs:18-22 | one search on the shared iterator returns the first fence and leaves the cursor just after it, or at the end |
| `ReadmeExamples.ScanBlocks` | documented-test/build.rs:15-31 | the scanner loop computes the scan specification |
| `ReadmeExamples.FoundAreBlocks` | documented-test/build.rs:18-30 | every range follows an opener line, ends at the first closer after it and contains no closer |
| `ReadmeExamples.FoundAfter` | documented-test/build.rs:15-22 | every range starts after the line where the scan began |
| `ReadmeExamples.FoundInOrder` | documented-test/build.rs:15-22 | ranges are increasing and disjoint, fences included |
| `ReadmeExamples.OpenersCovered` | documented-test/build.rs:15-22 | every opener line is either a block's opener or a content line of a block |
| `ReadmeExamples.NothingAfterLast` | documented-test/build.rs:18-20 | after the last block no opener remains, and the scan stops there |
| `ReadmeExamples.UnterminatedHasNoCloser` | documented-test/build.rs:22-28 | the panic reports the 1-based line of an opener with no closer anywhere after it |
| `ReadmeExamples.ResumesAfterCloser` | documented-test/build.rs:15-30 | for any lines, the block opened at `o` is `Range(o + 1, c)` with `c` the first closer after it, whatever the lines in between look like (openers included), and scanning resumes after `c` |
| `ReadmeExamples.UnterminatedReported` | documented-test/build.rs:23-28 | for any lines, an opener with no closer after it ends the scan as unterminated at its 1-based line |
| `ReadmeExamples.FoundInBounds` | documented-test/build.rs:30-39 | every range found can be sliced out of the lines |
| `ReadmeExamples.NatToString` | documented-test/build.rs:44 | at least one character, all decimal digits |
| `ReadmeExamples.DigitsOfNat` | documented-test/build.rs:44 | the digits written for `{idx}` read back as `idx` |
| `ReadmeExamples.FragmentNamesDistinct` | documented-test/build.rs:44 | different blocks give different test names |
| `ReadmeExamples.TestCases` | documented-test/build.rs:34-51 | one test per range, in order; test k is `example_fragment{k}` with the range's lines joined by `\n` |
| `ReadmeExamples.AssembleTests` | documented-test/build.rs:34-51 | the `fold` writes exactly the rendered tests, one after another |
| `ReadmeExamples.BodyKeepsLines` | documented-test/build.rs:39 | a test body splits back into exactly its block's lines |

## Left out

- The `customise` cargo feature is assumed to be on throughout. Without
  it every configuration is the default one, the helper attributes are
  not parsed, and `documented_function` ignores its attribute argument
  (documented-derive/src/lib.rs:456-460, documented-macros/src/attr_impl.rs:18-21).
- I/O and build side effects: reading `README.md`, `OUT_DIR`, writing the
  generated file and the `cargo:rerun-if-changed` directive
  (documented-test/build.rs:8, 11, 54-55). The README's lines and the
  generated text are values.
- `str::lines` (documented-test/build.rs:12): the scanner receives the
  README already split into lines.
- The `panic!` of the scanner: modelled as the `Unterminated` outcome with
  the 1-based line number it prints.
- Token generation (`quote!`, `ToTokens`): generated code is modelled as
  data (docs values, lookup entries, match arms, constants).
- The proc-macro entry points of documented-macros/src/lib.rs and the error
  conversion `into_compile_error`; documented-macros/src/lib.rs is not part
  of this model.
- syn's value grammars (`Visibility`, `Expr`, `LitStr`, `LitBool`) and their
  messages: a value is one opaque token, and the model's "expected ..."
  messages for a bad value stand in for syn's.
- Spans: every span is an abstract `nat`. An attribute's meta span is the
  attribute's span. An option's span (`opt.span`, `kw_span()`) is its
  keyword's span. `input.span()` in documented-derive/src/lib.rs:347 is the
  `struct`/`union` keyword's span, as the source comment says.
- Generics and `split_for_impl`: the generated impls are not modelled below
  the trait identifier.
- `crate_module_path` (documented-macros/src/util.rs:6-8): a constant path
  used only in generated tokens.
- phf hashing: lookup is a search over `(name, index)` entries. Distinct
  names are a precondition of `DeriveImpl.LookupCorrect`, because
  `phf_map!` itself rejects duplicate keys.
- Derive.CustomisationsFromAttrs: when a duplicate-free pool holds several
  rejected options, the model reports the first in declaration order. The
  source applies `try_into` to the options in hash-map group order
  (documented-macros/src/config/derive.rs:88-106), so it may report any of
  them. `Derive.DeriveProfile`'s own contract promises only some rejected
  option.
- AttrImpl.DocsConstImpl: does not model the panic of `Ident::new`
  (documented-macros/src/attr_impl.rs:33) on a custom `name` that is not an
  identifier, such as `"1X"` or `"not an ident"`. The model returns the
  constant with that name. Rust's identifier grammar (Unicode XID) is not
  modelled.
- LegacyDerive.DocumentedFunction: does not model the panic of `Ident::new`
  (documented-derive/src/lib.rs:481) on a constant name that is not an
  identifier. A raw identifier `r#match` gives `R#MATCH_DOCS`, and the model
  returns it.
- CustomiseCore.EnsureUniqueOptions: does not say which duplicated kind is
  reported when several are, because the source iterates a hash map.
  `UniqueCheck`, used where options are pooled, reports the first kind in a
  fixed order, which is one of the orders the source can produce.
- `convert_case`: the SCREAMING_SNAKE_CASE conversion of `docs_const` is a
  function parameter. The `RenameMode::ToCase` case is kept as a value and
  not applied.
- LegacyDerive.Uppercase: `str::to_uppercase` is modelled on ASCII letters
  only; Unicode case mapping, which can change a string's length, is not
  modelled.
- ReadmeExamples.FoundAreBlocks: does not repeat that every range starts
  after the scan's starting line; `ReadmeExamples.FoundAfter` states that.
- The assertions of documented-test/src/documented_fields.rs and
  documented-test/src/documented_function.rs about runtime
  `get_field_docs`/`FIELD_NAMES` behaviour: that crate is not part of this
  model.
