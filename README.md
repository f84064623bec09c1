# SmartStrings placeholder engine, in Dafny

SmartStrings fills string templates. It has two token grammars:

- a **generic** token `{...}`: any text without braces between `{` and `}`;
- a **named** token `{name}` or `{name:spec}`: a run of word characters, optionally followed by a colon part that serves as a format for formattable values or as fallback text.

The templates are filled in five ways:

- **Single-value fill.** The leftmost generic token takes one value.
- **Positional fill.** Generic tokens take the values in order. A running counter advances once per consumed value, and tokens beyond the values stay as written.
- **Dictionary fill.** A named token takes the value found under its name, if that value is non-null and non-empty. Otherwise it takes the colon part.
- **Object fill.** The fill for a model.
  - A null model gives the fallbacks.
  - A primitive, `string` or `decimal` model goes to the single-value fill.
  - Any other model is projected into a case-insensitive name-to-value dictionary. Values are formatted with the colon part when they are formattable.
- **Map fill.** The model's property texts are extracted, and the bindings a caller makes on a `TemplateMap` are merged over them. The merge is read with the dictionary-fill rule.

Formatting uses a culture chosen in a fixed order:

1. the explicit culture;
2. else the configured default;
3. else the thread's culture, when the options inherit it;
4. else the invariant culture.

## Project layout

| file | module | contents |
|---|---|---|
| `wrappers.dfy` | `Wrappers` | `Option` for nullable references |
| `options.dfy` | `Options` | the options record, its defaults, culture resolution |
| `models.dfy` | `Models` | values, with their `ToString()` text and an optional formatting function; properties; models |
| `tokens.dfy` | `Tokens`, `TokenLemmas` | the two scanners, which are leftmost and non-overlapping, with what they find, and lemmas about literal text and tokens placed side by side |
| `dicts.dfy` | `Dicts` | insertion-ordered dictionaries with an ordinal or ordinal-ignore-case comparer, the indexer assignment, and assignment loops (`Overlay`) |
| `fills.dfy` | `Fills` | single-value, positional, dictionary and object fills |
| `engine.dfy` | `Engine` | the model fill, the property projection loop, and the class holding the global options |
| `templatemaps.dfy` | `TemplateMaps` | the `TemplateMap` binder class, property extraction, and the map fill with its merge loop |
| `agreement.dfy` | `Agreement` | when the map fill and the object fill give the same text, and when they do not |
| `scenarios.dfy` | `Scenarios` | the repository's test cases, stated as lemmas |

Each scanner splits a template into pieces: single literal characters and whole tokens. A fill's output is the concatenation of the literals and each token's replacement. The replacement text is never scanned again.

## Model

| member | source | states |
|---|---|---|
| Options.FirstPresent | SmartStrings/SmartStringExtensions.cs:129-139 | the result is the fallback or one of the present candidates |
| Options.ResolveCultureIsFirstPresent | SmartStrings/SmartStringExtensions.cs:127-140 | the resolved culture is the first present of: the explicit culture, the configured default, and the thread's culture when inherited; the invariant culture when none is present |
| Options.ExplicitCultureWins | SmartStrings/SmartStringExtensions.cs:130-131 | an explicit culture is used whatever the options say |
| Options.ConfiguredCultureWins | SmartStrings/SmartStringExtensions.cs:133-134 | without an explicit culture, a configured default is used whatever the inherit flag is |
| Options.FreshOptionsUseCurrentCulture | SmartStrings/SmartStringsOptions.cs:17-28 | a fresh options record has no default culture and inherits the thread's culture, so the thread's culture is used |
| Options.NoInheritUsesInvariant | SmartStrings/SmartStringsOptions.cs:24-27 | with no default culture and no inheriting, the invariant culture is used |
| Tokens.NextBrace | SmartStrings/SmartStringExtensions.cs:106 | the first brace at or after a position: no brace before it, and a brace at it unless it is the end |
| Tokens.GenericAt | SmartStrings/SmartStringExtensions.cs:106 | a reported generic token at the head of the text is `{`, brace-free text, `}` |
| Tokens.GenericAtFinds | SmartStrings/SmartStringExtensions.cs:106 | any generic token at the head of the text is the one reported: none is missed |
| Tokens.GenericScanJoin | SmartStrings/SmartStringExtensions.cs:106 | joining the generic scan's pieces gives back the template |
| Tokens.FirstGenericIsLeftmost | SmartStrings/SmartStringExtensions.cs:155 | the first token found starts where a generic token starts, and no token starts before it; when none is found, no position starts one |
| Tokens.WordEnd | SmartStrings/SmartStringExtensions.cs:105 | the maximal run of word characters from a position |
| Tokens.NextClose | SmartStrings/SmartStringExtensions.cs:105 | the first `}` at or after a position, which bounds the `[^}]*` colon part |
| Tokens.NamedAt | SmartStrings/SmartStringExtensions.cs:105 | a reported named token is valid and is how the text begins |
| Tokens.ScannerFinds | SmartStrings/SmartStringExtensions.cs:105 | a valid named token at the head of the text is exactly what the scanner's steps read: the word run, then `}` or `:` and the text up to the first `}` |
| Tokens.NamedAtFinds | SmartStrings/SmartStringExtensions.cs:105 | any valid named token at the head of the text is the one reported |
| Tokens.NamedScanJoin | SmartStrings/SmartStringExtensions.cs:105 | joining the named scan's pieces gives back the template |
| TokenLemmas.ScanAroundFirst | SmartStrings/SmartStringExtensions.cs:155 | the generic scan is the literal text before the leftmost token, that token, then the scan of the rest; without a token, all literals |
| TokenLemmas.GenericScanLiteralText | SmartStrings/SmartStringExtensions.cs:106 | text without `{` is scanned as literals, whatever follows it |
| TokenLemmas.NamedScanLiteralText | SmartStrings/SmartStringExtensions.cs:105 | text without `{` is scanned as literals by the named scanner |
| TokenLemmas.ScanGenericToken | SmartStrings/SmartStringExtensions.cs:106 | a whole generic token is scanned as one piece, whatever follows it |
| TokenLemmas.ScanNamedToken | SmartStrings/SmartStringExtensions.cs:105 | a whole valid named token is scanned as one piece, whatever follows it |
| Dicts.Dict.IndexOf | SmartStrings/SmartStringExtensions.cs:199 | the lookup finds the entry whose key the comparer matches, and reports none only when no key matches |
| Dicts.PutTryGet | SmartStrings/SmartStringExtensions.cs:254-258 | after `d[key] = v`, a matching key reads `v` and every other key reads what it read before; keys stay distinct and keep their places; a new key is added at the end |
| Dicts.Find | SmartStrings/SmartStringExtensions.cs:199 | the search from a position returns the first entry whose key the comparer matches, and none only when no later entry matches |
| Dicts.PutExisting | SmartStrings/SmartStringExtensions.cs:257 | assigning to a key already present replaces its value in place: the key reads the new value, other keys are unaffected, and no two keys match |
| Dicts.PutNew | SmartStrings/SmartStringExtensions.cs:257 | assigning to an absent key adds it at the end: the key reads the new value, other keys are unaffected, and no two keys match |
| Dicts.LastBindingIsLast | SmartStrings/SmartStringExtensions.cs:277-280 | the reference lookup is empty exactly when no entry matches; otherwise it reads a matching entry that no later matching entry follows |
| Dicts.OverlayTryGet | SmartStrings/SmartStringExtensions.cs:277-280 | after an assignment loop, a key reads the last matching assignment, and the previous contents only when no assignment matched |
| Fills.FillOneReplacesLeftmost | SmartStrings/SmartStringExtensions.cs:151-156 | the single-value fill keeps a null or empty template; when some position of the template starts a generic token, it replaces the leftmost such token by the value (empty for null) and keeps all other text; with no token the template is unchanged |
| Fills.OneValueAroundFirst | SmartStrings/SmartStringExtensions.cs:151-156 | with one value, the positional fill of a template split around its leftmost token is the text before it, the value, and the text after it unchanged |
| Fills.FillOneIsFirstPositional | SmartStrings/SmartStringExtensions.cs:151-178 | the single-value fill equals the positional fill with that one value |
| Fills.FillPositional | SmartStrings/SmartStringExtensions.cs:167-178 | the positional fill's output, with the counter's final value equal to the number of values consumed: the smaller of the token count and the value count |
| Fills.FillPieces | SmartStrings/SmartStringExtensions.cs:171-177 | the match loop with its running counter produces the positional output; the counter rises once per consumed value |
| Fills.PositionalIsByOrdinal | SmartStrings/SmartStringExtensions.cs:172-177 | the token with ordinal k takes `values[k]` when there is one and stays as written otherwise |
| Fills.ShortfallKeepsTokens | SmartStrings/SmartStringExtensions.cs:174-176 | once the values are used up, every later token is kept with its braces |
| Fills.SurplusValuesIgnored | SmartStrings/SmartStringExtensions.cs:174-175 | values beyond the number of tokens do not change the output |
| Fills.NoValuesKeepsTemplate | SmartStrings/SmartStringExtensions.cs:167-178 | with no values, the template comes back unchanged |
| Fills.PositionalSplit | SmartStrings/SmartStringExtensions.cs:172-177 | text without `{`, then a token, then more: the text is kept, the token takes the value at the counter (or stays) and the rest continues from the advanced counter |
| Fills.NamedFillSplit | SmartStrings/SmartStringExtensions.cs:194-202 | in a named fill, text without `{` is kept, the following token gets its replacement, and the rest is filled on its own; inserted text is never rescanned |
| Fills.NamedFillLiteral | SmartStrings/SmartStringExtensions.cs:194-202 | text without `{` comes out of a named fill unchanged |
| Fills.BadNameKept | SmartStrings/SmartStringExtensions.cs:105 | a `{` whose word run ends in something other than `}` or `:`, or that has no name, starts no token and is kept as written |
| Fills.DictFillSplit | SmartStrings/SmartStringExtensions.cs:190-203 | the dictionary fill, token by token: a found, non-null, non-empty value, else the colon part or empty |
| Fills.ObjectFillSplit | SmartStrings/SmartStringExtensions.cs:309-342 | the object fill, token by token: a formattable value with a non-empty spec is formatted (the spec itself if formatting fails); any other found value gives its `ToString()`; a missing or null value gives the spec |
| Fills.ObjectFillEmptyGivesFallbacks | SmartStrings/SmartStringExtensions.cs:339-340 | with nothing to look up, every named token becomes its colon part or empty |
| Fills.ReplaceSameOutput | SmartStrings/SmartStringExtensions.cs:194-202 | two replacement rules that agree on every token of a template give the same output |
| Engine.ProjectProperties | SmartStrings/SmartStringExtensions.cs:254-258 | the projection loop builds the case-insensitive property dictionary |
| Engine.ProjectionLookup | SmartStrings/SmartStringExtensions.cs:254-258 | a property is found under any spelling of its name that differs only in case; of several matching properties, the last one counts |
| Engine.NullModelGivesFallbacks | SmartStrings/SmartStringExtensions.cs:244-245 | a null model turns every named token into its colon part or empty |
| Engine.ScalarModelFillsFirstToken | SmartStrings/SmartStringExtensions.cs:249-252 | a primitive, string or decimal model is the positional fill with its text as the one value |
| Engine.SmartStringExtensions.constructor | SmartStrings/SmartStringExtensions.cs:111 | the global options start as a fresh options record |
| Engine.SmartStringExtensions.ConfigureDefaults | SmartStrings/SmartStringExtensions.cs:117-120 | the given options become the global options; null resets them to the defaults |
| Engine.SmartStringExtensions.FillModel | SmartStrings/SmartStringExtensions.cs:239-262 | the model fill, read against the current global options |
| TemplateMaps.TemplateMap.constructor | SmartStrings/SmartStringExtensions.cs:358-361 | a new binder holds its source and no bindings |
| TemplateMaps.TemplateMap.Bind | SmartStrings/SmartStringExtensions.cs:369-372 | `Bind` stores the resolver's text for the source, overwriting an earlier binding of the key, and leaves every other key as it was |
| TemplateMaps.TemplateMap.Store | SmartStrings/SmartStringExtensions.cs:371 | a store into the binder's dictionary: the key reads exactly the stored value and every other key is unchanged |
| TemplateMaps.TemplateMap.Set | SmartStrings/SmartStringExtensions.cs:377-381 | the indexer setter stores exactly the given value and changes no other key |
| TemplateMaps.Replay | SmartStrings/SmartStringExtensions.cs:275 | running the caller's binder action leaves the bindings it assigned, in order, over the earlier ones |
| TemplateMaps.ExtractValues | SmartStrings/SmartStringExtensions.cs:288-302 | the extraction loop gives the properties' texts by name, ignoring case, and nothing for a null model |
| TemplateMaps.ExtractedValid | SmartStrings/SmartStringExtensions.cs:290-299 | the extracted dictionary ignores case and holds no two keys that match |
| TemplateMaps.FillWithMap | SmartStrings/SmartStringExtensions.cs:268-283 | the map fill: empty for a null or empty template, else the dictionary fill over the bindings merged over the extracted properties |
| TemplateMaps.MergedLookup | SmartStrings/SmartStringExtensions.cs:272-282 | a binding overrides every property whose name matches it ignoring case, the last matching binding winning; an unbound name reads the last matching property, and nothing for a null model |
| TemplateMaps.BindingsLookup | SmartStrings/SmartStringExtensions.cs:369-381 | each key reads the last `Bind` or indexer assignment made to it |
| Agreement.ExtractedIsTextOfProjection | SmartStrings/SmartStringExtensions.cs:254-299 | the map fill's extraction holds the texts of the object fill's projection, under the same keys |
| Agreement.ObjectAgreesWithDict | SmartStrings/SmartStringExtensions.cs:199-201 | for a token whose found value is not formatted and renders non-empty, the object rule and the dictionary rule give the same text |
| Agreement.EmptyTextDiverges | SmartStrings/SmartStringExtensions.cs:320-340 | a found value whose text is empty gives empty text in the object fill but the colon part in the dictionary fill |
| Agreement.MapFillAgreesWithModelFill | SmartStrings/SmartStringExtensions.cs:239-302 | on an object model with no bindings, the map fill equals the model fill whenever every token meets that condition |
| Scenarios.ShapeOneGeneric | SmartStrings/SmartStringExtensions.cs:172-177 | text without `{` then one generic token: the token takes the value at the counter, or stays |
| Scenarios.ShapeTwoGeneric | SmartStrings/SmartStringExtensions.cs:167-178 | two runs of text and a generic token: the tokens take the first two values, as far as they go |
| Scenarios.ShapeOneNamed | SmartStrings/SmartStringExtensions.cs:194-202 | text, one named token, text: only the token is replaced |
| Scenarios.ShapeTwoNamed | SmartStrings/SmartStringExtensions.cs:194-202 | two runs of text and a named token: only the tokens are replaced |
| Scenarios.ShapeThreeNamed | SmartStrings/SmartStringExtensions.cs:194-202 | three runs of text and a named token: only the tokens are replaced |
| Scenarios.DictShape | SmartStrings/SmartStringExtensions.cs:190-203 | the dictionary fill of text, one token, text |
| Scenarios.ObjectShape | SmartStrings/SmartStringExtensions.cs:309-342 | the object fill of text, one token, text |
| Scenarios.SingleProjection | SmartStrings/SmartStringExtensions.cs:254-258 | a single property is found under its own name |
| Scenarios.SingleBinding | SmartStrings/SmartStringExtensions.cs:268-283 | a single bound key reads its resolver's text, whatever the model's properties |
| Scenarios.ModelShape | SmartStrings/SmartStringExtensions.cs:239-262 | a model with one property named as the token: a non-formattable value gives its text, and a formattable one is formatted with the colon part |
| Scenarios.MapShape | SmartStrings/SmartStringExtensions.cs:268-283 | one binding of the token's name: the resolver's text, or the colon part when that text is null or empty |
| Scenarios.TwoEntries | SmartStrings.Tests/SmartStringExtensionsTests.cs:28-32 | each of two distinct keys reads its own value |
| Scenarios.MultipleValuesInOrder | SmartStrings.Tests/SmartStringExtensionsTests.cs:17-22 | `Hi {0}, welcome to {1}` with two values fills both in order |
| Scenarios.FewerValuesKeepToken | SmartStrings.Tests/SmartStringExtensionsTests.cs:108-114 | with one value, `{1}` stays as written |
| Scenarios.ExtraValuesIgnored | SmartStrings.Tests/SmartStringExtensionsTests.cs:99-105 | surplus values are ignored |
| Scenarios.DictionaryFillsNames | SmartStrings.Tests/SmartStringExtensionsTests.cs:25-36 | `{user}` and `{plan}` read their entries, for any texts |
| Scenarios.NullValueUsesFallback | SmartStrings.Tests/SmartStringExtensionsTests.cs:57-63 | a null dictionary value gives the fallback `Guest` |
| Scenarios.MissingKeyUsesFallback | SmartStrings.Tests/SmartStringExtensionsTests.cs:48-54 | a missing key gives the fallback `User` |
| Scenarios.NullObjectUsesFallbacks | SmartStrings.Tests/SmartStringExtensionsTests.cs:89-96 | a null model gives `Hello Guest, welcome!` |
| Scenarios.BracesInValueKept | SmartStrings.Tests/SmartStringExtensionsTests.cs:126-132 | an inserted value is kept as it is, braces included |
| Scenarios.StringIgnoresSpec | SmartStrings.Tests/SmartStringExtensionsTests.cs:174-180 | a string property ignores the colon part |
| Scenarios.SpecFormatsValue | SmartStrings.Tests/SmartStringExtensionsTests.cs:135-141 | a formattable property is formatted with `yyyy-MM-dd` in the resolved culture |
| Scenarios.ThreeNamesShape | SmartStrings/SmartStringExtensions.cs:190-203 | the dictionary fill of `{USERNAME}-{COMPANY}-{ID}` gives each token its own replacement and keeps the dashes |
| Scenarios.MergeBesideProperty | SmartStrings.Tests/TemplateMapTests.cs:19-41 | with `USERNAME` and `ID` bound beside the properties `Company` and `User`, the bound keys read their resolvers' texts and the unbound `COMPANY` reads the `Company` property, ignoring case |
| Scenarios.BindingsBesideProperty | SmartStrings.Tests/TemplateMapTests.cs:19-41 | `{USERNAME}-{COMPANY}-{ID}` fills from the two bindings and, for `{COMPANY}`, from the model's `Company` property |
| Scenarios.BindingOverridesProperty | SmartStrings.Tests/TemplateMapTests.cs:72-88 | a binding of `COMPANY` wins over whatever the model holds, including a `Company` property |
| Scenarios.NullBindingUsesFallback | SmartStrings.Tests/TemplateMapTests.cs:44-55 | a binding whose resolver gives null falls back to `Guest` |
| Scenarios.BindingOnScalarModel | SmartStrings.Tests/TemplateMapTests.cs:114-124 | a primitive model with a binding fills `{VAL}` with the resolver's text |

## Left out

- **Reflection.**
  - `GetProperties` and `GetValue` are not modelled.
  - The primitive / `string` / `decimal` test is not modelled either.
  - An object model arrives already flattened to its properties. A `scalar` flag says which branch the type test takes.
- **Formatting.**
  - `IFormattable.ToString(format, culture)` is a function carried by each formattable value. It either returns a text or fails.
  - Dates, numbers, currency symbols and locale data are not modelled.
  - A culture is known only by its name.
- **The thread's current culture** is a parameter of every fill that resolves a culture. It is not read from a thread.
- **The regular-expression engine** is replaced by two explicit scanners. These are leftmost and non-overlapping, which matches the match loop of `Regex.Replace`.
- **Property order.** An object model's properties come in the order reflection returns them, which .NET does not fix. When two property names differ only in case, that order decides which one the projection and the extraction read; the model takes the order as given.
- **Caller comparers.** `Dicts.Comparer` holds only the ordinal and the ordinal-ignore-case comparers. The dictionary fill looks keys up with whatever comparer the caller's dictionary carries, and a culture-aware or custom comparer cannot be represented.
- **Word characters and case.**
  - `\w` covers ASCII letters, digits and `_` only.
  - Case-insensitive comparison upper-cases ASCII letters only.
  - Unicode categories and culture-free case folding beyond ASCII are not modelled.
- Fills.FillOne: the value must hold no `$`. `Regex.Replace` reads its replacement as a pattern, where `$` introduces substitutions, and that substitution language is not modelled.
- Engine.ModelFill: a scalar model must likewise have a `$`-free text (`ScalarFits`), because it goes through the single-value fill.
- **Exceptions** the source would throw are not modelled:
  - a null `values` array in the positional fill;
  - a null dictionary;
  - a null key;
  - a binder action that throws.
- **Formatting failures.** Only a failing `ToString(format, culture)` is modelled, as the source catches it.
- **The binder action** is modelled as the list of `Bind` and indexer calls it makes on the binder, in order. Arbitrary code in the action is not modelled.
- **Thread safety.**
  - The static `GlobalOptions` is a field of a class that `ConfigureDefaults` replaces wholesale.
  - Concurrent access is not modelled.
  - Mutation of an options object after it is configured (the source keeps a reference) is not modelled.
- **The null-template result of the map fill** is `""` here, as the code returns `string.Empty`. This differs from the other fills, which return the template as given.
- **Not part of this model:**
  - The `TemplateString` class (SmartStrings/SmartStringExtensions.cs:22-98) only forwards to the extension methods.
  - `ServiceCollectionExtensions.cs` (dependency-injection registration, building a culture from its name) is not part of this model. Its only effect on the engine is a call to `ConfigureDefaults`.
  - The console demo `FormatSpecifierDemo.cs` is not part of this model.
- **Scenario values.** The scenarios keep the tests' templates. The tests' concrete model objects, dates and resolver lambdas become parameters with the properties the tests rely on, such as a resolver that returns the given text or null.
- **Tests on formatting output.** Tests whose expected output depends on .NET formatting data (currency, number grouping, month names) are not restated.
