# Layer settings: utilities and registry query contract

This project models the core of a Vulkan layer-settings library. A layer
exposes named, typed settings. A host application supplies their values
through a structure chain, environment variables or a settings file.
Two parts are modelled.

- **The settings utilities** of `src/layer/layer_settings_util.cpp`:
  - the walk over a `pNext` chain to the layer-settings structure;
  - the single-character tokenizer `Split`;
  - whitespace trimming and ASCII case conversion;
  - layer-key normalisation (`TrimPrefix`, `TrimVendor`);
  - the file and environment keys built from that normalisation, under three trim modes and per platform;
  - the choice of list delimiter;
  - the frameset parser for `first[-count[-step]]` tokens and lists of them;
  - the three regular-expression recognisers `IsFrameSets`, `IsInteger` and `IsFloat`.
- **The setting registry** behind `vlInitLayerSettings`, `vlHasLayerSetting` and `vlGetLayerSettingValues`, as `tests/layer/test_setting_api.cpp` pins it down. It is a store of entries by setting name. It answers presence queries and the two-call "query the size, then fill the buffer" value query.

Modules:

| module | file | contents |
|---|---|---|
| `Types` | types.dfy | `Option`, `uint32` and the cast to it, `Frameset`, the platform `Os`, `TrimMode` |
| `Chain` | chain.dfy | `FindSettingsInChain` over a chain given as a sequence of tagged nodes |
| `Tokenizer` | tokenizer.dfy | `Find`, the complete split `Fields`, `Split` and its result `Tokens`, `Join` |
| `Text` | text.dfy | `TrimWhitespace`, `ToLower`, `ToUpper` |
| `Names` | names.dfy | `TrimPrefix`, `TrimVendor`, `GetFileSettingName`, `GetEnvSettingName` |
| `Grammar` | grammar.dfy | `IsFrameSets`, `IsInteger`, `IsFloat` as recognisers of their grammars |
| `Framesets` | framesets.dfy | `GetEnvDelimiter`, `FindDelimiter`, `std::atoll`, `ToFrameSet`, `ToFrameSets` |
| `Registry` | registry.dfy | `SettingRegistry` with `Init`, `HasSetting` and `GetValues`, and the test scenarios |

Modelling choices:

- The `#if defined(__ANDROID__)` and `#ifdef WIN32` branches become an `Os` parameter.
- `std::string::npos` becomes the string length, or -1 for the backward search.
- `Split`, `ToLower`/`ToUpper`, `ToFrameSets` and `FindSettingsInChain` are methods with the source's loops. Their results are tied to functions: `Tokens`, `LowerCase`/`UpperCase`, `FrameSetsValue` and `FirstSettings`.
- The registry is a class with a map field. `GetValues` writes a prefix of a caller-owned array.
- The debug-build `assert`s are not preconditions: the model follows release builds.
  - The assertion in `TrimWhitespace` is proved to hold.
  - The assertion in `TrimVendor` is characterised by `Names.VendorAssertionMeaning`.
  - `ToFrameSet` is total. Its results on strings the grammar accepts are given by `Framesets.ToFrameSetOfGroup`.
- A present `count` or `step` field of a frameset token is taken as written, so `"5-0"` parses with count 0 (`Framesets.ToFrameSetZeroCount`). Nothing raises it to 1.

## Model

| member | source | states |
|---|---|---|
| Chain.FirstSettingsFrom | src/layer/layer_settings_util.cpp:30-42 | the result is the first layer-settings node at or after the start, with no such node before it; `None` exactly when no later node has the tag |
| Chain.FindSettingsInChain | src/layer/layer_settings_util.cpp:30-42 | the loop that stops by clearing its cursor returns the first layer-settings node of the chain, head included, or `None` |
| Chain.FirstSettingsIgnoresRest | src/layer/layer_settings_util.cpp:33-39 | once a layer-settings node is found, whatever follows it in the chain has no influence |
| Chain.FirstSettingsAfterOther | src/layer/layer_settings_util.cpp:37-38 | a leading node with another tag is skipped: the result shifts by one position |
| Tokenizer.Find | src/layer/layer_settings_util.cpp:50 | `std::string::find`: the first index at or after the start holding the delimiter, or the length when there is none |
| Tokenizer.Fields | src/layer/layer_settings_util.cpp:44-63 | the complete split has at least one field |
| Tokenizer.Split | src/layer/layer_settings_util.cpp:44-63 | the `while` loop over `start`/`end` and the final `last` returns exactly `Tokens`: the fields without an empty final one |
| Tokenizer.SplitStep | src/layer/layer_settings_util.cpp:51-55 | one loop turn moves the field up to the next delimiter into the result and keeps the rest of the split intact |
| Tokenizer.SplitLast | src/layer/layer_settings_util.cpp:57-60 | after the loop, the remainder is the last field and is appended only when non-empty |
| Tokenizer.FieldsFrom | src/layer/layer_settings_util.cpp:50-54 | the split of a suffix unfolds at its next delimiter |
| Tokenizer.FindShift | src/layer/layer_settings_util.cpp:54 | searching from a position is searching the suffix that starts there |
| Tokenizer.FieldsNoDelimiter | src/layer/layer_settings_util.cpp:44-63 | no field contains the delimiter |
| Tokenizer.TokensNoDelimiter | src/layer/layer_settings_util.cpp:44-63 | no token of `Split` contains the delimiter |
| Tokenizer.FirstFieldStart | src/layer/layer_settings_util.cpp:49-52 | the first field is empty exactly when the string is empty or starts with the delimiter, and otherwise starts with the string's first character |
| Tokenizer.FieldsCharAt | src/layer/layer_settings_util.cpp:44-63 | every character other than the delimiter appears in some field |
| Tokenizer.JoinFields | src/layer/layer_settings_util.cpp:44-63 | joining the fields with the delimiter gives back the input |
| Tokenizer.FieldsOfJoin | src/layer/layer_settings_util.cpp:44-63 | splitting a join of delimiter-free parts gives the parts back: the split is the only delimiter-free decomposition |
| Tokenizer.FieldsCons | src/layer/layer_settings_util.cpp:50-53 | a delimiter-free field followed by the delimiter is split off first |
| Tokenizer.LastFieldEmpty | src/layer/layer_settings_util.cpp:57-60 | the last field is empty exactly when the input is empty or ends with the delimiter |
| Tokenizer.JoinSnoc | src/layer/layer_settings_util.cpp:44-63 | joining with one more part appends the delimiter and that part |
| Tokenizer.TokensJoin | src/layer/layer_settings_util.cpp:44-63 | joining the tokens gives back the input, short of one trailing delimiter when the input ends with it |
| Tokenizer.TokensJoinTrailing | src/layer/layer_settings_util.cpp:57-60 | on input ending with the delimiter, the tokens joined plus that delimiter give back the input |
| Tokenizer.Tokens | src/layer/layer_settings_util.cpp:44-63 | the result of `Split` is the complete split, or the complete split without its last field; it drops that field exactly when it is empty |
| Tokenizer.TokensOfJoin | src/layer/layer_settings_util.cpp:44-63 | splitting a join of delimiter-free parts whose last part is non-empty gives the parts back |
| Tokenizer.SplitKeepsInteriorEmpty | src/layer/layer_settings_util.cpp:51-52 | `"a,,b"` splits into `"a"`, `""`, `"b"`: interior empty fields are kept |
| Tokenizer.SplitDropsTrailingEmpty | src/layer/layer_settings_util.cpp:57-60 | `"a,b,"` splits into `"a"`, `"b"` |
| Tokenizer.SplitLoneDelimiter | src/layer/layer_settings_util.cpp:57-60 | `","` splits into one empty token |
| Tokenizer.SplitEmpty | src/layer/layer_settings_util.cpp:57-60 | the empty string has no tokens |
| Text.FirstNotWhitespace | src/layer/layer_settings_util.cpp:136 | `find_first_not_of`: the first non-whitespace index, everything before it whitespace, or the length |
| Text.LastNotWhitespace | src/layer/layer_settings_util.cpp:139 | `find_last_not_of`: the last non-whitespace index, everything after it whitespace, or -1 |
| Text.TrimWhitespace | src/layer/layer_settings_util.cpp:133-143 | the result is empty exactly when the input is all whitespace, and otherwise neither starts nor ends with whitespace |
| Text.TrimWhitespaceSplits | src/layer/layer_settings_util.cpp:133-143 | the result is a contiguous part of the input, and what is cut off on either side is whitespace |
| Text.TrimWhitespaceParts | src/layer/layer_settings_util.cpp:136-142 | the two searches bracket the result, with the first not after the last, which is the assertion of line 140 |
| Text.TrimWhitespacePadded | src/layer/layer_settings_util.cpp:133-143 | whitespace around a string with no whitespace at either end is exactly what trimming removes |
| Text.TrimWhitespaceIdempotent | src/layer/layer_settings_util.cpp:133-143 | trimming twice is trimming once |
| Text.LowerCaseAt | src/layer/layer_settings_util.cpp:170-176 | lower-casing keeps the length and maps each character on its own |
| Text.UpperCaseAt | src/layer/layer_settings_util.cpp:178-184 | upper-casing keeps the length and maps each character on its own |
| Text.LowerCaseAppend | src/layer/layer_settings_util.cpp:170-176 | lower-casing distributes over concatenation |
| Text.UpperCaseAppend | src/layer/layer_settings_util.cpp:178-184 | upper-casing distributes over concatenation |
| Text.LowerCaseIdempotent | src/layer/layer_settings_util.cpp:170-176 | lower-casing is idempotent |
| Text.UpperCaseIdempotent | src/layer/layer_settings_util.cpp:178-184 | upper-casing is idempotent |
| Text.CaseAbsorbs | src/layer/layer_settings_util.cpp:170-184 | lower-casing after upper-casing is lower-casing, and the other way round |
| Text.LowerCase | src/layer/layer_settings_util.cpp:170-176 | lower-casing keeps the length and leaves no upper-case ASCII letter |
| Text.UpperCase | src/layer/layer_settings_util.cpp:178-184 | upper-casing keeps the length and leaves no lower-case ASCII letter |
| Text.ToLower | src/layer/layer_settings_util.cpp:170-176 | the in-place loop over a copy of the string yields `LowerCase` of the input |
| Text.ToUpper | src/layer/layer_settings_util.cpp:178-184 | the in-place loop over a copy of the string yields `UpperCase` of the input |
| Names.TrimPrefix | src/layer/layer_settings_util.cpp:145-154 | a key starting with `"VK_LAYER_"` is that prefix followed by the result, and any other key comes back unchanged |
| Names.TrimPrefixOnce | src/layer/layer_settings_util.cpp:145-154 | the prefix is removed once: a doubled prefix keeps its second copy |
| Names.TrimPrefixOther | src/layer/layer_settings_util.cpp:145-168 | a key without the prefix is unchanged, and vendor trimming treats it as if it had the prefix |
| Names.TrimVendor | src/layer/layer_settings_util.cpp:156-168 | with a `'_'` after prefix trimming, the result is what follows the first `'_'`; without one, the prefix-stripped key |
| Names.TrimVendorSegment | src/layer/layer_settings_util.cpp:156-168 | `"VK_LAYER_<vendor>_<rest>"` with a `'_'`-free vendor gives `<rest>` |
| Names.TrimVendorNoSeparator | src/layer/layer_settings_util.cpp:161-162 | without a `'_'` after the prefix, the key is returned whole |
| Names.VendorAssertionMeaning | src/layer/layer_settings_util.cpp:164-165 | the debug assertion holds exactly when the vendor-trimmed key holds a character other than `'_'` |
| Names.GetFileSettingName | src/layer/layer_settings_util.cpp:65-73 | the file key is a lower-case part, a `'.'`, then the setting name as given |
| Names.FileSettingNameOfPrefixed | src/layer/layer_settings_util.cpp:65-73 | the file key of a prefixed layer name is the lower-cased rest, `'.'`, the setting name, whatever the case of the layer name |
| Names.EnvSettingNameUpper | src/layer/layer_settings_util.cpp:95-110 | off Android, every trim mode gives a key that starts with `"VK_"` and is entirely upper case |
| Names.GetEnvSettingName | src/layer/layer_settings_util.cpp:75-113 | on Android the key starts with `"debug.vulkan."` and ends with the setting key in its own case; elsewhere it starts with `"VK_"` and ends with the upper-cased setting key; both under every trim mode |
| Names.AndroidFileKey | src/layer/layer_settings_util.cpp:80-86 | `"debug.vulkan."` followed by a file key ends with the setting key |
| Names.EnvSettingNameNamespace | src/layer/layer_settings_util.cpp:88-106 | under namespace trimming the key does not depend on the layer: `"debug.vulkan."` + setting key on Android, `"VK_"` + upper-cased setting key elsewhere |
| Grammar.FirstNonDigit | src/layer/layer_settings_util.cpp:217-233 | the first non-digit at or after a position, every character before it a digit |
| Grammar.IsFrameSets | src/layer/layer_settings_util.cpp:217-221 | a string is accepted exactly when its `','`-separated groups are one or more groups of one to three `'-'`-separated digit runs |
| Grammar.FrameSetsTextAccepted | src/layer/layer_settings_util.cpp:217-221 | every string the frameset grammar generates is accepted, and reads back as the groups it was made of |
| Grammar.FrameSetsAcceptedIsText | src/layer/layer_settings_util.cpp:217-221 | every accepted string is generated by the grammar from its own groups |
| Grammar.FrameSetsTextTokens | src/layer/layer_settings_util.cpp:205-221 | `Split` at `','` of a generated string gives its groups written out |
| Grammar.GroupTextHasNoComma | src/layer/layer_settings_util.cpp:218 | a group written from digit runs holds no `','` |
| Grammar.DigitRunsHaveNoSeparator | src/layer/layer_settings_util.cpp:218 | digit runs hold none of the separators |
| Grammar.FrameSetsRejectsEmpty | src/layer/layer_settings_util.cpp:217-221 | the empty string is rejected |
| Grammar.FrameSetsRejectsTrailingComma | src/layer/layer_settings_util.cpp:217-221 | a string ending in `','` is rejected |
| Grammar.FrameSetsRejectsLongGroup | src/layer/layer_settings_util.cpp:217-221 | a comma-free group of four or more `'-'`-separated fields is rejected |
| Grammar.FrameSetsStartsWithDigit | src/layer/layer_settings_util.cpp:217-221 | an accepted list is non-empty and starts with a digit |
| Grammar.FrameSetsAcceptsExample | src/layer/layer_settings_util.cpp:217-221 | `"1-2,3-4-5"` is accepted |
| Grammar.FrameSetsRejectsExample | src/layer/layer_settings_util.cpp:217-221 | `"abc"` is rejected |
| Grammar.IsIntegerAcceptsBar | src/layer/layer_settings_util.cpp:223-227 | the class `[0-9\|a-z\|A-Z]` as written lets `"0x\|"` through, which the intended class rejects |
| Grammar.IsInteger | src/layer/layer_settings_util.cpp:223-227 | an accepted string holds only characters of the class as written (digits, letters, `'\|'`), apart from a leading `'-'` |
| Grammar.IsIntegerIntended | src/layer/layer_settings_util.cpp:223-227 | the corrected check accepts only digits and letters after an optional leading `'-'` |
| Grammar.IsIntegerIntendedSound | src/layer/layer_settings_util.cpp:223-227 | everything the corrected check accepts, the check as written accepts too |
| Grammar.IsIntegerDecimal | src/layer/layer_settings_util.cpp:223-227 | `""`, `"-"` and any digit run with or without a leading `'-'` are accepted |
| Grammar.IsIntegerHex | src/layer/layer_settings_util.cpp:223-227 | `"0x"` followed by digits and letters is accepted, with or without a leading `'-'` |
| Grammar.IsIntegerRejects | src/layer/layer_settings_util.cpp:223-227 | a `'-'` anywhere but first is rejected |
| Grammar.IsFloat | src/layer/layer_settings_util.cpp:229-233 | an accepted string holds only digits, `'.'` and `'f'`, apart from a leading `'-'` |
| Grammar.IsFloatShape | src/layer/layer_settings_util.cpp:229-233 | every accepted string is an optional `'-'`, digits, and optionally a `'.'` followed by digits and an optional `'f'` |
| Grammar.IsFloatSuffix | src/layer/layer_settings_util.cpp:229-233 | an `'f'` without a `'.'` is rejected, and an accepted `'f'` is the last character |
| Grammar.IsFloatWhole | src/layer/layer_settings_util.cpp:229-233 | digits, optionally after `'-'`, are accepted |
| Grammar.IsFloatSigned | src/layer/layer_settings_util.cpp:229-233 | a leading `'-'` is skipped before the rest is checked |
| Grammar.IsFloatFractionUnsigned | src/layer/layer_settings_util.cpp:229-233 | digits, `'.'`, digits and an optional `'f'` are accepted |
| Grammar.IsFloatFraction | src/layer/layer_settings_util.cpp:229-233 | the same, optionally after `'-'` |
| Grammar.DecimalIsIntegerAndFloat | src/layer/layer_settings_util.cpp:223-233 | plain decimal integers are accepted by both `IsInteger` and `IsFloat` |
| Framesets.GetEnvDelimiter | src/layer/layer_settings_util.cpp:115-121 | `';'` exactly on Windows, `':'` elsewhere |
| Framesets.FindDelimiter | src/layer/layer_settings_util.cpp:123-131 | `','` whenever the string holds one; otherwise the environment delimiter when the string holds that; otherwise `','`; a non-`','` result always occurs in the string |
| Framesets.DecimalString | src/layer/layer_settings_util.cpp:193-199 | the numeral of a number is a non-empty digit run whose decimal value is that number |
| Framesets.Atoll | src/layer/layer_settings_util.cpp:193-199 | a negative value is read only after a leading `'-'` past the whitespace |
| Framesets.AtollReads | src/layer/layer_settings_util.cpp:193-199 | `std::atoll` skips whitespace, reads an optional sign and the digits that follow, and stops at the first non-digit |
| Framesets.AtollDigits | src/layer/layer_settings_util.cpp:193-199 | `std::atoll` of a digit run is its decimal value, and of the empty string 0 |
| Framesets.LeadingValueReads | src/layer/layer_settings_util.cpp:193-199 | the digits read stop at the first non-digit |
| Framesets.SkipWhitespace | src/layer/layer_settings_util.cpp:193-199 | leading whitespace is skipped |
| Framesets.SignedValueReads | src/layer/layer_settings_util.cpp:193-199 | a leading `'-'` negates the digits read, and a `'+'` is skipped |
| Framesets.ToFrameSet | src/layer/layer_settings_util.cpp:186-203 | a missing first field reads as 0, and a missing count or step as 1 |
| Framesets.ToFrameSetOfGroup | src/layer/layer_settings_util.cpp:186-203 | a group of one to three digit runs parses as its values taken mod 2^32, with a missing count or step at 1 |
| Framesets.FramesetRuns | src/layer/layer_settings_util.cpp:186-203 | a frameset is written as three digit runs |
| Framesets.FramesetStringRoundTrip | src/layer/layer_settings_util.cpp:186-221 | every frameset written as `first-count-step` is an accepted group that `ToFrameSet` reads back as itself |
| Framesets.ToFrameSetFull | src/layer/layer_settings_util.cpp:186-203 | `"76-100-10"` parses as {76, 100, 10} |
| Framesets.ToFrameSetFirstOnly | src/layer/layer_settings_util.cpp:189-194 | `"5"` parses as {5, 1, 1}: count and step keep their default |
| Framesets.ToFrameSetZeroCount | src/layer/layer_settings_util.cpp:195-197 | `"5-0"` parses with count 0: a present field is taken as written |
| Framesets.ToFrameSetZeroStep | src/layer/layer_settings_util.cpp:198-200 | `"5-1-0"` parses with step 0 |
| Framesets.ToFrameSetPermissive | src/layer/layer_settings_util.cpp:189-200 | `""` and `"x"` parse as the defaults {0, 1, 1} |
| Framesets.ToFrameSets | src/layer/layer_settings_util.cpp:205-215 | the indexed loop over a vector sized to the token count yields one frameset per token of the delimiter split, in token order |
| Framesets.FrameSetsValueEmpty | src/layer/layer_settings_util.cpp:205-215 | the empty string yields no frameset |
| Framesets.FramesetsStringRoundTrip | src/layer/layer_settings_util.cpp:205-221 | every non-empty list of framesets written with `','` between them is accepted and parses back as the list, on every platform |
| Framesets.FrameSetsValueOfAccepted | src/layer/layer_settings_util.cpp:205-221 | on an accepted string, the parse gives one frameset per group, in order, each the value of that group's digit runs |
| Framesets.DelimiterOfFrameSets | src/layer/layer_settings_util.cpp:123-131 | an accepted list is always split at `','` |
| Framesets.FrameSetsChars | src/layer/layer_settings_util.cpp:218 | an accepted list holds only digits, `'-'` and `','` |
| Registry.Ingest | tests/layer/test_setting_api.cpp:139-149 | a name is stored exactly when some supplied entry has it, and is stored under its own name |
| Registry.IngestLastWins | tests/layer/test_setting_api.cpp:139-149 | the entry stored for a name is the last supplied entry with that name |
| Registry.IngestKeepsEntries | tests/layer/test_setting_api.cpp:512-575 | every stored entry is one of the supplied entries with its values untouched |
| Registry.SettingRegistry.constructor | tests/layer/test_setting_api.cpp:26-30 | a fresh registry holds no setting |
| Registry.SettingRegistry.Init | tests/layer/test_setting_api.cpp:26-149 | initialisation replaces the contents with the supplied entries, or with none when there is no create info |
| Registry.SettingRegistry.HasSetting | tests/layer/test_setting_api.cpp:26-53 | true exactly when an entry of that name is stored |
| Registry.SettingRegistry.GetValues | tests/layer/test_setting_api.cpp:177-196 | without a buffer: `Success` and the stored count. With one: min(incoming, stored) values copied in order, the slots past them unchanged, and `Incomplete` exactly when the incoming count is smaller than the stored count |
| Registry.NotFoundAfterEmptyInit | tests/layer/test_setting_api.cpp:26-30 | after initialising without a create info, no name is present |
| Registry.PresenceAfterInit | tests/layer/test_setting_api.cpp:56-149 | each of the eight supplied names is present and `"setting0"` is not |
| Registry.Int32Queries | tests/layer/test_setting_api.cpp:224-243 | the size query gives 2. The fill of one gives `Incomplete`, 76 and an untouched 0. The fill of two gives `Success` and 76, -82 |
| Registry.BoolQueries | tests/layer/test_setting_api.cpp:177-196 | the size query gives 2. The fill of one gives `Incomplete` with the second slot still false. The fill of two gives `Success` and true, false |
| Registry.FramesetQueries | tests/layer/test_setting_api.cpp:512-528 | framesets are copied with all three fields, in order |
| Registry.StringQueries | tests/layer/test_setting_api.cpp:564-575 | strings come back in order, and the slot past a truncated fill stays null |
| Registry.MismatchedTypeQuery | tests/layer/test_setting_api.cpp:373-377 | a 64-bit setting queried as 32-bit still yields `Incomplete` and 76 |
| Types.Truncate32 | src/layer/layer_settings_util.cpp:193-199 | `static_cast<std::uint32_t>` keeps the value mod 2^32 and leaves values already in range unchanged |

## Left out

- `Format` (src/layer/layer_settings_util.cpp:235-249) formats through variadic `vsnprintf` into a stack buffer. It is a call into the C library and is not modelled.
- The `std::regex` engine is not modelled. The three recognisers are hand-written predicates for the grammars their patterns denote.
- `FindSettingsInChain`:
  - the pointer casts and `pNext` links are not modelled; the chain is a finite sequence of tagged nodes, so cyclic chains are out of scope;
  - the result is the index of the node found, not a pointer to it;
  - the contents of the found structure are not modelled.
- `std::tolower`/`std::toupper` behaviour outside the "C" locale is not modelled: only ASCII letters change case, and characters are Dafny `char`s rather than signed bytes.
- Framesets.Atoll: the decimal value is unbounded. Behaviour beyond the `long long` range is undefined in C++ and is not modelled. The cast to 32 bits is modelled as the value mod 2^32.
- Names.TrimVendor: the debug-build assertion is not a precondition. `Names.VendorAssertionMeaning` states when it holds.
- Framesets.ToFrameSet: the debug-build `assert(IsFrameSets(s))` is not a precondition. The parse is total, as in release builds.
- Names.GetEnvSettingName: the `default:` label of the trim-mode switch is unreachable, because the model's `TrimMode` has exactly the three named modes.
- Registry.SettingRegistry.GetValues: the declared type is not checked against the stored type, and no type conversion happens. The tests never assert a mismatch result, and one test queries a 64-bit setting as 32-bit.
- Registry.SettingRegistry.GetValues: counts are unbounded `nat`s rather than `uint32_t`, and the caller's buffer is required to hold the incoming count, as the C API assumes.
- Registry.SettingRegistry.GetValues: a name with no stored entry gives `NotFound` with the count and the buffer untouched. This is the model's own choice: the query's implementation is not part of this model, and no test shown queries an unknown name.
- Registry.Ingest: of several entries with the same name, the later one is kept (`Registry.IngestLastWins`). This is the model's own choice: no test shown supplies two entries with one name.
- Registry.PresenceAfterInit: one `SettingRegistry<T>` holds a single element type, so the test's mix of booleans, integers, floats, doubles and a frameset shares one element type in the model. The float, double and frameset entries carry a placeholder integer, which presence queries never read.
- Registry.SettingRegistry.Init: entries are indexed by setting name only. Their layer name is kept but not used to filter, because the implementation is not part of this model and the tests only ever use one layer.
- Float and double settings are not modelled by separate scenarios. The registry is generic over the element type and no floating-point arithmetic is modelled.
- Not modelled, as I/O or global plumbing:
  - reading environment variables and settings files;
  - the logging callback of `vlInitLayerSettings`;
  - the process-wide registry behind the `vl*` functions.

## Findings

| source | as written | input that shows it | evidently intended | confidence | as-written member | corrected member |
|---|---|---|---|---|---|---|
| src/layer/layer_settings_util.cpp:224 | the class `[0-9\|a-z\|A-Z]` also admits the character `'\|'` | `"0x\|"` is accepted as an integer | the class `[0-9a-zA-Z]`: only digits and letters after `"0x"`; the corrected check accepts nothing but digits and letters after an optional `'-'`, and a subset of what the original accepts (`Grammar.IsIntegerIntendedSound`) | medium, not executed | Grammar.IsIntegerAcceptsBar | Grammar.IsIntegerIntended |
