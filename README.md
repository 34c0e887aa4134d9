# A verified model of the WebVTT parser core

This project models the core of `swift-webvtt-parser`, a parser and printer for
WebVTT subtitle files (W3C "WebVTT: The Web Video Text Tracks Format", section 4).
It covers five parts of the library:

- **Entity codec** (`EntityCoder`, module `Entities`). Decoding is a loop that scans for
  `&…;` spans and resolves decimal, hexadecimal and named character references, as in
  section 13.5 of the WHATWG HTML Living Standard. Encoding is six ordered replacement passes.
  - The named-reference table is a parameter of type `map<string, string>`.
  - `DecodeTable` chooses between a loaded table and the six-entry fallback.
- **Order-preserving de-duplication** (`uniqued()` and `uniqued(by:)`, module `Sequences`).
  Both are loop methods, proved equal to the pure functions `Unique` and `UniqueBy`.
- **The data model** (module `WebVTT`).
  - The `WebVTT.swift` value types.
  - The integer part of `Time(interval:)`, with Swift's truncating `/` and `%` written out.
  - The two- or three-group time constructor.
  - The de-duplicating `Region` and `CueMetadata` initialisers, and the default header.
- **The line grammars of `WebVTTParser.swift`**:
  - `TimeCodec`: `TimeParser` and `TimingParser`;
  - `Settings` and `SettingsRoundTrip`: the cue and region setting grammars in their priority order, and `SettingsParser.print`;
  - `HeaderCodec`: `HeaderMetadataParser`;
  - `CueMetadataCodec`: the identifier-or-timing rule of `CueMetadataParser`, and its printer;
  - `Text`: `TextParser`.

  The printers prepend into a buffer step by step. They are loop or straight-line methods, each proved equal to a text function. Parsers are functions that return the value and the rest of the input.
- **The cue payload engine** (`CuePayloadBuilder`, module `CuePayloadCodec`).
  - The recursive printer.
  - The parser's selection rule:
    - every builder is asked for its first match;
    - any builder that throws makes the parse throw;
    - the smallest start wins, and a tie goes to the earlier builder;
    - the text before and after the winner is parsed again.
  - Each builder's regular expression is an abstract matcher, `Regex`, constrained by `IsRegex`. `IsRegex` requires:
    - the builder's opening tag, up to case;
    - its closing tag, or the end of the text for a voice;
    - the timestamp shape and extent;
    - reluctant (shortest) inner text.
  - `BoldOnly` is a concrete matcher for class-less `<b>…</b>` that satisfies `IsRegex`. A full print/parse round trip is proved with it.

Shared lexical pieces are in module `Lexical`:
- character classes;
- `%0Nd`-style formatting;
- `Int.parser()`;
- literal matching;
- splitting, joining and trimming.

## Model

| member | source | states |
|---|---|---|
| Entities.DecodeTable | Sources/Utils/EntityEncoder.swift:22-30 | a loaded table is used as is; otherwise the table has exactly the six required entries |
| Entities.ParseUInt32 | Sources/Utils/EntityEncoder.swift:34 | a number that `UInt32(_, radix:)` accepts is at most 2^32-1 |
| Entities.DecodeNumeric | Sources/Utils/EntityEncoder.swift:33-36 | a numeric reference decodes to the one character whose code `UInt32(text, radix:)` reads, and to nothing exactly when that read fails or the code is no Unicode scalar value |
| Entities.Inner | Sources/Utils/EntityEncoder.swift:40-42 | `dropFirst(n).dropLast()` keeps the characters between the prefix and the final `;`, and is empty on a short span |
| Entities.NumericDecodes | Sources/Utils/EntityEncoder.swift:33-36 | unsigned digits of any radix that read as `v` decode to the character with code `v`, and to nothing exactly when `v` is no Unicode scalar value (a surrogate, or past U+10FFFF) |
| Entities.DecimalNumericDecodes | Sources/Utils/EntityEncoder.swift:33-36 | the decimal text of every number decodes to the character with that code exactly when it is a Unicode scalar value, and to nothing otherwise |
| Entities.DecimalEntityDecodes | Sources/Utils/EntityEncoder.swift:38-46 | `&#` with the decimal text of every number and `;` is read as decimal and decodes to that code's character exactly when it is a Unicode scalar value |
| Entities.Decode | Sources/Utils/EntityEncoder.swift:32-66 | the scan loop returns exactly `DecodeText`, the left-to-right span-by-span decoding |
| Entities.DecodeRound | Sources/Utils/EntityEncoder.swift:51-62 | one loop round either advances the position while preserving the final result, or ends the loop with the final result |
| Entities.DecodeLoopDecodes | Sources/Utils/EntityEncoder.swift:51-63 | the accumulator-style loop equals the recursive decoding of the remaining input appended to what was already produced |
| Entities.Encode | Sources/Utils/EntityEncoder.swift:68-79 | the six replacement passes return exactly `EscapeText`, the per-character escaping |
| Entities.SequentialPassesEscape | Sources/Utils/EntityEncoder.swift:13-20 | because `&` is replaced first, the six ordered passes equal escaping each character once: no escape is escaped again |
| Entities.ReplaceAll | Sources/Utils/EntityEncoder.swift:71-75 | a replacement pass leaves a string without the character unchanged |
| Entities.EscapeTextIsSafe | Sources/Utils/EntityEncoder.swift:68-79 | of the six escaped characters, encoded text holds only `&`: no `<`, `>`, U+00A0, U+200E or U+200F |
| Entities.EscapeTextIdentity | Sources/Utils/EntityEncoder.swift:68-79 | a string holding none of the six characters is encoded unchanged |
| Entities.EscapeTextAppend | Sources/Utils/EntityEncoder.swift:68-79 | encoding distributes over concatenation |
| Entities.EscapeTextNonEmpty | Sources/Utils/EntityEncoder.swift:68-79 | encoding never shortens a string, and keeps a non-empty string non-empty |
| Entities.DecodeWithoutAmpersand | Sources/Utils/EntityEncoder.swift:51-63 | a string with no `&` decodes to itself |
| Entities.DecodeUnterminated | Sources/Utils/EntityEncoder.swift:54-63 | from an `&` with no later `;`, the rest of the input is copied verbatim |
| Entities.DecodeUnknownSpan | Sources/Utils/EntityEncoder.swift:55-61 | an `&…;` span that does not resolve is copied unchanged, and scanning resumes after its `;` |
| Entities.DecimalReference | Sources/Utils/EntityEncoder.swift:41-42 | `&#169;` is read as decimal and gives U+00A9 |
| Entities.HexReference | Sources/Utils/EntityEncoder.swift:39-40 | `&#X3e9;` is read as hexadecimal, with either case of `x`, and gives U+03E9 |
| Entities.SurrogateReferenceKept | Sources/Utils/EntityEncoder.swift:34 | a number that is not a Unicode scalar (U+D800) does not resolve |
| Entities.MalformedReferencesKept | Sources/Utils/EntityEncoder.swift:33-42 | `&#;` and `&#-1;` do not resolve |
| Entities.DecodeToken | Sources/Utils/EntityEncoder.swift:4-20 | with the six required entries, each escape decodes back to its character |
| Entities.DecodeEscapeText | Sources/Utils/EntityEncoder.swift:4-79 | `decode(encode(s)) == s` for every string, given a table that agrees with the six required entries |
| Sequences.Uniqued | Sources/Extensions/Sequence.swift:2-5 | the filter loop returns `Unique(s)`; it has no duplicates and the same elements as the input |
| Sequences.UniqueNoDuplicates | Sources/Extensions/Sequence.swift:2-5 | `Unique(s)` has no duplicates and the same element set as `s` |
| Sequences.UniqueKeepsFirstOccurrences | Sources/Extensions/Sequence.swift:3-4 | the result is the input at strictly increasing positions, and these are exactly the first occurrences of each value |
| Sequences.UniqueOfDistinct | Sources/Extensions/Sequence.swift:2-5 | a sequence without duplicates is returned unchanged |
| Sequences.UniqueIdempotent | Sources/Extensions/Sequence.swift:2-5 | de-duplicating twice is the same as once |
| Sequences.UniquedBy | Sources/Extensions/Sequence.swift:9-12 | the filter loop returns `UniqueBy(s, key)`, whose keys have no duplicates |
| Sequences.UniqueByKeys | Sources/Extensions/Sequence.swift:9-12 | the keys of the result are the de-duplicated keys of the input |
| Sequences.UniqueBySelectsFirstPerKey | Sources/Extensions/Sequence.swift:9-12 | the result is, in input order, the first element for each distinct key |
| Sequences.UniqueIsUniqueByIdentity | Sources/Extensions/Sequence.swift:2-12 | `uniqued()` is `uniqued(by:)` with the identity key |
| WebVTT.Rem | Sources/WebVTT.swift:215-222 | Swift's `%` is truncated: it satisfies `a == q*b + r`, and the remainder takes the sign of `a` |
| WebVTT.TimeFromMilliseconds | Sources/WebVTT.swift:208-229 | the decomposition sums back to the input, is normalised (minutes and seconds are less than 60 and milliseconds less than 1000 in magnitude), and every field has the sign of the input |
| WebVTT.TimeFromTotal | Sources/WebVTT.swift:208-229 | decomposing the total of a normalised time gives the same time back |
| WebVTT.NormalizedUnique | Sources/WebVTT.swift:208-229 | two normalised times with the same total are equal |
| WebVTT.TimeFromGroups | Sources/WebVTT.swift:232-238 | with a third group the fields are hours, minutes and seconds; without one, hours are 0. Values are stored raw |
| WebVTT.NewCueMetadata | Sources/WebVTT.swift:154-158 | settings are de-duplicated as `uniqued()` does, keeping first occurrences in input order: the same elements, no repeats, unchanged when already distinct; identifier and timing are stored as given |
| WebVTT.NewRegion | Sources/WebVTT.swift:86-88 | region settings are de-duplicated as `uniqued()` does, keeping first occurrences in input order: the same elements, no repeats, unchanged when already distinct |
| WebVTT.NewDocument | Sources/WebVTT.swift:7-10 | `WebVTT(elements:)` uses the default header (no text, no metadata) and keeps the elements |
| Lexical.ParseInt | Sources/WebVTTParser.swift:344 | `Int.parser()` consumes a non-empty prefix and leaves a suffix of its input |
| Lexical.ParseFormattedInt | Sources/WebVTTParser.swift:344-365 | any 64-bit integer printed with `%0Nd` reads back as itself when a non-digit follows |
| Lexical.ValueOfZeroPad | Sources/WebVTTParser.swift:359-365 | zero padding does not change a number's value |
| Lexical.SplitJoin | Sources/WebVTTParser.swift:65-71 | splitting on a separator undoes joining with it, when no part holds a separator |
| Text.PrefixUpTo | Sources/WebVTTParser.swift:390-394 | the prefix stops at the first run of `count` terminators, or takes the whole input |
| Text.ReadText | Sources/WebVTTParser.swift:389-399 | the consuming parse returns `ParseText`, and what remains is a suffix of the input |
| Text.PrintText | Sources/WebVTTParser.swift:401-403 | printing prepends the entity-encoding of the text |
| Text.TextRoundTrip | Sources/WebVTTParser.swift:389-403 | encoded text followed by a terminator reads back as the original text, with the terminator left in the input |
| TimeCodec.SkipTimeSpace | Sources/WebVTTParser.swift:326-339 | skipping leaves a suffix that starts with something other than space, tab, U+000B or U+000C |
| TimeCodec.ParseTime | Sources/WebVTTParser.swift:341-355 | a successful parse consumes input |
| TimeCodec.PrintTime | Sources/WebVTTParser.swift:357-369 | the printer prepends `TimeText`: `HH:` only when hours are not 0, then `MM:SS.mmm`, padded to 2 and 3 digits; every field printed in full, which is the source's output whenever each field fits 32 bits (`TimeTextAgrees`) |
| TimeCodec.TimeRoundTrip | Sources/WebVTTParser.swift:341-369 | parsing the printed form of any time with 64-bit fields gives the same time back |
| TimeCodec.ParseAfterSpace | Sources/WebVTTParser.swift:335-343 | leading horizontal whitespace does not change the parse |
| TimeCodec.ParseTiming | Sources/WebVTTParser.swift:309-316 | a successful timing parse consumes input |
| TimeCodec.PrintTiming | Sources/WebVTTParser.swift:318-322 | the printer prepends `start + " --> " + end`, each time printed in full as `PrintTime` does |
| TimeCodec.TimingRoundTrip | Sources/WebVTTParser.swift:309-322 | the printed timing reads back as the same timing |
| TimeCodec.Int32Of | Sources/WebVTTParser.swift:359-365 | `%d` applied to an `Int` keeps the low 32 bits as a signed value: the result is a signed 32-bit value congruent to the input modulo 2^32, and values that fit are unchanged |
| TimeCodec.TimeTextAgrees | Sources/WebVTTParser.swift:357-369 | the printer as written and the full-width printer agree whenever every field fits 32 bits |
| TimeCodec.HoursPastInt32Lost | Sources/WebVTTParser.swift:359 | 2^32 hours print as `00:00:00.000`, which reads back as time zero |
| Settings.ParseDirection | Sources/WebVTTParser.swift:468 | the parsed direction is the word consumed |
| Settings.ParseAlignment | Sources/WebVTTParser.swift:536 | the parsed alignment is the word consumed |
| Settings.ParseScroll | Sources/WebVTTParser.swift:207 | the parsed scroll value is the word consumed |
| Settings.Introducer | Sources/WebVTTParser.swift:464-467 | `key [ws] ':' [ws]` (also `=` for region settings) consumes input |
| Settings.ParseSetting | Sources/WebVTTParser.swift:445-459 | the alternatives are tried in priority order, and a success consumes input |
| Settings.ParseSettings | Sources/WebVTTParser.swift:420-434 | settings separated by spaces or `,` and ended by one newline; a success consumes input |
| Settings.PrintSettings | Sources/WebVTTParser.swift:436-442 | the loop prepends `" " + s1 + … + " " + sn + "\n"`; an empty list gives `"\n"` |
| Settings.ParseAnchor | Sources/WebVTTParser.swift:245-259 | an anchor `x%,y%` with optional spaces consumes input |
| Settings.ParseRegionSetting | Sources/WebVTTParser.swift:133-146 | region alternatives are tried in order id, lines, width, scroll, regionanchor, viewportanchor |
| SettingsRoundTrip.DirectionOf | Sources/WebVTTParser.swift:468 | each direction word reads back as its direction |
| SettingsRoundTrip.AlignmentOf | Sources/WebVTTParser.swift:536 | each alignment word reads back as its alignment |
| SettingsRoundTrip.ScrollOf | Sources/WebVTTParser.swift:207 | each scroll word reads back as its value |
| SettingsRoundTrip.IntValueOf | Sources/WebVTTParser.swift:474-483 | `key:N` reads back as N |
| SettingsRoundTrip.PercentValueOf | Sources/WebVTTParser.swift:487-499 | `key:N%` reads back as N, with the `%` consumed |
| SettingsRoundTrip.LineNumberIsNoPercentage | Sources/WebVTTParser.swift:474-499 | `line:N` fails as a percentage and succeeds as a line number |
| SettingsRoundTrip.LineNumberStopsBeforePercent | Sources/WebVTTParser.swift:474-485 | on `line:N%` the line-number parser would stop before the `%`, so priority order is what gives `linePercentage` |
| SettingsRoundTrip.EarlierAlternativesFail | Sources/WebVTTParser.swift:447-456 | every alternative tried before a setting's own parser fails on that setting's printed text |
| SettingsRoundTrip.SettingRoundTrip | Sources/WebVTTParser.swift:445-553 | every printable setting reads back as itself through the priority choice |
| SettingsRoundTrip.SettingsRoundTrip | Sources/WebVTTParser.swift:420-553 | the printed settings line, from after its leading space, reads back as the same list, with the newline consumed (in a cue, the timing parser's trailing whitespace takes that space) |
| SettingsRoundTrip.AnchorOf | Sources/WebVTTParser.swift:245-259 | a printed anchor reads back as itself |
| SettingsRoundTrip.RegionSettingRoundTrip | Sources/WebVTTParser.swift:133-259 | every printable region setting, written with `:` or `=`, reads back as itself |
| SettingsRoundTrip.RegionSettingWithColon | Sources/WebVTTParser.swift:151-156 | region settings print with `:` |
| HeaderCodec.ParseHeaderMetadata | Sources/WebVTTParser.swift:59-77 | the parse consumes the text up to the first blank line and leaves a suffix |
| HeaderCodec.ReadHeaderMetadata | Sources/WebVTTParser.swift:59-62 | the consuming parse returns `ParseHeaderMetadata` |
| HeaderCodec.ParsedMetadataIsPlain | Sources/WebVTTParser.swift:63-76 | every parsed entry has a non-empty trimmed key and value that hold no `:` and no newline |
| HeaderCodec.ColonInValueDropped | Sources/WebVTTParser.swift:70-74 | a line whose value holds a `:` splits into three parts and is dropped |
| HeaderCodec.PrintHeaderMetadata | Sources/WebVTTParser.swift:79-84 | the reversed loop prepends `"\n" + key + ": " + value` for each entry, in order |
| HeaderCodec.PrintedLines | Sources/WebVTTParser.swift:63-67 | the printed block splits back into the printed lines |
| HeaderCodec.LineRoundTrip | Sources/WebVTTParser.swift:69-76 | a printed `key: value` line reads back as the same entry |
| HeaderCodec.HeaderMetadataRoundTrip | Sources/WebVTTParser.swift:59-84 | printed metadata followed by a blank line reads back as the same list |
| CueMetadataCodec.ParseCueMetadata | Sources/WebVTTParser.swift:270-297 | a success consumes input, has distinct settings, and has no identifier exactly when the first line is a timing |
| CueMetadataCodec.NoTimingOnLine | Sources/WebVTTParser.swift:270-274 | a timing never reads across a line end, so a first line without `>` is never a timing |
| CueMetadataCodec.PrintCueMetadataAsWritten | Sources/WebVTTParser.swift:299-306 | the printer as written prepends the settings, the timing, and then the raw identifier and a newline; the times are printed in full as `PrintTime` does |
| CueMetadataCodec.AsWrittenDecodesIdentifier | Sources/WebVTTParser.swift:286-306 | with the identifier printed raw, parsing returns its entity decoding instead |
| CueMetadataCodec.EscapedIdentifierLost | Sources/WebVTTParser.swift:299-306 | the identifier `&lt;` is printed raw and read back as `<` |
| CueMetadataCodec.PrintCueMetadata | Sources/WebVTTParser.swift:299-306 | the corrected printer prepends the encoded identifier line, then the timing line |
| CueMetadataCodec.CueMetadataRoundTrip | Sources/WebVTTParser.swift:270-306 | printed cue metadata reads back as the same metadata, with or without an identifier |
| CuePayloadCodec.PrintPayload | Sources/CuePayloadBuilder.swift:21-23 | printing a payload prepends the concatenated print of its components |
| CuePayloadCodec.ComponentsTextAppend | Sources/CuePayloadBuilder.swift:102-104 | `print(a + b) == print(a) + print(b)` |
| CuePayloadCodec.PlainTextRoundTrip | Sources/CuePayloadBuilder.swift:41-42 | a plain leaf prints with no `<` or `>`, and decodes back to its text |
| CuePayloadCodec.VoiceIsClosed | Sources/CuePayloadBuilder.swift:67-70 | a voice prints as `<v`, its classes, a space, its name and `>`, and always ends with `</v>`, so an unterminated voice is printed terminated |
| CuePayloadCodec.ClassesRoundTrip | Sources/CuePayloadBuilder.swift:44 | classes printed as `.a.b` split back on `.` into the same list |
| CuePayloadCodec.TimestampTime | Sources/CuePayloadBuilder.swift:401-403 | the tag's time is a `TimeParser` parse that consumes the whole text; anything else throws |
| CuePayloadCodec.TimestampTagRoundTrip | Sources/CuePayloadBuilder.swift:401-403 | the printed time of a timestamp reads back as the same time |
| CuePayloadCodec.Build | Sources/CuePayloadBuilder.swift:138-145 | a builder's match is a non-empty range within the text |
| CuePayloadCodec.Chosen | Sources/CuePayloadBuilder.swift:26-31 | the winner is a match with the smallest start, and every earlier builder's match starts strictly later; there is none exactly when nothing matched |
| CuePayloadCodec.ParseComponents | Sources/CuePayloadBuilder.swift:25-37 | a successful parse yields at least one component |
| CuePayloadCodec.NoMatchIsPlain | Sources/CuePayloadBuilder.swift:31-33 | when no builder matches, the result is exactly `[plain(decode(text))]` |
| CuePayloadCodec.ThrowAnywhereFails | Sources/CuePayloadBuilder.swift:26 | a throw from any builder makes the whole parse throw, even when another builder wins |
| CuePayloadCodec.RejectedTimestampFails | Sources/CuePayloadBuilder.swift:397-403 | a timestamp tag whose text `TimeParser` rejects makes the parse throw |
| CuePayloadCodec.UntaggedIsPlain | Sources/CuePayloadBuilder.swift:31-33 | text without `<` is a single plain leaf |
| CuePayloadCodec.PlainRoundTrip | Sources/CuePayloadBuilder.swift:25-42 | a printed plain leaf parses back as itself |
| CuePayloadCodec.MatchStartsWithTag | Sources/CuePayloadBuilder.swift:115-491 | every builder's match starts at a `<` |
| CuePayloadCodec.TimestampOpensWithDigit | Sources/CuePayloadBuilder.swift:379-392 | a timestamp match starts with `<` followed by a digit |
| CuePayloadCodec.VoiceOpeningHasSpace | Sources/CuePayloadBuilder.swift:338-351 | a voice match needs a space before `>` |
| CuePayloadCodec.VoiceRunsToEnd | Sources/CuePayloadBuilder.swift:355-358 | a voice with no `</v>` after its opening runs to the end of the text |
| CuePayloadCodec.LoneTagIsPlain | Sources/CuePayloadBuilder.swift:115-491 | a single `<` starting a tag with no space, not followed by a digit and with no second tag, stays plain text |
| CuePayloadCodec.VoiceWithoutNameIsText | Sources/CuePayloadBuilder.swift:338-351 | `<v>hi` stays plain text |
| CuePayloadCodec.VoiceWithClassesOnlyIsText | Sources/CuePayloadBuilder.swift:338-351 | `<v.loud>hi` stays plain text |
| CuePayloadCodec.FindLiteral | Sources/CuePayloadBuilder.swift:115-136 | the first position, up to case, at which a literal occurs from a start position on |
| CuePayloadCodec.PlainBoldMatchIsMatch | Sources/CuePayloadBuilder.swift:115-136 | the concrete bold matcher's match meets the bold shape: `<b>`, the shortest inner text, `</b>` |
| CuePayloadCodec.BoldOnlyIsRegex | Sources/CuePayloadBuilder.swift:115-491 | the concrete matcher satisfies every builder's contract |
| CuePayloadCodec.BoldFragmentRoundTrip | Sources/CuePayloadBuilder.swift:82-145 | text, a bold run of text, and text, once printed, parse back to the same components |
| CuePayloadCodec.NestedBoldSplits | Sources/CuePayloadBuilder.swift:115-136 | bold inside bold does not round-trip: the reluctant match closes at the first `</b>` |
| CuePayloadCodec.ReadPayload | Sources/WebVTTParser.swift:406-413 | the payload is the parse of the text up to the first blank line, and that text is removed from the input |

## Left out

- The regular-expression engine is abstracted. `IsRegex` states the shape of every builder's match: tags, case-insensitivity, reluctance, the voice end and the timestamp extent. It does not require that a match is found when the text holds one (`CuePayloadCodec.MatchesAreNotPromised`: the matcher that finds nothing meets it, which is why the bold round trip is proved with the concrete matcher `BoldOnly`), nor that a match is the leftmost one, and it does not give the attribute part after a space in `<b …>` any meaning beyond being skipped.
- The `CueStyleComponentBuilder` back-reference (`</name>`, lines 475-491) is stated as a closing tag that equals the opening name up to case.
- CuePayloadCodec.BoldOnly: the concrete matcher recognises only `<b>` written exactly, with no classes. It agrees with the bold expression only on texts where every `<b` is directly followed by `>`.
- Swift's `sorted` is not modelled. The tie rule it gives, earliest builder first among equal starts, is stated directly in `Chosen`. The comparator's `true` for nil against nil plays no part.
- `.digit` in the timestamp expression is taken as ASCII `0`-`9`.
- `Character.isNewline`, `.newlines`, `.whitespacesAndNewlines` and `isWhitespace` are modelled as fixed lists of the Unicode newline and White_Space characters in `Lexical`.
- The parsing library's `Whitespace(.horizontal)` is taken as space and tab, and `Whitespace(.vertical)` as line feed and carriage return.
- The document-level combinators are not part of this model:
  - `ElementsParser`, `HeaderParser`, `NoteParser`, `StyleParser`, `RegionParser` and `CueParser` (Sources/WebVTTParser.swift:18-131, 261-268);
  - `WebVTTParser.parse/print`.

  They are built from `Many`, `OneOf`, `Whitespace` and `ParsePrint` in a library this model does not have.
- The string helpers `prefix(upTo:count:)`, `trimmingEdges(while:)`, `components(separatedBy:)` and `prepend` are defined outside the core. They are taken to behave as their names say: `Text.PrefixUpTo`, `Lexical.Trim`, `Lexical.Split` and concatenation on the left.
- Loading `entities.json` is I/O. The loaded table, or its absence, is a parameter of `Entities.DecodeTable`.
- Floating point is left out: `Time.interval`, `Int(interval * 1000)` and `Timing(ClosedRange<TimeInterval>)`. `WebVTT.TimeFromMilliseconds` starts from the integer millisecond count.
- `ArrayBuilder`, the convenience builder functions of `WebVTT.swift`, and the package manifest are left out.
- Swift `String` is modelled as a sequence of `char`. Grapheme clustering, UTF-16 views and Unicode case folding are left out, and case-insensitive matching lowercases ASCII letters only.
- The round-trip lemmas require what printing needs in order to be read back. Each of these restrictions is a real limit of the source, not a weakening:
  - fields that fit a 64-bit `Int`;
  - names that are non-empty and hold no unescaped whitespace;
  - identifiers and header entries without newline characters.
- TimeCodec.PrintTime: every field is printed in full, the corrected printer of the first finding below. It writes what the source writes whenever every field fits 32 bits (`TimeCodec.TimeTextAgrees`); `TimeCodec.TimeTextAsWritten` is the source's printer for the other times.
- TimeCodec.PrintTiming: prints both times as `TimeCodec.PrintTime` does, so it matches the source only when every field fits 32 bits.
- CueMetadataCodec.PrintCueMetadataAsWritten: "as written" refers to the raw identifier; its timing is printed as `TimeCodec.PrintTiming` does.
- CuePayloadCodec.ComponentText: a timestamp's time is printed as `TimeCodec.PrintTime` does.
- Parsing a payload tree in general is not shown to round-trip. `CuePayloadCodec.NestedBoldSplits` shows that it cannot.

## Findings

| source | as written | input that shows it | evidently intended | confidence | as-written member | corrected member |
|---|---|---|---|---|---|---|
| Sources/WebVTTParser.swift:359-365 | `String(format: "%02d", output.hours)` passes a 64-bit `Int` to `%d`, which reads only its low 32 bits | `Time(hours: 4294967296, minutes: 0, seconds: 0, milliseconds: 0)` prints `00:00:00.000` and reads back as time zero | every `Int` field printed in full, so the printed time reads back | not executed | TimeCodec.HoursPastInt32Lost | TimeCodec.TimeRoundTrip |
| Sources/WebVTTParser.swift:302-305 | the cue identifier is prepended raw, while parsing decodes it with `EntityCoder` | identifier `&lt;` prints as `&lt;` and reads back as `<` | the identifier encoded as `TextParser.print` does, so it reads back unchanged | not executed | CueMetadataCodec.EscapedIdentifierLost | CueMetadataCodec.CueMetadataRoundTrip |
