# rs-keymap-parser in Dafny

This project models the core of rs-keymap-parser, a Rust library that reads
and writes REAPER `.reaperkeymap` files, and proves properties of that model.
A keymap file holds one binding per line:

- `KEY` binds a modifier byte and a key code to a command id in a section.
- `SCR` registers a script.
- `ACT` defines a custom action made of other action ids.

The model covers four pieces of the library:

- **The modifier codec** (`Modifiers.dfy`, module `ModifierCodec`).
  - A flag set has SHIFT = 4, SUPER = 8, ALT = 16, CONTROL = 32, and a SPECIAL_INPUT sentinel of 128.
  - `ReaperCode` encodes a set as its keymap byte.
  - `TryFromReaperCode` decodes the byte. It builds on bitflags' `from_bits`, which is modelled as truncate-then-compare.
- **The special-input table** (`SpecialInputs.dfy`, module `SpecialInputTable`).
  - It covers the mouse-wheel and multitouch gestures that go with modifier byte 255.
  - `MediaKey` and `Unknown` are fallbacks that keep the raw code.
  - The `Display` names are modelled too.
- **The section table** (`Sections.dfy`, module `SectionTable`).
  - There are 22 section codes.
  - `from_u32`, `as_u32` and `display_name` are modelled.
- **The entry line codec** (`ActionList.dfy`, module `ActionList`).
  - `to_line` and `from_line` are modelled.
  - `from_line` is split into `FromLine`, which cuts the line at `#` and trims it, and `FromData`, which dispatches on the tag.
  - The list level covers the loops of `load_from_file` and `save_to_file` (over strings in place of files), `keys`, `lookup_command_id` and `make_test_action_list`.

`Text.dfy` (module `Text`) defines the Rust string operations the codec relies on:

- `split_whitespace` with Unicode whitespace, `split(char)`, `trim`, `join`, `replace`;
- `parse::<uN>` (an optional `+`, decimal digits, within range) and integer `Display`;
- `BufRead::lines`.

`Prelude.dfy` holds `Option`, `Result` (its `:-` plays Rust's `?`) and the `u8`/`u16`/`u32` ranges.

Two modules hold the laws of the line codec:

- `RoundTrip.dfy` (module `LineRoundTrip`) covers what survives `to_line` then `from_line`, for one line and for a whole saved file.
- `Grammar.dfy` (module `LineGrammar`) covers the line grammar:
  - which part of a line is read;
  - when each tag's branch accepts a line and what the entry holds;
  - which error comes back otherwise.

`KeyCode` comes from `keycodes.rs`, which is not part of this model. It is an opaque type. Its `from_u16` and `as_u8` are the two fields of a `KeyCodec` value, which the caller supplies. The one fact the KEY round trip needs about them is `from_u16(as_u8(k)) == Some(k)`. It is stated as the named predicate `ActionList.KeyCodeRoundTrips` and is used only as a precondition.

## Model

| member | source | states |
|---|---|---|
| ModifierCodec.Bits | src/modifiers.rs:4-16 | `bits()` has bit 7 set iff the set holds SPECIAL_INPUT, its regular part is a multiple of 4 no larger than 60, and it is 0 only for the empty set |
| ModifierCodec.FromBitsTruncate | src/modifiers.rs:4-16 | `from_bits_truncate(b)` drops only the undefined bits: b is the result's bits plus a combination of 1, 2 and 64 |
| ModifierCodec.FromBits | src/modifiers.rs:42 | `from_bits(b)` fails iff b has one of the undefined bits 1, 2 or 64 set, and a result has exactly the bits b |
| ModifierCodec.IsSpecialInput | src/modifiers.rs:47-49 | no contract of its own; `SpecialIffCode255` states that it holds iff bit 128 is set iff the code is 255 |
| ModifierCodec.TryFromReaperCode | src/modifiers.rs:36-44 | 0 never decodes, 255 decodes to `{SPECIAL_INPUT}`, and any other result has bits n - 1; its exact acceptance and round trips are `DecodeAccepts`, `DecodeEncode` and `EncodeDecode` |
| ModifierCodec.ReaperCode | src/modifiers.rs:23-29 | the code is 255 exactly when the set contains SPECIAL_INPUT; otherwise it lies in 1..61 |
| ModifierCodec.FromBitsOfBits | src/modifiers.rs:106-116 | `from_bits(bits(m))` gives `m` back for every flag set |
| ModifierCodec.FromBitsAccepts | src/modifiers.rs:42 | `from_bits(b)` succeeds exactly when `b` is the bits of some flag set, and then returns a set with those bits |
| ModifierCodec.FromBitsRejects | src/modifiers.rs:6-15 | bytes with undefined bits (1, 2, 64, 126, 255) are rejected |
| ModifierCodec.TruncateKnown | src/modifiers.rs:160-165 | truncating 254 & 0x7F = 126 gives exactly the four regular flags |
| ModifierCodec.SpecialEncodesAs255 | src/modifiers.rs:23-26 | every set containing SPECIAL_INPUT encodes as 255, `all()` included (test at line 76-77) |
| ModifierCodec.RegularEncodesAsOnePlusBits | src/modifiers.rs:27 | a set of regular flags encodes as 1 + its bits, and its bits are at most 60 (test at line 96-104) |
| ModifierCodec.KnownCodes | src/modifiers.rs:128-136 | the hand-picked codes: empty 1, SHIFT 5, CONTROL 33, ALT 17, SUPER 9, SHIFT+CONTROL 37, all four 61, SPECIAL_INPUT 255 |
| ModifierCodec.SpecialIffCode255 | src/modifiers.rs:47-49 | `is_special_input` holds iff bit 128 is set iff the code is 255 (test at line 169-177) |
| ModifierCodec.ZeroRejected | src/modifiers.rs:41 | code 0 does not decode, because `checked_sub(1)` underflows |
| ModifierCodec.Code255IsSpecialInput | src/modifiers.rs:150-158 | 255 decodes to exactly `{SPECIAL_INPUT}`, which is a special input and re-encodes as 255 |
| ModifierCodec.DecodeAccepts | src/modifiers.rs:36-44 | for n ≠ 255, decoding succeeds iff n ≥ 1 and n - 1 is the bits of some flag set, and the result has bits n - 1 |
| ModifierCodec.DecodeEncode | src/modifiers.rs:23-44 | decode(encode(m)) == m iff m is regular-only or exactly `{SPECIAL_INPUT}` |
| ModifierCodec.EncodeDecode | src/modifiers.rs:23-44 | for a code that decodes, encode(decode(n)) == n iff n == 255 or n ≤ 128 |
| ModifierCodec.SentinelBitLeaksThroughDecode | src/modifiers.rs:36-44 | every set containing SPECIAL_INPUT is decoded from the code 1 + bits, which lies in 129..189 and differs from the 255 it encodes to |
| ModifierCodec.Code129DoesNotRoundTrip | src/modifiers.rs:36-44 | 129 decodes to `{SPECIAL_INPUT}`, which encodes as 255 |
| ModifierCodec.TryFromReaperCodeStrict | src/modifiers.rs:36-44 | the corrected decoder returns only sets that survive encode-then-decode |
| ModifierCodec.StrictRoundTrip | src/modifiers.rs:19-44 | with the corrected decoder, every byte that decodes re-encodes to itself, and every such set survives the round trip |
| ModifierCodec.StrictAgreesOtherwise | src/modifiers.rs:36-44 | the two decoders differ exactly on the codes ≠ 255 that the original decodes to a set containing SPECIAL_INPUT |
| SpecialInputTable.FromKeyCode | src/special_inputs.rs:69-112 | the result is `MediaKey` iff the code is 232 or ≥ 488, and a `MediaKey` or `Unknown` result carries the code unchanged |
| SpecialInputTable.ToKeyCode | src/special_inputs.rs:115-149 | a named gesture gets a table code of 128 or more that is the upper code of its alias pair, and a fallback gives back its raw code; `ClosedRoundTrip` and `CanonicalCode` relate it to `from_key_code` |
| SpecialInputTable.Name | src/special_inputs.rs:152-188 | no contract of its own; `NameInjective` and `NameShape` state its laws |
| SpecialInputTable.ClosedIffTableCode | src/special_inputs.rs:69-111 | a code decodes to a named gesture iff it is one of the table's codes |
| SpecialInputTable.ClosedRoundTrip | src/special_inputs.rs:115-149 | `from_key_code(to_key_code(s)) == s` for every named gesture, whose code is canonical (test at line 211-224) |
| SpecialInputTable.CanonicalCode | src/special_inputs.rs:72-103 | `to_key_code(from_key_code(k))` is k, except that the 14 alias codes map to k + 128 |
| SpecialInputTable.AliasSameVariant | src/special_inputs.rs:72-103 | an alias code decodes to the same gesture as its code + 128 |
| SpecialInputTable.DecodeIdempotent | src/special_inputs.rs:69-149 | decoding the re-encoded decode of k gives the decode of k |
| SpecialInputTable.FallbackRoundTrip | src/special_inputs.rs:105-110 | `MediaKey(k)` and `Unknown(k)` encode as k; `MediaKey(k)` comes back iff k is 232 or ≥ 488, and `Unknown(k)` iff k is neither a table code nor a media code |
| SpecialInputTable.KnownDecodings | src/special_inputs.rs:196-208 | 248 and 120 → Mousewheel, 249 → CtrlMousewheel, 250 → AltMousewheel, 216 → HorizWheel, 217 → CtrlHorizWheel, 218 → AltHorizWheel |
| SpecialInputTable.NameInjective | src/special_inputs.rs:152-188 | distinct gestures have distinct display names, the `MediaKey(k)` and `Unknown(k)` renderings included |
| SpecialInputTable.NameShape | src/special_inputs.rs:184-185 | fallbacks render as `MediaKey(…)` and `Unknown(…)`, and no named gesture's name ends in `)` |
| SectionTable.AsU32 | src/sections.rs:11-45 | every section's code is one of the 22 declared codes and decodes back to that section |
| SectionTable.FromU32 | src/sections.rs:11-40 | `from_u32(n)` succeeds iff n is a declared code |
| SectionTable.DisplayName | src/sections.rs:47-73 | a name starts with "Main" iff the section is Main, the alt-recording section or one of the sixteen alternates; `DisplayNamesDistinct` states that names are distinct |
| SectionTable.FromU32Accepts | src/sections.rs:11-40 | `from_u32(n)` succeeds iff n ∈ {0..16, 100, 32060..32063} |
| SectionTable.SectionRoundTrip | src/sections.rs:43-45 | `from_u32(as_u32(s)) == Some(s)` for all 22 sections (test at line 81-122) |
| SectionTable.CodeRoundTrip | src/sections.rs:38-45 | whenever `from_u32(n)` succeeds, `as_u32` of the result is n |
| SectionTable.RejectedCodes | src/sections.rs:126-141 | 42, 9999, 32064 and `u32::MAX` do not decode |
| SectionTable.MainAltRange | src/sections.rs:143-170 | each n in 1..16 decodes to a `MainAltN` section with code n |
| SectionTable.DisplayNamesDistinct | src/sections.rs:48-73 | distinct sections have distinct display names |
| SectionTable.KnownDisplayNames | src/sections.rs:48-73 | Main → "Main", MidiEditor → "MIDI Editor", MediaExplorer → "Media Explorer" |
| ActionList.TerminationCode | src/action_list.rs:110-119 | every behaviour's code is 4, 260 or 516, that is 4 plus a multiple of 256 |
| ActionList.FlagBits | src/action_list.rs:121-131 | only the bits 1, 2, 16 and 32 are ever set, and the bits are 0 only for no flags |
| ActionList.FlagsFromBitsTruncate | src/action_list.rs:339 | the flags' bits never exceed the low six bits of n, and what those six bits lose is only bits 4 and 8; higher bits are dropped, never rejected |
| ActionList.TerminationFromU32 | src/action_list.rs:110-119 | exactly 4, 260 and 516 decode, each to the behaviour with that code |
| ActionList.TerminationRoundTrip | src/action_list.rs:110-119 | every termination behaviour decodes back from its code |
| ActionList.FlagsRoundTrip | src/action_list.rs:121-131 | truncating the bits of a flag set gives the set back |
| ActionList.FlagsTruncateKnown | src/action_list.rs:121-131 | truncation keeps only bits 1, 2, 16, 32 (`u32::MAX`, 12 and 81 shown) |
| ActionList.EscapeField | src/action_list.rs:144-146 | escaping never shortens a string; `EscapeFieldIsOnePass`, `EscapeFieldIdentity` and `EscapeFieldFree` state what it writes |
| ActionList.ToLine | src/action_list.rs:150-200 | no contract of its own; `LineRoundTrip.ReadBackLaw`, `LineRoundTrip.RoundTripIff` and `LineRoundTrip.LineHasNoNewline` state what `from_line` recovers from the line it writes |
| ActionList.DataPart | src/action_list.rs:204 | the part of a line that is read holds no `#`; `LineGrammar.CommentIgnored` and the blank lemmas state what it drops |
| ActionList.ParseKey | src/action_list.rs:211-260 | a KEY branch result is a KEY entry whose command id is the fourth token of a line with at least five, and a missing field names the KEY tag |
| ActionList.ParseScript | src/action_list.rs:261-325 | an SCR branch result is an SCR entry whose command id is the fourth token and whose description and path hold no `"`, and a missing field names the SCR tag |
| ActionList.ParseAction | src/action_list.rs:326-377 | an ACT branch result is an ACT entry whose command id and description hold no `"`, and a missing field names the ACT tag |
| ActionList.FromData | src/action_list.rs:205-210 | an entry comes back only when the first token is that entry's tag, and the tag field is missing iff there is no token |
| ActionList.FromLine | src/action_list.rs:203-380 | the same two facts for a whole line, read through its data part; the `LineGrammar` lemmas state the rest of its grammar |
| ActionList.EscapeFieldIsOnePass | src/action_list.rs:144-146 | escaping `\` and then `"` is the same as escaping each character once, so no escape is doubled |
| ActionList.EscapeFieldIdentity | src/action_list.rs:144-146 | escaping leaves a string unchanged iff it has no `\` and no `"` |
| ActionList.EscapeFieldFree | src/action_list.rs:144-146 | escaping introduces no character other than `\` and `"` |
| ActionList.UnescapeEscape | src/action_list.rs:144-146 | un-escaping (which the reader lacks) undoes `escape_field` on every string |
| ActionList.NumberField | src/action_list.rs:216-222 | a numeric field that parses is below the width's bound |
| ActionList.LoadFromLines | src/action_list.rs:391-403 | the loop's entries are the parses of the lines that parse, in order, and never more than the lines |
| ActionList.ParsedEntriesAppend | src/action_list.rs:394-402 | loading a concatenation of lines loads each part in turn |
| ActionList.ParsedEntriesOfFailures | src/action_list.rs:397-400 | lines that all fail to parse load as nothing |
| ActionList.ParsedEntriesFromLines | src/action_list.rs:394-402 | every loaded entry is the parse of some line |
| ActionList.SaveToText | src/action_list.rs:406-412 | the text written is each entry's line followed by a newline, in order |
| ActionList.SavedTextCons | src/action_list.rs:406-412 | the saved text is the first entry's line, a newline, then the rest |
| ActionList.Keys | src/action_list.rs:414-425 | `keys()` holds exactly the KEY entries and is no longer than the list |
| ActionList.KeysAppend | src/action_list.rs:414-425 | `keys()` of a concatenation is the concatenation of the `keys()`, so list order is kept |
| ActionList.FindMatch | src/action_list.rs:19-24 | the index found is the first KEY entry whose modifiers and key code match, or the end |
| ActionList.LookupCommandId | src/action_list.rs:19-24 | `None` iff no KEY entry matches; otherwise the command id of the first matching KEY entry |
| ActionList.LookupFindsFirst | src/action_list.rs:19-24 | a first match at index i is what the lookup returns |
| ActionList.LookupAppend | src/action_list.rs:19-24 | a lookup in a + b is the lookup in a if that succeeds, else the lookup in b |
| ActionList.MakeTestActionList | src/action_list.rs:433-460 | the test list's keys are the three pushed entries; A finds "40044", Ctrl+A "shifted command id", Ctrl+B "SWS_ACTION", and any Shift combination finds nothing |
| LineRoundTrip.KeyRoundTrip | src/action_list.rs:150-260 | a KEY entry with a canonical modifier set, a key code the codec restores, and a command id that is one `#`-free token comes back from its own line unchanged |
| LineRoundTrip.ScriptReadBack | src/action_list.rs:159-175 | an SCR entry with a one-token command id and a description and path free of `"` and `#` comes back from its line with the description and path escaped (SCR branch: lines 261-325) |
| LineRoundTrip.ActionReadBack | src/action_list.rs:176-197 | an ACT entry with command id and description free of `"` and `#`, and `#`- and `"`-free token ids, comes back from its line with its command id and description escaped (ACT branch: lines 326-377) |
| LineRoundTrip.ReadBackLaw | src/action_list.rs:150-378 | for every carried entry, `from_line(to_line(e))` is e with its quoted strings escaped, and the line does not end in `\r` |
| LineRoundTrip.ReadBackIdentity | src/action_list.rs:144-146 | that escaped entry equals e iff its quoted strings hold no backslash |
| LineRoundTrip.RoundTripIff | src/action_list.rs:150-378 | a carried entry survives `to_line` then `from_line` iff its quoted strings hold no backslash |
| LineRoundTrip.UnescapingRoundTrip | src/action_list.rs:144-378 | a reader that un-escapes the quoted strings gets every carried entry back from its own line, backslashes included |
| LineRoundTrip.LineHasNoNewline | src/action_list.rs:150-200 | a carried entry whose quoted strings hold no newline writes a line without a newline |
| LineRoundTrip.SaveThenLoad | src/action_list.rs:391-412 | loading the lines of a saved file of carried one-line entries gives every entry back, in order, with its quoted strings escaped |
| LineRoundTrip.ReadBackAllIdentity | src/action_list.rs:144-146 | that list equals the saved list when no quoted string holds a backslash |
| LineRoundTrip.SaveLoadRoundTrip | src/action_list.rs:391-412 | `SaveToText` then `LoadFromLines` of the text's lines returns the saved list itself for such entries |
| LineGrammar.CommentIgnored | src/action_list.rs:204 | everything from the first `#` on is not read |
| LineGrammar.LeadingBlankIgnored | src/action_list.rs:204 | whitespace before a line does not change its parse |
| LineGrammar.TrailingBlankIgnored | src/action_list.rs:204 | whitespace after a line does not change its parse |
| LineGrammar.MissingTagIff | src/action_list.rs:204-209 | a line fails with `MissingField { tag: "<line>", field: "tag" }` iff its data part is blank |
| LineGrammar.CommentLine | src/action_list.rs:204-209 | a comment-only line, indented or not, fails for want of a tag |
| LineGrammar.InvalidTagIff | src/action_list.rs:378 | a line fails with `InvalidTag(t)` iff its first token t is not KEY, SCR or ACT |
| LineGrammar.EntryKindFollowsTag | src/action_list.rs:210-378 | a parsed entry is a KEY, SCR or ACT entry exactly as its tag says |
| LineGrammar.KeyAcceptsIff | src/action_list.rs:211-260 | the KEY branch's acceptance condition spelled out field by field, a restatement that the round-trip and error lemmas use rather than an independent specification: a KEY line parses iff it has all four fields and each decodes at its width and in its table; the entry holds those decodes and the fourth token as command id |
| LineGrammar.KeyIgnoresExtraTokens | src/action_list.rs:211-260 | tokens after the section do not change a KEY parse |
| LineGrammar.KeyErrorsNameKey | src/action_list.rs:211-260 | a missing field names the first absent token; a number error names a field that does not parse; a table miss carries the parsed value that no table holds |
| LineGrammar.ScriptAcceptsIff | src/action_list.rs:261-325 | the SCR branch's acceptance condition spelled out field by field, a restatement that the round-trip and error lemmas use: an SCR line parses iff its termination is 4, 260 or 516, its section decodes and it has a pair of quotes; the command id is the fourth token, the description the first quoted piece, the path the next quoted piece or else the trimmed rest |
| LineGrammar.ScriptErrorsNameScript | src/action_list.rs:261-306 | SCR errors name the field at fault, and a rejected termination is not 4, 260 or 516 |
| LineGrammar.ActionAcceptsIff | src/action_list.rs:326-377 | the ACT branch's acceptance condition spelled out field by field, a restatement that the round-trip and error lemmas use: an ACT line parses iff its two numbers parse, its section decodes and it has two quoted fields; the flags are truncated and never rejected, and the ids are the tokens after the second quoted field, in order |
| LineGrammar.ActionErrorsNameAction | src/action_list.rs:326-362 | ACT errors name the field at fault, and no flags value is an error |
| LineGrammar.QuotesNeverReadBack | src/action_list.rs:298-377 | no parsed SCR description or path, and no parsed ACT command id or description, contains `"` |
| LineGrammar.QuotedQuoteIsLost | src/action_list.rs:144-146 | an SCR or ACT entry with `"` in a quoted string never comes back from its own line |

## Left out

- src/parse.rs is not part of this model. It is an older parser built on a `regex` whose matching semantics belong to a foreign library, and it does file I/O.
- src/action_configs.rs (host API, directories) and src/lib.rs (module declarations) are not part of this model.
- File handles are not modelled.
  - `load_from_file` is modelled as its per-line loop over the strings `BufRead::lines` yields.
  - `save_to_file` is modelled as the concatenation of each `to_line` plus a newline.
  - I/O errors and the `IoError` variant are not modelled.
- `ParseError::InvalidNumber` keeps its tag and field but not Rust's error message text.
- The `Display` text of `ParseError` is not modelled.
- serde (de)serialisation is derived code and is not modelled.
- keycodes.rs is not part of this model.
  - `KeyCode::from_u16` and `as_u8` are caller-supplied functions.
  - The KEY round trip assumes `from_u16(as_u8(k)) == Some(k)` (`KeyCodeRoundTrips`).
- The structured comment, `KeyInputType` and `generate_comment` are not part of this model. The library's integration tests use them, but `src/action_list.rs` has no comment field.
- `get_action_list_from_current_config` always returns an empty list; it is not modelled.
- The unit test at src/action_list.rs:475 expects Ctrl+B to look up "10004". The list built at lines 451-457 stores "SWS_ACTION", which is what `MakeTestActionList` proves.
- In `MakeTestActionList`, the key codes A and B are parameters, because `KeyCode::A` and `KeyCode::B` live in keycodes.rs. The Ctrl lookups are stated for distinct A and B.
- `KeyCode::C` in the Shift lookup is generalised: the proof covers every key with SHIFT.
- The timing tests of the integration suite are not modelled.
- SCR: the command id is always the fourth whitespace token (src/action_list.rs:292-296), and `LineGrammar.ScriptAcceptsIff` states that. A quoted command id is therefore read as the description, and the quoted description as the path.
- ActionList.Keys: its own contract states membership and length. List order is stated by `KeysAppend`, and first-match order by `LookupCommandId`.

## Findings

| source | as written | input that shows it | evidently intended | confidence | as-written member | corrected member |
|---|---|---|---|---|---|---|
| src/modifiers.rs:36-44 | `try_from_reaper_code` accepts any n ≠ 255 whose n - 1 has only defined bits, including bit 128 (SPECIAL_INPUT) | n = 129 decodes to `{SPECIAL_INPUT}`, whose `reaper_code` is 255, not 129; codes 129..189 of this form all fail to round-trip | only 255 means the special-input sentinel (comments at lines 13-14, 22 and 35), so decoding then encoding should give the code back | not executed | ModifierCodec.SentinelBitLeaksThroughDecode | ModifierCodec.StrictRoundTrip |
| src/action_list.rs:298-377 | `to_line` escapes `\` and `"` in quoted strings (lines 144-146), but `from_line` never un-escapes what it reads | an SCR entry whose path is `C:\x.lua` comes back with the path `C:\\x.lua`, and each further save and load doubles the backslashes again | the reader undoes the writer's escaping, so every carried entry comes back from its own line | not executed | LineRoundTrip.RoundTripIff | LineRoundTrip.UnescapingRoundTrip |

The line parser keeps the decoder as written, because it models `from_line`. For the same reason `FromLine` does not un-escape, and the save and load laws are stated for it as written. The corrected reader `LineRoundTrip.FromLineUnescaping` sits beside it. The KEY round trip is stated for regular-only sets and for exactly `{SPECIAL_INPUT}`. Both decoders agree on the codes of those sets.
