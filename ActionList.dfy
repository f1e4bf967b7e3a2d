/** Keymap entries and their line codec (src/action_list.rs).

    A `.reaperkeymap` line is a KEY, SCR or ACT entry:
      KEY <modifiers> <key code> <command id> <section>
      SCR <termination> <section> <command id> "<description>" <path or "path">
      ACT <flags> <section> "<command id>" "<description>" [<action id> ...]
    with anything from the first `#` on ignored. `FromLine` parses one line
    into a `ReaperEntry` or a typed `ParseError`; `ToLine` writes an entry
    back. Loading keeps the lines that parse, in order. */
module ActionList {
  import opened Prelude
  import opened Text
  import opened ModifierCodec
  import opened SectionTable

  // ---------------------------------------------------------------------
  // Key codes (keycodes.rs, which is not part of this model)
  // ---------------------------------------------------------------------

  /** `KeyCode`, left abstract. */
  type KeyCode(==, !new)

  /** `KeyCode::from_u16` and `KeyCode::as_u8`, supplied by the caller. */
  datatype KeyCodec = KeyCodec(fromU16: u16 -> Option<KeyCode>, asU8: KeyCode -> u8)

  /** ASSUMPTION about keycodes.rs: decoding a key's own byte gives the key
      back. Used only as a precondition of the KEY round-trip laws. */
  predicate KeyCodeRoundTrips(codec: KeyCodec, k: KeyCode) {
    codec.fromU16(codec.asU8(k)) == Some(k)
  }

  // ---------------------------------------------------------------------
  // Entries
  // ---------------------------------------------------------------------

  /** `ParseError` without its I/O variant; `InvalidNumber` keeps the tag and
      field but not Rust's message text. */
  datatype ParseError =
    | MissingField(tag: string, field: string)
    | InvalidNumber(tag: string, field: string)
    | InvalidModifierCode(modifierCode: u8)
    | InvalidKeyCode(keyCode: u16)
    | InvalidSectionCode(sectionCode: u32)
    | InvalidTermination(terminationCode: u32)
    | InvalidTag(tag: string)

  datatype TerminationBehavior = Prompt | TerminateExisting | AlwaysNewInstance

  /** `u32::from(TerminationBehavior)`: one of REAPER's three codes, each 4
      plus a multiple of 256. */
  function TerminationCode(t: TerminationBehavior): (r: u32)
    ensures r == 4 || r == 260 || r == 516
    ensures r % 256 == 4
  {
    match t
    case Prompt => 4
    case TerminateExisting => 260
    case AlwaysNewInstance => 516
  }

  /** `TerminationBehavior::try_from(u32)`. */
  function TerminationFromU32(n: u32): (r: Option<TerminationBehavior>)
    ensures r.Some? <==> n == 4 || n == 260 || n == 516
    ensures r.Some? ==> TerminationCode(r.value) == n
  {
    match n
    case 4 => Some(Prompt)
    case 260 => Some(TerminateExisting)
    case 516 => Some(AlwaysNewInstance)
    case _ => None
  }

  /** `ActionFlags`: CONSOLIDATE_UNDO = 1, SHOW_IN_MENUS = 2,
      ACTIVE_IF_ALL = 16, ACTIVE_IF_ANY = 32. */
  datatype ActionFlags = ActionFlags(consolidateUndo: bool, showInMenus: bool,
                                     activeIfAll: bool, activeIfAny: bool)

  /** `ActionFlags::bits`: only the four defined bits are ever set. */
  function FlagBits(f: ActionFlags): (r: u32)
    ensures r < 64 && r % 16 < 4
    ensures r == 0 <==> f == ActionFlags(false, false, false, false)
  {
    (if f.consolidateUndo then 1 else 0) + (if f.showInMenus then 2 else 0)
    + (if f.activeIfAll then 16 else 0) + (if f.activeIfAny then 32 else 0)
  }

  /** `ActionFlags::from_bits_truncate`: the known flags of `n`, read off the
      binary expansion of its low six bits; every other bit is dropped, never
      rejected. Within the low six bits, what is dropped is made of bits 4
      and 8 only. */
  function FlagsFromBitsTruncate(n: u32): (f: ActionFlags)
    ensures FlagBits(f) <= n % 64 <= n
    ensures n % 64 - FlagBits(f) in {0, 4, 8, 12}
  {
    var r6 := n % 64;
    var r5 := if r6 >= 32 then r6 - 32 else r6;
    var r4 := if r5 >= 16 then r5 - 16 else r5;
    var r3 := if r4 >= 8 then r4 - 8 else r4;
    var r2 := if r3 >= 4 then r3 - 4 else r3;
    ActionFlags(r2 == 1 || r2 == 3, r2 >= 2, r5 >= 16, r6 >= 32)
  }

  /** Unknown bits are dropped: all bits set gives every flag, and bits 4
      and 8 alone give none. */
  lemma FlagsTruncateKnown()
    ensures FlagsFromBitsTruncate(0xFFFF_FFFF) == ActionFlags(true, true, true, true)
    ensures FlagsFromBitsTruncate(12) == ActionFlags(false, false, false, false)
    ensures FlagsFromBitsTruncate(64 + 16 + 1) == ActionFlags(true, false, true, false)
  {
  }

  /** Each behaviour decodes from its own code. */
  lemma TerminationRoundTrip(t: TerminationBehavior)
    ensures TerminationFromU32(TerminationCode(t)) == Some(t)
  {
  }

  /** Truncation keeps every flag set: flags survive bits-then-truncate. */
  lemma FlagsRoundTrip(f: ActionFlags)
    ensures FlagsFromBitsTruncate(FlagBits(f)) == f
  {
  }

  /** A KEY entry: modifiers, key code, command id, section. */
  datatype KeyEntry = KeyEntry(modifiers: Modifiers, keyCode: KeyCode, commandId: string,
                               section: ReaperActionSection)

  /** An SCR entry: a script bound as an action. */
  datatype ScriptEntry = ScriptEntry(terminationBehavior: TerminationBehavior,
                                     section: ReaperActionSection, commandId: string,
                                     description: string, path: string)

  /** An ACT entry: a custom action made of other actions. */
  datatype ActionEntry = ActionEntry(actionFlags: ActionFlags, section: ReaperActionSection,
                                     commandId: string, description: string,
                                     actionIds: seq<string>)

  datatype ReaperEntry =
    | Key(key: KeyEntry)
    | Script(script: ScriptEntry)
    | Action(action: ActionEntry)

  // ---------------------------------------------------------------------
  // Serialisation
  // ---------------------------------------------------------------------

  /** `escape_field`: backslashes are doubled first, then each `"` gets a
      backslash in front. */
  function EscapeField(s: string): (r: string)
    ensures |r| >= |s|
  {
    ReplaceLength(s, '\\', "\\\\");
    ReplaceLength(Replace(s, '\\', "\\\\"), '"', "\\\"");
    Replace(Replace(s, '\\', "\\\\"), '"', "\\\"")
  }

  /** One character as a single left-to-right escaping pass writes it. */
  function EscapeChar(c: char): string {
    if c == '\\' then "\\\\" else if c == '"' then "\\\"" else [c]
  }

  /** Escaping as one pass over the characters. */
  function EscapeOnePass(s: string): string {
    if s == [] then [] else EscapeChar(s[0]) + EscapeOnePass(s[1..])
  }

  /** Doubling backslashes before escaping quotes is the one-pass escape:
      the backslashes the second replacement inserts are never doubled. */
  lemma {:induction false} EscapeFieldIsOnePass(s: string)
    ensures EscapeField(s) == EscapeOnePass(s)
  {
    if s != [] {
      var first := if s[0] == '\\' then "\\\\" else [s[0]];
      assert Replace(s, '\\', "\\\\") == first + Replace(s[1..], '\\', "\\\\");
      ReplaceAppend(first, Replace(s[1..], '\\', "\\\\"), '"', "\\\"");
      EscapeFieldIsOnePass(s[1..]);
      if s[0] == '\\' {
        ReplaceAbsent(first, '"', "\\\"");
      } else if s[0] == '"' {
        assert Replace(first, '"', "\\\"") == "\\\"" + Replace([], '"', "\\\"");
      } else {
        assert Replace(first, '"', "\\\"") == [s[0]] + Replace([], '"', "\\\"");
      }
    }
  }

  /** Escaping introduces no character other than `\` and `"`. */
  lemma EscapeFieldFree(s: string, x: char)
    requires x !in s && x != '\\' && x != '"'
    ensures x !in EscapeField(s)
  {
    ReplaceFree(s, '\\', "\\\\", x);
    ReplaceFree(Replace(s, '\\', "\\\\"), '"', "\\\"", x);
  }

  /** Escaping leaves a string alone exactly when it holds no `\` and no `"`. */
  lemma EscapeFieldIdentity(s: string)
    ensures EscapeField(s) == s <==> '\\' !in s && '"' !in s
  {
    var once := Replace(s, '\\', "\\\\");
    ReplaceLength(s, '\\', "\\\\");
    ReplaceLength(once, '"', "\\\"");
    if '\\' !in s {
      ReplaceAbsent(s, '\\', "\\\\");
      if '"' !in s {
        ReplaceAbsent(s, '"', "\\\"");
      }
    }
  }

  /** The inverse of `escape_field` that `from_line` does not apply: a
      backslash stands for the character after it. */
  function Unescape(s: string): string {
    if s == [] then []
    else if s[0] == '\\' && |s| >= 2 then [s[1]] + Unescape(s[2..])
    else [s[0]] + Unescape(s[1..])
  }

  /** Un-escaping undoes escaping, whatever the string holds. */
  lemma {:induction false} UnescapeEscape(s: string)
    ensures Unescape(EscapeField(s)) == s
  {
    EscapeFieldIsOnePass(s);
    UnescapeOnePass(s);
  }

  lemma {:induction false} UnescapeOnePass(s: string)
    ensures Unescape(EscapeOnePass(s)) == s
  {
    if s != [] {
      var rest := EscapeOnePass(s[1..]);
      assert EscapeOnePass(s) == EscapeChar(s[0]) + rest;
      UnescapeOnePass(s[1..]);
      if s[0] == '\\' || s[0] == '"' {
        assert (EscapeChar(s[0]) + rest)[2..] == rest;
      } else {
        assert (EscapeChar(s[0]) + rest)[1..] == rest;
      }
    }
  }

  /** Without `"`, the escaped text has no `"` either. */
  lemma EscapeFieldNoQuote(s: string)
    requires '"' !in s
    ensures '"' !in EscapeField(s)
  {
    ReplaceFree(s, '\\', "\\\\", '"');
    ReplaceAbsent(Replace(s, '\\', "\\\\"), '"', "\\\"");
  }

  function Quoted(s: string): string {
    "\"" + s + "\""
  }

  /** `ReaperEntry::to_line`. Each `format!` puts single spaces between its
      fields, so a line is its fields joined by spaces. */
  function ToLine(codec: KeyCodec, e: ReaperEntry): string {
    match e
    case Key(k) =>
      Join(["KEY", NatToString(ReaperCode(k.modifiers)), NatToString(codec.asU8(k.keyCode)),
            k.commandId, NatToString(AsU32(k.section))], " ")
    case Script(s) =>
      var desc := EscapeField(s.description);
      var path := EscapeField(s.path);
      var pathQ := if !NoWhitespace(path) then Quoted(path) else path;
      Join(["SCR", NatToString(TerminationCode(s.terminationBehavior)),
            NatToString(AsU32(s.section)), s.commandId, Quoted(desc), pathQ], " ")
    case Action(a) =>
      var cmd := EscapeField(a.commandId);
      var desc := EscapeField(a.description);
      var ids := Join(a.actionIds, " ");
      var fields := ["ACT", NatToString(FlagBits(a.actionFlags)), NatToString(AsU32(a.section)),
                     Quoted(cmd), Quoted(desc)];
      if ids == [] then Join(fields, " ") else Join(fields + [ids], " ")
  }

  // ---------------------------------------------------------------------
  // Parsing
  // ---------------------------------------------------------------------

  /** The text before the first `#`, trimmed. */
  function DataPart(line: string): (r: string)
    ensures '#' !in r
  {
    TrimFree(Split(line, '#')[0], '#');
    Trim(Split(line, '#')[0])
  }

  /** `parts.next().ok_or(MissingField { tag, field })` for the i-th token. */
  function NextField(parts: seq<string>, i: nat, tag: string, field: string): Result<string, ParseError> {
    if i < |parts| then Ok(parts[i]) else Err(MissingField(tag, field))
  }

  /** `s.parse::<uN>().map_err(|e| InvalidNumber { tag, field, .. })`. */
  function NumberField(s: string, bound: nat, tag: string, field: string): (r: Result<nat, ParseError>)
    ensures r.Ok? ==> r.value < bound
  {
    match ParseUnsigned(s, bound)
    case Some(n) => Ok(n)
    case None => Err(InvalidNumber(tag, field))
  }

  /** The KEY branch: modifiers, key code, command id and section, in that
      order; tokens after the section are ignored. */
  function ParseKey(codec: KeyCodec, parts: seq<string>): (r: Result<ReaperEntry, ParseError>)
    ensures r.Ok? ==> r.value.Key? && |parts| >= 5 && r.value.key.commandId == parts[3]
    ensures r.Err? && r.error.MissingField? ==> r.error.tag == "KEY"
  {
    var modsStr :- NextField(parts, 1, "KEY", "modifiers");
    var mods :- NumberField(modsStr, 0x100, "KEY", "modifiers");
    var modifiers :- OkOr(TryFromReaperCode(mods), InvalidModifierCode(mods));
    var codeStr :- NextField(parts, 2, "KEY", "key_code");
    var code :- NumberField(codeStr, 0x1_0000, "KEY", "key_code");
    var keyCode :- OkOr(codec.fromU16(code), InvalidKeyCode(code));
    var cmd :- NextField(parts, 3, "KEY", "command_id");
    var secStr :- NextField(parts, 4, "KEY", "section");
    var sec :- NumberField(secStr, 0x1_0000_0000, "KEY", "section");
    var section :- OkOr(FromU32(sec), InvalidSectionCode(sec));
    Ok(Key(KeyEntry(modifiers, keyCode, cmd, section)))
  }

  /** The SCR branch: termination and section tokens, the command id as the
      next whitespace token, then the description and path from the pieces
      of the data part split at `"`. */
  function ParseScript(before: string, parts: seq<string>): (r: Result<ReaperEntry, ParseError>)
    ensures r.Ok? ==> r.value.Script? && |parts| >= 4 && r.value.script.commandId == parts[3]
    ensures r.Ok? ==> '"' !in r.value.script.description && '"' !in r.value.script.path
    ensures r.Err? && r.error.MissingField? ==> r.error.tag == "SCR"
  {
    var termStr :- NextField(parts, 1, "SCR", "termination");
    var term :- NumberField(termStr, 0x1_0000_0000, "SCR", "termination");
    var terminationBehavior :- OkOr(TerminationFromU32(term), InvalidTermination(term));
    var secStr :- NextField(parts, 2, "SCR", "section");
    var sec :- NumberField(secStr, 0x1_0000_0000, "SCR", "section");
    var section :- OkOr(FromU32(sec), InvalidSectionCode(sec));
    var cmd :- NextField(parts, 3, "SCR", "command_id");
    var quoteParts := Split(before, '"');
    if |quoteParts| < 3 then
      Err(MissingField("SCR", "description"))
    else
      TrimFree(quoteParts[2], '"');
      var path := if |quoteParts| > 3 then quoteParts[3] else Trim(quoteParts[2]);
      Ok(Script(ScriptEntry(terminationBehavior, section, cmd, quoteParts[1], path)))
  }

  /** The ACT branch: flags (truncated) and section tokens, then the command
      id and description as the 2nd and 4th `"`-pieces, and the action ids
      as the whitespace tokens of the 5th piece. */
  function ParseAction(before: string, parts: seq<string>): (r: Result<ReaperEntry, ParseError>)
    ensures r.Ok? ==> r.value.Action? && |parts| >= 3
    ensures r.Ok? ==> '"' !in r.value.action.commandId && '"' !in r.value.action.description
    ensures r.Err? && r.error.MissingField? ==> r.error.tag == "ACT"
  {
    var flagsStr :- NextField(parts, 1, "ACT", "flags");
    var flags :- NumberField(flagsStr, 0x1_0000_0000, "ACT", "flags");
    var actionFlags := FlagsFromBitsTruncate(flags);
    var secStr :- NextField(parts, 2, "ACT", "section");
    var sec :- NumberField(secStr, 0x1_0000_0000, "ACT", "section");
    var section :- OkOr(FromU32(sec), InvalidSectionCode(sec));
    var quoteParts := Split(before, '"');
    if |quoteParts| < 4 then
      Err(MissingField("ACT", "command_id/description"))
    else
      var idsPart := if |quoteParts| > 4 then quoteParts[4] else "";
      Ok(Action(ActionEntry(actionFlags, section, quoteParts[1], quoteParts[3], Tokens(idsPart))))
  }

  /** The tag a line of this kind of entry starts with. */
  function EntryTag(e: ReaperEntry): string {
    match e
    case Key(_) => "KEY"
    case Script(_) => "SCR"
    case Action(_) => "ACT"
  }

  /** `ReaperEntry::from_line`: only the data part of the line is read; an
      entry comes back only from a data part whose first token is that
      entry's tag, and the "tag" field is missing exactly when the data part
      has no token. */
  function FromLine(codec: KeyCodec, line: string): (r: Result<ReaperEntry, ParseError>)
    ensures r.Ok? ==> Tokens(DataPart(line)) != [] && Tokens(DataPart(line))[0] == EntryTag(r.value)
    ensures r == Err(MissingField("<line>", "tag")) <==> Tokens(DataPart(line)) == []
  {
    FromData(codec, DataPart(line))
  }

  /** Dispatch on the first token of the data part. */
  function FromData(codec: KeyCodec, before: string): (r: Result<ReaperEntry, ParseError>)
    ensures r.Ok? ==> Tokens(before) != [] && Tokens(before)[0] == EntryTag(r.value)
    ensures r == Err(MissingField("<line>", "tag")) <==> Tokens(before) == []
  {
    var parts := Tokens(before);
    if parts == [] then Err(MissingField("<line>", "tag"))
    else if parts[0] == "KEY" then ParseKey(codec, parts)
    else if parts[0] == "SCR" then ParseScript(before, parts)
    else if parts[0] == "ACT" then ParseAction(before, parts)
    else Err(InvalidTag(parts[0]))
  }

  // ---------------------------------------------------------------------
  // Lists of entries
  // ---------------------------------------------------------------------

  /** `from_line` with a fixed key codec, as a function value. */
  function LineParser(codec: KeyCodec): string -> Result<ReaperEntry, ParseError> {
    line => FromLine(codec, line)
  }

  /** What loading a sequence of lines with the line parser `parse` yields:
      the entries of the lines that parse, in line order. */
  function ParsedEntries(parse: string -> Result<ReaperEntry, ParseError>, lines: seq<string>): seq<ReaperEntry> {
    if lines == [] then []
    else ParsedEntries(parse, lines[..|lines| - 1]) + Kept(parse(lines[|lines| - 1]))
  }

  /** What one line adds to the list: its entry, or nothing on an error. */
  function Kept(r: Result<ReaperEntry, ParseError>): seq<ReaperEntry> {
    match r
    case Ok(e) => [e]
    case Err(_) => []
  }

  /** The loop of `ReaperActionList::load_from_file`, over lines already
      read: push each entry that parses, silently drop each line that does
      not. */
  method LoadFromLines(codec: KeyCodec, lines: seq<string>) returns (entries: seq<ReaperEntry>)
    ensures entries == ParsedEntries(LineParser(codec), lines)
    ensures |entries| <= |lines|
  {
    entries := [];
    var i := 0;
    while i < |lines|
      invariant 0 <= i <= |lines|
      invariant entries == ParsedEntries(LineParser(codec), lines[..i])
      invariant |entries| <= i
    {
      var parsed := FromLine(codec, lines[i]);
      assert lines[..i + 1][..i] == lines[..i] && lines[..i + 1][i] == lines[i];
      assert ParsedEntries(LineParser(codec), lines[..i + 1])
          == ParsedEntries(LineParser(codec), lines[..i]) + Kept(parsed);
      match parsed {
        case Ok(entry) => entries := entries + [entry];
        case Err(_) =>
      }
      i := i + 1;
    }
    assert lines[..i] == lines;
  }

  /** The file `save_to_file` writes: each entry's line and a newline. */
  function SavedText(write: ReaperEntry -> string, entries: seq<ReaperEntry>): string {
    if entries == [] then []
    else SavedText(write, entries[..|entries| - 1]) + write(entries[|entries| - 1]) + "\n"
  }

  /** `to_line` with a fixed key codec, as a function value. */
  function LineWriter(codec: KeyCodec): ReaperEntry -> string {
    e => ToLine(codec, e)
  }

  /** The loop of `ReaperActionList::save_to_file`, writing into a string. */
  method SaveToText(codec: KeyCodec, entries: seq<ReaperEntry>) returns (text: string)
    ensures text == SavedText(LineWriter(codec), entries)
  {
    text := [];
    var i := 0;
    while i < |entries|
      invariant 0 <= i <= |entries|
      invariant text == SavedText(LineWriter(codec), entries[..i])
    {
      assert entries[..i + 1][..i] == entries[..i];
      text := text + ToLine(codec, entries[i]) + "\n";
      i := i + 1;
    }
    assert entries[..i] == entries;
  }

  /** `ReaperActionList::keys`: the KEY entries, in list order. */
  function Keys(entries: seq<ReaperEntry>): (r: seq<KeyEntry>)
    ensures |r| <= |entries|
    ensures forall k :: k in r <==> Key(k) in entries
  {
    if entries == [] then []
    else (if entries[0].Key? then [entries[0].key] else []) + Keys(entries[1..])
  }

  /** Loading a concatenation of line sequences loads each in turn. */
  lemma {:induction false} ParsedEntriesAppend(parse: string -> Result<ReaperEntry, ParseError>,
                                               a: seq<string>, b: seq<string>)
    ensures ParsedEntries(parse, a + b) == ParsedEntries(parse, a) + ParsedEntries(parse, b)
    decreases |b|
  {
    if b == [] {
      assert a + b == a;
    } else {
      var n := |b| - 1;
      assert (a + b)[..|a + b| - 1] == a + b[..n];
      assert (a + b)[|a + b| - 1] == b[n];
      ParsedEntriesAppend(parse, a, b[..n]);
    }
  }

  /** Lines that all fail to parse load as nothing. */
  lemma {:induction false} ParsedEntriesOfFailures(parse: string -> Result<ReaperEntry, ParseError>,
                                                   lines: seq<string>)
    requires forall i :: 0 <= i < |lines| ==> parse(lines[i]).Err?
    ensures ParsedEntries(parse, lines) == []
  {
    if lines != [] {
      ParsedEntriesOfFailures(parse, lines[..|lines| - 1]);
    }
  }

  /** Every loaded entry is the parse of some line. */
  lemma {:induction false} ParsedEntriesFromLines(parse: string -> Result<ReaperEntry, ParseError>,
                                                  lines: seq<string>, e: ReaperEntry)
    requires e in ParsedEntries(parse, lines)
    ensures exists i :: 0 <= i < |lines| && parse(lines[i]) == Ok(e)
  {
    var n := |lines| - 1;
    var init := lines[..n];
    if e in ParsedEntries(parse, init) {
      ParsedEntriesFromLines(parse, init, e);
      var i :| 0 <= i < |init| && parse(init[i]) == Ok(e);
      assert lines[i] == init[i];
    } else {
      assert parse(lines[n]) == Ok(e);
    }
  }

  /** The text written for a list: the first entry's line, then the rest. */
  lemma {:induction false} SavedTextCons(write: ReaperEntry -> string, entries: seq<ReaperEntry>)
    requires entries != []
    ensures SavedText(write, entries) == write(entries[0]) + "\n" + SavedText(write, entries[1..])
    decreases |entries|
  {
    if |entries| > 1 {
      var n := |entries| - 1;
      assert entries[1..][..n - 1] == entries[..n][1..];
      assert entries[1..][n - 1] == entries[n];
      SavedTextCons(write, entries[..n]);
      var head := write(entries[0]) + "\n";
      var mid := SavedText(write, entries[1..n]);
      var last := write(entries[n]) + "\n";
      assert SavedText(write, entries) == head + mid + last;
      assert SavedText(write, entries[1..]) == mid + last;
    } else {
      assert entries[..0] == [];
    }
  }

  /** `keys` distributes over concatenation: the order is kept. */
  lemma {:induction false} KeysAppend(a: seq<ReaperEntry>, b: seq<ReaperEntry>)
    ensures Keys(a + b) == Keys(a) + Keys(b)
    decreases |a|
  {
    if a == [] {
      assert a + b == b;
    } else {
      assert (a + b)[1..] == a[1..] + b;
      KeysAppend(a[1..], b);
    }
  }

  /** `ReaperActionInput`: a key and its modifiers. */
  datatype ActionInput = ActionInput(key: KeyCode, modifiers: Modifiers)

  predicate Matches(k: KeyEntry, input: ActionInput) {
    k.modifiers == input.modifiers && k.keyCode == input.key
  }

  /** `Iterator::find`: the index of the first match, or |keys| if none. */
  function FindMatch(keys: seq<KeyEntry>, input: ActionInput): (i: nat)
    ensures i <= |keys|
    ensures forall j :: 0 <= j < i ==> !Matches(keys[j], input)
    ensures i < |keys| ==> Matches(keys[i], input)
  {
    if keys == [] then 0
    else if Matches(keys[0], input) then 0
    else 1 + FindMatch(keys[1..], input)
  }

  /** `lookup_command_id`: the command id of the first KEY entry with the
      input's modifiers and key, if any. */
  function LookupCommandId(entries: seq<ReaperEntry>, input: ActionInput): (r: Option<string>)
    ensures r.None? <==> forall k :: k in Keys(entries) ==> !Matches(k, input)
    ensures r.Some? ==> exists i :: 0 <= i < |Keys(entries)| && Matches(Keys(entries)[i], input)
                         && Keys(entries)[i].commandId == r.value
                         && forall j :: 0 <= j < i ==> !Matches(Keys(entries)[j], input)
  {
    var keys := Keys(entries);
    var i := FindMatch(keys, input);
    if i < |keys| then Some(keys[i].commandId) else None
  }

  /** The first matching KEY entry wins, even when later ones match too. */
  lemma LookupFindsFirst(entries: seq<ReaperEntry>, input: ActionInput, i: nat)
    requires i < |Keys(entries)| && Matches(Keys(entries)[i], input)
    requires forall j :: 0 <= j < i ==> !Matches(Keys(entries)[j], input)
    ensures LookupCommandId(entries, input) == Some(Keys(entries)[i].commandId)
  {
    FirstMatchUnique(Keys(entries), input, i);
  }

  lemma {:induction false} FirstMatchUnique(keys: seq<KeyEntry>, input: ActionInput, i: nat)
    requires i < |keys| && Matches(keys[i], input)
    requires forall j :: 0 <= j < i ==> !Matches(keys[j], input)
    ensures FindMatch(keys, input) == i
  {
  }

  /** Looking up in a concatenation looks in the first part, then the second. */
  lemma LookupAppend(a: seq<ReaperEntry>, b: seq<ReaperEntry>, input: ActionInput)
    ensures LookupCommandId(a + b, input)
         == if LookupCommandId(a, input).Some? then LookupCommandId(a, input) else LookupCommandId(b, input)
  {
    KeysAppend(a, b);
    var ka, kb := Keys(a), Keys(b);
    var i := FindMatch(ka, input);
    if i < |ka| {
      FirstMatchUnique(ka + kb, input, i);
    } else {
      var j := FindMatch(kb, input);
      if j < |kb| {
        FirstMatchUnique(ka + kb, input, |ka| + j);
      } else {
        assert forall k :: k in ka + kb ==> k in ka || k in kb;
      }
    }
  }

  /** `make_test_action_list`: A, Ctrl+A and Ctrl+B in the main section. */
  method MakeTestActionList(a: KeyCode, b: KeyCode) returns (entries: seq<ReaperEntry>)
    ensures Keys(entries) == TestKeys(a, b)
    ensures LookupCommandId(entries, ActionInput(a, EMPTY)) == Some("40044")
    ensures a != b ==> LookupCommandId(entries, ActionInput(a, CONTROL)) == Some("shifted command id")
    ensures a != b ==> LookupCommandId(entries, ActionInput(b, CONTROL)) == Some("SWS_ACTION")
    ensures forall k :: LookupCommandId(entries, ActionInput(k, SHIFT)) == None
  {
    var keys := TestKeys(a, b);
    entries := [];
    entries := entries + [Key(keys[0])];
    entries := entries + [Key(keys[1])];
    entries := entries + [Key(keys[2])];
    assert entries[1..][1..] == [Key(keys[2])];
    assert Keys(entries) == keys;
    TestListFinds(entries, a, b);
    TestListMisses(entries, a, b);
  }

  /** The three bindings the test list holds, in order. */
  function TestKeys(a: KeyCode, b: KeyCode): seq<KeyEntry> {
    [KeyEntry(EMPTY, a, "40044", Main),
     KeyEntry(CONTROL, a, "shifted command id", Main),
     KeyEntry(CONTROL, b, "SWS_ACTION", Main)]
  }

  lemma TestListFinds(entries: seq<ReaperEntry>, a: KeyCode, b: KeyCode)
    requires Keys(entries) == TestKeys(a, b)
    ensures LookupCommandId(entries, ActionInput(a, EMPTY)) == Some("40044")
    ensures a != b ==> LookupCommandId(entries, ActionInput(a, CONTROL)) == Some("shifted command id")
    ensures a != b ==> LookupCommandId(entries, ActionInput(b, CONTROL)) == Some("SWS_ACTION")
  {
    var keys := TestKeys(a, b);
    FirstMatchUnique(keys, ActionInput(a, EMPTY), 0);
    if a != b {
      var ctrlA, ctrlB := ActionInput(a, CONTROL), ActionInput(b, CONTROL);
      assert !Matches(keys[0], ctrlA) && !Matches(keys[0], ctrlB) && !Matches(keys[1], ctrlB);
      FirstMatchUnique(keys, ctrlA, 1);
      FirstMatchUnique(keys, ctrlB, 2);
    }
  }

  lemma TestListMisses(entries: seq<ReaperEntry>, a: KeyCode, b: KeyCode)
    requires Keys(entries) == TestKeys(a, b)
    ensures forall k :: LookupCommandId(entries, ActionInput(k, SHIFT)) == None
  {
    forall k: KeyCode ensures LookupCommandId(entries, ActionInput(k, SHIFT)) == None {
      assert forall key :: key in TestKeys(a, b) ==> !Matches(key, ActionInput(k, SHIFT));
    }
  }
}
