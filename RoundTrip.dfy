/** What survives `to_line` followed by `from_line` (src/action_list.rs).

    The writer escapes backslashes and quotes but the reader never
    un-escapes, splits quoted fields at every `"`, and drops everything after
    a `#`. So an entry comes back from its own line exactly when its strings
    avoid those characters: with `"` and `#` excluded, the reader returns the
    entry with its quoted strings in escaped form, which is the entry itself
    exactly when they hold no backslash. */
module LineRoundTrip {
  import opened Prelude
  import opened Text
  import opened ModifierCodec
  import opened SectionTable
  import opened ActionList

  // ---------------------------------------------------------------------
  // Which entries a line can carry
  // ---------------------------------------------------------------------

  /** A string the reader can get back from between quotes: it has no `"`
      (the reader splits on it) and no `#` (the reader cuts the line there). */
  predicate Quotable(s: string) {
    '"' !in s && '#' !in s
  }

  /** A string that stays one whitespace-separated token. */
  predicate Word(s: string) {
    IsToken(s) && Quotable(s)
  }

  /** KEY: a modifier set the byte can carry, a key code the codec restores,
      and a command id that is one token without `#`. */
  predicate KeyCarried(codec: KeyCodec, k: KeyEntry) {
    Canonical(k.modifiers) && KeyCodeRoundTrips(codec, k.keyCode)
    && IsToken(k.commandId) && '#' !in k.commandId
  }

  /** SCR: a one-token command id, and a description and path that can be
      quoted. */
  predicate ScriptCarried(s: ScriptEntry) {
    Word(s.commandId) && Quotable(s.description) && Quotable(s.path)
  }

  /** ACT: a command id and description that can be quoted, and action ids
      that are tokens without `"` or `#`. */
  predicate ActionCarried(a: ActionEntry) {
    Quotable(a.commandId) && Quotable(a.description)
    && forall i :: 0 <= i < |a.actionIds| ==> Word(a.actionIds[i])
  }

  predicate Carried(codec: KeyCodec, e: ReaperEntry) {
    match e
    case Key(k) => KeyCarried(codec, k)
    case Script(s) => ScriptCarried(s)
    case Action(a) => ActionCarried(a)
  }

  /** What the reader returns for a carried entry: the quoted strings as the
      writer escaped them. */
  function ReadBack(e: ReaperEntry): ReaperEntry {
    match e
    case Key(_) => e
    case Script(s) => Script(s.(description := EscapeField(s.description), path := EscapeField(s.path)))
    case Action(a) => Action(a.(commandId := EscapeField(a.commandId), description := EscapeField(a.description)))
  }

  /** The quoted strings hold no backslash, so escaping leaves them alone. */
  predicate NoBackslash(e: ReaperEntry) {
    match e
    case Key(_) => true
    case Script(s) => '\\' !in s.description && '\\' !in s.path
    case Action(a) => '\\' !in a.commandId && '\\' !in a.description
  }

  /** A line that `lines()` gives back unchanged once a newline follows it:
      it does not end in a carriage return. */
  predicate EndsCleanly(line: string) {
    line != [] && line[|line| - 1] != '\r'
  }

  // ---------------------------------------------------------------------
  // Numbers and fixed tokens
  // ---------------------------------------------------------------------

  lemma NumberToken(n: nat)
    ensures IsToken(NatToString(n))
    ensures Quotable(NatToString(n)) && '\n' !in NatToString(n)
    ensures !IsWhitespace(NatToString(n)[|NatToString(n)| - 1])
  {
    DigitsAreNot(NatToString(n), '#');
    DigitsAreNot(NatToString(n), '"');
  }

  /** The head fields of a line, which no parser step looks inside. */
  lemma HeadTokens(head: seq<string>)
    requires |head| >= 1 && head[0] != []
    requires forall i :: 0 <= i < |head| ==> IsToken(head[i]) && Quotable(head[i])
    ensures AllTokens(head)
    ensures '#' !in Join(head, " ") && '"' !in Join(head, " ")
    ensures Join(head, " ") != [] && Join(head, " ")[0] == head[0][0]
  {
    JoinFree(head, '#');
    JoinFree(head, '"');
    JoinFirst(head, " ");
  }

  // ---------------------------------------------------------------------
  // KEY
  // ---------------------------------------------------------------------

  function KeyFields(codec: KeyCodec, k: KeyEntry): seq<string> {
    ["KEY", NatToString(ReaperCode(k.modifiers)), NatToString(codec.asU8(k.keyCode)),
     k.commandId, NatToString(AsU32(k.section))]
  }

  /** A KEY line is its own data part, and its tokens are its fields. */
  lemma KeyLineShape(codec: KeyCodec, k: KeyEntry)
    requires KeyCarried(codec, k)
    ensures DataPart(ToLine(codec, Key(k))) == ToLine(codec, Key(k))
    ensures Tokens(ToLine(codec, Key(k))) == KeyFields(codec, k)
    ensures EndsCleanly(ToLine(codec, Key(k)))
  {
    var fields := KeyFields(codec, k);
    var line := Join(fields, " ");
    assert line == ToLine(codec, Key(k));
    NumberToken(ReaperCode(k.modifiers));
    NumberToken(codec.asU8(k.keyCode));
    NumberToken(AsU32(k.section));
    assert forall i :: 0 <= i < |fields| ==> IsToken(fields[i]) && '#' !in fields[i];
    JoinFree(fields, '#');
    SplitWithout(line, '#');
    JoinFirst(fields, " ");
    JoinLast(fields, " ");
    TrimUnchanged(line);
    TokensOfJoin(fields);
  }

  /** The KEY branch reads its fields back. */
  lemma ParseKeyFields(codec: KeyCodec, k: KeyEntry)
    requires KeyCarried(codec, k)
    ensures ParseKey(codec, KeyFields(codec, k)) == Ok(Key(k))
  {
    var fields := KeyFields(codec, k);
    var mods, code, sec := ReaperCode(k.modifiers), codec.asU8(k.keyCode), AsU32(k.section);
    NumberFieldOf(mods, 0x100, "KEY", "modifiers");
    NumberFieldOf(code, 0x1_0000, "KEY", "key_code");
    NumberFieldOf(sec, 0x1_0000_0000, "KEY", "section");
    DecodeEncode(k.modifiers);
    SectionRoundTrip(k.section);
  }

  /** A formatted number reads back through `parse`. */
  lemma NumberFieldOf(n: nat, bound: nat, tag: string, field: string)
    requires n < bound
    ensures NumberField(NatToString(n), bound, tag, field) == Ok(n)
  {
    ParseNatToString(n, bound);
  }

  /** `from_line(to_line(e)) == e` for every carried KEY entry. */
  lemma KeyRoundTrip(codec: KeyCodec, k: KeyEntry)
    requires KeyCarried(codec, k)
    ensures FromLine(codec, ToLine(codec, Key(k))) == Ok(Key(k))
  {
    KeyLineShape(codec, k);
    ParseKeyFields(codec, k);
  }

  // ---------------------------------------------------------------------
  // SCR
  // ---------------------------------------------------------------------

  function ScriptHead(s: ScriptEntry): seq<string> {
    ["SCR", NatToString(TerminationCode(s.terminationBehavior)), NatToString(AsU32(s.section)),
     s.commandId]
  }

  /** The quoted description that follows the head of an SCR line. */
  function ScriptCore(s: ScriptEntry): string {
    Join(ScriptHead(s), " ") + " " + "\"" + EscapeField(s.description) + "\""
  }

  /** The data part of an SCR line: the head and quoted description, then
      the path, quoted when it holds whitespace and absent when empty (the
      trailing space is trimmed). */
  function ScriptData(s: ScriptEntry): string {
    var path := EscapeField(s.path);
    if path != [] then ScriptCore(s) + " " + PathField(path) else ScriptCore(s)
  }

  /** The path as `to_line` writes it: quoted when it holds whitespace. */
  function PathField(path: string): string {
    if !NoWhitespace(path) then Quoted(path) else path
  }

  lemma ScriptStrings(s: ScriptEntry)
    requires ScriptCarried(s)
    ensures Quotable(EscapeField(s.description)) && Quotable(EscapeField(s.path))
    ensures '"' !in Join(ScriptHead(s), " ") + " " && '#' !in Join(ScriptHead(s), " ") + " "
    ensures AllTokens(ScriptHead(s)) && Join(ScriptHead(s), " ")[0] == 'S'
  {
    EscapeFieldNoQuote(s.description);
    EscapeFieldNoQuote(s.path);
    EscapeFieldFree(s.description, '#');
    EscapeFieldFree(s.path, '#');
    var head := ScriptHead(s);
    NumberToken(TerminationCode(s.terminationBehavior));
    NumberToken(AsU32(s.section));
    assert forall i :: 0 <= i < |head| ==> IsToken(head[i]) && Quotable(head[i]);
    HeadTokens(head);
  }

  /** An SCR line is the head, the quoted description, a space and the
      path field. */
  lemma ScriptLineForm(codec: KeyCodec, s: ScriptEntry)
    ensures ToLine(codec, Script(s)) == ScriptCore(s) + " " + PathField(EscapeField(s.path))
  {
    var head := ScriptHead(s);
    var desc := EscapeField(s.description);
    var pathQ := PathField(EscapeField(s.path));
    JoinAppend(head, [Quoted(desc), pathQ], " ");
    assert head + [Quoted(desc), pathQ] == ["SCR", NatToString(TerminationCode(s.terminationBehavior)),
      NatToString(AsU32(s.section)), s.commandId, Quoted(desc), pathQ];
    JoinTwo(Quoted(desc), pathQ);
  }

  /** An SCR line's data part is `ScriptData`, and the line ends cleanly. */
  lemma ScriptLineData(codec: KeyCodec, s: ScriptEntry)
    requires ScriptCarried(s)
    ensures DataPart(ToLine(codec, Script(s))) == ScriptData(s)
    ensures EndsCleanly(ToLine(codec, Script(s)))
  {
    ScriptStrings(s);
    ScriptLineForm(codec, s);
    var core := ScriptCore(s);
    assert core[|core| - 1] == '"';
    ScriptTail(core, EscapeField(s.path));
  }

  /** Trimming the end of a line made of a core ending in `"`, a space and
      a path field; the space goes when the path is empty. */
  lemma ScriptTail(core: string, path: string)
    requires core != [] && !IsWhitespace(core[0]) && core[|core| - 1] == '"'
    requires '#' !in core && '#' !in path
    ensures DataPart(core + " " + PathField(path))
         == if path != [] then core + " " + PathField(path) else core
    ensures EndsCleanly(core + " " + PathField(path))
  {
    var line := core + " " + PathField(path);
    assert '#' !in line;
    SplitWithout(line, '#');
    if path == [] {
      assert line == core + " ";
      TrimBeforeBlank(core, " ");
      TrimUnchanged(core);
    } else {
      if NoWhitespace(path) {
        assert line[|line| - 1] == path[|path| - 1];
        assert !IsWhitespace(path[|path| - 1]) && IsWhitespace('\r');
      } else {
        assert line[|line| - 1] == '"';
      }
      TrimUnchanged(line);
    }
  }

  /** The whitespace tokens of an SCR data part start with its head. */
  lemma ScriptDataTokens(s: ScriptEntry)
    requires ScriptCarried(s)
    ensures |Tokens(ScriptData(s))| >= 4
    ensures forall i :: 0 <= i < 4 ==> Tokens(ScriptData(s))[i] == ScriptHead(s)[i]
  {
    ScriptStrings(s);
    var head := ScriptHead(s);
    var data := ScriptData(s);
    var h := Join(head, " ");
    var tail := data[|h|..];
    assert data == h + tail && tail[0] == ' ';
    TokensOfJoinThen(head, tail);
  }

  /** The `"`-pieces of an SCR data part, and the path the reader takes
      from them. */
  lemma ScriptDataPieces(s: ScriptEntry)
    requires ScriptCarried(s)
    ensures |Split(ScriptData(s), '"')| >= 3
    ensures Split(ScriptData(s), '"')[1] == EscapeField(s.description)
    ensures (if |Split(ScriptData(s), '"')| > 3 then Split(ScriptData(s), '"')[3]
             else Trim(Split(ScriptData(s), '"')[2])) == EscapeField(s.path)
  {
    ScriptStrings(s);
    var front := Join(ScriptHead(s), " ") + " ";
    var desc := EscapeField(s.description);
    var path := EscapeField(s.path);
    assert ScriptCore(s) == front + "\"" + desc + "\"";
    if !NoWhitespace(path) {
      assert ScriptData(s) == front + "\"" + desc + "\"" + " " + "\"" + path + "\"" + "";
      SplitFive(front, desc, " ", path, "", '"');
    } else if path != [] {
      assert ScriptData(s) == front + "\"" + desc + "\"" + (" " + path);
      SplitThree(front, desc, " " + path, '"');
      TrimAfterBlank(" ", path);
      TrimUnchanged(path);
    } else {
      assert ScriptData(s) == front + "\"" + desc + "\"" + "";
      SplitThree(front, desc, "", '"');
    }
  }

  /** The SCR branch reads the head and pieces of `ScriptData` back. */
  lemma ParseScriptData(s: ScriptEntry)
    requires ScriptCarried(s)
    ensures ParseScript(ScriptData(s), Tokens(ScriptData(s))) == Ok(ReadBack(Script(s)))
  {
    ScriptDataTokens(s);
    ScriptDataPieces(s);
    ParseScriptFields(ScriptData(s), Tokens(ScriptData(s)), s);
  }

  /** The SCR branch on any data part whose tokens start with the head of
      `s` and whose `"`-pieces hold the escaped description and path. */
  lemma ParseScriptFields(before: string, parts: seq<string>, s: ScriptEntry)
    requires |parts| >= 4 && forall i :: 0 <= i < 4 ==> parts[i] == ScriptHead(s)[i]
    requires |Split(before, '"')| >= 3
    requires Split(before, '"')[1] == EscapeField(s.description)
    requires (if |Split(before, '"')| > 3 then Split(before, '"')[3]
              else Trim(Split(before, '"')[2])) == EscapeField(s.path)
    ensures ParseScript(before, parts) == Ok(ReadBack(Script(s)))
  {
    assert parts[1] == NatToString(TerminationCode(s.terminationBehavior));
    assert parts[2] == NatToString(AsU32(s.section));
    assert parts[3] == s.commandId;
    NumberFieldOf(TerminationCode(s.terminationBehavior), 0x1_0000_0000, "SCR", "termination");
    NumberFieldOf(AsU32(s.section), 0x1_0000_0000, "SCR", "section");
    TerminationRoundTrip(s.terminationBehavior);
    SectionRoundTrip(s.section);
  }

  /** The reader returns a carried SCR entry with its description and path
      in escaped form. */
  lemma ScriptReadBack(codec: KeyCodec, s: ScriptEntry)
    requires ScriptCarried(s)
    ensures FromLine(codec, ToLine(codec, Script(s))) == Ok(ReadBack(Script(s)))
    ensures EndsCleanly(ToLine(codec, Script(s)))
  {
    ScriptLineData(codec, s);
    ScriptDataTokens(s);
    ParseScriptData(s);
    DispatchScript(codec, ToLine(codec, Script(s)));
  }

  /** A line whose first token is SCR goes to the SCR branch. */
  lemma DispatchScript(codec: KeyCodec, line: string)
    requires Tokens(DataPart(line)) != [] && Tokens(DataPart(line))[0] == "SCR"
    ensures FromLine(codec, line) == ParseScript(DataPart(line), Tokens(DataPart(line)))
  {
  }

  // ---------------------------------------------------------------------
  // ACT
  // ---------------------------------------------------------------------

  function ActionHead(a: ActionEntry): seq<string> {
    ["ACT", NatToString(FlagBits(a.actionFlags)), NatToString(AsU32(a.section))]
  }

  /** The head, then the quoted command id and description. */
  function ActionCore(a: ActionEntry): string {
    Join(ActionHead(a), " ") + " " + "\"" + EscapeField(a.commandId) + "\"" + " "
      + "\"" + EscapeField(a.description) + "\""
  }

  /** The action ids after a space, or nothing when there are none. */
  function ActionTail(a: ActionEntry): string {
    var ids := Join(a.actionIds, " ");
    if ids == [] then "" else " " + ids
  }

  lemma ActionStrings(a: ActionEntry)
    requires ActionCarried(a)
    ensures Quotable(EscapeField(a.commandId)) && Quotable(EscapeField(a.description))
    ensures '"' !in Join(ActionHead(a), " ") + " " && '#' !in Join(ActionHead(a), " ") + " "
    ensures AllTokens(ActionHead(a)) && Join(ActionHead(a), " ")[0] == 'A'
    ensures AllTokens(a.actionIds)
    ensures Quotable(ActionTail(a))
    ensures a.actionIds != [] ==>
              Join(a.actionIds, " ") != []
              && !IsWhitespace(Join(a.actionIds, " ")[|Join(a.actionIds, " ")| - 1])
  {
    EscapeFieldNoQuote(a.commandId);
    EscapeFieldNoQuote(a.description);
    EscapeFieldFree(a.commandId, '#');
    EscapeFieldFree(a.description, '#');
    var head := ActionHead(a);
    NumberToken(FlagBits(a.actionFlags));
    NumberToken(AsU32(a.section));
    assert forall i :: 0 <= i < |head| ==> IsToken(head[i]) && Quotable(head[i]);
    HeadTokens(head);
    var ids := a.actionIds;
    assert forall i :: 0 <= i < |ids| ==> '"' !in ids[i] && '#' !in ids[i];
    JoinFree(ids, '"');
    JoinFree(ids, '#');
    if ids != [] {
      JoinLast(ids, " ");
      var last := ids[|ids| - 1];
      assert IsToken(last);
    }
  }

  /** An ACT line is its core followed by its tail. */
  lemma ActionLineForm(codec: KeyCodec, a: ActionEntry)
    ensures ToLine(codec, Action(a)) == ActionCore(a) + ActionTail(a)
  {
    var fields := ActionFields(a);
    ActionCoreJoin(a);
    var ids := Join(a.actionIds, " ");
    assert ToLine(codec, Action(a)) == if ids == [] then Join(fields, " ") else Join(fields + [ids], " ");
    if ids != [] {
      JoinAppend(fields, [ids], " ");
    }
  }

  /** The five fields an ACT line always has. */
  function ActionFields(a: ActionEntry): seq<string> {
    ActionHead(a) + [Quoted(EscapeField(a.commandId)), Quoted(EscapeField(a.description))]
  }

  /** Joined, those fields are the core. */
  lemma ActionCoreJoin(a: ActionEntry)
    ensures ActionFields(a) == ["ACT", NatToString(FlagBits(a.actionFlags)), NatToString(AsU32(a.section)),
      Quoted(EscapeField(a.commandId)), Quoted(EscapeField(a.description))]
    ensures Join(ActionFields(a), " ") == ActionCore(a)
  {
    var cmd := EscapeField(a.commandId);
    var desc := EscapeField(a.description);
    JoinAppend(ActionHead(a), [Quoted(cmd), Quoted(desc)], " ");
    JoinTwo(Quoted(cmd), Quoted(desc));
  }

  /** An ACT line is its own data part, and it ends cleanly. */
  lemma ActionLineData(codec: KeyCodec, a: ActionEntry)
    requires ActionCarried(a)
    ensures DataPart(ToLine(codec, Action(a))) == ToLine(codec, Action(a))
    ensures EndsCleanly(ToLine(codec, Action(a)))
  {
    ActionStrings(a);
    ActionLineForm(codec, a);
    var core := ActionCore(a);
    var tail := ActionTail(a);
    var line := core + tail;
    assert line[0] == 'A';
    assert '#' !in line;
    SplitWithout(line, '#');
    if a.actionIds == [] {
      assert line[|line| - 1] == '"';
    } else {
      var ids := Join(a.actionIds, " ");
      assert line[|line| - 1] == ids[|ids| - 1];
      assert IsWhitespace('\r');
    }
    TrimUnchanged(line);
  }

  /** The whitespace tokens of an ACT line start with its head. */
  lemma ActionDataTokens(a: ActionEntry)
    requires ActionCarried(a)
    ensures |Tokens(ActionCore(a) + ActionTail(a))| >= 3
    ensures forall i :: 0 <= i < 3 ==> Tokens(ActionCore(a) + ActionTail(a))[i] == ActionHead(a)[i]
  {
    ActionStrings(a);
    var head := ActionHead(a);
    var data := ActionCore(a) + ActionTail(a);
    var h := Join(head, " ");
    var rest := data[|h|..];
    assert data == h + rest && rest[0] == ' ';
    TokensOfJoinThen(head, rest);
  }

  /** The `"`-pieces of an ACT line, and the action ids the reader takes
      from the last of them. */
  lemma ActionDataPieces(a: ActionEntry)
    requires ActionCarried(a)
    ensures |Split(ActionCore(a) + ActionTail(a), '"')| == 5
    ensures Split(ActionCore(a) + ActionTail(a), '"')[1] == EscapeField(a.commandId)
    ensures Split(ActionCore(a) + ActionTail(a), '"')[3] == EscapeField(a.description)
    ensures Tokens(Split(ActionCore(a) + ActionTail(a), '"')[4]) == a.actionIds
  {
    ActionStrings(a);
    var front := Join(ActionHead(a), " ") + " ";
    var cmd := EscapeField(a.commandId);
    var desc := EscapeField(a.description);
    var tail := ActionTail(a);
    assert ActionCore(a) + tail == front + "\"" + cmd + "\"" + " " + "\"" + desc + "\"" + tail;
    SplitFive(front, cmd, " ", desc, tail, '"');
    if a.actionIds == [] {
      TokensOfBlank(tail);
    } else {
      TokensAfterSpace(Join(a.actionIds, " "));
      TokensOfJoin(a.actionIds);
    }
  }

  /** The ACT branch on any data part whose tokens start with the head of
      `a` and whose `"`-pieces hold its escaped strings and its ids. */
  lemma ParseActionFields(before: string, parts: seq<string>, a: ActionEntry)
    requires |parts| >= 3 && forall i :: 0 <= i < 3 ==> parts[i] == ActionHead(a)[i]
    requires |Split(before, '"')| == 5
    requires Split(before, '"')[1] == EscapeField(a.commandId)
    requires Split(before, '"')[3] == EscapeField(a.description)
    requires Tokens(Split(before, '"')[4]) == a.actionIds
    ensures ParseAction(before, parts) == Ok(ReadBack(Action(a)))
  {
    assert parts[1] == NatToString(FlagBits(a.actionFlags));
    assert parts[2] == NatToString(AsU32(a.section));
    NumberFieldOf(FlagBits(a.actionFlags), 0x1_0000_0000, "ACT", "flags");
    NumberFieldOf(AsU32(a.section), 0x1_0000_0000, "ACT", "section");
    FlagsRoundTrip(a.actionFlags);
    SectionRoundTrip(a.section);
  }

  /** A line whose first token is ACT goes to the ACT branch. */
  lemma DispatchAction(codec: KeyCodec, line: string)
    requires Tokens(DataPart(line)) != [] && Tokens(DataPart(line))[0] == "ACT"
    ensures FromLine(codec, line) == ParseAction(DataPart(line), Tokens(DataPart(line)))
  {
  }

  /** The reader returns a carried ACT entry with its command id and
      description in escaped form. */
  lemma ActionReadBack(codec: KeyCodec, a: ActionEntry)
    requires ActionCarried(a)
    ensures FromLine(codec, ToLine(codec, Action(a))) == Ok(ReadBack(Action(a)))
    ensures EndsCleanly(ToLine(codec, Action(a)))
  {
    ActionLineData(codec, a);
    ActionLineForm(codec, a);
    ActionDataTokens(a);
    ActionDataPieces(a);
    ParseActionFields(ActionCore(a) + ActionTail(a), Tokens(ActionCore(a) + ActionTail(a)), a);
    DispatchAction(codec, ToLine(codec, Action(a)));
  }

  // ---------------------------------------------------------------------
  // Every carried entry
  // ---------------------------------------------------------------------

  /** `from_line(to_line(e))` is `e` with its quoted strings escaped, and
      the line ends cleanly. */
  lemma ReadBackLaw(codec: KeyCodec, e: ReaperEntry)
    requires Carried(codec, e)
    ensures FromLine(codec, ToLine(codec, e)) == Ok(ReadBack(e))
    ensures EndsCleanly(ToLine(codec, e))
  {
    match e
    case Key(k) => KeyRoundTrip(codec, k); KeyLineShape(codec, k);
    case Script(s) => ScriptReadBack(codec, s);
    case Action(a) => ActionReadBack(codec, a);
  }

  /** Escaping changes a carried entry exactly when one of its quoted
      strings holds a backslash. */
  lemma ReadBackIdentity(codec: KeyCodec, e: ReaperEntry)
    requires Carried(codec, e)
    ensures ReadBack(e) == e <==> NoBackslash(e)
  {
    match e
    case Key(_) =>
    case Script(s) =>
      EscapeFieldIdentity(s.description);
      EscapeFieldIdentity(s.path);
      if ReadBack(e) == e {
        assert EscapeField(s.description) == s.description;
        assert EscapeField(s.path) == s.path;
      }
    case Action(a) =>
      EscapeFieldIdentity(a.commandId);
      EscapeFieldIdentity(a.description);
      if ReadBack(e) == e {
        assert EscapeField(a.commandId) == a.commandId;
        assert EscapeField(a.description) == a.description;
      }
  }

  /** A carried entry survives its own line exactly when its quoted strings
      hold no backslash. */
  lemma RoundTripIff(codec: KeyCodec, e: ReaperEntry)
    requires Carried(codec, e)
    ensures FromLine(codec, ToLine(codec, e)) == Ok(e) <==> NoBackslash(e)
  {
    ReadBackLaw(codec, e);
    ReadBackIdentity(codec, e);
  }

  /** An entry with its quoted strings un-escaped. */
  function Unescaped(e: ReaperEntry): ReaperEntry {
    match e
    case Key(_) => e
    case Script(s) => Script(s.(description := Unescape(s.description), path := Unescape(s.path)))
    case Action(a) => Action(a.(commandId := Unescape(a.commandId), description := Unescape(a.description)))
  }

  /** `from_line` as its writer's escaping calls for: the quoted strings of
      a parsed entry are un-escaped. */
  function FromLineUnescaping(codec: KeyCodec, line: string): Result<ReaperEntry, ParseError> {
    match FromLine(codec, line)
    case Ok(e) => Ok(Unescaped(e))
    case Err(err) => Err(err)
  }

  /** With un-escaping, every carried entry survives its own line, backslashes
      included. */
  lemma UnescapingRoundTrip(codec: KeyCodec, e: ReaperEntry)
    requires Carried(codec, e)
    ensures FromLineUnescaping(codec, ToLine(codec, e)) == Ok(e)
  {
    ReadBackLaw(codec, e);
    match e
    case Key(_) =>
    case Script(s) =>
      UnescapeEscape(s.description);
      UnescapeEscape(s.path);
    case Action(a) =>
      UnescapeEscape(a.commandId);
      UnescapeEscape(a.description);
  }

  // ---------------------------------------------------------------------
  // Saving a list and loading it back
  // ---------------------------------------------------------------------

  /** The quoted strings hold no newline, so the entry stays on one line. */
  predicate SingleLine(e: ReaperEntry) {
    match e
    case Key(_) => true
    case Script(s) => '\n' !in s.description && '\n' !in s.path
    case Action(a) => '\n' !in a.commandId && '\n' !in a.description
  }

  /** Entries the saved file gives back: carried and on one line each. */
  predicate Loadable(codec: KeyCodec, entries: seq<ReaperEntry>) {
    forall i :: 0 <= i < |entries| ==> Carried(codec, entries[i]) && SingleLine(entries[i])
  }

  /** `ReadBack` on every entry, in order. */
  function ReadBackAll(entries: seq<ReaperEntry>): (r: seq<ReaperEntry>)
    ensures |r| == |entries|
  {
    if entries == [] then [] else [ReadBack(entries[0])] + ReadBackAll(entries[1..])
  }

  /** A one-line carried entry writes a line without `\n`. */
  lemma LineHasNoNewline(codec: KeyCodec, e: ReaperEntry)
    requires Carried(codec, e) && SingleLine(e)
    ensures '\n' !in ToLine(codec, e)
  {
    match e
    case Key(k) => KeyLineOneLine(codec, k);
    case Script(s) => ScriptLineOneLine(codec, s);
    case Action(a) => ActionLineOneLine(codec, a);
  }

  lemma KeyLineOneLine(codec: KeyCodec, k: KeyEntry)
    requires KeyCarried(codec, k)
    ensures '\n' !in ToLine(codec, Key(k))
  {
    assert IsWhitespace('\n');
    var fields := KeyFields(codec, k);
    assert ToLine(codec, Key(k)) == Join(fields, " ");
    NumberToken(ReaperCode(k.modifiers));
    NumberToken(codec.asU8(k.keyCode));
    NumberToken(AsU32(k.section));
    assert forall i :: 0 <= i < |fields| ==> '\n' !in fields[i];
    JoinFree(fields, '\n');
  }

  lemma ScriptLineOneLine(codec: KeyCodec, s: ScriptEntry)
    requires ScriptCarried(s) && '\n' !in s.description && '\n' !in s.path
    ensures '\n' !in ToLine(codec, Script(s))
  {
    assert IsWhitespace('\n');
    ScriptLineForm(codec, s);
    EscapeFieldFree(s.description, '\n');
    EscapeFieldFree(s.path, '\n');
    var head := ScriptHead(s);
    NumberToken(TerminationCode(s.terminationBehavior));
    NumberToken(AsU32(s.section));
    assert forall i :: 0 <= i < |head| ==> '\n' !in head[i];
    JoinFree(head, '\n');
  }

  lemma ActionLineOneLine(codec: KeyCodec, a: ActionEntry)
    requires ActionCarried(a) && '\n' !in a.commandId && '\n' !in a.description
    ensures '\n' !in ToLine(codec, Action(a))
  {
    assert IsWhitespace('\n');
    ActionLineForm(codec, a);
    EscapeFieldFree(a.commandId, '\n');
    EscapeFieldFree(a.description, '\n');
    var head := ActionHead(a);
    NumberToken(FlagBits(a.actionFlags));
    NumberToken(AsU32(a.section));
    assert forall i :: 0 <= i < |head| ==> '\n' !in head[i];
    JoinFree(head, '\n');
    var ids := a.actionIds;
    assert forall i :: 0 <= i < |ids| ==> '\n' !in ids[i];
    JoinFree(ids, '\n');
  }

  /** What one written line of a loadable entry does in the file. */
  lemma WrittenLine(codec: KeyCodec, e: ReaperEntry)
    requires Carried(codec, e) && SingleLine(e)
    ensures '\n' !in LineWriter(codec)(e) && EndsCleanly(LineWriter(codec)(e))
    ensures LineParser(codec)(LineWriter(codec)(e)) == Ok(ReadBack(e))
  {
    ReadBackLaw(codec, e);
    LineHasNoNewline(codec, e);
  }

  /** Loading the text `save_to_file` writes gives back every entry, with
      its quoted strings escaped. */
  lemma {:induction false} SaveThenLoad(codec: KeyCodec, entries: seq<ReaperEntry>)
    requires Loadable(codec, entries)
    ensures ParsedEntries(LineParser(codec), Lines(SavedText(LineWriter(codec), entries)))
         == ReadBackAll(entries)
    decreases |entries|
  {
    var parse := LineParser(codec);
    var write := LineWriter(codec);
    if entries != [] {
      var e := entries[0];
      var line := write(e);
      var rest := SavedText(write, entries[1..]);
      SavedTextCons(write, entries);
      WrittenLine(codec, e);
      LinesCons(line, rest);
      ParsedEntriesAppend(parse, [line], Lines(rest));
      ParsedEntriesOne(parse, line);
      assert Loadable(codec, entries[1..]) by {
        forall i | 0 <= i < |entries[1..]|
          ensures Carried(codec, entries[1..][i]) && SingleLine(entries[1..][i])
        {
          assert entries[1..][i] == entries[i + 1];
        }
      }
      SaveThenLoad(codec, entries[1..]);
      calc {
        ParsedEntries(parse, Lines(SavedText(write, entries)));
        ParsedEntries(parse, [line] + Lines(rest));
        ParsedEntries(parse, [line]) + ParsedEntries(parse, Lines(rest));
        [ReadBack(e)] + ReadBackAll(entries[1..]);
      }
    }
  }

  /** Loading one line yields its entry, if it parses. */
  lemma ParsedEntriesOne(parse: string -> Result<ReaperEntry, ParseError>, line: string)
    ensures ParsedEntries(parse, [line]) == Kept(parse(line))
  {
    assert [line][..0] == [];
  }

  /** `ReadBackAll` leaves a list alone when no quoted string holds a
      backslash. */
  lemma {:induction false} ReadBackAllIdentity(codec: KeyCodec, entries: seq<ReaperEntry>)
    requires Loadable(codec, entries)
    requires forall i :: 0 <= i < |entries| ==> NoBackslash(entries[i])
    ensures ReadBackAll(entries) == entries
    decreases |entries|
  {
    if entries != [] {
      ReadBackIdentity(codec, entries[0]);
      ReadBackAllIdentity(codec, entries[1..]);
    }
  }

  /** Saving a list with `SaveToText` and loading the lines of the text with
      `LoadFromLines` gives the list back when its entries are carried, on one
      line each and free of backslashes. */
  method SaveLoadRoundTrip(codec: KeyCodec, entries: seq<ReaperEntry>) returns (loaded: seq<ReaperEntry>)
    requires Loadable(codec, entries)
    requires forall i :: 0 <= i < |entries| ==> NoBackslash(entries[i])
    ensures loaded == entries
  {
    var text := SaveToText(codec, entries);
    loaded := LoadFromLines(codec, Lines(text));
    SaveThenLoad(codec, entries);
    ReadBackAllIdentity(codec, entries);
  }
}
