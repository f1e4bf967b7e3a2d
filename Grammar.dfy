/** The line grammar of `ReaperEntry::from_line` (src/action_list.rs): which
    part of a line is read, how the tag picks a branch, and, per branch, when
    a line is accepted, what the entry holds, and which error comes back
    otherwise. */
module LineGrammar {
  import opened Prelude
  import opened Text
  import opened ModifierCodec
  import opened SectionTable
  import opened ActionList

  // ---------------------------------------------------------------------
  // The data part
  // ---------------------------------------------------------------------

  /** Everything from the first `#` on is a comment and is not read. */
  lemma CommentIgnored(codec: KeyCodec, data: string, comment: string)
    requires '#' !in data
    ensures FromLine(codec, data + "#" + comment) == FromLine(codec, data)
  {
    SplitAt(data, '#', comment);
    SplitWithout(data, '#');
    assert DataPart(data + "#" + comment) == DataPart(data);
  }

  /** Whitespace before the data is not read. */
  lemma LeadingBlankIgnored(codec: KeyCodec, w: string, line: string)
    requires Blank(w)
    ensures FromLine(codec, w + line) == FromLine(codec, line)
  {
    BlankFree(w, '#');
    SplitPrefix(w, line, '#');
    TrimAfterBlank(w, Split(line, '#')[0]);
    assert DataPart(w + line) == DataPart(line);
  }

  /** Whitespace after the data is not read. */
  lemma TrailingBlankIgnored(codec: KeyCodec, line: string, w: string)
    requires Blank(w)
    ensures FromLine(codec, line + w) == FromLine(codec, line)
  {
    FirstPieceAppend(line, w);
    if '#' !in line {
      TrimBeforeBlank(Split(line, '#')[0], w);
    }
    assert DataPart(line + w) == DataPart(line);
  }

  /** Appending blank text changes the part before the first `#` only when
      the line has no `#`, and then only by that text. */
  lemma {:induction false} FirstPieceAppend(line: string, w: string)
    requires Blank(w)
    ensures Split(line + w, '#')[0]
         == if '#' in line then Split(line, '#')[0] else Split(line, '#')[0] + w
    decreases |line|
  {
    BlankFree(w, '#');
    if line == [] {
      SplitWithout(w, '#');
      assert line + w == w;
    } else {
      assert (line + w)[1..] == line[1..] + w;
      FirstPieceAppend(line[1..], w);
      if line[0] != '#' {
        assert ('#' in line) == ('#' in line[1..]);
      }
    }
  }

  // ---------------------------------------------------------------------
  // The tag
  // ---------------------------------------------------------------------

  predicate KnownTag(t: string) {
    t == "KEY" || t == "SCR" || t == "ACT"
  }

  /** A line fails for want of a tag exactly when its data part is blank,
      as a blank or comment-only line is. */
  lemma MissingTagIff(codec: KeyCodec, line: string)
    ensures FromLine(codec, line) == Err(MissingField("<line>", "tag")) <==> Blank(DataPart(line))
  {
    var before := DataPart(line);
    TokensOfBlank(before);
    BranchesNeverBlame(codec, before);
  }

  /** The KEY, SCR and ACT branches never fail for want of a tag or for an
      unknown tag. */
  lemma BranchesNeverBlame(codec: KeyCodec, before: string)
    ensures var parts := Tokens(before);
      parts != [] && KnownTag(parts[0]) ==>
        FromData(codec, before) != Err(MissingField("<line>", "tag"))
        && !(FromData(codec, before).Err? && FromData(codec, before).error.InvalidTag?)
  {
    var parts := Tokens(before);
    if parts != [] && KnownTag(parts[0]) {
      KeyErrorsNameKey(codec, parts);
      ScriptErrorsNameScript(before, parts);
      ActionErrorsNameAction(before, parts);
    }
  }

  /** A comment-only line, possibly indented, fails for want of a tag. */
  lemma CommentLine(codec: KeyCodec, w: string, comment: string)
    requires Blank(w)
    ensures FromLine(codec, w + "#" + comment) == Err(MissingField("<line>", "tag"))
  {
    BlankFree(w, '#');
    SplitAt(w, '#', comment);
    TrimAfterBlank(w, []);
    assert w + [] == w;
    assert DataPart(w + "#" + comment) == [];
  }

  /** A line fails with `InvalidTag(t)` exactly when its first token `t` is
      not KEY, SCR or ACT. */
  lemma InvalidTagIff(codec: KeyCodec, line: string, t: string)
    ensures FromLine(codec, line) == Err(InvalidTag(t))
        <==> Tokens(DataPart(line)) != [] && Tokens(DataPart(line))[0] == t && !KnownTag(t)
  {
    BranchesNeverBlame(codec, DataPart(line));
  }

  /** The kind of entry a line yields is the kind its tag names. */
  lemma EntryKindFollowsTag(codec: KeyCodec, line: string)
    ensures FromLine(codec, line).Ok? ==>
              var t := Tokens(DataPart(line))[0];
              (FromLine(codec, line).value.Key? <==> t == "KEY")
              && (FromLine(codec, line).value.Script? <==> t == "SCR")
              && (FromLine(codec, line).value.Action? <==> t == "ACT")
  {
    var parts := Tokens(DataPart(line));
    if parts != [] {
      KeyAcceptsIff(codec, parts);
      ScriptAcceptsIff(DataPart(line), parts);
      ActionAcceptsIff(DataPart(line), parts);
    }
  }

  // ---------------------------------------------------------------------
  // KEY
  // ---------------------------------------------------------------------

  /** The KEY tokens after the tag, in the order they are read. */
  function KeyFieldName(i: nat): string
    requires 1 <= i <= 4
  {
    ["modifiers", "key_code", "command_id", "section"][i - 1]
  }

  /** Every token of a KEY line is there and decodes. */
  predicate KeyTokensValid(codec: KeyCodec, parts: seq<string>) {
    |parts| >= 5
    && ParseUnsigned(parts[1], 0x100).Some?
    && TryFromReaperCode(ParseUnsigned(parts[1], 0x100).value).Some?
    && ParseUnsigned(parts[2], 0x1_0000).Some?
    && codec.fromU16(ParseUnsigned(parts[2], 0x1_0000).value).Some?
    && ParseUnsigned(parts[4], 0x1_0000_0000).Some?
    && FromU32(ParseUnsigned(parts[4], 0x1_0000_0000).value).Some?
  }

  /** A KEY line is accepted exactly when its tokens are valid, and the
      entry holds the decoded tokens. */
  lemma KeyAcceptsIff(codec: KeyCodec, parts: seq<string>)
    ensures ParseKey(codec, parts).Ok? <==> KeyTokensValid(codec, parts)
    ensures ParseKey(codec, parts).Ok? ==>
              var e := ParseKey(codec, parts).value;
              e.Key?
              && Some(e.key.modifiers) == TryFromReaperCode(ParseUnsigned(parts[1], 0x100).value)
              && Some(e.key.keyCode) == codec.fromU16(ParseUnsigned(parts[2], 0x1_0000).value)
              && e.key.commandId == parts[3]
              && Some(e.key.section) == FromU32(ParseUnsigned(parts[4], 0x1_0000_0000).value)
  {
  }

  /** Tokens after the section are ignored. */
  lemma KeyIgnoresExtraTokens(codec: KeyCodec, parts: seq<string>, extra: seq<string>)
    requires |parts| >= 5
    ensures ParseKey(codec, parts + extra) == ParseKey(codec, parts)
  {
    assert forall i :: 0 <= i < 5 ==> (parts + extra)[i] == parts[i];
  }

  /** Each KEY error names the field at fault: a missing field is the first
      token absent, a bad number is a token that does not parse at its
      width, and a table miss carries the value no table holds. */
  lemma KeyErrorsNameKey(codec: KeyCodec, parts: seq<string>)
    requires |parts| >= 1
    ensures ParseKey(codec, parts).Err? ==>
      match ParseKey(codec, parts).error
      case MissingField(tag, field) => tag == "KEY" && |parts| < 5 && field == KeyFieldName(|parts|)
      case InvalidNumber(tag, field) =>
        tag == "KEY"
        && ((field == "modifiers" && ParseUnsigned(parts[1], 0x100).None?)
            || (field == "key_code" && ParseUnsigned(parts[2], 0x1_0000).None?)
            || (field == "section" && ParseUnsigned(parts[4], 0x1_0000_0000).None?))
      case InvalidModifierCode(m) =>
        ParseUnsigned(parts[1], 0x100) == Some(m as nat) && TryFromReaperCode(m).None?
      case InvalidKeyCode(c) =>
        ParseUnsigned(parts[2], 0x1_0000) == Some(c as nat) && codec.fromU16(c).None?
      case InvalidSectionCode(s) =>
        ParseUnsigned(parts[4], 0x1_0000_0000) == Some(s as nat) && FromU32(s).None?
      case InvalidTermination(_) => false
      case InvalidTag(_) => false
  {
  }

  // ---------------------------------------------------------------------
  // SCR
  // ---------------------------------------------------------------------

  function ScriptFieldName(i: nat): string
    requires 1 <= i <= 3
  {
    ["termination", "section", "command_id"][i - 1]
  }

  /** Every token of an SCR line is there and decodes, and the data part has
      at least one pair of quotes. */
  predicate ScriptValid(before: string, parts: seq<string>) {
    |parts| >= 4
    && ParseUnsigned(parts[1], 0x1_0000_0000).Some?
    && TerminationFromU32(ParseUnsigned(parts[1], 0x1_0000_0000).value).Some?
    && ParseUnsigned(parts[2], 0x1_0000_0000).Some?
    && FromU32(ParseUnsigned(parts[2], 0x1_0000_0000).value).Some?
    && |Split(before, '"')| >= 3
  }

  /** An SCR line is accepted exactly when it is valid; the command id is
      the fourth token, the description the first quoted piece, and the path
      the second quoted piece, or else the trimmed rest of the line. */
  lemma ScriptAcceptsIff(before: string, parts: seq<string>)
    ensures ParseScript(before, parts).Ok? <==> ScriptValid(before, parts)
    ensures ParseScript(before, parts).Ok? ==>
              var e := ParseScript(before, parts).value;
              var q := Split(before, '"');
              e.Script?
              && Some(e.script.terminationBehavior)
                 == TerminationFromU32(ParseUnsigned(parts[1], 0x1_0000_0000).value)
              && Some(e.script.section) == FromU32(ParseUnsigned(parts[2], 0x1_0000_0000).value)
              && e.script.commandId == parts[3]
              && e.script.description == q[1]
              && e.script.path == (if |q| > 3 then q[3] else Trim(q[2]))
  {
  }

  /** Each SCR error names the field at fault; only 4, 260 and 516 are
      termination codes. */
  lemma ScriptErrorsNameScript(before: string, parts: seq<string>)
    requires |parts| >= 1
    ensures ParseScript(before, parts).Err? ==>
      match ParseScript(before, parts).error
      case MissingField(tag, field) =>
        tag == "SCR"
        && ((|parts| < 4 && field == ScriptFieldName(|parts|))
            || (field == "description" && |Split(before, '"')| < 3))
      case InvalidNumber(tag, field) =>
        tag == "SCR"
        && ((field == "termination" && ParseUnsigned(parts[1], 0x1_0000_0000).None?)
            || (field == "section" && ParseUnsigned(parts[2], 0x1_0000_0000).None?))
      case InvalidTermination(n) =>
        ParseUnsigned(parts[1], 0x1_0000_0000) == Some(n as nat) && n != 4 && n != 260 && n != 516
      case InvalidSectionCode(s) =>
        ParseUnsigned(parts[2], 0x1_0000_0000) == Some(s as nat) && FromU32(s).None?
      case InvalidModifierCode(_) => false
      case InvalidKeyCode(_) => false
      case InvalidTag(_) => false
  {
  }

  // ---------------------------------------------------------------------
  // ACT
  // ---------------------------------------------------------------------

  /** Every token of an ACT line is there and decodes, and the data part
      has at least two pairs of quotes; the flags value is never checked. */
  predicate ActionValid(before: string, parts: seq<string>) {
    |parts| >= 3
    && ParseUnsigned(parts[1], 0x1_0000_0000).Some?
    && ParseUnsigned(parts[2], 0x1_0000_0000).Some?
    && FromU32(ParseUnsigned(parts[2], 0x1_0000_0000).value).Some?
    && |Split(before, '"')| >= 4
  }

  /** An ACT line is accepted exactly when it is valid; the flags are the
      known bits of the number, the command id and description the first two
      quoted pieces, and the action ids the tokens after them, in order. */
  lemma ActionAcceptsIff(before: string, parts: seq<string>)
    ensures ParseAction(before, parts).Ok? <==> ActionValid(before, parts)
    ensures ParseAction(before, parts).Ok? ==>
              var e := ParseAction(before, parts).value;
              var q := Split(before, '"');
              e.Action?
              && e.action.actionFlags == FlagsFromBitsTruncate(ParseUnsigned(parts[1], 0x1_0000_0000).value)
              && Some(e.action.section) == FromU32(ParseUnsigned(parts[2], 0x1_0000_0000).value)
              && e.action.commandId == q[1]
              && e.action.description == q[3]
              && e.action.actionIds == (if |q| > 4 then Tokens(q[4]) else [])
  {
  }

  /** Each ACT error names the field at fault; no flags value is an
      error. */
  lemma ActionErrorsNameAction(before: string, parts: seq<string>)
    requires |parts| >= 1
    ensures ParseAction(before, parts).Err? ==>
      match ParseAction(before, parts).error
      case MissingField(tag, field) =>
        tag == "ACT"
        && ((|parts| == 1 && field == "flags") || (|parts| == 2 && field == "section")
            || (field == "command_id/description" && |Split(before, '"')| < 4))
      case InvalidNumber(tag, field) =>
        tag == "ACT"
        && ((field == "flags" && ParseUnsigned(parts[1], 0x1_0000_0000).None?)
            || (field == "section" && ParseUnsigned(parts[2], 0x1_0000_0000).None?))
      case InvalidSectionCode(s) =>
        ParseUnsigned(parts[2], 0x1_0000_0000) == Some(s as nat) && FromU32(s).None?
      case InvalidTermination(_) => false
      case InvalidModifierCode(_) => false
      case InvalidKeyCode(_) => false
      case InvalidTag(_) => false
  {
  }

  // ---------------------------------------------------------------------
  // What the reader never yields
  // ---------------------------------------------------------------------

  /** The reader never yields a quoted string holding `"`: it splits the
      data part at every quote. */
  lemma QuotesNeverReadBack(codec: KeyCodec, line: string)
    ensures FromLine(codec, line).Ok? && FromLine(codec, line).value.Script? ==>
              '"' !in FromLine(codec, line).value.script.description
              && '"' !in FromLine(codec, line).value.script.path
    ensures FromLine(codec, line).Ok? && FromLine(codec, line).value.Action? ==>
              '"' !in FromLine(codec, line).value.action.commandId
              && '"' !in FromLine(codec, line).value.action.description
  {
    DataQuoteFree(codec, DataPart(line));
  }

  lemma DataQuoteFree(codec: KeyCodec, before: string)
    ensures FromData(codec, before).Ok? && FromData(codec, before).value.Script? ==>
              '"' !in FromData(codec, before).value.script.description
              && '"' !in FromData(codec, before).value.script.path
    ensures FromData(codec, before).Ok? && FromData(codec, before).value.Action? ==>
              '"' !in FromData(codec, before).value.action.commandId
              && '"' !in FromData(codec, before).value.action.description
  {
    var parts := Tokens(before);
    if parts != [] {
      if parts[0] == "KEY" {
        assert FromData(codec, before) == ParseKey(codec, parts);
        KeyAcceptsIff(codec, parts);
      } else if parts[0] == "SCR" {
        assert FromData(codec, before) == ParseScript(before, parts);
        ScriptAcceptsIff(before, parts);
        var q := Split(before, '"');
        if |q| >= 3 {
          TrimFree(q[2], '"');
        }
      } else if parts[0] == "ACT" {
        assert FromData(codec, before) == ParseAction(before, parts);
        ActionAcceptsIff(before, parts);
      }
    }
  }

  /** Hence an SCR or ACT entry with a `"` in a quoted string never comes
      back from its own line. */
  lemma QuotedQuoteIsLost(codec: KeyCodec, e: ReaperEntry)
    requires (e.Script? && ('"' in e.script.description || '"' in e.script.path))
          || (e.Action? && ('"' in e.action.commandId || '"' in e.action.description))
    ensures FromLine(codec, ToLine(codec, e)) != Ok(e)
  {
    QuotesNeverReadBack(codec, ToLine(codec, e));
  }
}
