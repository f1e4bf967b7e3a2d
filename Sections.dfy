/** The action sections (src/sections.rs): the input contexts a binding
    applies in, each with a fixed numeric code and a display name. */
module SectionTable {
  import opened Prelude

  datatype ReaperActionSection =
    | Main
    | MainAltRecording
    | MainAlt1 | MainAlt2 | MainAlt3 | MainAlt4
    | MainAlt5 | MainAlt6 | MainAlt7 | MainAlt8
    | MainAlt9 | MainAlt10 | MainAlt11 | MainAlt12
    | MainAlt13 | MainAlt14 | MainAlt15 | MainAlt16
    | MidiEditor
    | MidiEventList
    | MidiInline
    | MediaExplorer

  /** The codes the enum declares. */
  const SECTION_CODES: set<int> :=
    {0, 1, 2, 3, 4, 5, 6, 7, 8, 9, 10, 11, 12, 13, 14, 15, 16,
     100, 32060, 32061, 32062, 32063}

  /** `ReaperActionSection::as_u32`: the declared discriminant. */
  function AsU32(s: ReaperActionSection): (r: u32)
    ensures r in SECTION_CODES
    ensures FromU32(r) == Some(s)
  {
    match s
    case Main => 0
    case MainAltRecording => 100
    case MainAlt1 => 1
    case MainAlt2 => 2
    case MainAlt3 => 3
    case MainAlt4 => 4
    case MainAlt5 => 5
    case MainAlt6 => 6
    case MainAlt7 => 7
    case MainAlt8 => 8
    case MainAlt9 => 9
    case MainAlt10 => 10
    case MainAlt11 => 11
    case MainAlt12 => 12
    case MainAlt13 => 13
    case MainAlt14 => 14
    case MainAlt15 => 15
    case MainAlt16 => 16
    case MidiEditor => 32060
    case MidiEventList => 32061
    case MidiInline => 32062
    case MediaExplorer => 32063
  }

  /** `ReaperActionSection::from_u32`: the variant with that discriminant. */
  function FromU32(n: u32): (r: Option<ReaperActionSection>)
    ensures r.Some? <==> n in SECTION_CODES
  {
    match n
    case 0 => Some(Main)
    case 100 => Some(MainAltRecording)
    case 1 => Some(MainAlt1)
    case 2 => Some(MainAlt2)
    case 3 => Some(MainAlt3)
    case 4 => Some(MainAlt4)
    case 5 => Some(MainAlt5)
    case 6 => Some(MainAlt6)
    case 7 => Some(MainAlt7)
    case 8 => Some(MainAlt8)
    case 9 => Some(MainAlt9)
    case 10 => Some(MainAlt10)
    case 11 => Some(MainAlt11)
    case 12 => Some(MainAlt12)
    case 13 => Some(MainAlt13)
    case 14 => Some(MainAlt14)
    case 15 => Some(MainAlt15)
    case 16 => Some(MainAlt16)
    case 32060 => Some(MidiEditor)
    case 32061 => Some(MidiEventList)
    case 32062 => Some(MidiInline)
    case 32063 => Some(MediaExplorer)
    case _ => None
  }

  /** `ReaperActionSection::display_name`. The sections of the main window
      are exactly those whose name starts with "Main". */
  function DisplayName(s: ReaperActionSection): (r: string)
    ensures "Main" <= r <==> s.Main? || s.MainAltRecording? || IsMainAlt(s)
  {
    match s
    case Main => "Main"
    case MainAltRecording => "Main (alt recording)"
    case MainAlt1 => "Main (alt-1)"
    case MainAlt2 => "Main (alt-2)"
    case MainAlt3 => "Main (alt-3)"
    case MainAlt4 => "Main (alt-4)"
    case MainAlt5 => "Main (alt-5)"
    case MainAlt6 => "Main (alt-6)"
    case MainAlt7 => "Main (alt-7)"
    case MainAlt8 => "Main (alt-8)"
    case MainAlt9 => "Main (alt-9)"
    case MainAlt10 => "Main (alt-10)"
    case MainAlt11 => "Main (alt-11)"
    case MainAlt12 => "Main (alt-12)"
    case MainAlt13 => "Main (alt-13)"
    case MainAlt14 => "Main (alt-14)"
    case MainAlt15 => "Main (alt-15)"
    case MainAlt16 => "Main (alt-16)"
    case MidiEditor => assert "MIDI Editor"[1] != 'a'; "MIDI Editor"
    case MidiEventList => assert "MIDI Event List"[1] != 'a'; "MIDI Event List"
    case MidiInline => assert "MIDI Inline Editor"[1] != 'a'; "MIDI Inline Editor"
    case MediaExplorer => assert "Media Explorer"[1] != 'a'; "Media Explorer"
  }

  predicate IsMainAlt(s: ReaperActionSection) {
    s.MainAlt1? || s.MainAlt2? || s.MainAlt3? || s.MainAlt4?
    || s.MainAlt5? || s.MainAlt6? || s.MainAlt7? || s.MainAlt8?
    || s.MainAlt9? || s.MainAlt10? || s.MainAlt11? || s.MainAlt12?
    || s.MainAlt13? || s.MainAlt14? || s.MainAlt15? || s.MainAlt16?
  }

  // ---------------------------------------------------------------------
  // Laws
  // ---------------------------------------------------------------------

  /** Exactly the declared codes decode. */
  lemma FromU32Accepts(n: u32)
    ensures FromU32(n).Some? <==> n in SECTION_CODES
  {
  }

  /** Every section decodes from its own code. */
  lemma SectionRoundTrip(s: ReaperActionSection)
    ensures FromU32(AsU32(s)) == Some(s)
    ensures AsU32(s) in SECTION_CODES
  {
  }

  /** A code that decodes is the decoded section's code. */
  lemma CodeRoundTrip(n: u32)
    requires FromU32(n).Some?
    ensures AsU32(FromU32(n).value) == n
  {
  }

  /** The codes the module's tests reject. */
  lemma RejectedCodes()
    ensures FromU32(42) == None && FromU32(9999) == None
    ensures FromU32(32064) == None && FromU32(0xFFFF_FFFF) == None
  {
  }

  /** Codes 1 to 16 are the sixteen alternate main sections, in order. */
  lemma MainAltRange(n: u32)
    requires 1 <= n <= 16
    ensures FromU32(n).Some? && IsMainAlt(FromU32(n).value)
    ensures AsU32(FromU32(n).value) == n
  {
  }

  /** The names the comments use, one per section and all distinct. */
  lemma DisplayNamesDistinct(a: ReaperActionSection, b: ReaperActionSection)
    requires DisplayName(a) == DisplayName(b)
    ensures a == b
  {
  }

  lemma KnownDisplayNames()
    ensures DisplayName(Main) == "Main" && DisplayName(MidiEditor) == "MIDI Editor"
    ensures DisplayName(MediaExplorer) == "Media Explorer"
  {
  }
}
