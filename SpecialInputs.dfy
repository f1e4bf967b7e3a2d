/** The special-input table (src/special_inputs.rs): the key codes that
    accompany modifier byte 255 name mouse-wheel and multitouch gestures, or
    media keys; every 16-bit code maps to some variant, and codes outside the
    closed table keep their raw value. */
module SpecialInputTable {
  import opened Prelude
  import opened Text

  datatype SpecialInput =
    | Mousewheel
    | CtrlMousewheel
    | AltMousewheel
    | CtrlAltMousewheel
    | ShiftMousewheel
    | CtrlShiftMousewheel
    | AltShiftMousewheel
    | CtrlAltShiftMousewheel
    | HorizWheel
    | AltHorizWheel
    | CtrlHorizWheel
    | CtrlAltHorizWheel
    | ShiftHorizWheel
    | CtrlShiftHorizWheel
    | AltShiftHorizWheel
    | CtrlAltShiftHorizWheel
    | MultiZoom
    | CtrlMultiZoom
    | AltMultiZoom
    | CtrlAltShiftMultiZoom
    | MultiRotate
    | CtrlMultiRotate
    | MultiHorz
    | MultiVert
    | MediaKey(code: u16)
    | Unknown(code: u16)

  /** A variant of the closed set, as opposed to the two raw fallbacks. */
  predicate IsClosed(s: SpecialInput) {
    !s.MediaKey? && !s.Unknown?
  }

  /** The codes the closed table lists. */
  const TABLE_CODES: set<int> :=
    {120, 248, 121, 249, 122, 250, 123, 251, 125, 253, 252, 254, 255,
     88, 216, 90, 218, 217, 219, 220, 221, 222, 223,
     72, 200, 73, 201, 74, 202, 207,
     24, 152, 25, 153,
     40, 168, 56, 184}

  /** The table codes that are 128 below the variant's canonical code. */
  const ALIAS_CODES: set<int> :=
    {24, 25, 40, 56, 72, 73, 74, 88, 90, 120, 121, 122, 123, 125}

  /** `SpecialInput::from_key_code`. */
  function FromKeyCode(k: u16): (r: SpecialInput)
    ensures r.MediaKey? <==> k == 232 || k >= 488
    ensures r.MediaKey? || r.Unknown? ==> r.code == k
  {
    match k
    case 120 | 248 => Mousewheel
    case 121 | 249 => CtrlMousewheel
    case 122 | 250 => AltMousewheel
    case 123 | 251 => CtrlAltMousewheel
    case 125 | 253 => CtrlShiftMousewheel
    case 252 => ShiftMousewheel
    case 254 => AltShiftMousewheel
    case 255 => CtrlAltShiftMousewheel
    case 88 | 216 => HorizWheel
    case 90 | 218 => AltHorizWheel
    case 217 => CtrlHorizWheel
    case 219 => CtrlAltHorizWheel
    case 220 => ShiftHorizWheel
    case 221 => CtrlShiftHorizWheel
    case 222 => AltShiftHorizWheel
    case 223 => CtrlAltShiftHorizWheel
    case 72 | 200 => MultiZoom
    case 73 | 201 => CtrlMultiZoom
    case 74 | 202 => AltMultiZoom
    case 207 => CtrlAltShiftMultiZoom
    case 24 | 152 => MultiRotate
    case 25 | 153 => CtrlMultiRotate
    case 40 | 168 => MultiHorz
    case 56 | 184 => MultiVert
    case _ =>
      if k >= 232 && (k - 232) % 256 == 0 then MediaKey(k)
      else if k >= 488 then MediaKey(k)
      else Unknown(k)
  }

  /** `SpecialInput::to_key_code`: the canonical code of each variant. A
      named gesture gets a table code of 128 or more (the upper code of an
      alias pair), and a fallback gives back its raw code. */
  function ToKeyCode(s: SpecialInput): (r: u16)
    ensures IsClosed(s) ==> r in TABLE_CODES && r >= 128 && r - 128 !in TABLE_CODES - ALIAS_CODES
    ensures !IsClosed(s) ==> r == s.code
  {
    match s
    case Mousewheel => 248
    case CtrlMousewheel => 249
    case AltMousewheel => 250
    case CtrlAltMousewheel => 251
    case ShiftMousewheel => 252
    case CtrlShiftMousewheel => 253
    case AltShiftMousewheel => 254
    case CtrlAltShiftMousewheel => 255
    case HorizWheel => 216
    case AltHorizWheel => 218
    case CtrlHorizWheel => 217
    case CtrlAltHorizWheel => 219
    case ShiftHorizWheel => 220
    case CtrlShiftHorizWheel => 221
    case AltShiftHorizWheel => 222
    case CtrlAltShiftHorizWheel => 223
    case MultiZoom => 200
    case CtrlMultiZoom => 201
    case AltMultiZoom => 202
    case CtrlAltShiftMultiZoom => 207
    case MultiRotate => 152
    case CtrlMultiRotate => 153
    case MultiHorz => 168
    case MultiVert => 184
    case MediaKey(key) => key
    case Unknown(key) => key
  }

  /** `Display for SpecialInput`. */
  function Name(s: SpecialInput): string {
    match s
    case Mousewheel => "Mousewheel"
    case CtrlMousewheel => "Ctrl+Mousewheel"
    case AltMousewheel => "Alt+Mousewheel"
    case CtrlAltMousewheel => "Ctrl+Alt+Mousewheel"
    case ShiftMousewheel => "Shift+Mousewheel"
    case CtrlShiftMousewheel => "Ctrl+Shift+Mousewheel"
    case AltShiftMousewheel => "Alt+Shift+Mousewheel"
    case CtrlAltShiftMousewheel => "Ctrl+Alt+Shift+Mousewheel"
    case HorizWheel => "HorizWheel"
    case AltHorizWheel => "Alt+HorizWheel"
    case CtrlHorizWheel => "Ctrl+HorizWheel"
    case CtrlAltHorizWheel => "Ctrl+Alt+HorizWheel"
    case ShiftHorizWheel => "Shift+HorizWheel"
    case CtrlShiftHorizWheel => "Ctrl+Shift+HorizWheel"
    case AltShiftHorizWheel => "Alt+Shift+HorizWheel"
    case CtrlAltShiftHorizWheel => "Ctrl+Alt+Shift+HorizWheel"
    case MultiZoom => "MultiZoom"
    case CtrlMultiZoom => "Ctrl+MultiZoom"
    case AltMultiZoom => "Alt+MultiZoom"
    case CtrlAltShiftMultiZoom => "Ctrl+Alt+Shift+MultiZoom"
    case MultiRotate => "MultiRotate"
    case CtrlMultiRotate => "Ctrl+MultiRotate"
    case MultiHorz => "MultiHorz"
    case MultiVert => "MultiVert"
    case MediaKey(key) => "MediaKey(" + NatToString(key) + ")"
    case Unknown(key) => "Unknown(" + NatToString(key) + ")"
  }

  // ---------------------------------------------------------------------
  // Laws
  // ---------------------------------------------------------------------

  /** The closed variants come from exactly the table's codes. */
  lemma ClosedIffTableCode(k: u16)
    ensures IsClosed(FromKeyCode(k)) <==> k in TABLE_CODES
  {
  }

  /** Decoding the canonical code gives back every closed variant. */
  lemma ClosedRoundTrip(s: SpecialInput)
    requires IsClosed(s)
    ensures FromKeyCode(ToKeyCode(s)) == s
    ensures ToKeyCode(s) in TABLE_CODES && ToKeyCode(s) !in ALIAS_CODES
  {
  }

  /** Encoding a decoded code gives the code back, except that an alias
      collapses onto its canonical code, 128 higher. */
  lemma CanonicalCode(k: u16)
    ensures ToKeyCode(FromKeyCode(k)) == if k in ALIAS_CODES then k + 128 else k
  {
  }

  /** An alias decodes to the same variant as its canonical code. */
  lemma AliasSameVariant(k: u16)
    requires k in ALIAS_CODES
    ensures FromKeyCode(k) == FromKeyCode(k + 128)
  {
    if k == 24 {
      assert FromKeyCode(24) == FromKeyCode(152);
    } else if k == 25 {
      assert FromKeyCode(25) == FromKeyCode(153);
    } else if k == 40 {
      assert FromKeyCode(40) == FromKeyCode(168);
    } else if k == 56 {
      assert FromKeyCode(56) == FromKeyCode(184);
    } else if k == 72 {
      assert FromKeyCode(72) == FromKeyCode(200);
    } else if k == 73 {
      assert FromKeyCode(73) == FromKeyCode(201);
    } else if k == 74 {
      assert FromKeyCode(74) == FromKeyCode(202);
    } else if k == 88 {
      assert FromKeyCode(88) == FromKeyCode(216);
    } else if k == 90 {
      assert FromKeyCode(90) == FromKeyCode(218);
    } else if k == 120 {
      assert FromKeyCode(120) == FromKeyCode(248);
    } else if k == 121 {
      assert FromKeyCode(121) == FromKeyCode(249);
    } else if k == 122 {
      assert FromKeyCode(122) == FromKeyCode(250);
    } else if k == 123 {
      assert FromKeyCode(123) == FromKeyCode(251);
    } else if k == 125 {
      assert FromKeyCode(125) == FromKeyCode(253);
    }
  }

  /** Decoding is idempotent through the canonical code. */
  lemma DecodeIdempotent(k: u16)
    ensures FromKeyCode(ToKeyCode(FromKeyCode(k))) == FromKeyCode(k)
  {
    CanonicalCode(k);
    if k in ALIAS_CODES {
      AliasSameVariant(k);
    }
  }

  /** The raw fallbacks: a media key or unknown code is carried through
      unchanged, and decodes back to the same fallback exactly when the code
      is of that kind. */
  lemma FallbackRoundTrip(k: u16)
    ensures ToKeyCode(MediaKey(k)) == k && ToKeyCode(Unknown(k)) == k
    ensures FromKeyCode(ToKeyCode(MediaKey(k))) == MediaKey(k) <==> k == 232 || k >= 488
    ensures FromKeyCode(ToKeyCode(Unknown(k))) == Unknown(k)
        <==> k !in TABLE_CODES && k != 232 && k < 488
  {
    ClosedIffTableCode(k);
  }

  /** The decodings the module's tests check. */
  lemma KnownDecodings()
    ensures FromKeyCode(248) == Mousewheel && FromKeyCode(120) == Mousewheel
    ensures FromKeyCode(249) == CtrlMousewheel && FromKeyCode(250) == AltMousewheel
    ensures FromKeyCode(216) == HorizWheel && FromKeyCode(217) == CtrlHorizWheel
    ensures FromKeyCode(218) == AltHorizWheel
  {
  }

  /** Display names identify the variant: different inputs never print the
      same, the raw fallbacks included. */
  lemma NameInjective(a: SpecialInput, b: SpecialInput)
    requires Name(a) == Name(b)
    ensures a == b
  {
    if IsClosed(a) && IsClosed(b) {
      ClosedNameInjective(a, b);
    } else {
      FallbackNameInjective(a, b);
    }
  }

  lemma ClosedNameInjective(a: SpecialInput, b: SpecialInput)
    requires IsClosed(a) && IsClosed(b) && Name(a) == Name(b)
    ensures a == b
  {
  }

  lemma FallbackNameInjective(a: SpecialInput, b: SpecialInput)
    requires !IsClosed(a) || !IsClosed(b)
    requires Name(a) == Name(b)
    ensures a == b
  {
    NameShape(a);
    NameShape(b);
    if a.MediaKey? && b.MediaKey? {
      NameTail(Name(a), "MediaKey(", NatToString(a.code), NatToString(b.code));
      NatToStringInjective(a.code, b.code);
    } else if a.Unknown? && b.Unknown? {
      NameTail(Name(a), "Unknown(", NatToString(a.code), NatToString(b.code));
      NatToStringInjective(a.code, b.code);
    }
  }

  /** What a name starts with and how long its fixed part is. */
  lemma NameShape(s: SpecialInput)
    ensures s.MediaKey? ==> Name(s)[..9] == "MediaKey(" && Name(s)[|Name(s)| - 1] == ')'
    ensures s.Unknown? ==> Name(s)[..8] == "Unknown(" && Name(s)[|Name(s)| - 1] == ')'
    ensures IsClosed(s) ==> Name(s)[|Name(s)| - 1] != ')'
    ensures s.MediaKey? ==> Name(s)[0] == 'M'
    ensures s.Unknown? ==> Name(s)[0] == 'U'
    ensures |Name(s)| >= 9
  {
  }

  lemma NameTail(name: string, prefix: string, x: string, y: string)
    requires name == prefix + x + ")" && name == prefix + y + ")"
    ensures x == y
  {
    assert x == name[|prefix|..|name| - 1];
    assert y == name[|prefix|..|name| - 1];
  }
}
