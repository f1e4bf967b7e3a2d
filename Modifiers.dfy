/** The modifier byte of a KEY line (src/modifiers.rs).

    `Modifiers` is a `u8` bit-flag set: SHIFT = 4, SUPER = 8, ALT = 16,
    CONTROL = 32, and SPECIAL_INPUT = 128, a sentinel meaning "the key slot
    holds a mouse wheel, multitouch gesture or media key". On disk the set is
    written as `1 + bits`, so that "no modifiers" is 1; the byte 255 is
    reserved for the sentinel. */
module ModifierCodec {
  import opened Prelude

  const SHIFT_BIT: u8 := 4
  const SUPER_BIT: u8 := 8
  const ALT_BIT: u8 := 16
  const CONTROL_BIT: u8 := 32
  const SPECIAL_INPUT_BIT: u8 := 128

  /** The flag set; each field says whether that flag is in the set. */
  datatype Modifiers = Modifiers(shift: bool, super: bool, alt: bool, control: bool, special: bool)

  const EMPTY := Modifiers(false, false, false, false, false)
  const SHIFT := Modifiers(true, false, false, false, false)
  const SUPER := Modifiers(false, true, false, false, false)
  const ALT := Modifiers(false, false, true, false, false)
  const CONTROL := Modifiers(false, false, false, true, false)
  const SPECIAL_INPUT := Modifiers(false, false, false, false, true)

  /** `Modifiers::all()`. */
  const ALL := Modifiers(true, true, true, true, true)

  /** `a | b`. */
  function Union(a: Modifiers, b: Modifiers): Modifiers {
    Modifiers(a.shift || b.shift, a.super || b.super, a.alt || b.alt,
              a.control || b.control, a.special || b.special)
  }

  /** `m.bits()`: the sum of the flags' bit values. Bit 7 is set exactly for
      the sentinel, and the regular flags stay within 4 + 8 + 16 + 32. */
  function Bits(m: Modifiers): (r: u8)
    ensures r >= 128 <==> m.special
    ensures r % 128 <= 60 && r % 4 == 0
    ensures r == 0 <==> m == EMPTY
  {
    (if m.shift then SHIFT_BIT else 0) + (if m.super then SUPER_BIT else 0)
    + (if m.alt then ALT_BIT else 0) + (if m.control then CONTROL_BIT else 0)
    + (if m.special then SPECIAL_INPUT_BIT else 0)
  }

  /** `Modifiers::from_bits_truncate(b)`: the known flags set in `b`, read
      off its binary expansion from the top bit down; bits 0, 1 and 6 are
      dropped. What is dropped is made of those three bits only: `b` is the
      result's bits plus some of 1, 2 and 64. */
  function FromBitsTruncate(b: u8): (r: Modifiers)
    ensures Bits(r) <= b
    ensures var dropped := b - Bits(r); dropped < 4 || 64 <= dropped < 68
  {
    var r7 := if b >= 128 then b - 128 else b;
    var r6 := if r7 >= 64 then r7 - 64 else r7;
    var r5 := if r6 >= 32 then r6 - 32 else r6;
    var r4 := if r5 >= 16 then r5 - 16 else r5;
    var r3 := if r4 >= 8 then r4 - 8 else r4;
    Modifiers(r3 >= 4, r4 >= 8, r5 >= 16, r6 >= 32, b >= 128)
  }

  /** `Modifiers::from_bits(b)`: as bitflags defines it, the truncated set,
      provided truncation lost nothing. It fails exactly when one of the
      undefined bits 1, 2 or 64 is set. */
  function FromBits(b: u8): (r: Option<Modifiers>)
    ensures r.None? <==> b % 4 != 0 || b % 128 >= 64
    ensures r.Some? ==> Bits(r.value) == b
  {
    var m := FromBitsTruncate(b);
    if Bits(m) == b then Some(m) else None
  }

  /** `m.contains(Modifiers::SPECIAL_INPUT)`. */
  predicate IsSpecialInput(m: Modifiers) {
    m.special
  }

  /** `m.reaper_code()`: 255 for any set holding SPECIAL_INPUT, otherwise
      1 + the bits with bit 7 masked off. */
  function ReaperCode(m: Modifiers): (r: u8)
    ensures r == 255 <==> IsSpecialInput(m)
    ensures !IsSpecialInput(m) ==> 1 <= r <= 61
  {
    if m.special then 255 else 1 + Bits(m) % 0x80
  }

  /** `Modifiers::try_from_reaper_code(n)`, as written: 255 is the sentinel,
      0 fails on `checked_sub(1)`, anything else is `from_bits(n - 1)`. */
  function TryFromReaperCode(n: u8): (r: Option<Modifiers>)
    ensures n == 0 ==> r.None?
    ensures n == 255 ==> r == Some(SPECIAL_INPUT)
    ensures r.Some? && n != 255 ==> 1 + Bits(r.value) == n
  {
    if n == 255 then Some(SPECIAL_INPUT)
    else if n == 0 then None
    else FromBits(n - 1)
  }

  /** A set the codec can carry faithfully: regular flags only, or the
      sentinel alone. */
  predicate Canonical(m: Modifiers) {
    !m.special || m == SPECIAL_INPUT
  }

  // ---------------------------------------------------------------------
  // Bits and from_bits
  // ---------------------------------------------------------------------

  /** `from_bits` inverts `bits`. */
  lemma FromBitsOfBits(m: Modifiers)
    ensures FromBits(Bits(m)) == Some(m)
  {
  }

  /** `from_bits` succeeds exactly on the bytes that are the bits of some
      flag set, and then returns a set with exactly those bits. */
  lemma FromBitsAccepts(b: u8)
    ensures FromBits(b).Some? <==> exists m :: Bits(m) == b
    ensures FromBits(b).Some? ==> Bits(FromBits(b).value) == b
  {
    if m :| Bits(m) == b {
      FromBitsOfBits(m);
    }
  }

  /** The bytes with a bit outside the known flags: bit 0, 1 or 6. */
  lemma FromBitsRejects()
    ensures FromBits(1) == None && FromBits(2) == None && FromBits(64) == None
    ensures FromBits(126) == None && FromBits(255) == None
  {
  }

  /** The truncation the module's tests check: 126 keeps the four regular
      flags and drops bits 1 and 6. */
  lemma TruncateKnown()
    ensures FromBitsTruncate(126) == Union(Union(SHIFT, ALT), Union(SUPER, CONTROL))
    ensures FromBitsTruncate(254 % 0x80) == FromBitsTruncate(126)
  {
  }

  // ---------------------------------------------------------------------
  // Encoding
  // ---------------------------------------------------------------------

  /** Any set containing SPECIAL_INPUT encodes as 255, whatever regular
      flags it also holds (`Modifiers::all()` included). */
  lemma SpecialEncodesAs255(m: Modifiers)
    requires IsSpecialInput(m)
    ensures ReaperCode(m) == 255
    ensures ReaperCode(ALL) == 255
  {
  }

  /** A set of regular flags only encodes as exactly 1 + its bits. */
  lemma RegularEncodesAsOnePlusBits(m: Modifiers)
    requires !IsSpecialInput(m)
    ensures ReaperCode(m) == 1 + Bits(m)
    ensures Bits(m) <= 60
  {
  }

  /** The hand-picked codes the module's tests check. */
  lemma KnownCodes()
    ensures ReaperCode(EMPTY) == 1 && ReaperCode(SHIFT) == 5
    ensures ReaperCode(CONTROL) == 33 && ReaperCode(ALT) == 17 && ReaperCode(SUPER) == 9
    ensures ReaperCode(Union(SHIFT, CONTROL)) == 37
    ensures ReaperCode(Union(Union(SHIFT, CONTROL), Union(ALT, SUPER))) == 61
    ensures ReaperCode(SPECIAL_INPUT) == 255
  {
  }

  /** `is_special_input` holds iff the sentinel bit is in the set iff the
      set encodes as 255. */
  lemma SpecialIffCode255(m: Modifiers)
    ensures IsSpecialInput(m) <==> Bits(m) >= 128
    ensures IsSpecialInput(m) <==> ReaperCode(m) == 255
  {
  }

  // ---------------------------------------------------------------------
  // Decoding
  // ---------------------------------------------------------------------

  /** Byte 0 is rejected. */
  lemma ZeroRejected()
    ensures TryFromReaperCode(0) == None
  {
  }

  /** Byte 255 decodes to the sentinel alone, which is special input. */
  lemma Code255IsSpecialInput()
    ensures TryFromReaperCode(255) == Some(SPECIAL_INPUT)
    ensures IsSpecialInput(TryFromReaperCode(255).value)
    ensures ReaperCode(TryFromReaperCode(255).value) == 255
  {
  }

  /** Apart from 255, a byte decodes iff it is 1 + the bits of some flag
      set, and the decoded set then has bits n - 1. */
  lemma DecodeAccepts(n: u8)
    requires n != 255
    ensures TryFromReaperCode(n).Some? <==> n >= 1 && exists m :: Bits(m) == n - 1
    ensures TryFromReaperCode(n).Some? ==> Bits(TryFromReaperCode(n).value) == n - 1
  {
    if n >= 1 {
      FromBitsAccepts(n - 1);
    }
  }

  /** Decoding undoes encoding exactly on the canonical sets. */
  lemma DecodeEncode(m: Modifiers)
    ensures TryFromReaperCode(ReaperCode(m)) == Some(m) <==> Canonical(m)
  {
    if !m.special {
      RegularEncodesAsOnePlusBits(m);
      FromBitsOfBits(m);
    }
  }

  /** Encoding undoes decoding only for 255 and for bytes whose n - 1 holds
      regular flags alone. */
  lemma EncodeDecode(n: u8)
    requires TryFromReaperCode(n).Some?
    ensures ReaperCode(TryFromReaperCode(n).value) == n <==> n == 255 || n <= 128
  {
    if n != 255 {
      DecodeAccepts(n);
    }
  }

  /** The as-written decoder also accepts 1 + the bits of every set holding
      SPECIAL_INPUT (the bytes 129, 133, ..., 189), returning that set; but
      that set re-encodes as 255, not as the byte it came from. */
  lemma SentinelBitLeaksThroughDecode(m: Modifiers)
    requires IsSpecialInput(m)
    ensures 129 <= 1 + Bits(m) <= 189
    ensures TryFromReaperCode(1 + Bits(m)) == Some(m)
    ensures ReaperCode(m) == 255 != 1 + Bits(m)
  {
    FromBitsOfBits(m);
  }

  /** The smallest such byte. */
  lemma Code129DoesNotRoundTrip()
    ensures TryFromReaperCode(129) == Some(SPECIAL_INPUT)
    ensures ReaperCode(SPECIAL_INPUT) == 255
  {
  }

  // ---------------------------------------------------------------------
  // The corrected decoder
  // ---------------------------------------------------------------------

  /** The decoder the module's comments and tests describe: only 255 means
      the sentinel, so any other byte whose n - 1 sets bit 7 is rejected. */
  function TryFromReaperCodeStrict(n: u8): (r: Option<Modifiers>)
    ensures r.Some? ==> Canonical(r.value)
  {
    if n == 255 then Some(SPECIAL_INPUT)
    else if n == 0 then None
    else
      match FromBits(n - 1)
      case Some(m) => if m.special then None else Some(m)
      case None => None
  }

  /** With the corrected decoder, every byte that decodes re-encodes to
      itself, and every canonical set survives encode-then-decode. */
  lemma StrictRoundTrip(n: u8, m: Modifiers)
    ensures TryFromReaperCodeStrict(n).Some? ==> ReaperCode(TryFromReaperCodeStrict(n).value) == n
    ensures Canonical(m) ==> TryFromReaperCodeStrict(ReaperCode(m)) == Some(m)
  {
    if n != 255 && n != 0 && TryFromReaperCodeStrict(n).Some? {
      var d := TryFromReaperCodeStrict(n).value;
      FromBitsAccepts(n - 1);
      RegularEncodesAsOnePlusBits(d);
    }
    if Canonical(m) && !m.special {
      RegularEncodesAsOnePlusBits(m);
      FromBitsOfBits(m);
    }
  }

  /** The two decoders differ only on the bytes that leak the sentinel bit. */
  lemma StrictAgreesOtherwise(n: u8)
    ensures TryFromReaperCodeStrict(n) != TryFromReaperCode(n)
        <==> n != 255 && TryFromReaperCode(n).Some? && IsSpecialInput(TryFromReaperCode(n).value)
  {
  }
}
