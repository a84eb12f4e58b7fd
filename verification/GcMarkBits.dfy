/** The mark byte of an object (lgc.h): colours as bits, and the macros that test and change them. */
module GcMarkBits {
  import opened GcHeap

  const WHITE0: bv8 := 0x01
  const WHITE1: bv8 := 0x02
  const BLACK: bv8 := 0x04
  const FIXED: bv8 := 0x20
  const WHITEBITS: bv8 := 0x03
  const MASKMARKS: bv8 := 0xF8

  /** An object has one of the two whites, or is black, or has none of these bits and is gray. */
  predicate OneColor(x: bv8) {
    x & 0x07 in {0x00, WHITE0, WHITE1, BLACK}
  }

  function ColorOf(x: bv8): Color {
    if x & WHITE0 != 0 then White(false) else if x & WHITE1 != 0 then White(true)
                                              else if x & BLACK != 0 then Black else Gray
  }

  /** `currentwhite` holds the bit of the current white, and the bit of fixed objects. */
  predicate CurrentOk(current: bv8, white: bool) {
    current == (if white then WHITE1 else WHITE0) | FIXED
  }

  function OtherWhite(current: bv8): bv8 {
    current ^ WHITEBITS
  }

  predicate IsWhite(x: bv8) { x & WHITEBITS != 0 }

  predicate IsBlackByte(x: bv8) { x & BLACK != 0 }

  predicate IsGrayByte(x: bv8) { !IsBlackByte(x) && !IsWhite(x) }

  predicate IsDead(current: bv8, x: bv8) { x & OtherWhite(current) & WHITEBITS != 0 }

  /** The test of sweeplist; `deadmask` is the other white. */
  predicate NotDead(current: bv8, x: bv8) { (x ^ WHITEBITS) & OtherWhite(current) != 0 }

  function ChangeWhite(x: bv8): bv8 { x ^ WHITEBITS }

  function White2Gray(x: bv8): bv8 { x & !WHITEBITS }

  function Gray2Black(x: bv8): bv8 { x | BLACK }

  function Black2Gray(x: bv8): bv8 { x & !BLACK }

  function MakeWhite(current: bv8, x: bv8): bv8 { (x & MASKMARKS) | (current & WHITEBITS) }

  /** The colour tests. */
  lemma Tests(x: bv8)
    requires OneColor(x)
    ensures IsWhite(x) <==> ColorOf(x).White?
    ensures IsBlackByte(x) <==> ColorOf(x) == Black
    ensures IsGrayByte(x) <==> ColorOf(x) == Gray
  {
  }

  /** An object is dead if it has the white of the cycle before. */
  lemma DeadIs(current: bv8, white: bool, x: bv8)
    requires CurrentOk(current, white) && OneColor(x)
    ensures IsDead(current, x) <==> ColorOf(x) == White(!white)
    ensures CurrentOk(OtherWhite(current), !white)
  {
    if x & 0x07 == WHITE0 {
      assert x & WHITE0 != 0;
    }
  }

  /**
    One test decides what the sweep frees: since the mask holds the bit of fixed objects too, these
    survive even when they are dead.
   */
  lemma SweepTest(current: bv8, white: bool, x: bv8)
    requires CurrentOk(current, white) && OneColor(x)
    ensures !NotDead(current, x) <==> ColorOf(x) == White(!white) && x & FIXED == 0
  {
    if x & 0x07 == WHITE0 {
      assert x & WHITE0 != 0;
    }
  }

  /** The colour changes keep one colour, and every other bit of the byte. */
  lemma Changes(current: bv8, white: bool, x: bv8)
    requires CurrentOk(current, white) && OneColor(x)
    ensures ColorOf(x).White? ==> ColorOf(ChangeWhite(x)) == White(!ColorOf(x).which) && OneColor(ChangeWhite(x))
                                  && ChangeWhite(x) & 0xF8 == x & 0xF8
    ensures ColorOf(x).White? ==> ColorOf(White2Gray(x)) == Gray && OneColor(White2Gray(x))
                                  && White2Gray(x) & 0xF8 == x & 0xF8
    ensures ColorOf(x) == Gray ==> ColorOf(Gray2Black(x)) == Black && OneColor(Gray2Black(x))
                                   && Gray2Black(x) & 0xF8 == x & 0xF8
    ensures ColorOf(x) == Black ==> ColorOf(Black2Gray(x)) == Gray && OneColor(Black2Gray(x))
                                    && Black2Gray(x) & 0xF8 == x & 0xF8
    ensures ColorOf(MakeWhite(current, x)) == White(white) && OneColor(MakeWhite(current, x))
      && MakeWhite(current, x) & 0xF8 == x & 0xF8
  {
  }
}
