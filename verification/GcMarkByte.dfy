/** The `marked` byte: the bit tricks of lgc.h and lgc.c implement the colours of GcHeap. */
module GcMarkByte {
  import opened Base
  import GcHeap

  type Byte = bv8

  const WHITEBITS: Byte := 0x03   // bits 0 and 1: the two whites
  const BLACKBIT: Byte := 0x04    // bit 2
  const FIXEDBIT: Byte := 0x20    // bit 5

  /** The colour a byte stands for; the collector never sets two colour bits at once. */
  function ColourOf(m: Byte): Option<GcHeap.Colour> {
    var bits := m & 0x07;
    if bits == 0 then Some(GcHeap.Gray)
    else if bits == 1 then Some(GcHeap.White(false))
    else if bits == 2 then Some(GcHeap.White(true))
    else if bits == BLACKBIT then Some(GcHeap.Black)
    else None
  }

  /** `currentwhite` holds one white bit, and FIXEDBIT (lua_newstate). */
  function CurrentWhite(w: bool): Byte { if w then 0x22 else 0x21 }

  function OtherWhite(currentwhite: Byte): Byte { currentwhite ^ WHITEBITS }

  function MakeWhite(currentwhite: Byte, m: Byte): Byte {
    (m & !(BLACKBIT | WHITEBITS)) | (currentwhite & WHITEBITS)
  }

  function White2Gray(m: Byte): Byte { m & !WHITEBITS }

  function Gray2Black(m: Byte): Byte { m | BLACKBIT }

  function Black2Gray(m: Byte): Byte { m & !BLACKBIT }

  function ChangeWhite(m: Byte): Byte { m ^ WHITEBITS }

  predicate IsDead(currentwhite: Byte, m: Byte) { m & OtherWhite(currentwhite) & WHITEBITS != 0 }

  /** The test of sweeplist, with deadmask == otherwhite(g). */
  predicate SweepKeeps(currentwhite: Byte, m: Byte) { (m ^ WHITEBITS) & OtherWhite(currentwhite) != 0 }

  /** Each macro changes the colour as GcHeap does, and keeps the other bits of the byte. */
  lemma MacrosChangeColour(w: bool, m: Byte)
    requires ColourOf(m).Some?
    ensures ColourOf(MakeWhite(CurrentWhite(w), m)) == Some(GcHeap.White(w))
    ensures MakeWhite(CurrentWhite(w), m) & 0xF8 == m & 0xF8
    ensures ColourOf(m).value.White? ==>
              ColourOf(White2Gray(m)) == Some(GcHeap.Gray) && White2Gray(m) & 0xF8 == m & 0xF8
    ensures ColourOf(m).value.Gray? ==>
              ColourOf(Gray2Black(m)) == Some(GcHeap.Black) && Gray2Black(m) & 0xF8 == m & 0xF8
    ensures ColourOf(m).value.Black? ==>
              ColourOf(Black2Gray(m)) == Some(GcHeap.Gray) && Black2Gray(m) & 0xF8 == m & 0xF8
    ensures ColourOf(m).value.White? ==>
              ColourOf(ChangeWhite(m)) == Some(GcHeap.White(!ColourOf(m).value.w)) && ChangeWhite(m) & 0xF8 == m & 0xF8
    ensures CurrentWhite(!w) == OtherWhite(CurrentWhite(w))
  {
    assert m & 0x07 == 0 || m & 0x07 == 1 || m & 0x07 == 2 || m & 0x07 == 4;
    var r := MakeWhite(CurrentWhite(w), m);
    assert r & 0x07 == if w then 2 else 1;
  }

  /** The one masked comparison of the sweep spares what is not dead, and what is fixed. */
  lemma SweepTest(w: bool, m: Byte)
    requires ColourOf(m).Some?
    ensures IsDead(CurrentWhite(w), m) <==> ColourOf(m) == Some(GcHeap.White(!w))
    ensures SweepKeeps(CurrentWhite(w), m) <==> ColourOf(m) != Some(GcHeap.White(!w)) || m & FIXEDBIT != 0
  {
    assert m & 0x07 == 0 || m & 0x07 == 1 || m & 0x07 == 2 || m & 0x07 == 4;
  }
}
