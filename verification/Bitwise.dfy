/** A byte as its eight bits, with its numeric value. */
module Bitwise {

  /** Most significant bit first. */
  datatype Byte = Byte(b7: bool, b6: bool, b5: bool, b4: bool, b3: bool, b2: bool, b1: bool, b0: bool)

  const ZERO := Byte(false, false, false, false, false, false, false, false)

  function Xor(a: Byte, b: Byte): Byte
  {
    Byte(a.b7 != b.b7, a.b6 != b.b6, a.b5 != b.b5, a.b4 != b.b4,
         a.b3 != b.b3, a.b2 != b.b2, a.b1 != b.b1, a.b0 != b.b0)
  }

  /** Wrapping shift left by one. */
  function ShiftLeft(c: Byte): Byte
  {
    Byte(c.b6, c.b5, c.b4, c.b3, c.b2, c.b1, c.b0, false)
  }

  function ShiftRight(c: Byte): Byte
  {
    Byte(false, c.b7, c.b6, c.b5, c.b4, c.b3, c.b2, c.b1)
  }

  // ── Numeric value ──────────────────────────────────────────────────────

  function Digit(b: bool): (d: nat)
    ensures d <= 1
  {
    if b then 1 else 0
  }

  function NibbleValue(b3: bool, b2: bool, b1: bool, b0: bool): (v: nat)
    ensures v < 16
  {
    8 * Digit(b3) + 4 * Digit(b2) + 2 * Digit(b1) + Digit(b0)
  }

  function Value(w: Byte): (v: nat)
    ensures v < 256
  {
    16 * NibbleValue(w.b7, w.b6, w.b5, w.b4) + NibbleValue(w.b3, w.b2, w.b1, w.b0)
  }

  function OfNibbles(h: nat, l: nat): Byte
    requires h < 16 && l < 16
  {
    Byte(h >= 8, h % 8 >= 4, h % 4 >= 2, h % 2 >= 1, l >= 8, l % 8 >= 4, l % 4 >= 2, l % 2 >= 1)
  }

  /** The byte of a value, as a truncating cast gives it. */
  function OfValue(v: nat): Byte
  {
    OfNibbles(v % 256 / 16, v % 16)
  }

  lemma {:induction false} NibbleOf(v: nat)
    requires v < 16
    ensures NibbleValue(v >= 8, v % 8 >= 4, v % 4 >= 2, v % 2 >= 1) == v
  {}

  lemma {:induction false} BitsOfNibble(b3: bool, b2: bool, b1: bool, b0: bool)
    ensures var v := NibbleValue(b3, b2, b1, b0);
            (v >= 8) == b3 && (v % 8 >= 4) == b2 && (v % 4 >= 2) == b1 && (v % 2 >= 1) == b0
  {}

  lemma {:induction false} SplitNibbles(h: nat, l: nat)
    requires h < 16 && l < 16
    ensures (16 * h + l) % 256 / 16 == h && (16 * h + l) % 16 == l
  {}

  lemma {:induction false} JoinNibbles(v: nat)
    requires v < 256
    ensures 16 * (v % 256 / 16) + v % 16 == v
  {}

  lemma {:induction false} ValueOfOfValue(v: nat)
    requires v < 256
    ensures Value(OfValue(v)) == v
  {
    JoinNibbles(v);
    NibbleOf(v % 256 / 16);
    NibbleOf(v % 16);
  }

  lemma {:induction false} OfValueOfValue(w: Byte)
    ensures OfValue(Value(w)) == w
  {
    var h, l := NibbleValue(w.b7, w.b6, w.b5, w.b4), NibbleValue(w.b3, w.b2, w.b1, w.b0);
    SplitNibbles(h, l);
    OfNibblesOf(w);
  }

  lemma {:induction false} OfNibblesOf(w: Byte)
    ensures OfNibbles(NibbleValue(w.b7, w.b6, w.b5, w.b4), NibbleValue(w.b3, w.b2, w.b1, w.b0)) == w
  {
    BitsOfNibble(w.b7, w.b6, w.b5, w.b4);
    BitsOfNibble(w.b3, w.b2, w.b1, w.b0);
  }
}
