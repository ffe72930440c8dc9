/** The bit-packed states of the multibyte decoder (musl-multibyte/internal.h and internal.c). */
module MultibyteTable {
  import opened Utf8

  const SA: bv32 := 0xC2
  const SB: bv32 := 0xF4

  /** The bounds [a, b) of the next byte, in the upper bits of a state. */
  function R(a: bv32, b: bv32): bv32 {
    (if a == 0x80 then 0x40 - b else 0 - a) << 23
  }

  function C(x: bv32): bv32 {
    if x < 2 then 0xFFFFFFFF else R(0x80, 0xC0) | x
  }

  function D(x: bv32): bv32 {
    C(x + 16)
  }

  function E(x: bv32): bv32 {
    (if x == 0 then R(0xA0, 0xC0) else if x == 0xD then R(0x80, 0xA0) else R(0x80, 0xC0)) | (R(0x80, 0xC0) >> 6) | x
  }

  function F(x: bv32): bv32 {
    (if x >= 5 then 0 else if x == 0 then R(0x90, 0xC0) else if x == 4 then R(0x80, 0xA0) else R(0x80, 0xC0))
    | (R(0x80, 0xC0) >> 6) | (R(0x80, 0xC0) >> 12) | x
  }

  /** The entry of the table for a lead byte between SA and SB. */
  function Bittab(i: bv32): bv32
    requires i <= SB - SA
  {
    if i < 14 then C(i + 2) else if i < 30 then D(i - 14) else if i < 46 then E(i - 30) else F(i - 46)
  }

  /** Shifting a signed 32-bit integer to the right by 26 bits keeps its sign. */
  function SignedShift26(c: bv32): bv32 {
    if c & 0x80000000 != 0 then (c >> 26) | 0xFFFFFFC0 else c >> 26
  }

  /** Whether byte b is outside the bounds in state c. */
  predicate OutOfBounds(c: bv32, b: byte) {
    ((((b as bv32) >> 3) - 0x10) | (((b as bv32) >> 3) + SignedShift26(c))) & 0xFFFFFFF8 != 0
  }

  /** The state after a lead byte. */
  function State(lead: byte): bv32
    requires 0xC2 <= lead <= 0xF4
  {
    Bittab(lead as bv32 - SA)
  }

  /** The bounds packed in the table are those of the grammar. */
  lemma BoundsAreGrammar(lead: byte, b: byte)
    requires 0xC2 <= lead <= 0xF4
    ensures !OutOfBounds(State(lead), b) <==> SecondOk(lead, b)
  {
  }

  /** One more byte is shifted in; the top bit then tells whether another one follows. */
  function Shifted(c: bv32, b: byte): bv32 {
    (c << 6) | (b as bv32 - 0x80)
  }

  predicate More(c: bv32) {
    c & 0x80000000 != 0
  }

  lemma StateAfter2(b0: byte, b1: byte)
    requires 0xC2 <= b0 <= 0xF4 && SecondOk(b0, b1)
    ensures var c := Shifted(State(b0), b1);
            && (More(c) <==> 0xE0 <= b0) && (More(c) <==> State(b0) & 0x02000000 != 0)
            && (b0 <= 0xDF ==> c == Join2(b0, b1))
  {
  }

  lemma StateAfter3(b0: byte, b1: byte, b2: byte)
    requires 0xE0 <= b0 <= 0xF4 && SecondOk(b0, b1) && IsTail(b2)
    ensures var c := Shifted(Shifted(State(b0), b1), b2);
            && (More(c) <==> 0xF0 <= b0) && (More(c) <==> State(b0) & 0x00080000 != 0)
            && (b0 <= 0xEF ==> c == Join3(b0, b1, b2))
  {
  }

  lemma StateAfter4(b0: byte, b1: byte, b2: byte, b3: byte)
    requires 0xF0 <= b0 <= 0xF4 && SecondOk(b0, b1) && IsTail(b2) && IsTail(b3)
    ensures Shifted(Shifted(Shifted(State(b0), b1), b2), b3) == Join4(b0, b1, b2, b3)
  {
  }

  /** A state is never zero, so it shows that a sequence has begun. */
  lemma StateNotZero(b0: byte)
    requires 0xC2 <= b0 <= 0xF4
    ensures State(b0) != 0
  {
  }

  // ----- Four bytes at a time -----

  /** A little-endian load. */
  function Word(b0: byte, b1: byte, b2: byte, b3: byte): bv32 {
    (b0 as bv32) | ((b1 as bv32) << 8) | ((b2 as bv32) << 16) | ((b3 as bv32) << 24)
  }

  predicate AllAscii(w: bv32) {
    (w | (w - 0x01010101)) & 0x80808080 == 0
  }

  /** The byte test *s - 1u < 0x7f. */
  predicate IsAscii(b: byte) {
    (b as bv32) - 1 < 0x7F
  }

  lemma AsciiBytes(b: byte)
    ensures IsAscii(b) <==> 1 <= b <= 0x7F
  {
  }

  /** The test on a whole word holds exactly if all its bytes are ASCII and none is the terminator. */
  lemma WordTest(b0: byte, b1: byte, b2: byte, b3: byte)
    ensures AllAscii(Word(b0, b1, b2, b3)) <==> 1 <= b0 <= 0x7F && 1 <= b1 <= 0x7F && 1 <= b2 <= 0x7F && 1 <= b3 <= 0x7F
  {
  }

  lemma LeadTest(b: byte)
    ensures (b as bv32) - SA > SB - SA <==> b < 0xC2 || b > 0xF4
  {
  }

  lemma TailTest(b: byte)
    ensures (b as bv32) - 0x80 >= 0x40 <==> !IsTail(b)
  {
  }
}
