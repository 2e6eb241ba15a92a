/** Pin assignment, the seven-segment pattern table and the port images that
    `showBinary`, `showDigit` and the blanking of the refresh loop produce. */
module Segments {
  import opened Bits

  /** LED1..LED4 are PORTD bits 4..7 (PD4..PD7). */
  const Led1: nat := 4
  /** Segment G is PORTC bit 5 (PC5); segments A..F are PORTB bits 0..5 (PB0..PB5). */
  const SegG: nat := 5
  /** Digit strobes DIG1..DIG4 are PORTC bits 1..4 (PC1..PC4), active low. */
  const Dig1: nat := 1
  /** `(1<<DIG1)|(1<<DIG2)|(1<<DIG3)|(1<<DIG4)`. */
  const DigitLinesMask: bv8 := 0x1E
  /** The PORTB bits no display routine drives (PB6, PB7). */
  const PortBSpare: bv8 := 0xC0
  /** The PORTC bits no display routine drives (PC0, PC6, PC7). */
  const PortCSpare: bv8 := 0xC1

  /** The `patterns` table: bit 6 is segment A down to bit 1 for segment F, bit 0 is segment G.
      Entries 0..9 are the decimal digits, 10 and 11 the letters A and b. */
  const Patterns: seq<bv8> := [
    0x7E, // 0  0b1111110
    0x30, // 1  0b0110000
    0x6D, // 2  0b1101101
    0x79, // 3  0b1111001
    0x33, // 4  0b0110011
    0x5B, // 5  0b1011011
    0x5F, // 6  0b1011111
    0x70, // 7  0b1110000
    0x7F, // 8  0b1111111
    0x7B, // 9  0b1111011
    0x4F, // A  0b1001111
    0x1F  // b  0b0011111
  ]

  /** The byte a seven-digit C binary literal `0b...` denotes, digits most significant first. */
  function BinaryLiteral(digits: string): (r: bv8)
    requires |digits| == 7
  {
    (if digits[0] == '1' then 0x40 else 0) | (if digits[1] == '1' then 0x20 else 0) |
    (if digits[2] == '1' then 0x10 else 0) | (if digits[3] == '1' then 0x08 else 0) |
    (if digits[4] == '1' then 0x04 else 0) | (if digits[5] == '1' then 0x02 else 0) |
    (if digits[6] == '1' then 0x01 else 0)
  }

  /** Each entry of the table is the binary literal written for it, segments A..G left to right. */
  lemma PatternsAreLiterals()
    ensures Patterns == [
      BinaryLiteral("1111110"), BinaryLiteral("0110000"), BinaryLiteral("1101101"),
      BinaryLiteral("1111001"), BinaryLiteral("0110011"), BinaryLiteral("1011011"),
      BinaryLiteral("1011111"), BinaryLiteral("1110000"), BinaryLiteral("1111111"),
      BinaryLiteral("1111011"), BinaryLiteral("1001111"), BinaryLiteral("0011111")]
  {
  }

  /** The table has twelve seven-bit entries, no two alike, so the lit segments name the symbol. */
  lemma PatternsWellFormed()
    ensures |Patterns| == 12
    ensures forall p :: 0 <= p < |Patterns| ==> Patterns[p] & 0x80 == 0
    ensures forall p, q :: 0 <= p < q < |Patterns| ==> Patterns[p] != Patterns[q]
  {
  }

  /** LED1..LED4 (PORTD bits 4..7, masks 0x10..0x80) show bits 0..3 of `value`. */
  predicate ShowsBinary(d: bv8, value: int)
  {
    (d & 0x10 != 0) == IntBit(value, 0) && (d & 0x20 != 0) == IntBit(value, 1) &&
    (d & 0x40 != 0) == IntBit(value, 2) && (d & 0x80 != 0) == IntBit(value, 3)
  }

  /** The number the four LEDs spell in binary, LED1 being the least significant. */
  function LedValue(d: bv8): int
  {
    (if d & 0x10 != 0 then 1 else 0) + 2 * (if d & 0x20 != 0 then 1 else 0) +
    4 * (if d & 0x40 != 0 then 1 else 0) + 8 * (if d & 0x80 != 0 then 1 else 0)
  }

  /** PORTD after `showBinary(value)`: the LEDs show the low four bits of `value`, PD0..PD3 are kept. */
  function LedPort(d: bv8, value: int): (r: bv8)
    ensures ShowsBinary(r, value)
    ensures r & 0x0F == d & 0x0F
  {
    var d1 := SetBit(d, Led1, IntBit(value, 0));
    var d2 := SetBit(d1, Led1 + 1, IntBit(value, 1));
    var d3 := SetBit(d2, Led1 + 2, IntBit(value, 2));
    SetBit(d3, Led1 + 3, IntBit(value, 3))
  }

  /** The LED bits and the kept low nibble determine the port: `LedPort` is the only image
      with both properties. */
  lemma LedPortUnique(d: bv8, value: int, r: bv8)
    requires ShowsBinary(r, value) && r & 0x0F == d & 0x0F
    ensures r == LedPort(d, value)
  {
  }

  /** Reading the LEDs back as a binary number gives any counter value in [0, 16). */
  lemma LedsReadBack(d: bv8, c: int)
    requires 0 <= c < 16
    ensures LedValue(LedPort(d, c)) == c
  {
    assert Pow2(4) == 16;
    BitsValueExact(c, 4);
  }

  /** PORTB drives segments A..F (bits 0..5) from pattern bits 6..1. */
  predicate SegmentsAF(b: bv8, pattern: bv8)
  {
    (b & 0x01 != 0) == (pattern & 0x40 != 0) && (b & 0x02 != 0) == (pattern & 0x20 != 0) &&
    (b & 0x04 != 0) == (pattern & 0x10 != 0) && (b & 0x08 != 0) == (pattern & 0x08 != 0) &&
    (b & 0x10 != 0) == (pattern & 0x04 != 0) && (b & 0x20 != 0) == (pattern & 0x02 != 0)
  }

  /** PORTB after the first `i` rounds of the segment loop of `showDigit`: round `j` sets
      bit `j` of the port to bit `6 - j` of the pattern. */
  function SegmentLines(b: bv8, pattern: bv8, i: nat): bv8
    requires i <= 6
  {
    if i == 0 then b else SetBit(SegmentLines(b, pattern, i - 1), i - 1, Bit(pattern, 6 - (i - 1)))
  }

  /** PORTB after the whole segment loop: segments A..F follow the pattern, PB6 and PB7 are kept. */
  lemma SegmentLinesDone(b: bv8, pattern: bv8)
    ensures SegmentsAF(SegmentLines(b, pattern, 6), pattern)
    ensures SegmentLines(b, pattern, 6) & PortBSpare == b & PortBSpare
  {
    assert SegmentLines(b, pattern, 0) == b;
    var r1 := SegmentLines(b, pattern, 1);
    assert r1 == SetBit(b, 0, Bit(pattern, 6));
    var r2 := SegmentLines(b, pattern, 2);
    assert r2 == SetBit(r1, 1, Bit(pattern, 5));
    var r3 := SegmentLines(b, pattern, 3);
    assert r3 == SetBit(r2, 2, Bit(pattern, 4));
    var r4 := SegmentLines(b, pattern, 4);
    assert r4 == SetBit(r3, 3, Bit(pattern, 3));
    var r5 := SegmentLines(b, pattern, 5);
    assert r5 == SetBit(r4, 4, Bit(pattern, 2));
    var r6 := SegmentLines(b, pattern, 6);
    assert r6 == SetBit(r5, 5, Bit(pattern, 1));
  }

  /** All four digit lines (PORTC masks 0x02..0x10) are high: no digit is lit. */
  predicate Dark(c: bv8)
  {
    c & 0x02 != 0 && c & 0x04 != 0 && c & 0x08 != 0 && c & 0x10 != 0
  }

  /** Exactly the digit line of position `d` is low (none when `d` is outside 0..3). */
  predicate Strobes(c: bv8, d: int)
  {
    (c & 0x02 != 0 <==> d != 0) && (c & 0x04 != 0 <==> d != 1) &&
    (c & 0x08 != 0 <==> d != 2) && (c & 0x10 != 0 <==> d != 3)
  }

  /** Segment G (PORTC mask 0x20) follows pattern bit 0. */
  predicate SegmentG(c: bv8, pattern: bv8)
  {
    (c & 0x20 != 0) == (pattern & 0x01 != 0)
  }

  /** `PORTC |= digit mask`: all four digit lines high, every other bit kept. */
  function BlankDigits(c: bv8): (r: bv8)
    ensures Dark(r)
    ensures r & !DigitLinesMask == c & !DigitLinesMask
  {
    c | DigitLinesMask
  }

  /** PORTC after `showDigit(digitIndex, p)` with `pattern == patterns[p]`: segment G follows
      pattern bit 0 and only the line of `digitIndex` is pulled low (none when the index is
      outside 0..3, as the `switch` has no default). PC0, PC6 and PC7 are kept. */
  function DigitPortC(c: bv8, pattern: bv8, digitIndex: int): (r: bv8)
    ensures SegmentG(r, pattern)
    ensures Strobes(r, digitIndex)
    ensures r & PortCSpare == c & PortCSpare
  {
    var c1 := BlankDigits(c);
    var c2 := if pattern & 0x01 != 0 then c1 | 0x20 else c1 & !0x20;
    if digitIndex == 0 then c2 & !0x02
    else if digitIndex == 1 then c2 & !0x04
    else if digitIndex == 2 then c2 & !0x08
    else if digitIndex == 3 then c2 & !0x10
    else c2
  }

  /** The two display ports while one digit is held during its dwell. */
  datatype Frame = Frame(portB: bv8, portC: bv8)

  /** The frame lights `pattern`'s segments and strobes position `d` and no other. */
  predicate Shows(f: Frame, d: int, pattern: bv8)
  {
    SegmentsAF(f.portB, pattern) && SegmentG(f.portC, pattern) && Strobes(f.portC, d)
  }

  /** The frame leaves the bits no display routine drives as they are in `b` and `c`. */
  predicate Keeps(f: Frame, b: bv8, c: bv8)
  {
    f.portB & PortBSpare == b & PortBSpare && f.portC & PortCSpare == c & PortCSpare
  }

  /** The frame `showDigit(d, p)` leaves behind, from display ports `b` and `c`. */
  function DigitFrame(b: bv8, c: bv8, d: int, p: nat): (f: Frame)
    requires p < |Patterns|
    ensures Shows(f, d, Patterns[p])
    ensures Keeps(f, b, c)
  {
    SegmentLinesDone(b, Patterns[p]);
    Frame(SegmentLines(b, Patterns[p], 6), DigitPortC(c, Patterns[p], d))
  }

  /** Two seven-bit patterns that light the same segments are equal. */
  lemma SameSegments(f: Frame, d: int, x: bv8, y: bv8)
    requires x & 0x80 == 0 && y & 0x80 == 0
    requires Shows(f, d, x) && Shows(f, d, y)
    ensures x == y
  {
  }

  /** A frame that shows a table entry on a position determines which entry it is. */
  lemma FrameDeterminesSymbol(f: Frame, d: int, p: nat, q: nat)
    requires p < |Patterns| && q < |Patterns|
    requires Shows(f, d, Patterns[p]) && Shows(f, d, Patterns[q])
    ensures p == q
  {
    PatternsWellFormed();
    SameSegments(f, d, Patterns[p], Patterns[q]);
  }
}
