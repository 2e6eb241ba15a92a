/** The decimal side of `showSnelheid`: clamping the rounded speed to what four
    digits can show, and splitting it into digits, ones first. */
module Digits {
  import opened Arith

  /** Largest value the four-digit display can show. */
  const MaxShown: int := 9999

  /** Number of digit positions of the display (and entries of the display buffer). */
  const DigitCount: nat := 4

  /** The two clamps of `showSnelheid`: above 9999 becomes 9999, below 0 becomes 0. */
  function Clamp(v: int): (c: int)
    ensures 0 <= c <= MaxShown
    ensures 0 <= v <= MaxShown ==> c == v
  {
    var c := if v > MaxShown then MaxShown else v;
    if c < 0 then 0 else c
  }

  function Abs(x: int): nat
  {
    if x < 0 then -x else x
  }

  /** The clamped value is the displayable value nearest to the input. */
  lemma ClampIsNearest(v: int, w: int)
    requires 0 <= w <= MaxShown
    ensures Abs(v - Clamp(v)) <= Abs(v - w)
  {
  }

  function Pow10(i: nat): (r: nat)
    ensures r >= 1
  {
    if i == 0 then 1 else 10 * Pow10(i - 1)
  }

  /** What `n` rounds of `displayBuffer[i] = value % 10; value /= 10;` write, ones first, for
      `v >= 0`: C's `%` and `/` truncate toward zero while these are Euclidean, so the two differ
      on negative values. It is only applied to the clamped, non-negative speed. */
  function DigitsOf(v: int, n: nat): (ds: seq<int>)
    decreases n
    ensures |ds| == n
    ensures forall i :: 0 <= i < n ==> 0 <= ds[i] <= 9
  {
    if n == 0 then [] else [v % 10] + DigitsOf(v / 10, n - 1)
  }

  /** The number the digits spell, `ds[0]` being the ones. */
  function Value(ds: seq<int>): int
  {
    if ds == [] then 0 else ds[0] + 10 * Value(ds[1..])
  }

  predicate IsDigits(ds: seq<int>)
  {
    forall i :: 0 <= i < |ds| ==> 0 <= ds[i] <= 9
  }

  /** Entry `i` of the decomposition is the i-th decimal digit, `(v / 10^i) % 10`. */
  lemma {:induction false} DigitAt(v: int, n: nat, i: nat)
    requires i < n
    decreases i
    ensures DigitsOf(v, n)[i] == (v / Pow10(i)) % 10
  {
    if i > 0 {
      DigitAt(v / 10, n - 1, i - 1);
      DivDiv(v, 10, Pow10(i - 1));
    }
  }

  /** The decomposition keeps exactly the value modulo 10^n. */
  lemma {:induction false} ValueOfDigits(v: int, n: nat)
    decreases n
    ensures Value(DigitsOf(v, n)) == v % Pow10(n)
  {
    if n > 0 {
      var ds := DigitsOf(v, n);
      assert ds[1..] == DigitsOf(v / 10, n - 1);
      ValueOfDigits(v / 10, n - 1);
      ModMul(v, 10, Pow10(n - 1));
    }
  }

  /** Decimal digits spell a number below 10^|ds|. */
  lemma {:induction false} ValueBounds(ds: seq<int>)
    requires IsDigits(ds)
    ensures 0 <= Value(ds) < Pow10(|ds|)
  {
    if ds != [] {
      ValueBounds(ds[1..]);
    }
  }

  /** Decomposing what a digit sequence spells gives the sequence back. */
  lemma {:induction false} DigitsRoundTrip(ds: seq<int>)
    requires IsDigits(ds)
    ensures DigitsOf(Value(ds), |ds|) == ds
  {
    if ds != [] {
      var rest := ds[1..];
      ValueBounds(rest);
      DivUnique(Value(ds), 10, Value(rest), ds[0]);
      DigitsRoundTrip(rest);
    }
  }

  /** The buffer `showSnelheid` leaves for the rounded speed `v`. */
  function SpeedDigits(v: int): (ds: seq<int>)
    ensures |ds| == DigitCount && IsDigits(ds)
  {
    DigitsOf(Clamp(v), DigitCount)
  }

  /** Buffer entry `i` is the i-th decimal digit of the clamped speed, `(c / 10^i) % 10`. */
  lemma SpeedDigitAt(v: int, i: nat)
    requires i < DigitCount
    ensures SpeedDigits(v)[i] == (Clamp(v) / Pow10(i)) % 10
  {
    DigitAt(Clamp(v), DigitCount, i);
  }

  /** The buffer spells the clamped speed: nothing of it is lost. */
  lemma SpeedDigitsValue(v: int)
    ensures Value(SpeedDigits(v)) == Clamp(v)
  {
    ValueOfDigits(Clamp(v), DigitCount);
    assert Pow10(DigitCount) == 10000;
  }

  /** Any four decimal digits are what `showSnelheid` shows for the number they spell. */
  lemma SpeedDigitsOnto(ds: seq<int>)
    requires |ds| == DigitCount && IsDigits(ds)
    ensures SpeedDigits(Value(ds)) == ds
  {
    ValueBounds(ds);
    assert Pow10(DigitCount) == 10000;
    DigitsRoundTrip(ds);
  }

  /** 1234 is shown ones first; out-of-range speeds show the clamped value. */
  lemma SpeedDigitsExamples()
    ensures SpeedDigits(1234) == [4, 3, 2, 1]
    ensures SpeedDigits(4) == [4, 0, 0, 0]
    ensures SpeedDigits(12345) == [9, 9, 9, 9]
    ensures SpeedDigits(-7) == [0, 0, 0, 0]
  {
    assert DigitsOf(1, 1) == [1];
    assert DigitsOf(12, 2) == [2, 1];
    assert DigitsOf(123, 3) == [3, 2, 1];
    assert DigitsOf(0, 3) == [0, 0, 0] by {
      assert DigitsOf(0, 1) == [0];
      assert DigitsOf(0, 2) == [0, 0];
    }
    assert DigitsOf(999, 3) == [9, 9, 9] by {
      assert DigitsOf(9, 1) == [9];
      assert DigitsOf(99, 2) == [9, 9];
    }
  }
}
