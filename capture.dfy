/** The measurement state machine run by one iteration of the main loop: falling-edge
    detection on the two strips, arming on strip 1, closing the capture on strip 2,
    the 4-bit event counter and the validity flag that gates the display. */
module Capture {
  import opened Bits
  import opened Digits
  import opened Segments
  import opened Speed

  /** `unsigned long` on the AVR: 32 bits. */
  const Modulus: int := 0x1_0000_0000
  type Millis = x: int | 0 <= x < 0x1_0000_0000

  /** `end - start` on two `unsigned long` readings of `millis()`: modular subtraction. */
  function Elapsed(start: Millis, end: Millis): (r: Millis)
    ensures start <= end ==> r == end - start
    ensures end < start ==> r == end - start + Modulus
  {
    (end - start) % Modulus
  }

  /** The elapsed time is the unique 32-bit value that, added to the start, gives the end. */
  lemma ElapsedRoundTrip(start: Millis, end: Millis, d: Millis)
    ensures (start + Elapsed(start, end)) % Modulus == end
    ensures (start + d) % Modulus == end ==> d == Elapsed(start, end)
  {
  }

  /** The counter runs 1, 2, .., 15 and then back to 0. */
  const CounterMax: int := 15

  /** PORTD after `InitializeIO`: the AVR resets the port to 0, then the pull-ups of
      BTN1 (PD2) and BTN2 (PD3) are switched on. */
  const InitialPortD: bv8 := 0x0C

  /** The buffer `clearDisplay` leaves. */
  const Cleared: seq<int> := [0, 0, 0, 0]

  /** The measurement globals of the firmware and PORTD (which holds the counter LEDs).
      A button state is `true` when its line reads 1 (released, pulled up). */
  datatype Snapshot = Snapshot(
    lastButtonState1: bool,
    lastButtonState2: bool,
    waitingForButton2: bool,
    timeButton1: Millis,
    timeButton2: Millis,
    deltaTime: Millis,
    counter: int,
    speedValid: bool,
    displayBuffer: seq<int>,
    portD: bv8)

  /** The state after the initialisers of the globals and `InitializeIO`. */
  function Initial(): Snapshot
  {
    Snapshot(true, true, false, 0, 0, 0, 0, false, Cleared, InitialPortD)
  }

  /** `(PIND & (1<<BTN1)) ? 1 : 0` as a level, BTN1 being PD2: `true` when the line reads 1. */
  predicate Button1(pind: bv8)
  {
    pind & 0x04 != 0
  }

  /** The same for BTN2, PD3. */
  predicate Button2(pind: bv8)
  {
    pind & 0x08 != 0
  }

  /** Falling edge of an active-low input: it reads 0 now and read 1 on the previous iteration. */
  predicate Fell(state: bool, last: bool)
  {
    !state && last
  }

  /** What the firmware keeps true between iterations: the counter is 4-bit, the display is
      valid exactly when the counter is not 0, an invalid display holds only zeros, every
      entry is a decimal digit (so `patterns[displayBuffer[d]]` is in bounds) and the
      LEDs show the counter in binary. */
  ghost predicate Inv(s: Snapshot)
  {
    0 <= s.counter <= CounterMax &&
    s.speedValid == (s.counter != 0) &&
    |s.displayBuffer| == DigitCount && IsDigits(s.displayBuffer) &&
    (!s.speedValid ==> s.displayBuffer == Cleared) &&
    ShowsBinary(s.portD, s.counter)
  }

  /** The completed capture of lines 149-157: the end time, the elapsed time, the counter
      step, the LEDs, and either the new speed or a cleared, invalid display. `speed` is
      the rounded speed `(int)(snelheid + 0.5)` that `showSnelheid` computes. */
  function Complete(s: Snapshot, now2: Millis, speed: int): Snapshot
  {
    var c := if s.counter + 1 > CounterMax then 0 else s.counter + 1;
    s.(timeButton2 := now2,
       deltaTime := Elapsed(s.timeButton1, now2),
       counter := c,
       portD := LedPort(s.portD, c),
       displayBuffer := if c > 0 then SpeedDigits(speed) else Cleared,
       speedValid := c > 0,
       waitingForButton2 := false)
  }

  /** Lines 142-145: a falling edge on button 1 arms the measurement and records its time,
      also while a measurement is already armed. */
  function Arm(s: Snapshot, state1: bool, now1: Millis): Snapshot
  {
    if Fell(state1, s.lastButtonState1) then s.(waitingForButton2 := true, timeButton1 := now1) else s
  }

  /** Lines 148-158: a falling edge on button 2 while armed completes the measurement. */
  function Close(s: Snapshot, state2: bool, now2: Millis, speed: int): Snapshot
  {
    if Fell(state2, s.lastButtonState2) && s.waitingForButton2 then Complete(s, now2, speed) else s
  }

  /** One pass over lines 138-162, given the two button samples, the two `millis()`
      readings the iteration would take (line 144 and line 149) and the rounded speed:
      button 1 first, then button 2, then the samples are recorded (lines 161-162). */
  function Next(s: Snapshot, state1: bool, state2: bool, now1: Millis, now2: Millis, speed: int): Snapshot
  {
    Close(Arm(s, state1, now1), state2, now2, speed).(lastButtonState1 := state1, lastButtonState2 := state2)
  }

  lemma InitialInv()
    ensures Inv(Initial())
  {
  }

  /** Every iteration keeps the invariant. */
  lemma NextPreservesInv(s: Snapshot, state1: bool, state2: bool, now1: Millis, now2: Millis, speed: int)
    requires Inv(s)
    ensures Inv(Next(s, state1, state2, now1, now2, speed))
  {
  }

  /** Between iterations the four LEDs spell the counter in binary. */
  lemma LedsShowCounter(s: Snapshot)
    requires Inv(s)
    ensures LedValue(s.portD) == s.counter
  {
    assert Pow2(4) == 16;
    BitsValueExact(s.counter, 4);
  }

  /** A capture is completed exactly when button 2 falls while armed, or when both buttons fall
      in the same iteration; the counter changes exactly then, and the samples are always kept. */
  lemma CaptureIff(s: Snapshot, state1: bool, state2: bool, now1: Millis, now2: Millis, speed: int)
    ensures var r := Next(s, state1, state2, now1, now2, speed);
      r.lastButtonState1 == state1 && r.lastButtonState2 == state2 &&
      (r.counter != s.counter <==>
        Fell(state2, s.lastButtonState2) && (s.waitingForButton2 || Fell(state1, s.lastButtonState1)))
  {
  }

  /** Without an edge that arms or closes a capture, only the recorded samples change: button 2
      falling while idle leaves counter, validity, buffer, times and LEDs as they were. */
  lemma QuietIteration(s: Snapshot, state1: bool, state2: bool, now1: Millis, now2: Millis, speed: int)
    requires !Fell(state1, s.lastButtonState1)
    requires !(Fell(state2, s.lastButtonState2) && s.waitingForButton2)
    ensures Next(s, state1, state2, now1, now2, speed)
         == s.(lastButtonState1 := state1, lastButtonState2 := state2)
  {
  }

  /** A button-1 edge always (re-)arms and restarts the timing at `now1`, armed or not;
      without a button-2 edge nothing else changes. */
  lemma Button1Arms(s: Snapshot, state1: bool, state2: bool, now1: Millis, now2: Millis, speed: int)
    requires Fell(state1, s.lastButtonState1) && !Fell(state2, s.lastButtonState2)
    ensures Next(s, state1, state2, now1, now2, speed)
         == s.(waitingForButton2 := true, timeButton1 := now1,
               lastButtonState1 := state1, lastButtonState2 := state2)
  {
  }

  /** A completed capture measures from the most recent button-1 edge (this iteration's if
      there is one), disarms, steps the counter modulo 16 and sets the display from it. */
  lemma CaptureCompletes(s: Snapshot, state1: bool, state2: bool, now1: Millis, now2: Millis, speed: int)
    requires Inv(s)
    requires Fell(state2, s.lastButtonState2)
    requires s.waitingForButton2 || Fell(state1, s.lastButtonState1)
    ensures var r := Next(s, state1, state2, now1, now2, speed);
      var start := if Fell(state1, s.lastButtonState1) then now1 else s.timeButton1;
      r.timeButton1 == start && r.timeButton2 == now2 &&
      r.deltaTime == Elapsed(start, now2) &&
      !r.waitingForButton2 &&
      r.counter == (s.counter + 1) % 16 &&
      r.speedValid == (r.counter != 0) &&
      r.displayBuffer == (if r.counter != 0 then SpeedDigits(speed) else Cleared)
  {
  }

  /** One object passing: strip 1 goes low at `t1`, then strip 1 is released as strip 2 goes low
      at `t2`, then strip 2 is released. */
  function Transit(s: Snapshot, t1: Millis, t2: Millis, speed: int): Snapshot
  {
    var a := Next(s, false, true, t1, t1, speed);
    var b := Next(a, true, false, t2, t2, speed);
    Next(b, true, true, t2, t2, speed)
  }

  /** A transit from released buttons is one completed capture of `t2 - t1`. */
  lemma TransitCaptures(s: Snapshot, t1: Millis, t2: Millis, speed: int)
    requires Inv(s) && s.lastButtonState1 && s.lastButtonState2
    ensures var r := Transit(s, t1, t2, speed);
      Inv(r) && r.lastButtonState1 && r.lastButtonState2 && !r.waitingForButton2 &&
      r.deltaTime == Elapsed(t1, t2) &&
      r.counter == (s.counter + 1) % 16 &&
      r.displayBuffer == (if r.counter != 0 then SpeedDigits(speed) else Cleared)
  {
    var a := Next(s, false, true, t1, t1, speed);
    NextPreservesInv(s, false, true, t1, t1, speed);
    CaptureCompletes(a, true, false, t2, t2, speed);
  }

  /** `n` transits with the same timings. */
  function Transits(s: Snapshot, n: nat, t1: Millis, t2: Millis, speed: int): Snapshot
    decreases n
  {
    if n == 0 then s else Transit(Transits(s, n - 1, t1, t2, speed), t1, t2, speed)
  }

  /** The counter counts transits modulo 16, the invariant holds throughout (so the display is
      valid exactly when the count is not a multiple of 16), and both buttons end released. */
  lemma {:induction false} TransitsCount(s: Snapshot, n: nat, t1: Millis, t2: Millis, speed: int)
    requires Inv(s) && s.lastButtonState1 && s.lastButtonState2
    decreases n
    ensures var r := Transits(s, n, t1, t2, speed);
      Inv(r) && r.lastButtonState1 && r.lastButtonState2 &&
      r.counter == (s.counter + n) % 16
  {
    if n == 0 {
      StepMod16(s.counter - 1);
    } else {
      var prev := Transits(s, n - 1, t1, t2, speed);
      var r := Transit(prev, t1, t2, speed);
      assert Transits(s, n, t1, t2, speed) == r;
      TransitsCount(s, n - 1, t1, t2, speed);
      TransitCaptures(prev, t1, t2, speed);
      var x := s.counter + n - 1;
      StepMod16(x);
      assert r.counter == (x % 16 + 1) % 16;
    }
  }

  lemma StepMod16(x: int)
    ensures (x % 16 + 1) % 16 == (x + 1) % 16
    ensures 0 <= x + 1 < 16 ==> (x + 1) % 16 == x + 1
  {
  }

  /** From power-up the counter reads 1..15 after 1..15 transits; the 16th resets it to 0,
      invalidates the display and clears the buffer, whatever the speed. */
  lemma SixteenthTransitInvalidates(n: nat, t1: Millis, t2: Millis, speed: int)
    requires 1 <= n <= 16
    ensures var r := Transits(Initial(), n, t1, t2, speed);
      (n < 16 ==> r.counter == n && r.speedValid) &&
      (n == 16 ==> r.counter == 0 && !r.speedValid && r.displayBuffer == Cleared)
  {
    InitialInv();
    TransitsCount(Initial(), n, t1, t2, speed);
  }

  /** Strips 0.6 m apart passed at 0 ms and 600 ms: 3.6 km/h, rounded to 4, is shown as
      4 0 0 0, the counter reads 1 (LED1 on, PORTD 0x1C) and the display is valid. */
  lemma EndToEndExample()
    ensures var r := Transit(Initial(), 0, 600, RoundedSpeed(Elapsed(0, 600)));
      r.deltaTime == 600 && r.displayBuffer == [4, 0, 0, 0] &&
      r.counter == 1 && r.speedValid && r.portD == 0x1C
  {
    RoundedSpeedExamples();
    assert Elapsed(0, 600) == 600;
  }

  /** Two button-1 edges 100 ms apart before the button-2 edge at 250 ms: the elapsed time is
      counted from the second edge (150 ms), not from the first (250 ms). */
  lemma RearmExample()
    ensures var a := Next(Initial(), false, true, 0, 0, 0);
      var b := Next(a, true, true, 50, 50, 0);
      var c := Next(b, false, true, 100, 100, 0);
      var d := Next(c, true, false, 250, 250, 9);
      d.deltaTime == 150 && d.counter == 1 && !d.waitingForButton2
  {
  }

  /** Both edges in the same millisecond close a capture of 0 ms, the case for which the speed
      formula of lines 152-153 divides by zero (`RoundedSpeed` is only defined for dt > 0). */
  lemma ZeroElapsedReachable(now: Millis, speed: int)
    ensures var r := Next(Initial(), false, false, now, now, speed);
      r.deltaTime == 0 && r.counter == 1 && r.speedValid
  {
  }

  /** Both edges in one iteration: button 1 is handled first, so the same iteration closes a
      capture of length `now2 - now1`. */
  lemma BothEdgesOneIteration(s: Snapshot, now1: Millis, now2: Millis, speed: int)
    requires Inv(s) && s.lastButtonState1 && s.lastButtonState2
    ensures var r := Next(s, false, false, now1, now2, speed);
      r.deltaTime == Elapsed(now1, now2) && !r.waitingForButton2 &&
      r.counter == (s.counter + 1) % 16
  {
    CaptureCompletes(s, false, false, now1, now2, speed);
  }
}
