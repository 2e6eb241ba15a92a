/** The firmware's globals and port registers as one object, with the routines of the
    main loop that change them in place. Each routine is proved against the value-level
    definitions of the modules Digits, Segments and Capture. */
module Monitor {
  import opened Bits
  import opened Digits
  import opened Segments
  import opened Capture

  class Engine {
    /** `lastButtonState1/2`: the level each button line read on the previous iteration (true = 1). */
    var lastButtonState1: bool
    var lastButtonState2: bool
    var waitingForButton2: bool
    var timeButton1: Millis
    var timeButton2: Millis
    var deltaTime: Millis
    var counter: int
    /** `snelheidGeldig`: the display shows a measured speed. */
    var speedValid: bool
    /** `displayBuffer[4]`: the digits shown, ones first. */
    const displayBuffer: array<int>
    /** The output registers PORTB (segments A..F), PORTC (segment G, digit strobes), PORTD (LEDs). */
    var portB: bv8
    var portC: bv8
    var portD: bv8

    /** The measurement state, as the value-level machine of module Capture sees it. */
    function State(): Snapshot
      reads this, displayBuffer
    {
      Snapshot(lastButtonState1, lastButtonState2, waitingForButton2, timeButton1, timeButton2,
               deltaTime, counter, speedValid, displayBuffer[..], portD)
    }

    ghost predicate Valid()
      reads this, displayBuffer
    {
      displayBuffer.Length == DigitCount && Inv(State())
    }

    /** The globals' initialisers, then `InitializeIO`: pull-ups on the buttons and `clearDisplay()`.
        The ports start at the AVR reset value 0. */
    constructor ()
      ensures Valid() && fresh(displayBuffer)
      ensures State() == Initial()
      ensures portB == 0 && portC == 0
    {
      lastButtonState1, lastButtonState2 := true, true;
      waitingForButton2 := false;
      timeButton1, timeButton2, deltaTime := 0, 0, 0;
      counter := 0;
      speedValid := false;
      displayBuffer := new int[DigitCount];
      portB, portC, portD := 0, 0, 0;
      new;
      portD := portD | InitialPortD;
      ClearDisplay();
      InitialInv();
    }

    /** `showBinary(value)`: LED k+1 (PORTD bit 4+k) follows bit k of `value`. */
    method ShowBinary(value: int)
      modifies this`portD
      ensures portD == LedPort(old(portD), value)
    {
      // `value & 0x01`, `value & 0x02`, `value & 0x04`, `value & 0x08`
      var bit0, bit1, bit2, bit3 := IntBit(value, 0), IntBit(value, 1), IntBit(value, 2), IntBit(value, 3);
      var d := portD;
      if bit0 { d := d | Mask(Led1); } else { d := d & !Mask(Led1); }
      if bit1 { d := d | Mask(Led1 + 1); } else { d := d & !Mask(Led1 + 1); }
      if bit2 { d := d | Mask(Led1 + 2); } else { d := d & !Mask(Led1 + 2); }
      if bit3 { d := d | Mask(Led1 + 3); } else { d := d & !Mask(Led1 + 3); }
      LedPortUnique(portD, value, d);
      portD := d;
    }

    /** `showSnelheid`, from the rounded speed on: clamp to [0, 9999], then write the digits
        ones first. */
    method ShowSpeed(speed: int)
      requires displayBuffer.Length == DigitCount
      modifies displayBuffer
      ensures displayBuffer[..] == SpeedDigits(speed)
    {
      var value := speed;
      if value > MaxShown { value := MaxShown; }
      if value < 0 { value := 0; }
      assert value == Clamp(speed);
      ghost var ds := SpeedDigits(speed);
      for i := 0 to DigitCount
        invariant forall j :: 0 <= j < i ==> displayBuffer[j] == ds[j]
        invariant DigitsOf(value, DigitCount - i) == ds[i..]
      {
        ghost var rest := DigitsOf(value, DigitCount - i);
        assert rest == [value % 10] + DigitsOf(value / 10, DigitCount - i - 1);
        displayBuffer[i] := value % 10;
        value := value / 10;
        assert DigitsOf(value, DigitCount - (i + 1)) == rest[1..];
      }
    }

    /** `clearDisplay`: every buffer entry becomes 0. */
    method ClearDisplay()
      requires displayBuffer.Length == DigitCount
      modifies displayBuffer
      ensures displayBuffer[..] == Cleared
    {
      for i := 0 to DigitCount
        invariant forall j :: 0 <= j < i ==> displayBuffer[j] == 0
      {
        displayBuffer[i] := 0;
      }
    }

    /** The segment loop of `showDigit`: round `i` drives PORTB bit `i` (segment A + i) from
        bit `6 - i` of the pattern. */
    method WriteSegments(pattern: bv8)
      modifies this`portB
      ensures portB == SegmentLines(old(portB), pattern, 6)
    {
      var b := portB;
      for i := 0 to 6
        invariant b == SegmentLines(portB, pattern, i)
      {
        if pattern & Mask(6 - i) != 0 {
          b := b | Mask(i);
        } else {
          b := b & !Mask(i);
        }
      }
      portB := b;
    }

    /** `showDigit(digitIndex, patternIndex)` up to its dwell: all strobes off, segments from
        `patterns[patternIndex]`, then the strobe of `digitIndex` on. The source reads the table
        without a bound check, so the index must be one of its twelve entries. */
    method ShowDigit(digitIndex: int, patternIndex: int)
      requires 0 <= patternIndex < |Patterns|
      modifies this`portB, this`portC
      ensures Frame(portB, portC) == DigitFrame(old(portB), old(portC), digitIndex, patternIndex)
    {
      var c := portC | DigitLinesMask;
      var pattern := Patterns[patternIndex];
      WriteSegments(pattern);
      if pattern & Mask(0) != 0 { c := c | Mask(SegG); } else { c := c & !Mask(SegG); }
      if digitIndex == 0 {
        c := c & !Mask(Dig1);
      } else if digitIndex == 1 {
        c := c & !Mask(Dig1 + 1);
      } else if digitIndex == 2 {
        c := c & !Mask(Dig1 + 2);
      } else if digitIndex == 3 {
        c := c & !Mask(Dig1 + 3);
      }
      portC := c;
    }

    /** The display refresh at the top of the loop. Each `frames[d]` is what the ports hold
        during the dwell of digit `d`: when valid, digit `d` alone is strobed and shows the
        pattern of `displayBuffer[d]`; when invalid there is no dwell and all digit lines are
        driven high. Bits that no routine drives keep their values. */
    method Refresh() returns (ghost frames: seq<Frame>)
      requires Valid()
      modifies this`portB, this`portC
      ensures speedValid ==> (
        |frames| == DigitCount &&
        (forall d :: 0 <= d < DigitCount ==>
          Shows(frames[d], d, Patterns[displayBuffer[d]]) && Keeps(frames[d], old(portB), old(portC))) &&
        Frame(portB, portC) == frames[DigitCount - 1])
      ensures !speedValid ==> frames == [] && portB == old(portB) && portC == BlankDigits(old(portC))
      ensures Valid()
    {
      frames := [];
      for d := 0 to DigitCount
        invariant speedValid ==> (
          |frames| == d &&
          (forall e :: 0 <= e < d ==>
            Shows(frames[e], e, Patterns[displayBuffer[e]]) && Keeps(frames[e], old(portB), old(portC))) &&
          (d > 0 ==> Frame(portB, portC) == frames[d - 1]) &&
          (d == 0 ==> portB == old(portB) && portC == old(portC)))
        invariant !speedValid ==> (
          frames == [] && portB == old(portB) &&
          portC == if d == 0 then old(portC) else BlankDigits(old(portC)))
      {
        if speedValid {
          ShowDigit(d, displayBuffer[d]);
          frames := frames + [Frame(portB, portC)];
        } else {
          portC := portC | DigitLinesMask;
        }
      }
    }

    /** Lines 142-145: on a falling edge of button 1, arm and record `millis()`. */
    method HandleButton1(state1: bool, now1: Millis)
      modifies this`waitingForButton2, this`timeButton1
      ensures State() == Arm(old(State()), state1, now1)
    {
      if !state1 && lastButtonState1 {
        waitingForButton2 := true;
        timeButton1 := now1;
      }
    }

    /** Lines 149-157, the body of the button-2 branch: record `millis()`, compute the elapsed
        time, step the counter (0 after 15), show it on the LEDs, and show the speed or clear
        and invalidate the display. */
    method CompleteMeasurement(now2: Millis, speed: int)
      requires displayBuffer.Length == DigitCount
      modifies this, displayBuffer
      ensures State() == Complete(old(State()), now2, speed)
      ensures portB == old(portB) && portC == old(portC)
    {
      timeButton2 := now2;
      deltaTime := (timeButton2 - timeButton1) % Modulus;
      counter := counter + 1;
      if counter > CounterMax { counter := 0; }
      ShowBinary(counter);
      if counter > 0 {
        ShowSpeed(speed);
        speedValid := true;
      } else {
        ClearDisplay();
        speedValid := false;
      }
      waitingForButton2 := false;
    }

    /** Lines 148-158: the measurement completes on a falling edge of button 2 while armed. */
    method HandleButton2(state2: bool, now2: Millis, speed: int)
      requires displayBuffer.Length == DigitCount
      modifies this, displayBuffer
      ensures State() == Close(old(State()), state2, now2, speed)
      ensures portB == old(portB) && portC == old(portC)
    {
      if !state2 && lastButtonState2 && waitingForButton2 {
        CompleteMeasurement(now2, speed);
      }
    }

    /** Lines 137-162: sample BTN1 and BTN2 from `pind` (the value PIND reads), handle button 1,
        then button 2, then record the samples. `now1`/`now2` are the `millis()` readings of
        lines 144 and 149, and `speed` the rounded speed `(int)(snelheid + 0.5)`. */
    method Step(pind: bv8, now1: Millis, now2: Millis, speed: int)
      requires Valid()
      modifies this, displayBuffer
      ensures Valid()
      ensures State() == Next(old(State()), Button1(pind), Button2(pind), now1, now2, speed)
      ensures portB == old(portB) && portC == old(portC)
    {
      var buttonState1 := Button1(pind);
      var buttonState2 := Button2(pind);
      ghost var s := State();
      NextPreservesInv(s, buttonState1, buttonState2, now1, now2, speed);
      HandleButton1(buttonState1, now1);
      HandleButton2(buttonState2, now2, speed);
      lastButtonState1 := buttonState1;
      lastButtonState2 := buttonState2;
    }

    /** One full iteration of the `while(1)` loop: the refresh, then the capture step. */
    method Iteration(pind: bv8, now1: Millis, now2: Millis, speed: int)
      returns (ghost frames: seq<Frame>)
      requires Valid()
      modifies this, displayBuffer
      ensures Valid()
      ensures State() == Next(old(State()), Button1(pind), Button2(pind), now1, now2, speed)
      ensures old(speedValid) ==>
        |frames| == DigitCount &&
        (forall d :: 0 <= d < DigitCount ==>
          Shows(frames[d], d, Patterns[old(displayBuffer[d])]) && Keeps(frames[d], old(portB), old(portC))) &&
        Frame(portB, portC) == frames[DigitCount - 1]
      ensures !old(speedValid) ==> frames == [] && portB == old(portB) && portC == BlankDigits(old(portC))
    {
      frames := Refresh();
      Step(pind, now1, now2, speed);
    }
  }
}
