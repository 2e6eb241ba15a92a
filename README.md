# Verkeersmonitor measurement engine in Dafny

The firmware `src/main.c` runs a two-strip traffic speed monitor on an AVR. Its main loop does four things:

- it refreshes a four-digit seven-segment display;
- it samples two active-low buttons, one per strip;
- it arms a measurement on a falling edge of button 1;
- it completes the measurement on a falling edge of button 2.

A completed measurement does three things. It computes the elapsed time with 32-bit modular subtraction. It steps a 4-bit event counter that is shown on four LEDs, where 15 is followed by 0. It then either shows the rounded speed (clamped to 0..9999, split into digits, ones first) or clears the display and marks it invalid when the counter wrapped to 0.

The model has seven modules.

- `Bits` covers single bits of the 8-bit port registers, as a mask table `Mask(k)` equal to `1 << k`, and bits of C `int` values.
- `Arith` holds the small non-linear lemmas that the decimal decomposition needs.
- `Digits` covers the clamp and the decimal decomposition done by `showSnelheid`, `SpeedDigits`, with their meaning: digit i is `(c / 10^i) % 10`, the digits spell `c`, and every four-digit buffer is reachable.
- `Speed` is the speed formula of lines 152-153 and the rounding of line 92, in exact arithmetic.
- `Segments` holds the pin assignment, the `patterns` table and the port images. These are:
  - the image `showBinary` writes to PORTD;
  - the image `showDigit` writes to PORTB and PORTC;
  - the blanking done by the refresh loop.

  Each image is stated by what it lights and what it keeps.
- `Capture` is the measurement state machine of one loop iteration (lines 137-162), on a `Snapshot` value. It comes with its invariant and with lemmas about edges, arming, completion, the counter and whole runs of transits.
- `Monitor.Engine` is a class whose fields are the firmware's globals, the `displayBuffer` array and the three port registers. Its methods follow the C routines branch by branch. One difference: `ShowBinary`, `WriteSegments` and `ShowDigit` build each port value in a local and write the register once, so `ShowDigit` applies the PORTC blanking of line 101 after the PORTB segment loop rather than before it; only the final port values are modelled. Each method is proved against the value-level definitions above: `State() == Next(old(State()), ...)`, `displayBuffer[..] == SpeedDigits(speed)`, `portD == LedPort(old(portD), value)`, and `Frame(portB, portC) == DigitFrame(...)`.

A second falling edge of button 1 while a measurement is armed is not ignored. Lines 143-144 run again, so `timeButton1` is overwritten and timing restarts from the latest button-1 edge. The model follows the code (`Capture.Button1Arms`, `Capture.RearmExample`).

## Model

| member | source | states |
|---|---|---|
| Bits.ShiftIsMask | src/main.c:85-88 | the mask table entry k is the C shift `1 << k` used by every port write |
| Bits.SetBit | src/main.c:85-88 | the read-modify-write that sets or clears bit k: bit k becomes the requested value and every other bit is unchanged |
| Bits.IntBit | src/main.c:85-88 | bit k of a C `int` by repeated floor halving, which agrees with two's complement also for negative values: the `value & 0x01` ... `value & 0x08` tests |
| Bits.BitsValueExact | src/main.c:85-88 | a value in [0, 2^n) is exactly the sum of its low n bits, so the four LED bits lose nothing of a 4-bit counter |
| Digits.Clamp | src/main.c:93-94 | the result lies in 0..9999 and equals the input when the input is already in range |
| Digits.ClampIsNearest | src/main.c:93-94 | the clamped value is the displayable value nearest to the input |
| Digits.DigitsOf | src/main.c:95 | n rounds of `value % 10; value /= 10` give n entries, each a decimal digit |
| Digits.DigitAt | src/main.c:95 | entry i of the decomposition is `(v / 10^i) % 10` |
| Digits.ValueOfDigits | src/main.c:95 | the digits spell exactly `v mod 10^n` |
| Digits.ValueBounds | src/main.c:95 | decimal digits spell a number below 10^length |
| Digits.DigitsRoundTrip | src/main.c:95 | decomposing the number a digit sequence spells gives the sequence back |
| Digits.SpeedDigits | src/main.c:92-95 | the buffer for a speed has four entries, all decimal digits |
| Digits.SpeedDigitAt | src/main.c:92-95 | buffer entry i is the i-th decimal digit of the clamped speed |
| Digits.SpeedDigitsValue | src/main.c:92-95 | the buffer spells the clamped speed, ones first |
| Digits.SpeedDigitsOnto | src/main.c:92-95 | any four decimal digits are what is shown for the number they spell |
| Digits.SpeedDigitsExamples | src/main.c:92-95 | 1234 is buffered as [4,3,2,1], 4 as [4,0,0,0], 12345 as [9,9,9,9], -7 as [0,0,0,0] |
| Speed.RoundedSpeed | src/main.c:152-153 | for dt > 0 ms the result v satisfies `2·dt·v <= 4320 + dt < 2·dt·(v+1)`: the exact speed 2160/dt km/h rounded half up, as `(int)(snelheid + 0.5)` of line 92 does |
| Speed.RoundedSpeedMonotone | src/main.c:152-153 | a slower crossing never shows a higher speed |
| Speed.RoundedSpeedExamples | src/main.c:63 | with `afstand` = 0.6 m, 600 ms shows 4, 100 ms shows 22, 1 ms shows 2160 |
| Segments.BinaryLiteral | src/main.c:68-79 | the byte a seven-digit C literal `0b…` denotes, first digit bit 6 down to last digit bit 0 |
| Segments.PatternsAreLiterals | src/main.c:67-80 | the twelve hex entries of `Patterns` are, in order, the binary literals of the `patterns` table, bit 6 = segment A down to bit 0 = segment G |
| Segments.PatternsWellFormed | src/main.c:67-80 | the table has 12 entries, each seven bits wide, no two alike |
| Segments.LedPort | src/main.c:84-89 | LED1..LED4 (PORTD bits 4..7) show bits 0..3 of the value and PORTD bits 0..3 are unchanged |
| Segments.LedPortUnique | src/main.c:84-89 | any PORTD value with those two properties is the `showBinary` image, so the contract determines the port |
| Segments.LedsReadBack | src/main.c:84-89 | reading the four LEDs as a binary number gives back any counter value 0..15 |
| Segments.SegmentLines | src/main.c:103-106 | PORTB after the first i rounds of the segment loop: round j sets bit j of PORTB to pattern bit 6-j |
| Segments.SegmentLinesDone | src/main.c:103-106 | after the segment loop, PORTB bit i is pattern bit 6-i for i < 6 and PB6, PB7 are unchanged |
| Segments.BlankDigits | src/main.c:101 | all four digit lines are driven high (no digit lit) and every other PORTC bit is unchanged |
| Segments.DigitPortC | src/main.c:101-113 | segment G follows pattern bit 0; exactly the digit line of the index is low, or none for an index outside 0..3; PC0, PC6 and PC7 are unchanged |
| Segments.DigitFrame | src/main.c:100-113 | the two ports after `showDigit(d, p)` light exactly `patterns[p]` on position d alone and keep the bits no routine drives |
| Segments.SameSegments | src/main.c:67-80 | two seven-bit patterns that light the same segments are equal |
| Segments.FrameDeterminesSymbol | src/main.c:67-80 | a displayed frame determines which table entry it shows |
| Capture.Elapsed | src/main.c:150 | `timeButton2 - timeButton1` on 32-bit `unsigned long`: the plain difference without wrap, the difference plus 2^32 across a wrap |
| Capture.ElapsedRoundTrip | src/main.c:150 | the elapsed time is the unique 32-bit value that, added to the start modulo 2^32, gives the end |
| Capture.Initial | src/main.c:49-64 | the power-up state: both last samples released (1), idle, all times 0, counter 0, display invalid with a zeroed buffer (line 123), PORTD with only the PD2/PD3 pull-ups set (line 119) |
| Capture.Button1 | src/main.c:138 | the BTN1 sample (PD2, mask 0x04 of PIND): true when the line reads 1, i.e. released |
| Capture.Button2 | src/main.c:139 | the BTN2 sample (PD3, mask 0x08 of PIND): true when the line reads 1, i.e. released |
| Capture.Fell | src/main.c:142 | a falling edge: the current sample is 0 and the previous one 1, the test of lines 142 and 148 |
| Capture.Arm | src/main.c:142-145 | on a button-1 edge the state is armed with `timeButton1` set to the reading; otherwise it is unchanged |
| Capture.Complete | src/main.c:149-157 | the completed measurement: `timeButton2` and the modular `deltaTime` recorded, counter stepped with 15 followed by 0, LEDs showing the new counter, buffer holding the speed digits and valid when the counter is not 0, otherwise cleared and invalid, disarmed |
| Capture.Close | src/main.c:148-158 | on a button-2 edge while armed the state is `Complete(...)`; otherwise it is unchanged |
| Capture.Next | src/main.c:138-162 | one iteration on values: `Arm` with the button-1 sample, then `Close` with the button-2 sample, then both samples recorded as the last states |
| Capture.InitialInv | src/main.c:49-64 | after the initialisers and `InitializeIO` the invariant holds: counter 0, display invalid and cleared, LEDs showing 0 |
| Capture.NextPreservesInv | src/main.c:137-162 | every iteration keeps the invariant: counter in 0..15, valid exactly when the counter is not 0, invalid implies a cleared buffer, entries are digits (so `patterns[displayBuffer[d]]` is in bounds), LEDs show the counter |
| Capture.LedsShowCounter | src/main.c:151-154 | between iterations the four LEDs spell the counter in binary |
| Capture.CaptureIff | src/main.c:138-162 | in every state, the counter changes exactly when button 2 falls while armed or when both buttons fall in one iteration; the samples are always recorded |
| Capture.QuietIteration | src/main.c:142-162 | without a button-1 edge and without a button-2 edge while armed (in particular a button-2 edge while idle), only the recorded samples change |
| Capture.Button1Arms | src/main.c:142-145 | a button-1 edge arms and overwrites `timeButton1`, also when already armed |
| Capture.CaptureCompletes | src/main.c:148-158 | a completed capture measures from the latest button-1 edge, disarms, steps the counter to (c+1) mod 16 and sets validity and buffer from it |
| Capture.BothEdgesOneIteration | src/main.c:142-158 | both edges in one iteration: button 1 is handled first and the same iteration closes a capture of `now2 - now1` |
| Capture.ZeroElapsedReachable | src/main.c:142-153 | both edges in the same millisecond complete a capture of 0 ms, the case where the speed formula divides by zero |
| Capture.TransitCaptures | src/main.c:137-162 | one object passing over both strips, from released buttons, is one completed capture of `t2 - t1` |
| Capture.TransitsCount | src/main.c:151 | after n transits the counter is (c + n) mod 16, the invariant holds and both buttons are released |
| Capture.SixteenthTransitInvalidates | src/main.c:151-156 | from power-up, transits 1..15 leave the counter at 1..15 with a valid display; the 16th resets it to 0, invalidates and clears the display |
| Capture.EndToEndExample | src/main.c:142-157 | strips crossed at 0 ms and 600 ms give a 600 ms measurement shown as 4 0 0 0, counter 1 and PORTD 0x1C |
| Capture.RearmExample | src/main.c:142-145 | with two button-1 edges before the button-2 edge, the elapsed time counts from the second one |
| Monitor.Engine.constructor | src/main.c:117-124 | the initial state is `Initial()` with the invariant: buffer zeroed, pull-ups on PD2/PD3, counter 0, display invalid |
| Monitor.Engine.ShowBinary | src/main.c:84-89 | the four read-modify-writes leave PORTD equal to `LedPort(old PORTD, value)` |
| Monitor.Engine.ShowSpeed | src/main.c:91-96 | the clamps and the digit loop leave the buffer equal to `SpeedDigits(speed)` |
| Monitor.Engine.ClearDisplay | src/main.c:98 | the loop leaves the buffer all zeros |
| Monitor.Engine.WriteSegments | src/main.c:103-106 | the segment loop leaves PORTB equal to the segment image of the pattern |
| Monitor.Engine.ShowDigit | src/main.c:100-113 | the ports afterwards are `DigitFrame(old ports, digitIndex, patternIndex)` |
| Monitor.Engine.Refresh | src/main.c:131-135 | the ghost `frames` record the ports during each dwell; when valid, the frame held for digit d lights `patterns[displayBuffer[d]]` on d alone and keeps the undriven bits; when invalid, PORTB is untouched and only the four digit lines are raised |
| Monitor.Engine.HandleButton1 | src/main.c:142-145 | the fields afterwards are `Arm(old state, sample, time)` |
| Monitor.Engine.CompleteMeasurement | src/main.c:149-157 | the fields, LEDs and buffer afterwards are `Complete(old state, time, speed)`; the display ports are untouched |
| Monitor.Engine.HandleButton2 | src/main.c:148-158 | the fields afterwards are `Close(old state, sample, time, speed)` |
| Monitor.Engine.Step | src/main.c:137-162 | from the PIND sample, one iteration's bookkeeping gives `Next(old state, ...)` and keeps the invariant; the display ports are untouched |
| Monitor.Engine.Iteration | src/main.c:130-165 | one pass of the `while(1)` loop: when the display was valid, frame d lights `patterns[old displayBuffer[d]]` on d alone and keeps the undriven bits, and the ports end in the last frame; when invalid, PORTB is untouched and only the digit lines are raised; then the step gives `Next(old state, ...)`, keeping the invariant |

## Left out

- The timer interrupt and `millis()` (src/main.c:30-38) are not modelled, nor is the `cli`/`sei` critical section. Each `millis()` reading is a `Millis` parameter (`now1` for line 144, `now2` for line 149).
- `init_timer0` (src/main.c:39-45) and the DDR writes of `InitializeIO` (lines 118, 120-122) are hardware configuration. The constructor keeps only the PORTD pull-ups of line 119 and `clearDisplay()`. PORTB and PORTC start at the AVR reset value 0.
- The float computation of lines 152-153 and the float-to-int cast of line 92 are not modelled bit for bit. `Step`, `CompleteMeasurement` and `ShowSpeed` take the rounded speed `(int)(snelheid + 0.5)` as a parameter. `Speed.RoundedSpeed` gives the value in exact arithmetic. Float rounding error, and the infinite speed for `deltaTime == 0` whose `int` conversion is undefined in C, are outside the model. `Capture.ZeroElapsedReachable` shows that the zero case can occur.
- `_delay_ms` (src/main.c:114, 164) is timing only. The refresh frames describe the ports during each dwell, not how long it lasts or the intermediate states inside `showDigit`.
- The `while(1)` loop is modelled one iteration at a time (`Monitor.Engine.Iteration`). Runs of several transits are modelled at the value level (`Capture.Transits`).
- `buttonState1`/`buttonState2` (src/main.c:49-50) are locals of `Step` rather than fields, because each iteration overwrites them before use.
- The C `int` width of `counter` and of the buffer entries is not modelled. The invariant keeps them in 0..15 and 0..9, so a 16-bit `int` never overflows there.
- Monitor.Engine.ShowDigit requires the pattern index to lie inside the 12-entry table. `showDigit` does no bound check, and an index outside the table is an out-of-bounds read in C with no defined result. The refresh loop always passes a buffer digit 0..9 (`Capture.NextPreservesInv`).
