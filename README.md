# User interface of the fire-alarm controller, in Dafny

This project models the tick-driven core of `modules/user_interface/user_interface.cpp`,
the user-interaction layer of a small fire-alarm controller. One call of
`userInterfaceUpdate` is one tick, and it runs three steps in a fixed order:

1. **Code entry.** The key released on the matrix keypad is written into a
   fixed-length code buffer while the siren sounds and the system is not
   blocked. A full buffer raises `codeComplete` and resets the count. While
   the incorrect-code lockout is on, only `'#'` matters, and a second `'#'`
   clears the lockout.
2. **Indicators.** The incorrect-code and system-blocked LEDs copy their flags.
3. **Display.** A state machine switches between a text report with a
   refresh interval of 1000 ms and a four-frame fire-alarm animation with a
   refresh interval of 300 ms; the actual redraw period is given under
   "Refresh cadence" below. Which one runs follows the siren.

The project has four modules:

- `TickInputs` (`tick_inputs.dfy`): what one tick samples from its
  collaborators. This is the released key (`'\0'` for none), the siren
  state, the gas detector state and the temperature as display text.
- `CodeEntry` (`code_entry.dfy`): the keypad step as a function on the
  tracker's state (`Keypad`), its runs over many ticks, and lemmas about them.
- `DisplayMachine` (`display_machine.dfy`): the display step as functions on
  the machine's state (`Display`). Each step also returns the display-driver
  calls it makes, as abstract commands: clear, mode write, cursor position,
  string write and bitmap write. Lemmas about cadence, transitions and the
  animation sit beside them.
- `UserInterface` (`user_interface.dfy`): class `Controller`. It holds the
  C file's file-level and function-level statics as fields and the code
  buffer as an `array<char>`. It has one method per C function of the tick
  and of its initialisation, `DisplayInit` included; the two interrupt
  callbacks have none (see "## Left out"). Each state-changing method's postcondition ties the new state to the step
  functions above. The controller's invariant `Valid()` keeps several facts
  true between ticks. The buffer index is in bounds. The `'#'` counter is
  0 or 1. The refresh interval matches the mode. The animation index is in
  0..3. The accumulator stays below interval + tick period.

`CODE_NUMBER_OF_KEYS` and `SYSTEM_TIME_INCREMENT_MS` are defined in headers
that are not part of this model. They are constructor parameters here
(`codeNumberOfKeys`, `systemTimeIncrementMs`), required to be positive, so
every result holds for all their values.

Refresh cadence, as the code has it: a tick that finds the accumulator below
the interval only adds one tick period. A tick that finds it at or above
the interval resets it to 0 and redraws. So between two redraws there are
ceil(interval / tick period) silent ticks plus the redrawing tick itself.
With a 100 ms tick, the report is therefore redrawn every 11 ticks
(1100 ms), not every 10, and the animation every 4 ticks (400 ms).
`CadenceAtHundredMilliseconds` states these numbers. The model follows the
code here, not a nominal "every interval" period.

## Model

| member | source | states |
|---|---|---|
| CodeEntry.InitialKeypad | modules/user_interface/user_interface.cpp:48-60 | at start the buffer is all `'\0'`, count 0, `codeComplete` and `incorrectCodeState` off, `'#'` counter 0, and the tracker invariant holds |
| CodeEntry.KeypadUpdate | modules/user_interface/user_interface.cpp:134-162 | one keypad step keeps the buffer index inside the buffer. A dropped key (none, siren off, or blocked) changes nothing. An accepted key in normal state lands at the write index, changes only that cell, and either advances the count or, at the last cell, raises `codeComplete` and resets the count. In lockout, a non-`'#'` key changes nothing, the first `'#'` is only counted, and the second resets counter, count, `codeComplete` and `incorrectCodeState` |
| CodeEntry.KeypadRun | modules/user_interface/user_interface.cpp:143-148 | over any run of ticks, the write index stays inside the buffer and the `'#'` counter stays 0 or 1 |
| CodeEntry.IgnoredTicksLeaveKeypad | modules/user_interface/user_interface.cpp:139-141 | ticks whose key the guard drops (no key, siren off, or system blocked) leave buffer, count and all flags unchanged, over any number of ticks |
| CodeEntry.CodeEntryFills | modules/user_interface/user_interface.cpp:142-148 | in normal state with the siren on, the released keys are written in order from the write index on. The count follows them and `codeComplete` is untouched until the buffer fills. At that moment `codeComplete` rises and the count returns to 0 |
| CodeEntry.CodeEntryCompletes | modules/user_interface/user_interface.cpp:142-148 | from an empty buffer, exactly `codeNumberOfKeys` released keys leave the buffer holding exactly those keys, `codeComplete` true and the count 0 |
| CodeEntry.CodeEntryKeepsHashCounter | modules/user_interface/user_interface.cpp:136-157 | outside a lockout, the keypad step never raises `incorrectCodeState` and never changes the `'#'` counter |
| CodeEntry.LockoutIgnoresOtherKeys | modules/user_interface/user_interface.cpp:149-159 | during a lockout, any run of ticks without `'#'` changes nothing |
| CodeEntry.LockoutCountsHashes | modules/user_interface/user_interface.cpp:149-158 | during a lockout, while fewer than two `'#'` releases have been counted, each is only counted. Buffer, count and flags stay put |
| CodeEntry.DoubleHashClearsLockout | modules/user_interface/user_interface.cpp:150-157 | from a fresh lockout, one `'#'` sets the counter to 1. Two reset the counter, count, `codeComplete` and `incorrectCodeState` |
| CodeEntry.LeftoverHashCarriesOver | modules/user_interface/user_interface.cpp:107-110 | the `'#'` counter survives the lockout flag being written off and on from outside, and any code entry in between. A single `'#'` then clears the new lockout |
| DisplayMachine.GasText | modules/user_interface/user_interface.cpp:195-199 | the gas text is `"Detected    "` exactly when gas is detected, and both texts have the same width, so each fully overwrites the other |
| DisplayMachine.ReportStateInit | modules/user_interface/user_interface.cpp:164-181 | entering the report mode sets interval 1000 and leaves the index and accumulator alone. It sends: char mode, clear, and the labels `"Temperature:"`, `"Gas:"`, `"Alarm:"` at column 0 of rows 0, 1, 2 |
| DisplayMachine.ReportStateUpdate | modules/user_interface/user_interface.cpp:183-202 | a report refresh sends eight commands: the temperature at (12,0), the unit `"'C"` at (14,0), the gas text at (4,1), and `"OFF"` at (6,2). It draws no bitmap and does not clear |
| DisplayMachine.AlarmStateInit | modules/user_interface/user_interface.cpp:204-214 | entering the alarm mode sets interval 300 and frame index 0, and leaves the accumulator alone. It sends clear, then graphic mode |
| DisplayMachine.AlarmStateUpdate | modules/user_interface/user_interface.cpp:216-240 | at index k in 0..3, frame k is drawn and the index becomes (k+1) mod 4. An index outside 0..3 draws the blank image and becomes 1. Nothing else changes |
| DisplayMachine.Render | modules/user_interface/user_interface.cpp:252-278 | a render always draws something, resets the accumulator, and leaves the mode the siren calls for, with that mode's interval. Report with siren on: refresh, then alarm at frame 0 in graphic mode. Alarm: the current frame first and the index moves on to the next frame; with the siren off the labelled report screen follows |
| DisplayMachine.DisplayUpdate | modules/user_interface/user_interface.cpp:248-283 | a display tick keeps the display invariant. It draws nothing exactly when the accumulator is below the interval, and then only adds one tick period. When it draws, the accumulator is 0 afterwards |
| DisplayMachine.DisplayRun | modules/user_interface/user_interface.cpp:248-283 | over any run of ticks, the interval matches the mode, the animation index stays in 0..3 and the accumulator stays bounded |
| DisplayMachine.IdleTicksIsCeiling | modules/user_interface/user_interface.cpp:252-253 | the number of silent ticks is the least number of tick periods whose sum reaches the interval |
| DisplayMachine.IdleRun | modules/user_interface/user_interface.cpp:279-282 | the ticks before the interval is reached draw nothing and add one tick period each to the accumulator |
| DisplayMachine.RenderCadence | modules/user_interface/user_interface.cpp:250-282 | from any reachable state, exactly the silent ticks draw nothing, and the next tick renders with its own inputs |
| DisplayMachine.CadenceAfterRender | modules/user_interface/user_interface.cpp:250-282 | right after a render, ceil(interval / tick period) silent ticks pass before the next render |
| DisplayMachine.CadenceAtHundredMilliseconds | modules/user_interface/user_interface.cpp:23-24 | with a 100 ms tick there are 10 silent ticks per report interval and 3 per alarm interval |
| DisplayMachine.AlarmAnimationCycles | modules/user_interface/user_interface.cpp:216-240 | while the siren sounds, alarm mode only ever draws frames k, k+1, … (mod 4) from the current index k, and stays in alarm mode |
| DisplayMachine.AlarmEntryDrawsFirstFrame | modules/user_interface/user_interface.cpp:258-263 | a report render with the siren on enters alarm mode at frame 0, interval 300, accumulator 0. The next render, one alarm interval later, draws frame 0 |
| UserInterface.Controller.constructor | modules/user_interface/user_interface.cpp:80-92 | initialisation gives an empty buffer, flags and LEDs off, and the report mode with interval 1000. The display output is the report screen's setup |
| UserInterface.Controller.Update | modules/user_interface/user_interface.cpp:94-100 | one tick is the keypad step, then the indicators, then the display step. The LEDs show the flags as the keypad step left them, in the same tick. The invariant is kept |
| UserInterface.Controller.IncorrectCodeStateRead | modules/user_interface/user_interface.cpp:102-105 | returns the current incorrect-code flag |
| UserInterface.Controller.IncorrectCodeStateWrite | modules/user_interface/user_interface.cpp:107-110 | sets only the incorrect-code flag. The `'#'` counter and everything else are unchanged |
| UserInterface.Controller.SystemBlockedStateRead | modules/user_interface/user_interface.cpp:112-115 | returns the current blocked flag |
| UserInterface.Controller.SystemBlockedStateWrite | modules/user_interface/user_interface.cpp:117-120 | sets only the blocked flag |
| UserInterface.Controller.CodeCompleteRead | modules/user_interface/user_interface.cpp:122-125 | returns the current code-complete flag |
| UserInterface.Controller.CodeCompleteWrite | modules/user_interface/user_interface.cpp:127-130 | sets only the code-complete flag |
| UserInterface.Controller.MatrixKeypadUpdate | modules/user_interface/user_interface.cpp:134-162 | the keypad step on the object, including the in-place write to the buffer array, is `CodeEntry.KeypadUpdate` of the old state. It keeps the invariant, so the write index stays in bounds |
| UserInterface.Controller.IncorrectCodeIndicatorUpdate | modules/user_interface/user_interface.cpp:285-288 | the incorrect-code LED equals the flag |
| UserInterface.Controller.SystemBlockedIndicatorUpdate | modules/user_interface/user_interface.cpp:290-293 | the blocked LED equals the flag |
| UserInterface.Controller.DisplayReportStateInit | modules/user_interface/user_interface.cpp:164-181 | the object's display state and output follow `ReportStateInit` |
| UserInterface.Controller.DisplayInit | modules/user_interface/user_interface.cpp:242-246 | the display's initialisation enters the report mode: state and output follow `ReportStateInit` |
| UserInterface.Controller.DisplayReportStateUpdate | modules/user_interface/user_interface.cpp:183-202 | the output grows by `ReportStateUpdate` of this tick's temperature text and gas state |
| UserInterface.Controller.DisplayAlarmStateInit | modules/user_interface/user_interface.cpp:204-214 | the object's display state and output follow `AlarmStateInit` |
| UserInterface.Controller.DisplayAlarmStateUpdate | modules/user_interface/user_interface.cpp:216-240 | the object's display state and output follow `AlarmStateUpdate` |
| UserInterface.Controller.DisplayUpdate | modules/user_interface/user_interface.cpp:248-283 | the object's display state and output follow `DisplayMachine.DisplayUpdate` |

## Left out

- Hardware objects and pin setup (`DigitalOut`, `InterruptIn`, pull-up mode and edge binding, lines 35-40 and 82-86): these are foreign hardware APIs. Only the initial state they establish is modelled: LEDs off.
- The two edge-interrupt callbacks (lines 295-328): they run asynchronously to the tick. Their effects are serial output, an LED toggle, a motor direction and floating-point PWM duty cycles. The second one's index `j` is never wrapped, so its colour presets apply only for j = 0, 1, 2. That is not modelled.
- The calls `displayInit` (inside `DisplayInit`) and `matrixKeypadInit`: these are driver set-up, not part of the trace. The keypad scanner, siren, gas detector and temperature sensor are foreign calls and become fields of `TickInputs.TickInput`.
- Temperature formatting with `sprintf("%.0f")` into a 3-byte buffer (lines 185-187): floating point and the C library. The temperature arrives as an opaque string. A text of three characters or more, such as `100` or `-10`, would not fit that buffer with its terminator. The model does not capture this.
- The `default` arm of the `displayState` switch (lines 274-276): `DisplayState` has exactly the enum's two values, so the arm cannot be reached and is not modelled. The `default` arm of the animation switch is modelled.
- `sirenStateRead()` is called twice in a tick, by the keypad step and by the display step. The model samples it once per tick (`TickInput.sirenActive`) because nothing in the tick writes it.
- C `int` width: every integer the module keeps is proved bounded by the invariant (index below the code length, counter at most 1, frame index in 0..3, accumulator below interval + tick period), so wrap-around cannot occur and is not modelled.
- Runs of ticks (`KeypadRun`, `DisplayRun`) keep the blocked flag fixed. It is written only from outside the tick, through `SystemBlockedStateWrite`.
