/**
 * The user-interface module of the fire-alarm controller: its file-level
 * and function-level static variables as the fields of one object, its code
 * buffer as an array, and one method per function of the module. A call of
 * Update is one tick: keypad, then the two indicators, then the display.
 */
module UserInterface {
  import opened TickInputs
  import opened CodeEntry
  import opened DisplayMachine

  class Controller {
    /** The fixed code length and the tick period. */
    const codeNumberOfKeys: nat
    const systemTimeIncrementMs: nat

    /** The code buffer the validator reads. */
    const codeSequenceFromUserInterface: array<char>

    var numberOfCodeChars: int
    var codeComplete: bool
    var incorrectCodeState: bool
    var systemBlockedState: bool
    /** Function-level static of the keypad step. */
    var numberOfHashKeyReleased: int

    /** The two indicator outputs. */
    var incorrectCodeLed: bool
    var systemBlockedLed: bool

    var displayState: DisplayState
    var displayRefreshTimeMs: int
    var displayAlarmGraphicSequence: int
    /** Function-level static of the display step. */
    var accumulatedDisplayTime: int

    /** Every command sent to the display driver so far, oldest first. */
    var displayOutput: seq<DisplayCmd>

    /** The code-entry tracker's part of the state, as a value. */
    ghost function KeypadView(): Keypad
      reads this, codeSequenceFromUserInterface
    {
      Keypad(codeSequenceFromUserInterface[..], numberOfCodeChars, codeComplete,
             incorrectCodeState, numberOfHashKeyReleased)
    }

    /** The display state machine's part of the state, as a value. */
    ghost function DisplayView(): Display
      reads this
    {
      Display(displayState, displayRefreshTimeMs, displayAlarmGraphicSequence, accumulatedDisplayTime)
    }

    /** The blocked flag and the two indicators. */
    ghost function Indicators(): (bool, bool, bool)
      reads this
    {
      (systemBlockedState, incorrectCodeLed, systemBlockedLed)
    }

    ghost predicate Valid()
      reads this, codeSequenceFromUserInterface
    {
      && codeNumberOfKeys > 0
      && systemTimeIncrementMs > 0
      && codeSequenceFromUserInterface.Length == codeNumberOfKeys
      && KeypadValid(KeypadView(), codeNumberOfKeys)
      && DisplayValid(DisplayView(), systemTimeIncrementMs)
    }

    /**
     * The static initialisers followed by the module's initialisation: flags
     * and indicators off, an empty buffer, and the report screen set up.
     */
    constructor (codeNumberOfKeys: nat, systemTimeIncrementMs: nat)
      requires codeNumberOfKeys > 0 && systemTimeIncrementMs > 0
      ensures Valid() && fresh(codeSequenceFromUserInterface)
      ensures this.codeNumberOfKeys == codeNumberOfKeys
      ensures this.systemTimeIncrementMs == systemTimeIncrementMs
      ensures KeypadView() == InitialKeypad(codeNumberOfKeys)
      ensures Indicators() == (false, false, false)
      ensures DisplayView() == INITIAL_DISPLAY
      ensures displayOutput == ReportStateInit(INITIAL_DISPLAY).output
    {
      this.codeNumberOfKeys := codeNumberOfKeys;
      this.systemTimeIncrementMs := systemTimeIncrementMs;
      codeSequenceFromUserInterface := new char[codeNumberOfKeys](_ => NO_KEY);
      numberOfCodeChars := 0;
      codeComplete := false;
      incorrectCodeState := false;
      systemBlockedState := false;
      numberOfHashKeyReleased := 0;
      displayState := ReportState;
      displayAlarmGraphicSequence := 0;
      displayRefreshTimeMs := DISPLAY_REFRESH_TIME_REPORT_MS;
      accumulatedDisplayTime := 0;
      displayOutput := [];
      incorrectCodeLed := false;
      systemBlockedLed := false;
      new;
      DisplayInit();
    }

    /** One tick: keypad step, indicator steps, display step, in that order. */
    method Update(input: TickInput)
      requires Valid()
      modifies this, codeSequenceFromUserInterface
      ensures Valid()
      ensures KeypadView() == KeypadUpdate(old(KeypadView()), input.keyReleased, input.sirenActive,
                                           systemBlockedState, codeNumberOfKeys)
      ensures systemBlockedState == old(systemBlockedState)
      // the indicators show the flags as the keypad step left them
      ensures incorrectCodeLed == incorrectCodeState && systemBlockedLed == systemBlockedState
      ensures var step := DisplayMachine.DisplayUpdate(old(DisplayView()), input, systemTimeIncrementMs);
        DisplayView() == step.next && displayOutput == old(displayOutput) + step.output
    {
      MatrixKeypadUpdate(input.keyReleased, input.sirenActive);
      IncorrectCodeIndicatorUpdate();
      SystemBlockedIndicatorUpdate();
      DisplayUpdate(input);
    }

    method IncorrectCodeStateRead() returns (state: bool)
      ensures state == incorrectCodeState
    {
      state := incorrectCodeState;
    }

    method IncorrectCodeStateWrite(state: bool)
      requires Valid()
      modifies this
      ensures Valid()
      ensures KeypadView() == old(KeypadView()).(incorrectCodeState := state)
      ensures Indicators() == old(Indicators())
      ensures DisplayView() == old(DisplayView()) && displayOutput == old(displayOutput)
    {
      incorrectCodeState := state;
    }

    method SystemBlockedStateRead() returns (state: bool)
      ensures state == systemBlockedState
    {
      state := systemBlockedState;
    }

    method SystemBlockedStateWrite(state: bool)
      requires Valid()
      modifies this
      ensures Valid()
      ensures KeypadView() == old(KeypadView())
      ensures Indicators() == (state, old(incorrectCodeLed), old(systemBlockedLed))
      ensures DisplayView() == old(DisplayView()) && displayOutput == old(displayOutput)
    {
      systemBlockedState := state;
    }

    method CodeCompleteRead() returns (state: bool)
      ensures state == codeComplete
    {
      state := codeComplete;
    }

    method CodeCompleteWrite(state: bool)
      requires Valid()
      modifies this
      ensures Valid()
      ensures KeypadView() == old(KeypadView()).(codeComplete := state)
      ensures Indicators() == old(Indicators())
      ensures DisplayView() == old(DisplayView()) && displayOutput == old(displayOutput)
    {
      codeComplete := state;
    }

    /** The keypad step, with the released key and the siren state of this tick. */
    method MatrixKeypadUpdate(keyReleased: char, sirenActive: bool)
      requires Valid()
      modifies this, codeSequenceFromUserInterface
      ensures Valid()
      ensures KeypadView() == KeypadUpdate(old(KeypadView()), keyReleased, sirenActive,
                                           systemBlockedState, codeNumberOfKeys)
      ensures Indicators() == old(Indicators())
      ensures DisplayView() == old(DisplayView()) && displayOutput == old(displayOutput)
    {
      if keyReleased != NO_KEY {
        if sirenActive && !systemBlockedState {
          if !incorrectCodeState {
            codeSequenceFromUserInterface[numberOfCodeChars] := keyReleased;
            numberOfCodeChars := numberOfCodeChars + 1;
            if numberOfCodeChars >= codeNumberOfKeys {
              codeComplete := true;
              numberOfCodeChars := 0;
            }
          } else {
            if keyReleased == HASH_KEY {
              numberOfHashKeyReleased := numberOfHashKeyReleased + 1;
              if numberOfHashKeyReleased >= 2 {
                numberOfHashKeyReleased := 0;
                numberOfCodeChars := 0;
                codeComplete := false;
                incorrectCodeState := false;
              }
            }
          }
        }
      }
    }

    method IncorrectCodeIndicatorUpdate()
      modifies this`incorrectCodeLed
      ensures incorrectCodeLed == incorrectCodeState
    {
      incorrectCodeLed := incorrectCodeState;
    }

    method SystemBlockedIndicatorUpdate()
      modifies this`systemBlockedLed
      ensures systemBlockedLed == systemBlockedState
    {
      systemBlockedLed := systemBlockedState;
    }

    method DisplayReportStateInit()
      modifies this`displayState, this`displayRefreshTimeMs, this`displayOutput
      ensures var step := ReportStateInit(old(DisplayView()));
        DisplayView() == step.next && displayOutput == old(displayOutput) + step.output
    {
      displayState := ReportState;
      displayRefreshTimeMs := DISPLAY_REFRESH_TIME_REPORT_MS;
      displayOutput := displayOutput + [ModeWrite(CharMode)];
      displayOutput := displayOutput + [Clear];
      displayOutput := displayOutput + [CharPositionWrite(0, 0), StringWrite("Temperature:")];
      displayOutput := displayOutput + [CharPositionWrite(0, 1), StringWrite("Gas:")];
      displayOutput := displayOutput + [CharPositionWrite(0, 2), StringWrite("Alarm:")];
    }

    /** The display's initialisation: the driver set-up is not modelled, then the report mode. */
    method DisplayInit()
      modifies this`displayState, this`displayRefreshTimeMs, this`displayOutput
      ensures var step := ReportStateInit(old(DisplayView()));
        DisplayView() == step.next && displayOutput == old(displayOutput) + step.output
    {
      DisplayReportStateInit();
    }

    /** The report refresh, with this tick's formatted temperature and gas state. */
    method DisplayReportStateUpdate(temperature: string, gasDetected: bool)
      modifies this`displayOutput
      ensures displayOutput == old(displayOutput) + ReportStateUpdate(temperature, gasDetected)
    {
      displayOutput := displayOutput + [CharPositionWrite(12, 0), StringWrite(temperature)];
      displayOutput := displayOutput + [CharPositionWrite(14, 0), StringWrite("'C")];
      displayOutput := displayOutput + [CharPositionWrite(4, 1)];
      if gasDetected {
        displayOutput := displayOutput + [StringWrite("Detected    ")];
      } else {
        displayOutput := displayOutput + [StringWrite("Not Detected")];
      }
      displayOutput := displayOutput + [CharPositionWrite(6, 2), StringWrite("OFF")];
    }

    method DisplayAlarmStateInit()
      modifies this`displayState, this`displayRefreshTimeMs, this`displayAlarmGraphicSequence,
               this`displayOutput
      ensures var step := AlarmStateInit(old(DisplayView()));
        DisplayView() == step.next && displayOutput == old(displayOutput) + step.output
    {
      displayState := AlarmState;
      displayRefreshTimeMs := DISPLAY_REFRESH_TIME_ALARM_MS;
      displayOutput := displayOutput + [Clear];
      displayOutput := displayOutput + [ModeWrite(GraphicMode)];
      displayAlarmGraphicSequence := 0;
    }

    method DisplayAlarmStateUpdate()
      modifies this`displayAlarmGraphicSequence, this`displayOutput
      ensures var step := AlarmStateUpdate(old(DisplayView()));
        DisplayView() == step.next && displayOutput == old(displayOutput) + step.output
    {
      match displayAlarmGraphicSequence
      case 0 =>
        displayOutput := displayOutput + [BitmapWrite(FireAlarmFrame(0))];
        displayAlarmGraphicSequence := displayAlarmGraphicSequence + 1;
      case 1 =>
        displayOutput := displayOutput + [BitmapWrite(FireAlarmFrame(1))];
        displayAlarmGraphicSequence := displayAlarmGraphicSequence + 1;
      case 2 =>
        displayOutput := displayOutput + [BitmapWrite(FireAlarmFrame(2))];
        displayAlarmGraphicSequence := displayAlarmGraphicSequence + 1;
      case 3 =>
        displayOutput := displayOutput + [BitmapWrite(FireAlarmFrame(3))];
        displayAlarmGraphicSequence := 0;
      case _ =>
        displayOutput := displayOutput + [BitmapWrite(ClearScreenImage)];
        displayAlarmGraphicSequence := 1;
    }

    /** The display step, with this tick's siren, gas and temperature readings. */
    method DisplayUpdate(input: TickInput)
      requires DisplayValid(DisplayView(), systemTimeIncrementMs)
      modifies this`displayState, this`displayRefreshTimeMs, this`displayAlarmGraphicSequence,
               this`accumulatedDisplayTime, this`displayOutput
      ensures var step := DisplayMachine.DisplayUpdate(old(DisplayView()), input, systemTimeIncrementMs);
        DisplayView() == step.next && displayOutput == old(displayOutput) + step.output
    {
      if accumulatedDisplayTime >= displayRefreshTimeMs {
        accumulatedDisplayTime := 0;
        match displayState
        case ReportState =>
          DisplayReportStateUpdate(input.temperature, input.gasDetected);
          if input.sirenActive {
            DisplayAlarmStateInit();
          }
        case AlarmState =>
          DisplayAlarmStateUpdate();
          if !input.sirenActive {
            DisplayReportStateInit();
          }
      } else {
        accumulatedDisplayTime := accumulatedDisplayTime + systemTimeIncrementMs;
      }
    }
  }
}
