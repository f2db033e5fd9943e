/**
 * The display state machine: the last step of every tick. It alternates
 * between a text report of the sensors, refreshed slowly, and a four-frame
 * fire-alarm animation, refreshed faster, following the siren. Everything it
 * sends to the display driver is recorded as a list of abstract commands.
 */
module DisplayMachine {
  import opened TickInputs

  const DISPLAY_REFRESH_TIME_REPORT_MS: int := 1000
  const DISPLAY_REFRESH_TIME_ALARM_MS: int := 300

  /** The two rendering modes of the screen. */
  datatype DisplayState = AlarmState | ReportState

  /** The display driver's two modes. */
  datatype DisplayMode = CharMode | GraphicMode

  /** The images the animation draws: frame k of the fire-alarm graphic, or the blank image. */
  datatype Bitmap = FireAlarmFrame(index: nat) | ClearScreenImage

  /** One call into the display driver. */
  datatype DisplayCmd =
    | Clear
    | ModeWrite(mode: DisplayMode)
    | CharPositionWrite(column: nat, row: nat)
    | StringWrite(text: string)
    | BitmapWrite(image: Bitmap)

  /**
   * The machine's state: the current mode, its refresh interval, the
   * animation frame index, and the time accumulated since the last render.
   */
  datatype Display = Display(
    state: DisplayState,
    refreshTimeMs: int,
    alarmGraphicSequence: int,
    accumulatedTime: int)

  /** The state after a step together with the commands the step sent. */
  datatype DisplayStep = DisplayStep(next: Display, output: seq<DisplayCmd>)

  /** The refresh interval that belongs to each mode. */
  function RefreshTime(s: DisplayState): int
  {
    match s
    case ReportState => DISPLAY_REFRESH_TIME_REPORT_MS
    case AlarmState => DISPLAY_REFRESH_TIME_ALARM_MS
  }

  /**
   * What holds between ticks: the interval matches the mode, the frame index
   * names one of the four frames, and the accumulator never passes the
   * interval by a whole tick.
   */
  predicate DisplayValid(d: Display, timeIncrementMs: nat)
  {
    && d.refreshTimeMs == RefreshTime(d.state)
    && 0 <= d.alarmGraphicSequence <= 3
    && 0 <= d.accumulatedTime < d.refreshTimeMs + timeIncrementMs
  }

  /** The state the file-level and function-level initialisers establish. */
  const INITIAL_DISPLAY: Display := Display(ReportState, DISPLAY_REFRESH_TIME_REPORT_MS, 0, 0)

  /** The three labels of the report screen, each at the start of its row. */
  const REPORT_LABELS: seq<DisplayCmd> := [
    CharPositionWrite(0, 0), StringWrite("Temperature:"),
    CharPositionWrite(0, 1), StringWrite("Gas:"),
    CharPositionWrite(0, 2), StringWrite("Alarm:")]

  /** The gas field's text, padded so that either text overwrites the other. */
  function GasText(gasDetected: bool): (text: string)
    ensures |text| == |"Not Detected"|
    ensures gasDetected <==> text == "Detected    "
  {
    if gasDetected then "Detected    " else "Not Detected"
  }

  /** Entering the report mode: text mode, a cleared screen and the labels. */
  function ReportStateInit(d: Display): (r: DisplayStep)
    ensures r.next.state == ReportState && r.next.refreshTimeMs == RefreshTime(ReportState)
    ensures r.next.alarmGraphicSequence == d.alarmGraphicSequence
    ensures r.next.accumulatedTime == d.accumulatedTime
    ensures r.output == [ModeWrite(CharMode), Clear] + REPORT_LABELS
  {
    DisplayStep(
      d.(state := ReportState, refreshTimeMs := DISPLAY_REFRESH_TIME_REPORT_MS),
      [ModeWrite(CharMode), Clear] + REPORT_LABELS)
  }

  /**
   * Refreshing the report's fields: the temperature and its unit on row 0,
   * the gas text on row 1, and "OFF" on the alarm row. It changes no state.
   */
  function ReportStateUpdate(temperature: string, gasDetected: bool): (cmds: seq<DisplayCmd>)
    ensures |cmds| == 8
    ensures cmds[0] == CharPositionWrite(12, 0) && cmds[1] == StringWrite(temperature)
    ensures cmds[2] == CharPositionWrite(14, 0) && cmds[3] == StringWrite("'C")
    ensures cmds[4] == CharPositionWrite(4, 1) && cmds[5] == StringWrite(GasText(gasDetected))
    ensures cmds[6] == CharPositionWrite(6, 2) && cmds[7] == StringWrite("OFF")
    ensures forall i :: 0 <= i < |cmds| ==> !cmds[i].BitmapWrite? && !cmds[i].Clear?
  {
    [CharPositionWrite(12, 0), StringWrite(temperature),
     CharPositionWrite(14, 0), StringWrite("'C"),
     CharPositionWrite(4, 1), StringWrite(GasText(gasDetected)),
     CharPositionWrite(6, 2), StringWrite("OFF")]
  }

  /** Entering the alarm mode: a cleared screen, graphic mode and frame 0 next. */
  function AlarmStateInit(d: Display): (r: DisplayStep)
    ensures r.next.state == AlarmState && r.next.refreshTimeMs == RefreshTime(AlarmState)
    ensures r.next.alarmGraphicSequence == 0
    ensures r.next.accumulatedTime == d.accumulatedTime
    ensures r.output == [Clear, ModeWrite(GraphicMode)]
  {
    DisplayStep(
      d.(state := AlarmState, refreshTimeMs := DISPLAY_REFRESH_TIME_ALARM_MS, alarmGraphicSequence := 0),
      [Clear, ModeWrite(GraphicMode)])
  }

  /**
   * One animation step: frame k is drawn at index k and the index moves on
   * cyclically; an index outside 0..3 draws the blank image and becomes 1.
   */
  function AlarmStateUpdate(d: Display): (r: DisplayStep)
    ensures r.next == d.(alarmGraphicSequence := r.next.alarmGraphicSequence)
    ensures 0 <= d.alarmGraphicSequence <= 3 ==>
      && r.output == [BitmapWrite(FireAlarmFrame(d.alarmGraphicSequence))]
      && r.next.alarmGraphicSequence == (d.alarmGraphicSequence + 1) % 4
    ensures !(0 <= d.alarmGraphicSequence <= 3) ==>
      r.output == [BitmapWrite(ClearScreenImage)] && r.next.alarmGraphicSequence == 1
  {
    match d.alarmGraphicSequence
    case 0 => DisplayStep(d.(alarmGraphicSequence := 1), [BitmapWrite(FireAlarmFrame(0))])
    case 1 => DisplayStep(d.(alarmGraphicSequence := 2), [BitmapWrite(FireAlarmFrame(1))])
    case 2 => DisplayStep(d.(alarmGraphicSequence := 3), [BitmapWrite(FireAlarmFrame(2))])
    case 3 => DisplayStep(d.(alarmGraphicSequence := 0), [BitmapWrite(FireAlarmFrame(3))])
    case _ => DisplayStep(d.(alarmGraphicSequence := 1), [BitmapWrite(ClearScreenImage)])
  }

  /**
   * The render branch of a display tick: the accumulator goes back to 0,
   * the current mode's update runs, and the mode then follows the siren.
   */
  function Render(d: Display, t: TickInput): (r: DisplayStep)
    requires d.refreshTimeMs == RefreshTime(d.state) && 0 <= d.alarmGraphicSequence <= 3
    ensures r.output != []
    ensures r.next.accumulatedTime == 0
    // after a render the mode is the one the siren calls for, with its own interval
    ensures r.next.state == (if t.sirenActive then AlarmState else ReportState)
    ensures r.next.refreshTimeMs == RefreshTime(r.next.state)
    ensures 0 <= r.next.alarmGraphicSequence <= 3
    // report mode, siren silent: the fields are refreshed and nothing else changes
    ensures d.state == ReportState && !t.sirenActive ==>
      r == DisplayStep(d.(accumulatedTime := 0), ReportStateUpdate(t.temperature, t.gasDetected))
    // report mode, siren sounding: refresh, then switch to the animation from frame 0
    ensures d.state == ReportState && t.sirenActive ==>
      && r.next.alarmGraphicSequence == 0
      && r.output == ReportStateUpdate(t.temperature, t.gasDetected) + [Clear, ModeWrite(GraphicMode)]
    // alarm mode: the current frame is drawn first
    ensures d.state == AlarmState ==>
      r.output[..1] == [BitmapWrite(FireAlarmFrame(d.alarmGraphicSequence))]
    // alarm mode, siren sounding: one frame and the index moves on
    ensures d.state == AlarmState && t.sirenActive ==>
      && |r.output| == 1
      && r.next.alarmGraphicSequence == (d.alarmGraphicSequence + 1) % 4
    // alarm mode, siren silent: the last frame, then back to the labelled report screen
    ensures d.state == AlarmState && !t.sirenActive ==>
      && r.output[1..] == [ModeWrite(CharMode), Clear] + REPORT_LABELS
      && r.next.alarmGraphicSequence == (d.alarmGraphicSequence + 1) % 4
  {
    var d0 := d.(accumulatedTime := 0);
    match d.state
    case ReportState =>
      var shown := ReportStateUpdate(t.temperature, t.gasDetected);
      if t.sirenActive then
        var entered := AlarmStateInit(d0);
        DisplayStep(entered.next, shown + entered.output)
      else
        DisplayStep(d0, shown)
    case AlarmState =>
      var drawn := AlarmStateUpdate(d0);
      if !t.sirenActive then
        var entered := ReportStateInit(drawn.next);
        DisplayStep(entered.next, drawn.output + entered.output)
      else
        drawn
  }

  /**
   * One display tick: below the interval the accumulator only grows by one
   * tick period and nothing is drawn; at or above it the machine renders.
   */
  function DisplayUpdate(d: Display, t: TickInput, timeIncrementMs: nat): (r: DisplayStep)
    requires DisplayValid(d, timeIncrementMs)
    ensures DisplayValid(r.next, timeIncrementMs)
    ensures r.output == [] <==> d.accumulatedTime < d.refreshTimeMs
    ensures r.output == [] ==> r.next == d.(accumulatedTime := d.accumulatedTime + timeIncrementMs)
    ensures r.output != [] ==> r.next.accumulatedTime == 0
  {
    if d.accumulatedTime >= d.refreshTimeMs then
      Render(d, t)
    else
      DisplayStep(d.(accumulatedTime := d.accumulatedTime + timeIncrementMs), [])
  }

  /** The display steps of a run of ticks, their commands concatenated. */
  function DisplayRun(d: Display, ins: seq<TickInput>, timeIncrementMs: nat): (r: DisplayStep)
    requires DisplayValid(d, timeIncrementMs)
    ensures DisplayValid(r.next, timeIncrementMs)
    decreases |ins|
  {
    if ins == [] then DisplayStep(d, [])
    else
      var first := DisplayUpdate(d, ins[0], timeIncrementMs);
      var rest := DisplayRun(first.next, ins[1..], timeIncrementMs);
      DisplayStep(rest.next, first.output + rest.output)
  }

  /** The number of ticks that draw nothing before the accumulator reaches the interval. */
  function IdleTicks(accumulated: int, interval: int, timeIncrementMs: nat): nat
    requires timeIncrementMs > 0
    decreases interval - accumulated
  {
    if accumulated >= interval then 0
    else 1 + IdleTicks(accumulated + timeIncrementMs, interval, timeIncrementMs)
  }

  /** The idle ticks are the least number of tick periods that cover the interval. */
  lemma {:induction false} IdleTicksIsCeiling(accumulated: int, interval: int, timeIncrementMs: nat)
    requires timeIncrementMs > 0
    ensures var n := IdleTicks(accumulated, interval, timeIncrementMs);
      && accumulated + n * timeIncrementMs >= interval
      && (n > 0 ==> accumulated + (n - 1) * timeIncrementMs < interval)
    decreases interval - accumulated
  {
    if accumulated < interval {
      var n' := IdleTicks(accumulated + timeIncrementMs, interval, timeIncrementMs);
      IdleTicksIsCeiling(accumulated + timeIncrementMs, interval, timeIncrementMs);
      assert (n' + 1) * timeIncrementMs == n' * timeIncrementMs + timeIncrementMs;
    }
  }

  /** Ticks before the interval is reached draw nothing and only advance the accumulator. */
  lemma {:induction false} IdleRun(d: Display, ins: seq<TickInput>, timeIncrementMs: nat)
    requires DisplayValid(d, timeIncrementMs) && timeIncrementMs > 0
    requires |ins| <= IdleTicks(d.accumulatedTime, d.refreshTimeMs, timeIncrementMs)
    ensures DisplayRun(d, ins, timeIncrementMs) ==
            DisplayStep(d.(accumulatedTime := d.accumulatedTime + |ins| * timeIncrementMs), [])
    decreases |ins|
  {
    if ins != [] {
      var d1 := d.(accumulatedTime := d.accumulatedTime + timeIncrementMs);
      assert DisplayUpdate(d, ins[0], timeIncrementMs) == DisplayStep(d1, []);
      IdleRun(d1, ins[1..], timeIncrementMs);
      assert (|ins| - 1) * timeIncrementMs + timeIncrementMs == |ins| * timeIncrementMs;
    }
  }

  /**
   * The refresh cadence: from any reachable state, exactly IdleTicks ticks
   * draw nothing and the tick after them renders, with that tick's inputs,
   * whatever the accumulator held.
   */
  lemma {:induction false} RenderCadence(d: Display, ins: seq<TickInput>, timeIncrementMs: nat)
    requires DisplayValid(d, timeIncrementMs) && timeIncrementMs > 0
    requires |ins| == IdleTicks(d.accumulatedTime, d.refreshTimeMs, timeIncrementMs) + 1
    ensures DisplayRun(d, ins[..|ins| - 1], timeIncrementMs).output == []
    ensures DisplayRun(d, ins, timeIncrementMs) == Render(d, ins[|ins| - 1])
    decreases |ins|
  {
    var last := |ins| - 1;
    IdleRun(d, ins[..last], timeIncrementMs);
    if last == 0 {
      assert ins[1..] == [];
    } else {
      var d1 := d.(accumulatedTime := d.accumulatedTime + timeIncrementMs);
      assert DisplayUpdate(d, ins[0], timeIncrementMs) == DisplayStep(d1, []);
      RenderCadence(d1, ins[1..], timeIncrementMs);
      assert ins[1..][|ins| - 2] == ins[last];
      assert d1.(accumulatedTime := 0) == d.(accumulatedTime := 0);
    }
  }

  /**
   * From a render, the next render comes after ceil(interval / tick period)
   * silent ticks: the period of the report is IdleTicks(0, 1000, inc) + 1
   * ticks, and that of the animation IdleTicks(0, 300, inc) + 1.
   */
  lemma CadenceAfterRender(d: Display, ins: seq<TickInput>, timeIncrementMs: nat)
    requires DisplayValid(d, timeIncrementMs) && timeIncrementMs > 0 && d.accumulatedTime == 0
    requires |ins| == IdleTicks(0, d.refreshTimeMs, timeIncrementMs) + 1
    ensures (|ins| - 1) * timeIncrementMs >= d.refreshTimeMs
    ensures (|ins| - 2) * timeIncrementMs < d.refreshTimeMs
    ensures DisplayRun(d, ins[..|ins| - 1], timeIncrementMs).output == []
    ensures DisplayRun(d, ins, timeIncrementMs) == Render(d, ins[|ins| - 1])
  {
    IdleTicksIsCeiling(0, d.refreshTimeMs, timeIncrementMs);
    RenderCadence(d, ins, timeIncrementMs);
  }

  /**
   * With a 100 ms tick the report is redrawn every 11 ticks and the
   * animation every 4: each interval's ten or three silent ticks plus the
   * rendering tick itself.
   */
  lemma CadenceAtHundredMilliseconds()
    ensures IdleTicks(0, DISPLAY_REFRESH_TIME_REPORT_MS, 100) == 10
    ensures IdleTicks(0, DISPLAY_REFRESH_TIME_ALARM_MS, 100) == 3
  {
    IdleTicksIsCeiling(0, DISPLAY_REFRESH_TIME_REPORT_MS, 100);
    IdleTicksIsCeiling(0, DISPLAY_REFRESH_TIME_ALARM_MS, 100);
  }

  /** The animation's frames from index `start` on, `count` of them. */
  function AnimationFrames(start: int, count: nat): (cmds: seq<DisplayCmd>)
    ensures |cmds| == count
    ensures forall i :: 0 <= i < count ==> cmds[i] == BitmapWrite(FireAlarmFrame((start + i) % 4))
    decreases count
  {
    if count == 0 then []
    else [BitmapWrite(FireAlarmFrame(start % 4))] + AnimationFrames(start + 1, count - 1)
  }

  /**
   * While the siren sounds, the alarm mode only ever draws the animation:
   * whatever run of ticks follows, the screen receives frames k, k+1, ...
   * (modulo 4) from the current index k, and the index ends that many
   * frames further on.
   */
  lemma {:induction false} AlarmAnimationCycles(d: Display, ins: seq<TickInput>, timeIncrementMs: nat)
    requires DisplayValid(d, timeIncrementMs) && d.state == AlarmState
    requires forall i :: 0 <= i < |ins| ==> ins[i].sirenActive
    ensures var r := DisplayRun(d, ins, timeIncrementMs);
      && r.next.state == AlarmState
      && r.output == AnimationFrames(d.alarmGraphicSequence, |r.output|)
      && r.next.alarmGraphicSequence == (d.alarmGraphicSequence + |r.output|) % 4
    decreases |ins|
  {
    if ins != [] {
      var first := DisplayUpdate(d, ins[0], timeIncrementMs);
      var rest := DisplayRun(first.next, ins[1..], timeIncrementMs);
      AlarmAnimationCycles(first.next, ins[1..], timeIncrementMs);
      if first.output != [] {
        var k, m := d.alarmGraphicSequence, |rest.output|;
        AnimationFramesShift(k, m);
        assert (k + 1) % 4 + m == k + 1 + m - (if k == 3 then 4 else 0);
      }
    }
  }

  /** Frame indices are taken modulo 4, so starting points 4 apart draw the same frames. */
  lemma {:induction false} AnimationFramesModulo(a: int, b: int, count: nat)
    requires a % 4 == b % 4
    ensures AnimationFrames(a, count) == AnimationFrames(b, count)
    decreases count
  {
    if count > 0 {
      AnimationFramesModulo(a + 1, b + 1, count - 1);
    }
  }

  /** Drawing frame k and then the frames from the next index on is drawing the frames from k on. */
  lemma AnimationFramesShift(k: int, count: nat)
    requires 0 <= k <= 3
    ensures [BitmapWrite(FireAlarmFrame(k))] + AnimationFrames((k + 1) % 4, count) == AnimationFrames(k, count + 1)
  {
    AnimationFramesModulo(k + 1, (k + 1) % 4, count);
  }

  /**
   * Entering the alarm: a report render that finds the siren sounding
   * leaves the machine in alarm mode at frame 0, and the next render, one
   * alarm interval later, draws frame 0 of the animation.
   */
  lemma AlarmEntryDrawsFirstFrame(d: Display, t: TickInput, ins: seq<TickInput>, timeIncrementMs: nat)
    requires DisplayValid(d, timeIncrementMs) && timeIncrementMs > 0
    requires d.state == ReportState && d.accumulatedTime >= d.refreshTimeMs && t.sirenActive
    requires |ins| == IdleTicks(0, DISPLAY_REFRESH_TIME_ALARM_MS, timeIncrementMs) + 1
    requires ins[|ins| - 1].sirenActive
    ensures var entered := DisplayUpdate(d, t, timeIncrementMs).next;
      && entered == Display(AlarmState, DISPLAY_REFRESH_TIME_ALARM_MS, 0, 0)
      && DisplayRun(entered, ins[..|ins| - 1], timeIncrementMs).output == []
      && DisplayRun(entered, ins, timeIncrementMs).output == [BitmapWrite(FireAlarmFrame(0))]
  {
    var entered := DisplayUpdate(d, t, timeIncrementMs).next;
    RenderCadence(entered, ins, timeIncrementMs);
  }
}
