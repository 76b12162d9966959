/**
  How the LNC reacts: the Monitor classifies each round of readings into a mode, Event turns
  mode changes, object events and button presses into lights, messages and sounds.
  Handlers run one at a time; any of them, and the buzzer's timer, may come next.
 */
module Alarm {
  import opened Bytes
  import opened Payload
  import opened Config
  import Buzzer

  // ---------------------------------------------------------------- classification

  datatype Mode = UNKNOWN | NORMAL | WARNING | ERROR

  datatype Measurement = Measurement(temp: Int16, humidity: Byte, light: Byte, battery: Byte)

  datatype Tier = NormalTier | WarningTier | ErrorTier

  function ClassifyRange(value: int, normalMin: int, normalMax: int, warningMin: int, warningMax: int): Tier {
    if normalMin <= value <= normalMax then NormalTier
    else if warningMin <= value <= warningMax then WarningTier
    else ErrorTier
  }

  function ClassifyLowerBound(value: int, normalMin: int, warningMin: int): Tier {
    if value >= normalMin then NormalTier
    else if value >= warningMin then WarningTier
    else ErrorTier
  }

  function ClassifyMode(m: Measurement, l: Limits): Mode {
    var temp := ClassifyRange(m.temp, l.tempNormalMin, l.tempNormalMax, l.tempWarningMin, l.tempWarningMax);
    var hum := ClassifyLowerBound(m.humidity, l.humidityNormal, l.humidityWarning);
    var light := ClassifyLowerBound(m.light, l.lightNormal, l.lightWarning);
    var batt := ClassifyLowerBound(m.battery, l.batteryNormal, l.batteryWarning);
    if temp == ErrorTier || hum == ErrorTier || light == ErrorTier || batt == ErrorTier then ERROR
    else if temp == WarningTier || hum == WarningTier || light == WarningTier || batt == WarningTier then WARNING
    else NORMAL
  }

  /**
    By the readings alone: ERROR when some reading is outside both its normal and its warning
    limits, NORMAL when all are within their normal ones, WARNING otherwise.
   */
  lemma {:induction false} ModeByReadings(m: Measurement, l: Limits)
    ensures ClassifyMode(m, l) == ERROR <==>
            || ((m.temp < l.tempNormalMin || m.temp > l.tempNormalMax)
                && (m.temp < l.tempWarningMin || m.temp > l.tempWarningMax))
            || (m.humidity < l.humidityNormal && m.humidity < l.humidityWarning)
            || (m.light < l.lightNormal && m.light < l.lightWarning)
            || (m.battery < l.batteryNormal && m.battery < l.batteryWarning)
    ensures ClassifyMode(m, l) == NORMAL <==>
            && l.tempNormalMin <= m.temp <= l.tempNormalMax
            && m.humidity >= l.humidityNormal && m.light >= l.lightNormal && m.battery >= l.batteryNormal
    ensures ClassifyMode(m, l) != UNKNOWN
  {
  }

  function Severity(m: Mode): nat {
    match m
    case UNKNOWN => 0
    case NORMAL => 1
    case WARNING => 2
    case ERROR => 3
  }

  /** More humidity, light or battery is never classified as worse, whatever the limits. */
  lemma {:induction false} MoreIsNeverWorse(m: Measurement, n: Measurement, l: Limits)
    requires n.temp == m.temp && m.humidity <= n.humidity && m.light <= n.light && m.battery <= n.battery
    ensures Severity(ClassifyMode(n, l)) <= Severity(ClassifyMode(m, l))
  {
    hide ClassifyRange;
  }

  // ---------------------------------------------------------------- state and handlers

  datatype Colour = Off | Green | Yellow | Red

  function ColourOf(m: Mode): Colour {
    match m
    case UNKNOWN => Off
    case NORMAL => Green
    case WARNING => Yellow
    case ERROR => Red
  }

  /** What Event reports to the Central Computer. */
  datatype Report = ModeChange(before: Mode, after: Mode, data: Measurement) | ObjectDetected | ObjectCleared

  /** Event's fields, its two lights, what it has reported, and its buzzer. */
  datatype EventState = EventState(
    alarmActive: bool, sonarActive: bool, essentialOnly: bool,
    led: Colour, sonarLed: bool, reports: seq<Report>, buzzer: Buzzer.State)

  function AlarmStart(e: EventState): EventState {
    if e.alarmActive then e else e.(alarmActive := true, buzzer := Buzzer.StartAlarm(e.buzzer))
  }

  function AlarmStopIfActive(e: EventState): EventState {
    if e.alarmActive then e.(alarmActive := false, buzzer := Buzzer.Stop(e.buzzer)) else e
  }

  function SonarStopIfActive(e: EventState): EventState {
    if e.sonarActive then e.(sonarActive := false, buzzer := Buzzer.Stop(e.buzzer)) else e
  }

  function ModeChanged(e: EventState, data: Measurement, before: Mode, after: Mode): EventState {
    var e := if after == UNKNOWN then e else e.(led := ColourOf(after));
    var e := if after == ERROR then AlarmStart(e).(essentialOnly := true)
             else if before == ERROR then AlarmStopIfActive(e).(essentialOnly := false)
             else e;
    e.(reports := e.reports + [ModeChange(before, after, data)])
  }

  function Detected(e: EventState): EventState {
    e.(sonarActive := true, sonarLed := true, reports := e.reports + [ObjectDetected],
       buzzer := Buzzer.StartSonar(e.buzzer))
  }

  function Cleared(e: EventState): EventState {
    e.(sonarActive := false, sonarLed := false, reports := e.reports + [ObjectCleared],
       buzzer := Buzzer.Stop(e.buzzer))
  }

  function Pressed(e: EventState): EventState {
    SonarStopIfActive(AlarmStopIfActive(e))
  }

  function InitialEvent(): EventState {
    EventState(false, false, false, Off, false, [], Buzzer.State(0, 0, false, 0, false, false, 0, 0, false))
  }

  /** Event itself: the fields above, with its buzzer. */
  class Event {
    var alarmActive: bool
    var sonarActive: bool
    var essentialOnly: bool
    var led: Colour
    var sonarLed: bool
    var reports: seq<Report>
    const buzzer: Buzzer.BuzzerHandle

    constructor ()
      ensures View() == InitialEvent()
      ensures fresh(buzzer)
    {
      alarmActive, sonarActive, essentialOnly, led, sonarLed, reports := false, false, false, Off, false, [];
      buzzer := new Buzzer.BuzzerHandle();
    }

    ghost function View(): EventState
      reads this, buzzer
    {
      EventState(alarmActive, sonarActive, essentialOnly, led, sonarLed, reports, buzzer.View())
    }

    method StartAlarm()
      modifies this, buzzer
      ensures View() == AlarmStart(old(View()))
    {
      if !alarmActive {
        buzzer.SoundAlarm();
        alarmActive := true;
      }
    }

    method StopAlarm()
      modifies this, buzzer
      ensures View() == AlarmStopIfActive(old(View()))
    {
      if alarmActive {
        buzzer.Halt();
        alarmActive := false;
      }
    }

    method StopSonar()
      modifies this, buzzer
      ensures View() == SonarStopIfActive(old(View()))
    {
      if sonarActive {
        buzzer.Halt();
        sonarActive := false;
      }
    }

    method SetLedForMode(mode: Mode)
      modifies `led
      ensures led == if mode == UNKNOWN then old(led) else ColourOf(mode)
    {
      match mode {
        case NORMAL => led := Green;
        case WARNING => led := Yellow;
        case ERROR => led := Red;
        case UNKNOWN =>
      }
    }

    method OnModeChanged(data: Measurement, before: Mode, after: Mode)
      modifies this, buzzer
      ensures View() == ModeChanged(old(View()), data, before, after)
    {
      hide Buzzer.StartAlarm, Buzzer.Stop, ColourOf;
      SetLedForMode(after);
      if after == ERROR {
        StartAlarm();
        essentialOnly := true;
      } else if before == ERROR {
        StopAlarm();
        essentialOnly := false;
      }
      reports := reports + [ModeChange(before, after, data)];
    }

    method OnDetected()
      modifies this, buzzer
      ensures View() == Detected(old(View()))
    {
      buzzer.SoundSonar();
      sonarActive := true;
      sonarLed := true;
      reports := reports + [ObjectDetected];
    }

    method OnCleared()
      modifies this, buzzer
      ensures View() == Cleared(old(View()))
    {
      buzzer.Halt();
      sonarActive := false;
      sonarLed := false;
      reports := reports + [ObjectCleared];
    }

    method OnPressed()
      modifies this, buzzer
      ensures View() == Pressed(old(View()))
    {
      StopAlarm();
      StopSonar();
    }
  }

  // ---------------------------------------------------------------- runs

  /** One round's inputs: the thermometer may fail to answer. */
  datatype Sample = Sample(climate: Option<(Int16, Byte)>, light: Byte, battery: Byte, limits: Limits)

  datatype Step = Round(sample: Sample) | Detect | Clear | Press | Tick

  datatype System = System(mode: Mode, lastTemp: Int16, lastHumidity: Byte, event: EventState)

  function Initial(): System {
    System(UNKNOWN, 0, 0, InitialEvent())
  }

  function Measure(s: System, i: Sample): Measurement {
    match i.climate
    case Some(c) => Measurement(c.0, c.1, i.light, i.battery)
    case None => Measurement(s.lastTemp, s.lastHumidity, i.light, i.battery)
  }

  function AfterRound(s: System, i: Sample): System {
    var m := Measure(s, i);
    var mode := ClassifyMode(m, i.limits);
    System(mode, m.temp, m.humidity,
           if mode != s.mode then ModeChanged(s.event, m, s.mode, mode) else s.event)
  }

  function Do(s: System, step: Step): System {
    match step
    case Round(i) => AfterRound(s, i)
    case Detect => s.(event := Detected(s.event))
    case Clear => s.(event := Cleared(s.event))
    case Press => s.(event := Pressed(s.event))
    case Tick => s.(event := s.event.(buzzer := Buzzer.DurationElapsed(s.event.buzzer)))
  }

  /** The Monitor, which owns the mode; one call of `DoRound` is one round of its task. */
  class Monitor {
    var mode: Mode
    var lastTemp: Int16
    var lastHumidity: Byte
    const event: Event

    constructor (event: Event)
      ensures mode == UNKNOWN && lastTemp == 0 && lastHumidity == 0 && this.event == event
    {
      this.mode, this.lastTemp, this.lastHumidity, this.event := UNKNOWN, 0, 0, event;
    }

    ghost function View(): System
      reads this, event, event.buzzer
    {
      System(mode, lastTemp, lastHumidity, event.View())
    }

    method DoRound(i: Sample)
      modifies this, event, event.buzzer
      ensures View() == AfterRound(old(View()), i)
    {
      hide ClassifyMode, ModeChanged;
      if i.climate.Some? {
        lastTemp := i.climate.value.0;
        lastHumidity := i.climate.value.1;
      }
      var data := Measurement(lastTemp, lastHumidity, i.light, i.battery);
      var newMode := ClassifyMode(data, i.limits);
      if newMode != mode {
        event.OnModeChanged(data, mode, newMode);
      }
      mode := newMode;
    }
  }

  function Run(steps: seq<Step>): System {
    if steps == [] then Initial() else Do(Run(steps[..|steps| - 1]), steps[|steps| - 1])
  }

  // ---------------------------------------------------------------- the invariant

  ghost predicate Consistent(s: System) {
    var e := s.event;
    && (e.essentialOnly <==> s.mode == ERROR)
    && (e.alarmActive ==> s.mode == ERROR)
    && (e.buzzer.alarmActive ==> e.alarmActive)
    && (e.buzzer.sonarActive ==> e.sonarActive)
    && e.led == ColourOf(s.mode)
    && Buzzer.Tuned(e.buzzer)
  }

  lemma {:induction false} ClassifiedIsKnown(m: Measurement, l: Limits)
    ensures ClassifyMode(m, l) != UNKNOWN
  {
  }

  lemma {:induction false} TicksKeepFlags(b: Buzzer.State)
    ensures var t := Buzzer.DurationElapsed(b);
            t.alarmActive == b.alarmActive && t.sonarActive == b.sonarActive
  {
    hide Wrap, Buzzer.Period, Buzzer.Pulse;
  }

  lemma {:induction false} DoKeepsConsistent(s: System, step: Step)
    requires Consistent(s)
    ensures Consistent(Do(s, step))
  {
    hide Buzzer.Tuned, ClassifyMode, Buzzer.ArmNote, Buzzer.DurationElapsed;
    Buzzer.OperationsKeepTuned(s.event.buzzer);
    Buzzer.OperationsKeepTuned(Buzzer.Stop(s.event.buzzer));
    SetsFlags(s.event.buzzer);
    match step
    case Round(i) => ClassifiedIsKnown(Measure(s, i), i.limits);
    case Tick => TicksKeepFlags(s.event.buzzer);
    case Detect =>
    case Clear =>
    case Press =>
  }

  lemma {:induction false} SetsFlags(b: Buzzer.State)
    ensures var t := Buzzer.StartAlarm(b); t.alarmActive && !t.sonarActive
    ensures var t := Buzzer.StartSonar(b); !t.alarmActive && t.sonarActive
  {
  }

  /**
    After every handler of every run: only essential operations exactly in ERROR, the alarm only
    in ERROR, the lamp showing the mode, one sound pattern at most, and none that Event has off.
   */
  lemma {:induction false} AlwaysConsistent(steps: seq<Step>)
    ensures Consistent(Run(steps))
    ensures var s := Run(steps);
            s.event.led == match s.mode
                           case UNKNOWN => Off
                           case NORMAL => Green
                           case WARNING => Yellow
                           case ERROR => Red
    decreases |steps|
  {
    LampIs(Run(steps));
    hide Do, Consistent, ColourOf;
    if steps == [] {
      InitiallyConsistent();
    } else {
      AlwaysConsistent(steps[..|steps| - 1]);
      DoKeepsConsistent(Run(steps[..|steps| - 1]), steps[|steps| - 1]);
    }
  }

  lemma {:induction false} LampIs(s: System)
    ensures Consistent(s) ==> s.event.led == match s.mode
                                             case UNKNOWN => Off
                                             case NORMAL => Green
                                             case WARNING => Yellow
                                             case ERROR => Red
  {
  }

  lemma {:induction false} InitiallyConsistent()
    ensures Consistent(Initial())
  {
  }

  // ---------------------------------------------------------------- mode changes

  ghost function ModeChanges(reports: seq<Report>): seq<(Mode, Mode)> {
    if reports == [] then []
    else
      var last := reports[|reports| - 1];
      ModeChanges(reports[..|reports| - 1]) + if last.ModeChange? then [(last.before, last.after)] else []
  }

  /** Each change starts where the one before ended, the first at UNKNOWN, and none goes nowhere. */
  ghost predicate ChainTo(changes: seq<(Mode, Mode)>, mode: Mode) {
    && (forall i :: 0 <= i < |changes| ==> changes[i].0 == ModeAfter(changes, i) != changes[i].1)
    && mode == ModeAfter(changes, |changes|)
  }

  ghost function ModeAfter(changes: seq<(Mode, Mode)>, i: nat): Mode
    requires i <= |changes|
  {
    if i == 0 then UNKNOWN else changes[i - 1].1
  }

  lemma {:induction false} ReportAdds(reports: seq<Report>, r: Report)
    ensures ModeChanges(reports + [r])
            == ModeChanges(reports) + if r.ModeChange? then [(r.before, r.after)] else []
  {
    assert (reports + [r])[..|reports|] == reports;
  }

  lemma {:induction false} RoundReports(s: System, i: Sample)
    ensures var s' := AfterRound(s, i);
            s'.event.reports == s.event.reports
            + if s'.mode == s.mode then []
              else [ModeChange(s.mode, s'.mode, Measurement(s'.lastTemp, s'.lastHumidity, i.light, i.battery))]
  {
    hide ClassifyMode, Buzzer.StartAlarm, Buzzer.Stop;
    assert s.event.reports + [] == s.event.reports;
  }

  /** Over any run the mode changes reported form one chain from UNKNOWN to the present mode. */
  lemma {:induction false} ModeChangesChain(steps: seq<Step>)
    ensures ChainTo(ModeChanges(Run(steps).event.reports), Run(steps).mode)
    decreases |steps|
  {
    hide ModeChanges, AfterRound, ChainTo, Buzzer.StartSonar, Buzzer.Stop, Buzzer.DurationElapsed;
    if steps == [] {
      InitiallySilent();
    } else {
      var s := Run(steps[..|steps| - 1]);
      ModeChangesChain(steps[..|steps| - 1]);
      ChainGrows(ModeChanges(s.event.reports), s.mode, Run(steps).mode);
      assert ModeChanges(s.event.reports) + [] == ModeChanges(s.event.reports);
      match steps[|steps| - 1]
      case Round(i) =>
        RoundReports(s, i);
        assert s.event.reports + [] == s.event.reports;
        var data := Measurement(Run(steps).lastTemp, Run(steps).lastHumidity, i.light, i.battery);
        ReportAdds(s.event.reports, ModeChange(s.mode, Run(steps).mode, data));
      case Detect => ReportAdds(s.event.reports, ObjectDetected);
      case Clear => ReportAdds(s.event.reports, ObjectCleared);
      case Press =>
      case Tick =>
    }
  }

  lemma {:induction false} ChainGrows(changes: seq<(Mode, Mode)>, m: Mode, n: Mode)
    requires ChainTo(changes, m)
    ensures ChainTo(changes + if n != m then [(m, n)] else [], n)
  {
    var longer := changes + if n != m then [(m, n)] else [];
    forall i | 0 <= i < |longer| ensures longer[i].0 == ModeAfter(longer, i) != longer[i].1 {
      assert ModeAfter(longer, i) == ModeAfter(changes, i);
    }
  }

  lemma {:induction false} InitiallySilent()
    ensures ChainTo(ModeChanges(Initial().event.reports), UNKNOWN)
  {
  }

  // ---------------------------------------------------------------- what the flags mean, in terms of the run

  /** The readings of the last round, or what stood before the first. */
  ghost function LastClimate(steps: seq<Step>): (Int16, Byte) {
    if steps == [] then (0, 0)
    else
      var last := steps[|steps| - 1];
      if last.Round? && last.sample.climate.Some? then last.sample.climate.value
      else LastClimate(steps[..|steps| - 1])
  }

  /** The mode of the last round: its limits against its levels and the last climate that could be read. */
  ghost function LastMode(steps: seq<Step>): Mode {
    if steps == [] then UNKNOWN
    else
      var last := steps[|steps| - 1];
      if last.Round? then
        var (temp, humidity) := LastClimate(steps);
        ClassifyMode(Measurement(temp, humidity, last.sample.light, last.sample.battery), last.sample.limits)
      else LastMode(steps[..|steps| - 1])
  }

  lemma {:induction false} ModeIsLastMode(steps: seq<Step>)
    ensures var s := Run(steps);
            s.mode == LastMode(steps) && (s.lastTemp, s.lastHumidity) == LastClimate(steps)
    decreases |steps|
  {
    hide ClassifyMode, ModeChanged, Detected, Cleared, Pressed, Buzzer.DurationElapsed;
    if steps != [] {
      ModeIsLastMode(steps[..|steps| - 1]);
    }
  }

  /** The last step of a run, with what came before it. */
  ghost predicate Is(h: seq<Step>, step: Step) {
    h != [] && h[|h| - 1] == step
  }

  ghost predicate EntersError(h: seq<Step>) {
    h != [] && LastMode(h) == ERROR && LastMode(h[..|h| - 1]) != ERROR
  }

  ghost predicate LeavesError(h: seq<Step>) {
    h != [] && LastMode(h) != ERROR && LastMode(h[..|h| - 1]) == ERROR
  }

  type Moment = seq<Step> -> bool

  /** After some step `on` held, and after none of those that followed it did `off`. */
  ghost predicate Since(steps: seq<Step>, on: Moment, off: Moment) {
    exists k: nat :: 0 < k <= |steps| && HoldsSince(steps, on, off, k)
  }

  ghost predicate HoldsSince(steps: seq<Step>, on: Moment, off: Moment, k: nat)
    requires k <= |steps|
  {
    on(steps[..k]) && forall j :: k < j <= |steps| ==> !off(steps[..j])
  }

  lemma {:induction false} SinceGrows(steps: seq<Step>, on: Moment, off: Moment)
    requires steps != []
    ensures Since(steps, on, off) <==> on(steps) || (Since(steps[..|steps| - 1], on, off) && !off(steps))
  {
    var n := |steps|;
    var front := steps[..n - 1];
    assert steps[..n] == steps;
    assert forall j :: 0 <= j < n ==> front[..j] == steps[..j];
    forall k: nat | k < n
      ensures HoldsSince(steps, on, off, k) <==> HoldsSince(front, on, off, k) && !off(steps)
    {
      if HoldsSince(steps, on, off, k) {
        forall j | k < j < n ensures !off(front[..j]) {
          assert !off(steps[..j]);
        }
        assert !off(steps[..n]);
      }
      if HoldsSince(front, on, off, k) && !off(steps) {
        forall j | k < j <= n ensures !off(steps[..j]) {
          assert j < n ==> !off(front[..j]);
        }
      }
    }
    if Since(front, on, off) && !off(steps) {
      var k: nat :| 0 < k < n && HoldsSince(front, on, off, k);
      assert HoldsSince(steps, on, off, k);
    }
    if on(steps) {
      assert HoldsSince(steps, on, off, n);
    }
  }

  ghost const Detecting: Moment := h => Is(h, Detect)
  ghost const Entering: Moment := h => EntersError(h)

  /** What ends the alarm: the button, or a round that is not in ERROR. */
  ghost const AlarmEnds: Moment := h => Is(h, Press) || LeavesError(h)

  /** What ends the siren: those, and any object event. */
  ghost const SirenEnds: Moment := h => Is(h, Press) || LeavesError(h) || Is(h, Detect) || Is(h, Clear)

  ghost const SonarEnds: Moment := h => Is(h, Press) || Is(h, Clear)
  ghost const LightEnds: Moment := h => Is(h, Clear)

  ghost predicate AlarmOn(h: seq<Step>) {
    Since(h, Entering, AlarmEnds)
  }

  /** What ends the ping: those, an alarm that starts, and an alarm that the mode ends. */
  ghost const PingEnds: Moment :=
    h => Is(h, Press) || Is(h, Clear) || EntersError(h) || (LeavesError(h) && AlarmOn(h[..|h| - 1]))

  ghost predicate Meaning(steps: seq<Step>) {
    var e := Run(steps).event;
    && (e.alarmActive <==> AlarmOn(steps))
    && (e.buzzer.alarmActive <==> Since(steps, Entering, SirenEnds))
    && (e.sonarActive <==> Since(steps, Detecting, SonarEnds))
    && (e.buzzer.sonarActive <==> Since(steps, Detecting, PingEnds))
    && (e.sonarLed <==> Since(steps, Detecting, LightEnds))
  }

  /** How one step moves the five flags. */
  lemma {:induction false} DoMovesFlags(s: System, step: Step)
    requires Consistent(s)
    ensures var s', e := Do(s, step), s.event;
            var e' := s'.event;
            var enters, leaves := s.mode != ERROR && s'.mode == ERROR, s.mode == ERROR && s'.mode != ERROR;
            && e'.alarmActive == (enters || (e.alarmActive && step != Press && !leaves))
            && e'.buzzer.alarmActive
               == (enters || (e.buzzer.alarmActive && step != Press && !leaves && step != Detect && step != Clear))
            && e'.sonarActive == (step == Detect || (e.sonarActive && step != Press && step != Clear))
            && e'.buzzer.sonarActive
               == (step == Detect || (e.buzzer.sonarActive && step != Press && step != Clear && !enters
                                      && !(leaves && e.alarmActive)))
            && e'.sonarLed == (step == Detect || (e.sonarLed && step != Clear))
  {
    hide ClassifyMode, Buzzer.ArmNote, Buzzer.DurationElapsed, Buzzer.Tuned;
    TicksKeepFlags(s.event.buzzer);
    SetsFlags(s.event.buzzer);
    match step
    case Round(i) =>
    case Detect =>
    case Clear =>
    case Press =>
    case Tick =>
  }

  /**
    Event's flags, the buzzer's and the sonar light, each told from the run alone. In
    particular an object event silences a siren that Event goes on counting as active.
   */
  lemma {:induction false} FlagsMean(steps: seq<Step>)
    ensures Meaning(steps)
    decreases |steps|
  {
    hide Do, Consistent, LastMode, Since;
    if steps == [] {
      NothingSince();
    } else {
      var front := steps[..|steps| - 1];
      FlagsMean(front);
      AlwaysConsistent(front);
      DoMovesFlags(Run(front), steps[|steps| - 1]);
      ModeIsLastMode(front);
      ModeIsLastMode(steps);
      SinceGrows(steps, Entering, AlarmEnds);
      SinceGrows(steps, Entering, SirenEnds);
      SinceGrows(steps, Detecting, SonarEnds);
      SinceGrows(steps, Detecting, PingEnds);
      SinceGrows(steps, Detecting, LightEnds);
    }
  }

  lemma {:induction false} NothingSince()
    ensures forall on: Moment, off: Moment :: !Since([], on, off)
  {
  }

  /** The siren is heard exactly when the last entry into ERROR was followed by nothing that ends it. */
  lemma {:induction false} SirenHeardIff(steps: seq<Step>)
    ensures Buzzer.SirenSounds(Run(steps).event.buzzer) <==> Since(steps, Entering, SirenEnds)
  {
    hide Run, Since, Buzzer.Tuned, Buzzer.SirenSounds;
    AlwaysConsistent(steps);
    FlagsMean(steps);
    Buzzer.HeardIffActive(Run(steps).event.buzzer);
  }

  /** An object that comes and goes during an alarm leaves it counted as active and the buzzer silent. */
  lemma {:induction false} ObjectSilencesSiren(steps: seq<Step>)
    requires Run(steps).event.alarmActive
    ensures var e := Do(Run(steps), Detect).event;
            e.alarmActive && !Buzzer.SirenSounds(e.buzzer) && Buzzer.PingSounds(e.buzzer)
    ensures var e := Do(Do(Run(steps), Detect), Clear).event;
            e.alarmActive && !e.buzzer.running
  {
    hide Run, Consistent, Buzzer.Tuned, Buzzer.SirenSounds;
    AlwaysConsistent(steps);
    DoKeepsConsistent(Run(steps), Detect);
    ConsistentIsTuned(Do(Run(steps), Detect));
    Buzzer.HeardIffActive(Do(Run(steps), Detect).event.buzzer);
  }

  lemma {:induction false} ConsistentIsTuned(s: System)
    requires Consistent(s)
    ensures Buzzer.Tuned(s.event.buzzer)
  {
  }

  // ---------------------------------------------------------------- what is reported

  /** The reports a run calls for: each change of the last round's mode with its readings, and each object event. */
  ghost function ReportsDue(steps: seq<Step>): seq<Report> {
    if steps == [] then []
    else
      var front := steps[..|steps| - 1];
      ReportsDue(front)
      + match steps[|steps| - 1]
        case Round(i) =>
          var (temp, humidity) := LastClimate(steps);
          if LastMode(steps) == LastMode(front) then []
          else [ModeChange(LastMode(front), LastMode(steps), Measurement(temp, humidity, i.light, i.battery))]
        case Detect => [ObjectDetected]
        case Clear => [ObjectCleared]
        case Press => []
        case Tick => []
  }

  /** Over any run exactly those are reported, in that order. */
  lemma {:induction false} ReportsAreDue(steps: seq<Step>)
    ensures Run(steps).event.reports == ReportsDue(steps)
    decreases |steps|
  {
    hide ClassifyMode, LastMode, LastClimate, AfterRound, Buzzer.StartAlarm, Buzzer.Stop, Buzzer.StartSonar,
      Buzzer.DurationElapsed;
    if steps != [] {
      var front := steps[..|steps| - 1];
      ReportsAreDue(front);
      var s := Run(front);
      match steps[|steps| - 1]
      case Round(i) =>
        RoundReports(s, i);
        ModeIsLastMode(front);
        ModeIsLastMode(steps);
      case Detect =>
      case Clear =>
      case Press => assert s.event.reports + [] == s.event.reports;
      case Tick => assert s.event.reports + [] == s.event.reports;
    }
  }
}
