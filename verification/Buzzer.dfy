/**
  The buzzer: one timer makes the tone and, by its own period interrupt, counts how long each
  note has lasted. Two endless patterns use it, the alarm's two-note siren and the sonar ping.
 */
module Buzzer {
  import opened Bytes

  type Note = n: nat | n < 24

  const A1: Note := 9
  const C2: Note := 12
  const E2: Note := 16

  /** Auto-reload value and duty cycle of each note. */
  const NOTE_TABLE: seq<(nat, nat)> := [
    (3815, 1907), (3609, 1804), (3400, 1700), (3214, 1607),
    (3029, 1514), (2864, 1432), (2701, 1350), (2550, 1275),
    (2408, 1204), (2271, 1135), (2144, 1072), (2023, 1011),
    (1911, 955), (1804, 902), (1702, 851), (1606, 803),
    (1516, 758), (1431, 715), (1350, 675), (1274, 637),
    (1202, 601), (1135, 567), (1071, 535), (1011, 505)]

  const ALARM_NOTE_MS: nat := 300
  const SONAR_PING_MS: nat := 150
  const SONAR_GAP_MS: nat := 850

  function Period(n: Note): nat {
    NOTE_TABLE[n].0
  }

  function Pulse(n: Note): nat {
    NOTE_TABLE[n].1
  }

  function AlarmNote(step: nat): Note {
    if step == 0 then A1 else E2
  }

  /** The handle's fields, and of the timer its reload value, its duty cycle and whether it runs. */
  datatype State = State(
    elapsedUs: nat, targetUs: nat, alarmActive: bool, alarmStep: nat, sonarActive: bool,
    sonarInGap: bool, arr: nat, pulse: nat, running: bool)

  function ArmNote(s: State, note: Note, ms: nat): State {
    s.(elapsedUs := 0, targetUs := Wrap(ms * 1000), arr := Period(note), pulse := Pulse(note), running := true)
  }

  function ArmGap(s: State, ms: nat): State {
    s.(elapsedUs := 0, targetUs := Wrap(ms * 1000), pulse := 0)
  }

  function PlayNote(s: State, note: Note, ms: nat): State {
    ArmNote(s.(alarmActive := false, sonarActive := false), note, ms)
  }

  function Stop(s: State): State {
    s.(alarmActive := false, sonarActive := false, running := false)
  }

  function StartAlarm(s: State): State {
    ArmNote(s.(alarmActive := true, sonarActive := false, alarmStep := 0), A1, ALARM_NOTE_MS)
  }

  function StartSonar(s: State): State {
    ArmNote(s.(alarmActive := false, sonarActive := true, sonarInGap := false), C2, SONAR_PING_MS)
  }

  /** One timer period has passed. */
  function DurationElapsed(s: State): State {
    var s := s.(elapsedUs := Wrap(s.elapsedUs + Wrap(s.arr + 1)));
    if s.elapsedUs < s.targetUs then s
    else if s.alarmActive then
      var step := if s.alarmStep == 0 then 1 else 0;
      ArmNote(s.(alarmStep := step), AlarmNote(step), ALARM_NOTE_MS)
    else if s.sonarActive then
      if s.sonarInGap then ArmNote(s.(sonarInGap := false), C2, SONAR_PING_MS)
      else ArmGap(s.(sonarInGap := true), SONAR_GAP_MS)
    else s.(running := false)
  }

  function Ticks(s: State, n: nat): State {
    if n == 0 then s else DurationElapsed(Ticks(s, n - 1))
  }

  // ---------------------------------------------------------------- what is heard

  ghost predicate SirenSounds(s: State) {
    s.running && exists step: nat :: step < 2 && s.arr == Period(AlarmNote(step)) && s.pulse == Pulse(AlarmNote(step))
  }

  ghost predicate PingSounds(s: State) {
    s.running && s.arr == Period(C2) && s.pulse == Pulse(C2)
  }

  /** The timer runs, but with no duty cycle. */
  ghost predicate InGap(s: State) {
    s.running && s.pulse == 0
  }

  /** At most one pattern is on; the flags say which is heard, and with neither nothing is. */
  ghost predicate Tuned(s: State) {
    && !(s.alarmActive && s.sonarActive)
    && (s.alarmActive ==> s.alarmStep < 2 && SirenSounds(s))
    && (s.sonarActive ==> if s.sonarInGap then InGap(s) else PingSounds(s))
    && (!s.alarmActive && !s.sonarActive ==> !s.running)
  }

  /** The siren's notes and the ping are three different tones, none silent. */
  lemma {:induction false} TonesDiffer()
    ensures Period(A1) == 2271 && Period(C2) == 1911 && Period(E2) == 1516
    ensures Pulse(A1) == 1135 && Pulse(C2) == 955 && Pulse(E2) == 758
  {
  }

  /** So the siren is heard exactly while its flag is set, and the ping or its gap while the other is. */
  lemma {:induction false} HeardIffActive(s: State)
    requires Tuned(s)
    ensures SirenSounds(s) <==> s.alarmActive
    ensures (PingSounds(s) || InGap(s)) <==> s.sonarActive
  {
    TonesDiffer();
    hide Period, Pulse;
  }

  /** Every operation the alarm and the sonar use keeps this. */
  lemma {:induction false} OperationsKeepTuned(s: State)
    requires Tuned(s)
    ensures Tuned(Stop(s)) && Tuned(StartAlarm(s)) && Tuned(StartSonar(s)) && Tuned(DurationElapsed(s))
  {
    hide Period, Pulse, Wrap;
    assert AlarmNote(0) == A1 && AlarmNote(1) == E2;
    var t := StartAlarm(s);
    assert t.arr == Period(AlarmNote(0)) && t.pulse == Pulse(AlarmNote(0));
    var d := DurationElapsed(s);
    if s.alarmActive && d.elapsedUs == 0 && d.alarmStep != s.alarmStep {
      assert d.arr == Period(AlarmNote(d.alarmStep)) && d.pulse == Pulse(AlarmNote(d.alarmStep));
    }
  }

  // ---------------------------------------------------------------- how long it lasts

  /** `r` timer periods into the siren's cycle. */
  ghost function SirenAt(s: State, r: nat): State {
    var on := s.(alarmActive := true, sonarActive := false, targetUs := 300_000, running := true);
    if r < 133 then on.(alarmStep := 0, arr := Period(A1), pulse := Pulse(A1), elapsedUs := 2272 * r)
    else on.(alarmStep := 1, arr := Period(E2), pulse := Pulse(E2), elapsedUs := 1517 * (r - 133))
  }

  /** `r` timer periods into the ping's cycle. */
  ghost function SonarAt(s: State, r: nat): State {
    var on := s.(alarmActive := false, sonarActive := true, running := true, arr := Period(C2));
    if r < 79 then on.(sonarInGap := false, pulse := Pulse(C2), targetUs := 150_000, elapsedUs := 1912 * r)
    else on.(sonarInGap := true, pulse := 0, targetUs := 850_000, elapsedUs := 1912 * (r - 79))
  }

  lemma {:induction false} SirenTick(s: State, r: nat)
    requires r < 331
    ensures DurationElapsed(SirenAt(s, r)) == SirenAt(s, if r == 330 then 0 else r + 1)
  {
    TonesDiffer();
    NoWrap(300_000);
    var t := SirenAt(s, r);
    NoWrap(t.arr + 1);
    NoWrap(t.elapsedUs + t.arr + 1);
    hide Period, Pulse, Wrap;
  }

  lemma {:induction false} SonarTick(s: State, r: nat)
    requires r < 524
    ensures DurationElapsed(SonarAt(s, r)) == SonarAt(s, if r == 523 then 0 else r + 1)
  {
    TonesDiffer();
    NoWrap(150_000);
    NoWrap(850_000);
    var t := SonarAt(s, r);
    NoWrap(t.arr + 1);
    NoWrap(t.elapsedUs + t.arr + 1);
    hide Period, Pulse, Wrap;
  }

  lemma {:induction false} NextIn331(n: nat)
    requires n > 0
    ensures var r := (n - 1) % 331; n % 331 == if r == 330 then 0 else r + 1
  {
  }

  lemma {:induction false} NextIn524(n: nat)
    requires n > 0
    ensures var r := (n - 1) % 524; n % 524 == if r == 523 then 0 else r + 1
  {
  }

  /**
    The siren repeats every 331 timer periods: 133 of A1 (302.176 ms), then 198 of E2
    (300.366 ms). Each note is held for at least its 300 ms and not one period longer than needed.
   */
  lemma {:induction false} SirenRhythm(s: State, n: nat)
    ensures Ticks(StartAlarm(s), n) == SirenAt(s, n % 331)
  {
    hide Wrap, Period, Pulse, DurationElapsed;
    if n == 0 {
      NoWrap(300_000);
    } else {
      SirenRhythm(s, n - 1);
      NextIn331(n);
      hide SirenAt;
      SirenTick(s, (n - 1) % 331);
    }
  }

  /** The ping repeats every 524 timer periods: 79 of C2 (151.048 ms), then 445 of silence (850.840 ms). */
  lemma {:induction false} SonarRhythm(s: State, n: nat)
    ensures Ticks(StartSonar(s), n) == SonarAt(s, n % 524)
  {
    hide Wrap, Period, Pulse, DurationElapsed;
    if n == 0 {
      NoWrap(150_000);
    } else {
      SonarRhythm(s, n - 1);
      NextIn524(n);
      hide SonarAt;
      SonarTick(s, (n - 1) % 524);
    }
  }

  lemma {:induction false} PeriodBound(note: Note)
    ensures 1011 <= Period(note) <= 3815
  {
  }

  lemma {:induction false} OneMorePeriod(n: nat, p: nat)
    requires n > 0
    ensures n * p == (n - 1) * p + p
  {
  }

  /** A single note sounds until it has lasted its time, at least one period, and then stops. */
  lemma {:induction false} SingleNote(s: State, note: Note, ms: nat, n: nat)
    requires ms * 1000 + 4000 < 0x1_0000_0000
    ensures var t := Ticks(PlayNote(s, note, ms), n);
            && !t.alarmActive && !t.sonarActive && t.arr == Period(note) && t.pulse == Pulse(note)
            && (t.running <==> n == 0 || n * (Period(note) + 1) < ms * 1000)
            && t.targetUs == ms * 1000 && (t.running ==> t.elapsedUs == n * (Period(note) + 1))
  {
    hide Wrap, Period, Pulse, DurationElapsed;
    NoWrap(ms * 1000);
    if n > 0 {
      SingleNote(s, note, ms, n - 1);
      PeriodBound(note);
      OneMorePeriod(n, Period(note) + 1);
      SingleNoteTick(Ticks(PlayNote(s, note, ms), n - 1));
    }
  }

  lemma {:induction false} SingleNoteTick(t: State)
    requires !t.alarmActive && !t.sonarActive && t.arr <= 3815
    requires t.targetUs + 4000 < 0x1_0000_0000 && (t.running ==> t.elapsedUs < t.targetUs || t.elapsedUs == 0)
    ensures var u := DurationElapsed(t);
            && !u.alarmActive && !u.sonarActive && u.arr == t.arr && u.pulse == t.pulse && u.targetUs == t.targetUs
            && (u.running <==> t.running && t.elapsedUs + t.arr + 1 < t.targetUs)
            && (u.running ==> u.elapsedUs == t.elapsedUs + t.arr + 1)
  {
    NoWrap(t.arr + 1);
    if t.running {
      NoWrap(t.elapsedUs + t.arr + 1);
    }
    hide Wrap;
  }

  // ---------------------------------------------------------------- the handle

  class BuzzerHandle {
    var elapsedUs: nat
    var targetUs: nat
    var alarmActive: bool
    var alarmStep: nat
    var sonarActive: bool
    var sonarInGap: bool
    var arr: nat
    var pulse: nat
    var running: bool

    constructor ()
      ensures View() == State(0, 0, false, 0, false, false, 0, 0, false)
    {
      elapsedUs, targetUs, arr, pulse, running := 0, 0, 0, 0, false;
      alarmActive, alarmStep, sonarActive, sonarInGap := false, 0, false, false;
    }

    ghost function View(): State
      reads this
    {
      State(elapsedUs, targetUs, alarmActive, alarmStep, sonarActive, sonarInGap, arr, pulse, running)
    }

    method Arm(note: Note, ms: nat)
      modifies this
      ensures View() == ArmNote(old(View()), note, ms)
    {
      elapsedUs := 0;
      targetUs := Wrap(ms * 1000);
      arr := Period(note);
      pulse := Pulse(note);
      running := true;
    }

    method Silence(ms: nat)
      modifies this
      ensures View() == ArmGap(old(View()), ms)
    {
      elapsedUs := 0;
      targetUs := Wrap(ms * 1000);
      pulse := 0;
    }

    method Play(note: Note, ms: nat)
      modifies this
      ensures View() == PlayNote(old(View()), note, ms)
    {
      alarmActive := false;
      sonarActive := false;
      Arm(note, ms);
    }

    method Halt()
      modifies this
      ensures View() == Stop(old(View()))
    {
      alarmActive := false;
      sonarActive := false;
      running := false;
    }

    method SoundAlarm()
      modifies this
      ensures View() == StartAlarm(old(View()))
    {
      alarmActive := true;
      sonarActive := false;
      alarmStep := 0;
      Arm(A1, ALARM_NOTE_MS);
    }

    method SoundSonar()
      modifies this
      ensures View() == StartSonar(old(View()))
    {
      alarmActive := false;
      sonarActive := true;
      sonarInGap := false;
      Arm(C2, SONAR_PING_MS);
    }

    method OnPeriod()
      modifies this
      ensures View() == DurationElapsed(old(View()))
    {
      hide Wrap, Period, Pulse;
      elapsedUs := Wrap(elapsedUs + Wrap(arr + 1));
      if elapsedUs < targetUs {
        return;
      }
      if alarmActive {
        alarmStep := if alarmStep == 0 then 1 else 0;
        Arm(AlarmNote(alarmStep), ALARM_NOTE_MS);
      } else if sonarActive {
        if sonarInGap {
          sonarInGap := false;
          Arm(C2, SONAR_PING_MS);
        } else {
          sonarInGap := true;
          Silence(SONAR_GAP_MS);
        }
      } else {
        running := false;
      }
    }
  }
}
