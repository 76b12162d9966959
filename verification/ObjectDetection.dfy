/**
  Object detection: an interrupt filters infrared edges first by spacing, on a counter that
  another driver zeroes at will, then by density, and a task turns confirmed bursts and
  timeouts into "detected" and "cleared" events.
 */
module ObjectDetection {
  import opened Bytes

  const BURST_WINDOW_MS: nat := 60
  const BURST_THRESHOLD: nat := 80
  const MIN_EDGE_SPACING_US: nat := 300

  datatype Filter = Filter(lastEdgeUs: Word32, burstFirstEdgeTick: Word32, burstEdgeCount: Word32)

  datatype Edge = TooFast | Rebased | Accepted(confirmed: bool)

  /** What one edge does to the filter, given the two counter readings. */
  function OnEdge(f: Filter, nowUs: Word32, nowTick: Word32): (Filter, Edge) {
    if nowUs < f.lastEdgeUs then (f.(lastEdgeUs := nowUs), Rebased)
    else if nowUs - f.lastEdgeUs < MIN_EDGE_SPACING_US then (f, TooFast)
    else
      var g := if Wrap(nowTick - f.burstFirstEdgeTick) > BURST_WINDOW_MS
               then Filter(nowUs, nowTick, 1)
               else Filter(nowUs, f.burstFirstEdgeTick, Wrap(f.burstEdgeCount + 1));
      (g, Accepted(g.burstEdgeCount >= BURST_THRESHOLD))
  }

  datatype Event = Detected | Cleared

  class ObjectDetector {
    var present: bool
    var lastEdgeUs: Word32
    var burstFirstEdgeTick: Word32
    var burstEdgeCount: Word32
    var edgeFlag: bool
    var timeoutFlag: bool

    ghost function Filtering(): Filter
      reads this
    {
      Filter(lastEdgeUs, burstFirstEdgeTick, burstEdgeCount)
    }

    constructor ()
      ensures !present && !edgeFlag && !timeoutFlag && Filtering() == Filter(0, 0, 0)
    {
      present, edgeFlag, timeoutFlag := false, false, false;
      lastEdgeUs, burstFirstEdgeTick, burstEdgeCount := 0, 0, 0;
    }

    /** The interrupt handler; `refreshed` says whether it restarted the presence timer. */
    method OnEdgeInterrupt(nowUs: Word32, nowTick: Word32) returns (refreshed: bool)
      modifies `lastEdgeUs, `burstFirstEdgeTick, `burstEdgeCount, `edgeFlag
      ensures Filtering() == OnEdge(old(Filtering()), nowUs, nowTick).0
      ensures refreshed <==> OnEdge(old(Filtering()), nowUs, nowTick).1 == Accepted(true)
      ensures edgeFlag == (old(edgeFlag) || (refreshed && !present))
    {
      refreshed := false;
      if nowUs < lastEdgeUs {
        lastEdgeUs := nowUs;
        return;
      }
      if nowUs - lastEdgeUs < MIN_EDGE_SPACING_US {
        return;
      }
      lastEdgeUs := nowUs;
      if Wrap(nowTick - burstFirstEdgeTick) > BURST_WINDOW_MS {
        burstFirstEdgeTick := nowTick;
        burstEdgeCount := 1;
      } else {
        burstEdgeCount := Wrap(burstEdgeCount + 1);
      }
      if burstEdgeCount < BURST_THRESHOLD {
        return;
      }
      refreshed := true;
      if !present {
        edgeFlag := true;
      }
    }

    method OnTimeoutInterrupt()
      modifies `timeoutFlag
      ensures timeoutFlag
    {
      timeoutFlag := true;
    }

    /** One turn of the task's loop once some flag is set; returns the events it raised, in order. */
    method TaskTurn() returns (events: seq<Event>)
      modifies this
      ensures !edgeFlag && !timeoutFlag && Filtering() == old(Filtering())
      ensures (present, events) == Turn(old(present), old(edgeFlag), old(timeoutFlag))
    {
      var edge, timeout := edgeFlag, timeoutFlag;
      edgeFlag, timeoutFlag := false, false;
      events := [];
      if edge && !present {
        present := true;
        events := [Detected];
      }
      assert events + [] == events;
      if timeout && present {
        present := false;
        events := events + [Cleared];
      }
    }
  }

  /** The two tests of a turn, one after the other. */
  function SeeEdge(present: bool, edge: bool): (bool, seq<Event>) {
    if edge && !present then (true, [Detected]) else (present, [])
  }

  function SeeTimeout(present: bool, timeout: bool): (bool, seq<Event>) {
    if timeout && present then (false, [Cleared]) else (present, [])
  }

  function Turn(present: bool, edge: bool, timeout: bool): (bool, seq<Event>) {
    var (seen, first) := SeeEdge(present, edge);
    var (after, second) := SeeTimeout(seen, timeout);
    (after, first + second)
  }

  // ---------------------------------------------------------------- the detector in real time

  /**
    The detector and its surroundings. `time` and `ticks` are true clocks that never wrap;
    the detector sees `tim2`, which wraps and is zeroed at arbitrary moments, and
    `Wrap(ticks)`. The task is waiting, or before the first or the second test of its turn;
    interrupts may come at any of these points.
   */
  datatype World = World(
    filter: Filter, present: bool, edgeFlag: bool, timeoutFlag: bool, task: Task,
    time: nat, tim2: Word32, ticks: nat,
    log: Log)

  datatype Task = Idle | Woken(edge: bool, timeout: bool) | HalfDone(timeout: bool)

  /** True times and ticks of every accepted edge, where the current burst began, and what was raised. */
  datatype Log = Log(times: seq<nat>, ticks: seq<nat>, burstStart: nat, burstTick: nat,
                     refreshes: nat, events: seq<Event>)

  function Boot(time: nat, tim2: Word32): World {
    World(Filter(0, 0, 0), false, false, false, Idle, time, tim2, 0, Log([], [], 0, 0, 0, []))
  }

  datatype Step = Elapse(us: nat) | ZeroTim2 | TickBy(n: nat) | EdgeInterrupt | TimeoutInterrupt | Wake | Act

  function Do(w: World, s: Step): World {
    match s
    case Elapse(us) => w.(time := w.time + us, tim2 := Wrap(w.tim2 + us))
    case ZeroTim2 => w.(tim2 := 0)
    case TickBy(n) => w.(ticks := w.ticks + n)
    case EdgeInterrupt =>
      var (g, edge) := OnEdge(w.filter, w.tim2, Wrap(w.ticks));
      var w' := w.(filter := g, log := Recorded(w.log, w, edge));
      w'.(edgeFlag := w.edgeFlag || (edge == Accepted(true) && !w.present))
    case TimeoutInterrupt => w.(timeoutFlag := true)
    case Wake =>
      if w.task == Idle && (w.edgeFlag || w.timeoutFlag)
      then w.(task := Woken(w.edgeFlag, w.timeoutFlag), edgeFlag := false, timeoutFlag := false)
      else w
    case Act =>
      match w.task
      case Idle => w
      case Woken(edge, timeout) =>
        var (present, events) := SeeEdge(w.present, edge);
        w.(task := HalfDone(timeout), present := present, log := w.log.(events := w.log.events + events))
      case HalfDone(timeout) =>
        var (present, events) := SeeTimeout(w.present, timeout);
        w.(task := Idle, present := present, log := w.log.(events := w.log.events + events))
  }

  function Recorded(l: Log, w: World, edge: Edge): Log {
    if !edge.Accepted? then l
    else
      var begins := Wrap(Wrap(w.ticks) - w.filter.burstFirstEdgeTick) > BURST_WINDOW_MS;
      l.(times := l.times + [w.time], ticks := l.ticks + [w.ticks],
         burstStart := if begins then |l.times| else l.burstStart,
         burstTick := if begins then w.ticks else l.burstTick,
         refreshes := if edge.confirmed then l.refreshes + 1 else l.refreshes)
  }

  function Run(w: World, steps: seq<Step>): World {
    if steps == [] then w else Do(Run(w, steps[..|steps| - 1]), steps[|steps| - 1])
  }

  /** A moment some run from some boot gets to. */
  ghost predicate Reachable(w: World) {
    exists time, tim2, steps :: Run(Boot(time, tim2), steps) == w
  }

  // ---------------------------------------------------------------- spacing

  /** The shared counter never shows more than the true time since the last accepted edge. */
  ghost predicate Spaced(w: World) {
    var t := w.log.times;
    && (forall i :: 0 <= i < |t| ==> t[i] <= w.time)
    && Apart(t)
    && (t != [] ==> w.tim2 - w.filter.lastEdgeUs <= w.time - t[|t| - 1])
  }

  ghost predicate Apart(t: seq<nat>) {
    forall i, j :: 0 <= i <= j < |t| ==> t[j] - t[i] >= MIN_EDGE_SPACING_US * (j - i)
  }

  lemma {:induction false} OneMoreApart(t: seq<nat>, time: nat)
    requires Apart(t) && (t != [] ==> time - t[|t| - 1] >= MIN_EDGE_SPACING_US)
    ensures Apart(t + [time])
  {
    var n := |t|;
    forall i, j | 0 <= i <= j < n + 1
      ensures (t + [time])[j] - (t + [time])[i] >= MIN_EDGE_SPACING_US * (j - i)
    {
      if i < j == n {
        assert t[n - 1] - t[i] >= MIN_EDGE_SPACING_US * (n - 1 - i);
      }
    }
  }

  lemma {:induction false} StepKeepsSpaced(w: World, s: Step)
    requires Spaced(w)
    ensures Spaced(Do(w, s))
  {
    hide Apart;
    match s
    case Elapse(us) =>
      assert Wrap(w.tim2 + us) <= w.tim2 + us;
    case EdgeInterrupt =>
      if OnEdge(w.filter, w.tim2, Wrap(w.ticks)).1.Accepted? {
        OneMoreApart(w.log.times, w.time);
      }
    case _ =>
  }

  lemma {:induction false} RunKeepsSpaced(w: World, steps: seq<Step>)
    requires Spaced(w)
    ensures Spaced(Run(w, steps))
  {
    hide Spaced, Do;
    if steps != [] {
      RunKeepsSpaced(w, steps[..|steps| - 1]);
      StepKeepsSpaced(Run(w, steps[..|steps| - 1]), steps[|steps| - 1]);
    }
  }

  /**
    However the shared counter is zeroed or wraps, accepted edges are at least 300 us apart
    in real time, so any n of them in a row span at least (n - 1) * 300 us.
   */
  lemma {:induction false} AcceptedEdgesAreSpaced(w: World, i: nat, j: nat)
    requires Reachable(w) && i <= j < |w.log.times|
    ensures w.log.times[i] + 300 * (j - i) <= w.log.times[j]
  {
    hide Run;
    var time, tim2, steps :| Run(Boot(time, tim2), steps) == w;
    RunKeepsSpaced(Boot(time, tim2), steps);
  }

  // ---------------------------------------------------------------- bursts

  /** The edge counter is the number of edges accepted since the burst began, modulo 2^32. */
  ghost predicate Counted(w: World) {
    var l := w.log;
    && |l.times| == |l.ticks|
    && l.burstStart <= |l.times| && (l.times != [] ==> l.burstStart < |l.times|)
    && w.filter.burstEdgeCount == Wrap(|l.times| - l.burstStart)
    && w.filter.burstFirstEdgeTick == Wrap(l.burstTick)
    && l.burstTick <= w.ticks
    && (forall i :: 0 <= i < |l.ticks| ==> l.ticks[i] <= w.ticks)
    && (forall i :: l.burstStart <= i < |l.ticks| ==> l.burstTick <= l.ticks[i])
    && (l.ticks == [] ==> l.burstTick == 0)
  }

  lemma {:induction false} StepKeepsCounted(w: World, s: Step)
    requires Counted(w)
    ensures Counted(Do(w, s))
  {
    if s.EdgeInterrupt? {
      EdgeKeepsCounted(w);
    } else {
      OtherStepsKeepCounted(w, s);
    }
    hide Counted, Do;
  }

  lemma {:induction false} OtherStepsKeepCounted(w: World, s: Step)
    requires !s.EdgeInterrupt? && Counted(w)
    ensures Counted(Do(w, s))
  {
    hide Wrap;
  }

  lemma {:induction false} EdgeKeepsCounted(w: World)
    requires Counted(w)
    ensures Counted(Do(w, EdgeInterrupt))
  {
    var l := w.log;
    CountWraps(|l.times| - l.burstStart);
    NoWrap(1);
    hide Wrap;
  }

  lemma {:induction false} CountWraps(n: nat)
    ensures Wrap(Wrap(n) + 1) == Wrap(n + 1)
  {
  }

  // ---------------------------------------------------------------- the burst window

  /** Every edge counted into the present burst came within the window of the burst's first tick. */
  ghost predicate Windowed(w: World) {
    forall i :: w.log.burstStart <= i < |w.log.ticks| ==> w.log.ticks[i] - w.log.burstTick <= 60
  }

  /** An accepted edge that comes a whole turn of the tick counter late, and so looks in time. */
  predicate JoinsStale(w: World, s: Step) {
    && s.EdgeInterrupt? && OnEdge(w.filter, w.tim2, Wrap(w.ticks)).1.Accepted?
    && w.ticks - w.log.burstTick >= 0x1_0000_0000
    && (w.ticks - w.log.burstTick) % 0x1_0000_0000 <= 60
  }

  lemma {:induction false} WrappedDifference(a: nat, b: nat)
    ensures Wrap(Wrap(a) - Wrap(b)) == Wrap(a - b)
  {
  }

  /** One step keeps a burst in its window exactly when it is no edge that joins stale. */
  lemma {:induction false} WindowKeptIff(w: World, s: Step)
    requires Counted(w) && Windowed(w)
    ensures Windowed(Do(w, s)) <==> !JoinsStale(w, s)
  {
    var late := w.ticks - w.log.burstTick;
    WrappedDifference(w.ticks, w.log.burstTick);
    assert Wrap(late) == late % 0x1_0000_0000;
    if late < 0x1_0000_0000 {
      NoWrap(late);
    }
    hide Wrap;
    var n, l' := |w.log.ticks|, Do(w, s).log;
    if s.EdgeInterrupt? && OnEdge(w.filter, w.tim2, Wrap(w.ticks)).1.Accepted? {
      assert l'.ticks[n] == w.ticks;
      assert forall i :: 0 <= i < n ==> l'.ticks[i] == w.log.ticks[i];
    }
  }

  /** The edges of the present burst all looked in time, and no later edge is older. */
  ghost predicate Joined(l: Log) {
    && (forall i :: l.burstStart <= i < |l.ticks| ==> Wrap(l.ticks[i] - l.burstTick) <= BURST_WINDOW_MS)
    && (forall i :: 0 <= i < |l.ticks| ==> l.ticks[i] <= l.ticks[|l.ticks| - 1])
    && (l.burstStart < |l.ticks| ==> l.ticks[l.burstStart] == l.burstTick || l.burstStart == l.burstTick == 0)
  }

  lemma {:induction false} StepKeepsJoined(w: World, s: Step)
    requires Counted(w) && Joined(w.log)
    ensures Joined(Do(w, s).log)
  {
    hide Joined;
    if s.EdgeInterrupt? {
      EdgeKeepsJoined(w.log, w, OnEdge(w.filter, w.tim2, Wrap(w.ticks)).1);
    } else {
      OtherStepsRecordNothing(w, s);
    }
  }

  lemma {:induction false} OtherStepsRecordNothing(w: World, s: Step)
    requires !s.EdgeInterrupt? && Joined(w.log)
    ensures Joined(Do(w, s).log)
  {
    hide Wrap;
  }

  lemma {:induction false} EdgeKeepsJoined(l: Log, w: World, edge: Edge)
    requires Counted(w) && w.log == l && Joined(l)
    ensures Joined(Recorded(l, w, edge))
  {
    WrappedDifference(w.ticks, l.burstTick);
    NoWrap(0);
    hide Wrap;
    var n, l' := |l.ticks|, Recorded(l, w, edge);
    if edge.Accepted? {
      assert l'.ticks[n] == w.ticks;
      assert forall i :: 0 <= i < n ==> l'.ticks[i] == l.ticks[i];
    }
  }

  ghost predicate BurstInv(w: World) {
    Counted(w) && Joined(w.log)
  }

  lemma {:induction false} RunKeepsBurstInv(w: World, steps: seq<Step>)
    requires BurstInv(w)
    ensures BurstInv(Run(w, steps))
  {
    hide Counted, Joined, Do;
    if steps != [] {
      var before := Run(w, steps[..|steps| - 1]);
      RunKeepsBurstInv(w, steps[..|steps| - 1]);
      StepKeepsCounted(before, steps[|steps| - 1]);
      StepKeepsJoined(before, steps[|steps| - 1]);
    }
  }

  /** A burst is within its window exactly when its last edge came less than 2^32 ticks after its first tick. */
  lemma {:induction false} WindowedIffShort(w: World)
    requires BurstInv(w) && w.log.ticks != []
    ensures Windowed(w) <==> w.log.ticks[|w.log.ticks| - 1] - w.log.burstTick < 0x1_0000_0000
  {
    var l := w.log;
    if l.ticks[|l.ticks| - 1] - l.burstTick < 0x1_0000_0000 {
      forall i | l.burstStart <= i < |l.ticks| ensures l.ticks[i] - l.burstTick <= BURST_WINDOW_MS {
        NoWrap(l.ticks[i] - l.burstTick);
      }
    }
  }

  /**
    An accepted edge restarts the presence timer exactly when it is at least the eightieth of
    its burst, counted modulo 2^32; and it belongs to the burst before it exactly when, modulo
    2^32, it comes at most 60 ticks after that burst's first tick.
   */
  lemma {:induction false} ConfirmedIffEighty(w: World)
    requires Reachable(w) && OnEdge(w.filter, w.tim2, Wrap(w.ticks)).1.Accepted?
    ensures var l := Do(w, EdgeInterrupt).log;
            && (OnEdge(w.filter, w.tim2, Wrap(w.ticks)).1.confirmed <==>
                  (|l.times| - l.burstStart) % 0x1_0000_0000 >= 80)
            && l.times == w.log.times + [w.time]
            && (if (w.ticks - w.log.burstTick) % 0x1_0000_0000 <= 60
                then l.burstStart == w.log.burstStart && l.burstTick == w.log.burstTick
                else l.burstStart == |w.log.times| && l.burstTick == w.ticks)
  {
    hide Joined, Run;
    var time, tim2, steps :| Run(Boot(time, tim2), steps) == w;
    BootJoined(time, tim2);
    RunKeepsBurstInv(Boot(time, tim2), steps);
    CountWraps(|w.log.times| - w.log.burstStart);
    WrappedDifference(w.ticks, w.log.burstTick);
  }

  // ---------------------------------------------------------------- no edge is lost without cause

  /** Time and ticks go by; nothing zeroes the shared counter and no edge comes. */
  ghost predicate Quiet(steps: seq<Step>) {
    forall i :: 0 <= i < |steps| ==> !steps[i].ZeroTim2? && !steps[i].EdgeInterrupt?
  }

  /** Until it wraps, the shared counter then shows the true time. */
  lemma {:induction false} QuietRun(w: World, steps: seq<Step>)
    requires Quiet(steps)
    ensures var w' := Run(w, steps);
            && w'.time >= w.time && w'.filter == w.filter
            && (w.tim2 + (w'.time - w.time) < 0x1_0000_0000 ==> w'.tim2 == w.tim2 + (w'.time - w.time))
  {
    if steps != [] {
      var front := steps[..|steps| - 1];
      QuietRun(w, front);
      var v := Run(w, front);
      if steps[|steps| - 1].Elapse? {
        var us := steps[|steps| - 1].us;
        if v.tim2 + us < 0x1_0000_0000 {
          NoWrap(v.tim2 + us);
        }
      }
      hide Wrap;
    }
  }

  /**
    After an edge, whatever became of it, the next is accepted if it comes at least 300 us
    later with no zeroing or wrap between; so a zeroing costs at most the one edge after it.
    If the first was not too fast, the next is accepted only then.
   */
  lemma {:induction false} NextEdgeAccepted(w: World, steps: seq<Step>)
    requires Quiet(steps)
    requires w.tim2 + (Run(Do(w, EdgeInterrupt), steps).time - w.time) < 0x1_0000_0000
    ensures var w' := Run(Do(w, EdgeInterrupt), steps);
            var accepted := OnEdge(w'.filter, w'.tim2, Wrap(w'.ticks)).1.Accepted?;
            && (w'.time - w.time >= 300 ==> accepted)
            && (OnEdge(w.filter, w.tim2, Wrap(w.ticks)).1 != TooFast ==> (accepted <==> w'.time - w.time >= 300))
  {
    hide Run, Wrap;
    QuietRun(Do(w, EdgeInterrupt), steps);
  }

  /** A confirmed burst seen while absent raises one detection, once the task has woken and taken its turn. */
  lemma {:induction false} ConfirmedBurstIsDetected(w: World)
    requires !w.present && w.task == Idle && OnEdge(w.filter, w.tim2, Wrap(w.ticks)).1 == Accepted(true)
    ensures var w' := Do(Do(Do(w, EdgeInterrupt), Wake), Act);
            w'.present && w'.log.events == w.log.events + [Detected]
  {
    hide Wrap;
  }

  /** A timeout while present, with no confirmed burst pending, raises one clearance. */
  lemma {:induction false} TimeoutIsCleared(w: World)
    requires w.present && w.task == Idle
    ensures var w' := Do(Do(Do(Do(w, TimeoutInterrupt), Wake), Act), Act);
            !w'.present && w'.task == Idle && w'.log.events == w.log.events + [Cleared]
  {
    hide Wrap;
    assert w.log.events + [] == w.log.events;
  }

  /**
    When an edge restarts the presence timer, at least 80 accepted edges, spread over at
    least 79 * 300 us, have arrived since the burst began; and all of them are within 60 ticks
    of the burst's first tick exactly when that tick is less than 2^32 ticks ago.
   */
  lemma {:induction false} BurstIsConfirmed(w: World)
    requires Reachable(w) && OnEdge(w.filter, w.tim2, Wrap(w.ticks)).1 == Accepted(true)
    ensures var l := Do(w, EdgeInterrupt).log;
            var n := |l.times|;
            && n == |l.ticks| && n - l.burstStart >= 80
            && l.times[n - 1] == w.time
            && l.times[l.burstStart] + 300 * 79 <= l.times[n - 1]
            && ((forall i :: l.burstStart <= i < n ==> l.burstTick <= l.ticks[i] <= l.burstTick + 60)
                <==> w.ticks - l.burstTick < 0x1_0000_0000)
  {
    hide Joined, Windowed, Run, Apart;
    var w' := Do(w, EdgeInterrupt);
    var time, tim2, steps :| Run(Boot(time, tim2), steps) == w;
    BootJoined(time, tim2);
    RunKeepsBurstInv(Boot(time, tim2), steps);
    StepKeepsCounted(w, EdgeInterrupt);
    StepKeepsJoined(w, EdgeInterrupt);
    WindowedIffShort(w');
    WindowedBounds(w');
    RunKeepsSpaced(Boot(time, tim2), steps);
    StepKeepsSpaced(w, EdgeInterrupt);
    SpanOf(w'.log.times, w'.log.burstStart);
  }

  /** Ticks between accepted edges stay below the wrap of the tick counter, less the window. */
  ghost predicate ShortGaps(ticks: seq<nat>) {
    && (ticks != [] ==> ticks[0] < 0x1_0000_0000 - 60)
    && forall i :: 0 < i < |ticks| ==> ticks[i] < ticks[i - 1] + (0x1_0000_0000 - 60)
  }

  /** Gaps below 2^32 - 60 ticks are enough for every burst to stay in its window. */
  lemma {:induction false} ShortGapsKeepWindow(w: World)
    requires Reachable(w) && ShortGaps(w.log.ticks)
    ensures Windowed(w)
  {
    var time, tim2, steps :| Run(Boot(time, tim2), steps) == w;
    BootJoined(time, tim2);
    RunKeepsBurstInv(Boot(time, tim2), steps);
    hide ShortGaps, BurstInv, Reachable;
    forall i | w.log.burstStart <= i < |w.log.ticks| ensures w.log.ticks[i] - w.log.burstTick <= 60 {
      EdgeInWindow(w, i);
    }
  }

  lemma {:induction false} EdgeInWindow(w: World, i: nat)
    requires BurstInv(w) && ShortGaps(w.log.ticks) && w.log.burstStart <= i < |w.log.ticks|
    ensures w.log.ticks[i] - w.log.burstTick <= 60
    decreases i
  {
    if i > w.log.burstStart {
      EdgeInWindow(w, i - 1);
    }
    NoWrap(w.log.ticks[i] - w.log.burstTick);
  }

  lemma {:induction false} SpanOf(t: seq<nat>, start: nat)
    requires Apart(t) && start + BURST_THRESHOLD <= |t|
    ensures t[|t| - 1] - t[start] >= MIN_EDGE_SPACING_US * (BURST_THRESHOLD - 1)
  {
  }

  lemma {:induction false} WindowedBounds(w: World)
    requires Counted(w)
    ensures var l := w.log;
            Windowed(w) <==>
              forall i :: l.burstStart <= i < |l.ticks| ==> l.burstTick <= l.ticks[i] <= l.burstTick + BURST_WINDOW_MS
  {
  }

  lemma {:induction false} BootJoined(time: nat, tim2: Word32)
    ensures BurstInv(Boot(time, tim2)) && Windowed(Boot(time, tim2)) && Spaced(Boot(time, tim2))
  {
  }

  /** The world after the first `n` steps of a run. */
  ghost function After(start: World, steps: seq<Step>, n: nat): World
    requires n <= |steps|
  {
    Run(start, steps[..n])
  }

  lemma {:induction false} AfterFront(start: World, steps: seq<Step>)
    requires steps != []
    ensures var m := |steps| - 1;
            && (forall n :: 0 <= n <= m ==> After(start, steps[..m], n) == After(start, steps, n))
            && After(start, steps, m) == Run(start, steps[..m])
            && After(start, steps, m + 1) == Do(Run(start, steps[..m]), steps[m])
  {
    hide Do;
    var m := |steps| - 1;
    assert forall n :: 0 <= n <= m ==> steps[..m][..n] == steps[..n];
    assert steps[..m + 1] == steps;
  }

  /** Through a whole run every burst stays in its window exactly when no edge joins stale. */
  lemma {:induction false} AlwaysWindowedIff(time: nat, tim2: Word32, steps: seq<Step>)
    ensures var start := Boot(time, tim2);
            (forall n :: 0 <= n <= |steps| ==> Windowed(After(start, steps, n)))
            <==> (forall n :: 0 <= n < |steps| ==> !JoinsStale(After(start, steps, n), steps[n]))
    decreases |steps|
  {
    hide Windowed, JoinsStale, Do, BurstInv, Run, After;
    var start := Boot(time, tim2);
    BootJoined(time, tim2);
    if steps == [] {
      AfterNothing(start);
    } else {
      var m := |steps| - 1;
      var front := steps[..m];
      AlwaysWindowedIff(time, tim2, front);
      RunKeepsBurstInv(start, front);
      BurstInvCounted(Run(start, front));
      AfterFront(start, steps);
      if Windowed(After(start, steps, m)) {
        WindowKeptIff(After(start, steps, m), steps[m]);
      }
      assert (forall n :: 0 <= n < m ==> !JoinsStale(After(start, front, n), front[n]))
             <==> (forall n :: 0 <= n < m ==> !JoinsStale(After(start, steps, n), steps[n]));
    }
  }

  lemma {:induction false} AfterNothing(start: World)
    ensures After(start, [], 0) == start
  {
  }

  lemma {:induction false} BurstInvCounted(w: World)
    requires BurstInv(w)
    ensures Counted(w)
  {
  }

  lemma {:induction false} Then(w: World, s: Step) returns (w': World)
    requires Reachable(w)
    ensures w' == Do(w, s) && Reachable(w')
  {
    hide Do;
    var time, tim2, steps :| Run(Boot(time, tim2), steps) == w;
    assert (steps + [s])[..|steps|] == steps;
    w' := Do(w, s);
    assert Run(Boot(time, tim2), steps + [s]) == w';
  }

  /** Stale joins happen: an edge 60 ticks into a burst, then 2^32 - 60 ticks of silence, then one more. */
  lemma {:induction false} LongGapJoinsOldBurst()
    ensures exists w :: && Reachable(w) && w.log.ticks == [60, 0x1_0000_0000]
                        && w.log.burstStart == 0 && w.filter.burstEdgeCount == 2
  {
    var w := FirstEdge();
    hide Reachable;
    w := Then(w, TickBy(0x1_0000_0000 - 60));
    w := Then(w, Elapse(300));
    assert w.ticks == 0x1_0000_0000 && Wrap(w.ticks) == 0 && w.tim2 == 600;
    w := Then(w, EdgeInterrupt);
    assert w.log.ticks == [60] + [0x1_0000_0000];
  }

  lemma {:induction false} FirstEdge() returns (w: World)
    ensures Reachable(w) && w.filter == Filter(300, 0, 1) && w.ticks == 60 && w.tim2 == 300
    ensures w.log.ticks == [60] && w.log.burstStart == 0
  {
    w := Boot(0, 0);
    assert Run(w, []) == w;
    assert Reachable(w);
    hide Reachable;
    w := Then(w, TickBy(60));
    w := Then(w, Elapse(300));
    assert w.ticks == 60 && Wrap(w.ticks) == 60 && w.tim2 == 300;
    w := Then(w, EdgeInterrupt);
  }

  // ---------------------------------------------------------------- events

  function EventAt(i: nat): Event {
    if i % 2 == 0 then Detected else Cleared
  }

  /** Events alternate, and each detection has a confirmed burst of its own. */
  ghost predicate Alternating(w: World) {
    && (forall i :: 0 <= i < |w.log.events| ==> w.log.events[i] == EventAt(i))
    && (w.present <==> |w.log.events| % 2 == 1)
    && (|w.log.events| + 1) / 2 + (if w.edgeFlag then 1 else 0)
         + (if w.task.Woken? && w.task.edge then 1 else 0) <= w.log.refreshes
  }

  lemma {:induction false} StepKeepsAlternating(w: World, s: Step)
    requires Alternating(w)
    ensures Alternating(Do(w, s))
  {
    var before, after := w.log.events, Do(w, s).log.events;
    if s == Act && |after| > |before| {
      assert after[|before|] == EventAt(|before|);
    }
  }

  /** In every run the events are detected, cleared, detected, ..., never more detections than confirmed bursts. */
  lemma {:induction false} EventsAlternate(w: World)
    requires Reachable(w)
    ensures Alternating(w)
  {
    hide Run, Alternating;
    var time, tim2, steps :| Run(Boot(time, tim2), steps) == w;
    assert Alternating(Boot(time, tim2)) by { BootAlternates(time, tim2); }
    RunKeepsAlternating(Boot(time, tim2), steps);
  }

  lemma {:induction false} BootAlternates(time: nat, tim2: Word32)
    ensures Alternating(Boot(time, tim2))
  {
  }

  lemma {:induction false} RunKeepsAlternating(w: World, steps: seq<Step>)
    requires Alternating(w)
    ensures Alternating(Run(w, steps))
  {
    hide Alternating, Do;
    if steps != [] {
      RunKeepsAlternating(w, steps[..|steps| - 1]);
      StepKeepsAlternating(Run(w, steps[..|steps| - 1]), steps[|steps| - 1]);
    }
  }
}
