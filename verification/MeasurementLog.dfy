/**
  The LNC's measurement log: one file per weekday slot, restarted when the slot changes,
  and a range query that searches all seven files.

  A day is counted from some Monday; the clock is assumed to give the right weekday. File
  operations are assumed to succeed.
 */
module MeasurementLog {
  import opened Bytes
  import opened Timestamps
  import opened KeyOrder

  /** One stored line and the calendar day and time it was written. */
  datatype Entry = Entry(day: nat, stamp: Stamp, line: Text)

  /** The files survive a reboot; `last`, the slot last written, does not. Slot 0 is never used. */
  datatype LogState = LogState(last: nat, files: seq<seq<Entry>>)

  ghost predicate Shaped(s: LogState) {
    |s.files| == 8 && s.last <= 7
  }

  /** The clock's weekday, Monday 1 to Sunday 7. */
  function WeekDay(day: nat): nat {
    day % 7 + 1
  }

  /** File slots run from Sunday 1 to Saturday 7. */
  function Slot(day: nat): (slot: nat)
    ensures 1 <= slot <= 7
  {
    WeekDay(day) % 7 + 1
  }

  function Write(s: LogState, e: Entry): (s': LogState)
    requires Shaped(s)
    ensures Shaped(s')
  {
    var slot := Slot(e.day);
    var kept := if slot != s.last then [] else s.files[slot];
    LogState(slot, s.files[slot := kept + [e]])
  }

  class Log {
    var lastWrittenDay: nat
    var files: seq<seq<Entry>>

    ghost function Abs(): LogState
      reads this
    {
      LogState(lastWrittenDay, files)
    }

    /** `log_create` on a card that already holds `stored`. */
    constructor (stored: seq<seq<Entry>>)
      requires |stored| == 8
      ensures Shaped(Abs()) && Abs() == LogState(0, stored)
    {
      lastWrittenDay, files := 0, stored;
    }

    method LogWrite(e: Entry)
      requires Shaped(Abs())
      modifies this
      ensures Shaped(Abs()) && Abs() == Write(old(Abs()), e)
    {
      var slot := WeekDay(e.day) % 7 + 1;
      if slot != lastWrittenDay {
        files := files[slot := []];
        lastWrittenDay := slot;
      }
      files := files[slot := files[slot] + [e]];
    }

    /** `log_on_frame`: the records offered to the transmitter, in order; an end marker follows them. */
    method LogOnFrame(request: seq<Byte>) returns (answered: bool, records: seq<Text>)
      requires Shaped(Abs())
      ensures answered <==> |request| == 12
      ensures answered ==> records == Matching(files, First(request), Last(request), 7)
      ensures answered && AllWritten(files) && FitRange(request) ==> records == AllInRange(files, request)
    {
      hide ParseLine, Key, First, Last, AllInRange, AllWritten, FitRange;
      records := [];
      if |request| != 12 {
        return false, records;
      }
      var startKey, endKey := Key(First(request)), Key(Last(request));
      var slot := 1;
      while slot <= 7
        invariant 1 <= slot <= 8
        invariant records == Matching(files, First(request), Last(request), slot - 1)
      {
        var i := 0;
        ghost var before := records;
        while i < |files[slot]|
          invariant 0 <= i <= |files[slot]|
          invariant records == before + MatchingLines(files[slot][..i], First(request), Last(request))
        {
          assert files[slot][..i + 1][..i] == files[slot][..i];
          var line := files[slot][i].line;
          var stamp := ParseLine(line);
          if stamp.Some? {
            var key := Key(stamp.value);
            if !(key < startKey || key > endKey) {
              records := records + [line];
            }
          }
          i := i + 1;
        }
        assert files[slot][..i] == files[slot];
        slot := slot + 1;
      }
      if AllWritten(files) && FitRange(request) {
        RequestSelects(files, request);
      }
      answered := true;
    }
  }

  function First(request: seq<Byte>): Stamp
    requires |request| == 12
  {
    Stamp(request[0], request[1], request[2], request[3], request[4], request[5])
  }

  function Last(request: seq<Byte>): Stamp
    requires |request| == 12
  {
    Stamp(request[6], request[7], request[8], request[9], request[10], request[11])
  }

  /** The lines of one file whose parsed key is in range. */
  function MatchingLines(file: seq<Entry>, first: Stamp, last: Stamp): seq<Text> {
    if file == [] then []
    else
      var e := file[|file| - 1];
      var p := ParseLine(e.line);
      MatchingLines(file[..|file| - 1], first, last) +
      if p.Some? && Key(first) <= Key(p.value) <= Key(last) then [e.line] else []
  }

  function Matching(files: seq<seq<Entry>>, first: Stamp, last: Stamp, slots: nat): seq<Text>
    requires slots < |files|
  {
    if slots == 0 then [] else Matching(files, first, last, slots - 1) + MatchingLines(files[slots], first, last)
  }

  /** A line as `log_write` builds it. */
  ghost predicate WellWritten(e: Entry) {
    Plain(e.stamp) && exists rest :: e.line == [OPEN] + (Format(e.stamp) + ([CLOSE] + rest))
  }

  /** Lines of a file that lie between two timestamps as text, as the Central Computer would compare them. */
  function LinesBetween(file: seq<Entry>, first: Stamp, last: Stamp): seq<Text> {
    if file == [] then []
    else
      var e := file[|file| - 1];
      LinesBetween(file[..|file| - 1], first, last) +
      if LexLe(Format(first), Format(e.stamp)) && LexLe(Format(e.stamp), Format(last)) then [e.line] else []
  }

  /** On its own lines, the query selects exactly those whose printed timestamp is in the printed range. */
  lemma {:induction false} QueryIsTextRange(file: seq<Entry>, first: Stamp, last: Stamp)
    requires Plain(first) && Plain(last)
    requires forall i :: 0 <= i < |file| ==> WellWritten(file[i])
    ensures MatchingLines(file, first, last) == LinesBetween(file, first, last)
    decreases |file|
  {
    hide ParseLine, Format, LexLe, Key;
    if file != [] {
      var e := file[|file| - 1];
      QueryIsTextRange(file[..|file| - 1], first, last);
      assert WellWritten(e);
      var rest :| e.line == [OPEN] + (Format(e.stamp) + ([CLOSE] + rest));
      ParseLineInvertsFormat(e.stamp, rest);
      TextOrderIsKeyOrder(first, e.stamp);
      TextOrderIsKeyOrder(e.stamp, last);
    }
  }

  // ---------------------------------------------------------------- requests with large fields

  ghost predicate AllWritten(files: seq<seq<Entry>>) {
    |files| == 8 && forall slot, i :: 0 <= slot < 8 && 0 <= i < |files[slot]| ==> WellWritten(files[slot][i])
  }

  /** The lines of a file whose stamps lie in the range field by field. */
  function LinesWithin(file: seq<Entry>, first: Stamp, last: Stamp): seq<Text> {
    if file == [] then []
    else
      var e := file[|file| - 1];
      LinesWithin(file[..|file| - 1], first, last) + if InFieldRange(first, e.stamp, last) then [e.line] else []
  }

  function Within(files: seq<seq<Entry>>, first: Stamp, last: Stamp, slots: nat): seq<Text>
    requires slots < |files|
  {
    if slots == 0 then [] else Within(files, first, last, slots - 1) + LinesWithin(files[slots], first, last)
  }

  lemma {:induction false} WrittenParses(e: Entry)
    requires WellWritten(e)
    ensures ParseLine(e.line) == Some(e.stamp) && Plain(e.stamp)
  {
    hide ParseLine, Format;
    var rest :| e.line == [OPEN] + (Format(e.stamp) + ([CLOSE] + rest));
    ParseLineInvertsFormat(e.stamp, rest);
  }

  ghost predicate Judged(first: Stamp, last: Stamp) {
    forall b | Plain(b) :: InKeyRange(first, b, last) <==> InFieldRange(first, b, last)
  }

  lemma {:induction false} FileWithin(file: seq<Entry>, first: Stamp, last: Stamp)
    requires Judged(first, last) && forall i :: 0 <= i < |file| ==> WellWritten(file[i])
    ensures MatchingLines(file, first, last) == LinesWithin(file, first, last)
  {
    hide WellWritten, ParseLine, Key, InFieldRange;
    if file != [] {
      var e := file[|file| - 1];
      FileWithin(file[..|file| - 1], first, last);
      WrittenParses(e);
      assert InKeyRange(first, e.stamp, last) <==> InFieldRange(first, e.stamp, last);
    }
  }

  lemma {:induction false} FilesWithin(files: seq<seq<Entry>>, first: Stamp, last: Stamp, slots: nat)
    requires AllWritten(files) && slots < 8 && Judged(first, last)
    ensures Matching(files, first, last, slots) == Within(files, first, last, slots)
  {
    hide WellWritten, MatchingLines, LinesWithin, Judged;
    if slots > 0 {
      FilesWithin(files, first, last, slots - 1);
      FileWithin(files[slots], first, last);
    }
  }

  /** The query answers for the range it was asked for. */
  ghost predicate Answers(files: seq<seq<Entry>>, first: Stamp, last: Stamp)
    requires |files| == 8
  {
    Matching(files, first, last, 7) == Within(files, first, last, 7)
  }

  /** A card whose only line is one written at `b`. */
  ghost function OneLine(b: Stamp): (files: seq<seq<Entry>>)
    requires Plain(b)
    ensures AllWritten(files)
  {
    var e := Entry(0, b, [OPEN] + (Format(b) + ([CLOSE] + [])));
    seq(8, slot => if slot == 1 then [e] else [])
  }

  lemma {:induction false} OneLineAnswers(b: Stamp, first: Stamp, last: Stamp, slots: nat)
    requires Plain(b) && 0 < slots < 8
    ensures (Matching(OneLine(b), first, last, slots) == []) <==> !InKeyRange(first, b, last)
    ensures (Within(OneLine(b), first, last, slots) == []) <==> !InFieldRange(first, b, last)
    decreases slots
  {
    hide ParseLine, Format, LexLe, Key, WellWritten;
    var files := OneLine(b);
    var e := files[1][0];
    assert [e][..0] == [];
    if slots == 1 {
      ParseLineInvertsFormat(b, []);
      assert MatchingLines([], first, last) == [] && LinesWithin([], first, last) == [];
    } else {
      OneLineAnswers(b, first, last, slots - 1);
    }
  }

  /**
    A request, whatever its bytes, is answered for the range it names, whatever the files hold,
    exactly when its range neither skips nor overruns.
   */
  lemma {:induction false} QueryAnswersIff(first: Stamp, last: Stamp)
    ensures (forall files | AllWritten(files) :: Answers(files, first, last))
            <==> !Skips(first, last) && !Overruns(first, last)
  {
    hide Skips, Overruns, Matching, Within, WellWritten, OneLine, InKeyRange, InFieldRange;
    RangeJudgedIff(first, last);
    if Judged(first, last) {
      forall files | AllWritten(files) ensures Answers(files, first, last) {
        FilesWithin(files, first, last, 7);
      }
    } else {
      var b :| Plain(b) && !(InKeyRange(first, b, last) <==> InFieldRange(first, b, last));
      OneLineAnswers(b, first, last, 7);
      assert !Answers(OneLine(b), first, last);
    }
  }

  // ---------------------------------------------------------------- a request's twelve bytes

  /** Six bytes for the start of the range and six for its end, whose range neither skips nor overruns. */
  ghost predicate FitRange(request: seq<Byte>)
    requires |request| == 12
  {
    var first := Stamp(request[0], request[1], request[2], request[3], request[4], request[5]);
    var last := Stamp(request[6], request[7], request[8], request[9], request[10], request[11]);
    !Skips(first, last) && !Overruns(first, last)
  }

  /** The lines whose year, month, date, hour, minute and second lie between the two groups of six, in this order. */
  function InRange(file: seq<Entry>, request: seq<Byte>): seq<Text>
    requires |request| == 12
  {
    if file == [] then []
    else
      var e := file[|file| - 1];
      var six := [e.stamp.year as int, e.stamp.month as int, e.stamp.date as int,
                  e.stamp.hour as int, e.stamp.min as int, e.stamp.sec as int];
      InRange(file[..|file| - 1], request)
      + if LexLe(request[..6], six) && LexLe(six, request[6..]) then [e.line] else []
  }

  /** Those of all seven files, Sunday's first. */
  function AllInRange(files: seq<seq<Entry>>, request: seq<Byte>): seq<Text>
    requires |request| == 12 && |files| == 8
  {
    InRange(files[1], request) + InRange(files[2], request) + InRange(files[3], request) + InRange(files[4], request)
    + InRange(files[5], request) + InRange(files[6], request) + InRange(files[7], request)
  }

  lemma {:induction false} WithinIsInRange(file: seq<Entry>, request: seq<Byte>)
    requires |request| == 12
    ensures LinesWithin(file, First(request), Last(request)) == InRange(file, request)
  {
    hide LexLe;
    if file != [] {
      WithinIsInRange(file[..|file| - 1], request);
      assert Fields(First(request)) == request[..6] && Fields(Last(request)) == request[6..];
    }
  }

  lemma {:induction false} SevenFiles(files: seq<seq<Entry>>, first: Stamp, last: Stamp)
    requires |files| == 8
    ensures Within(files, first, last, 7)
            == LinesWithin(files[1], first, last) + LinesWithin(files[2], first, last)
               + LinesWithin(files[3], first, last) + LinesWithin(files[4], first, last)
               + LinesWithin(files[5], first, last) + LinesWithin(files[6], first, last)
               + LinesWithin(files[7], first, last)
  {
    hide LinesWithin;
    assert Within(files, first, last, 1) == LinesWithin(files[1], first, last);
    assert Within(files, first, last, 2) == Within(files, first, last, 1) + LinesWithin(files[2], first, last);
    assert Within(files, first, last, 3) == Within(files, first, last, 2) + LinesWithin(files[3], first, last);
    assert Within(files, first, last, 4) == Within(files, first, last, 3) + LinesWithin(files[4], first, last);
    assert Within(files, first, last, 5) == Within(files, first, last, 4) + LinesWithin(files[5], first, last);
    assert Within(files, first, last, 6) == Within(files, first, last, 5) + LinesWithin(files[6], first, last);
    assert Within(files, first, last, 7) == Within(files, first, last, 6) + LinesWithin(files[7], first, last);
  }

  /** A request whose range is fit gets exactly the lines its twelve bytes name. */
  lemma {:induction false} RequestSelects(files: seq<seq<Entry>>, request: seq<Byte>)
    requires |request| == 12 && AllWritten(files) && FitRange(request)
    ensures Matching(files, First(request), Last(request), 7) == AllInRange(files, request)
  {
    var first, last := First(request), Last(request);
    RangeJudgedIff(first, last);
    FilesWithin(files, first, last, 7);
    SevenFiles(files, first, last);
    hide Skips, Overruns, Matching, Within, LinesWithin, InRange, WellWritten, First, Last;
    WithinIsInRange(files[1], request);
    WithinIsInRange(files[2], request);
    WithinIsInRange(files[3], request);
    WithinIsInRange(files[4], request);
    WithinIsInRange(files[5], request);
    WithinIsInRange(files[6], request);
    WithinIsInRange(files[7], request);
  }

  /** With day 0 a Monday, Sunday's lines are in file 1 and Saturday's in file 7. */
  lemma {:induction false} SlotOfWeekday(week: nat)
    ensures Slot(7 * week + 6) == 1 && Slot(7 * week) == 2 && Slot(7 * week + 1) == 3 && Slot(7 * week + 2) == 4
    ensures Slot(7 * week + 3) == 5 && Slot(7 * week + 4) == 6 && Slot(7 * week + 5) == 7
  {
    hide Slot;
    DayOfWeek(week, 0);
    DayOfWeek(week, 1);
    DayOfWeek(week, 2);
    DayOfWeek(week, 3);
    DayOfWeek(week, 4);
    DayOfWeek(week, 5);
    DayOfWeek(week, 6);
  }

  lemma {:induction false} DayOfWeek(week: nat, day: nat)
    requires day < 7
    ensures Slot(7 * week + day) == (day + 1) % 7 + 1
  {
    assert (7 * week + day) % 7 == day;
  }

  // ---------------------------------------------------------------- histories

  datatype Event = Wrote(entry: Entry) | Reboot

  function Apply(s: LogState, e: Event): (s': LogState)
    requires Shaped(s)
    ensures Shaped(s')
  {
    match e
    case Wrote(entry) => Write(s, entry)
    case Reboot => s.(last := 0)
  }

  /** The log after a history that begins with an empty card. */
  function Exec(h: seq<Event>): (s: LogState)
    ensures Shaped(s)
  {
    if h == [] then LogState(0, seq(8, _ => []))
    else Apply(Exec(h[..|h| - 1]), h[|h| - 1])
  }

  /** The day of the last write, if there was one. */
  function LastDay(h: seq<Event>): Option<nat> {
    if h == [] then None
    else match h[|h| - 1]
         case Wrote(e) => Some(e.day)
         case Reboot => LastDay(h[..|h| - 1])
  }

  /** No write since the last boot. */
  predicate JustBooted(h: seq<Event>) {
    h == [] || h[|h| - 1] == Reboot
  }

  /** Dates never go back. */
  ghost predicate Monotone(h: seq<Event>) {
    h != [] ==>
      && Monotone(h[..|h| - 1])
      && (h[|h| - 1].Wrote? && LastDay(h[..|h| - 1]).Some? ==>
            LastDay(h[..|h| - 1]).value <= h[|h| - 1].entry.day)
  }

  /** Write `j` restarts its file: it is the first since a boot, or the write before went to another slot. */
  ghost predicate Restarts(h: seq<Event>, j: nat)
    requires j < |h|
  {
    && h[j].Wrote?
    && (j == 0 || h[j - 1] == Reboot || Slot(h[j - 1].entry.day) != Slot(h[j].entry.day))
  }

  /** Write `i` has not been followed by a restart of its slot. */
  ghost predicate Kept(h: seq<Event>, i: nat)
    requires i < |h|
  {
    && h[i].Wrote?
    && forall j :: i < j < |h| && Restarts(h, j) ==> Slot(h[j].entry.day) != Slot(h[i].entry.day)
  }

  /** Among the first `n` events, the kept writes of a slot, oldest first. */
  ghost function KeptIn(h: seq<Event>, slot: nat, n: nat): seq<Entry>
    requires n <= |h|
  {
    if n == 0 then []
    else KeptIn(h, slot, n - 1) +
         if Kept(h, n - 1) && Slot(h[n - 1].entry.day) == slot then [h[n - 1].entry] else []
  }

  // ---------------------------------------------------------------- the files are the kept writes

  /** One more event keeps or drops all earlier writes of a slot together. */
  lemma {:induction false} KeptAfter(h: seq<Event>, e: Event, slot: nat, n: nat)
    requires n <= |h|
    ensures KeptIn(h + [e], slot, n) ==
            if Restarts(h + [e], |h|) && Slot(e.entry.day) == slot then [] else KeptIn(h, slot, n)
    decreases n
  {
    hide Kept, Restarts, Slot;
    if n > 0 {
      KeptAfter(h, e, slot, n - 1);
      KeptOne(h, e, n - 1);
      assert (h + [e])[n - 1] == h[n - 1];
      if Kept(h + [e], n - 1) {
        KeptWasWritten(h + [e], n - 1);
      }
    }
  }

  lemma {:induction false} KeptOne(h: seq<Event>, e: Event, i: nat)
    requires i < |h|
    ensures Kept(h + [e], i) <==>
            Kept(h, i) && !(Restarts(h + [e], |h|) && Slot(e.entry.day) == Slot(h[i].entry.day))
  {
    var h' := h + [e];
    forall j | 0 <= j < |h|
      ensures Restarts(h', j) <==> Restarts(h, j)
    {
    }
  }

  lemma {:induction false} KeptWasWritten(h: seq<Event>, i: nat)
    requires i < |h| && Kept(h, i)
    ensures h[i].Wrote?
  {
  }

  /** What the mechanism remembers of the history: the slot of the last write, if no boot followed. */
  lemma {:induction false} LastSlot(h: seq<Event>)
    ensures Exec(h).last == if JustBooted(h) then 0 else Slot(h[|h| - 1].entry.day)
  {
  }

  /** After any history each file holds exactly the kept writes of its slot, in order. */
  lemma {:induction false} FilesAreKeptWrites(h: seq<Event>, slot: nat)
    requires slot < 8
    ensures Exec(h).files[slot] == KeptIn(h, slot, |h|)
    decreases |h|
  {
    hide Kept, Slot;
    if h != [] {
      var front, e := h[..|h| - 1], h[|h| - 1];
      assert front + [e] == h;
      FilesAreKeptWrites(front, slot);
      KeptAfter(front, e, slot, |front|);
      NewestIsKept(h);
      LastSlot(front);
      if e.Reboot? {
        assert KeptIn(front, slot, |front|) + [] == KeptIn(front, slot, |front|);
      }
    }
  }

  lemma {:induction false} NewestIsKept(h: seq<Event>)
    requires h != []
    ensures Kept(h, |h| - 1) <==> h[|h| - 1].Wrote?
  {
  }

  /** What a file holds was once written, to that slot. */
  lemma {:induction false} FilesWereWritten(h: seq<Event>, slot: nat, e: Entry)
    requires slot < 8 && e in Exec(h).files[slot]
    ensures Wrote(e) in h && Slot(e.day) == slot
    decreases |h|
  {
    hide Slot;
    var front := h[..|h| - 1];
    if e in Exec(front).files[slot] {
      FilesWereWritten(front, slot, e);
    }
  }

  // ---------------------------------------------------------------- one day per file

  ghost predicate OneDay(file: seq<Entry>) {
    forall i, j :: 0 <= i < |file| && 0 <= j < |file| ==> file[i].day == file[j].day
  }

  ghost predicate OneDayPerFile(s: LogState) {
    forall slot :: 0 <= slot < |s.files| ==> OneDay(s.files[slot])
  }

  /** Write `j` falls some whole weeks from the day of the write before it, with no boot between. */
  ghost predicate WeekCollision(h: seq<Event>, j: nat)
    requires j < |h|
  {
    && j > 0 && h[j - 1].Wrote? && h[j].Wrote?
    && h[j - 1].entry.day != h[j].entry.day
    && h[j - 1].entry.day % 7 == h[j].entry.day % 7
  }

  lemma {:induction false} SlotIsWeekday(c: nat, d: nat)
    ensures Slot(c) == Slot(d) <==> c % 7 == d % 7
  {
  }

  /** Unless a boot followed, the file in use ends with the last write. */
  lemma {:induction false} NewestIsLast(h: seq<Event>)
    requires !JustBooted(h)
    ensures var e := h[|h| - 1].entry;
            var file := Exec(h).files[Slot(e.day)];
            file != [] && file[|file| - 1] == e
  {
    hide Slot;
  }

  /** One event on: files stay one-day exactly when it is no collision. */
  lemma {:induction false} CollisionMixesDays(h: seq<Event>)
    requires h != [] && OneDayPerFile(Exec(h[..|h| - 1]))
    ensures OneDayPerFile(Exec(h)) <==> !WeekCollision(h, |h| - 1)
  {
    hide Slot;
    var front, last := h[..|h| - 1], h[|h| - 1];
    LastSlot(front);
    if last.Wrote? && !JustBooted(front) {
      var d, slot := front[|front| - 1].entry.day, Slot(last.entry.day);
      NewestIsLast(front);
      NewestIsLast(h);
      SlotIsWeekday(d, last.entry.day);
      if Slot(d) == slot {
        var file := Exec(front).files[slot];
        assert OneDay(file);
        assert Exec(h).files[slot] == file + [last.entry];
        assert (file + [last.entry])[|file| - 1] == file[|file| - 1];
        assert (file + [last.entry])[|file|] == last.entry;
      }
    }
  }

  /**
    All through a history no file mixes days exactly when no write comes a whole number of
    weeks from the day of the write before it without a boot between. Dates may go back.
   */
  lemma {:induction false} OneDayPerFileIff(h: seq<Event>)
    ensures (forall n :: 0 <= n <= |h| ==> OneDayPerFile(Exec(h[..n])))
            <==> (forall j :: 0 <= j < |h| ==> !WeekCollision(h, j))
  {
    hide Exec, OneDayPerFile;
    if h == [] {
      EmptyFiles();
    } else {
      var n := |h| - 1;
      var front := h[..n];
      OneDayPerFileIff(front);
      assert h[..|h|] == h;
      assert forall k :: 0 <= k <= n ==> front[..k] == h[..k];
      assert forall j :: 0 <= j < n ==> (WeekCollision(front, j) <==> WeekCollision(h, j));
      hide WeekCollision;
      if forall k :: 0 <= k <= n ==> OneDayPerFile(Exec(front[..k])) {
        assert front[..n] == front;
        CollisionMixesDays(h);
      } else {
        var k :| 0 <= k <= n && !OneDayPerFile(Exec(front[..k]));
        assert !OneDayPerFile(Exec(h[..k]));
      }
    }
  }

  lemma {:induction false} EmptyFiles()
    ensures OneDayPerFile(Exec([]))
  {
  }

  /** Dates that do not go back and gaps under a week leave no room for a collision. */
  lemma {:induction false} ShortGapsKeepDaysApart(h: seq<Event>)
    requires Monotone(h)
    requires forall j :: 0 < j < |h| && h[j - 1].Wrote? && h[j].Wrote? ==> h[j].entry.day < h[j - 1].entry.day + 7
    ensures OneDayPerFile(Exec(h))
  {
    forall j | 0 <= j < |h| ensures !WeekCollision(h, j) {
      if j > 0 && h[j - 1].Wrote? && h[j].Wrote? {
        MonotonePrefix(h, j + 1);
        assert h[..j + 1][..j] == h[..j] && h[..j][j - 1] == h[j - 1];
      }
    }
    OneDayPerFileIff(h);
    assert h[..|h|] == h;
  }

  // ---------------------------------------------------------------- retention

  lemma {:induction false} MonotonePrefix(h: seq<Event>, n: nat)
    requires Monotone(h) && n <= |h|
    ensures Monotone(h[..n])
    decreases |h|
  {
    if n < |h| {
      MonotonePrefix(h[..|h| - 1], n);
      assert h[..|h| - 1][..n] == h[..n];
    } else {
      assert h[..n] == h;
    }
  }

  /** Days never go back. */
  lemma {:induction false} DaysGrow(h: seq<Event>, e: Entry)
    requires Monotone(h) && Wrote(e) in h
    ensures LastDay(h).Some? && e.day <= LastDay(h).value
    decreases |h|
  {
    var front := h[..|h| - 1];
    if h[|h| - 1] != Wrote(e) {
      assert Wrote(e) in front;
      DaysGrow(front, e);
    }
  }

  lemma {:induction false} DaysInOrder(h: seq<Event>, i: nat, j: nat)
    requires Monotone(h) && i <= j < |h| && h[i].Wrote? && h[j].Wrote?
    ensures h[i].entry.day <= h[j].entry.day
  {
    hide Monotone;
    MonotonePrefix(h, j + 1);
    assert h[..j + 1][i] == h[i] && h[..j + 1][j] == h[j];
    DaysGrow(h[..j + 1], h[i].entry);
    LastIsLastDay(h[..j + 1]);
  }

  lemma {:induction false} LastIsLastDay(h: seq<Event>)
    requires h != [] && h[|h| - 1].Wrote?
    ensures LastDay(h) == Some(h[|h| - 1].entry.day)
  {
  }

  /** The lines a day has left of all that were written on it: a boot and then a write drops those before. */
  function DayLines(h: seq<Event>, d: nat): seq<Entry> {
    if h == [] then []
    else
      var front := h[..|h| - 1];
      match h[|h| - 1]
      case Reboot => DayLines(front, d)
      case Wrote(e) =>
        if e.day != d then DayLines(front, d)
        else (if JustBooted(front) then [] else DayLines(front, d)) + [e]
  }

  /** The lines of one day in a file, in order. */
  function OfDay(file: seq<Entry>, d: nat): seq<Entry> {
    if file == [] then []
    else OfDay(file[..|file| - 1], d) + if file[|file| - 1].day == d then [file[|file| - 1]] else []
  }

  lemma {:induction false} OfDaySnoc(file: seq<Entry>, e: Entry, d: nat)
    ensures OfDay(file + [e], d) == OfDay(file, d) + if e.day == d then [e] else []
    ensures OfDay([e], d) == if e.day == d then [e] else []
  {
    assert (file + [e])[..|file|] == file;
    assert [e][..0] == [];
  }

  lemma {:induction false} OfDayMembers(file: seq<Entry>, e: Entry)
    ensures e in OfDay(file, e.day) <==> e in file
  {
    if file != [] {
      OfDayMembers(file[..|file| - 1], e);
      assert file == file[..|file| - 1] + [file[|file| - 1]];
    }
  }

  lemma {:induction false} NotYetWritten(h: seq<Event>, d: nat)
    requires Monotone(h) && (LastDay(h).Some? ==> LastDay(h).value < d)
    ensures DayLines(h, d) == []
  {
    if h != [] {
      NotYetWritten(h[..|h| - 1], d);
    }
  }

  lemma {:induction false} WriteHere(s: LogState, e: Entry)
    requires Shaped(s)
    ensures var slot := Slot(e.day);
            Write(s, e).files[slot] == (if s.last == slot then s.files[slot] else []) + [e]
  {
    hide Slot;
  }

  lemma {:induction false} WriteElsewhere(s: LogState, e: Entry, slot: nat)
    requires Shaped(s) && slot < 8 && slot != Slot(e.day)
    ensures Write(s, e).files[slot] == s.files[slot]
  {
    hide Slot;
  }

  lemma {:induction false} OfNothing(d: nat)
    ensures OfDay([], d) == []
  {
  }

  /** One write on: it is appended to its day's lines, which it first drops after a boot. */
  lemma {:induction false} WriteKeepsDay(s: LogState, e: Entry, d: nat)
    requires Shaped(s) && d < e.day + 7 && e.day < d + 7
    ensures var file := OfDay(s.files[Slot(d)], d);
            OfDay(Write(s, e).files[Slot(d)], d)
            == if e.day != d then file else (if s.last == Slot(d) then file else []) + [e]
  {
    hide Slot, Write, OfDay;
    if e.day != d {
      SlotIsWeekday(d, e.day);
      WriteElsewhere(s, e, Slot(d));
    } else {
      WriteHere(s, e);
      OfNothing(d);
      OfDaySnoc(if s.last == Slot(d) then s.files[Slot(d)] else [], e, d);
    }
  }

  /** A write at least a week earlier leaves a file without lines of the day without them. */
  lemma {:induction false} WriteBeforeDay(s: LogState, e: Entry, d: nat)
    requires Shaped(s) && e.day < d && OfDay(s.files[Slot(d)], d) == []
    ensures OfDay(Write(s, e).files[Slot(d)], d) == []
  {
    hide Slot, Write, OfDay;
    if Slot(e.day) != Slot(d) {
      WriteElsewhere(s, e, Slot(d));
    } else {
      WriteHere(s, e);
      OfNothing(d);
      OfDaySnoc(if s.last == Slot(d) then s.files[Slot(d)] else [], e, d);
    }
  }

  /** Of any day under a week old, its file holds exactly the lines that boots have left it. */
  lemma {:induction false} RecentDaysAreKept(h: seq<Event>, d: nat)
    requires Monotone(h) && (LastDay(h).Some? ==> LastDay(h).value < d + 7)
    ensures OfDay(Exec(h).files[Slot(d)], d) == DayLines(h, d)
    decreases |h|
  {
    hide Slot, OfDay, Write;
    if h == [] {
      NothingOfDay(d);
    } else {
      var front := h[..|h| - 1];
      RecentDaysAreKept(front, d);
      if h[|h| - 1].Wrote? {
        var e := h[|h| - 1].entry;
        if e.day < d {
          NotYetWritten(front, d);
          WriteBeforeDay(Exec(front), e, d);
        } else {
          WriteKeepsDay(Exec(front), e, d);
          LastSlot(front);
          if e.day == d && !JustBooted(front) && Slot(front[|front| - 1].entry.day) != Slot(d) {
            NotYetWritten(front, d);
          }
        }
      }
    }
  }

  lemma {:induction false} NothingOfDay(d: nat)
    ensures OfDay(Exec([]).files[Slot(d)], d) == []
  {
  }

  /** Some write of `e` has not been followed by a boot and then a write on the same day. */
  ghost predicate Survives(h: seq<Event>, e: Entry) {
    exists i :: 0 <= i < |h| && h[i] == Wrote(e) && NoBootAfter(h, i, e.day)
  }

  ghost predicate NoBootAfter(h: seq<Event>, i: nat, d: nat) {
    forall j :: i < j < |h| && h[j].Wrote? && h[j].entry.day == d ==> h[j - 1] != Reboot
  }

  lemma {:induction false} DayLinesSurvive(h: seq<Event>, e: Entry)
    ensures e in DayLines(h, e.day) <==> Survives(h, e)
    decreases |h|
  {
    if h != [] {
      DayLinesSurvive(h[..|h| - 1], e);
      SurvivesOn(h, e);
      hide Survives;
    }
  }

  lemma {:induction false} SurvivesOn(h: seq<Event>, e: Entry)
    requires h != []
    ensures var n := |h| - 1;
            Survives(h, e) <==>
              h[n] == Wrote(e) ||
              (Survives(h[..n], e) && !(h[n].Wrote? && h[n].entry.day == e.day && JustBooted(h[..n])))
  {
    hide NoBootAfter, JustBooted;
    var n := |h| - 1;
    var front := h[..n];
    NoBootAfterLast(h, e.day);
    if i :| 0 <= i < n && front[i] == Wrote(e) && NoBootAfter(front, i, e.day) {
      NoBootAfterOne(h, i, e.day);
      assert h[i] == Wrote(e);
    }
    if i :| 0 <= i < n && h[i] == Wrote(e) && NoBootAfter(h, i, e.day) {
      NoBootAfterOne(h, i, e.day);
      assert front[i] == Wrote(e);
    }
  }

  lemma {:induction false} NoBootAfterLast(h: seq<Event>, d: nat)
    requires h != []
    ensures NoBootAfter(h, |h| - 1, d)
  {
  }

  lemma {:induction false} NoBootAfterOne(h: seq<Event>, i: nat, d: nat)
    requires i < |h| - 1
    ensures var n := |h| - 1;
            NoBootAfter(h, i, d) <==>
              NoBootAfter(h[..n], i, d) && !(h[n].Wrote? && h[n].entry.day == d && JustBooted(h[..n]))
  {
    var n := |h| - 1;
    if NoBootAfter(h, i, d) {
      forall j | i < j < n && h[..n][j].Wrote? && h[..n][j].entry.day == d ensures h[..n][j - 1] != Reboot {
        assert h[j].Wrote?;
      }
    }
  }

  /**
    A line under a week old is in its file exactly when, since some time it was written, the
    LNC has not rebooted and then written again on that same day.
   */
  lemma {:induction false} RecentLineLostOnlyByReboot(h: seq<Event>, e: Entry)
    requires Monotone(h) && (LastDay(h).Some? ==> LastDay(h).value < e.day + 7)
    ensures e in Exec(h).files[Slot(e.day)] <==> Survives(h, e)
  {
    hide Exec, Slot;
    RecentDaysAreKept(h, e.day);
    OfDayMembers(Exec(h).files[Slot(e.day)], e);
    DayLinesSurvive(h, e);
  }

  /** Without a reboot since, every line of the last seven days is still there. */
  lemma {:induction false} SevenDaysRetained(h: seq<Event>, i: nat)
    requires Monotone(h) && i < |h| && h[i].Wrote?
    requires forall j :: i < j < |h| ==> h[j].Wrote?
    requires LastDay(h).Some? && LastDay(h).value < h[i].entry.day + 7
    ensures h[i].entry in Exec(h).files[Slot(h[i].entry.day)]
  {
    hide Slot, Exec;
    RecentLineLostOnlyByReboot(h, h[i].entry);
    assert NoBootAfter(h, i, h[i].entry.day);
  }

  /** After a restart a file holds no line of an earlier day. */
  lemma {:induction false} RestartDropsOlder(h: seq<Event>, j: nat, e: Entry)
    requires Monotone(h) && j < |h| && Restarts(h, j)
    requires e in Exec(h).files[Slot(h[j].entry.day)]
    ensures h[j].entry.day <= e.day
    decreases |h|
  {
    hide Slot;
    var front, last := h[..|h| - 1], h[|h| - 1];
    if j == |front| {
      LastSlot(front);
    } else if e in Exec(front).files[Slot(h[j].entry.day)] {
      RestartDropsOlder(front, j, e);
    } else {
      DaysGrow(front, h[j].entry);
    }
  }

  /** A write whose slot has not been restarted since is in its file. */
  lemma {:induction false} KeptIsStored(h: seq<Event>, i: nat)
    requires i < |h| && Kept(h, i)
    ensures h[i].entry in Exec(h).files[Slot(h[i].entry.day)]
    decreases |h|
  {
    hide Slot;
    var n := |h| - 1;
    var front := h[..n];
    if i < n {
      assert front + [h[n]] == h;
      KeptOne(front, h[n], i);
      KeptIsStored(front, i);
      LastSlot(front);
    }
  }

  /** The first write of a day, and what went before it. */
  lemma {:induction false} FirstWrite(h: seq<Event>, d: nat) returns (k: nat)
    requires WrittenOn(h, d)
    ensures k < |h| && h[k].Wrote? && h[k].entry.day == d && !WrittenOn(h[..k], d)
  {
    var n := |h| - 1;
    if WrittenOn(h[..n], d) {
      k := FirstWrite(h[..n], d);
      assert h[..n][..k] == h[..k];
    } else {
      k :| 0 <= k < |h| && h[k].Wrote? && h[k].entry.day == d;
      if k < n {
        assert h[..n][k] == h[k];
      }
    }
  }

  /** Without a restart by its first write, a day's lines follow those of a day some weeks before. */
  lemma {:induction false} FirstWriteJoins(h: seq<Event>, k: nat)
    requires Monotone(h) && k < |h| && h[k].Wrote? && !WrittenOn(h[..k], h[k].entry.day) && !Restarts(h, k)
    ensures k > 0 && h[k - 1].Wrote? && WeekCollision(h, k)
    ensures h[k - 1].entry.day + 7 <= h[k].entry.day
  {
    var d := h[k].entry.day;
    assert h[..k][k - 1] == h[k - 1];
    MonotonePrefix(h, k + 1);
    assert h[..k + 1][..k] == h[..k];
    SlotIsWeekday(h[k - 1].entry.day, d);
  }

  /** When the day before was written on, a day's first write restarts its file. */
  lemma {:induction false} NextDayRestarts(h: seq<Event>, d: nat) returns (k: nat)
    requires Monotone(h) && WrittenOn(h, d) && d > 0 && WrittenOn(h, d - 1)
    ensures k < |h| && h[k].Wrote? && h[k].entry.day == d && Restarts(h, k)
  {
    k := FirstWrite(h, d);
    if !Restarts(h, k) {
      FirstWriteJoins(h, k);
      var i :| 0 <= i < |h| && h[i].Wrote? && h[i].entry.day == d - 1;
      if i < k {
        DaysInOrder(h, i, k - 1);
      } else {
        DaysInOrder(h, k, i);
      }
      assert false;
    }
  }

  /** The files hold lines of the last seven days only. */
  ghost predicate LastWeekOnly(h: seq<Event>, now: nat) {
    forall slot, e :: 0 <= slot < 8 && e in Exec(h).files[slot] ==> now < e.day + 7 && e.day <= now
  }

  ghost predicate RestartedOn(h: seq<Event>, d: nat) {
    exists j :: 0 <= j < |h| && Restarts(h, j) && h[j].entry.day == d
  }

  lemma {:induction false} RestartedWeek(h: seq<Event>, now: nat, slot: nat, e: Entry)
    requires Monotone(h) && LastDay(h) == Some(now) && slot < 8 && e in Exec(h).files[slot]
    requires forall d: nat :: now < d + 7 && d <= now ==> WrittenOn(h, d)
    requires now >= 6 ==> RestartedOn(h, now - 6)
    ensures now < e.day + 7 && e.day <= now
  {
    hide Slot, Exec;
    FilesWereWritten(h, slot, e);
    DaysGrow(h, e);
    if now >= e.day + 7 {
      var d := SameWeekday(e.day, now);
      var j: nat;
      if d == now - 6 {
        j :| 0 <= j < |h| && Restarts(h, j) && h[j].entry.day == d;
      } else {
        assert WrittenOn(h, d) && WrittenOn(h, d - 1);
        j := NextDayRestarts(h, d);
      }
      RestartDropsOlder(h, j, e);
    }
  }

  /** Without that restart some older line is left. */
  lemma {:induction false} OlderLineLeft(h: seq<Event>, now: nat)
    requires Monotone(h) && LastDay(h) == Some(now) && now >= 6
    requires WrittenOn(h, now - 6) && !RestartedOn(h, now - 6)
    ensures !LastWeekOnly(h, now)
  {
    hide Slot, Exec;
    var k := FirstWrite(h, now - 6);
    assert !Restarts(h, k);
    FirstWriteJoins(h, k);
    var before := h[k - 1].entry;
    SlotIsWeekday(before.day, now - 6);
    forall j | k - 1 < j < |h| && Restarts(h, j) ensures Slot(h[j].entry.day) != Slot(before.day) {
      NotRestartedAgain(h, now, k, j);
    }
    KeptIsStored(h, k - 1);
  }

  lemma {:induction false} NotRestartedAgain(h: seq<Event>, now: nat, k: nat, j: nat)
    requires Monotone(h) && LastDay(h) == Some(now) && now >= 6 && !RestartedOn(h, now - 6)
    requires k <= j < |h| && h[k].Wrote? && h[k].entry.day == now - 6 && Restarts(h, j)
    ensures Slot(h[j].entry.day) != Slot(now - 6)
  {
    hide Slot;
    assert h[j].entry.day != now - 6;
    DaysGrow(h, h[j].entry);
    DaysInOrder(h, k, j);
    SlotIsWeekday(h[j].entry.day, now - 6);
  }

  /**
    With a write on each of the last seven days, the files hold lines of those days and no
    others exactly when some write of the oldest of them restarted its file.
   */
  lemma {:induction false} ExactlySevenDays(h: seq<Event>, now: nat)
    requires Monotone(h) && LastDay(h) == Some(now)
    requires forall d: nat :: now < d + 7 && d <= now ==> WrittenOn(h, d)
    ensures LastWeekOnly(h, now) <==> (now >= 6 ==> RestartedOn(h, now - 6))
  {
    hide Slot, Exec, Restarts, RestartedOn;
    if now >= 6 ==> RestartedOn(h, now - 6) {
      forall slot, e | 0 <= slot < 8 && e in Exec(h).files[slot] ensures now < e.day + 7 && e.day <= now {
        RestartedWeek(h, now, slot, e);
      }
    } else {
      assert WrittenOn(h, now - 6);
      OlderLineLeft(h, now);
    }
  }

  /** No collision by the first write of that oldest day is enough. */
  lemma {:induction false} SevenDaysWithoutCollision(h: seq<Event>, now: nat)
    requires Monotone(h) && LastDay(h) == Some(now)
    requires forall d: nat :: now < d + 7 && d <= now ==> WrittenOn(h, d)
    requires forall j :: 0 <= j < |h| && h[j].Wrote? && h[j].entry.day + 6 == now ==> !WeekCollision(h, j)
    ensures LastWeekOnly(h, now)
  {
    hide Slot, Exec, WeekCollision;
    ExactlySevenDays(h, now);
    if now >= 6 {
      assert WrittenOn(h, now - 6);
      var k := FirstWrite(h, now - 6);
      if !Restarts(h, k) {
        FirstWriteJoins(h, k);
      }
    }
  }

  ghost predicate WrittenOn(h: seq<Event>, d: nat) {
    exists k :: 0 <= k < |h| && h[k].Wrote? && h[k].entry.day == d
  }

  lemma {:induction false} SameWeekday(past: nat, now: nat) returns (d: nat)
    requires now >= past + 7
    ensures past < d <= now < d + 7 && Slot(d) == Slot(past)
  {
    d := now - (now - past) % 7;
  }

  /** The smallest collision: after exactly a week of silence the old file is appended to. */
  lemma {:induction false} GapOfAWeekMixesDays(a: Entry, b: Entry)
    requires b.day == a.day + 7
    ensures Exec([Wrote(a), Wrote(b)]).files[Slot(a.day)] == [a, b]
  {
    hide Slot;
    var h := [Wrote(a), Wrote(b)];
    assert h[..1] == [Wrote(a)] && h[..1][..0] == [];
    assert Slot(b.day) == Slot(a.day) by { SlotIsWeekday(a.day, b.day); }
    assert Exec([Wrote(a)]).files[Slot(a.day)] == [] + [a];
    assert [a] + [b] == [a, b];
  }
}
