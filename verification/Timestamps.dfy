/**
  Timestamps as text, as six bytes and as one integer. All three programs write
  "YYYY-MM-DD HH:MM:SS"; the Ground Station scans it into six bytes for the wire, the
  Central Computer prints those bytes again and compares text, and the LNC packs them into
  one integer key. The lemmas say that these forms agree.
 */
module Timestamps {
  import opened Bytes

  /** Year counted from 2000. */
  datatype Stamp = Stamp(year: Byte, month: Byte, date: Byte, hour: Byte, min: Byte, sec: Byte)

  const DASH: Byte := 45
  const COLON: Byte := 58
  const SPACE: Byte := 32
  const OPEN: Byte := 91
  const CLOSE: Byte := 93

  function Digit(n: nat): Byte
    requires n < 10
  {
    48 + n
  }

  predicate IsDigit(b: Byte) {
    48 <= b <= 57
  }

  predicate IsSpace(b: Byte) {
    b == 32 || 9 <= b <= 13
  }

  // ---------------------------------------------------------------- printing

  /** A field printed with at least two digits. */
  function TwoDigits(n: Byte): (t: Text)
    ensures |t| == if n < 100 then 2 else 3
  {
    if n < 100 then [Digit(n / 10), Digit(n % 10)]
    else [Digit(n / 100), Digit(n / 10 % 10), Digit(n % 10)]
  }

  function FourDigits(n: nat): (t: Text)
    requires n < 10000
    ensures |t| == 4
  {
    [Digit(n / 1000), Digit(n / 100 % 10), Digit(n / 10 % 10), Digit(n % 10)]
  }

  function Clock(s: Stamp): Text {
    TwoDigits(s.hour) + ([COLON] + (TwoDigits(s.min) + ([COLON] + TwoDigits(s.sec))))
  }

  function Format(s: Stamp): Text {
    FourDigits(2000 + s.year) + ([DASH] + (TwoDigits(s.month) + ([DASH] + (TwoDigits(s.date) + ([SPACE] + Clock(s))))))
  }

  // ---------------------------------------------------------------- scanning

  function SkipSpace(t: Text): Text {
    if t != [] && IsSpace(t[0]) then SkipSpace(t[1..]) else t
  }

  /** Length of the digits `t` starts with. */
  function DigitRun(t: Text): (k: nat)
    ensures k <= |t|
  {
    if t != [] && IsDigit(t[0]) then 1 + DigitRun(t[1..]) else 0
  }

  function NatOf(digits: Text): int {
    if digits == [] then 0 else 10 * NatOf(digits[..|digits| - 1]) + (digits[|digits| - 1] as int - 48)
  }

  /** The conversions `%d` (no width limit) and `%2u` (width 2): the number and what follows it. */
  function ScanNumber(t: Text, width: Option<nat>): Option<(int, Text)> {
    var u := SkipSpace(t);
    var signed := u != [] && (u[0] == 43 || u[0] == DASH);
    var v := if signed then u[1..] else u;
    var limit := if width.None? then |v| else if signed then width.value - 1 else width.value;
    var k := if DigitRun(v) <= limit then DigitRun(v) else limit;
    if k <= 0 then None
    else Some((if signed && u[0] == DASH then -NatOf(v[..k]) else NatOf(v[..k]), v[k..]))
  }

  function ScanLiteral(t: Text, c: Byte): Option<Text> {
    if t != [] && t[0] == c then Some(t[1..]) else None
  }

  /** Conversion to an 8-bit unsigned field. */
  function Cast(n: int): Byte {
    n % 256
  }

  datatype Numbers = Numbers(year: int, month: int, date: int, hour: int, min: int, sec: int)

  /** The six numbers of a timestamp, each read with one width; `rest` is whatever comes after. */
  function ScanStamp(t: Text, width: Option<nat>): Option<(Numbers, Text)> {
    var (year, t1) :- ScanNumber(t, width);
    var t2 :- ScanLiteral(t1, DASH);
    var (month, t3) :- ScanNumber(t2, width);
    var t4 :- ScanLiteral(t3, DASH);
    var (date, t5) :- ScanNumber(t4, width);
    var (hour, t7) :- ScanNumber(SkipSpace(t5), width);
    var t8 :- ScanLiteral(t7, COLON);
    var (min, t9) :- ScanNumber(t8, width);
    var t10 :- ScanLiteral(t9, COLON);
    var (sec, t11) :- ScanNumber(t10, width);
    Some((Numbers(year, month, date, hour, min, sec), t11))
  }

  /** The Ground Station's `parse_half`. */
  method ParseHalf(t: Text) returns (ok: bool, s: Stamp)
    ensures ok == Parse(t).Some?
    ensures ok ==> s == Parse(t).value
  {
    var scanned := ScanStamp(t, None);
    s := Stamp(0, 0, 0, 0, 0, 0);
    if scanned.None? {
      return false, s;
    }
    var n := scanned.value.0;
    s := Stamp(Cast(n.year - 2000), Cast(n.month), Cast(n.date), Cast(n.hour), Cast(n.min), Cast(n.sec));
    ok := true;
  }

  function Parse(t: Text): Option<Stamp> {
    var (n, _) :- ScanStamp(t, None);
    Some(Stamp(Cast(n.year - 2000), Cast(n.month), Cast(n.date), Cast(n.hour), Cast(n.min), Cast(n.sec)))
  }

  /** The LNC's `parse_line_timestamp`, up to the key: the stamp at the head of a log line. */
  function ParseLine(line: Text): Option<Stamp> {
    var t1 :- ScanLiteral(line, OPEN);
    var t2 :- ScanLiteral(t1, Digit(2));
    var t3 :- ScanLiteral(t2, Digit(0));
    var (n, _) :- ScanStamp(t3, Some(2));
    Some(Stamp(Cast(n.year), Cast(n.month), Cast(n.date), Cast(n.hour), Cast(n.min), Cast(n.sec)))
  }

  // ---------------------------------------------------------------- scanning inverts printing

  /** `rest` cannot be taken for more digits. */
  predicate Ends(rest: Text) {
    rest == [] || !IsDigit(rest[0])
  }

  lemma {:induction false} ScanTwoDigits(n: Byte, rest: Text, width: Option<nat>)
    requires Ends(rest)
    requires width == None || (width == Some(2) && n < 100)
    ensures ScanNumber(TwoDigits(n) + rest, width) == Some((n as int, rest))
  {
    var t := TwoDigits(n) + rest;
    RunOfDigits(TwoDigits(n), rest);
    assert t[..|TwoDigits(n)|] == TwoDigits(n) && t[|TwoDigits(n)|..] == rest;
    ValueOfTwoDigits(n);
  }

  lemma {:induction false} ScanFourDigits(n: nat, rest: Text)
    requires Ends(rest) && n < 10000
    ensures ScanNumber(FourDigits(n) + rest, None) == Some((n as int, rest))
  {
    var t := FourDigits(n) + rest;
    RunOfDigits(FourDigits(n), rest);
    assert t[..4] == FourDigits(n) && t[4..] == rest;
    ValueOfFourDigits(n);
  }

  lemma {:induction false} RunOfDigits(digits: Text, rest: Text)
    requires Ends(rest) && forall i :: 0 <= i < |digits| ==> IsDigit(digits[i])
    ensures DigitRun(digits + rest) == |digits|
    decreases |digits|
  {
    if digits != [] {
      assert (digits + rest)[1..] == digits[1..] + rest;
      RunOfDigits(digits[1..], rest);
    } else {
      assert digits + rest == rest;
    }
  }

  lemma {:induction false} NatOfSnoc(d: Text, last: Byte)
    ensures NatOf(d + [last]) == 10 * NatOf(d) + (last as int - 48)
  {
    assert (d + [last])[..|d|] == d;
  }

  lemma {:induction false} ValueOfTwoDigits(n: Byte)
    ensures NatOf(TwoDigits(n)) == n
  {
    hide NatOf;
    NatOfNothing();
    assert n / 10 == 10 * (n / 100) + n / 10 % 10;
    if n < 100 {
      NatOfSnoc([], Digit(n / 10));
      NatOfSnoc([] + [Digit(n / 10)], Digit(n % 10));
      assert [] + [Digit(n / 10)] + [Digit(n % 10)] == TwoDigits(n);
    } else {
      NatOfSnoc([], Digit(n / 100));
      NatOfSnoc([] + [Digit(n / 100)], Digit(n / 10 % 10));
      NatOfSnoc([] + [Digit(n / 100)] + [Digit(n / 10 % 10)], Digit(n % 10));
      assert [] + [Digit(n / 100)] + [Digit(n / 10 % 10)] + [Digit(n % 10)] == TwoDigits(n);
    }
  }

  lemma {:induction false} ValueOfFourDigits(n: nat)
    requires n < 10000
    ensures NatOf(FourDigits(n)) == n
  {
    hide NatOf;
    assert NatOf([]) == 0 by { NatOfNothing(); }
    DigitsSum(n);
    var a, b, c, d := Digit(n / 1000), Digit(n / 100 % 10), Digit(n / 10 % 10), Digit(n % 10);
    NatOfSnoc([], a);
    NatOfSnoc([] + [a], b);
    NatOfSnoc([] + [a] + [b], c);
    NatOfSnoc([] + [a] + [b] + [c], d);
    assert [] + [a] + [b] + [c] + [d] == FourDigits(n);
  }

  lemma {:induction false} DigitsSum(n: nat)
    ensures 10 * (10 * (10 * (n / 1000) + n / 100 % 10) + n / 10 % 10) + n % 10 == n
  {
    assert n / 100 == 10 * (n / 1000) + n / 100 % 10;
    assert n / 10 == 10 * (n / 100) + n / 10 % 10;
  }

  lemma {:induction false} NatOfNothing()
    ensures NatOf([]) == 0
  {
  }

  /** Everything from the month on scans back, whatever is appended. */
  lemma {:induction false} ScanClock(s: Stamp, rest: Text, width: Option<nat>)
    requires Ends(rest)
    requires width == None || (width == Some(2) && Plain(s))
    ensures var t := [SPACE] + (Clock(s) + rest);
            var afterMin := [COLON] + (TwoDigits(s.sec) + rest);
            && ScanNumber(SkipSpace(t), width)
               == Some((s.hour as int, [COLON] + (TwoDigits(s.min) + afterMin)))
            && ScanNumber(TwoDigits(s.min) + afterMin, width) == Some((s.min as int, afterMin))
            && ScanNumber(TwoDigits(s.sec) + rest, width) == Some((s.sec as int, rest))
  {
    hide ScanNumber, TwoDigits;
    var afterMin := [COLON] + (TwoDigits(s.sec) + rest);
    var afterHour := [COLON] + (TwoDigits(s.min) + afterMin);
    ScanTwoDigits(s.sec, rest, width);
    ScanTwoDigits(s.min, afterMin, width);
    ScanTwoDigits(s.hour, afterHour, width);
    var t := [SPACE] + (Clock(s) + rest);
    assert t[1..] == Clock(s) + rest == TwoDigits(s.hour) + afterHour;
    StartsWithDigit(s.hour, afterHour);
  }

  lemma {:induction false} StartsWithDigit(n: Byte, rest: Text)
    ensures TwoDigits(n) + rest != [] && IsDigit((TwoDigits(n) + rest)[0])
    ensures SkipSpace(TwoDigits(n) + rest) == TwoDigits(n) + rest
  {
  }

  /** Every field below 100, as every valid calendar time is. */
  predicate Plain(s: Stamp) {
    s.year < 100 && s.month < 100 && s.date < 100 && s.hour < 100 && s.min < 100 && s.sec < 100
  }

  /** Six scans in a row, once the year's text has been consumed. */
  lemma {:induction false} ScanFromYear(t: Text, year: int, s: Stamp, rest: Text, width: Option<nat>)
    requires Ends(rest)
    requires width == None || (width == Some(2) && Plain(s))
    requires ScanNumber(t, width) == Some((year, AfterYear(s, rest)))
    ensures ScanStamp(t, width)
            == Some((Numbers(year, s.month, s.date, s.hour, s.min, s.sec), rest))
  {
    hide ScanNumber, TwoDigits, SkipSpace, Clock;
    var afterDate := [SPACE] + (Clock(s) + rest);
    var afterMonth := [DASH] + (TwoDigits(s.date) + afterDate);
    ScanTwoDigits(s.date, afterDate, width);
    ScanTwoDigits(s.month, afterMonth, width);
    ScanClock(s, rest, width);
    assert AfterYear(s, rest)[1..] == TwoDigits(s.month) + afterMonth;
    assert afterMonth[1..] == TwoDigits(s.date) + afterDate;
    var afterMin := [COLON] + (TwoDigits(s.sec) + rest);
    assert ([COLON] + (TwoDigits(s.min) + afterMin))[1..] == TwoDigits(s.min) + afterMin;
    assert afterMin[1..] == TwoDigits(s.sec) + rest;
  }

  function AfterYear(s: Stamp, rest: Text): Text {
    [DASH] + (TwoDigits(s.month) + ([DASH] + (TwoDigits(s.date) + ([SPACE] + (Clock(s) + rest)))))
  }

  lemma {:induction false} FormatSplits(s: Stamp, rest: Text)
    ensures Format(s) + rest == FourDigits(2000 + s.year) + AfterYear(s, rest)
  {
    hide TwoDigits, FourDigits, Clock;
  }

  /**
    The Ground Station scans back exactly the six bytes any printed timestamp stands for. Fields
    outside the calendar are printed as the C++ library in use prints them, digits unchecked;
    the language leaves that case open.
   */
  lemma {:induction false} ParseInvertsFormat(s: Stamp)
    ensures Parse(Format(s)) == Some(s)
  {
    hide ScanNumber, TwoDigits, FourDigits, ScanStamp, AfterYear;
    FormatSplits(s, []);
    assert Format(s) + [] == Format(s);
    assert Ends(AfterYear(s, [])) by { AfterYearEnds(s, []); }
    ScanFourDigits(2000 + s.year, AfterYear(s, []));
    ScanFromYear(Format(s), 2000 + s.year, s, [], None);
  }

  lemma {:induction false} AfterYearEnds(s: Stamp, rest: Text)
    ensures Ends(AfterYear(s, rest))
  {
    hide TwoDigits, Clock;
  }

  /** Two timestamps printed alike are the same. */
  lemma {:induction false} FormatInjective(a: Stamp, b: Stamp)
    requires Format(a) == Format(b)
    ensures a == b
  {
    hide Format, Parse;
    ParseInvertsFormat(a);
    ParseInvertsFormat(b);
  }

  /** The LNC finds the stamp it wrote at the head of its own log lines. */
  lemma {:induction false} ParseLineInvertsFormat(s: Stamp, rest: Text)
    requires Plain(s)
    ensures ParseLine([OPEN] + (Format(s) + ([CLOSE] + rest))) == Some(s)
  {
    hide ScanNumber, TwoDigits, ScanStamp, AfterYear, Format;
    var tail := AfterYear(s, [CLOSE] + rest);
    FormatSplits(s, [CLOSE] + rest);
    YearInTwoHalves(s.year);
    var t3 := TwoDigits(s.year) + tail;
    assert Format(s) + ([CLOSE] + rest) == [Digit(2), Digit(0)] + t3;
    LineHead(t3);
    AfterYearEnds(s, [CLOSE] + rest);
    ScanTwoDigits(s.year, tail, Some(2));
    ScanFromYear(t3, s.year, s, [CLOSE] + rest, Some(2));
    hide ParseLine;
  }

  lemma {:induction false} LineHead(t: Text)
    ensures var line := [OPEN] + ([Digit(2), Digit(0)] + t);
            var scanned := ScanStamp(t, Some(2));
            ParseLine(line) == if scanned.None? then None
                               else var n := scanned.value.0;
                                    Some(Stamp(Cast(n.year), Cast(n.month), Cast(n.date),
                                               Cast(n.hour), Cast(n.min), Cast(n.sec)))
  {
    hide ScanStamp;
    var line := [OPEN] + ([Digit(2), Digit(0)] + t);
    assert line[1..] == [Digit(2), Digit(0)] + t;
    assert line[1..][1..] == [Digit(0)] + t && line[1..][1..][1..] == t;
  }

  lemma {:induction false} YearInTwoHalves(y: Byte)
    requires y < 100
    ensures FourDigits(2000 + y) == [Digit(2), Digit(0)] + TwoDigits(y)
  {
    var n: nat := 2000 + y;
    assert n / 1000 == 2;
    assert n / 100 == 20;
    assert n / 10 == 200 + y / 10;
    assert n % 10 == y % 10;
    hide Digit;
  }

  // ---------------------------------------------------------------- what is a timestamp

  /** For two-digit fields the text is 20YY-MM-DD HH:MM:SS in ASCII. */
  lemma {:induction false} FormatIsIso(s: Stamp)
    requires Plain(s)
    ensures Format(s) == [50, 48, 48 + s.year / 10, 48 + s.year % 10, 45, 48 + s.month / 10, 48 + s.month % 10,
                          45, 48 + s.date / 10, 48 + s.date % 10, 32, 48 + s.hour / 10, 48 + s.hour % 10,
                          58, 48 + s.min / 10, 48 + s.min % 10, 58, 48 + s.sec / 10, 48 + s.sec % 10]
  {
    YearInTwoHalves(s.year);
    hide FourDigits;
  }

  /** `t[..n]` is blanks up to `i`, a sign or none up to `j`, and at least one digit. */
  ghost predicate NumeralAt(t: Text, i: int, j: int, n: int) {
    && 0 <= i <= j < n <= |t|
    && (forall m :: 0 <= m < i ==> t[m] == 32 || 9 <= t[m] <= 13)
    && (j == i || (j == i + 1 && (t[i] == 43 || t[i] == 45)))
    && (forall m :: j <= m < n ==> 48 <= t[m] <= 57)
  }

  /** `t` starts with a numeral, sign and digits no wider than `width`, that could not be longer; `rest` follows it. */
  ghost predicate Numeral(t: Text, rest: Text, width: Option<nat>) {
    exists i, j, n :: NumeralAt(t, i, j, n) && rest == t[n..] && Longest(t, i, n, width)
  }

  ghost predicate Longest(t: Text, i: int, n: int, width: Option<nat>)
    requires 0 <= i <= n <= |t|
  {
    && (width.Some? ==> n - i <= width.value)
    && (n == |t| || t[n] < 48 || t[n] > 57 || (width.Some? && n - i == width.value))
  }

  /** Three numerals joined by dashes, then three joined by colons. */
  ghost predicate IsStampText(t: Text, w: Option<nat>) {
    exists t1, t2, t3, t4, t5, t6 ::
      && Numeral(t, [45] + t1, w) && Numeral(t1, [45] + t2, w) && Numeral(t2, t3, w)
      && Numeral(t3, [58] + t4, w) && Numeral(t4, [58] + t5, w) && Numeral(t5, t6, w)
  }

  lemma {:induction false} SkipsBlanks(t: Text, i: nat)
    requires i <= |t| && forall m :: 0 <= m < i ==> IsSpace(t[m])
    requires i < |t| ==> !IsSpace(t[i])
    ensures SkipSpace(t) == t[i..]
    decreases i
  {
    if i > 0 {
      SkipsBlanks(t[1..], i - 1);
    }
  }

  lemma {:induction false} Blanks(t: Text) returns (i: nat)
    ensures i <= |t| && SkipSpace(t) == t[i..] && (forall m :: 0 <= m < i ==> IsSpace(t[m]))
  {
    if t != [] && IsSpace(t[0]) {
      i := Blanks(t[1..]);
      assert forall m :: 0 < m < i + 1 ==> t[m] == t[1..][m - 1];
      i := i + 1;
    } else {
      i := 0;
    }
  }

  lemma {:induction false} DigitsRun(t: Text, k: nat)
    requires k <= |t| && (forall m :: 0 <= m < k ==> IsDigit(t[m]))
    ensures DigitRun(t) >= k
    ensures k == |t| || !IsDigit(t[k]) ==> DigitRun(t) == k
    decreases k
  {
    if k > 0 {
      DigitsRun(t[1..], k - 1);
    }
  }

  lemma {:induction false} RunOf(t: Text)
    ensures var k := DigitRun(t); (forall m :: 0 <= m < k ==> IsDigit(t[m])) && (k < |t| ==> !IsDigit(t[k]))
  {
    if t != [] && IsDigit(t[0]) {
      RunOf(t[1..]);
      assert forall m :: 0 < m < |t| ==> t[m] == t[1..][m - 1];
    }
  }

  predicate Scans(t: Text, rest: Text, w: Option<nat>) {
    ScanNumber(t, w).Some? && ScanNumber(t, w).value.1 == rest
  }

  /** What a scan accepts, and where it stops. */
  lemma {:induction false} ScansNumerals(t: Text, rest: Text, w: Option<nat>)
    ensures Scans(t, rest, w) <==> Numeral(t, rest, w)
  {
    if Scans(t, rest, w) {
      ScannedIsNumeral(t, rest, w);
    }
    if Numeral(t, rest, w) {
      var i, j, n :| NumeralAt(t, i, j, n) && rest == t[n..] && Longest(t, i, n, w);
      NumeralIsScanned(t, i, j, n, w);
    }
  }

  /** How many digits a scan takes at `j`, its blanks ending at `i`. */
  function Taken(t: Text, i: nat, j: nat, w: Option<nat>): int
    requires i <= j <= |t|
  {
    var limit := if w.None? then |t| - j else w.value - (j - i);
    if DigitRun(t[j..]) <= limit then DigitRun(t[j..]) else limit
  }

  lemma {:induction false} ScanAt(t: Text, i: nat, j: nat, w: Option<nat>)
    requires i <= |t| && SkipSpace(t) == t[i..]
    requires j == if i < |t| && (t[i] == 43 || t[i] == 45) then i + 1 else i
    ensures var k := Taken(t, i, j, w);
            if k <= 0 then ScanNumber(t, w) == None
            else j + k <= |t| && ScanNumber(t, w).Some? && ScanNumber(t, w).value.1 == t[j + k..]
  {
    hide NatOf, SkipSpace, DigitRun;
    var u := t[i..];
    assert u != [] ==> u[0] == t[i];
    assert j == i + 1 ==> u[1..] == t[j..];
    var k := Taken(t, i, j, w);
    if k > 0 {
      assert t[j..][k..] == t[j + k..];
    }
  }

  lemma {:induction false} DigitsFrom(t: Text, j: nat, k: nat)
    requires j <= |t| && k <= DigitRun(t[j..])
    ensures forall m :: j <= m < j + k ==> 48 <= t[m] <= 57
    ensures k == DigitRun(t[j..]) && j + k < |t| ==> t[j + k] < 48 || t[j + k] > 57
  {
    hide DigitRun;
    RunOf(t[j..]);
    forall m | j <= m < j + k ensures 48 <= t[m] <= 57 {
      assert t[m] == t[j..][m - j];
    }
    assert j + k < |t| ==> t[j + k] == t[j..][k];
  }

  lemma {:induction false} ScannedIsNumeral(t: Text, rest: Text, w: Option<nat>)
    requires Scans(t, rest, w)
    ensures Numeral(t, rest, w)
  {
    hide ScanNumber, SkipSpace, DigitRun, Numeral;
    var i := Blanks(t);
    var j := if i < |t| && (t[i] == 43 || t[i] == 45) then i + 1 else i;
    ScanAt(t, i, j, w);
    TakenIsNumeral(t, i, j, w);
  }

  lemma {:induction false} TakenIsNumeral(t: Text, i: nat, j: nat, w: Option<nat>)
    requires i <= |t| && (forall m :: 0 <= m < i ==> IsSpace(t[m]))
    requires j == if i < |t| && (t[i] == 43 || t[i] == 45) then i + 1 else i
    requires var k := Taken(t, i, j, w); k > 0 && j + k <= |t|
    ensures Numeral(t, t[j + Taken(t, i, j, w)..], w)
  {
    hide DigitRun, Numeral;
    var k: nat := Taken(t, i, j, w);
    DigitsFrom(t, j, k);
    NumeralFound(t, i, j, j + k, w);
  }

  lemma {:induction false} NumeralFound(t: Text, i: nat, j: nat, n: nat, w: Option<nat>)
    requires NumeralAt(t, i, j, n) && Longest(t, i, n, w)
    ensures Numeral(t, t[n..], w)
  {
  }

  lemma {:induction false} NumeralIsScanned(t: Text, i: nat, j: nat, n: nat, w: Option<nat>)
    requires NumeralAt(t, i, j, n) && Longest(t, i, n, w)
    ensures Scans(t, t[n..], w)
  {
    hide ScanNumber, SkipSpace, DigitRun;
    SkipsBlanks(t, i);
    ScanAt(t, i, j, w);
    var v := t[j..];
    assert forall m :: 0 <= m < |v| ==> v[m] == t[m + j];
    DigitsRun(v, n - j);
  }

  /** A scan of a timestamp succeeds exactly on a text of this form, with whatever after it. */
  lemma {:induction false} ScansIffStampText(t: Text, w: Option<nat>)
    ensures ScanStamp(t, w).Some? <==> IsStampText(t, w)
  {
    if ScanStamp(t, w).Some? {
      ScannedHasForm(t, w);
    }
    if IsStampText(t, w) {
      FormIsScanned(t, w);
    }
    hide ScanStamp, IsStampText;
  }

  /** The Ground Station takes a text for a timestamp exactly when it has this form; anything else is malformed. */
  lemma {:induction false} ParsesIffStampText(t: Text)
    ensures Parse(t).Some? <==> IsStampText(t, None)
  {
    hide ScanStamp, IsStampText;
    ScansIffStampText(t, None);
  }

  /** A number out of range is cut to its low eight bits, negative ones included. */
  lemma {:induction false} CastIsCongruent(n: int)
    ensures (n - Cast(n)) % 256 == 0
  {
  }

  /** The LNC takes a line into account exactly when `[20` and numerals of at most two places begin it. */
  lemma {:induction false} ParsesLineIff(line: Text)
    ensures ParseLine(line).Some? <==> |line| >= 3 && line[..3] == [91, 50, 48] && IsStampText(line[3..], Some(2))
  {
    hide ScanStamp, IsStampText;
    if |line| >= 3 {
      assert line[1..][1..][1..] == line[3..];
      assert line[1..][0] == line[1] && line[1..][1..][0] == line[2];
      ScansIffStampText(line[3..], Some(2));
    }
  }

  lemma {:induction false} ScanSkipsBlanks(t: Text, w: Option<nat>)
    ensures ScanNumber(SkipSpace(t), w) == ScanNumber(t, w)
  {
    hide NatOf, DigitRun, SkipSpace;
    SkipTwice(t);
  }

  lemma {:induction false} SkipTwice(t: Text)
    ensures SkipSpace(SkipSpace(t)) == SkipSpace(t)
  {
    if t != [] && IsSpace(t[0]) {
      SkipTwice(t[1..]);
    }
  }

  lemma {:induction false} ScannedHasForm(t: Text, w: Option<nat>)
    requires ScanStamp(t, w).Some?
    ensures IsStampText(t, w)
  {
    hide ScanNumber, Numeral, SkipSpace;
    var u1 := ScanNumber(t, w).value.1;
    var t1 := u1[1..];
    assert u1 == [45] + t1;
    var u2 := ScanNumber(t1, w).value.1;
    var t2 := u2[1..];
    assert u2 == [45] + t2;
    var t3 := ScanNumber(t2, w).value.1;
    ScanSkipsBlanks(t3, w);
    var u4 := ScanNumber(t3, w).value.1;
    var t4 := u4[1..];
    assert u4 == [58] + t4;
    var u5 := ScanNumber(t4, w).value.1;
    var t5 := u5[1..];
    assert u5 == [58] + t5;
    var t6 := ScanNumber(t5, w).value.1;
    ScansNumerals(t, [45] + t1, w);
    ScansNumerals(t1, [45] + t2, w);
    ScansNumerals(t2, t3, w);
    ScansNumerals(t3, [58] + t4, w);
    ScansNumerals(t4, [58] + t5, w);
    ScansNumerals(t5, t6, w);
  }

  lemma {:induction false} FormIsScanned(t: Text, w: Option<nat>)
    requires IsStampText(t, w)
    ensures ScanStamp(t, w).Some?
  {
    hide Numeral, ScanStamp;
    var t1, t2, t3, t4, t5, t6 :|
      && Numeral(t, [45] + t1, w) && Numeral(t1, [45] + t2, w) && Numeral(t2, t3, w)
      && Numeral(t3, [58] + t4, w) && Numeral(t4, [58] + t5, w) && Numeral(t5, t6, w);
    hide IsStampText;
    SixNumerals(t, t1, t2, t3, t4, t5, t6, w);
  }

  lemma {:induction false} SixNumerals(t: Text, t1: Text, t2: Text, t3: Text, t4: Text, t5: Text, t6: Text,
                                       w: Option<nat>)
    requires Numeral(t, [45] + t1, w) && Numeral(t1, [45] + t2, w) && Numeral(t2, t3, w)
    requires Numeral(t3, [58] + t4, w) && Numeral(t4, [58] + t5, w) && Numeral(t5, t6, w)
    ensures ScanStamp(t, w).Some?
  {
    hide ScanNumber, Numeral, SkipSpace, ScanStamp, Scans;
    ScansNumerals(t, [45] + t1, w);
    ScansNumerals(t1, [45] + t2, w);
    ScansNumerals(t2, t3, w);
    ScansNumerals(t3, [58] + t4, w);
    ScansNumerals(t4, [58] + t5, w);
    ScansNumerals(t5, t6, w);
    SixScans(t, t1, t2, t3, t4, t5, t6, w);
  }

  lemma {:induction false} LiteralRead(c: Byte, t: Text)
    ensures ScanLiteral([c] + t, c) == Some(t)
  {
    assert ([c] + t)[1..] == t;
  }

  lemma {:induction false} SixScans(t: Text, t1: Text, t2: Text, t3: Text, t4: Text, t5: Text, t6: Text, w: Option<nat>)
    requires Scans(t, [45] + t1, w) && Scans(t1, [45] + t2, w) && Scans(t2, t3, w)
    requires Scans(t3, [58] + t4, w) && Scans(t4, [58] + t5, w) && Scans(t5, t6, w)
    ensures ScanStamp(t, w).Some?
  {
    hide ScanNumber, SkipSpace, ScanLiteral;
    LiteralRead(45, t1);
    LiteralRead(45, t2);
    LiteralRead(58, t4);
    LiteralRead(58, t5);
    ScanSkipsBlanks(t3, w);
  }

  // ---------------------------------------------------------------- order

  /** The LNC's `timestamp_key`: six fields as the base-100 digits of one integer. */
  function Key(s: Stamp): nat {
    ((((s.year * 100 + s.month) * 100 + s.date) * 100 + s.hour) * 100 + s.min) * 100 + s.sec
  }

  /** Lexicographic order, as SQLite compares text and as dates are compared field by field. */
  predicate LexLe(a: seq<int>, b: seq<int>) {
    a == [] || (b != [] && (a[0] < b[0] || (a[0] == b[0] && LexLe(a[1..], b[1..]))))
  }

  function Fields(s: Stamp): seq<int> {
    [s.year as int, s.month as int, s.date as int, s.hour as int, s.min as int, s.sec as int]
  }

  /** Blocks of equal length are compared first. */
  lemma {:induction false} LexBlocks(p: seq<int>, x: seq<int>, q: seq<int>, y: seq<int>)
    requires |p| == |q|
    ensures LexLe(p + x, q + y) <==> (p != q && LexLe(p, q)) || (p == q && LexLe(x, y))
    decreases |p|
  {
    if p == [] {
      assert p + x == x && q + y == y;
    } else {
      assert (p + x)[1..] == p[1..] + x && (q + y)[1..] == q[1..] + y;
      LexBlocks(p[1..], x, q[1..], y);
      assert p == [p[0]] + p[1..] && q == [q[0]] + q[1..];
    }
  }

  lemma {:induction false} TwoDigitsOrder(m: Byte, n: Byte)
    requires m < 100 && n < 100
    ensures TwoDigits(m) == TwoDigits(n) <==> m == n
    ensures LexLe(TwoDigits(m), TwoDigits(n)) <==> m <= n
  {
    var a, b := TwoDigits(m), TwoDigits(n);
    assert a[1..] == [a[1]] && b[1..] == [b[1]];
    assert a[1..][1..] == [] && b[1..][1..] == [];
    assert LexLe(a[1..], b[1..]) <==> a[1] <= b[1];
  }

  /** A printed field and the separator after it decide the order unless they are equal. */
  lemma {:induction false} FieldOrder(m: Byte, n: Byte, sep: Byte, x: Text, y: Text)
    requires m < 100 && n < 100
    ensures LexLe(TwoDigits(m) + ([sep] + x), TwoDigits(n) + ([sep] + y)) <==> m < n || (m == n && LexLe(x, y))
  {
    hide TwoDigits, LexLe;
    LexBlocks(TwoDigits(m), [sep] + x, TwoDigits(n), [sep] + y);
    LexBlocks([sep], x, [sep], y);
    TwoDigitsOrder(m, n);
  }

  lemma {:induction false} ClockOrder(a: Stamp, b: Stamp)
    requires Plain(a) && Plain(b)
    ensures LexLe(Clock(a), Clock(b)) <==> ClockKey(a) <= ClockKey(b)
  {
    hide TwoDigits, LexLe;
    FieldOrder(a.hour, b.hour, COLON, TwoDigits(a.min) + ([COLON] + TwoDigits(a.sec)),
               TwoDigits(b.min) + ([COLON] + TwoDigits(b.sec)));
    FieldOrder(a.min, b.min, COLON, TwoDigits(a.sec), TwoDigits(b.sec));
    TwoDigitsOrder(a.sec, b.sec);
  }

  function ClockKey(s: Stamp): nat {
    (s.hour * 100 + s.min) * 100 + s.sec
  }

  function DateKey(s: Stamp): nat {
    (s.year * 100 + s.month) * 100 + s.date
  }

  lemma {:induction false} KeySplits(s: Stamp)
    requires Plain(s)
    ensures Key(s) == DateKey(s) * 1000000 + ClockKey(s) && ClockKey(s) < 1000000
  {
  }

  function DateText(s: Stamp): Text {
    TwoDigits(s.year) + ([DASH] + (TwoDigits(s.month) + ([DASH] + (TwoDigits(s.date) + ([SPACE] + Clock(s))))))
  }

  lemma {:induction false} DateOrder(a: Stamp, b: Stamp)
    requires Plain(a) && Plain(b)
    ensures LexLe(DateText(a), DateText(b)) <==>
            DateKey(a) < DateKey(b) || (DateKey(a) == DateKey(b) && LexLe(Clock(a), Clock(b)))
  {
    hide TwoDigits, LexLe, Clock;
    var da, db := TwoDigits(a.date) + ([SPACE] + Clock(a)), TwoDigits(b.date) + ([SPACE] + Clock(b));
    FieldOrder(a.year, b.year, DASH, TwoDigits(a.month) + ([DASH] + da), TwoDigits(b.month) + ([DASH] + db));
    FieldOrder(a.month, b.month, DASH, da, db);
    FieldOrder(a.date, b.date, SPACE, Clock(a), Clock(b));
  }

  /**
    The Central Computer's text comparison and the LNC's integer comparison select the same
    instants, for any two timestamps of the years 2000 to 2099.
   */
  lemma {:induction false} TextOrderIsKeyOrder(a: Stamp, b: Stamp)
    requires Plain(a) && Plain(b)
    ensures LexLe(Format(a), Format(b)) <==> Key(a) <= Key(b)
  {
    hide TwoDigits, LexLe, Clock, FourDigits;
    YearInTwoHalves(a.year);
    YearInTwoHalves(b.year);
    var twenty := [Digit(2), Digit(0)];
    assert Format(a) == twenty + DateText(a) && Format(b) == twenty + DateText(b);
    LexBlocks(twenty, DateText(a), twenty, DateText(b));
    DateOrder(a, b);
    ClockOrder(a, b);
    KeySplits(a);
    KeySplits(b);
  }

  /** Bytes of 100 and more, which a request may carry, break the key's order. */
  lemma {:induction false} LargeFieldsBreakKeyOrder()
    ensures exists a, b :: LexLe(Fields(a), Fields(b)) && Key(a) > Key(b)
  {
    var a, b := Stamp(26, 1, 1, 0, 0, 255), Stamp(26, 1, 1, 0, 1, 0);
    assert LexLe(Fields(a)[4..], Fields(b)[4..]);
    assert Fields(a)[3..][1..] == Fields(a)[4..] && Fields(b)[3..][1..] == Fields(b)[4..];
    assert Fields(a)[2..][1..] == Fields(a)[3..] && Fields(b)[2..][1..] == Fields(b)[3..];
    assert Fields(a)[1..][1..] == Fields(a)[2..] && Fields(b)[1..][1..] == Fields(b)[2..];
    assert LexLe(Fields(a), Fields(b));
  }
}
