/**
  When the LNC's integer key orders timestamps as their fields do. A request carries any
  bytes as fields; the lines it is compared with have two-digit ones. The key reads the
  fields as digits to base 100, so a larger field carries into the ones before it.
 */
module KeyOrder {
  import opened Bytes
  import opened Timestamps

  function Hundreds(n: nat): (p: nat)
    ensures p > 0
  {
    if n == 0 then 1 else 100 * Hundreds(n - 1)
  }

  /** Fields as digits to base 100, most significant first. */
  function Value(f: seq<int>): int {
    if f == [] then 0 else f[0] * Hundreds(|f| - 1) + Value(f[1..])
  }

  ghost predicate Natural(f: seq<int>) {
    forall i :: 0 <= i < |f| ==> f[i] >= 0
  }

  /** Digits to base 100. */
  ghost predicate TwoDigit(f: seq<int>) {
    forall i :: 0 <= i < |f| ==> 0 <= f[i] < 100
  }

  /** Every field before the first that is 100 or more is 99. */
  ghost predicate Orderly(f: seq<int>) {
    forall j :: 0 <= j < |f| && f[j] >= 100 && TwoDigit(f[..j]) ==> forall i :: 0 <= i < j ==> f[i] == 99
  }

  /** The first field that is 100 or more is 100 and all after it are 0: as a key, the next moment rounded. */
  ghost predicate RoundsUp(f: seq<int>) {
    f != [] && if f[0] >= 100 then f[0] == 100 && f[1..] == Noughts(|f| - 1) else RoundsUp(f[1..])
  }

  function Noughts(n: nat): (z: seq<int>)
    ensures |z| == n
  {
    seq(n, _ => 0)
  }

  lemma {:induction false} TailPrefix(f: seq<int>, j: nat)
    requires f != [] && 0 <= f[0] < 100 && 0 < j <= |f|
    ensures TwoDigit(f[..j]) <==> TwoDigit(f[1..][..j - 1])
  {
    var p, q := f[..j], f[1..][..j - 1];
    assert p == [f[0]] + q;
    assert forall i :: 0 <= i < j - 1 ==> q[i] == p[i + 1];
  }

  lemma {:induction false} Tail(f: seq<int>)
    requires f != []
    ensures TwoDigit(f) <==> 0 <= f[0] < 100 && TwoDigit(f[1..])
    ensures Natural(f) <==> f[0] >= 0 && Natural(f[1..])
  {
    var t := f[1..];
    assert forall i :: 0 <= i < |t| ==> t[i] == f[i + 1];
    assert forall i :: 0 < i < |f| ==> f[i] == t[i - 1];
  }

  lemma {:induction false} OrderlyTail(f: seq<int>)
    requires Natural(f) && f != []
    ensures Orderly(f) <==> f[0] >= 100 || TwoDigit(f) || (f[0] == 99 && Orderly(f[1..]))
  {
    var t := f[1..];
    assert forall i :: 0 <= i < |t| ==> t[i] == f[i + 1];
    if f[0] >= 100 {
      assert forall j :: 0 < j < |f| ==> f[..j][0] == f[0];
    } else {
      if Orderly(f) && !TwoDigit(f) {
        var first := FirstLarge(f);
        assert f[0] == 99;
        forall j | 0 <= j < |t| && t[j] >= 100 && TwoDigit(t[..j]) ensures forall i :: 0 <= i < j ==> t[i] == 99 {
          TailPrefix(f, j + 1);
          assert f[j + 1] >= 100;
        }
      }
      if f[0] == 99 && Orderly(t) {
        forall j | 0 <= j < |f| && f[j] >= 100 && TwoDigit(f[..j]) ensures forall i :: 0 <= i < j ==> f[i] == 99 {
          TailPrefix(f, j);
          assert t[j - 1] >= 100;
          assert forall i :: 0 < i < j ==> f[i] == t[i - 1];
        }
      }
    }
  }

  lemma {:induction false} FirstLarge(f: seq<int>) returns (j: nat)
    requires Natural(f) && !TwoDigit(f)
    ensures j < |f| && f[j] >= 100 && TwoDigit(f[..j])
  {
    if f[0] >= 100 {
      j := 0;
    } else {
      assert forall i :: 0 <= i < |f| - 1 ==> f[1..][i] == f[i + 1];
      j := FirstLarge(f[1..]);
      TailPrefix(f, j + 1);
      j := j + 1;
    }
  }

  // ---------------------------------------------------------------- lexicographic order

  lemma {:induction false} LexTotal(f: seq<int>, g: seq<int>)
    requires |f| == |g|
    ensures LexLe(f, g) || LexLe(g, f)
    ensures LexLe(f, g) && LexLe(g, f) ==> f == g
    ensures f == g ==> LexLe(f, g)
  {
    if f != [] {
      LexTotal(f[1..], g[1..]);
      assert f == [f[0]] + f[1..] && g == [g[0]] + g[1..];
    }
  }

  /** One digit more outweighs whatever two-digit tail. */
  lemma {:induction false} OneMore(a: int, b: int, p: nat)
    requires a < b
    ensures a * p + p <= b * p
    decreases b - a
  {
    if a + 1 < b {
      OneMore(a, b - 1, p);
    }
  }

  lemma {:induction false} ValueBounds(f: seq<int>)
    requires Natural(f)
    ensures Value(f) >= 0
    ensures TwoDigit(f) ==> Value(f) < Hundreds(|f|)
  {
    if f != [] {
      Tail(f);
      ValueBounds(f[1..]);
      if f[0] < 100 {
        OneMore(f[0], 100, Hundreds(|f| - 1));
      }
      OneMore(-1, f[0], Hundreds(|f| - 1));
    }
  }

  /** A two-digit timestamp that comes before has a smaller key, whatever it comes before. */
  lemma {:induction false} EarlierIsSmaller(g: seq<int>, f: seq<int>)
    requires |g| == |f| && TwoDigit(g) && Natural(f) && LexLe(g, f) && g != f
    ensures Value(g) < Value(f)
  {
    assert g == [g[0]] + g[1..] && f == [f[0]] + f[1..];
    Tail(f);
    Tail(g);
    hide TwoDigit, Natural;
    if g[0] == f[0] {
      EarlierIsSmaller(g[1..], f[1..]);
    } else {
      ValueBounds(g[1..]);
      ValueBounds(f[1..]);
      OneMore(g[0], f[0], Hundreds(|f| - 1));
    }
  }

  /** An orderly timestamp with a large field lies above all two-digit ones. */
  lemma {:induction false} LargeOrderly(f: seq<int>)
    requires Natural(f) && Orderly(f) && !TwoDigit(f)
    ensures Value(f) >= Hundreds(|f|)
  {
    OrderlyTail(f);
    Tail(f);
    hide Orderly, Natural;
    ValueBounds(f[1..]);
    if f[0] >= 100 {
      OneMore(99, f[0], Hundreds(|f| - 1));
    } else {
      LargeOrderly(f[1..]);
    }
  }

  /** A two-digit timestamp that comes after an orderly one has a larger key. */
  lemma {:induction false} LaterIsLarger(f: seq<int>, g: seq<int>)
    requires |g| == |f| && TwoDigit(g) && Natural(f) && LexLe(f, g) && g != f && Orderly(f)
    ensures Value(f) < Value(g)
  {
    hide Orderly;
    if TwoDigit(f) {
      EarlierIsSmaller(f, g);
    } else {
      OrderlyTail(f);
      assert g == [g[0]] + g[1..] && f == [f[0]] + f[1..];
      Tail(f);
      Tail(g);
      hide TwoDigit, Natural;
      assert f[0] == g[0] == 99;
      LaterIsLarger(f[1..], g[1..]);
    }
  }

  // ---------------------------------------------------------------- the failing case

  /** The first two-digit timestamp after one that is not orderly. */
  ghost function Next(f: seq<int>): (g: seq<int>)
    requires Natural(f) && !Orderly(f)
    ensures |g| == |f|
  {
    OrderlyTail(f);
    Tail(f);
    if Orderly(f[1..]) then [f[0] + 1] + Noughts(|f| - 1) else [f[0]] + Next(f[1..])
  }

  lemma {:induction false} NoughtsAreDigits(n: nat)
    ensures TwoDigit(Noughts(n)) && Natural(Noughts(n))
  {
  }

  lemma {:induction false} ValueOfNoughts(f: seq<int>)
    requires Natural(f)
    ensures Value(f) == 0 <==> f == Noughts(|f|)
  {
    if f != [] {
      var t := f[1..];
      Tail(f);
      ValueOfNoughts(t);
      ValueBounds(t);
      if f[0] > 0 {
        OneMore(0, f[0], Hundreds(|f| - 1));
      }
      assert f == [f[0]] + t;
      assert Noughts(|f|) == [0] + Noughts(|t|);
    }
  }

  lemma {:induction false} RoundsUpExactly(f: seq<int>)
    requires Natural(f) && Orderly(f) && !TwoDigit(f)
    ensures Value(f) == Hundreds(|f|) <==> RoundsUp(f)
  {
    OrderlyTail(f);
    Tail(f);
    hide Orderly, Natural, TwoDigit;
    var t := f[1..];
    ValueBounds(t);
    if f[0] >= 100 {
      ValueOfNoughts(t);
      if f[0] > 100 {
        OneMore(100, f[0], Hundreds(|t|));
      }
    } else {
      RoundsUpExactly(t);
    }
  }

  /** It comes after, yet its key is no larger. */
  lemma {:induction false} NextIsLater(f: seq<int>)
    requires Natural(f) && !Orderly(f)
    ensures TwoDigit(Next(f)) && LexLe(f, Next(f)) && Next(f) != f
    ensures Value(Next(f)) <= Value(f) && (Value(Next(f)) == Value(f) <==> RoundsUp(f))
  {
    OrderlyTail(f);
    var t, g := f[1..], Next(f);
    Tail(f);
    Tail(g);
    hide Orderly, Natural, TwoDigit, Value, LexLe;
    if Orderly(t) {
      NextCarries(f);
    } else {
      assert g == [f[0]] + Next(t) && g[1..] == Next(t);
      NextIsLater(t);
      SameHead(f, g);
    }
  }

  lemma {:induction false} SameHead(f: seq<int>, g: seq<int>)
    requires f != [] && |g| == |f| && f[0] == g[0]
    ensures LexLe(f, g) <==> LexLe(f[1..], g[1..])
    ensures Value(g) - Value(f) == Value(g[1..]) - Value(f[1..])
  {
  }

  lemma {:induction false} NextCarries(f: seq<int>)
    requires Natural(f) && !Orderly(f) && Orderly(f[1..])
    ensures TwoDigit(Next(f)) && LexLe(f, Next(f)) && Next(f) != f
    ensures Value(Next(f)) == (f[0] + 1) * Hundreds(|f| - 1)
    ensures Value(Next(f)) <= Value(f) && (Value(Next(f)) == Value(f) <==> RoundsUp(f))
  {
    OrderlyTail(f);
    var t, g := f[1..], Next(f);
    assert g == [f[0] + 1] + Noughts(|t|) && g[1..] == Noughts(|t|);
    Tail(f);
    Tail(g);
    NoughtsAreDigits(|t|);
    hide Orderly, Natural, TwoDigit, Next, Noughts;
    ValueOfNoughts(g[1..]);
    LargeOrderly(t);
    RoundsUpExactly(t);
    assert (f[0] + 1) * Hundreds(|t|) == f[0] * Hundreds(|t|) + Hundreds(|t|);
  }

  lemma {:induction false} NextIsFirst(f: seq<int>, g: seq<int>)
    requires Natural(f) && !Orderly(f) && |g| == |f| && TwoDigit(g) && LexLe(f, g)
    ensures LexLe(Next(f), g) && Value(Next(f)) <= Value(g)
  {
    hide Orderly, Natural, TwoDigit, LexLe, Value, Next;
    NextIsLater(f);
    NextIsBefore(f, g);
    if Next(f) != g {
      TwoDigitIsNatural(g);
      EarlierIsSmaller(Next(f), g);
    }
  }

  lemma {:induction false} NextIsBefore(f: seq<int>, g: seq<int>)
    requires Natural(f) && !Orderly(f) && |g| == |f| && TwoDigit(g) && LexLe(f, g)
    ensures LexLe(Next(f), g)
  {
    OrderlyTail(f);
    var t, n := f[1..], Next(f);
    Tail(f);
    Tail(g);
    hide Orderly, Natural, TwoDigit;
    if Orderly(t) {
      assert n == [f[0] + 1] + Noughts(|t|) && n[1..] == Noughts(|t|);
      NoughtsFirst(g[1..]);
      if g[0] == f[0] {
        LargeNotBefore(t, g[1..]);
      }
    } else {
      assert n == [f[0]] + Next(t) && n[1..] == Next(t);
      hide Next;
      if g[0] == f[0] {
        NextIsBefore(t, g[1..]);
      }
    }
  }

  lemma {:induction false} NoughtsFirst(g: seq<int>)
    requires TwoDigit(g)
    ensures LexLe(Noughts(|g|), g)
  {
    if g != [] {
      Tail(g);
      NoughtsFirst(g[1..]);
      assert Noughts(|g|)[1..] == Noughts(|g| - 1);
    }
  }

  /** No two-digit timestamp comes after an orderly one with a large field. */
  lemma {:induction false} LargeNotBefore(f: seq<int>, g: seq<int>)
    requires Natural(f) && Orderly(f) && !TwoDigit(f) && |g| == |f| && TwoDigit(g)
    ensures !LexLe(f, g)
  {
    if LexLe(f, g) {
      LaterIsLarger(f, g);
      LargeOrderly(f);
      ValueBounds(g);
    }
  }

  // ---------------------------------------------------------------- timestamps

  lemma {:induction false} KeyIsValue(s: Stamp)
    ensures Key(s) == Value(Fields(s)) && Natural(Fields(s)) && (Plain(s) <==> TwoDigit(Fields(s)))
  {
    var f := Fields(s);
    var f5, f4, f3, f2, f1 := f[5..], f[4..], f[3..], f[2..], f[1..];
    assert f4[1..] == f5 && f3[1..] == f4 && f2[1..] == f3 && f1[1..] == f2 && f5[1..] == [];
    assert Hundreds(1) == 100 && Hundreds(2) == 10000 && Hundreds(3) == 1000000;
    assert Hundreds(4) == 100000000 && Hundreds(5) == 10000000000;
    assert Value(f5) == s.sec;
    assert Value(f4) == s.min * 100 + Value(f5);
    assert Value(f3) == s.hour * 10000 + Value(f4);
    assert Value(f2) == s.date * 1000000 + Value(f3);
    assert Value(f1) == s.month * 100000000 + Value(f2);
    assert Value(f) == s.year * 10000000000 + Value(f1);
    if TwoDigit(f) {
      assert f[0] < 100 && f[1] < 100 && f[2] < 100 && f[3] < 100 && f[4] < 100 && f[5] < 100;
    }
  }

  ghost function StampOf(f: seq<int>): (s: Stamp)
    requires |f| == 6 && TwoDigit(f)
    ensures Fields(s) == f && Plain(s)
  {
    Stamp(f[0], f[1], f[2], f[3], f[4], f[5])
  }

  /** As the end of a range, `a` is compared by key as it is field by field. */
  ghost predicate JudgesUpTo(a: Stamp, b: Stamp) {
    LexLe(Fields(b), Fields(a)) <==> Key(b) <= Key(a)
  }

  /** Likewise as the start of one. */
  ghost predicate JudgesFrom(a: Stamp, b: Stamp) {
    LexLe(Fields(a), Fields(b)) <==> Key(a) <= Key(b)
  }

  /**
    A range that ends at `a` is judged by key as by fields, for every two-digit timestamp,
    exactly when every field of `a` before its first large one is 99.
   */
  lemma {:induction false} EndJudgedIffOrderly(a: Stamp)
    ensures (forall b | Plain(b) :: JudgesUpTo(a, b)) <==> Orderly(Fields(a))
  {
    hide Key, Orderly, Value;
    var f := Fields(a);
    KeyIsValue(a);
    forall b | Plain(b) && (Orderly(f) || LexLe(Fields(b), f)) ensures JudgesUpTo(a, b) {
      JudgedRight(a, b);
    }
    if !Orderly(f) {
      NextIsLater(f);
      var b := StampOf(Next(f));
      KeyIsValue(b);
      LexTotal(f, Next(f));
      assert !JudgesUpTo(a, b);
    }
  }

  /** A range that starts at `a`: exactly when, besides, the key of `a` may round up to the next moment's. */
  lemma {:induction false} StartJudgedIffOrderly(a: Stamp)
    ensures (forall b | Plain(b) :: JudgesFrom(a, b)) <==> Orderly(Fields(a)) || RoundsUp(Fields(a))
  {
    hide Key, Orderly, Value, RoundsUp;
    var f := Fields(a);
    KeyIsValue(a);
    if Orderly(f) {
      forall b | Plain(b) ensures JudgesFrom(a, b) {
        JudgedRight(a, b);
      }
    } else {
      NextIsLater(f);
      if RoundsUp(f) {
        forall b | Plain(b) ensures JudgesFrom(a, b) {
          KeyIsValue(b);
          LexTotal(f, Fields(b));
          if LexLe(f, Fields(b)) {
            NextIsFirst(f, Fields(b));
          } else {
            JudgedRight(a, b);
          }
        }
      } else {
        var b := StampOf(Next(f));
        KeyIsValue(b);
        assert !JudgesFrom(a, b);
      }
    }
  }

  lemma {:induction false} JudgedRight(a: Stamp, b: Stamp)
    requires Plain(b) && (Orderly(Fields(a)) || LexLe(Fields(b), Fields(a)))
    ensures JudgesUpTo(a, b) && JudgesFrom(a, b)
  {
    hide Key, Orderly, Value;
    var f, g := Fields(a), Fields(b);
    KeyIsValue(a);
    KeyIsValue(b);
    LexTotal(f, g);
    if f != g {
      if LexLe(g, f) {
        EarlierIsSmaller(g, f);
      } else {
        LaterIsLarger(f, g);
      }
    }
  }

  // ---------------------------------------------------------------- whole ranges

  predicate InFieldRange(first: Stamp, s: Stamp, last: Stamp) {
    LexLe(Fields(first), Fields(s)) && LexLe(Fields(s), Fields(last))
  }

  predicate InKeyRange(first: Stamp, s: Stamp, last: Stamp) {
    Key(first) <= Key(s) <= Key(last)
  }

  /** The start is not orderly and does not round up, and there are times in the range just after it. */
  ghost predicate Skips(first: Stamp, last: Stamp) {
    var f := Fields(first);
    Natural(f) && !Orderly(f) && !RoundsUp(f) && LexLe(Next(f), Fields(last))
  }

  /** The end is not orderly, and by key it comes no earlier than the start, which some two-digit time reaches. */
  ghost predicate Overruns(first: Stamp, last: Stamp) {
    !Orderly(Fields(last)) && Key(first) <= Key(last) && Key(first) <= Key(TOP)
  }

  const TOP := Stamp(99, 99, 99, 99, 99, 99)

  lemma {:induction false} LexTransitive(f: seq<int>, g: seq<int>, h: seq<int>)
    requires |f| == |g| == |h| && LexLe(f, g) && LexLe(g, h)
    ensures LexLe(f, h)
  {
    if f != [] && f[0] == g[0] == h[0] {
      LexTransitive(f[1..], g[1..], h[1..]);
    }
  }

  /** Against a two-digit timestamp, key order errs only by putting an earlier one too late. */
  lemma {:induction false} KeyErrsOneWay(f: seq<int>, g: seq<int>)
    requires |g| == |f| && TwoDigit(g) && Natural(f)
    ensures LexLe(g, f) ==> Value(g) <= Value(f)
    ensures Value(f) <= Value(g) ==> LexLe(f, g)
  {
    hide TwoDigit, Natural, Value;
    LexTotal(f, g);
    if LexLe(g, f) && g != f {
      EarlierIsSmaller(g, f);
    }
  }

  lemma {:induction false} ValueSnoc(f: seq<int>, d: int)
    ensures Value(f + [d]) == 100 * Value(f) + d
  {
    if f == [] {
      assert [d][1..] == [];
    } else {
      assert (f + [d])[1..] == f[1..] + [d];
      ValueSnoc(f[1..], d);
      Scaled(f[0], Hundreds(|f| - 1));
    }
  }

  lemma {:induction false} Scaled(a: int, p: int)
    ensures a * (100 * p) == 100 * (a * p)
  {
  }

  /** Every key below the limit is that of a two-digit timestamp. */
  lemma {:induction false} DigitsOf(v: nat, n: nat) returns (f: seq<int>)
    requires v < Hundreds(n)
    ensures |f| == n && TwoDigit(f) && Value(f) == v
    decreases n
  {
    if n == 0 {
      f := [];
    } else {
      var g := DigitsOf(v / 100, n - 1);
      f := g + [v % 100];
      ValueSnoc(g, v % 100);
    }
  }

  lemma {:induction false} TopKey()
    ensures Key(TOP) + 1 == Hundreds(6)
  {
    assert Hundreds(1) == 100 && Hundreds(2) == 10000 && Hundreds(3) == 1000000;
    assert Hundreds(4) == 100000000 && Hundreds(5) == 10000000000;
  }

  lemma {:induction false} TwoDigitIsOrderly(f: seq<int>)
    requires TwoDigit(f)
    ensures Orderly(f)
  {
  }

  lemma {:induction false} SkipsMisjudges(first: Stamp, last: Stamp) returns (b: Stamp)
    requires Skips(first, last)
    ensures Plain(b) && InFieldRange(first, b, last) && !InKeyRange(first, b, last)
  {
    hide Orderly, RoundsUp, Key, Value, Next;
    var f := Fields(first);
    NextIsLater(f);
    b := StampOf(Next(f));
    KeyIsValue(b);
    KeyIsValue(first);
  }

  lemma {:induction false} OverrunsMisjudges(first: Stamp, last: Stamp) returns (b: Stamp)
    requires Overruns(first, last)
    ensures Plain(b) && InKeyRange(first, b, last) && !InFieldRange(first, b, last)
  {
    hide Orderly, Key, Value, Next, Natural, TwoDigit, LexLe, RoundsUp;
    var f := Fields(last);
    KeyIsValue(first);
    KeyIsValue(last);
    NextIsLater(f);
    var n := Next(f);
    b := StampOf(n);
    if Key(first) > Value(n) {
      TopKey();
      ValueBounds(Fields(first));
      var g := DigitsOf(Key(first), 6);
      b := StampOf(g);
      TwoDigitIsNatural(n);
      KeyErrsOneWay(n, g);
      LexTransitive(f, n, g);
    }
    KeyIsValue(b);
    LexTotal(f, Fields(b));
    if Fields(b) == f {
      TwoDigitIsOrderly(f);
    }
  }

  lemma {:induction false} TwoDigitIsNatural(f: seq<int>)
    requires TwoDigit(f)
    ensures Natural(f)
  {
  }

  lemma {:induction false} JudgedUnlessSkipped(first: Stamp, last: Stamp, b: Stamp)
    requires Plain(b) && !Skips(first, last) && InFieldRange(first, b, last)
    ensures InKeyRange(first, b, last)
  {
    hide Orderly, Key, Value, Next, Natural, TwoDigit, LexLe, RoundsUp;
    var f, g := Fields(first), Fields(b);
    KeyIsValue(first);
    KeyIsValue(last);
    KeyIsValue(b);
    KeyErrsOneWay(Fields(last), g);
    if Orderly(f) {
      JudgedRight(first, b);
    } else {
      NextIsLater(f);
      NextIsFirst(f, g);
      LexTransitive(Next(f), g, Fields(last));
    }
  }

  lemma {:induction false} JudgedUnlessOverrun(first: Stamp, last: Stamp, b: Stamp)
    requires Plain(b) && !Overruns(first, last) && InKeyRange(first, b, last)
    ensures InFieldRange(first, b, last)
  {
    hide Orderly, Value, Natural, TwoDigit, LexLe;
    KeyIsValue(first);
    KeyIsValue(b);
    KeyErrsOneWay(Fields(first), Fields(b));
    assert Key(b) <= Key(TOP);
    assert Orderly(Fields(last));
    JudgedRight(last, b);
  }

  /**
    A range is judged by key as by fields, for every two-digit time (also those no clock shows),
    exactly when it neither skips nor overruns.
   */
  lemma {:induction false} RangeJudgedIff(first: Stamp, last: Stamp)
    ensures (forall b | Plain(b) :: InKeyRange(first, b, last) <==> InFieldRange(first, b, last))
            <==> !Skips(first, last) && !Overruns(first, last)
  {
    hide Skips, Overruns, InKeyRange, InFieldRange;
    if Skips(first, last) {
      var b := SkipsMisjudges(first, last);
    } else if Overruns(first, last) {
      var b := OverrunsMisjudges(first, last);
    } else {
      forall b | Plain(b) ensures InKeyRange(first, b, last) <==> InFieldRange(first, b, last) {
        if InFieldRange(first, b, last) {
          JudgedUnlessSkipped(first, last, b);
        } else if InKeyRange(first, b, last) {
          JudgedUnlessOverrun(first, last, b);
        }
      }
    }
  }
}
