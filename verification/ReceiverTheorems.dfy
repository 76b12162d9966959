/**
  What every run of the receiver keeps, and what it delivers.

  The central notion is `Partial`, the bytes of the frame under construction. Each byte
  fed is either counted as dropped, or part of a finished frame, or still in `Partial`,
  and the verdict on a finished frame is the one the whole-buffer decoder gives.
 */
module ReceiverTheorems {
  import opened Bytes
  import opened Crc
  import opened Frame
  import opened Receiver

  // ---------------------------------------------------------------- the frame in progress

  /** The bytes of the unfinished frame, oldest first. */
  ghost function Partial(s: Rx): seq<Byte>
    requires Inv(s)
  {
    match s.state
    case Sof0 => []
    case Sof1 => [SOF0]
    case Tag => [SOF0, SOF1]
    case Len => [SOF0, SOF1, s.tag]
    case Value => [SOF0, SOF1, s.tag, s.len] + s.value[..s.idx]
    case CrcHi => [SOF0, SOF1, s.tag, s.len] + s.value[..s.len]
    case CrcLo => [SOF0, SOF1, s.tag, s.len] + s.value[..s.len] + [HighByte(s.crcRx)]
  }

  /** The running CRC is the CRC of the covered part of the frame in progress. */
  ghost predicate Inv(s: Rx) {
    && Wf(s)
    && match s.state
       case Sof0 => true
       case Sof1 => true
       case Tag => s.crcCalc == INIT
       case Len => s.crcCalc == Crc16([s.tag])
       case Value => s.crcCalc == Crc16([s.tag, s.len] + s.value[..s.idx])
       case CrcHi => s.crcCalc == Crc16([s.tag, s.len] + s.value[..s.len])
       case CrcLo => s.crcCalc == Crc16([s.tag, s.len] + s.value[..s.len]) && s.crcRx == Word(HighByte(s.crcRx), 0)
  }

  lemma {:induction false} InvWf(s: Rx)
    requires Inv(s)
    ensures Wf(s)
  {
  }

  lemma {:induction false} InitialInv()
    ensures Inv(Initial()) && Partial(Initial()) == []
  {
  }

  lemma {:induction false} FoldOfNothing()
    ensures Fold(INIT, []) == INIT
  {
  }

  predicate EndsWith(whole: seq<Byte>, end: seq<Byte>) {
    |end| <= |whole| && whole[|whole| - |end|..] == end
  }

  predicate Hunting(s: Rx) {
    s.state == Sof0 || s.state == Sof1
  }

  /** While hunting, a byte extends the sync pair or is dropped with what it follows. */
  lemma {:induction false} HuntByte(s: Rx, b: Byte)
    requires Inv(s) && Hunting(s)
    ensures var (s', v) := Step(s, b);
            && v == Pending && Inv(s')
            && EndsWith(Partial(s) + [b], Partial(s'))
            && s'.bytesDropped == Wrap(s.bytesDropped + (|Partial(s)| + 1 - |Partial(s')|))
            && s'.framesOk == s.framesOk && s'.crcErrors == s.crcErrors
  {
    hide Update, Word, HighByte, Fold, Inv, Partial, EndsWith;
    HuntPartial(s, b);
    EndsOf(Partial(s), b);
    assert [SOF0] + [SOF1] == [SOF0, SOF1];
  }

  lemma {:induction false} HuntPartial(s: Rx, b: Byte)
    requires Inv(s) && Hunting(s)
    ensures var s' := Step(s, b).0;
            && Inv(s')
            && Partial(s) == (if s.state == Sof0 then [] else [SOF0])
            && Partial(s') == if b == SOF1 && s.state == Sof1 then [SOF0, SOF1] else if b == SOF0 then [SOF0] else []
  {
    hide Update, Word, HighByte, Fold;
  }

  lemma {:induction false} EndsOf(w: seq<Byte>, b: Byte)
    ensures EndsWith(w + [b], []) && EndsWith(w + [b], [b]) && EndsWith(w + [b], w + [b])
  {
  }

  /** Inside a frame nothing is dropped: every byte up to the last joins the frame. */
  lemma {:induction false} CollectByte(s: Rx, b: Byte)
    requires Inv(s) && !Hunting(s) && s.state != CrcLo
    ensures var (s', v) := Step(s, b);
            && v == Pending && Inv(s')
            && Partial(s') == Partial(s) + [b]
            && s'.bytesDropped == s.bytesDropped && s'.framesOk == s.framesOk && s'.crcErrors == s.crcErrors
  {
    hide Update, Word, HighByte, Fold, Wrap;
    match s.state
    case Tag =>
      FoldOfNothing();
      FoldSnoc(INIT, [], b);
      assert [] + [b] == [b];
    case Len =>
      FoldSnoc(INIT, [s.tag], b);
      assert [s.tag] + [b] == [s.tag, b] == [s.tag, b] + [];
    case Value =>
      CollectValueByte(s, b);
    case CrcHi =>
      WordParts(b, 0);
  }

  lemma {:induction false} CollectValueByte(s: Rx, b: Byte)
    requires Inv(s) && s.state == Value
    ensures var (s', v) := Step(s, b);
            && v == Pending && Inv(s') && Partial(s') == Partial(s) + [b]
            && s'.bytesDropped == s.bytesDropped && s'.framesOk == s.framesOk && s'.crcErrors == s.crcErrors
  {
    hide Update, Word, HighByte, Fold, Wrap;
    var s' := Step(s, b).0;
    assert s'.value[..s.idx + 1] == s.value[..s.idx] + [b];
    FoldSnoc(INIT, [s.tag, s.len] + s.value[..s.idx], b);
    assert [s.tag, s.len] + s.value[..s.idx] + [b] == [s.tag, s.len] + (s.value[..s.idx] + [b]);
  }

  /** The last CRC byte: the verdict is what the whole-buffer decoder says of the collected bytes. */
  lemma {:induction false} FinishFrame(s: Rx, b: Byte)
    requires Inv(s) && s.state == CrcLo
    ensures var (s', v) := Step(s, b);
            var bytes := Partial(s) + [b];
            && Inv(s') && Partial(s') == []
            && |bytes| == 6 + s.len
            && s'.bytesDropped == s.bytesDropped
            && (match v
                case Delivered(f) => && bytes == Encode(f)
                                     && s'.framesOk == Wrap(s.framesOk + 1) && s'.crcErrors == s.crcErrors
                case BadCrc => && Decode(bytes) == Rejected(ErrCrc)
                               && s'.framesOk == s.framesOk && s'.crcErrors == Wrap(s.crcErrors + 1)
                case Pending => false)
  {
    hide Update, Word, HighByte, LowByte, Fold, Or, Wrap;
    var hi := HighByte(s.crcRx);
    WordFromOr(hi, b);
    WordParts(hi, b);
    var bytes := Partial(s) + [b];
    var value := s.value[..s.len];
    assert bytes == [SOF0, SOF1] + ([s.tag, s.len] + value) + [hi, b];
    assert bytes[2..4 + |value|] == [s.tag, s.len] + value == Body(Frame(s.tag, value));
  }

  // ---------------------------------------------------------------- what is left over does not matter

  /** Nothing the receiver will look at differs: counters and fields of finished frames may. */
  ghost predicate Alike(s: Rx, t: Rx)
    requires Wf(s) && Wf(t)
  {
    && s.state == t.state
    && (s.state in {Tag, Len, Value, CrcHi, CrcLo} ==> s.crcCalc == t.crcCalc)
    && (s.state in {Len, Value, CrcHi, CrcLo} ==> s.tag == t.tag)
    && (s.state in {Value, CrcHi, CrcLo} ==> s.len == t.len)
    && (s.state == Value ==> s.idx == t.idx && s.value[..s.idx] == t.value[..s.idx])
    && (s.state in {CrcHi, CrcLo} ==> s.value[..s.len] == t.value[..s.len])
    && (s.state == CrcLo ==> s.crcRx == t.crcRx)
  }

  lemma {:induction false} StepAlike(s: Rx, t: Rx, b: Byte)
    requires Wf(s) && Wf(t) && Alike(s, t)
    ensures Step(s, b).1 == Step(t, b).1 && Alike(Step(s, b).0, Step(t, b).0)
  {
    hide Update, Word, Or, Wrap;
    if s.state == Value {
      var s', t' := Step(s, b).0, Step(t, b).0;
      assert s'.value[..s.idx + 1] == s.value[..s.idx] + [b] == t'.value[..s.idx + 1];
    }
  }

  /** Two receivers between frames report the same of the same bytes. */
  lemma {:induction false} RunAlike(s: Rx, t: Rx, data: seq<Byte>)
    requires Wf(s) && Wf(t) && Alike(s, t)
    ensures Run(s, data).reports == Run(t, data).reports && Alike(Run(s, data).rx, Run(t, data).rx)
  {
    hide Step, Alike;
    if data != [] {
      var front := data[..|data| - 1];
      RunAlike(s, t, front);
      StepAlike(Run(s, front).rx, Run(t, front).rx, data[|data| - 1]);
    }
  }

  // ---------------------------------------------------------------- conservation

  /** Bytes that went into frames reported good. */
  function GoodBytes(reports: seq<Verdict>): nat {
    if reports == [] then 0
    else GoodBytes(reports[..|reports| - 1]) +
         (if reports[|reports| - 1].Delivered? then 6 + |reports[|reports| - 1].frame.value| else 0)
  }

  /** Bytes that went into frames that failed their CRC. */
  ghost function BadBytes(s: Rx, data: seq<Byte>): nat
    requires Wf(s)
  {
    if data == [] then 0
    else
      var r := Run(s, data[..|data| - 1]).rx;
      BadBytes(s, data[..|data| - 1]) + if Step(r, data[|data| - 1]).1 == BadCrc then 6 + r.len else 0
  }

  function CountGood(reports: seq<Verdict>): nat {
    if reports == [] then 0
    else CountGood(reports[..|reports| - 1]) + if reports[|reports| - 1].Delivered? then 1 else 0
  }

  function CountBad(reports: seq<Verdict>): nat {
    if reports == [] then 0
    else CountBad(reports[..|reports| - 1]) + if reports[|reports| - 1] == BadCrc then 1 else 0
  }

  lemma {:induction false} CountsSnoc(reports: seq<Verdict>, v: Verdict)
    ensures GoodBytes(reports + Report(v)) == GoodBytes(reports) + if v.Delivered? then 6 + |v.frame.value| else 0
    ensures CountGood(reports + Report(v)) == CountGood(reports) + if v.Delivered? then 1 else 0
    ensures CountBad(reports + Report(v)) == CountBad(reports) + if v == BadCrc then 1 else 0
  {
    if v == Pending {
      assert reports + [] == reports;
    } else {
      assert (reports + [v])[..|reports|] == reports;
    }
  }

  /** The number of fed bytes that are in no finished frame and not in the frame in progress. */
  ghost function Dropped(s: Rx, data: seq<Byte>): int
    requires Inv(s) && Inv(Run(s, data).rx)
  {
    var r := Run(s, data);
    |Partial(s)| + |data| - GoodBytes(r.reports) - BadBytes(s, data) - |Partial(r.rx)|
  }

  /**
    Over every run, each byte fed is dropped, or in a finished frame, or in the frame in
    progress, and the three counters are those totals modulo 2^32.
   */
  lemma {:induction false} Conservation(s: Rx, data: seq<Byte>)
    requires Inv(s)
    ensures Inv(Run(s, data).rx)
    ensures var r := Run(s, data);
            && Dropped(s, data) >= 0
            && r.rx.bytesDropped == Wrap(s.bytesDropped + Dropped(s, data))
            && r.rx.framesOk == Wrap(s.framesOk + CountGood(r.reports))
            && r.rx.crcErrors == Wrap(s.crcErrors + CountBad(r.reports))
    decreases |data|
  {
    hide Run, Step, Inv, Partial, Report, GoodBytes, CountGood, CountBad, BadBytes, Encode, Decode, Wrap;
    InvWf(s);
    if data == [] {
      RunNothing(s);
      EmptyCounts(s);
      NoWrap(s.bytesDropped);
      NoWrap(s.framesOk);
      NoWrap(s.crcErrors);
    } else {
      var front, b := data[..|data| - 1], data[|data| - 1];
      Conservation(s, front);
      var r := Run(s, front);
      var (s', v) := Step(r.rx, b);
      assert front + [b] == data;
      RunLast(s, front, b);
      OneByte(r.rx, b);
      CountsSnoc(r.reports, v);
      BadBytesLast(s, front, b);
      var d := if v == Pending then |Partial(r.rx)| + 1 - |Partial(s')| else 0;
      assert Dropped(s, data) == Dropped(s, front) + d;
      AddWraps(s.bytesDropped + Dropped(s, front), d);
      AddWraps(s.framesOk + CountGood(r.reports), 1);
      AddWraps(s.crcErrors + CountBad(r.reports), 1);
    }
  }

  lemma {:induction false} AddWraps(x: int, d: int)
    ensures Wrap(Wrap(x) + d) == Wrap(x + d)
  {
  }

  lemma {:induction false} BadBytesLast(s: Rx, front: seq<Byte>, b: Byte)
    requires Wf(s)
    ensures var r := Run(s, front).rx;
            BadBytes(s, front + [b]) == BadBytes(s, front) + if Step(r, b).1 == BadCrc then 6 + r.len else 0
  {
    hide Run, Step;
    assert (front + [b])[..|front|] == front;
  }

  lemma {:induction false} EmptyCounts(s: Rx)
    requires Wf(s)
    ensures BadBytes(s, []) == 0
    ensures GoodBytes([]) == 0 && CountGood([]) == 0 && CountBad([]) == 0
  {
  }

  /** What any one byte does to the frame in progress and to the counters. */
  lemma {:induction false} OneByte(s: Rx, b: Byte)
    requires Inv(s)
    ensures var (s', v) := Step(s, b);
            && Inv(s')
            && (v == Pending ==>
                  && EndsWith(Partial(s) + [b], Partial(s'))
                  && s'.bytesDropped == Wrap(s.bytesDropped + (|Partial(s)| + 1 - |Partial(s')|))
                  && s'.framesOk == s.framesOk && s'.crcErrors == s.crcErrors)
            && (v != Pending ==> && Partial(s') == []
                                 && |Partial(s)| + 1 == 6 + s.len
                                 && s'.bytesDropped == s.bytesDropped)
            && (v.Delivered? ==> && Partial(s) + [b] == Encode(v.frame)
                                 && s'.framesOk == Wrap(s.framesOk + 1) && s'.crcErrors == s.crcErrors)
            && (v == BadCrc ==> && Decode(Partial(s) + [b]) == Rejected(ErrCrc)
                                && s'.framesOk == s.framesOk && s'.crcErrors == Wrap(s.crcErrors + 1))
  {
    hide Step, Inv, Partial, Encode, Decode, Wrap;
    NoWrap(s.bytesDropped);
    if s.state == CrcLo {
      FinishFrame(s, b);
    } else if Hunting(s) {
      HuntByte(s, b);
    } else {
      CollectByte(s, b);
    }
  }

  // ---------------------------------------------------------------- soundness: no phantom frames

  /** `frames` occur in `data` as whole encodings, in this order and without overlap. */
  ghost predicate Occur(data: seq<Byte>, frames: seq<Frame>) {
    if frames == [] then true
    else
      var last := frames[|frames| - 1];
      exists i: nat :: i <= |data| && Encode(last) <= data[i..] && Occur(data[..i], frames[..|frames| - 1])
  }

  lemma {:induction false} OccurInLonger(data: seq<Byte>, more: seq<Byte>, frames: seq<Frame>)
    requires Occur(data, frames)
    ensures Occur(data + more, frames)
  {
    hide Encode;
    if frames != [] {
      var last := frames[|frames| - 1];
      var i: nat :| i <= |data| && Encode(last) <= data[i..] && Occur(data[..i], frames[..|frames| - 1]);
      assert (data + more)[..i] == data[..i] && (data + more)[i..] == data[i..] + more;
    }
  }

  /**
    Whatever bytes are fed, in whatever state of a run, every delivered frame was really on
    the wire: the delivered frames occur in the input, in order, without overlap, and ahead
    of the frame in progress.
   */
  lemma {:induction false} OnlyRealFrames(s: Rx, data: seq<Byte>)
    requires Inv(s) && Partial(s) == []
    ensures var r := Run(s, data);
            && Inv(r.rx)
            && EndsWith(data, Partial(r.rx))
            && Occur(data[..|data| - |Partial(r.rx)|], Frames(r.reports))
    decreases |data|
  {
    hide Run, Inv, Partial, Frames, Occur, EndsWith, Step, Report;
    InvWf(s);
    if data == [] {
      RealFramesOfNothing(s);
    } else {
      var n := |data| - 1;
      OnlyRealFrames(s, data[..n]);
      InvWf(Run(s, data[..n]).rx);
      RunLast(s, data[..n], data[n]);
      assert data[..n] + [data[n]] == data;
      RealFramesAfter(Run(s, data[..n]), data[..n], data[n]);
    }
  }

  lemma {:induction false} RealFramesOfNothing(s: Rx)
    requires Inv(s) && Partial(s) == []
    ensures Inv(Run(s, []).rx) && EndsWith([], Partial(Run(s, []).rx))
    ensures Occur([][..0 - |Partial(Run(s, []).rx)|], Frames(Run(s, []).reports))
  {
    hide Inv, Partial;
    InvWf(s);
    RunNothing(s);
    NoFrames();
    EndsWithNothing([]);
  }

  /** One byte more after the run `r` over `front`. */
  lemma {:induction false} RealFramesAfter(r: Outcome, front: seq<Byte>, b: Byte)
    requires Inv(r.rx) && Wf(r.rx) && EndsWith(front, Partial(r.rx))
    requires Occur(front[..|front| - |Partial(r.rx)|], Frames(r.reports))
    ensures Inv(Step(r.rx, b).0)
    ensures var data, left := front + [b], Partial(Step(r.rx, b).0);
            && EndsWith(data, left)
            && Occur(data[..|data| - |left|], Frames(r.reports + Report(Step(r.rx, b).1)))
  {
    hide Step, Inv, Partial, Frames, Occur, Report, Encode, Decode, Wrap;
    var (rx, v) := Step(r.rx, b);
    OneByte(r.rx, b);
    FramesSnoc(r.reports, v);
    EndsWithNothing(Partial(r.rx) + [b]);
    OneByteOn(front, b, Partial(r.rx), Partial(rx), Frames(r.reports), v);
  }

  /** The step of that induction, with `part` the frame in progress before it and `left` the one after. */
  lemma {:induction false} OneByteOn(front: seq<Byte>, b: Byte, part: seq<Byte>, left: seq<Byte>,
                                     frames: seq<Frame>, v: Verdict)
    requires EndsWith(front, part) && Occur(front[..|front| - |part|], frames)
    requires if v.Delivered? then left == [] && part + [b] == Encode(v.frame) else EndsWith(part + [b], left)
    ensures var data := front + [b];
            && EndsWith(data, left)
            && Occur(data[..|data| - |left|], frames + if v.Delivered? then [v.frame] else [])
  {
    hide Encode, Occur, EndsWith;
    var before := SplitEnd(front, part);
    if v.Delivered? {
      EndsWithNothing(part + [b]);
    }
    OneByteMore(before, frames, part + [b], left, v);
    assert before + part + [b] == before + (part + [b]);
  }

  lemma {:induction false} EndsWithNothing(whole: seq<Byte>)
    ensures EndsWith(whole, [])
  {
  }

  lemma {:induction false} SplitEnd(whole: seq<Byte>, end: seq<Byte>) returns (before: seq<Byte>)
    requires EndsWith(whole, end)
    ensures |end| <= |whole| && before == whole[..|whole| - |end|] && whole == before + end
  {
    before := whole[..|whole| - |end|];
  }

  /** The same with the input ahead of the frame in progress set apart. */
  lemma {:induction false} OneByteMore(before: seq<Byte>, frames: seq<Frame>, more: seq<Byte>, left: seq<Byte>,
                                       v: Verdict)
    requires Occur(before, frames)
    requires EndsWith(more, left)
    requires v.Delivered? ==> left == [] && more == Encode(v.frame)
    ensures var data := before + more;
            && EndsWith(data, left)
            && Occur(data[..|data| - |left|], frames + if v.Delivered? then [v.frame] else [])
  {
    hide Encode, Occur;
    var data := before + more;
    var cut := |more| - |left|;
    assert data[..|data| - |left|] == before + more[..cut];
    if v.Delivered? {
      assert more[..cut] == more;
      OneMoreFrame(before, frames, v.frame);
    } else {
      OccurInLonger(before, more[..cut], frames);
      assert frames + [] == frames;
    }
  }

  lemma {:induction false} NoFrames()
    ensures Frames([]) == [] && Occur([], [])
  {
  }

  lemma {:induction false} OneMoreFrame(before: seq<Byte>, frames: seq<Frame>, f: Frame)
    requires Occur(before, frames)
    ensures Occur(before + Encode(f), frames + [f])
  {
    hide Encode;
    var data, all := before + Encode(f), frames + [f];
    assert all[..|all| - 1] == frames;
    assert data[..|before|] == before && data[|before|..] == Encode(f);
  }

  // ---------------------------------------------------------------- completeness

  /** The size a block announces in its LEN byte. */
  function BlockSize(w: seq<Byte>): nat
    requires |w| >= 4
  {
    var len: nat := w[3];
    HEADER_SIZE + len + CRC_SIZE
  }

  /** From a receiver at rest, the bytes of a frame are collected without loss up to the last. */
  lemma {:induction false} Collects(s: Rx, w: seq<Byte>, k: nat)
    requires Inv(s) && s.state == Sof0
    requires |w| >= 4 && w[0] == SOF0 && w[1] == SOF1
    requires k <= |w| && k < BlockSize(w)
    ensures var r := Run(s, w[..k]);
            && r.reports == [] && Inv(r.rx) && Partial(r.rx) == w[..k]
            && r.rx.bytesDropped == s.bytesDropped && r.rx.framesOk == s.framesOk && r.rx.crcErrors == s.crcErrors
    decreases k
  {
    hide Run, Fold, Inv, Partial, Step, Wrap;
    if k == 0 {
      InvWf(s);
      RunNothing(s);
      PartialAtRest(s);
    } else {
      InvWf(s);
      Collects(s, w, k - 1);
      var r := Run(s, w[..k - 1]).rx;
      RunLast(s, w[..k - 1], w[k - 1]);
      assert w[..k] == w[..k - 1] + [w[k - 1]];
      CollectsOneMore(r, w, k - 1);
    }
  }

  lemma {:induction false} PartialAtRest(s: Rx)
    requires Inv(s)
    ensures Partial(s) == [] <==> s.state == Sof0
  {
    hide Fold, Word, HighByte;
  }

  lemma {:induction false} CollectsOneMore(r: Rx, w: seq<Byte>, k: nat)
    requires Inv(r) && |w| >= 4 && w[0] == SOF0 && w[1] == SOF1
    requires k < |w| && k + 1 < BlockSize(w) && Partial(r) == w[..k]
    ensures var (s', v) := Step(r, w[k]);
            && v == Pending && Inv(s') && Partial(s') == w[..k + 1]
            && s'.bytesDropped == r.bytesDropped && s'.framesOk == r.framesOk && s'.crcErrors == r.crcErrors
  {
    hide Fold, Inv, Partial, Step, Wrap;
    InProgress(r, w, k);
    assert w[..k + 1] == w[..k] + [w[k]];
    if Hunting(r) {
      assert w[k] == if k == 0 then SOF0 else SOF1;
      CollectsSync(r, w[k]);
    } else {
      CollectByte(r, w[k]);
    }
  }

  lemma {:induction false} CollectsSync(r: Rx, b: Byte)
    requires Inv(r) && Hunting(r) && b == if r.state == Sof0 then SOF0 else SOF1
    ensures var (s', v) := Step(r, b);
            && v == Pending && Inv(s') && Partial(s') == Partial(r) + [b]
            && s'.bytesDropped == r.bytesDropped && s'.framesOk == r.framesOk && s'.crcErrors == r.crcErrors
  {
    hide Fold, Update, Word, HighByte;
  }

  /** How many bytes of a frame have been collected determines the state. */
  lemma {:induction false} InProgress(r: Rx, w: seq<Byte>, k: nat)
    requires Inv(r) && k <= |w| && |w| >= 4 && Partial(r) == w[..k]
    ensures Hunting(r) <==> k < 2
    ensures r.state == Sof0 <==> k == 0
    ensures r.state == CrcLo ==> k == BlockSize(w) - 1
    ensures k == BlockSize(w) - 1 ==> r.state == CrcLo
  {
    hide Fold, Word, HighByte;
    if k >= 4 {
      assert w[3] == Partial(r)[3];
    }
  }

  /** A complete frame-shaped block gets exactly one verdict, on its last byte. */
  lemma {:induction false} OneVerdict(s: Rx, w: seq<Byte>)
    requires Inv(s) && s.state == Sof0
    requires |w| >= 4 && w[0] == SOF0 && w[1] == SOF1 && |w| == BlockSize(w)
    ensures Run(s, w[..|w| - 1]).reports == []
    ensures var r := Run(s, w);
            && Inv(r.rx) && r.rx.state == Sof0
            && |r.reports| == 1
            && r.rx.bytesDropped == s.bytesDropped
            && (match r.reports[0]
                case Delivered(f) => && w == Encode(f)
                                     && r.rx.framesOk == Wrap(s.framesOk + 1) && r.rx.crcErrors == s.crcErrors
                case BadCrc => && Decode(w) == Rejected(ErrCrc)
                               && r.rx.framesOk == s.framesOk && r.rx.crcErrors == Wrap(s.crcErrors + 1)
                case Pending => false)
  {
    hide Run, Step, Partial, Encode, Decode, Inv, Wrap;
    var k := |w| - 1;
    InvWf(s);
    Collects(s, w, k);
    var r := Run(s, w[..k]).rx;
    InProgress(r, w, k);
    FinishFrame(r, w[k]);
    RunLast(s, w[..k], w[k]);
    assert w[..k] + [w[k]] == w;
    PartialAtRest(Run(s, w).rx);
  }

  /** Feeding a block of whole frames byte by byte gives, on its last byte, the block decoder's verdict. */
  lemma {:induction false} StreamingRefinesDecode(s: Rx, buf: seq<Byte>)
    requires Wf(s) && s.state == Sof0
    requires |buf| >= 4 && buf[0] == SOF0 && buf[1] == SOF1 && |buf| >= BlockSize(buf)
    ensures var n := BlockSize(buf);
            && Run(s, buf[..n - 1]).reports == []
            && Run(s, buf[..n]).rx.state == Sof0
            && match Decode(buf)
               case Decoded(f, consumed) => consumed == n && Run(s, buf[..n]).reports == [Delivered(f)]
               case Rejected(status) => status == ErrCrc && Run(s, buf[..n]).reports == [BadCrc]
  {
    hide Fold, Word, Step, Run, Encode, Decode, Wrap;
    var n := BlockSize(buf);
    var w := buf[..n];
    OneVerdict(s, w);
    assert w[..n - 1] == buf[..n - 1];
    var v := Run(s, w).reports[0];
    if v.Delivered? {
      DecodeInvertsEncode(buf, v.frame);
    } else {
      DecodeIgnoresRest(w, buf);
    }
  }

  lemma {:induction false} DecodeIgnoresRest(w: seq<Byte>, buf: seq<Byte>)
    requires w <= buf && Decode(w) == Rejected(ErrCrc)
    ensures Decode(buf) == Rejected(ErrCrc)
  {
    hide Fold, Word;
    var len: nat := w[3];
    assert w[2..4 + len] == buf[2..4 + len];
  }

  /** An encoded frame, whatever its contents, comes out of a receiver at rest unchanged. */
  lemma {:induction false} FrameDelivered(s: Rx, f: Frame)
    requires Wf(s) && s.state == Sof0
    ensures var r := Run(s, Encode(f));
            && Wf(r.rx) && r.rx.state == Sof0
            && r.reports == [Delivered(f)]
            && r.rx.framesOk == Wrap(s.framesOk + 1)
            && r.rx.bytesDropped == s.bytesDropped && r.rx.crcErrors == s.crcErrors
  {
    hide Fold, HighByte, LowByte, Run, Decode, Wrap;
    var w := Encode(f);
    OneVerdict(s, w);
    DecodeInvertsEncode(w, f);
    var v := Run(s, w).reports[0];
    if v.Delivered? {
      DecodeInvertsEncode(w, v.frame);
    }
  }

  function EncodeAll(frames: seq<Frame>): seq<Byte> {
    if frames == [] then [] else EncodeAll(frames[..|frames| - 1]) + Encode(frames[|frames| - 1])
  }

  function DeliverAll(frames: seq<Frame>): (r: seq<Verdict>)
    ensures |r| == |frames|
  {
    seq(|frames|, i requires 0 <= i < |frames| => Delivered(frames[i]))
  }

  /** A stream of frames is delivered in full, in order, and costs no drops or errors. */
  lemma {:induction false} StreamDelivered(s: Rx, frames: seq<Frame>)
    requires Wf(s) && s.state == Sof0
    ensures var r := Run(s, EncodeAll(frames));
            && r.rx.state == Sof0
            && r.reports == DeliverAll(frames)
            && r.rx.framesOk == Wrap(s.framesOk + |frames|)
            && r.rx.bytesDropped == s.bytesDropped && r.rx.crcErrors == s.crcErrors
  {
    hide Run, Step, Encode, Wrap;
    if frames == [] {
      RunNothing(s);
      NoWrap(s.framesOk);
    } else {
      var front, f := frames[..|frames| - 1], frames[|frames| - 1];
      StreamDelivered(s, front);
      var r := Run(s, EncodeAll(front)).rx;
      RunConcat(s, EncodeAll(front), Encode(f));
      FrameDelivered(r, f);
      assert DeliverAll(front) + [Delivered(f)] == DeliverAll(frames);
      AddWraps(s.framesOk + |front|, 1);
    }
  }

  // ---------------------------------------------------------------- arbitrary chunks

  function Flatten(chunks: seq<seq<Byte>>): seq<Byte> {
    if chunks == [] then [] else Flatten(chunks[..|chunks| - 1]) + chunks[|chunks| - 1]
  }

  /** Feeding the chunks a transport happens to hand over, one call each. */
  function RunChunks(s: Rx, chunks: seq<seq<Byte>>): (r: Outcome)
    requires Wf(s)
    ensures Wf(r.rx)
  {
    if chunks == [] then Outcome(s, [])
    else
      var r := RunChunks(s, chunks[..|chunks| - 1]);
      var r' := Run(r.rx, chunks[|chunks| - 1]);
      Outcome(r'.rx, r.reports + r'.reports)
  }

  lemma {:induction false} ChunkingIsIrrelevant(s: Rx, chunks: seq<seq<Byte>>)
    requires Wf(s)
    ensures RunChunks(s, chunks) == Run(s, Flatten(chunks))
  {
    hide Step, Wf;
    if chunks != [] {
      ChunkingIsIrrelevant(s, chunks[..|chunks| - 1]);
      RunConcat(s, Flatten(chunks[..|chunks| - 1]), chunks[|chunks| - 1]);
    }
  }

  /**
    The wire round trip: any list of frames, encoded one after another and cut into chunks
    anyhow, reaches the other side as exactly that list, from any receiver at rest.
   */
  lemma {:induction false} WireRoundTrip(s: Rx, frames: seq<Frame>, chunks: seq<seq<Byte>>)
    requires Wf(s) && s.state == Sof0
    requires Flatten(chunks) == EncodeAll(frames)
    ensures var r := RunChunks(s, chunks);
            && r.rx.state == Sof0
            && r.reports == DeliverAll(frames) && Frames(r.reports) == frames
            && r.rx.bytesDropped == s.bytesDropped && r.rx.crcErrors == s.crcErrors
  {
    hide Step, Run, Wf, Frames, RunChunks, Wrap;
    ChunkingIsIrrelevant(s, chunks);
    StreamDelivered(s, frames);
    FramesOfDeliverAll(frames);
  }

  lemma {:induction false} FramesOfDeliverAll(frames: seq<Frame>)
    ensures Frames(DeliverAll(frames)) == frames
  {
    if frames != [] {
      FramesOfDeliverAll(frames[..|frames| - 1]);
      assert DeliverAll(frames)[..|frames| - 1] == DeliverAll(frames[..|frames| - 1]);
    }
  }

  // ---------------------------------------------------------------- resynchronisation

  /** Noise that never contains the sync pair; it may end in its first byte. */
  ghost predicate NoSync(g: seq<Byte>) {
    forall i :: 0 <= i < |g| - 1 ==> !(g[i] == SOF0 && g[i + 1] == SOF1)
  }

  lemma {:induction false} NoiseDropped(s: Rx, g: seq<Byte>)
    requires Wf(s) && s.state == Sof0 && NoSync(g)
    ensures var r := Run(s, g);
            && r.reports == [] && Hunting(r.rx)
            && (r.rx.state == Sof1 <==> g != [] && g[|g| - 1] == SOF0)
            && r.rx.bytesDropped == Wrap(s.bytesDropped + |g| - (if r.rx.state == Sof1 then 1 else 0))
            && r.rx.framesOk == s.framesOk && r.rx.crcErrors == s.crcErrors
    decreases |g|
  {
    hide Run, Step, Wrap;
    if g == [] {
      RunNothing(s);
      NoWrap(s.bytesDropped);
    } else {
      var front, b := g[..|g| - 1], g[|g| - 1];
      NoiseDropped(s, front);
      RunLast(s, front, b);
      assert front + [b] == g;
      NoiseByte(Run(s, front).rx, b);
      AddWraps(s.bytesDropped + |front|, 0);
      AddWraps(s.bytesDropped + |front| - 1, 0);
      AddWraps(s.bytesDropped + |front|, 1);
      AddWraps(s.bytesDropped + |front| - 1, 1);
      AddWraps(s.bytesDropped + |front| - 1, 2);
    }
  }

  lemma {:induction false} NoiseByte(r: Rx, b: Byte)
    requires Wf(r) && Hunting(r) && !(r.state == Sof1 && b == SOF1)
    ensures var (s', v) := Step(r, b);
            && v == Pending
            && s'.state == (if b == SOF0 then Sof1 else Sof0)
            && s'.bytesDropped == Wrap(r.bytesDropped + (if r.state == Sof1 then 1 else 0)
                                   + (if b == SOF0 then 0 else 1))
            && s'.framesOk == r.framesOk && s'.crcErrors == r.crcErrors
  {
    hide Update, Word, Fold;
  }

  /** After sync-free noise of any length, the next frame is delivered and exactly the noise is dropped. */
  lemma {:induction false} Resynchronises(s: Rx, g: seq<Byte>, f: Frame)
    requires Wf(s) && s.state == Sof0 && NoSync(g)
    ensures var r := Run(s, g + Encode(f));
            && r.rx.state == Sof0
            && r.reports == [Delivered(f)]
            && r.rx.bytesDropped == Wrap(s.bytesDropped + |g|)
            && r.rx.crcErrors == s.crcErrors
  {
    hide Step, Run, Encode, NoSync, Wrap;
    NoiseDropped(s, g);
    RunConcat(s, g, Encode(f));
    var r := Run(s, g).rx;
    FrameAfterNoise(r, f);
    AddWraps(s.bytesDropped + |g| - 1, 1);
    AddWraps(s.bytesDropped + |g|, 0);
  }

  lemma {:induction false} FrameAfterNoise(r: Rx, f: Frame)
    requires Wf(r) && Hunting(r)
    ensures var r' := Run(r, Encode(f));
            && r'.rx.state == Sof0 && r'.reports == [Delivered(f)]
            && r'.rx.bytesDropped == Wrap(r.bytesDropped + if r.state == Sof1 then 1 else 0)
            && r'.rx.crcErrors == r.crcErrors
  {
    hide Step, Run, Encode, Wrap;
    NoWrap(r.bytesDropped);
    if r.state == Sof0 {
      FrameDelivered(r, f);
    } else {
      FrameDelivered(r.(state := Sof0, bytesDropped := Wrap(r.bytesDropped + 1)), f);
      FirstSyncByteTwice(r, f);
    }
  }

  /** A second A5 replaces the first: the machine goes on as if it had been at rest. */
  lemma {:induction false} FirstSyncByteTwice(r: Rx, f: Frame)
    requires Wf(r) && r.state == Sof1
    ensures Run(r, Encode(f)) == Run(r.(state := Sof0, bytesDropped := Wrap(r.bytesDropped + 1)), Encode(f))
  {
    hide Run, Step, Fold, HighByte, LowByte, Wrap;
    var r0 := r.(state := Sof0, bytesDropped := Wrap(r.bytesDropped + 1));
    var w := Encode(f);
    assert w == [SOF0] + w[1..] && [] + [SOF0] == [SOF0];
    RunConcat(r, [SOF0], w[1..]);
    RunConcat(r0, [SOF0], w[1..]);
    RunNothing(r);
    RunNothing(r0);
    RunLast(r, [], SOF0);
    RunLast(r0, [], SOF0);
    SameAfterSof0(r);
  }

  lemma {:induction false} SameAfterSof0(r: Rx)
    requires Wf(r) && r.state == Sof1
    ensures Step(r, SOF0) == Step(r.(state := Sof0, bytesDropped := Wrap(r.bytesDropped + 1)), SOF0)
  {
    hide Update, Word;
  }

  // ---------------------------------------------------------------- damage in a stream

  lemma {:induction false} DamagedFrame(s: Rx, f: Frame, received: seq<Byte>)
    requires Wf(s) && s.state == Sof0
    requires Corrupted(f, received) && Detectable(Flips(f, received))
    ensures var r := Run(s, received);
            && r.rx.state == Sof0 && r.reports == [BadCrc]
            && r.rx.crcErrors == Wrap(s.crcErrors + 1) && r.rx.bytesDropped == s.bytesDropped
  {
    hide Step, Run, Flips, Detectable, Decode, Encode, Wrap;
    CorruptionDetected(f, received);
    OneVerdict(s, received);
    var v := Run(s, received).reports[0];
    if v.Delivered? {
      DecodeInvertsEncode(received, v.frame);
    }
  }

  /** A detectably damaged frame is reported once as such, and every other frame still arrives. */
  lemma {:induction false} DamageIsContained(s: Rx, before: seq<Frame>, f: Frame, received: seq<Byte>,
                                             after: seq<Frame>)
    requires Wf(s) && s.state == Sof0
    requires Corrupted(f, received) && Detectable(Flips(f, received))
    ensures var r := Run(s, EncodeAll(before) + (received + EncodeAll(after)));
            && r.rx.state == Sof0
            && r.reports == DeliverAll(before) + ([BadCrc] + DeliverAll(after))
            && r.rx.crcErrors == Wrap(s.crcErrors + 1) && r.rx.bytesDropped == s.bytesDropped
  {
    hide Step, Run, Corrupted, Flips, Detectable, EncodeAll, DeliverAll, Wrap;
    StreamThen(s, before, received + EncodeAll(after));
    DamageThenStream(Run(s, EncodeAll(before)).rx, f, received, after);
  }

  lemma {:induction false} StreamThen(s: Rx, before: seq<Frame>, rest: seq<Byte>)
    requires Wf(s) && s.state == Sof0
    ensures var r1 := Run(s, EncodeAll(before)).rx;
            && r1.state == Sof0 && r1.crcErrors == s.crcErrors && r1.bytesDropped == s.bytesDropped
            && Run(s, EncodeAll(before) + rest).rx == Run(r1, rest).rx
            && Run(s, EncodeAll(before) + rest).reports == DeliverAll(before) + Run(r1, rest).reports
  {
    hide Step, Run, EncodeAll, DeliverAll, Wrap;
    StreamDelivered(s, before);
    RunConcat(s, EncodeAll(before), rest);
  }

  lemma {:induction false} DamageThenStream(s: Rx, f: Frame, received: seq<Byte>, after: seq<Frame>)
    requires Wf(s) && s.state == Sof0
    requires Corrupted(f, received) && Detectable(Flips(f, received))
    ensures var r := Run(s, received + EncodeAll(after));
            && r.rx.state == Sof0
            && r.reports == [BadCrc] + DeliverAll(after)
            && r.rx.crcErrors == Wrap(s.crcErrors + 1) && r.rx.bytesDropped == s.bytesDropped
  {
    hide Step, Run, Corrupted, Flips, Detectable, EncodeAll, DeliverAll, Wrap;
    DamagedFrame(s, f, received);
    StreamDelivered(Run(s, received).rx, after);
    RunConcat(s, received, EncodeAll(after));
  }
}
