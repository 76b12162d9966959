/**
  The byte-at-a-time receiver: a seven-state machine that hunts for the sync pair,
  collects one frame and checks its CRC, with three wrapping diagnostic counters.

  Class `TlvReceiver` is the C struct and its functions; `Step` and `Run` say what
  they compute, and the lemmas below are about every run of them.
 */
module Receiver {
  import opened Bytes
  import opened Crc
  import opened Frame

  datatype State = Sof0 | Sof1 | Tag | Len | Value | CrcHi | CrcLo

  /** The C struct; its three counters wrap. */
  datatype Rx = Rx(state: State, tag: Byte, len: Byte, idx: Byte, crcCalc: Reg, crcRx: Reg,
                   value: seq<Byte>, framesOk: Word32, crcErrors: Word32, bytesDropped: Word32)

  /** What one byte led to: nothing yet, a frame for the caller, or a damaged frame. */
  datatype Verdict = Pending | Delivered(frame: Frame) | BadCrc

  /** The value buffer is in bounds whenever it is about to be written or read. */
  ghost predicate Wf(s: Rx) {
    && |s.value| == MAX_VALUE
    && (s.state == Value ==> s.idx < s.len)
  }

  function Step(s: Rx, b: Byte): (r: (Rx, Verdict))
    requires Wf(s)
    ensures Wf(r.0)
  {
    match s.state
    case Sof0 =>
      if b == SOF0 then (s.(state := Sof1), Pending)
      else (s.(bytesDropped := Wrap(s.bytesDropped + 1)), Pending)
    case Sof1 =>
      if b == SOF1 then (s.(crcCalc := INIT, state := Tag), Pending)
      else if b == SOF0 then (s.(bytesDropped := Wrap(s.bytesDropped + 1)), Pending)
      else (s.(bytesDropped := Wrap(s.bytesDropped + 2), state := Sof0), Pending)
    case Tag =>
      (s.(tag := b, crcCalc := Update(s.crcCalc, b), state := Len), Pending)
    case Len =>
      (s.(len := b, idx := 0, crcCalc := Update(s.crcCalc, b), state := if b == 0 then CrcHi else Value), Pending)
    case Value =>
      (s.(value := s.value[s.idx := b], crcCalc := Update(s.crcCalc, b), idx := s.idx + 1,
          state := if s.idx + 1 >= s.len then CrcHi else Value), Pending)
    case CrcHi =>
      (s.(crcRx := Word(b, 0), state := CrcLo), Pending)
    case CrcLo =>
      var s' := s.(crcRx := Or(s.crcRx, Word(0, b)), state := Sof0);
      if s'.crcRx != s.crcCalc then (s'.(crcErrors := Wrap(s.crcErrors + 1)), BadCrc)
      else (s'.(framesOk := Wrap(s.framesOk + 1)), Delivered(Frame(s.tag, s.value[..s.len])))
  }

  datatype Outcome = Outcome(rx: Rx, reports: seq<Verdict>)

  function Report(v: Verdict): seq<Verdict> {
    if v == Pending then [] else [v]
  }

  /** Feeding a buffer: the state after it, and every verdict that was not `Pending`. */
  function Run(s: Rx, data: seq<Byte>): (r: Outcome)
    requires Wf(s)
    ensures Wf(r.rx)
  {
    if data == [] then Outcome(s, [])
    else
      var r := Run(s, data[..|data| - 1]);
      var (s', v) := Step(r.rx, data[|data| - 1]);
      Outcome(s', r.reports + Report(v))
  }

  function Initial(): (s: Rx)
    ensures Wf(s)
  {
    Rx(Sof0, 0, 0, 0, INIT, Word(0, 0), seq(MAX_VALUE, _ => 0), 0, 0, 0)
  }

  // ---------------------------------------------------------------- the C struct

  class TlvReceiver {
    var state: State
    var tag: Byte
    var len: Byte
    var idx: Byte
    var crcCalc: Reg
    var crcRx: Reg
    const value: array<Byte>
    var framesOk: Word32
    var crcErrors: Word32
    var bytesDropped: Word32

    ghost function Abs(): Rx
      reads this, value
    {
      Rx(state, tag, len, idx, crcCalc, crcRx, value[..], framesOk, crcErrors, bytesDropped)
    }

    ghost predicate Valid()
      reads this, value
    {
      Wf(Abs())
    }

    constructor ()
      ensures Valid() && fresh(value)
      ensures Abs() == Initial().(value := value[..])
    {
      state, tag, len, idx := Sof0, 0, 0, 0;
      crcCalc, crcRx := INIT, Word(0, 0);
      framesOk, crcErrors, bytesDropped := 0, 0, 0;
      value := new Byte[MAX_VALUE];
    }

    method FeedByte(b: Byte) returns (v: Verdict)
      requires Valid()
      modifies this, value
      ensures Valid()
      ensures (Abs(), v) == Step(old(Abs()), b)
    {
      hide Update, Word, Or, Wrap;
      v := Pending;
      match state {
        case Sof0 =>
          if b == SOF0 {
            state := Sof1;
          } else {
            bytesDropped := Wrap(bytesDropped + 1);
          }
        case Sof1 =>
          if b == SOF1 {
            crcCalc := INIT;
            state := Tag;
          } else if b == SOF0 {
            bytesDropped := Wrap(bytesDropped + 1);
          } else {
            bytesDropped := Wrap(bytesDropped + 2);
            state := Sof0;
          }
        case Tag =>
          tag := b;
          crcCalc := Crc16Update(crcCalc, b);
          state := Len;
        case Len =>
          len := b;
          idx := 0;
          crcCalc := Crc16Update(crcCalc, b);
          state := if b == 0 then CrcHi else Value;
        case Value =>
          value[idx] := b;
          assert value[..] == old(value[..])[idx := b];
          crcCalc := Crc16Update(crcCalc, b);
          idx := idx + 1;
          if idx >= len {
            state := CrcHi;
          }
        case CrcHi =>
          crcRx := Word(b, 0);
          state := CrcLo;
        case CrcLo =>
          crcRx := Or(crcRx, Word(0, b));
          state := Sof0;
          if crcRx != crcCalc {
            crcErrors := Wrap(crcErrors + 1);
            v := BadCrc;
          } else {
            assert value[..len] == value[..][..len];
            v := Delivered(Frame(tag, value[..len]));
            framesOk := Wrap(framesOk + 1);
          }
      }
    }

    /** Drains a buffer, handing every good frame to the callback in order. */
    method Feed(data: seq<Byte>) returns (delivered: nat, frames: seq<Frame>)
      requires Valid()
      modifies this, value
      ensures Valid()
      ensures Abs() == Run(old(Abs()), data).rx
      ensures frames == Frames(Run(old(Abs()), data).reports) && delivered == |frames|
    {
      hide Step, Report;
      delivered, frames := 0, [];
      var i := 0;
      while i < |data|
        invariant 0 <= i <= |data|
        invariant Valid()
        invariant Abs() == Run(old(Abs()), data[..i]).rx
        invariant frames == Frames(Run(old(Abs()), data[..i]).reports) && delivered == |frames|
      {
        ghost var before := Run(old(Abs()), data[..i]);
        var v := FeedByte(data[i]);
        assert data[..i + 1][..i] == data[..i];
        FramesSnoc(before.reports, v);
        if v.Delivered? {
          delivered := delivered + 1;
          frames := frames + [v.frame];
        }
        i := i + 1;
      }
      assert data[..i] == data;
    }
  }

  function Frames(reports: seq<Verdict>): seq<Frame> {
    if reports == [] then []
    else Frames(reports[..|reports| - 1]) +
         (if reports[|reports| - 1].Delivered? then [reports[|reports| - 1].frame] else [])
  }

  lemma {:induction false} FramesSnoc(reports: seq<Verdict>, v: Verdict)
    ensures Frames(reports + Report(v)) == Frames(reports) + if v.Delivered? then [v.frame] else []
  {
    if v == Pending {
      assert reports + [] == reports;
    } else {
      assert (reports + [v])[..|reports|] == reports;
    }
  }

  // ---------------------------------------------------------------- chunks do not matter

  lemma {:induction false} RunNothing(s: Rx)
    requires Wf(s)
    ensures Run(s, []) == Outcome(s, [])
  {
  }

  lemma {:induction false} RunLast(s: Rx, front: seq<Byte>, b: Byte)
    requires Wf(s)
    ensures var r := Run(s, front);
            var (s', v) := Step(r.rx, b);
            Run(s, front + [b]) == Outcome(s', r.reports + Report(v))
  {
    hide Step, Report;
    assert (front + [b])[..|front|] == front;
  }

  lemma {:induction false} RunConcat(s: Rx, a: seq<Byte>, b: seq<Byte>)
    requires Wf(s)
    ensures Run(s, a + b).rx == Run(Run(s, a).rx, b).rx
    ensures Run(s, a + b).reports == Run(s, a).reports + Run(Run(s, a).rx, b).reports
    decreases |b|
  {
    hide Step, Report;
    if b == [] {
      assert a + b == a;
    } else {
      var front, last := b[..|b| - 1], b[|b| - 1];
      RunConcat(s, a, front);
      assert (a + b)[..|a + b| - 1] == a + front;
    }
  }
}
