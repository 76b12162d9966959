/**
  The Ground Station's query exchange: one request frame, a stream of record frames, one
  end frame, over a transport that cuts the bytes up as it likes, with a client that gives
  up after 50 reads.

  What the server's database answers is the parameter `find`; the transport's behaviour is
  a sequence of read results.
 */
module Query {
  import opened Bytes
  import opened Frame
  import opened Receiver
  import opened ReceiverTheorems
  import opened Timestamps

  const GS_QUERY_DATA: Byte := 0x50
  const GS_QUERY_EVENTS: Byte := 0x51
  const GS_RECORD: Byte := 0x52
  const GS_END: Byte := 0x53
  const MAX_POLLS: nat := 50
  const READ_SIZE: nat := 256
  const MAX_LINE: nat := 127

  /** One `read`: up to 256 bytes, none if it timed out, or an exception. */
  datatype Read = Data(bytes: seq<Byte>) | Failed

  // ---------------------------------------------------------------- requests

  function RangeBytes(first: Stamp, last: Stamp): (b: Value)
    ensures |b| == 12
  {
    [first.year, first.month, first.date, first.hour, first.min, first.sec,
     last.year, last.month, last.date, last.hour, last.min, last.sec]
  }

  predicate IsQueryTag(tag: Byte) {
    tag == GS_QUERY_DATA || tag == GS_QUERY_EVENTS
  }

  /** The request frame, unless a timestamp is malformed. */
  function Request(tag: Byte, start: Text, end: Text): Option<Frame> {
    var first :- Parse(start);
    var last :- Parse(end);
    Some(Frame(tag, RangeBytes(first, last)))
  }

  // ---------------------------------------------------------------- the server

  /** Lines the server's database yields for a kind of query and two timestamps, in order. */
  type Find = (Byte, Text, Text) -> seq<Text>

  /** A printed line is cut to fit its buffer, and no shorter. */
  function Cut(line: Text): (v: Value)
    ensures v <= line && |v| == if |line| <= 127 then |line| else 127
  {
    if |line| <= MAX_LINE then line else line[..MAX_LINE]
  }

  function Records(lines: seq<Text>): (frames: seq<Frame>)
    ensures |frames| == |lines|
  {
    seq(|lines|, i requires 0 <= i < |lines| => Frame(GS_RECORD, Cut(lines[i])))
  }

  function ReplyFrames(lines: seq<Text>): seq<Frame> {
    Records(lines) + [Frame(GS_END, [])]
  }

  /** One record frame for each line, with its first 127 bytes, and the end frame. */
  ghost predicate IsReplyTo(frames: seq<Frame>, lines: seq<Text>) {
    && |frames| == |lines| + 1
    && (forall i :: 0 <= i < |lines| ==>
          frames[i].tag == 0x52 && frames[i].value == if |lines[i]| <= 127 then lines[i] else lines[i][..127])
    && frames[|lines|] == Frame(0x53, [])
  }

  lemma {:induction false} ReplyFramesAre(lines: seq<Text>)
    ensures IsReplyTo(ReplyFrames(lines), lines)
  {
    forall i | 0 <= i < |lines|
      ensures Cut(lines[i]) == if |lines[i]| <= 127 then lines[i] else lines[i][..127]
    {
      var v := Cut(lines[i]);
      assert v == lines[i][..|v|];
    }
    hide Cut;
  }

  /** Everything the server sends in answer to one request frame. */
  function Reply(request: Frame, find: Find): seq<Byte> {
    if |request.value| != 12 then []
    else
      var v := request.value;
      var start := Format(Stamp(v[0], v[1], v[2], v[3], v[4], v[5]));
      var end := Format(Stamp(v[6], v[7], v[8], v[9], v[10], v[11]));
      EncodeAll(ReplyFrames(find(request.tag, start, end)))
  }

  function FirstQuery(frames: seq<Frame>): Option<Frame> {
    if frames == [] then None
    else if FirstQuery(frames[..|frames| - 1]).Some? then FirstQuery(frames[..|frames| - 1])
    else if IsQueryTag(frames[|frames| - 1].tag) then Some(frames[|frames| - 1])
    else None
  }

  /** The server's answer to all the bytes of a session: that to the first query among them. */
  function Answer(s: Rx, data: seq<Byte>, find: Find): seq<Byte>
    requires Wf(s)
  {
    match FirstQuery(Frames(Run(s, data).reports))
    case None => []
    case Some(f) => Reply(f, find)
  }

  /** `send_frame` against a socket that takes as many bytes at a time as it likes, or fails. */
  method SendFrame(frame: seq<Byte>, takes: seq<int>) returns (ok: bool, sent: seq<Byte>)
    ensures sent <= frame
    ensures ok <==> sent == frame
  {
    var n, calls := 0, 0;
    while n < |frame|
      invariant 0 <= n <= |frame|
      decreases |takes| - calls
    {
      var taken := if calls < |takes| then takes[calls] else 0;
      calls := calls + 1;
      if taken <= 0 {
        return false, frame[..n];
      }
      n := if n + taken <= |frame| then n + taken else |frame|;
    }
    return true, frame[..n];
  }

  /** How a socket treats each of a session's frames; past the end it fails. */
  type Socket = seq<seq<int>>

  function FrameTakes(sock: Socket, i: nat): seq<int> {
    if i < |sock| then sock[i] else []
  }

  /** Sends one record frame per line and the end frame, up to the first failure. */
  method SendReply(request: Frame, find: Find, sock: Socket) returns (ok: bool, sent: seq<Byte>)
    ensures sent <= Reply(request, find)
    ensures ok <==> sent == Reply(request, find)
    ensures |request.value| != 12 ==> ok && sent == []
    ensures ok && |request.value| == 12 ==>
              var v := request.value;
              var lines := find(request.tag, Format(Stamp(v[0], v[1], v[2], v[3], v[4], v[5])),
                                Format(Stamp(v[6], v[7], v[8], v[9], v[10], v[11])));
              exists frames :: IsReplyTo(frames, lines) && sent == EncodeAll(frames)
  {
    hide Encode, EncodeAll, Format, IsReplyTo;
    if |request.value| != 12 {
      return true, [];
    }
    var v := request.value;
    var start := Format(Stamp(v[0], v[1], v[2], v[3], v[4], v[5]));
    var end := Format(Stamp(v[6], v[7], v[8], v[9], v[10], v[11]));
    var lines := find(request.tag, start, end);
    ghost var all := ReplyFrames(lines);
    ReplyFramesAre(lines);
    sent := [];
    assert all[..0] == [];
    EncodeAllNothing();
    var i := 0;
    while i < |lines|
      invariant 0 <= i <= |lines|
      invariant sent == EncodeAll(all[..i])
    {
      var part;
      ok, part := SendFrame(Encode(Frame(GS_RECORD, Cut(lines[i]))), FrameTakes(sock, i));
      EncodeAllUpTo(all, i, part);
      sent := sent + part;
      if !ok {
        return false, sent;
      }
      i := i + 1;
    }
    var part;
    ok, part := SendFrame(Encode(Frame(GS_END, [])), FrameTakes(sock, i));
    EncodeAllUpTo(all, i, part);
    sent := sent + part;
    assert all[..i + 1] == all;
  }

  /** Part of the next frame after whole ones is part of the whole, all of it only at the end. */
  lemma {:induction false} EncodeAllUpTo(frames: seq<Frame>, i: nat, part: seq<Byte>)
    requires i < |frames| && part <= Encode(frames[i])
    ensures var sent := EncodeAll(frames[..i]) + part;
            && sent <= EncodeAll(frames)
            && (part == Encode(frames[i]) ==> sent == EncodeAll(frames[..i + 1]))
            && (part != Encode(frames[i]) ==> sent != EncodeAll(frames))
  {
    hide Encode, EncodeAll;
    EncodeAllSnoc(frames, i);
    EncodeAllPrefix(frames, i + 1);
    var f := Encode(frames[i]);
    assert f == part + f[|part|..];
    assert EncodeAll(frames[..i]) + f == EncodeAll(frames[..i]) + part + f[|part|..];
  }

  lemma {:induction false} EncodeAllPrefix(frames: seq<Frame>, n: nat)
    requires n <= |frames|
    ensures EncodeAll(frames[..n]) <= EncodeAll(frames)
    decreases |frames| - n
  {
    hide Encode, EncodeAll;
    if n == |frames| {
      assert frames[..n] == frames;
    } else {
      EncodeAllPrefix(frames, n + 1);
      EncodeAllSnoc(frames, n);
    }
  }

  lemma {:induction false} EncodeAllNothing()
    ensures EncodeAll([]) == []
  {
  }

  lemma {:induction false} EncodeAllSnoc(frames: seq<Frame>, i: nat)
    requires i < |frames|
    ensures EncodeAll(frames[..i + 1]) == EncodeAll(frames[..i]) + Encode(frames[i])
  {
    hide Encode;
    assert frames[..i + 1][..i] == frames[..i];
  }

  /** What the answer to a session is does not depend on what a resting receiver has left over. */
  lemma {:induction false} AnswerFromRest(s: Rx, data: seq<Byte>, find: Find)
    requires Wf(s) && s.state == Sof0
    ensures forall t: Rx :: Wf(t) && t.state == Sof0 ==> Answer(t, data, find) == Answer(s, data, find)
  {
    hide Run, Reply, FirstQuery, Frames;
    forall t: Rx | Wf(t) && t.state == Sof0 ensures Answer(t, data, find) == Answer(s, data, find) {
      RunAlike(s, t, data);
    }
  }

  /** `handle_client` up to the end of the session; not `ok` if a send fails. */
  method HandleClient(chunks: seq<seq<Byte>>, find: Find, sock: Socket) returns (ok: bool, sent: seq<Byte>)
    ensures forall s: Rx :: Wf(s) && s.state == Sof0 ==>
              var answer := Answer(s, Flatten(chunks), find);
              sent <= answer && (ok <==> sent == answer)
  {
    hide Run, Step, FirstQuery, Reply, Flatten, Frames;
    var recv := new TlvReceiver();
    ghost var s := recv.Abs();
    AnswerFromRest(s, Flatten(chunks), find);
    RunNothing(s);
    NoQueryYet();
    assert chunks[..0] == [];
    var k := 0;
    while k < |chunks|
      invariant 0 <= k <= |chunks|
      invariant recv.Valid() && fresh(recv) && fresh(recv.value)
      invariant recv.Abs() == Run(s, Flatten(chunks[..k])).rx
      invariant FirstQuery(Frames(Run(s, Flatten(chunks[..k])).reports)).None?
    {
      ghost var before := Flatten(chunks[..k]);
      FlattenSnoc(chunks, k);
      var buf := chunks[k];
      assert before + buf[..0] == before;
      var i := 0;
      while i < |buf|
        invariant 0 <= i <= |buf|
        invariant recv.Valid() && fresh(recv) && fresh(recv.value)
        invariant recv.Abs() == Run(s, before + buf[..i]).rx
        invariant FirstQuery(Frames(Run(s, before + buf[..i]).reports)).None?
      {
        var v := recv.FeedByte(buf[i]);
        RunLast(s, before + buf[..i], buf[i]);
        FramesSnoc(Run(s, before + buf[..i]).reports, Step(Run(s, before + buf[..i]).rx, buf[i]).1);
        ghost var frames := Frames(Run(s, before + buf[..i]).reports);
        assert frames + [] == frames;
        assert before + buf[..i] + [buf[i]] == before + buf[..i + 1];
        if v.Delivered? {
          FirstQueryLast(frames, v.frame);
          if IsQueryTag(v.frame.tag) {
            FlattenFrom(chunks, k, i + 1);
            LaterBytesIgnored(s, before + buf[..i + 1], buf[i + 1..] + Flatten(chunks[k + 1..]));
            ok, sent := SendReply(v.frame, find, sock);
            return;
          }
        }
        i := i + 1;
      }
      assert before + buf[..|buf|] == before + buf;
      k := k + 1;
    }
    assert chunks[..|chunks|] == chunks;
    return true, [];
  }

  lemma {:induction false} NoQueryYet()
    ensures FirstQuery(Frames([])).None? && Flatten([]) == []
  {
  }

  lemma {:induction false} FlattenSnoc(chunks: seq<seq<Byte>>, k: nat)
    requires k < |chunks|
    ensures Flatten(chunks[..k + 1]) == Flatten(chunks[..k]) + chunks[k]
  {
    assert chunks[..k + 1][..k] == chunks[..k];
  }

  lemma {:induction false} FlattenConcat(a: seq<seq<Byte>>, b: seq<seq<Byte>>)
    ensures Flatten(a + b) == Flatten(a) + Flatten(b)
    decreases |b|
  {
    if b == [] {
      assert a + b == a && Flatten(a) + [] == Flatten(a);
    } else {
      var front, last := b[..|b| - 1], b[|b| - 1];
      FlattenConcat(a, front);
      assert (a + b)[..|a + b| - 1] == a + front;
      assert Flatten(a) + (Flatten(front) + last) == Flatten(a) + Flatten(front) + last;
    }
  }

  /** The bytes still to come after some of chunk `k` has been read. */
  lemma {:induction false} FlattenFrom(chunks: seq<seq<Byte>>, k: nat, i: nat)
    requires k < |chunks| && i <= |chunks[k]|
    ensures Flatten(chunks) == Flatten(chunks[..k]) + chunks[k][..i] + (chunks[k][i..] + Flatten(chunks[k + 1..]))
  {
    hide Flatten;
    FlattenSnoc(chunks, k);
    FlattenConcat(chunks[..k + 1], chunks[k + 1..]);
    assert chunks[..k + 1] + chunks[k + 1..] == chunks;
    assert chunks[k][..i] + chunks[k][i..] == chunks[k];
  }

  /** Feeding one more byte: the new state, and the new frame if there is one. */
  lemma {:induction false} FramesConcat(a: seq<Verdict>, b: seq<Verdict>)
    ensures Frames(a + b) == Frames(a) + Frames(b)
    decreases |b|
  {
    if b == [] {
      assert a + b == a && Frames(a) + [] == Frames(a);
    } else {
      FramesConcat(a, b[..|b| - 1]);
      assert (a + b)[..|a + b| - 1] == a + b[..|b| - 1];
    }
  }

  lemma {:induction false} FirstQueryInPrefix(a: seq<Frame>, b: seq<Frame>)
    requires FirstQuery(a).Some?
    ensures FirstQuery(a + b) == FirstQuery(a)
    decreases |b|
  {
    if b == [] {
      assert a + b == a;
    } else {
      FirstQueryInPrefix(a, b[..|b| - 1]);
      assert (a + b)[..|a + b| - 1] == a + b[..|b| - 1];
    }
  }

  lemma {:induction false} LaterBytesIgnored(s: Rx, data: seq<Byte>, rest: seq<Byte>)
    requires Wf(s) && FirstQuery(Frames(Run(s, data).reports)).Some?
    ensures FirstQuery(Frames(Run(s, data + rest).reports)) == FirstQuery(Frames(Run(s, data).reports))
  {
    hide Run, Frames, FirstQuery;
    RunConcat(s, data, rest);
    var r := Run(s, data);
    FramesConcat(r.reports, Run(r.rx, rest).reports);
    FirstQueryInPrefix(Frames(r.reports), Frames(Run(r.rx, rest).reports));
  }

  lemma {:induction false} FirstQueryLast(frames: seq<Frame>, f: Frame)
    requires FirstQuery(frames).None?
    ensures FirstQuery(frames + [f]) == if IsQueryTag(f.tag) then Some(f) else None
  {
    assert (frames + [f])[..|frames|] == frames;
  }

  // ---------------------------------------------------------------- the client

  /** A line shown to the operator: one of the server's, or a notice of the client's own. */
  datatype Line = Record(text: Text) | Malformed | NoReply | NoRecords | ConnectionFailed | ConnectionLost

  datatype Client = Client(rx: Rx, lines: seq<Line>, done: bool)

  /** One byte of the reply; once the end frame is in, the rest of the buffer is ignored. */
  function FeedClient(c: Client, b: Byte): (c': Client)
    requires Wf(c.rx)
    ensures Wf(c'.rx)
  {
    if c.done then c
    else
      var (rx, v) := Step(c.rx, b);
      if !v.Delivered? then c.(rx := rx)
      else if v.frame.tag == GS_RECORD then Client(rx, c.lines + [Record(v.frame.value)], false)
      else if v.frame.tag == GS_END then c.(rx := rx, done := true)
      else c.(rx := rx)
  }

  function FeedBuffer(c: Client, data: seq<Byte>): (c': Client)
    requires Wf(c.rx)
    ensures Wf(c'.rx)
  {
    if data == [] then c else FeedClient(FeedBuffer(c, data[..|data| - 1]), data[|data| - 1])
  }

  /** The `i`-th read; after the last thing that arrives, reads time out. */
  function ReadAt(net: seq<Read>, i: nat): Read {
    if i < |net| then net[i] else Data([])
  }

  /** The polling loop from its `i`-th read on. */
  function Poll(c: Client, net: seq<Read>, i: nat): seq<Line>
    requires Wf(c.rx) && i <= MAX_POLLS
    decreases MAX_POLLS - i
  {
    if c.done then (if c.lines == [] then [NoRecords] else c.lines)
    else if i == MAX_POLLS then c.lines + [NoReply]
    else
      match ReadAt(net, i)
      case Failed => if c.lines == [] then [ConnectionFailed] else c.lines + [ConnectionLost]
      case Data(bytes) => Poll(FeedBuffer(c, bytes), net, i + 1)
  }

  ghost predicate AlikeClients(c: Client, d: Client)
    requires Wf(c.rx) && Wf(d.rx)
  {
    Alike(c.rx, d.rx) && c.lines == d.lines && c.done == d.done
  }

  lemma {:induction false} FeedAlike(c: Client, d: Client, data: seq<Byte>)
    requires Wf(c.rx) && Wf(d.rx) && AlikeClients(c, d)
    ensures AlikeClients(FeedBuffer(c, data), FeedBuffer(d, data))
  {
    hide Step, Alike;
    if data != [] {
      var front := data[..|data| - 1];
      FeedAlike(c, d, front);
      StepAlike(FeedBuffer(c, front).rx, FeedBuffer(d, front).rx, data[|data| - 1]);
    }
  }

  lemma {:induction false} PollAlike(c: Client, d: Client, net: seq<Read>, i: nat)
    requires Wf(c.rx) && Wf(d.rx) && AlikeClients(c, d) && i <= MAX_POLLS
    ensures Poll(c, net, i) == Poll(d, net, i)
    decreases MAX_POLLS - i
  {
    hide FeedBuffer, Alike;
    if !c.done && i < MAX_POLLS && ReadAt(net, i).Data? {
      FeedAlike(c, d, ReadAt(net, i).bytes);
      PollAlike(FeedBuffer(c, ReadAt(net, i).bytes), FeedBuffer(d, ReadAt(net, i).bytes), net, i + 1);
    }
  }

  lemma {:induction false} PollFromRest(s: Rx, net: seq<Read>)
    requires Wf(s) && s.state == Sof0
    ensures forall t: Rx :: Wf(t) && t.state == Sof0 ==>
              Poll(Client(t, [], false), net, 0) == Poll(Client(s, [], false), net, 0)
  {
    hide Poll;
    forall t: Rx | Wf(t) && t.state == Sof0
      ensures Poll(Client(t, [], false), net, 0) == Poll(Client(s, [], false), net, 0)
    {
      PollAlike(Client(s, [], false), Client(t, [], false), net, 0);
    }
  }

  /** The transport's `write`: like `send_frame`, except that a call that takes nothing is tried again. */
  method Write(data: seq<Byte>, takes: seq<int>) returns (ok: bool, sent: seq<Byte>)
    ensures sent <= data
    ensures ok <==> sent == data
  {
    var n, calls := 0, 0;
    while n < |data|
      invariant 0 <= n <= |data|
      decreases |takes| - calls
    {
      var taken := if calls < |takes| then takes[calls] else -1;
      calls := calls + 1;
      if taken < 0 {
        return false, data[..n];
      }
      n := if n + taken <= |data| then n + taken else |data|;
    }
    return true, data[..n];
  }

  /** `CentralComputer::query`. `sent` is what it wrote to the server. */
  method QueryServer(tag: Byte, start: Text, end: Text, connects: bool, takes: seq<int>, net: seq<Read>)
    returns (lines: seq<Line>, sent: seq<Byte>)
    ensures Request(tag, start, end).None? ==> lines == [Malformed] && sent == []
    ensures Request(tag, start, end).Some? && !connects ==> lines == [ConnectionFailed] && sent == []
    ensures Request(tag, start, end).Some? && connects ==>
              var request := Encode(Request(tag, start, end).value);
              && sent <= request
              && (sent != request ==> lines == [ConnectionFailed])
              && (sent == request ==>
                    forall s: Rx :: Wf(s) && s.state == Sof0 ==> lines == Poll(Client(s, [], false), net, 0))
  {
    hide Encode, FeedBuffer, Parse, Step, Poll;
    sent := [];
    var okStart, first := ParseHalf(start);
    var okEnd, last := ParseHalf(end);
    if !okStart || !okEnd {
      return [Malformed], sent;
    }
    if !connects {
      return [ConnectionFailed], sent;
    }
    var ok;
    ok, sent := Write(Encode(Frame(tag, RangeBytes(first, last))), takes);
    if !ok {
      return [ConnectionFailed], sent;
    }
    var recv := new TlvReceiver();
    PollFromRest(recv.Abs(), net);
    lines := PollLoop(recv, net);
  }

  method PollLoop(recv: TlvReceiver, net: seq<Read>) returns (lines: seq<Line>)
    requires recv.Valid()
    modifies recv, recv.value
    ensures lines == Poll(Client(old(recv.Abs()), [], false), net, 0)
  {
    hide FeedBuffer, Step;
    var done := false;
    var iterations := 0;
    lines := [];
    while !done
      invariant 0 <= iterations <= MAX_POLLS && recv.Valid()
      invariant Poll(Client(old(recv.Abs()), [], false), net, 0)
                == Poll(Client(recv.Abs(), lines, done), net, iterations)
      decreases MAX_POLLS - iterations, !done
    {
      iterations := iterations + 1;
      if iterations > MAX_POLLS {
        lines := lines + [NoReply];
        return;
      }
      var r := ReadAt(net, iterations - 1);
      if r.Failed? {
        lines := if lines == [] then [ConnectionFailed] else lines + [ConnectionLost];
        return;
      }
      lines, done := ReadBuffer(recv, r.bytes, lines);
    }
    if lines == [] {
      lines := [NoRecords];
    }
  }

  /** The inner loop over one buffer. */
  method ReadBuffer(recv: TlvReceiver, buf: seq<Byte>, soFar: seq<Line>) returns (lines: seq<Line>, done: bool)
    requires recv.Valid()
    modifies recv, recv.value
    ensures recv.Valid()
    ensures Client(recv.Abs(), lines, done) == FeedBuffer(Client(old(recv.Abs()), soFar, false), buf)
  {
    hide Step;
    lines, done := soFar, false;
    ghost var start := Client(recv.Abs(), soFar, false);
    var i := 0;
    while i < |buf| && !done
      invariant 0 <= i <= |buf| && recv.Valid()
      invariant Client(recv.Abs(), lines, done) == FeedBuffer(start, buf[..i])
    {
      var v := recv.FeedByte(buf[i]);
      assert buf[..i + 1][..i] == buf[..i];
      if v.Delivered? {
        if v.frame.tag == GS_RECORD {
          lines := lines + [Record(v.frame.value)];
        } else if v.frame.tag == GS_END {
          done := true;
        }
      }
      i := i + 1;
    }
    assert buf[..|buf|] == buf;
    if done {
      DoneIgnoresRest(start, buf, i);
    }
  }

  lemma {:induction false} DoneIgnoresRest(c: Client, data: seq<Byte>, i: nat)
    requires Wf(c.rx) && i <= |data| && FeedBuffer(c, data[..i]).done
    ensures FeedBuffer(c, data) == FeedBuffer(c, data[..i])
    decreases |data|
  {
    hide Step;
    if i < |data| {
      assert data[..|data| - 1][..i] == data[..i];
      DoneIgnoresRest(c, data[..|data| - 1], i);
    } else {
      assert data[..i] == data;
    }
  }
}
