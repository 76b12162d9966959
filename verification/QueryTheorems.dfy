/**
  What the query exchange as a whole guarantees: the operator sees exactly the lines the
  database has for the timestamps typed in, however the bytes are cut up on the way, or a
  prefix of them and a notice.
 */
module QueryTheorems {
  import opened Bytes
  import opened Crc
  import opened Frame
  import opened Receiver
  import opened ReceiverTheorems
  import opened Timestamps
  import opened Query

  function Wire(lines: seq<Text>): seq<Byte> {
    EncodeAll(ReplyFrames(lines))
  }

  /** The lines as the operator sees them. */
  function Shown(lines: seq<Text>): (shown: seq<Line>)
    ensures |shown| == |lines|
  {
    seq(|lines|, i requires 0 <= i < |lines| => Record(Cut(lines[i])))
  }

  function FullAnswer(lines: seq<Text>): seq<Line> {
    if lines == [] then [NoRecords] else Shown(lines)
  }

  /** Line by line what the operator sees: the first 127 bytes of each of the server's lines, or that there are none. */
  ghost predicate ShowsLines(shown: seq<Line>, lines: seq<Text>) {
    && |shown| == |lines|
    && forall i :: 0 <= i < |lines| ==>
         shown[i] == Record(if |lines[i]| <= 127 then lines[i] else lines[i][..127])
  }

  ghost predicate IsFullAnswer(shown: seq<Line>, lines: seq<Text>) {
    if lines == [] then shown == [NoRecords] else ShowsLines(shown, lines)
  }

  lemma {:induction false} ShownAre(lines: seq<Text>)
    ensures ShowsLines(Shown(lines), lines) && IsFullAnswer(FullAnswer(lines), lines)
  {
    forall i | 0 <= i < |lines|
      ensures Cut(lines[i]) == if |lines[i]| <= 127 then lines[i] else lines[i][..127]
    {
      var v := Cut(lines[i]);
      assert v == lines[i][..|v|];
    }
    hide Cut;
  }

  function Start(s: Rx): Client {
    Client(s, [], false)
  }

  // ---------------------------------------------------------------- part of a reply

  /** Before its last byte, a reply has delivered record frames only, in order. */
  lemma {:induction false} PartialReply(s: Rx, lines: seq<Text>, m: nat)
    requires Wf(s) && s.state == Sof0 && m < |Wire(lines)|
    ensures Frames(Run(s, Wire(lines)[..m]).reports) <= Records(lines)
  {
    hide Run, Frames, EncodeAll, DeliverAll, Step, Encode;
    var w := Wire(lines);
    var n := |w| - 1;
    AllButLastByte(s, lines);
    RunConcat(s, w[..m], w[m..n]);
    assert w[..m] + w[m..n] == w[..n];
    var a, b := Run(s, w[..m]).reports, Run(Run(s, w[..m]).rx, w[m..n]).reports;
    FramesConcat(a, b);
    FramesOfDeliverAll(Records(lines));
  }

  lemma {:induction false} AllButLastByte(s: Rx, lines: seq<Text>)
    requires Wf(s) && s.state == Sof0
    ensures Wire(lines) == EncodeAll(Records(lines)) + Encode(Frame(GS_END, []))
    ensures Run(s, Wire(lines)[..|Wire(lines)| - 1]).reports == DeliverAll(Records(lines))
  {
    hide Run, DeliverAll, Step, Encode, EncodeAll, Decode, Wrap;
    var records, end := Records(lines), Encode(Frame(GS_END, []));
    var body := EncodeAll(records);
    WireParts(lines);
    StreamDelivered(s, records);
    var r := Run(s, body).rx;
    RestIsInv(r);
    OneVerdict(r, end);
    RunConcat(s, body, end[..|end| - 1]);
    assert Wire(lines)[..|Wire(lines)| - 1] == body + end[..|end| - 1];
    assert DeliverAll(records) + [] == DeliverAll(records);
  }

  lemma {:induction false} WireParts(lines: seq<Text>)
    ensures var end := Encode(Frame(GS_END, []));
            && Wire(lines) == EncodeAll(Records(lines)) + end
            && |end| >= 4 && end[0] == SOF0 && end[1] == SOF1 && |end| == BlockSize(end)
  {
    hide Crc16, HighByte, LowByte;
    assert ReplyFrames(lines)[..|lines|] == Records(lines);
  }

  lemma {:induction false} RestIsInv(r: Rx)
    requires Wf(r) && r.state == Sof0
    ensures Inv(r)
  {
  }

  /** After any part of a reply the client holds what was delivered; only the last byte ends it. */
  lemma {:induction false} ClientInStep(s: Rx, lines: seq<Text>, m: nat)
    requires Wf(s) && s.state == Sof0 && m < |Wire(lines)|
    ensures var p := Wire(lines)[..m];
            var j := |Frames(Run(s, p).reports)|;
            j <= |lines| && FeedBuffer(Start(s), p) == Client(Run(s, p).rx, Shown(lines)[..j], false)
    decreases m
  {
    hide Run, Frames, EncodeAll, Step, Encode;
    var w := Wire(lines);
    PartialReply(s, lines, m);
    if m == 0 {
      RunNothing(s);
      NoFrames();
    } else {
      ClientInStep(s, lines, m - 1);
      RunLast(s, w[..m - 1], w[m - 1]);
      FramesSnoc(Run(s, w[..m - 1]).reports, Step(Run(s, w[..m - 1]).rx, w[m - 1]).1);
      assert w[..m] == w[..m - 1] + [w[m - 1]];
      assert w[..m][..m - 1] == w[..m - 1];
      var before, after := Frames(Run(s, w[..m - 1]).reports), Frames(Run(s, w[..m]).reports);
      var j := |before|;
      if after != before {
        assert after[j] == Records(lines)[j];
        assert Shown(lines)[..j + 1] == Shown(lines)[..j] + [Shown(lines)[j]];
      }
    }
  }

  lemma {:induction false} ClientAtEnd(s: Rx, lines: seq<Text>)
    requires Wf(s) && s.state == Sof0
    ensures var c := FeedBuffer(Start(s), Wire(lines));
            c.done && c.lines == Shown(lines)
  {
    hide Run, Frames, EncodeAll, Step, Encode;
    var w := Wire(lines);
    assert w != [] by { AllButLastByte(s, lines); }
    var n := |w| - 1;
    ClientInStep(s, lines, n);
    AllButLastByte(s, lines);
    FramesOfDeliverAll(Records(lines));
    StreamDelivered(s, ReplyFrames(lines));
    FramesOfDeliverAll(ReplyFrames(lines));
    RunLast(s, w[..n], w[n]);
    FramesSnoc(Run(s, w[..n]).reports, Step(Run(s, w[..n]).rx, w[n]).1);
    assert w[..n] + [w[n]] == w;
    assert Records(lines) + [Frame(GS_END, [])] == ReplyFrames(lines);
    assert Shown(lines)[..|lines|] == Shown(lines);
    var v := Step(Run(s, w[..n]).rx, w[n]).1;
    assert v.Delivered? && [v.frame] == ReplyFrames(lines)[|lines|..];
  }

  // ---------------------------------------------------------------- reads

  /** Everything the first `k` reads bring. */
  function Received(net: seq<Read>, k: nat): seq<Byte> {
    if k == 0 then []
    else match ReadAt(net, k - 1)
         case Data(bytes) => Received(net, k - 1) + bytes
         case Failed => Received(net, k - 1)
  }

  ghost predicate NoFailure(net: seq<Read>, k: nat) {
    forall i :: 0 <= i < k ==> ReadAt(net, i).Data?
  }

  lemma {:induction false} FeedConcat(c: Client, a: seq<Byte>, b: seq<Byte>)
    requires Wf(c.rx)
    ensures FeedBuffer(c, a + b) == FeedBuffer(FeedBuffer(c, a), b)
    decreases |b|
  {
    hide FeedClient;
    if b == [] {
      assert a + b == a;
    } else {
      FeedConcat(c, a, b[..|b| - 1]);
      assert (a + b)[..|a + b| - 1] == a + b[..|b| - 1];
    }
  }

  lemma {:induction false} DoneStays(c: Client, data: seq<Byte>)
    requires Wf(c.rx) && c.done
    ensures FeedBuffer(c, data) == c
  {
    hide Step;
    if data != [] {
      DoneStays(c, data[..|data| - 1]);
    }
  }

  /** Polling depends on the bytes received, not on how they were cut. */
  lemma {:induction false} PollAdvances(c: Client, net: seq<Read>, k: nat)
    requires Wf(c.rx) && k <= MAX_POLLS && NoFailure(net, k)
    ensures Poll(c, net, 0) == Poll(FeedBuffer(c, Received(net, k)), net, k)
    decreases k
  {
    hide FeedBuffer;
    if k == 0 {
      FeedNothing(c);
    } else {
      PollAdvances(c, net, k - 1);
      var c' := FeedBuffer(c, Received(net, k - 1));
      assert ReadAt(net, k - 1).Data?;
      FeedConcat(c, Received(net, k - 1), ReadAt(net, k - 1).bytes);
      if c'.done {
        DoneStays(c', ReadAt(net, k - 1).bytes);
      }
    }
  }

  lemma {:induction false} FeedNothing(c: Client)
    requires Wf(c.rx)
    ensures FeedBuffer(c, []) == c
  {
  }

  /** A reply that arrives whole within 50 reads, timeouts included, is shown whole. */
  lemma {:induction false} ReplyShown(s: Rx, lines: seq<Text>, net: seq<Read>, k: nat)
    requires Wf(s) && s.state == Sof0
    requires k <= MAX_POLLS && NoFailure(net, k) && Received(net, k) == Wire(lines)
    ensures Poll(Start(s), net, 0) == FullAnswer(lines) && IsFullAnswer(FullAnswer(lines), lines)
  {
    hide FeedBuffer, EncodeAll, IsFullAnswer;
    ShownAre(lines);
    PollAdvances(Start(s), net, k);
    ClientAtEnd(s, lines);
  }

  /** How many reads succeed before the first that fails, up to the limit. */
  function GoodReads(net: seq<Read>, n: nat): (k: nat)
    ensures k <= n && NoFailure(net, k)
    ensures k < n ==> ReadAt(net, k).Failed?
  {
    if n == 0 then 0
    else
      var k := GoodReads(net, n - 1);
      if k < n - 1 || ReadAt(net, k).Failed? then k else n
  }

  /** The first `j` lines, and why no more: nothing came in time, or the connection broke. */
  ghost predicate IsCutShort(shown: seq<Line>, lines: seq<Text>, j: nat, failed: bool)
    requires j <= |lines|
  {
    if failed && j == 0 then shown == [ConnectionFailed]
    else
      && |shown| == j + 1 && ShowsLines(shown[..j], lines[..j])
      && shown[j] == if failed then ConnectionLost else NoReply
  }

  /**
    Whatever part of a reply arrives, over a network that cuts it, delays it or breaks it off
    anywhere: if the whole reply came before a read failed or the 50 reads were used up, the
    operator sees the full answer; otherwise the records that came whole, and why no more.
   */
  lemma {:induction false} ReplyOutcome(s: Rx, lines: seq<Text>, net: seq<Read>)
    requires Wf(s) && s.state == Sof0
    requires Received(net, GoodReads(net, 50)) <= Wire(lines)
    ensures var k := GoodReads(net, 50);
            var got := Received(net, k);
            var j := |Frames(Run(s, got).reports)|;
            if got == Wire(lines) then IsFullAnswer(Poll(Start(s), net, 0), lines)
            else j <= |lines| && IsCutShort(Poll(Start(s), net, 0), lines, j, k < 50)
  {
    hide FeedBuffer, EncodeAll, Run, Frames, GoodReads, IsFullAnswer;
    ShownAre(lines);
    var k := GoodReads(net, 50);
    var got := Received(net, k);
    if got == Wire(lines) {
      ReplyShown(s, lines, net, k);
    } else {
      PollAdvances(Start(s), net, k);
      assert got == Wire(lines)[..|got|];
      ClientInStep(s, lines, |got|);
    }
  }

  /** Reads are at most one buffer long. */
  ghost predicate BufferSized(net: seq<Read>) {
    forall i :: 0 <= i < |net| && net[i].Data? ==> |net[i].bytes| <= 256
  }

  lemma {:induction false} ReceivedBound(net: seq<Read>, k: nat)
    requires BufferSized(net)
    ensures |Received(net, k)| <= READ_SIZE * k
  {
    if k > 0 {
      ReceivedBound(net, k - 1);
    }
  }

  /** A reply cut into full buffers. */
  function Chop(w: seq<Byte>): (net: seq<Read>)
    ensures BufferSized(net)
    decreases |w|
  {
    if |w| <= READ_SIZE then [Data(w)] else [Data(w[..READ_SIZE])] + Chop(w[READ_SIZE..])
  }

  lemma {:induction false} ReceivedTail(r: Read, net: seq<Read>, k: nat)
    requires r.Data?
    ensures Received([r] + net, k + 1) == r.bytes + Received(net, k)
  {
    if k > 0 {
      ReceivedTail(r, net, k - 1);
      assert ReadAt([r] + net, k) == ReadAt(net, k - 1);
    } else {
      assert Received([r] + net, 1) == [] + r.bytes;
    }
  }

  lemma {:induction false} ChopArrives(w: seq<Byte>, k: nat)
    requires |w| <= READ_SIZE * k && k > 0
    ensures Received(Chop(w), k) == w && NoFailure(Chop(w), k)
    decreases |w|
  {
    if |w| <= READ_SIZE {
      OnlyOneRead(Data(w), k);
    } else {
      ChopArrives(w[READ_SIZE..], k - 1);
      ReceivedTail(Data(w[..READ_SIZE]), Chop(w[READ_SIZE..]), k - 1);
      forall i | 0 <= i < k
        ensures ReadAt(Chop(w), i).Data?
      {
        if i > 0 {
          assert ReadAt(Chop(w), i) == ReadAt(Chop(w[READ_SIZE..]), i - 1);
        }
      }
    }
  }

  lemma {:induction false} OnlyOneRead(r: Read, k: nat)
    requires r.Data? && k > 0
    ensures Received([r], k) == r.bytes && NoFailure([r], k)
  {
    if k > 1 {
      OnlyOneRead(r, k - 1);
    }
  }

  /**
    The 50-read limit bounds answers: a reply can arrive in full, in some way of cutting it,
    exactly when it is at most 50 * 256 bytes long. Longer answers are never complete.
   */
  lemma {:induction false} FullAnswerIffShort(lines: seq<Text>)
    ensures (exists net :: BufferSized(net) && NoFailure(net, 50) && Received(net, 50) == Wire(lines))
            <==> |Wire(lines)| <= 12800
  {
    hide EncodeAll;
    if |Wire(lines)| <= MAX_POLLS * READ_SIZE {
      ChopArrives(Wire(lines), MAX_POLLS);
    }
    forall net | BufferSized(net) && Received(net, MAX_POLLS) == Wire(lines)
      ensures |Wire(lines)| <= MAX_POLLS * READ_SIZE
    {
      ReceivedBound(net, MAX_POLLS);
    }
  }

  // ---------------------------------------------------------------- end to end

  /** For printed timestamps the client's request carries their very fields. */
  lemma {:induction false} RequestCarriesStamps(tag: Byte, first: Stamp, last: Stamp)
    ensures Request(tag, Format(first), Format(last)) == Some(Frame(tag, RangeBytes(first, last)))
    ensures RangeBytes(first, last) == [first.year, first.month, first.date, first.hour, first.min, first.sec]
                                       + [last.year, last.month, last.date, last.hour, last.min, last.sec]
  {
    hide Format, Parse;
    ParseInvertsFormat(first);
    ParseInvertsFormat(last);
  }

  /** A session of any frames is answered for its first query, tag 0x50 or 0x51, if its payload is 12 bytes. */
  lemma {:induction false} FirstQueryAnswered(s: Rx, before: seq<Frame>, query: Frame, after: seq<Frame>, find: Find)
    requires Wf(s) && s.state == Sof0
    requires forall i :: 0 <= i < |before| ==> before[i].tag != 0x50 && before[i].tag != 0x51
    requires query.tag == 0x50 || query.tag == 0x51
    ensures var v := query.value;
            Answer(s, EncodeAll(before + [query] + after), find) ==
            if |v| != 12 then []
            else Wire(find(query.tag, Format(Stamp(v[0], v[1], v[2], v[3], v[4], v[5])),
                           Format(Stamp(v[6], v[7], v[8], v[9], v[10], v[11]))))
  {
    hide Run, EncodeAll, DeliverAll, Frames, Format, Wrap;
    var all := before + [query] + after;
    StreamDelivered(s, all);
    FramesOfDeliverAll(all);
    NoneIsQuery(before);
    FirstQueryLast(before, query);
    FirstQueryInPrefix(before + [query], after);
  }

  lemma {:induction false} NoneIsQuery(frames: seq<Frame>)
    requires forall i :: 0 <= i < |frames| ==> frames[i].tag != 0x50 && frames[i].tag != 0x51
    ensures FirstQuery(frames) == None
  {
    if frames != [] {
      NoneIsQuery(frames[..|frames| - 1]);
    }
  }

  /** Frames that belong to no reply pass the client by. */
  lemma {:induction false} ForeignFrameIgnored(c: Client, f: Frame)
    requires Wf(c.rx) && c.rx.state == Sof0 && !c.done && f.tag != 0x52 && f.tag != 0x53
    ensures var c' := FeedBuffer(c, Encode(f));
            c'.lines == c.lines && !c'.done && c'.rx.state == Sof0
  {
    hide Run, Encode, Wrap, Step;
    FrameDelivered(c.rx, f);
    ForeignBytes(c, Encode(f), [f]);
    assert Frames([Delivered(f)]) == [f] by {
      assert [Delivered(f)][..0] == [];
    }
    var w := Encode(f);
    assert w[..|w|] == w;
  }

  lemma {:induction false} ForeignBytes(c: Client, data: seq<Byte>, frames: seq<Frame>)
    requires Wf(c.rx) && !c.done && Frames(Run(c.rx, data).reports) <= frames
    requires forall i :: 0 <= i < |frames| ==> frames[i].tag != 0x52 && frames[i].tag != 0x53
    ensures FeedBuffer(c, data) == Client(Run(c.rx, data).rx, c.lines, false)
  {
    hide Step, Run, Frames, Wf;
    if data == [] {
      RunNothing(c.rx);
    } else {
      var front, b := data[..|data| - 1], data[|data| - 1];
      RunLast(c.rx, front, b);
      FramesSnoc(Run(c.rx, front).reports, Step(Run(c.rx, front).rx, b).1);
      assert front + [b] == data;
      ForeignBytes(c, front, frames);
      var v := Step(Run(c.rx, front).rx, b).1;
      if v.Delivered? {
        var n := |Frames(Run(c.rx, front).reports)|;
        assert Frames(Run(c.rx, data).reports)[n] == v.frame;
        assert frames[n] == v.frame;
      }
    }
  }

  /** However the request is cut up, the server searches the timestamps the client was given. */
  lemma {:induction false} ServerSearchesWhatWasAsked(s: Rx, tag: Byte, first: Stamp, last: Stamp,
                                                      chunks: seq<seq<Byte>>, find: Find)
    requires Wf(s) && s.state == Sof0 && IsQueryTag(tag)
    requires Flatten(chunks) == Encode(Frame(tag, RangeBytes(first, last)))
    ensures Answer(s, Flatten(chunks), find) == Wire(find(tag, Format(first), Format(last)))
  {
    hide Run, Encode, Step, Reply, Wire, FirstQuery, Frames, Wrap, IsQueryTag;
    var f := Frame(tag, RangeBytes(first, last));
    FrameDelivered(s, f);
    OnlyFrame(f);
    ReplyToRange(tag, first, last, find);
  }

  lemma {:induction false} OnlyFrame(f: Frame)
    requires IsQueryTag(f.tag)
    ensures FirstQuery(Frames([Delivered(f)])) == Some(f)
  {
    assert [Delivered(f)][..0] == [] && [f][..0] == [];
  }

  lemma {:induction false} ReplyToRange(tag: Byte, first: Stamp, last: Stamp, find: Find)
    ensures Reply(Frame(tag, RangeBytes(first, last)), find) == Wire(find(tag, Format(first), Format(last)))
  {
    hide EncodeAll, Format;
  }

  /**
    The whole exchange: whatever the chunking of the request, and of the reply within 50
    reads, the operator sees exactly the database's lines for the timestamps given.
   */
  lemma {:induction false} QueryEndToEnd(server: Rx, client: Rx, tag: Byte, first: Stamp, last: Stamp, find: Find,
                                         chunks: seq<seq<Byte>>, net: seq<Read>, k: nat)
    requires Wf(server) && server.state == Sof0 && Wf(client) && client.state == Sof0 && IsQueryTag(tag)
    requires Flatten(chunks) == Encode(Frame(tag, RangeBytes(first, last)))
    requires k <= MAX_POLLS && NoFailure(net, k)
    ensures Request(tag, Format(first), Format(last)) == Some(Frame(tag, RangeBytes(first, last)))
    ensures Received(net, k) == Answer(server, Flatten(chunks), find) ==>
              IsFullAnswer(Poll(Start(client), net, 0), find(tag, Format(first), Format(last)))
  {
    hide IsFullAnswer, RangeBytes, Run, Encode, EncodeAll, Format, Parse, Step, Poll, Answer;
    RequestCarriesStamps(tag, first, last);
    ServerSearchesWhatWasAsked(server, tag, first, last, chunks, find);
    if Received(net, k) == Answer(server, Flatten(chunks), find) {
      ReplyShown(client, find(tag, Format(first), Format(last)), net, k);
    }
  }
}
