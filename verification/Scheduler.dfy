/**
  The transmit side of the LNC: any number of tasks inside `comm_send`, three bounded
  queues, a counting semaphore used as a doorbell, and one task that drains the queues.

  Every RTOS call is one atomic step; everything between two calls interleaves freely.
  Callers are anonymous, so the state keeps how many are at each point of `comm_send`.
 */
module Scheduler {
  import opened Bytes

  const HIGH_SLOTS: nat := 1
  const MED_SLOTS: nat := 4
  const LOW_SLOTS: nat := 4
  const MAX_TOKENS: nat := 10
  const MAX_VALUE: nat := 96

  datatype Item = Item(tag: Byte, value: seq<Byte>)

  datatype Priority = High | Med | Low

  function PriorityForTag(tag: Byte): Priority {
    if tag == 0x14 then High  // KEEP_ALIVE
    else if tag == 0x11 || tag == 0x12 || tag == 0x13  // MODE_CHANGE, OBJECT_DETECTED, OBJECT_CLEARED
         || tag == 0x15 || tag == 0x16  // STARTUP, TIME_SYNC_REQUEST
         || tag == 0x40 || tag == 0x43 || tag == 0x44 then Med  // TIME_REPLY, ACK, NACK
    else Low
  }

  /** Where the draining task is between two RTOS calls. */
  datatype Tx = Waiting | AtHigh | AtMed | AtLow | Sending(got: seq<Item>)

  /** An item that left the mailbox: taken by the draining task, or replaced by a fresher one. */
  datatype Left = Taken(item: Item) | Evicted(item: Item)

  datatype State = State(
    high: seq<Item>, med: seq<Item>, low: seq<Item>, tokens: nat,
    replacing: multiset<Item>,  // callers whose first put on the mailbox failed
    reputting: multiset<Item>,  // callers that have removed the stale item
    ringing: nat,  // callers whose put succeeded and who have not rung yet
    tx: Tx,
    history: History)

  /** What happened so far; no step looks at it. */
  datatype History = History(
    acceptedHigh: seq<Item>, acceptedMed: seq<Item>, acceptedLow: seq<Item>,
    highOut: seq<Left>, medOut: seq<Item>, lowOut: seq<Item>,
    surplus: nat,  // wake-ups that found all three queues empty
    lostRings: nat)  // rings on a full semaphore

  function Initial(): State {
    State([], [], [], 0, multiset{}, multiset{}, 0, Waiting, History([], [], [], [], [], [], 0, 0))
  }

  /** One RTOS call by somebody. */
  datatype Action = Call(item: Item) | DropStale(item: Item) | PutAgain(item: Item) | Ring
                  | Acquire | GetHigh | GetMed | GetLow | Transmit

  predicate Enabled(s: State, a: Action) {
    match a
    case Call(_) => true
    case DropStale(item) => item in s.replacing
    case PutAgain(item) => item in s.reputting
    case Ring => s.ringing > 0
    case Acquire => s.tx == Waiting && s.tokens > 0
    case GetHigh => s.tx == AtHigh
    case GetMed => s.tx == AtMed
    case GetLow => s.tx == AtLow
    case Transmit => s.tx.Sending?
  }

  function Apply(s: State, a: Action): State
    requires Enabled(s, a)
  {
    var h := s.history;
    match a
    case Call(item) =>
      if |item.value| > MAX_VALUE then s
      else (match PriorityForTag(item.tag)
            case High =>
              if |s.high| < HIGH_SLOTS then PutHigh(s, item)
              else s.(replacing := s.replacing + multiset{item})
            case Med =>
              if |s.med| < MED_SLOTS
              then s.(med := s.med + [item], ringing := s.ringing + 1,
                      history := h.(acceptedMed := h.acceptedMed + [item]))
              else s
            case Low =>
              if |s.low| < LOW_SLOTS
              then s.(low := s.low + [item], ringing := s.ringing + 1,
                      history := h.(acceptedLow := h.acceptedLow + [item]))
              else s)
    case DropStale(item) =>
      var s' := s.(replacing := s.replacing - multiset{item}, reputting := s.reputting + multiset{item});
      if s.high == [] then s'
      else s'.(high := s.high[1..], history := h.(highOut := h.highOut + [Evicted(s.high[0])]))
    case PutAgain(item) =>
      var s' := s.(reputting := s.reputting - multiset{item});
      if |s.high| < HIGH_SLOTS then PutHigh(s', item) else s'
    case Ring =>
      if s.tokens < MAX_TOKENS then s.(ringing := s.ringing - 1, tokens := s.tokens + 1)
      else s.(ringing := s.ringing - 1, history := h.(lostRings := h.lostRings + 1))
    case Acquire => s.(tokens := s.tokens - 1, tx := AtHigh)
    case GetHigh =>
      if s.high == [] then s.(tx := AtMed)
      else s.(high := s.high[1..], tx := Sending([s.high[0]]),
              history := h.(highOut := h.highOut + [Taken(s.high[0])]))
    case GetMed =>
      if s.med == [] then s.(tx := AtLow)
      else s.(med := s.med[1..], tx := Sending([s.med[0]]), history := h.(medOut := h.medOut + [s.med[0]]))
    case GetLow =>
      if s.low == [] then s.(tx := Sending([]), history := h.(surplus := h.surplus + 1))
      else s.(low := s.low[1..], tx := Sending([s.low[0]]), history := h.(lowOut := h.lowOut + [s.low[0]]))
    case Transmit => s.(tx := Waiting)
  }

  function PutHigh(s: State, item: Item): State {
    s.(high := s.high + [item], ringing := s.ringing + 1,
       history := s.history.(acceptedHigh := s.history.acceptedHigh + [item]))
  }

  /** An interleaving, one call after another; a call its caller is not ready for does nothing. */
  function Exec(s: State, calls: seq<Action>): State {
    if calls == [] then s
    else
      var s' := Exec(s, calls[..|calls| - 1]);
      if Enabled(s', calls[|calls| - 1]) then Apply(s', calls[|calls| - 1]) else s'
  }

  ghost predicate Reachable(s: State) {
    exists calls :: Exec(Initial(), calls) == s
  }

  // ---------------------------------------------------------------- the doorbell invariant

  function Items(s: State): nat {
    |s.high| + |s.med| + |s.low|
  }

  /** The token the draining task has taken and not yet spent on an item. */
  function Held(s: State): nat {
    if s.tx == AtHigh || s.tx == AtMed || s.tx == AtLow then 1 else 0
  }

  ghost predicate Bounded(s: State) {
    |s.high| <= HIGH_SLOTS && |s.med| <= MED_SLOTS && |s.low| <= LOW_SLOTS && s.tokens <= MAX_TOKENS
  }

  /**
    No item is without a ring, present or coming. Once the draining task has passed a queue
    that was empty, whatever is put there later must be covered without the held token.
   */
  ghost predicate Covered(s: State) {
    && Items(s) <= s.tokens + s.ringing + Held(s)
    && (s.tx == AtMed ==> |s.high| <= s.tokens + s.ringing)
    && (s.tx == AtLow ==> |s.high| + |s.med| <= s.tokens + s.ringing)
  }

  function Evictions(out: seq<Left>): nat {
    if out == [] then 0
    else Evictions(out[..|out| - 1]) + if out[|out| - 1].Evicted? then 1 else 0
  }

  function Leavers(out: seq<Left>): (items: seq<Item>)
    ensures |items| == |out|
  {
    seq(|out|, i requires 0 <= i < |out| => out[i].item)
  }

  /** Nothing is lost or reordered within a class, and every ring is accounted for. */
  ghost predicate Accounted(s: State) {
    var h := s.history;
    && h.acceptedHigh == Leavers(h.highOut) + s.high
    && h.acceptedMed == h.medOut + s.med
    && h.acceptedLow == h.lowOut + s.low
    && s.tokens + s.ringing + Held(s) + h.surplus + h.lostRings == Items(s) + Evictions(h.highOut)
  }

  ghost predicate Inv(s: State) {
    Bounded(s) && Covered(s) && Accounted(s)
  }

  lemma {:induction false} EvictionsSnoc(out: seq<Left>, l: Left)
    ensures Evictions(out + [l]) == Evictions(out) + if l.Evicted? then 1 else 0
    ensures Leavers(out + [l]) == Leavers(out) + [l.item]
  {
    assert (out + [l])[..|out|] == out;
  }

  /** Taking the head off a queue moves one item across the accounting equation. */
  lemma {:induction false} HeadMoves(gone: seq<Item>, queue: seq<Item>)
    requires queue != []
    ensures gone + queue == gone + [queue[0]] + queue[1..]
  {
  }

  lemma {:induction false} StepKeepsInv(s: State, a: Action)
    requires Inv(s) && Enabled(s, a)
    ensures Inv(Apply(s, a))
  {
    hide Inv, Apply;
    match a
    case Call(item) =>
      CallKeepsInv(s, item);
    case DropStale(item) =>
      DropStaleKeepsInv(s, item);
    case PutAgain(item) =>
      PutAgainKeepsInv(s, item);
    case Ring =>
      CountersKeepInv(s, a);
    case Acquire =>
      CountersKeepInv(s, a);
    case GetHigh =>
      GetHighKeepsInv(s);
    case GetMed =>
      GetLowerKeepsInv(s, a);
    case GetLow =>
      GetLowerKeepsInv(s, a);
    case Transmit =>
      CountersKeepInv(s, a);
  }

  lemma {:induction false} CountersKeepInv(s: State, a: Action)
    requires Inv(s) && Enabled(s, a) && (a == Ring || a == Acquire || a == Transmit)
    ensures Inv(Apply(s, a))
  {
    hide Evictions, Leavers;
  }

  lemma {:induction false} DropStaleKeepsInv(s: State, item: Item)
    requires Inv(s) && Enabled(s, DropStale(item))
    ensures Inv(Apply(s, DropStale(item)))
  {
    hide Evictions, Leavers;
    if s.high != [] {
      EvictionsSnoc(s.history.highOut, Evicted(s.high[0]));
      HeadMoves(Leavers(s.history.highOut), s.high);
    }
  }

  lemma {:induction false} PutAgainKeepsInv(s: State, item: Item)
    requires Inv(s) && Enabled(s, PutAgain(item))
    ensures Inv(Apply(s, PutAgain(item)))
  {
    hide Evictions, Leavers;
    var left := Leavers(s.history.highOut);
    assert left + s.high + [item] == left + (s.high + [item]);
  }

  lemma {:induction false} GetHighKeepsInv(s: State)
    requires Inv(s) && Enabled(s, GetHigh)
    ensures Inv(Apply(s, GetHigh))
  {
    hide Evictions, Leavers;
    if s.high != [] {
      EvictionsSnoc(s.history.highOut, Taken(s.high[0]));
      HeadMoves(Leavers(s.history.highOut), s.high);
    }
  }

  lemma {:induction false} GetLowerKeepsInv(s: State, a: Action)
    requires Inv(s) && Enabled(s, a) && (a == GetMed || a == GetLow)
    ensures Inv(Apply(s, a))
  {
    hide Evictions, Leavers;
    if s.med != [] {
      HeadMoves(s.history.medOut, s.med);
    }
    if s.low != [] {
      HeadMoves(s.history.lowOut, s.low);
    }
  }

  lemma {:induction false} CallKeepsInv(s: State, item: Item)
    requires Inv(s)
    ensures Inv(Apply(s, Call(item)))
  {
    hide Inv;
    if |item.value| <= MAX_VALUE {
      match PriorityForTag(item.tag)
      case High => CallHighKeepsInv(s, item);
      case Med => CallMedKeepsInv(s, item);
      case Low => CallLowKeepsInv(s, item);
    }
  }

  lemma {:induction false} CallHighKeepsInv(s: State, item: Item)
    requires Inv(s) && PriorityForTag(item.tag) == High
    ensures Inv(Apply(s, Call(item)))
  {
    hide Evictions, Leavers, PriorityForTag;
    var left := Leavers(s.history.highOut);
    assert left + s.high + [item] == left + (s.high + [item]);
  }

  lemma {:induction false} CallMedKeepsInv(s: State, item: Item)
    requires Inv(s) && PriorityForTag(item.tag) == Med
    ensures Inv(Apply(s, Call(item)))
  {
    hide Evictions, Leavers, PriorityForTag;
    var h := s.history;
    assert h.medOut + s.med + [item] == h.medOut + (s.med + [item]);
  }

  lemma {:induction false} CallLowKeepsInv(s: State, item: Item)
    requires Inv(s) && PriorityForTag(item.tag) == Low
    ensures Inv(Apply(s, Call(item)))
  {
    hide Evictions, Leavers, PriorityForTag;
    var h := s.history;
    assert h.lowOut + s.low + [item] == h.lowOut + (s.low + [item]);
  }

  lemma {:induction false} ExecKeepsInv(s: State, calls: seq<Action>)
    requires Inv(s)
    ensures Inv(Exec(s, calls))
  {
    hide Inv, Apply, Enabled;
    if calls != [] {
      var s', a := Exec(s, calls[..|calls| - 1]), calls[|calls| - 1];
      ExecKeepsInv(s, calls[..|calls| - 1]);
      if Enabled(s', a) {
        StepKeepsInv(s', a);
      }
    }
  }

  lemma {:induction false} InitialInv()
    ensures Inv(Initial())
  {
  }

  lemma {:induction false} ReachableInv(s: State)
    requires Reachable(s)
    ensures Inv(s)
  {
    hide Inv, Exec;
    var calls :| Exec(Initial(), calls) == s;
    InitialInv();
    ExecKeepsInv(Initial(), calls);
  }

  // ---------------------------------------------------------------- no stranded message

  /** Whatever the interleaving, the draining task never sleeps on a queued message nobody will ring for. */
  lemma {:induction false} NoStrandedMessage(s: State)
    requires Reachable(s)
    ensures Items(s) <= s.tokens + s.ringing + Held(s)
    ensures s.tx == Waiting && s.tokens == 0 && s.ringing == 0 ==> s.high == s.med == s.low == []
  {
    ReachableInv(s);
  }

  /**
    Surplus wake-ups exist, but each needs its own replaced keep-alive: the replacements not
    yet paid for in wake-ups or lost rings are the rings that outnumber the queued items.
   */
  lemma {:induction false} SurplusNeedsEviction(s: State)
    requires Reachable(s)
    ensures s.history.surplus + s.history.lostRings <= Evictions(s.history.highOut)
    ensures Evictions(s.history.highOut) - (s.history.surplus + s.history.lostRings)
            == s.tokens + s.ringing + Held(s) - Items(s)
  {
    ReachableInv(s);
  }

  /** Accepted messages of a class leave in the order they were accepted, and none disappears. */
  lemma {:induction false} FifoPerClass(s: State)
    requires Reachable(s)
    ensures s.history.acceptedMed == s.history.medOut + s.med
    ensures s.history.acceptedLow == s.history.lowOut + s.low
    ensures s.history.acceptedHigh == Leavers(s.history.highOut) + s.high
  {
    ReachableInv(s);
  }

  // ---------------------------------------------------------------- what the tags decide

  /** MODE_CHANGE, the two object events, STARTUP, TIME_SYNC_REQUEST, TIME_REPLY, ACK and NACK. */
  predicate IsEventTag(tag: Byte) {
    || tag == 0x11 || tag == 0x12 || tag == 0x13 || tag == 0x15
    || tag == 0x16 || tag == 0x40 || tag == 0x43 || tag == 0x44
  }

  /** Keep-alives and nothing else pass the mailbox, events and nothing else the second queue. */
  ghost predicate Sorted(s: State) {
    var h := s.history;
    && (forall x | x in h.acceptedHigh :: x.tag == 0x14)
    && (forall x | x in s.replacing || x in s.reputting :: x.tag == 0x14)
    && (forall x | x in h.acceptedMed :: IsEventTag(x.tag))
    && (forall x | x in h.acceptedLow :: x.tag != 0x14 && !IsEventTag(x.tag))
  }

  lemma {:induction false} PriorityByTag(tag: Byte)
    ensures PriorityForTag(tag) == High <==> tag == 0x14
    ensures PriorityForTag(tag) == Med <==> IsEventTag(tag)
  {
  }

  lemma {:induction false} StepKeepsSorted(s: State, a: Action)
    requires Sorted(s) && Enabled(s, a)
    ensures Sorted(Apply(s, a))
  {
    match a
    case Call(item) => CallKeepsSorted(s, item);
    case DropStale(item) => ReplacingKeepsSorted(s, a, item);
    case PutAgain(item) => ReplacingKeepsSorted(s, a, item);
    case _ => TxKeepsSorted(s, a);
    hide Sorted, Apply;
  }

  lemma {:induction false} CallKeepsSorted(s: State, item: Item)
    requires Sorted(s)
    ensures Sorted(Apply(s, Call(item)))
  {
    PriorityByTag(item.tag);
    hide PriorityForTag, IsEventTag;
  }

  lemma {:induction false} ReplacingKeepsSorted(s: State, a: Action, item: Item)
    requires Sorted(s) && Enabled(s, a) && (a == DropStale(item) || a == PutAgain(item))
    ensures Sorted(Apply(s, a))
  {
    hide PriorityForTag, IsEventTag;
  }

  lemma {:induction false} TxKeepsSorted(s: State, a: Action)
    requires Sorted(s) && Enabled(s, a) && !a.Call? && !a.DropStale? && !a.PutAgain?
    ensures Sorted(Apply(s, a))
  {
    hide PriorityForTag, IsEventTag;
  }

  lemma {:induction false} ExecKeepsSorted(s: State, calls: seq<Action>)
    requires Sorted(s)
    ensures Sorted(Exec(s, calls))
  {
    hide Sorted, Apply, Enabled;
    if calls != [] {
      var s', a := Exec(s, calls[..|calls| - 1]), calls[|calls| - 1];
      ExecKeepsSorted(s, calls[..|calls| - 1]);
      if Enabled(s', a) {
        StepKeepsSorted(s', a);
      }
    }
  }

  lemma {:induction false} ReachableSorted(s: State)
    requires Reachable(s)
    ensures Sorted(s)
  {
    hide Exec;
    var calls :| Exec(Initial(), calls) == s;
    ExecKeepsSorted(Initial(), calls);
  }

  /** In every interleaving only keep-alives are ever replaced, and each class carries its own tags. */
  lemma {:induction false} TagsOfClasses(s: State)
    requires Reachable(s)
    ensures forall l | l in s.history.highOut :: l.item.tag == 0x14
    ensures forall x | x in s.high :: x.tag == 0x14
    ensures forall x | x in s.history.medOut + s.med :: IsEventTag(x.tag)
    ensures forall x | x in s.history.lowOut + s.low :: x.tag != 0x14 && !IsEventTag(x.tag)
  {
    hide Exec, Leavers;
    ReachableSorted(s);
    ReachableInv(s);
    var h := s.history;
    forall l | l in h.highOut ensures l.item.tag == 0x14 {
      LeaverOf(h.highOut, l);
      assert l.item in h.acceptedHigh;
    }
  }

  lemma {:induction false} LeaverOf(out: seq<Left>, l: Left)
    requires l in out
    ensures l.item in Leavers(out)
  {
    var i :| 0 <= i < |out| && out[i] == l;
    assert Leavers(out)[i] == l.item;
  }

  /** Nothing accepted but a keep-alive is ever lost: once drained, all the rest has been taken. */
  lemma {:induction false} OnlyKeepAlivesAreLost(s: State, x: Item)
    requires Reachable(s) && s.ringing == 0 && x.tag != 0x14
    requires x in s.history.acceptedHigh + s.history.acceptedMed + s.history.acceptedLow
    ensures x in Drain(s).history.medOut + Drain(s).history.lowOut
  {
    hide Exec, Drain, Leavers, Evictions;
    ReachableSorted(s);
    ReachableInv(s);
    DrainEmptiesQueues(s);
  }

  // ---------------------------------------------------------------- draining

  /** The draining task's next call, when it is not asleep. */
  function TxAction(tx: Tx): Action {
    match tx
    case Waiting => Acquire
    case AtHigh => GetHigh
    case AtMed => GetMed
    case AtLow => GetLow
    case Sending(_) => Transmit
  }

  function TxRank(tx: Tx): nat {
    match tx
    case Waiting => 0
    case AtHigh => 4
    case AtMed => 3
    case AtLow => 2
    case Sending(_) => 1
  }

  /** The draining task left to itself until it sleeps. */
  function Drain(s: State): State
    decreases s.tokens, TxRank(s.tx)
  {
    if s.tx == Waiting && s.tokens == 0 then s
    else Drain(Apply(s, TxAction(s.tx)))
  }

  /**
    Left alone with no caller mid-send, it empties all queues, so every accepted message has
    been taken; and by then every keep-alive replaced has cost one surplus wake-up or lost ring.
   */
  lemma {:induction false} DrainEmptiesQueues(s: State)
    requires Inv(s) && s.ringing == 0
    ensures var d := Drain(s);
            && d.high == d.med == d.low == []
            && d.history.medOut == s.history.acceptedMed && d.history.lowOut == s.history.acceptedLow
            && Leavers(d.history.highOut) == s.history.acceptedHigh
            && Evictions(d.history.highOut) == Evictions(s.history.highOut)
            && d.history.surplus + d.history.lostRings == Evictions(s.history.highOut)
    decreases s.tokens, TxRank(s.tx)
  {
    hide Inv, Apply, Evictions, Leavers;
    if s.tx == Waiting && s.tokens == 0 {
      AsleepIsEmpty(s);
    } else {
      TxAdvances(s);
      StepKeepsInv(s, TxAction(s.tx));
      DrainEmptiesQueues(Apply(s, TxAction(s.tx)));
    }
  }

  lemma {:induction false} AsleepIsEmpty(s: State)
    requires Inv(s) && s.ringing == 0 && s.tx == Waiting && s.tokens == 0
    ensures s.high == s.med == s.low == []
    ensures s.history.medOut == s.history.acceptedMed && s.history.lowOut == s.history.acceptedLow
    ensures Leavers(s.history.highOut) == s.history.acceptedHigh
    ensures s.history.surplus + s.history.lostRings == Evictions(s.history.highOut)
  {
    hide Evictions, Leavers;
  }

  /** A call of the draining task brings it nearer to sleep, and accepts and replaces nothing. */
  lemma {:induction false} TxAdvances(s: State)
    requires Enabled(s, TxAction(s.tx))
    ensures var s' := Apply(s, TxAction(s.tx));
            && (s'.tokens < s.tokens || (s'.tokens == s.tokens && TxRank(s'.tx) < TxRank(s.tx)))
            && s'.ringing == s.ringing
            && s'.history.acceptedHigh == s.history.acceptedHigh
            && s'.history.acceptedMed == s.history.acceptedMed
            && s'.history.acceptedLow == s.history.acceptedLow
            && Evictions(s'.history.highOut) == Evictions(s.history.highOut)
  {
    hide Evictions;
    if s.tx == AtHigh && s.high != [] {
      EvictionsSnoc(s.history.highOut, Taken(s.high[0]));
    }
  }

  lemma {:induction false} EvictionsIn(out: seq<Left>)
    ensures Evictions(out) == 0 <==> forall l :: l in out ==> l.Taken?
  {
    if out != [] {
      var front, last := out[..|out| - 1], out[|out| - 1];
      EvictionsIn(front);
      assert out == front + [last];
      assert last in out && forall l :: l in out <==> l in front || l == last;
    }
  }

  /**
    Every wake-up finds an item and every ring counts, by the time the queues are drained,
    exactly when no keep-alive was ever replaced in the mailbox.
   */
  lemma {:induction false} NoSurplusIffNothingReplaced(s: State)
    requires Reachable(s) && s.ringing == 0
    ensures var h := Drain(s).history;
            h.surplus == 0 && h.lostRings == 0 <==> forall l :: l in s.history.highOut ==> l.Taken?
  {
    hide Evictions, Drain;
    ReachableInv(s);
    DrainEmptiesQueues(s);
    EvictionsIn(s.history.highOut);
  }

  // ---------------------------------------------------------------- the C functions, uninterrupted

  lemma {:induction false} ExecSnoc(s: State, calls: seq<Action>, a: Action)
    requires Enabled(Exec(s, calls), a)
    ensures Exec(s, calls + [a]) == Apply(Exec(s, calls), a)
  {
    hide Apply, Enabled;
    assert (calls + [a])[..|calls|] == calls;
  }

  class Communication {
    var txqHigh: seq<Item>
    var txqMed: seq<Item>
    var txqLow: seq<Item>
    var semTxReady: nat
    ghost var now: State  // the same state as the interleaving model sees it

    ghost predicate Valid()
      reads this
    {
      now.high == txqHigh && now.med == txqMed && now.low == txqLow && now.tokens == semTxReady
    }

    constructor ()
      ensures Valid() && now == Initial()
    {
      txqHigh, txqMed, txqLow, semTxReady := [], [], [], 0;
      now := Initial();
    }

    /** `osMessageQueuePut` without waiting, from one of the two places that call it. */
    method Put(item: Item, again: bool, ghost start: State, ghost calls: seq<Action>)
      returns (ok: bool, ghost calls': seq<Action>)
      requires Valid() && now == Exec(start, calls) && |item.value| <= MAX_VALUE
      requires again ==> item in now.reputting
      requires again ==> PriorityForTag(item.tag) == High
      modifies this
      ensures Valid() && now == Exec(start, calls') && now.tx == old(now).tx
      ensures ok == match PriorityForTag(item.tag)
                    case High => |old(txqHigh)| < HIGH_SLOTS
                    case Med => |old(txqMed)| < MED_SLOTS
                    case Low => |old(txqLow)| < LOW_SLOTS
      ensures txqHigh == if ok && PriorityForTag(item.tag) == High then old(txqHigh) + [item] else old(txqHigh)
      ensures txqMed == if ok && PriorityForTag(item.tag) == Med then old(txqMed) + [item] else old(txqMed)
      ensures txqLow == if ok && PriorityForTag(item.tag) == Low then old(txqLow) + [item] else old(txqLow)
      ensures semTxReady == old(semTxReady)
      ensures ok ==> now.ringing > 0
      ensures !ok && !again && PriorityForTag(item.tag) == High ==> item in now.replacing
    {
      hide Exec;
      var prio := PriorityForTag(item.tag);
      match prio {
        case High =>
          ok := |txqHigh| < HIGH_SLOTS;
          if ok {
            txqHigh := txqHigh + [item];
          }
        case Med =>
          ok := |txqMed| < MED_SLOTS;
          if ok {
            txqMed := txqMed + [item];
          }
        case Low =>
          ok := |txqLow| < LOW_SLOTS;
          if ok {
            txqLow := txqLow + [item];
          }
      }
      calls' := Record(start, calls, if again then PutAgain(item) else Call(item));
    }

    /** `osMessageQueueGet` on the mailbox, by a caller about to replace what is in it. */
    method DropStaleItem(item: Item, ghost start: State, ghost calls: seq<Action>) returns (ghost calls': seq<Action>)
      requires Valid() && now == Exec(start, calls) && item in now.replacing
      modifies this
      ensures Valid() && now == Exec(start, calls') && now.tx == old(now).tx
      ensures txqHigh == if old(txqHigh) == [] then [] else old(txqHigh)[1..]
      ensures txqMed == old(txqMed) && txqLow == old(txqLow) && semTxReady == old(semTxReady)
      ensures item in now.reputting
    {
      hide Exec;
      if txqHigh != [] {
        txqHigh := txqHigh[1..];
      }
      calls' := Record(start, calls, DropStale(item));
    }

    /** `osSemaphoreRelease`, which fails silently on a full semaphore. */
    method Release(ghost start: State, ghost calls: seq<Action>) returns (ghost calls': seq<Action>)
      requires Valid() && now == Exec(start, calls) && now.ringing > 0
      modifies this
      ensures Valid() && now == Exec(start, calls') && now.tx == old(now).tx
      ensures txqHigh == old(txqHigh) && txqMed == old(txqMed) && txqLow == old(txqLow)
      ensures semTxReady == if old(semTxReady) < MAX_TOKENS then old(semTxReady) + 1 else old(semTxReady)
    {
      hide Exec;
      if semTxReady < MAX_TOKENS {
        semTxReady := semTxReady + 1;
      }
      calls' := Record(start, calls, Ring);
    }

    /** Ghost bookkeeping: one more call has been made. */
    ghost method Record(start: State, calls: seq<Action>, a: Action) returns (calls': seq<Action>)
      requires now == Exec(start, calls) && Enabled(now, a)
      modifies this`now
      ensures calls' == calls + [a] && now == Apply(old(now), a) == Exec(start, calls')
    {
      hide Exec, Apply;
      ExecSnoc(start, calls, a);
      now := Apply(now, a);
      calls' := calls + [a];
    }

    /**
      `comm_send` with nobody else running: zero exactly when the message was queued, and a
      keep-alive is always queued, in place of an older one. It is a run of the model's calls.
     */
    method Send(tag: Byte, value: seq<Byte>) returns (rc: int, ghost calls: seq<Action>)
      requires Valid() && Bounded(now)
      modifies this
      ensures Valid() && now == Exec(old(now), calls) && now.tx == old(now).tx
      ensures rc == if Accepts(old(now), Item(tag, value)) then 0 else -1
      ensures rc == -1 ==> (txqHigh, txqMed, txqLow, semTxReady) == old((txqHigh, txqMed, txqLow, semTxReady))
      ensures rc == 0 ==> semTxReady == if old(semTxReady) < 10 then old(semTxReady) + 1 else 10
      ensures rc == 0 ==> (txqHigh, txqMed, txqLow) == Queued(old(now), Item(tag, value))
      ensures rc == 0 <==> |value| <= 96 && if tag == 0x14 then true
                                            else if IsEventTag(tag) then |old(txqMed)| < 4 else |old(txqLow)| < 4
      ensures rc == 0 ==> && txqHigh == (if tag == 0x14 then [Item(tag, value)] else old(txqHigh))
                          && txqMed == old(txqMed) + (if IsEventTag(tag) then [Item(tag, value)] else [])
                          && txqLow == old(txqLow) + if tag == 0x14 || IsEventTag(tag) then [] else [Item(tag, value)]
    {
      hide Exec, Apply;
      QueuedByTag(now, Item(tag, value));
      calls := [];
      ghost var start := now;
      ExecNothing(start);
      if |value| > MAX_VALUE {
        return -1, calls;
      }
      var item := Item(tag, value);
      var prio := PriorityForTag(tag);
      var status;
      status, calls := Put(item, false, start, calls);
      if !status && prio == High {
        calls := DropStaleItem(item, start, calls);
        status, calls := Put(item, true, start, calls);
      }
      if !status {
        return -1, calls;
      }
      assert prio == High ==> txqHigh == [item];
      calls := Release(start, calls);
      return 0, calls;
    }

    /** `osMessageQueueGet` without waiting, by the draining task on the queue it has come to. */
    method TryGet(p: Priority, ghost start: State, ghost calls: seq<Action>)
      returns (got: seq<Item>, ghost calls': seq<Action>)
      requires Valid() && now == Exec(start, calls)
      requires now.tx == match p case High => AtHigh case Med => AtMed case Low => AtLow
      modifies this
      ensures Valid() && now == Exec(start, calls') && semTxReady == old(semTxReady)
      ensures var q := match p case High => old(txqHigh) case Med => old(txqMed) case Low => old(txqLow);
              got == (if q == [] then [] else [q[0]])
      ensures txqHigh == if p == High then old(txqHigh)[|got|..] else old(txqHigh)
      ensures txqMed == if p == Med then old(txqMed)[|got|..] else old(txqMed)
      ensures txqLow == if p == Low then old(txqLow)[|got|..] else old(txqLow)
      ensures now.tx == if got != [] || p == Low then Sending(got) else if p == High then AtMed else AtLow
    {
      hide Exec;
      got := [];
      match p {
        case High =>
          if txqHigh != [] {
            got, txqHigh := [txqHigh[0]], txqHigh[1..];
          }
          calls' := Record(start, calls, GetHigh);
        case Med =>
          if txqMed != [] {
            got, txqMed := [txqMed[0]], txqMed[1..];
          }
          calls' := Record(start, calls, GetMed);
        case Low =>
          if txqLow != [] {
            got, txqLow := [txqLow[0]], txqLow[1..];
          }
          calls' := Record(start, calls, GetLow);
      }
    }

    method Take(ghost start: State, ghost calls: seq<Action>) returns (ghost calls': seq<Action>)
      requires Valid() && now == Exec(start, calls) && now.tx == Waiting && semTxReady > 0
      modifies this`semTxReady, this`now
      ensures Valid() && now == Exec(start, calls') && now.tx == AtHigh
      ensures semTxReady == old(semTxReady) - 1
    {
      hide Exec;
      semTxReady := semTxReady - 1;
      calls' := Record(start, calls, Acquire);
    }

    /** One round of `comm_tx_task`: takes the oldest item of the highest non-empty queue, if any. */
    method TxRound() returns (got: seq<Item>, ghost calls: seq<Action>)
      requires Valid() && now.tx == Waiting && semTxReady > 0
      modifies this
      ensures Valid() && now == Exec(old(now), calls) && now.tx == Waiting
      ensures semTxReady == old(semTxReady) - 1
      ensures TakesHead(old(txqHigh) + (old(txqMed) + old(txqLow)), got, txqHigh + (txqMed + txqLow))
    {
      hide Exec, Apply, TakesHead;
      ghost var high, med, low := txqHigh, txqMed, txqLow;
      calls := [];
      ghost var start := now;
      ExecNothing(start);
      calls := Take(start, calls);
      got, calls := TryGet(High, start, calls);
      if got == [] {
        got, calls := TryGet(Med, start, calls);
        if got == [] {
          got, calls := TryGet(Low, start, calls);
        }
      }
      calls := Finish(start, calls);
      HighestFirst(high, med, low, got, txqHigh, txqMed, txqLow);
    }

    /** Encoding and transmitting touch none of the shared objects. */
    ghost method Finish(start: State, calls: seq<Action>) returns (calls': seq<Action>)
      requires Valid() && now == Exec(start, calls) && now.tx.Sending?
      modifies this`now
      ensures Valid() && now == Exec(start, calls') && now.tx == Waiting
    {
      hide Exec;
      calls' := Record(start, calls, Transmit);
    }
  }

  /** The oldest of `all` is taken, if there is one, and the rest stay in order. */
  ghost predicate TakesHead(all: seq<Item>, got: seq<Item>, rest: seq<Item>) {
    if all == [] then got == [] && rest == [] else got == [all[0]] && rest == all[1..]
  }

  /** Taking the head of the highest non-empty queue takes the head of the three in order of priority. */
  lemma {:induction false} HighestFirst(high: seq<Item>, med: seq<Item>, low: seq<Item>, got: seq<Item>,
                                        high': seq<Item>, med': seq<Item>, low': seq<Item>)
    requires if high != [] then TakesHead(high, got, high') && med' == med && low' == low
             else if med != [] then high' == [] && TakesHead(med, got, med') && low' == low
             else high' == med' == [] && TakesHead(low, got, low')
    ensures TakesHead(high + (med + low), got, high' + (med' + low'))
  {
  }

  predicate Accepts(s: State, item: Item) {
    && |item.value| <= MAX_VALUE
    && (PriorityForTag(item.tag) == Med ==> |s.med| < MED_SLOTS)
    && (PriorityForTag(item.tag) == Low ==> |s.low| < LOW_SLOTS)
  }

  /** The three queues after an accepted message: last in its own queue, alone in the mailbox. */
  function Queued(s: State, item: Item): (seq<Item>, seq<Item>, seq<Item>) {
    match PriorityForTag(item.tag)
    case High => ([item], s.med, s.low)
    case Med => (s.high, s.med + [item], s.low)
    case Low => (s.high, s.med, s.low + [item])
  }

  lemma {:induction false} QueuedByTag(s: State, item: Item)
    ensures Accepts(s, item) <==> |item.value| <= 96 && if item.tag == 0x14 then true
                                                        else if IsEventTag(item.tag) then |s.med| < 4 else |s.low| < 4
    ensures var (high, med, low) := Queued(s, item);
            && high == (if item.tag == 0x14 then [item] else s.high)
            && med == s.med + (if IsEventTag(item.tag) then [item] else [])
            && low == s.low + if item.tag == 0x14 || IsEventTag(item.tag) then [] else [item]
  {
    assert s.med + [] == s.med && s.low + [] == s.low;
  }

  lemma {:induction false} ExecNothing(s: State)
    ensures Exec(s, []) == s
  {
  }

  /** Two keep-alives in a row leave a token behind: the second wake-up finds nothing to send. */
  lemma {:induction false} SurplusWakeUpIsReachable(a: Item, b: Item)
    requires PriorityForTag(a.tag) == PriorityForTag(b.tag) == High
    requires |a.value| <= MAX_VALUE && |b.value| <= MAX_VALUE
    ensures exists s :: Reachable(s) && s.tx == Sending([]) && s.history.highOut == [Evicted(a), Taken(b)]
  {
    hide Exec, Reachable;
    var s := TwoKeepAlives(a, b);
    s := Then(s, Acquire);
    s := Then(s, GetHigh);
    s := Then(s, Transmit);
    s := Then(s, Acquire);
    s := Then(s, GetHigh);
    s := Then(s, GetMed);
    s := Then(s, GetLow);
  }

  lemma {:induction false} OneKeepAlive(a: Item) returns (s: State)
    requires PriorityForTag(a.tag) == High && |a.value| <= MAX_VALUE
    ensures Reachable(s) && s == Initial().(high := [a], tokens := 1, history := s.history)
    ensures s.history.highOut == []
  {
    hide Exec;
    ExecNothing(Initial());
    s := Initial();
    assert Reachable(s);
    hide Reachable;
    s := Then(s, Call(a));
    s := Then(s, Ring);
  }

  lemma {:induction false} TwoKeepAlives(a: Item, b: Item) returns (s: State)
    requires PriorityForTag(a.tag) == PriorityForTag(b.tag) == High
    requires |a.value| <= MAX_VALUE && |b.value| <= MAX_VALUE
    ensures Reachable(s) && s.tokens == 2 && s.tx == Waiting
    ensures s.high == [b] && s.med == s.low == [] && s.history.highOut == [Evicted(a)]
  {
    hide Exec, Reachable;
    s := OneKeepAlive(a);
    s := Then(s, Call(b));
    s := Then(s, DropStale(b));
    s := Then(s, PutAgain(b));
    s := Then(s, Ring);
  }

  lemma {:induction false} Then(s: State, a: Action) returns (s': State)
    requires Reachable(s) && Enabled(s, a)
    ensures s' == Apply(s, a) && Reachable(s')
  {
    hide Exec, Apply, Enabled;
    var calls :| Exec(Initial(), calls) == s;
    ExecSnoc(Initial(), calls, a);
    s' := Apply(s, a);
  }
}
