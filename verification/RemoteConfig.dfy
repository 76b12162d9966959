/**
  Thresholds seen from the Central Computer: it checks and sends SET commands, asks for
  the LNC's limits, and caches the answer, narrowed to eight bits. The link delivers frames
  in order but may lose any of them; the LNC may reboot at any time; its flash works.
 */
module RemoteConfig {
  import opened Bytes
  import opened Frame
  import opened Payload
  import opened Config

  type Int8 = x: int | -0x80 <= x < 0x80

  const CONFIG_REPLY: Byte := 0x45

  function ToUnsigned8(v: Int8): Byte {
    if v < 0 then v + 0x100 else v
  }

  /** The conversion of a 16-bit field to the eight bits it is cached in. */
  function Narrow(v: Int16): Int8 {
    (v + 0x80) % 0x100 - 0x80
  }

  datatype Thresholds = Thresholds(
    tempNormalMin: Int8, tempNormalMax: Int8, tempWarningMin: Int8, tempWarningMax: Int8,
    humidityNormal: Byte, humidityWarning: Byte, lightNormal: Byte, lightWarning: Byte,
    batteryNormal: Byte, batteryWarning: Byte)

  /** What an operator can ask for. */
  datatype Order = TempNormal(min: Int8, max: Int8) | TempWarning(min: Int8, max: Int8)
                 | Bound(tag: Byte, bound: Byte) | Ask

  predicate IsBoundTag(tag: Byte) {
    SET_HUM_NORMAL <= tag <= SET_BATT_WARNING
  }

  /** The frame an order becomes, or none if it fails its sanity check. */
  function Outgoing(o: Order): Option<Frame> {
    match o
    case TempNormal(min, max) =>
      if min > max then None else Some(Frame(SET_TEMP_NORMAL, [ToUnsigned8(min), ToUnsigned8(max)]))
    case TempWarning(min, max) =>
      if min > max then None else Some(Frame(SET_TEMP_WARNING, [ToUnsigned8(min), ToUnsigned8(max)]))
    case Bound(tag, bound) =>
      if bound > 100 || !IsBoundTag(tag) then None else Some(Frame(tag, [bound]))
    case Ask => Some(Frame(GET_CONFIG, []))
  }

  /** The cache after a CONFIG_REPLY of the right length. */
  function Cached(value: seq<Byte>): Option<Thresholds> {
    if |value| != 14 then None
    else
      var l := LimitsFrom(value);
      Some(Thresholds(Narrow(l.tempNormalMin), Narrow(l.tempNormalMax), Narrow(l.tempWarningMin),
                      Narrow(l.tempWarningMax), l.humidityNormal, l.humidityWarning, l.lightNormal,
                      l.lightWarning, l.batteryNormal, l.batteryWarning))
  }

  /** Only a 14-byte reply is cached, each temperature cut to its low eight bits. */
  lemma {:induction false} CachedIff(value: seq<Byte>)
    ensures Cached(value).Some? <==> |value| == 14
    ensures |value| == 14 ==>
              var t := Cached(value).value;
              && t.tempNormalMin % 256 == value[0] && t.tempNormalMax % 256 == value[2]
              && t.tempWarningMin % 256 == value[4] && t.tempWarningMax % 256 == value[6]
              && [t.humidityNormal, t.humidityWarning, t.lightNormal, t.lightWarning, t.batteryNormal, t.batteryWarning]
                 == value[8..]
  {
    if |value| == 14 {
      LowByteKept(value[0], value[1]);
      LowByteKept(value[2], value[3]);
      LowByteKept(value[4], value[5]);
      LowByteKept(value[6], value[7]);
      hide FromLe16, Narrow;
    }
  }

  lemma {:induction false} LowByteKept(lo: Byte, hi: Byte)
    ensures Narrow(FromLe16(lo, hi)) % 256 == lo
  {
  }

  /** The Central Computer's side, as `ManagementCommand` keeps it. */
  class ManagementCommand {
    var thresholds: Option<Thresholds>
    var replyPending: bool
    var sent: seq<Frame>

    constructor ()
      ensures thresholds == None && !replyPending && sent == []
    {
      thresholds, replyPending, sent := None, false, [];
    }

    method SendTempRange(tag: Byte, min: Int8, max: Int8) returns (ok: bool)
      modifies `sent
      ensures ok <==> min <= max
      ensures sent == old(sent) + if ok then [Frame(tag, [ToUnsigned8(min), ToUnsigned8(max)])] else []
    {
      if min > max {
        return false;
      }
      sent := sent + [Frame(tag, [ToUnsigned8(min), ToUnsigned8(max)])];
      return true;
    }

    method SendBound(tag: Byte, min: Byte) returns (ok: bool)
      modifies `sent
      ensures ok <==> min <= 100
      ensures sent == old(sent) + if ok then [Frame(tag, [min])] else []
    {
      if min > 100 {
        return false;
      }
      sent := sent + [Frame(tag, [min])];
      return true;
    }

    /** Carries out an order: at most the one frame `Outgoing` names goes out. */
    method Issue(o: Order) returns (ok: bool)
      requires o.Bound? ==> IsBoundTag(o.tag)
      modifies this
      ensures ok <==> Outgoing(o).Some?
      ensures sent == old(sent) + if ok then [Outgoing(o).value] else []
      ensures thresholds == old(thresholds) && replyPending == (old(replyPending) || o == Ask)
    {
      match o {
        case TempNormal(min, max) =>
          ok := SendTempRange(SET_TEMP_NORMAL, min, max);
        case TempWarning(min, max) =>
          ok := SendTempRange(SET_TEMP_WARNING, min, max);
        case Bound(tag, bound) =>
          ok := SendBound(tag, bound);
        case Ask =>
          replyPending := true;
          sent := sent + [Frame(GET_CONFIG, [])];
          ok := true;
      }
    }

    /** `on_frame` for CONFIG_REPLY: overwrites the cache and wakes whoever waits. */
    method OnConfigReply(f: Frame)
      requires f.tag == CONFIG_REPLY
      modifies `thresholds, `replyPending
      ensures if |f.value| == 14 then thresholds == Cached(f.value) && !replyPending
              else thresholds == old(thresholds) && replyPending == old(replyPending)
    {
      if |f.value| != 14 {
        return;
      }
      thresholds := Cached(f.value);
      replyPending := false;
    }
  }

  // ---------------------------------------------------------------- the whole system

  /** Both programs' state and the frames between them; `waiting` is `replyPending`. */
  datatype System = System(
    lnc: Store, down: seq<Frame>, up: seq<Frame>, cache: Option<Thresholds>, waiting: bool)

  datatype Step = Order(order: Order) | LoseDown | LncHandles | LncReboots | LoseUp | CcHandles

  function Initial(page: Page, h: Health): System {
    System(Boot(page, h), [], [], None, false)
  }

  /** The LNC takes the next frame; GET_CONFIG is answered with the limits as they are. */
  function LncTakes(s: System, h: Health): System
    requires s.down != []
  {
    var lnc := Handle(s.lnc, s.down[0], h);
    var reply := if s.down[0].tag == GET_CONFIG then [Frame(CONFIG_REPLY, LimitBytes(lnc.limits))] else [];
    s.(lnc := lnc, down := s.down[1..], up := s.up + reply)
  }

  /** The Central Computer takes the next reply; only one of the right length changes anything. */
  function CcTakes(s: System): System
    requires s.up != []
  {
    var t := Cached(s.up[0].value);
    if t.None? then s.(up := s.up[1..]) else s.(up := s.up[1..], cache := t, waiting := false)
  }

  function Do(s: System, step: Step, h: Health): System {
    match step
    case Order(o) =>
      if Outgoing(o).None? then s
      else s.(down := s.down + [Outgoing(o).value], waiting := s.waiting || o == Ask)
    case LoseDown => if s.down == [] then s else s.(down := s.down[1..])
    case LncHandles => if s.down == [] then s else LncTakes(s, h)
    case LncReboots => s.(lnc := Boot(s.lnc.page, h))
    case LoseUp => if s.up == [] then s else s.(up := s.up[1..])
    case CcHandles => if s.up == [] then s else CcTakes(s)
  }

  function Run(s: System, steps: seq<Step>, h: Health): System {
    if steps == [] then s else Do(Run(s, steps[..|steps| - 1], h), steps[|steps| - 1], h)
  }

  /** Within the operator's checks: ranges ordered and eight bits wide, bounds percentages. */
  ghost predicate Sane(l: Limits) {
    && -0x80 <= l.tempNormalMin <= l.tempNormalMax < 0x80
    && -0x80 <= l.tempWarningMin <= l.tempWarningMax < 0x80
    && l.humidityNormal <= 100 && l.humidityWarning <= 100
    && l.lightNormal <= 100 && l.lightWarning <= 100
    && l.batteryNormal <= 100 && l.batteryWarning <= 100
  }

  /** The cache shows exactly these limits. */
  ghost predicate Shows(t: Thresholds, l: Limits) {
    && (t.tempNormalMin, t.tempNormalMax) == (l.tempNormalMin, l.tempNormalMax)
    && (t.tempWarningMin, t.tempWarningMax) == (l.tempWarningMin, l.tempWarningMax)
    && (t.humidityNormal, t.humidityWarning) == (l.humidityNormal, l.humidityWarning)
    && (t.lightNormal, t.lightWarning) == (l.lightNormal, l.lightWarning)
    && (t.batteryNormal, t.batteryWarning) == (l.batteryNormal, l.batteryWarning)
  }

  // ---------------------------------------------------------------- where a reply came from

  /** Step `k` of the run answered GET_CONFIG, and these were the LNC's limits then. */
  ghost predicate AnsweredAt(start: System, steps: seq<Step>, h: Health, k: nat, l: Limits)
    requires k < |steps|
  {
    var s := Run(start, steps[..k], h);
    steps[k] == LncHandles && s.down != [] && s.down[0].tag == GET_CONFIG && s.lnc.limits == l
  }

  ghost predicate Answered(start: System, steps: seq<Step>, h: Health, l: Limits) {
    Sane(l) && exists k: nat :: k < |steps| && AnsweredAt(start, steps, h, k, l)
  }

  ghost predicate IsReply(start: System, steps: seq<Step>, h: Health, f: Frame) {
    exists l :: Answered(start, steps, h, l) && f == Frame(CONFIG_REPLY, LimitBytes(l))
  }

  ghost predicate IsCopy(start: System, steps: seq<Step>, h: Health, t: Thresholds) {
    exists l :: Answered(start, steps, h, l) && Shows(t, l)
  }

  ghost predicate IsOrder(f: Frame) {
    exists o :: Outgoing(o) == Some(f)
  }

  ghost predicate Inv(s: System, start: System, steps: seq<Step>, h: Health) {
    && Sane(s.lnc.limits) && Coherent(s.lnc)
    && (forall i :: 0 <= i < |s.down| ==> IsOrder(s.down[i]))
    && (forall i :: 0 <= i < |s.up| ==> IsReply(start, steps, h, s.up[i]))
    && (s.cache.Some? ==> IsCopy(start, steps, h, s.cache.value))
  }

  lemma {:induction false} AnsweredLater(start: System, steps: seq<Step>, h: Health, l: Limits)
    requires steps != [] && Answered(start, steps[..|steps| - 1], h, l)
    ensures Answered(start, steps, h, l)
  {
    hide Run, Sane;
    var front := steps[..|steps| - 1];
    var k: nat :| k < |front| && AnsweredAt(start, front, h, k, l);
    assert steps[..k] == front[..k];
    assert AnsweredAt(start, steps, h, k, l);
  }

  /** Lengthening the run forgets nothing. */
  lemma {:induction false} InvLater(s: System, start: System, steps: seq<Step>, h: Health)
    requires steps != [] && Inv(s, start, steps[..|steps| - 1], h)
    ensures Inv(s, start, steps, h)
  {
    hide Answered, Shows, Sane, Coherent, LimitBytes, IsOrder;
    var front := steps[..|steps| - 1];
    forall l | Answered(start, front, h, l) ensures Answered(start, steps, h, l) {
      AnsweredLater(start, steps, h, l);
    }
    forall i | 0 <= i < |s.up| ensures IsReply(start, steps, h, s.up[i]) {
      assert IsReply(start, front, h, s.up[i]);
    }
    if s.cache.Some? {
      assert IsCopy(start, front, h, s.cache.value);
    }
  }

  // ---------------------------------------------------------------- each step

  /** An order the operator may give keeps the limits sane. */
  lemma {:induction false} OrdersKeepSane(l: Limits, o: Order)
    requires Sane(l) && Outgoing(o).Some?
    ensures Changed(l, Outgoing(o).value).Some? ==> Sane(Changed(l, Outgoing(o).value).value)
  {
    match o
    case TempNormal(min, max) =>
      assert ToSigned8(ToUnsigned8(min)) == min && ToSigned8(ToUnsigned8(max)) == max;
    case TempWarning(min, max) =>
      assert ToSigned8(ToUnsigned8(min)) == min && ToSigned8(ToUnsigned8(max)) == max;
    case Bound(_, _) =>
    case Ask =>
  }

  /** Narrowing loses nothing of sane limits. */
  lemma {:induction false} NarrowingIsLossless(l: Limits)
    requires Sane(l)
    ensures Cached(LimitBytes(l)).Some? && Shows(Cached(LimitBytes(l)).value, l)
  {
    hide LimitBytes, LimitsFrom;
    LimitsRoundTrip(l);
  }

  lemma {:induction false} RebootKeeps(s: Store, h: Health)
    requires Coherent(s)
    ensures Boot(s.page, h) == s
  {
  }

  /** The LNC's step: limits stay sane and coherent, and the reply it may add is a true one. */
  lemma {:induction false} LncKeepsInv(start: System, steps: seq<Step>, h: Health)
    requires Healthy(h) && steps != [] && steps[|steps| - 1] == LncHandles
    requires var s := Run(start, steps[..|steps| - 1], h); s.down != [] && Inv(s, start, steps, h)
    ensures Inv(Run(start, steps, h), start, steps, h)
  {
    hide Changed, Cached, LimitBytes, Outgoing, Sane, Shows, SaveTo, Load;
    var s := Run(start, steps[..|steps| - 1], h);
    var s' := Run(start, steps, h);
    assert s' == LncTakes(s, h);
    var o :| Outgoing(o) == Some(s.down[0]);
    OrdersKeepSane(s.lnc.limits, o);
    HandleKeepsCoherent(s.lnc, s.down[0], h);
    assert Sane(s'.lnc.limits) && Coherent(s'.lnc);
    forall i | 0 <= i < |s'.down| ensures IsOrder(s'.down[i]) {
      assert IsOrder(s.down[i + 1]);
    }
    if s.down[0].tag == GET_CONFIG {
      GetConfigChangesNothing(s.lnc, s.down[0], h);
      var l := s.lnc.limits;
      assert AnsweredAt(start, steps, h, |steps| - 1, l);
      assert Answered(start, steps, h, l);
      assert s'.up == s.up + [Frame(CONFIG_REPLY, LimitBytes(l))];
    }
    forall i | 0 <= i < |s'.up| ensures IsReply(start, steps, h, s'.up[i]) {
      if i < |s.up| {
        assert IsReply(start, steps, h, s.up[i]);
      } else {
        assert s'.up[i] == Frame(CONFIG_REPLY, LimitBytes(s.lnc.limits));
      }
    }
  }

  lemma {:induction false} GetConfigChangesNothing(s: Store, f: Frame, h: Health)
    requires f.tag == GET_CONFIG
    ensures Handle(s, f, h) == s
  {
    hide SaveTo;
  }

  lemma {:induction false} AnsweredIsSane(start: System, steps: seq<Step>, h: Health, l: Limits)
    requires Answered(start, steps, h, l)
    ensures Sane(l)
  {
  }

  lemma {:induction false} IdleStep(s: System, step: Step, h: Health)
    requires (step == LncHandles && s.down == []) || (step == CcHandles && s.up == [])
    ensures Do(s, step, h) == s
  {
  }

  /** The Central Computer's step: what it caches is the reply's limits, whole. */
  lemma {:induction false} CcKeepsInv(s: System, start: System, steps: seq<Step>, h: Health)
    requires Inv(s, start, steps, h) && s.up != []
    ensures Inv(Do(s, CcHandles, h), start, steps, h)
  {
    hide Cached, LimitBytes, IsOrder, Coherent, Answered, Shows;
    var s' := Do(s, CcHandles, h);
    assert IsReply(start, steps, h, s.up[0]);
    var l :| Answered(start, steps, h, l) && s.up[0] == Frame(CONFIG_REPLY, LimitBytes(l));
    AnsweredIsSane(start, steps, h, l);
    NarrowingIsLossless(l);
    assert IsCopy(start, steps, h, s'.cache.value);
    forall i | 0 <= i < |s'.up| ensures IsReply(start, steps, h, s'.up[i]) {
      assert IsReply(start, steps, h, s.up[i + 1]);
    }
  }

  lemma {:induction false} OtherStepsKeepInv(s: System, step: Step, start: System, steps: seq<Step>, h: Health)
    requires Inv(s, start, steps, h) && !step.LncHandles? && !step.CcHandles?
    ensures Inv(Do(s, step, h), start, steps, h)
  {
    hide Cached, LimitBytes, Coherent, Outgoing, Sane, Shows, IsReply, IsCopy;
    var s' := Do(s, step, h);
    if step.LncReboots? {
      RebootKeeps(s.lnc, h);
    }
    forall i | 0 <= i < |s'.down| ensures IsOrder(s'.down[i]) {
      assert s'.down[i] in s.down || Outgoing(step.order) == Some(s'.down[i]);
    }
    forall i | 0 <= i < |s'.up| ensures IsReply(start, steps, h, s'.up[i]) {
      assert s'.up[i] in s.up;
    }
  }

  // ---------------------------------------------------------------- whole runs

  lemma {:induction false} RunKeepsInvFrom(start: System, h: Health, steps: seq<Step>)
    requires Healthy(h) && Inv(start, start, [], h)
    ensures Inv(Run(start, steps, h), start, steps, h)
    decreases |steps|
  {
    hide Do, Coherent, Load, SaveTo, IsReply, IsCopy, IsOrder;
    if steps != [] {
      var front, last := steps[..|steps| - 1], steps[|steps| - 1];
      var s := Run(start, front, h);
      RunKeepsInvFrom(start, h, front);
      InvLater(s, start, steps, h);
      hide Inv;
      if last == LncHandles && s.down != [] {
        LncKeepsInv(start, steps, h);
      } else if last == CcHandles && s.up != [] {
        CcKeepsInv(s, start, steps, h);
      } else if last == LncHandles || last == CcHandles {
        IdleStep(s, last, h);
      } else {
        OtherStepsKeepInv(s, last, start, steps, h);
      }
    }
  }

  lemma {:induction false} RunKeepsInv(page: Page, h: Health, steps: seq<Step>)
    requires Healthy(h) && Load(page).None?
    ensures Inv(Run(Initial(page, h), steps, h), Initial(page, h), steps, h)
  {
    hide Coherent, Load, SaveTo, Run;
    BootIsCoherent(page, h);
    RunKeepsInvFrom(Initial(page, h), h, steps);
  }

  /**
    From first-boot flash, after any run of orders, losses and reboots: the LNC's limits pass
    the operator's checks, and whatever the Central Computer shows is, in full, the limits the
    LNC had at some moment of the run when it answered GET_CONFIG.
   */
  lemma {:induction false} ThresholdsAgree(page: Page, h: Health, steps: seq<Step>)
    requires Healthy(h) && Load(page).None?
    ensures Sane(Run(Initial(page, h), steps, h).lnc.limits)
    ensures var start := Initial(page, h);
            var cache := Run(start, steps, h).cache;
            cache.Some? ==> exists k: nat, l ::
              k < |steps| && AnsweredAt(start, steps, h, k, l) && Shows(cache.value, l)
  {
    hide Run, Sane, Shows, Load, Coherent, IsReply, IsOrder, AnsweredAt;
    RunKeepsInv(page, h, steps);
  }

  /** Asking over a quiet link that loses nothing shows the limits as they are now. */
  lemma {:induction false} AskShowsCurrentLimits(page: Page, h: Health, steps: seq<Step>)
    requires Healthy(h) && Load(page).None?
    requires var s := Run(Initial(page, h), steps, h); s.down == [] && s.up == []
    ensures var s := Run(Initial(page, h), steps, h);
            var s' := Do(Do(Do(s, Order(Ask), h), LncHandles, h), CcHandles, h);
            s'.lnc == s.lnc && !s'.waiting && s'.cache.Some? && Shows(s'.cache.value, s.lnc.limits)
  {
    hide Run, Cached, LimitBytes, Load, SaveTo, IsReply, IsCopy, Shows;
    var s := Run(Initial(page, h), steps, h);
    RunKeepsInv(page, h, steps);
    NarrowingIsLossless(s.lnc.limits);
    GetConfigChangesNothing(s.lnc, Frame(GET_CONFIG, []), h);
    var s1 := Do(s, Order(Ask), h);
    assert s1 == s.(down := [Frame(GET_CONFIG, [])], waiting := true);
    var s2 := Do(s1, LncHandles, h);
    assert s2 == s.(up := [Frame(CONFIG_REPLY, LimitBytes(s.lnc.limits))], waiting := true);
  }

  // ---------------------------------------------------------------- waiting for a reply

  ghost predicate NoAsk(steps: seq<Step>) {
    forall i :: 0 <= i < |steps| ==> steps[i] != Order(Ask)
  }

  ghost predicate HasGet(frames: seq<Frame>) {
    exists i :: 0 <= i < |frames| && frames[i].tag == GET_CONFIG
  }

  ghost predicate OneGet(frames: seq<Frame>) {
    forall i, j :: 0 <= i < j < |frames| ==> frames[i].tag != GET_CONFIG || frames[j].tag != GET_CONFIG
  }

  /** Step `k` answered the last request there was. */
  ghost predicate OwnAnswer(start: System, steps: seq<Step>, h: Health, k: nat, l: Limits)
    requires k < |steps|
  {
    AnsweredAt(start, steps, h, k, l) && !HasGet(Run(start, steps[..k], h).down[1..])
  }

  /**
    After `get_config` is called in `s` and until it is called again: if the wait is over, it is
    over because the LNC answered this very request, and the cache shows what it answered.
   */
  ghost predicate Genuine(s: System, steps: seq<Step>, h: Health) {
    var start := Do(s, Order(Ask), h);
    var s' := Run(start, steps, h);
    !s'.waiting ==>
      s'.cache.Some? && exists k: nat, l :: k < |steps| && OwnAnswer(start, steps, h, k, l) && Shows(s'.cache.value, l)
  }

  lemma {:induction false} AskAdds(s: System, h: Health)
    ensures Do(s, Order(Ask), h) == s.(down := s.down + [Frame(GET_CONFIG, [])], waiting := true)
  {
  }

  lemma {:induction false} DoKeepsOneGet(s: System, step: Step, h: Health)
    requires step != Order(Ask) && OneGet(s.down)
    ensures OneGet(Do(s, step, h).down)
  {
    hide Cached, LimitBytes, SaveTo, Load, Changed;
    var d, d' := s.down, Do(s, step, h).down;
    if d != [] && d' == d[1..] {
      assert forall i :: 0 <= i < |d'| ==> d'[i] == d[i + 1];
    }
  }

  lemma {:induction false} RunKeepsOneGet(start: System, steps: seq<Step>, h: Health)
    requires NoAsk(steps) && OneGet(start.down)
    ensures OneGet(Run(start, steps, h).down)
    decreases |steps|
  {
    hide Do, OneGet;
    if steps != [] {
      var front := steps[..|steps| - 1];
      RunKeepsOneGet(start, front, h);
      DoKeepsOneGet(Run(start, front, h), steps[|steps| - 1], h);
    }
  }

  /** What was cached before matters to nothing, and once the wait is over it is gone. */
  lemma {:induction false} RunForgetsCache(start: System, steps: seq<Step>, h: Health)
    requires start.waiting
    ensures var s, t := Run(start, steps, h), Run(start.(cache := None), steps, h);
            t == s.(cache := t.cache) && (!s.waiting ==> s.cache == t.cache && t.cache.Some?)
    decreases |steps|
  {
    hide Cached, LimitBytes, Handle, Boot, Outgoing;
    if steps != [] {
      RunForgetsCache(start, steps[..|steps| - 1], h);
    }
  }

  lemma {:induction false} SoleAnswerIsOwn(start: System, steps: seq<Step>, h: Health, k: nat, l: Limits)
    requires NoAsk(steps) && OneGet(start.down) && k < |steps|
    requires AnsweredAt(start.(cache := None), steps, h, k, l) && start.waiting
    ensures OwnAnswer(start, steps, h, k, l)
  {
    hide Run;
    RunForgetsCache(start, steps[..k], h);
    RunKeepsOneGet(start, steps[..k], h);
    var d := Run(start, steps[..k], h).down;
    assert forall i :: 0 <= i < |d[1..]| ==> d[1..][i] == d[i + 1];
  }

  /** With no earlier request or reply under way, the wait ends with this request's answer only. */
  lemma {:induction false} QuietAskIsGenuine(s: System, steps: seq<Step>, h: Health)
    requires Healthy(h) && Sane(s.lnc.limits) && Coherent(s.lnc)
    requires (forall i :: 0 <= i < |s.down| ==> IsOrder(s.down[i])) && !HasGet(s.down) && s.up == [] && NoAsk(steps)
    ensures Genuine(s, steps, h)
  {
    hide Run, Sane, Coherent, Shows, Do, IsReply;
    var start := Do(s, Order(Ask), h);
    AskAdds(s, h);
    var bare := start.(cache := None);
    assert IsOrder(Frame(GET_CONFIG, [])) by {
      assert Outgoing(Ask) == Some(Frame(GET_CONFIG, []));
    }
    assert Inv(bare, bare, [], h);
    RunKeepsInvFrom(bare, h, steps);
    RunForgetsCache(start, steps, h);
    var s' := Run(start, steps, h);
    if !s'.waiting {
      assert IsCopy(bare, steps, h, s'.cache.value);
      var l :| Answered(bare, steps, h, l) && Shows(s'.cache.value, l);
      var k: nat :| k < |steps| && AnsweredAt(bare, steps, h, k, l);
      SoleAnswerIsOwn(start, steps, h, k, l);
    }
  }

  /** A reply already on its way ends the wait before the LNC has seen the request. */
  lemma {:induction false} OldReplyIsNotGenuine(s: System, h: Health)
    requires s.up != [] && Cached(s.up[0].value).Some?
    ensures NoAsk([CcHandles]) && !Genuine(s, [CcHandles], h)
  {
    hide Cached, AnsweredAt;
    AskAdds(s, h);
    var start := Do(s, Order(Ask), h);
    assert [CcHandles][..0] == [];
    assert Run(start, [CcHandles], h) == Do(start, CcHandles, h);
    forall k: nat, l | k < 1 ensures !OwnAnswer(start, [CcHandles], h, k, l) {
      NotLncStep(start, [CcHandles], h, k, l);
    }
  }

  lemma {:induction false} NotLncStep(start: System, steps: seq<Step>, h: Health, k: nat, l: Limits)
    requires k < |steps| && steps[k] != LncHandles
    ensures !AnsweredAt(start, steps, h, k, l)
  {
  }

  function LncOnly(n: nat): (steps: seq<Step>)
    ensures |steps| == n
  {
    seq(n, _ => LncHandles)
  }

  /** The LNC works through the requests before the first GET_CONFIG. */
  lemma {:induction false} LncWorks(start: System, h: Health, n: nat)
    requires n <= |start.down| && forall i :: 0 <= i < n ==> start.down[i].tag != GET_CONFIG
    ensures var s := Run(start, LncOnly(n), h);
            s.down == start.down[n..] && s.up == start.up && s.waiting == start.waiting
    decreases n
  {
    hide Handle, LimitBytes;
    if n > 0 {
      LncWorks(start, h, n - 1);
      assert LncOnly(n)[..n - 1] == LncOnly(n - 1);
      assert start.down[n - 1..][1..] == start.down[n..];
    }
  }

  /** The LNC answers an earlier request first, and the Central Computer takes the answer for its own. */
  function Overtaken(m: nat): seq<Step> {
    LncOnly(m + 1) + [CcHandles]
  }

  lemma {:induction false} RunSnoc(s: System, steps: seq<Step>, step: Step, h: Health)
    ensures Run(s, steps + [step], h) == Do(Run(s, steps, h), step, h)
  {
    hide Do;
    assert (steps + [step])[..|steps|] == steps;
  }

  lemma {:induction false} LncAnswers(s: System, h: Health)
    requires s.down != [] && s.down[0].tag == GET_CONFIG && s.up == []
    ensures LncTakes(s, h).up == [Frame(CONFIG_REPLY, LimitBytes(s.lnc.limits))]
  {
    hide LimitBytes, Handle;
    GetConfigChangesNothing(s.lnc, s.down[0], h);
  }

  lemma {:induction false} AnswerEndsWait(s: System, l: Limits)
    requires s.up == [Frame(CONFIG_REPLY, LimitBytes(l))] && Cached(LimitBytes(l)).Some?
    ensures !CcTakes(s).waiting
  {
    hide Cached, LimitBytes;
  }

  lemma {:induction false} OvertakenEndsWait(start: System, h: Health, m: nat)
    requires start.up == [] && m < |start.down| && start.down[m].tag == GET_CONFIG
    requires forall i :: 0 <= i < m ==> start.down[i].tag != GET_CONFIG
    requires Cached(LimitBytes(Run(start, LncOnly(m), h).lnc.limits)).Some?
    ensures !Run(start, Overtaken(m), h).waiting
  {
    hide Cached, LimitBytes, Run, LncTakes, CcTakes;
    var steps := Overtaken(m);
    LncWorks(start, h, m);
    var t := Run(start, LncOnly(m), h);
    RunSnoc(start, LncOnly(m), LncHandles, h);
    assert LncOnly(m + 1) == LncOnly(m) + [LncHandles];
    LncAnswers(t, h);
    var u := LncTakes(t, h);
    RunSnoc(start, LncOnly(m + 1), CcHandles, h);
    AnswerEndsWait(u, t.lnc.limits);
  }

  lemma {:induction false} OvertakenIsNotOwn(start: System, h: Health, m: nat, k: nat, l: Limits)
    requires m + 1 < |start.down| && start.down[|start.down| - 1].tag == GET_CONFIG && k < m + 2
    requires forall i :: 0 <= i < m ==> start.down[i].tag != GET_CONFIG
    ensures !OwnAnswer(start, Overtaken(m), h, k, l)
  {
    hide Run;
    var steps := Overtaken(m);
    if k <= m {
      assert steps[..k] == LncOnly(k);
      LncWorks(start, h, k);
      var d := start.down[k..];
      assert d[1..][|d| - 2] == start.down[|start.down| - 1];
    }
  }

  /** An earlier request still under way is answered first, and its answer ends the wait. */
  lemma {:induction false} OldRequestIsNotGenuine(s: System, h: Health, m: nat)
    requires s.up == [] && m < |s.down| && s.down[m].tag == GET_CONFIG
    requires forall i :: 0 <= i < m ==> s.down[i].tag != GET_CONFIG
    requires Cached(LimitBytes(Run(Do(s, Order(Ask), h), LncOnly(m), h).lnc.limits)).Some?
    ensures NoAsk(Overtaken(m)) && !Genuine(s, Overtaken(m), h)
  {
    hide Cached, LimitBytes, Run, Do, OwnAnswer;
    var start := Do(s, Order(Ask), h);
    AskAdds(s, h);
    assert forall i :: 0 <= i < |s.down| ==> start.down[i] == s.down[i];
    OvertakenEndsWait(start, h, m);
    forall k: nat, l | k < m + 2 ensures !OwnAnswer(start, Overtaken(m), h, k, l) {
      OvertakenIsNotOwn(start, h, m, k, l);
    }
  }

  lemma {:induction false} FirstGet(frames: seq<Frame>) returns (m: nat)
    requires HasGet(frames)
    ensures m < |frames| && frames[m].tag == GET_CONFIG && forall i :: 0 <= i < m ==> frames[i].tag != GET_CONFIG
  {
    if frames[0].tag == GET_CONFIG {
      m := 0;
    } else {
      var i :| 0 <= i < |frames| && frames[i].tag == GET_CONFIG;
      assert frames[1..][i - 1] == frames[i];
      m := FirstGet(frames[1..]);
      assert forall i :: 0 < i < m + 1 ==> frames[i] == frames[1..][i - 1];
      m := m + 1;
    }
  }

  /**
    Calling `get_config`, after any run: that the wait can only end with the answer to this
    very call, whatever follows, holds exactly when no earlier request and no reply is still
    under way. A reply that outlives the wait it was for ends the next one.
   */
  lemma {:induction false} WaitEndsWithOwnReplyIff(page: Page, h: Health, past: seq<Step>)
    requires Healthy(h) && Load(page).None?
    ensures var s := Run(Initial(page, h), past, h);
            (forall steps | NoAsk(steps) :: Genuine(s, steps, h)) <==> !HasGet(s.down) && s.up == []
  {
    hide Run, Load, Do, Genuine, Cached, LimitBytes, HasGet, NoAsk, Coherent, SaveTo, Sane, Shows;
    var s := Run(Initial(page, h), past, h);
    RunKeepsInv(page, h, past);
    if s.up != [] {
      assert IsReply(Initial(page, h), past, h, s.up[0]);
      var l :| s.up[0] == Frame(CONFIG_REPLY, LimitBytes(l));
      LimitsAreCached(l);
      OldReplyIsNotGenuine(s, h);
    } else if HasGet(s.down) {
      var m := FirstGet(s.down);
      LimitsAreCached(Run(Do(s, Order(Ask), h), LncOnly(m), h).lnc.limits);
      OldRequestIsNotGenuine(s, h, m);
    } else {
      forall steps | NoAsk(steps) ensures Genuine(s, steps, h) {
        QuietAskIsGenuine(s, steps, h);
      }
    }
  }

  lemma {:induction false} LimitsAreCached(l: Limits)
    ensures Cached(LimitBytes(l)).Some?
  {
  }

  // ---------------------------------------------------------------- a caller that waits its turn

  /** Every `get_config` of the run was called with no wait pending. */
  ghost predicate Patient(start: System, steps: seq<Step>, h: Health) {
    if steps == [] then true
    else
      && Patient(start, steps[..|steps| - 1], h)
      && (steps[|steps| - 1] == Order(Ask) ==> !Run(start, steps[..|steps| - 1], h).waiting)
  }

  /** At most one request or reply is under way, and one only while a wait is pending. */
  ghost predicate OneExchange(s: System) {
    if !s.waiting then !HasGet(s.down) && s.up == []
    else OneGet(s.down) && (s.up == [] || (|s.up| == 1 && !HasGet(s.down)))
  }

  lemma {:induction false} TailOfDown(frames: seq<Frame>)
    requires frames != []
    ensures HasGet(frames) <==> frames[0].tag == GET_CONFIG || HasGet(frames[1..])
    ensures OneGet(frames) ==> OneGet(frames[1..]) && (frames[0].tag == GET_CONFIG ==> !HasGet(frames[1..]))
  {
    var t := frames[1..];
    assert forall i :: 0 <= i < |t| ==> t[i] == frames[i + 1];
    if i :| 0 < i < |frames| && frames[i].tag == GET_CONFIG {
      assert t[i - 1] == frames[i];
    }
  }

  lemma {:induction false} OrderAdds(frames: seq<Frame>, f: Frame)
    ensures HasGet(frames + [f]) <==> HasGet(frames) || f.tag == GET_CONFIG
    ensures OneGet(frames) && !(HasGet(frames) && f.tag == GET_CONFIG) ==> OneGet(frames + [f])
    ensures !HasGet(frames) ==> OneGet(frames)
  {
    var all := frames + [f];
    assert all[|frames|] == f;
    assert forall i :: 0 <= i < |frames| ==> all[i] == frames[i];
  }

  lemma {:induction false} OnlyAskGets(o: Order)
    requires Outgoing(o).Some?
    ensures Outgoing(o).value.tag == GET_CONFIG <==> o == Ask
  {
  }

  lemma {:induction false} StepKeepsOneExchange(s: System, step: Step, h: Health)
    requires OneExchange(s) && (step == Order(Ask) ==> !s.waiting)
    requires s.up != [] ==> Cached(s.up[0].value).Some?
    ensures OneExchange(Do(s, step, h))
  {
    hide Cached, LimitBytes, Handle, Boot, HasGet, OneGet, Outgoing;
    match step
    case Order(o) =>
      if Outgoing(o).Some? {
        OnlyAskGets(o);
        OrderAdds(s.down, Outgoing(o).value);
      }
    case LoseDown =>
      if s.down != [] {
        TailOfDown(s.down);
      }
    case LncHandles =>
      if s.down != [] {
        TailOfDown(s.down);
      }
    case LncReboots =>
    case LoseUp =>
    case CcHandles =>
  }

  lemma {:induction false} PatientExchange(page: Page, h: Health, past: seq<Step>)
    requires Healthy(h) && Load(page).None? && Patient(Initial(page, h), past, h)
    ensures OneExchange(Run(Initial(page, h), past, h))
    decreases |past|
  {
    hide Do, OneExchange, Load, Cached, LimitBytes, Coherent, Sane, SaveTo, Initial;
    if past == [] {
      NothingUnderWay(page, h);
    } else {
      var front := past[..|past| - 1];
      var s := Run(Initial(page, h), front, h);
      PatientExchange(page, h, front);
      RunKeepsInv(page, h, front);
      if s.up != [] {
        assert IsReply(Initial(page, h), front, h, s.up[0]);
        var l :| s.up[0] == Frame(CONFIG_REPLY, LimitBytes(l));
        LimitsAreCached(l);
      }
      StepKeepsOneExchange(s, past[|past| - 1], h);
    }
  }

  lemma {:induction false} NothingUnderWay(page: Page, h: Health)
    ensures OneExchange(Initial(page, h))
  {
  }

  /**
    What the Central Computer can see to itself: if every earlier `get_config` was called with
    no wait pending and none is pending now, the next one ends with its own answer only.
   */
  lemma {:induction false} PatientCallerGetsOwnReply(page: Page, h: Health, past: seq<Step>, steps: seq<Step>)
    requires Healthy(h) && Load(page).None? && Patient(Initial(page, h), past, h) && NoAsk(steps)
    requires !Run(Initial(page, h), past, h).waiting
    ensures Genuine(Run(Initial(page, h), past, h), steps, h)
  {
    hide Run, Load, Genuine, NoAsk, HasGet, OneGet, Patient;
    PatientExchange(page, h, past);
    WaitEndsWithOwnReplyIff(page, h, past);
  }

  // ---------------------------------------------------------------- which order sets which limit

  /** The limits an order asks for; one that fails its check asks for nothing. */
  ghost function Ordered(l: Limits, o: Order): Limits {
    match o
    case TempNormal(min, max) => if min <= max then l.(tempNormalMin := min, tempNormalMax := max) else l
    case TempWarning(min, max) => if min <= max then l.(tempWarningMin := min, tempWarningMax := max) else l
    case Bound(tag, bound) =>
      if bound > 100 then l
      else if tag == 0x22 then l.(humidityNormal := bound)
      else if tag == 0x23 then l.(humidityWarning := bound)
      else if tag == 0x24 then l.(lightNormal := bound)
      else if tag == 0x25 then l.(lightWarning := bound)
      else if tag == 0x26 then l.(batteryNormal := bound)
      else if tag == 0x27 then l.(batteryWarning := bound)
      else l
    case Ask => l
  }

  /** Once the LNC has taken the frame, exactly the limits the order names are what it says. */
  lemma {:induction false} OrderSetsItsLimits(s: System, o: Order, h: Health)
    requires s.down == []
    ensures Do(Do(s, Order(o), h), LncHandles, h).lnc.limits == Ordered(s.lnc.limits, o)
  {
    hide LimitBytes, SaveTo, Load;
    var s' := Do(s, Order(o), h);
    match o
    case TempNormal(min, max) =>
      assert ToSigned8(ToUnsigned8(min)) == min && ToSigned8(ToUnsigned8(max)) == max;
    case TempWarning(min, max) =>
      assert ToSigned8(ToUnsigned8(min)) == min && ToSigned8(ToUnsigned8(max)) == max;
    case Bound(_, _) =>
    case Ask =>
  }

  /** An order goes out, as one frame, exactly when its range is in order or its bound a percentage. */
  lemma {:induction false} OrdersAccepted(o: Order)
    ensures Outgoing(o).Some? <==>
            match o
            case TempNormal(min, max) => min <= max
            case TempWarning(min, max) => min <= max
            case Bound(tag, bound) => bound <= 100 && 0x22 <= tag <= 0x27
            case Ask => true
  {
  }
}
