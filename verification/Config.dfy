/**
  The LNC's thresholds: kept in RAM, saved whole to one page of flash after every change,
  loaded at boot, with defaults when the page does not carry the magic number.
 */
module Config {
  import opened Bytes
  import opened Frame
  import opened Payload

  datatype Limits = Limits(
    tempNormalMin: Int16, tempNormalMax: Int16, tempWarningMin: Int16, tempWarningMax: Int16,
    humidityNormal: Byte, humidityWarning: Byte, lightNormal: Byte, lightWarning: Byte,
    batteryNormal: Byte, batteryWarning: Byte)

  const DEFAULTS := Limits(15, 27, 10, 30, 30, 20, 40, 20, 40, 20)

  /** 0x434F4E46 as the little-endian core stores it. */
  const MAGIC: seq<Byte> := [0x46, 0x4E, 0x4F, 0x43]
  const DWORD: nat := 8
  const PAGE_SIZE: nat := 2048
  const ERASED: Byte := 0xFF

  // ---------------------------------------------------------------- layout

  function Le16(v: Int16): (b: seq<Byte>)
    ensures |b| == 2
  {
    [ToUnsigned16(v) % 0x100, ToUnsigned16(v) / 0x100]
  }

  function FromLe16(lo: Byte, hi: Byte): Int16 {
    ToSigned16(FromBytes16(hi, lo))
  }

  /** The limits in field order; also the payload of CONFIG_REPLY. */
  function LimitBytes(l: Limits): (b: seq<Byte>)
    ensures |b| == 14
  {
    Le16(l.tempNormalMin) + Le16(l.tempNormalMax) + Le16(l.tempWarningMin) + Le16(l.tempWarningMax)
    + [l.humidityNormal, l.humidityWarning, l.lightNormal, l.lightWarning, l.batteryNormal, l.batteryWarning]
  }

  function LimitsFrom(b: seq<Byte>): Limits
    requires |b| == 14
  {
    Limits(FromLe16(b[0], b[1]), FromLe16(b[2], b[3]), FromLe16(b[4], b[5]), FromLe16(b[6], b[7]),
           b[8], b[9], b[10], b[11], b[12], b[13])
  }

  lemma {:induction false} Le16RoundTrip(v: Int16)
    ensures FromLe16(Le16(v)[0], Le16(v)[1]) == v
  {
  }

  lemma {:induction false} LimitsRoundTrip(l: Limits)
    ensures LimitsFrom(LimitBytes(l)) == l
  {
    hide Le16, FromLe16;
    Le16RoundTrip(l.tempNormalMin);
    Le16RoundTrip(l.tempNormalMax);
    Le16RoundTrip(l.tempWarningMin);
    Le16RoundTrip(l.tempWarningMax);
  }

  /** What a save puts at the start of the page. */
  function Stored(l: Limits): (b: seq<Byte>)
    ensures |b| == 18
  {
    MAGIC + LimitBytes(l)
  }

  // ---------------------------------------------------------------- programming flash

  function Fill(n: nat): (b: seq<Byte>)
    ensures |b| == n
  {
    seq(n, _ => ERASED)
  }

  function Dwords(len: nat): nat {
    (len + 7) / DWORD
  }

  /** The data as programmed: its last double-word padded with 0xFF. */
  function Image(data: seq<Byte>): (b: seq<Byte>)
    ensures |b| == DWORD * Dwords(|data|)
  {
    data + Fill(DWORD * Dwords(|data|) - |data|)
  }

  /**
    `flash_write_bytes` on erased memory, when the first `budget` double-words can be
    programmed and the next cannot. What is written is exactly the image of the data, up to
    the double-word that failed; nothing else changes.
   */
  method FlashWriteBytes(flash: array<Byte>, addr: nat, data: seq<Byte>, budget: nat) returns (ok: bool)
    requires addr + DWORD * Dwords(|data|) <= flash.Length
    requires forall j :: addr <= j < addr + DWORD * Dwords(|data|) ==> flash[j] == ERASED
    modifies flash
    ensures ok <==> budget >= Dwords(|data|)
    ensures flash[..] == Programmed(old(flash[..]), addr, data, if ok then Dwords(|data|) else budget)
  {
    hide Image, Programmed;
    var i, k := 0, 0;
    assert Programmed(flash[..], addr, data, 0) == flash[..] by { NothingProgrammed(flash[..], addr, data); }
    while i < |data|
      invariant i == DWORD * k && k <= Dwords(|data|) && k <= budget
      invariant i < |data| ==> k < Dwords(|data|)
      invariant i >= |data| ==> k == Dwords(|data|)
      invariant flash[..] == Programmed(old(flash[..]), addr, data, k)
      invariant forall j :: addr + i <= j < addr + DWORD * Dwords(|data|) ==> flash[j] == ERASED
    {
      var u := GatherDword(data, i);
      if k >= budget {
        return false;
      }
      ProgramDword(flash, addr + i, u);
      OneMoreDword(old(flash[..]), addr, data, k);
      i := i + DWORD;
      k := k + 1;
    }
    ok := true;
  }

  /** The inner loop: the next eight bytes of the data, or as many as there are, over 0xFF. */
  method GatherDword(data: seq<Byte>, i: nat) returns (u: seq<Byte>)
    requires i < |data| && i % DWORD == 0
    ensures i + DWORD <= |Image(data)| && u == Image(data)[i..i + DWORD]
  {
    u := Fill(DWORD);
    var j := 0;
    while j < DWORD && i + j < |data|
      invariant 0 <= j <= DWORD && |u| == DWORD
      invariant forall m :: 0 <= m < DWORD ==> u[m] == if m < j then Image(data)[i + m] else ERASED
    {
      u := u[j := data[i + j]];
      j := j + 1;
    }
  }

  lemma {:induction false} NothingProgrammed(flash: seq<Byte>, addr: nat, data: seq<Byte>)
    requires addr + DWORD * Dwords(|data|) <= |flash|
    ensures Programmed(flash, addr, data, 0) == flash
  {
  }

  /** Memory after `n` double-words of the data's image have been programmed at `addr`. */
  function Programmed(flash: seq<Byte>, addr: nat, data: seq<Byte>, n: nat): (after: seq<Byte>)
    requires n <= Dwords(|data|) && addr + DWORD * Dwords(|data|) <= |flash|
    ensures |after| == |flash|
  {
    flash[..addr] + Image(data)[..DWORD * n] + flash[addr + DWORD * n..]
  }

  lemma {:induction false} OneMoreDword(flash: seq<Byte>, addr: nat, data: seq<Byte>, n: nat)
    requires n < Dwords(|data|) && addr + DWORD * Dwords(|data|) <= |flash|
    ensures var before := Programmed(flash, addr, data, n);
            var at := addr + DWORD * n;
            Programmed(flash, addr, data, n + 1)
            == before[..at] + Image(data)[DWORD * n..DWORD * n + DWORD] + before[at + DWORD..]
  {
  }

  /** One successful `HAL_FLASH_Program` of erased memory. */
  method ProgramDword(flash: array<Byte>, at: nat, u: seq<Byte>)
    requires |u| == DWORD && at + DWORD <= flash.Length
    requires forall j :: at <= j < at + DWORD ==> flash[j] == ERASED
    modifies flash
    ensures flash[..] == old(flash[..])[..at] + u + old(flash[..])[at + DWORD..]
    ensures forall j :: at + DWORD <= j < flash.Length ==> flash[j] == old(flash[j])
  {
    forall j | 0 <= j < DWORD {
      flash[at + j] := u[j];
    }
  }

  /** Byte by byte: the data, then 0xFF up to a whole double-word, and the rest as it was. */
  lemma {:induction false} ProgrammedBytes(flash: seq<Byte>, addr: nat, data: seq<Byte>, j: nat)
    requires addr + 8 * ((|data| + 7) / 8) <= |flash| && j < |flash|
    ensures Programmed(flash, addr, data, (|data| + 7) / 8)[j] ==
            if addr <= j < addr + |data| then data[j - addr]
            else if addr <= j < addr + 8 * ((|data| + 7) / 8) then 0xFF
            else flash[j]
  {
  }

  // ---------------------------------------------------------------- save and load

  /** How flash behaves during one save: whether the erase works, and how many double-words then program. */
  datatype Health = Health(eraseOk: bool, budget: nat)

  type Page = p: seq<Byte> | |p| == PAGE_SIZE witness Fill(PAGE_SIZE)

  function SaveTo(page: Page, l: Limits, h: Health): Page {
    if !h.eraseOk then page
    else Programmed(Fill(PAGE_SIZE), 0, Stored(l), if h.budget < 3 then h.budget else 3)
  }

  /** The limits a page holds, if it carries the magic number. */
  function Load(page: Page): Option<Limits> {
    if page[..4] == MAGIC then Some(LimitsFrom(page[4..18])) else None
  }

  /** RAM and flash. */
  datatype Store = Store(limits: Limits, page: Page)

  function Boot(page: Page, h: Health): Store {
    match Load(page)
    case Some(l) => Store(l, page)
    case None => Store(DEFAULTS, SaveTo(page, DEFAULTS, h))
  }

  function ToSigned8(b: Byte): (v: int)
    ensures -128 <= v < 128
  {
    if b >= 128 then b - 256 else b
  }

  const SET_TEMP_NORMAL: Byte := 0x20
  const SET_TEMP_WARNING: Byte := 0x21
  const SET_HUM_NORMAL: Byte := 0x22
  const SET_HUM_WARNING: Byte := 0x23
  const SET_LIGHT_NORMAL: Byte := 0x24
  const SET_LIGHT_WARNING: Byte := 0x25
  const SET_BATT_NORMAL: Byte := 0x26
  const SET_BATT_WARNING: Byte := 0x27
  const GET_CONFIG: Byte := 0x2A

  /** The limits after a SET command of the right length; other frames set nothing. */
  function Changed(l: Limits, f: Frame): Option<Limits> {
    var v := f.value;
    if f.tag == SET_TEMP_NORMAL && |v| == 2 then
      Some(l.(tempNormalMin := ToSigned8(v[0]), tempNormalMax := ToSigned8(v[1])))
    else if f.tag == SET_TEMP_WARNING && |v| == 2 then
      Some(l.(tempWarningMin := ToSigned8(v[0]), tempWarningMax := ToSigned8(v[1])))
    else if |v| != 1 then None
    else if f.tag == SET_HUM_NORMAL then Some(l.(humidityNormal := v[0]))
    else if f.tag == SET_HUM_WARNING then Some(l.(humidityWarning := v[0]))
    else if f.tag == SET_LIGHT_NORMAL then Some(l.(lightNormal := v[0]))
    else if f.tag == SET_LIGHT_WARNING then Some(l.(lightWarning := v[0]))
    else if f.tag == SET_BATT_NORMAL then Some(l.(batteryNormal := v[0]))
    else if f.tag == SET_BATT_WARNING then Some(l.(batteryWarning := v[0]))
    else None
  }

  /** Every change is saved at once. */
  function Handle(s: Store, f: Frame, h: Health): Store {
    match Changed(s.limits, f)
    case None => s
    case Some(l) => Store(l, SaveTo(s.page, l, h))
  }

  class Configuration {
    var limits: Limits
    const flash: array<Byte>

    ghost predicate Valid()
      reads this
    {
      flash.Length == PAGE_SIZE
    }

    ghost function Abs(): Store
      requires Valid()
      reads this, flash
    {
      Store(limits, flash[..])
    }

    /** `config_create`: limits from flash, or the defaults, written to flash. */
    constructor (flash: array<Byte>, h: Health)
      requires flash.Length == PAGE_SIZE
      modifies flash
      ensures Valid() && this.flash == flash
      ensures Abs() == Boot(old(flash[..]), h)
    {
      hide SaveTo, LimitsFrom;
      this.flash := flash;
      limits := DEFAULTS;
      new;
      if flash[0] == MAGIC[0] && flash[1] == MAGIC[1] && flash[2] == MAGIC[2] && flash[3] == MAGIC[3] {
        assert flash[..4] == MAGIC;
        limits := LimitsFrom(flash[4..18]);
      } else {
        assert flash[..4] != MAGIC;
        var _ := Save(h);
      }
    }

    method Save(h: Health) returns (ok: bool)
      requires Valid()
      modifies flash
      ensures flash[..] == SaveTo(old(flash[..]), limits, h)
      ensures ok <==> h.eraseOk && h.budget >= 3
    {
      if !h.eraseOk {
        return false;
      }
      forall j | 0 <= j < PAGE_SIZE {
        flash[j] := ERASED;
      }
      assert flash[..] == Fill(PAGE_SIZE);
      ok := FlashWriteBytes(flash, 0, Stored(limits), h.budget);
    }

    /** `configuration_on_frame`: applies and saves a SET command, answers GET_CONFIG. */
    method OnFrame(f: Frame, h: Health) returns (reply: Option<seq<Byte>>)
      requires Valid()
      modifies this, flash
      ensures Valid() && Abs() == Handle(old(Abs()), f, h)
      ensures reply == if f.tag == GET_CONFIG then Some(LimitBytes(limits)) else None
    {
      hide SaveTo, LimitBytes;
      reply := None;
      var v := f.value;
      if f.tag == SET_TEMP_NORMAL && |v| == 2 {
        limits := limits.(tempNormalMin := ToSigned8(v[0]), tempNormalMax := ToSigned8(v[1]));
        var _ := Save(h);
      } else if f.tag == SET_TEMP_WARNING && |v| == 2 {
        limits := limits.(tempWarningMin := ToSigned8(v[0]), tempWarningMax := ToSigned8(v[1]));
        var _ := Save(h);
      } else if f.tag == SET_HUM_NORMAL && |v| == 1 {
        limits := limits.(humidityNormal := v[0]);
        var _ := Save(h);
      } else if f.tag == SET_HUM_WARNING && |v| == 1 {
        limits := limits.(humidityWarning := v[0]);
        var _ := Save(h);
      } else if f.tag == SET_LIGHT_NORMAL && |v| == 1 {
        limits := limits.(lightNormal := v[0]);
        var _ := Save(h);
      } else if f.tag == SET_LIGHT_WARNING && |v| == 1 {
        limits := limits.(lightWarning := v[0]);
        var _ := Save(h);
      } else if f.tag == SET_BATT_NORMAL && |v| == 1 {
        limits := limits.(batteryNormal := v[0]);
        var _ := Save(h);
      } else if f.tag == SET_BATT_WARNING && |v| == 1 {
        limits := limits.(batteryWarning := v[0]);
        var _ := Save(h);
      } else if f.tag == GET_CONFIG {
        reply := Some(LimitBytes(limits));
      }
    }
  }

  // ---------------------------------------------------------------- where each limit is

  /** A frame changes limits only with a SET tag and a payload of just the right size. */
  lemma {:induction false} ChangedIff(l: Limits, f: Frame)
    ensures Changed(l, f).Some? <==>
            ((f.tag == 0x20 || f.tag == 0x21) && |f.value| == 2) || (0x22 <= f.tag <= 0x27 && |f.value| == 1)
  {
  }

  /** A temperature range is taken as it comes, in two's complement, even out of order. */
  lemma {:induction false} TemperaturesTaken(l: Limits, f: Frame)
    requires (f.tag == 0x20 || f.tag == 0x21) && |f.value| == 2
    ensures var c := Changed(l, f).value;
            var (min, max) := if f.tag == 0x20 then (c.tempNormalMin, c.tempNormalMax)
                              else (c.tempWarningMin, c.tempWarningMax);
            && -128 <= min < 128 && min % 256 == f.value[0] && -128 <= max < 128 && max % 256 == f.value[1]
            && c == if f.tag == 0x20 then l.(tempNormalMin := min, tempNormalMax := max)
                    else l.(tempWarningMin := min, tempWarningMax := max)
  {
  }

  /** Byte by byte, least significant first: the temperatures in pairs, then the six bounds. */
  lemma {:induction false} LimitsLayout(l: Limits)
    ensures var b := LimitBytes(l);
            && (b[0] as int) + 256 * (b[1] as int) == l.tempNormalMin % 0x1_0000
            && (b[2] as int) + 256 * (b[3] as int) == l.tempNormalMax % 0x1_0000
            && (b[4] as int) + 256 * (b[5] as int) == l.tempWarningMin % 0x1_0000
            && (b[6] as int) + 256 * (b[7] as int) == l.tempWarningMax % 0x1_0000
            && b[8] == l.humidityNormal && b[9] == l.humidityWarning && b[10] == l.lightNormal
            && b[11] == l.lightWarning && b[12] == l.batteryNormal && b[13] == l.batteryWarning
  {
    Le16Value(l.tempNormalMin);
    Le16Value(l.tempNormalMax);
    Le16Value(l.tempWarningMin);
    Le16Value(l.tempWarningMax);
    hide Le16;
  }

  lemma {:induction false} Le16Value(v: Int16)
    ensures (Le16(v)[0] as int) + 256 * (Le16(v)[1] as int) == v % 0x1_0000
  {
  }

  /** A page without the magic number boots with the defaults, one with it with what it holds. */
  lemma {:induction false} BootLimits(page: Page, h: Health)
    ensures Load(page).Some? <==> page[..4] == [0x46, 0x4E, 0x4F, 0x43]
    ensures page[..4] != [0x46, 0x4E, 0x4F, 0x43] ==>
              Boot(page, h).limits == Limits(15, 27, 10, 30, 30, 20, 40, 20, 40, 20)
  {
    hide LimitsFrom, SaveTo;
  }

  // ---------------------------------------------------------------- coherence

  ghost predicate Healthy(h: Health) {
    h.eraseOk && h.budget >= 3
  }

  lemma {:induction false} ProgrammedPage(l: Limits, n: nat)
    requires n <= 3
    ensures Programmed(Fill(PAGE_SIZE), 0, Stored(l), n) == Stored(l)[..StoredPart(n)] + Fill(PAGE_SIZE - StoredPart(n))
  {
    hide LimitBytes;
  }

  /** How many bytes of the stored limits `n` double-words carry. */
  function StoredPart(n: nat): (k: nat)
    ensures k <= 18
  {
    if n >= 3 then 18 else DWORD * n
  }

  /** A save that works stores every limit exactly, and leaves the rest of the page erased. */
  lemma {:induction false} LoadInvertsSave(page: Page, l: Limits, h: Health)
    requires Healthy(h)
    ensures Load(SaveTo(page, l, h)) == Some(l)
    ensures SaveTo(page, l, h)[..18] == [0x46, 0x4E, 0x4F, 0x43] + LimitBytes(l)
    ensures forall j :: 18 <= j < PAGE_SIZE ==> SaveTo(page, l, h)[j] == 0xFF
  {
    hide LimitBytes, LimitsFrom, Programmed;
    ProgrammedPage(l, 3);
    LimitsRoundTrip(l);
    var after := SaveTo(page, l, h);
    assert after[..4] == MAGIC && after[4..18] == LimitBytes(l);
  }

  /** A command or a reboot, and how flash behaves if it saves. */
  datatype Event = Command(frame: Frame, health: Health) | Reboot(health: Health)

  function Exec(start: Store, events: seq<Event>): Store {
    if events == [] then start
    else
      var s := Exec(start, events[..|events| - 1]);
      match events[|events| - 1]
      case Command(f, h) => Handle(s, f, h)
      case Reboot(h) => Boot(s.page, h)
  }

  ghost predicate Coherent(s: Store) {
    Load(s.page) == Some(s.limits)
  }

  lemma {:induction false} BootIsCoherent(page: Page, h: Health)
    requires Healthy(h)
    ensures Coherent(Boot(page, h))
  {
    hide Load, SaveTo;
    LoadInvertsSave(page, DEFAULTS, h);
  }

  lemma {:induction false} HandleKeepsCoherent(s: Store, f: Frame, h: Health)
    requires Healthy(h) && Coherent(s)
    ensures Coherent(Handle(s, f, h))
  {
    hide Load, SaveTo, Changed;
    match Changed(s.limits, f)
    case None =>
    case Some(l) =>
      LoadInvertsSave(s.page, l, h);
  }

  /** From any page, first boot included, while flash works, a reboot at any moment changes nothing in RAM or flash. */
  lemma {:induction false} RebootRestoresLimits(page: Page, h: Health, events: seq<Event>)
    requires Healthy(h) && forall i :: 0 <= i < |events| ==> Healthy(events[i].health)
    ensures var s := Exec(Boot(page, h), events);
            Coherent(s) && Boot(s.page, h) == s
    decreases |events|
  {
    hide Handle, Load, SaveTo, Healthy;
    if events == [] {
      BootIsCoherent(page, h);
    } else {
      var front := events[..|events| - 1];
      RebootRestoresLimits(page, h, front);
      var s := Exec(Boot(page, h), front);
      assert Healthy(events[|events| - 1].health);
      match events[|events| - 1]
      case Command(f, g) =>
        HandleKeepsCoherent(s, f, g);
      case Reboot(g) =>
        BootIsCoherent(s.page, g);
    }
  }

  /** A save that stops after its first or second double-word is taken for a whole one at the next boot. */
  function TornLimits(l: Limits, n: nat): Limits {
    if n == 1 then
      l.(tempWarningMin := -1, tempWarningMax := -1, humidityNormal := 255, humidityWarning := 255,
         lightNormal := 255, lightWarning := 255, batteryNormal := 255, batteryWarning := 255)
    else l.(batteryNormal := 255, batteryWarning := 255)
  }

  /**
    Interrupting a save: before any double-word the next boot falls back to the defaults;
    after one or two it accepts a page whose missing fields read as all ones; only a
    complete save, or one whose missing fields are all ones anyway, brings the limits back.
   */
  lemma {:induction false} InterruptedSave(page: Page, l: Limits, h: Health)
    requires h.eraseOk && h.budget < 3
    ensures Load(SaveTo(page, l, h)) == if h.budget == 0 then None else Some(TornLimits(l, h.budget))
    ensures Load(SaveTo(page, l, h)) == Some(l) <==> h.budget > 0 && l == TornLimits(l, h.budget)
  {
    hide LimitsFrom, Programmed;
    ProgrammedPage(l, h.budget);
    var after := SaveTo(page, l, h);
    if h.budget == 0 {
      assert after[0] == ERASED;
    } else {
      assert after[..4] == MAGIC;
      OnesReadAsTorn(l, h.budget);
    }
  }

  /** What flash holds after a save, in place of what it held. */
  function AfterSave(held: Option<Limits>, l: Limits, h: Health): Option<Limits> {
    if !h.eraseOk then held
    else if h.budget == 0 then None
    else if h.budget < 3 then Some(TornLimits(l, h.budget))
    else Some(l)
  }

  /** What flash holds after a history: the outcome of its last save that erased the page. */
  function Held(start: Store, events: seq<Event>): Option<Limits> {
    if events == [] then Load(start.page)
    else
      var front := events[..|events| - 1];
      var held := Held(start, front);
      match events[|events| - 1]
      case Command(f, h) =>
        (match Changed(Exec(start, front).limits, f)
         case None => held
         case Some(l) => AfterSave(held, l, h))
      case Reboot(h) => if held.None? then AfterSave(None, DEFAULTS, h) else held
  }

  lemma {:induction false} LoadAfterSave(page: Page, l: Limits, h: Health)
    ensures Load(SaveTo(page, l, h)) == AfterSave(Load(page), l, h)
  {
    hide Load, TornLimits;
    if h.eraseOk {
      if h.budget < 3 {
        InterruptedSave(page, l, h);
      } else {
        LoadInvertsSave(page, l, h);
      }
    } else {
      FailedErase(page, l, h);
    }
  }

  lemma {:induction false} FailedErase(page: Page, l: Limits, h: Health)
    requires !h.eraseOk
    ensures SaveTo(page, l, h) == page
  {
  }

  lemma {:induction false} LoadIsHeld(start: Store, events: seq<Event>)
    ensures Load(Exec(start, events).page) == Held(start, events)
    decreases |events|
  {
    hide Load, SaveTo, Changed, AfterSave;
    if events != [] {
      var front := events[..|events| - 1];
      LoadIsHeld(start, front);
      var s := Exec(start, front);
      match events[|events| - 1]
      case Command(f, h) =>
        if Changed(s.limits, f).Some? {
          LoadAfterSave(s.page, Changed(s.limits, f).value, h);
        }
      case Reboot(h) =>
        LoadAfterSave(s.page, DEFAULTS, h);
    }
  }

  /**
    However each save of a history fails, a reboot restores the limits in RAM exactly when
    flash holds them, or holds none and they are the defaults.
   */
  lemma {:induction false} RebootRestoresIff(start: Store, events: seq<Event>, h: Health)
    ensures var s := Exec(start, events);
            Boot(s.page, h).limits == s.limits <==>
              Held(start, events) == Some(s.limits) || (Held(start, events) == None && s.limits == DEFAULTS)
  {
    hide Load, SaveTo, Held, Exec;
    LoadIsHeld(start, events);
  }

  lemma {:induction false} OnesReadAsTorn(l: Limits, n: nat)
    requires n == 1 || n == 2
    ensures LimitsFrom((Stored(l)[..StoredPart(n)] + Fill(PAGE_SIZE - StoredPart(n)))[4..18]) == TornLimits(l, n)
  {
    hide LimitBytes, LimitsFrom;
    var b := LimitBytes(l);
    var got := (Stored(l)[..StoredPart(n)] + Fill(PAGE_SIZE - StoredPart(n)))[4..18];
    assert Stored(l) == MAGIC + b;
    if n == 1 {
      assert Stored(l)[..8] == MAGIC + b[..4];
      assert got == b[..4] + Fill(10);
      FirstDwordOnly(l);
    } else {
      assert Stored(l)[..16] == MAGIC + b[..12];
      assert got == b[..12] + Fill(2);
      FirstTwoDwords(l);
    }
  }

  lemma {:induction false} FirstDwordOnly(l: Limits)
    ensures LimitsFrom(LimitBytes(l)[..4] + Fill(10)) == TornLimits(l, 1)
  {
    hide Le16, FromLe16;
    OnesAreMinusOne();
    Le16RoundTrip(l.tempNormalMin);
    Le16RoundTrip(l.tempNormalMax);
    var b := LimitBytes(l)[..4] + Fill(10);
    assert b[..4] == Le16(l.tempNormalMin) + Le16(l.tempNormalMax);
    assert forall j :: 4 <= j < 14 ==> b[j] == ERASED;
    assert b[0] == Le16(l.tempNormalMin)[0] && b[1] == Le16(l.tempNormalMin)[1];
    assert b[2] == Le16(l.tempNormalMax)[0] && b[3] == Le16(l.tempNormalMax)[1];
  }

  lemma {:induction false} FirstTwoDwords(l: Limits)
    ensures LimitsFrom(LimitBytes(l)[..12] + Fill(2)) == TornLimits(l, 2)
  {
    hide LimitsFrom, LimitBytes;
    LimitsRoundTrip(l);
    TailFields(LimitBytes(l), LimitBytes(l)[..12] + Fill(2));
  }

  lemma {:induction false} TailFields(b: seq<Byte>, c: seq<Byte>)
    requires |b| == |c| == 14 && b[..12] == c[..12] && c[12] == c[13] == ERASED
    ensures LimitsFrom(c) == LimitsFrom(b).(batteryNormal := 255, batteryWarning := 255)
  {
    hide FromLe16;
    forall j | 0 <= j < 12
      ensures b[j] == c[j]
    {
      assert b[j] == b[..12][j];
    }
  }

  lemma {:induction false} OnesAreMinusOne()
    ensures FromLe16(0xFF, 0xFF) == -1
  {
  }
}
