/**
 The reader object between two cards: reset, ATR analysis, protocol selection and state queries of
 `CBaseReader`, `CCCIDReader`, `CEC30Reader` and the contactless `CECRReader`.

 The reader hardware is an arbitrary script of replies, one per message; when the script ends the
 device is gone.
 */
module CardReader {
  import opened Bytes
  import opened Atr
  import opened AtrRules
  import opened Contactless

  const T0: bv32 := 1
  const T1: bv32 := 2
  const RAW: bv32 := 4
  const ICC_MUTE: bv8 := 0xFE
  const DEFAULT: bv32 := 0x8000_0000

  datatype CardState = Undefined | Absent | Swallowed | Powered | Negotiable | Specific

  datatype Status =
    | Success | NotConnected | NoMedia | Unrecognized | Cancelled | IoTimeout
    | InvalidRequest | NotSupported | BufferTooSmall | BufferOverflow | DeviceProtocolError

  /** What SETPARAMETERS carries, by its protocol number 0 to 3: timing for T=0 and T=1, memory layout, or nothing. */
  datatype Settings =
    | ForT0(findex: bv8, guardTime: bv8, waiting: bv8)
    | ForT1(findex: bv8, guardTime: bv8, waiting: bv8, ifsc: bv8)
    | ForMemory(layout: Layout)
    | ForAts

  datatype Message = PowerOn | PowerOff | GetSlotStatus | SetParameters(settings: Settings) | XfrBlock

  /** How a memory card is addressed. */
  datatype Layout = Layout(pageSize: nat, offsetBytes: nat)

  function TwoToThe(e: nat): nat { if e == 0 then 1 else 2 * TwoToThe(e - 1) }

  /**
   The layout that the second byte of the answer of an I2C card gives. A size field of 0 makes the driver shift by
   -1, which C leaves undefined; `large` is what comes of that.
   */
  function LayoutFor(b: bv8, large: bool): Layout {
    var page, size := (b & 0x07) as int, ((b & 0x78) >> 3) as int;
    var pageSize := if page > 3 then TwoToThe(page - 3) else 1;
    Layout(pageSize, if (if size == 0 then large else pageSize * 128 * TwoToThe(size - 1) > 2048) then 2 else 1)
  }

  /** Pages of 2 to 16 bytes for the codes 4 to 7; two address bytes for more than 2048 bytes in all. */
  lemma LayoutTold(b: bv8, large: bool)
    ensures var l, page, size := LayoutFor(b, large), (b & 0x07) as int, ((b & 0x78) >> 3) as int;
      && (page <= 3 ==> l.pageSize == 1) && (page == 4 ==> l.pageSize == 2) && (page == 5 ==> l.pageSize == 4)
      && (page == 6 ==> l.pageSize == 8) && (page == 7 ==> l.pageSize == 16)
      && (size > 0 ==> (l.offsetBytes == 2 <==> l.pageSize * TwoToThe(size + 6) > 2048))
      && (size == 0 ==> (l.offsetBytes == 2 <==> large)) && 1 <= l.offsetBytes <= 2
  {
    hide TwoToThe;
    PowersTold();
    var size := ((b & 0x78) >> 3) as int;
    if size > 0 { TwoToTheSum(size - 1); }
  }

  lemma PowersTold()
    ensures TwoToThe(1) == 2 && TwoToThe(2) == 4 && TwoToThe(3) == 8 && TwoToThe(4) == 16
  {
  }

  lemma TwoToTheSum(e: nat)
    ensures TwoToThe(e + 7) == 128 * TwoToThe(e)
  {
    assert TwoToThe(e + 7) == 2 * TwoToThe(e + 6) == 4 * TwoToThe(e + 5) == 8 * TwoToThe(e + 4);
    assert TwoToThe(e + 4) == 2 * TwoToThe(e + 3) == 4 * TwoToThe(e + 2) == 8 * TwoToThe(e + 1);
  }

  /** The timing sent for protocol `p`; `ta1` and `tc1` are those of the ATR or what replaces them. */
  function SettingsFor(p: bv32, params: Params, ta1: bv8, tc1: bv8): (s: Settings)
    ensures p == 1 ==> s.ForT0? && s.waiting == params.tc2
    ensures p == 2 ==> s.ForT1? && s.waiting == params.tb3 && s.ifsc == params.ta3
    ensures (s.ForT0? || s.ForT1?) && s.findex == ta1 && s.guardTime == tc1
  {
    if p == T0 then ForT0(ta1, tc1, params.tc2) else ForT1(ta1, tc1, params.tb3, params.ta3)
  }

  /** `ofKind`: the reply has the message type the request calls for. */
  datatype Reply = Lost | Response(ofKind: bool, status: bv8, error: bv8, data: seq<bv8>) {
    /** The reply reports that no card is active, or that none is there. */
    predicate Inactive() { Response? && status & 3 != 0 }
    predicate Mute() { Response? && status & 3 == 1 }
    predicate Removed() { Response? && status & 3 == 2 }
    predicate Failed() { Response? && status & 0x40 != 0 }
  }

  /** What the next message is answered with; a script at its end means the device is gone. */
  function Upcoming(script: seq<Reply>): Reply { if script == [] then Lost else script[0] }
  function Later(script: seq<Reply>): seq<Reply> { if script == [] then [] else script[1..] }

  /** A C `memcpy` into a store. */
  function Splice(s: seq<bv8>, at: nat, t: seq<bv8>): (r: seq<bv8>)
    requires at + |t| <= |s|
    ensures |r| == |s| && r[at..at + |t|] == t && r[..at] == s[..at] && r[at + |t|..] == s[at + |t|..]
  {
    s[..at] + t + s[at + |t|..]
  }

  /** How often `m` was sent. */
  function Sent(log: seq<Message>, m: Message): nat {
    if log == [] then 0 else Sent(log[..|log| - 1], m) + if log[|log| - 1] == m then 1 else 0
  }

  lemma SentOne(log: seq<Message>, x: Message, m: Message)
    ensures Sent(log + [x], m) == Sent(log, m) + if x == m then 1 else 0
  {
    assert (log + [x])[..|log|] == log;
  }

  /** Since `before`, no POWERON was sent and at most `offs` times POWEROFF. */
  predicate Quiet(before: seq<Message>, after: seq<Message>, offs: nat) {
    Sent(after, PowerOn) == Sent(before, PowerOn) && Sent(after, PowerOff) <= Sent(before, PowerOff) + offs
  }

  predicate OneProtocol(p: bv32) { p == T0 || p == T1 || p == RAW }

  /** No protocol is active, or one that is on offer. */
  predicate ProtocolOk(active: bv32, possible: bv32) {
    active == 0 || (OneProtocol(active) && possible & active == active)
  }

  lemma NoProtocolOk(possible: bv32)
    ensures ProtocolOk(0, possible)
  {
  }

  /** The caller accepts protocol `p`: by name, or because it leaves the choice to the driver. */
  predicate Requested(wanted: bv32, p: bv32) { wanted & p != 0 || wanted & DEFAULT != 0 }

  /** What `AnalyseATR` makes of an ATR accepted by `check_len`. */
  function Judged(atr: seq<bv8>, norm: Norm, warm: bool): (f: Findings)
    requires |atr| >= 16
  {
    FindingsOf(LevelsAt(atr, 1, 2).0, LevelsAt(atr, 1, 2).1, norm, warm)
  }

  predicate AsyncCard(atr: seq<bv8>, n: nat)
    requires |atr| > 0
  {
    n > 0 && (atr[0] == 0x3b || atr[0] == 0x3f)
  }

  /** Cards without an asynchronous ATR: memory cards with parameters to set, other memory cards, contactless type A. */
  datatype Other = Memory | Bare | TypeA | NoOther

  predicate BareAtr(atr: seq<bv8>)
    requires |atr| > 0
  {
    atr[0] == 0xff || atr[0] & 0xf0 == 0x80
  }

  lemma NotBare(atr: seq<bv8>)
    requires |atr| > 0
    ensures atr[0] == 0x3b || atr[0] == 0x3f ==> !BareAtr(atr)
  {
  }

  function OtherCard(atr: seq<bv8>, n: nat): Other
    requires |atr| > 0
  {
    if n == 4 && atr[0] in {0x2c, 0x92, 0xa2, 0x82} then Memory
    else if n == 4 && BareAtr(atr) then Bare
    else if atr[0] == 0x41 then TypeA
    else NoOther
  }

  /** Memory cards answer with four bytes; 2C, 92, A2 and 82 have parameters, FF and 8x have none. 41 is contactless. */
  lemma OtherTold(atr: seq<bv8>, n: nat)
    requires |atr| > 0
    ensures OtherCard(atr, n) == Memory <==>
      n == 4 && (atr[0] == 0x2C || atr[0] == 0x92 || atr[0] == 0xA2 || atr[0] == 0x82)
    ensures OtherCard(atr, n) == Bare <==> n == 4 && (atr[0] == 0xFF || (0x80 <= atr[0] <= 0x8F && atr[0] != 0x82))
    ensures OtherCard(atr, n) == TypeA <==> atr[0] == 0x41
  {
    HighNibble(atr[0]);
  }

  lemma HighNibble(b: bv8)
    ensures b & 0xf0 == 0x80 <==> 0x80 <= b <= 0x8F
  {
  }

  lemma AsyncIsNoOther(atr: seq<bv8>)
    requires |atr| > 0 && (atr[0] == 0x3b || atr[0] == 0x3f)
    ensures forall n: nat :: OtherCard(atr, n) == NoOther
  {
  }

  /** 0: nothing speaks against the card, 1: a rule is broken or the length is wrong, 2: the check byte is wrong. */
  function FirstVerdict(atr: seq<bv8>, n: nat, norm: Norm, warm: bool): (e: int)
    requires |atr| == 35 && 1 <= n <= 33
    ensures 0 <= e <= 2
  {
    var check := CheckLenResult(atr, n);
    if check == 1 then (if Judged(atr, norm, warm).broken then 1 else 0) else if check == 2 then 1 else 2
  }

  /** 0: usable, 1: worth a second try, 2: not usable. */
  function Verdict(atr: seq<bv8>, n: nat, norm: Norm, warm: bool): (e: int)
    requires |atr| == 35 && n <= 33
  {
    if !AsyncCard(atr, n) then 2
    else
      var e := FirstVerdict(atr, n, norm, warm);
      if e == 1 && warm then 2 else e
  }

  function ProtocolBits(named: set<bv8>): bv32 {
    (if 0 in named then T0 else 0) | (if 1 in named then T1 else 0)
  }

  /** Without a broken rule TD1 can only name T=0 or T=1. */
  lemma UsableNamesT0OrT1(atr: seq<bv8>, norm: Norm, warm: bool)
    requires |atr| >= 16 && !Judged(atr, norm, warm).broken
    ensures Judged(atr, norm, warm).t1 <= 1
  {
  }

  lemma SpecificOk(p: bv32)
    requires OneProtocol(p)
    ensures ProtocolOk(p, p)
  {
  }

  lemma NotAsync(atr: seq<bv8>, n: nat, norm: Norm, warm: bool)
    requires |atr| == 35 && n <= 33 && !AsyncCard(atr, n)
    ensures Verdict(atr, n, norm, warm) == 2
  {
  }

  /** Headline: what the driver makes of a structured ATR is what the structure says. */
  lemma StructuredVerdict(atr: seq<bv8>, n: nat, a: Atr, norm: Norm, warm: bool, previous: Option<nat>)
    requires |atr| == 35 && n <= 33 && AsyncCard(atr, n) && Represents(atr, n, a)
    ensures Verdict(atr, n, norm, warm) == if RulesOk(a.first, a.more, norm, warm) then 0 else if warm then 2 else 1
    ensures CheckLenResult(atr, n) == 1 && Judged(atr, norm, warm).params == ParamsOf(a.first, a.more)
    ensures HistoricalAt(atr, n, previous) == Some(2 + |Interface(a)|) && Announced(atr) == |a.hist|
    ensures 2 + |Interface(a)| + |a.hist| <= n && atr[2 + |Interface(a)|..2 + |Interface(a)| + |a.hist|] == a.hist
  {
    hide Represents, CheckLenResult, Walk, RulesOk, ParamsOf, Interface, LevelsAt;
    AcceptsStructured(atr, n, a);
    RoundTrip(atr, n, a, norm, warm);
  }

  /** The verdict, told over the received bytes. */
  lemma VerdictTold(atr: seq<bv8>, n: nat, norm: Norm, warm: bool)
    requires |atr| == 35 && n <= 33
    ensures var async := n > 0 && (atr[0] == 0x3B || atr[0] == 0x3F);
      && (Verdict(atr, n, norm, warm) == 0 <==> async && CheckLenResult(atr, n) == 1 && !Breaks(atr, norm, warm))
      && (Verdict(atr, n, norm, warm) == 1 <==>
            && async && !warm
            && (CheckLenResult(atr, n) == 2 || (CheckLenResult(atr, n) == 1 && Breaks(atr, norm, warm))))
      && 0 <= Verdict(atr, n, norm, warm) <= 2
    ensures ParamsAre(atr, Judged(atr, norm, warm).params)
  {
    hide CheckLenResult, Breaks, ParamsAre, LevelsAt, FindingsOf;
    FindingsTold(atr, norm, warm);
  }

  /** Protocols on offer (1 for T=0, 2 for T=1), the one already set and the state, told over the received bytes. */
  predicate ProtocolsAre(atr: seq<bv8>, possible: bv32, active: bv32, state: CardState)
    requires |atr| >= 16
  {
    var named := if HasFirstTd(atr) then atr[FirstTd(atr)] & 0x0f else 0;
    var also := if HasSecondTd(atr) then atr[SecondTd(atr)] & 0x0f else named;
    if HasFirstTd(atr) && atr[FirstTd(atr)] & 0x10 != 0 then
      active == possible == (if named == 0 then 1 else 2) && state == Specific
    else
      && active == 0
      && possible == (if named == 0 || also == 0 then 1 else 0) + (if named == 1 || also == 1 then 2 else 0)
      && (possible != 0 ==> state == Negotiable)
  }

  lemma BitsTold(named: set<bv8>)
    ensures ProtocolBits(named) == (if 0 in named then 1 else 0) + (if 1 in named then 2 else 0)
  {
  }

  /** What a usable card offers. */
  lemma ProtocolsTold(atr: seq<bv8>, norm: Norm, warm: bool, possible: bv32, active: bv32, state: CardState)
    requires |atr| == 35
    requires var f := Judged(atr, norm, warm);
      && (if f.specific then possible == active == (if f.t1 == 0 then T0 else T1) && state == Specific
          else possible == ProtocolBits(f.named) && active == 0)
      && (!f.specific && (0 in f.named || 1 in f.named) ==> state == Negotiable)
    ensures ProtocolsAre(atr, possible, active, state)
  {
    hide ParamsAre, Breaks, LevelsAt, FindingsOf, HasFirstTd, HasSecondTd, FirstTd, SecondTd, ProtocolBits;
    FindingsTold(atr, norm, warm);
    BitsTold(Judged(atr, norm, warm).named);
  }

  /** A second look never asks for a third. */
  lemma WarmVerdictIsFinal(atr: seq<bv8>, n: nat, norm: Norm)
    requires |atr| == 35 && n <= 33
    ensures Verdict(atr, n, norm, true) != 1
  {
    hide CheckLenResult, Judged;
  }

  /** The protocol to negotiate: T=0 before T=1, requested and offered; 0 if there is none. */
  function Pick(wanted: bv32, possible: bv32): (p: bv32)
    ensures p == 0 || p == T0 || p == T1
    ensures p != 0 ==> Chosen(p, possible, wanted) && ProtocolOk(p, possible)
    ensures p == 1 <==> possible & 1 != 0 && (wanted & 1 != 0 || wanted & 0x8000_0000 != 0)
    ensures p == 2 <==> p != 1 && possible & 2 != 0 && (wanted & 2 != 0 || wanted & 0x8000_0000 != 0)
  {
    var protocol := if wanted & DEFAULT != 0 then wanted | T0 | T1 else wanted;
    if protocol & T0 != 0 && possible & T0 != 0 then T0
    else if protocol & T1 != 0 && possible & T1 != 0 then T1
    else 0
  }

  /** Exactly one protocol, offered by the card and asked for by the caller. */
  predicate Chosen(p: bv32, possible: bv32, wanted: bv32) {
    OneProtocol(p) && possible & p == p && Requested(wanted, p)
  }

  /** The protocol of a card that is already set to one is acceptable to the caller. */
  predicate Grants(wanted: bv32, active: bv32) {
    active & (if wanted & DEFAULT != 0 then wanted | T0 | T1 | RAW else wanted) != 0
  }

  /** A card that is set to one protocol accepts a caller that names it or leaves the choice to the driver. */
  lemma GrantsTold(wanted: bv32, active: bv32)
    requires active == 1 || active == 2 || active == 4
    ensures Grants(wanted, active) <==> wanted & active != 0 || wanted & 0x8000_0000 != 0
    ensures T0 == 1 && T1 == 2 && RAW == 4
  {
  }

  lemma GrantedIsChosen(wanted: bv32, active: bv32, possible: bv32)
    requires ProtocolOk(active, possible) && Grants(wanted, active)
    ensures Chosen(active, possible, wanted)
  {
  }

  /** At most 33 bytes of an ATR are kept. */
  function Clamped(data: seq<bv8>): (n: nat)
    ensures n <= 33 && n <= |data|
  {
    if |data| > 33 then 33 else |data|
  }

  predicate DataBlock(r: Reply) { r.Response? && r.ofKind && !r.Failed() }

  /** The reply to the first ICCPOWERON brings an ATR that is worth a second try. */
  predicate WorthRetry(atr: seq<bv8>, r: Reply, norm: Norm)
    requires |atr| == 35
  {
    DataBlock(r) && var n := Clamped(r.data); Verdict(Splice(atr, 0, r.data[..n]), n, norm, false) == 1
  }

  /** The reply to the last ICCPOWERON of a reset. The reply to the ICCPOWEROFF before it comes first. */
  function LastReply(atr: seq<bv8>, script: seq<Reply>, norm: Norm): Reply
    requires |atr| == 35
  {
    if WorthRetry(atr, Upcoming(Later(script)), norm) then Upcoming(Later(Later(script))) else Upcoming(Later(script))
  }

  /** The status that a reply to ICCPOWERON gives, and the at most 33 bytes of ATR it brings. */
  predicate PoweredUp(r: Reply, s: Status, answer: seq<bv8>) {
    if r.Lost? || !r.ofKind then s == NotConnected
    else if r.status & 0x40 != 0 then
      s == (if r.error == 0xFE then NoMedia else if r.error == 0xF6 then Unrecognized
            else if r.error == 0xEF then Cancelled else IoTimeout)
    else s == Success && answer == r.data[..if |r.data| > 33 then 33 else |r.data|]
  }

  lemma RetryIs(atr: seq<bv8>, r: Reply, norm: Norm)
    requires |atr| == 35
    ensures WorthRetry(atr, r, norm) <==>
      DataBlock(r) && var n := Clamped(r.data); Verdict(Splice(atr, 0, r.data[..n]), n, norm, false) == 1
  {
    hide Verdict;
  }

  /** A type A card that speaks ISO/IEC 14443-4, unless its Mifare side is preferred. */
  predicate UsesAts(sak: bv8, preferMifare: bool) {
    sak & 0x20 != 0 && !((sak == 0x28 || sak == 0x38) && preferMifare)
  }

  /** Bit 6 of the SAK, unless a card that is Mifare as well (28, 38) is to be used as such. */
  lemma UsesAtsTold(sak: bv8, preferMifare: bool)
    ensures UsesAts(sak, preferMifare) <==> sak & 0x20 != 0 && (preferMifare ==> sak != 0x28 && sak != 0x38)
  {
  }

  /** The reply to the request for the ATS, with the whole data field it lies in. */
  type AtsReply = r: Reply | r.Response? ==> |r.data| == 2038 witness Lost

  function ParameterStatus(r: Reply): Status {
    if r.Lost? then NotConnected
    else if r.Removed() then NoMedia
    else if r.Mute() || r.Failed() then IoTimeout
    else Success
  }

  lemma StatusResponds(r: Reply)
    requires ParameterStatus(r) == Success
    ensures r.Response?
  {
  }

  /** The historical bytes of this ATS would be written over more than the store. */
  predicate AtsOverruns(sak: bv8, ats: AtsReply, preferMifare: bool) {
    UsesAts(sak, preferMifare) && ParameterStatus(ats) == Success && ats.data[0] <= 15 && !AtsCovers(ats.data)
  }

  function TypeAHist(sak: bv8, ats: AtsReply, preferMifare: bool): (h: seq<bv8>)
    requires !AtsOverruns(sak, ats, preferMifare)
    ensures |h| < 16
  {
    if !UsesAts(sak, preferMifare) then StorageHist(sak)
    else if ParameterStatus(ats) == Success && ats.data[0] <= 15 then
      AtsFitsExactly(ats.data);
      AtsHist(ats.data)
    else []
  }

  /** Lost is not connected; status 2 in the low bits is no card, 1 or the failure bit a timeout. */
  lemma ParameterStatusTold(r: Reply)
    ensures ParameterStatus(r) ==
      if r.Lost? then NotConnected
      else if r.status & 3 == 2 then NoMedia
      else if r.status & 3 == 1 || r.status & 0x40 != 0 then IoTimeout
      else Success
  {
  }

  /** How the stand-in for a type A card ends. */
  function TypeAStatus(sak: bv8, ats: AtsReply, preferMifare: bool, cap: nat): Status
    requires !AtsOverruns(sak, ats, preferMifare)
  {
    if UsesAts(sak, preferMifare) && ParameterStatus(ats) != Success then ParameterStatus(ats)
    else if UsesAts(sak, preferMifare) && ats.data[0] > 15 then NoMedia
    else if cap < |TypeAHist(sak, ats, preferMifare)| + 5 then BufferTooSmall
    else Success
  }

  /** The answer to FF CA with the data `data` and Le, into a buffer of `cap` bytes. */
  function DataAnswer(data: seq<bv8>, le: nat, cap: nat): (r: (Status, seq<bv8>))
    requires |data| < 16
    ensures le == 0 && cap >= |data| + 2 ==> r == (Success, data + [0x90, 0x00])
  {
    if cap >= |data| + 2 && (le == 0 || le >= |data|) then
      (Success, if le > |data| then data + seq(le - |data|, _ => 0) + [0x62, 0x82] else data + [0x90, 0x00])
    else if cap >= 2 then (Success, [0x6C, |data| as bv8])
    else (BufferTooSmall, [])
  }

  /** The data itself, zeros up to Le, and 9000, or 6282 behind zeros; 6Cxx with the length where Le is too small. */
  lemma AnswerTold(data: seq<bv8>, le: nat, cap: nat)
    requires |data| < 16
    ensures var (s, r) := DataAnswer(data, le, cap);
      if cap >= |data| + 2 && (le == 0 || le >= |data|) then s == Success && Padded(data, le, r)
      else if cap < 2 then s == BufferTooSmall && r == []
      else s == Success && |r| == 2 && r[0] == 0x6C && r[1] as int == |data|
  {
    hide Padded;
    SmallLength(|data|);
    PaddedIs(data, le);
  }

  predicate Padded(data: seq<bv8>, le: nat, r: seq<bv8>) {
    && |r| == (if le > |data| then le else |data|) + 2 && r[..|data|] == data
    && (forall i :: |data| <= i < |r| - 2 ==> r[i] == 0)
    && r[|r| - 2] == (if le > |data| then 0x62 else 0x90) && r[|r| - 1] == (if le > |data| then 0x82 else 0x00)
  }

  lemma PaddedIs(data: seq<bv8>, le: nat)
    ensures le > |data| ==> Padded(data, le, data + seq(le - |data|, _ => 0) + [0x62, 0x82])
    ensures le <= |data| ==> Padded(data, le, data + [0x90, 0x00])
  {
  }

  lemma SmallLength(n: nat)
    requires n < 16
    ensures (n as bv8) as int == n
  {
  }

  /** The padding for an Le above the number of bytes there are is written without a look at the buffer. */
  lemma AnswerFits(data: seq<bv8>, le: nat, cap: nat)
    requires |data| < 16
    ensures |DataAnswer(data, le, cap).1| <= cap <==> cap < |data| + 2 || le + 2 <= cap
  {
  }

  /** A buffer for exactly the historical bytes, and the largest Le. */
  lemma PaddingOverruns(data: seq<bv8>)
    requires |data| == 15
    ensures |DataAnswer(data, 255, 17).1| == 257
  {
  }

  lemma StandInHist(atr: seq<bv8>, n: nat, hist: seq<bv8>)
    requires n <= |atr| && |hist| < 16 && atr[..n] == ContactlessAtr(hist)
    ensures n == |hist| + 5 && atr[4..n - 1] == hist
  {
    assert atr[4..n - 1] == atr[..n][4..n - 1];
  }

  datatype Op =
    | Power(warm: bool, cap: nat, ats: AtsReply, preferMifare: bool)
    | Select(wanted: bv32)
    | Query
    | Transmit(len: nat, cap: nat)

  class Reader {
    const norm: Norm
    const ta1For: bv8 -> bv8
    const tc1For: (seq<bv8>, bv8) -> bv8
    const large: bool
    var script: seq<Reply>
    var log: seq<Message>
    var atr: seq<bv8>
    var atrLen: nat
    var historical: Option<nat>
    var histLen: nat
    var params: Params
    var state: CardState
    var active: bv32
    var possible: bv32
    var isRF: bool
    var serial: seq<bv8>
    var layout: Layout
    /** The store was written over its end; from then on nothing is known. */
    var overrun: bool

    /** What every operation keeps. The store has two bytes of slack behind the 33 of `m_ATR`. */
    ghost predicate Valid()
      reads this
    {
      && !overrun && |atr| == 35 && atrLen <= 33 && |serial| <= 9
      && ProtocolOk(active, possible)
      && (state == Absent || state == Swallowed ==> active == 0)
    }

    constructor (norm: Norm, ta1For: bv8 -> bv8, tc1For: (seq<bv8>, bv8) -> bv8, large: bool, layout: Layout,
                 script: seq<Reply>)
      ensures Valid() && this.norm == norm && this.script == script && log == []
    {
      this.norm, this.ta1For, this.tc1For, this.large, this.layout := norm, ta1For, tc1For, large, layout;
      this.script, log := script, [];
      atr, atrLen, historical, histLen := seq(35, _ => 0), 0, None, 0;
      params, state, active, possible, isRF, serial := DEFAULT_PARAMS, Undefined, 0, 0, false, [];
      overrun := false;
    }

    /** A message went out and `r` came back; a reply that reports no active card clears protocol and ATR. */
    method Receive(m: Message, r: Reply)
      requires Valid()
      modifies this`log, this`active, this`atrLen, this`state
      ensures log == old(log) + [m]
      ensures Valid() && Sent(log, PowerOn) == Sent(old(log), PowerOn) + (if m == PowerOn then 1 else 0)
      ensures Sent(log, PowerOff) == Sent(old(log), PowerOff) + (if m == PowerOff then 1 else 0)
      ensures if r.Inactive() then active == 0 && atrLen == 0 else active == old(active) && atrLen == old(atrLen)
      ensures state == if r.Removed() then Absent else old(state)
    {
      hide ProtocolOk, Sent;
      NoProtocolOk(possible);
      SentOne(log, m, PowerOn);
      SentOne(log, m, PowerOff);
      log := log + [m];
      if r.Inactive() { active, atrLen := 0, 0; }
      if r.Removed() { state := Absent; }
    }

    method Transfer(m: Message) returns (r: Reply)
      requires Valid()
      modifies this`script, this`log, this`active, this`atrLen, this`state
      ensures r == Upcoming(old(script)) && script == Later(old(script)) && log == old(log) + [m]
      ensures Valid() && Sent(log, PowerOn) == Sent(old(log), PowerOn) + (if m == PowerOn then 1 else 0)
      ensures Sent(log, PowerOff) == Sent(old(log), PowerOff) + (if m == PowerOff then 1 else 0)
      ensures if r.Inactive() then active == 0 && atrLen == 0 else active == old(active) && atrLen == old(atrLen)
      ensures state == if r.Removed() then Absent else old(state)
    {
      hide ProtocolOk, Sent;
      r := Lost;
      if script != [] { r, script := script[0], script[1..]; }
      Receive(m, r);
    }

    /** `IfdPower(SCARD_POWER_DOWN)`. */
    method PowerDown() returns (s: Status)
      requires Valid()
      modifies this`script, this`log, this`active, this`atrLen, this`state, this`isRF
      ensures Valid() && !isRF && log == old(log) + [PowerOff] && script == Later(old(script))
      ensures Quiet(old(log), log, 1) && Sent(log, PowerOff) == Sent(old(log), PowerOff) + 1
      ensures s == PowerStatus(Upcoming(old(script)))
      ensures active == (if Upcoming(old(script)).Inactive() then 0 else old(active))
      ensures atrLen == (if Upcoming(old(script)).Inactive() then 0 else old(atrLen))
    {
      var r := Transfer(PowerOff);
      isRF := false;
      if r.Lost? || !r.ofKind { return NotConnected; }
      return if r.Failed() then PowerError(r.error) else Success;
    }

    static function PowerStatus(r: Reply): Status {
      if r.Lost? || !r.ofKind then NotConnected else if r.Failed() then PowerError(r.error) else Success
    }

    static function PowerError(error: bv8): Status {
      if error == 0xfe then NoMedia
      else if error == 0xf6 then Unrecognized
      else if error == 0xef then Cancelled
      else IoTimeout
    }

    /** The synchronous and contactless cards that have no asynchronous ATR. */
    method AnalyseOther()
      requires Valid() && active == 0
      modifies this
      ensures Valid() && atr == old(atr) && (atrLen == old(atrLen) || atrLen == 0) && (isRF ==> old(isRF))
      ensures Quiet(old(log), log, 0)
      ensures match OtherCard(old(atr), old(atrLen))
        case Memory =>
          && possible == RAW && histLen == 0 && log == old(log) + [SetParameters(ForMemory(layout))]
          && layout == (if atr[0] == 0x82 then LayoutFor(atr[1], large) else old(layout))
          && active == if Upcoming(old(script)).Inactive() then 0 else RAW
        case Bare => possible == active == RAW && histLen == 0 && state == Negotiable && log == old(log)
        case TypeA =>
          && possible == active == RAW && histLen == 0 && historical == None && state == Specific
          && log == old(log)
        case NoOther =>
          && possible == old(possible) && active == 0 && state == old(state)
          && log == old(log) && script == old(script)
          && historical == old(historical) && histLen == old(histLen)
      ensures params == old(params)
    {
      hide ProtocolOk, Sent, OtherCard, Reply.Inactive, Reply.Removed, LayoutFor;
      NoProtocolOk(possible);
      SpecificOk(RAW);
      match OtherCard(atr, atrLen) {
        case Memory =>
          histLen, possible, active, state := 0, RAW, RAW, Specific;
          if atr[0] == 0x82 { layout := LayoutFor(atr[1], large); }
          var _ := Transfer(SetParameters(ForMemory(layout)));
        case Bare => histLen, possible, active, state := 0, RAW, RAW, Negotiable;
        case TypeA => histLen, historical, possible, active, state := 0, None, RAW, RAW, Specific;
        case NoOther =>
      }
    }

    /** Parameters, protocols and state of a card whose ATR was found usable. */
    method Adopt(f: Findings)
      requires Valid() && active == 0 && f.t1 <= 1
      modifies this`params, this`possible, this`active, this`state
      ensures Valid() && params == f.params
      ensures f.specific ==> possible == active == (if f.t1 == 0 then T0 else T1) && state == Specific
      ensures !f.specific ==> possible == ProtocolBits(f.named) && active == 0
      ensures !f.specific && (0 in f.named || 1 in f.named) ==> state == Negotiable
    {
      hide ProtocolOk;
      SpecificOk(T0);
      SpecificOk(T1);
      params := f.params;
      if f.specific {
        possible := if f.t1 == 0 then T0 else T1;
        active, state := possible, Specific;
      } else {
        possible := 0;
        if 0 in f.named { possible, state := possible | T0, Negotiable; }
        if 1 in f.named { possible, state := possible | T1, Negotiable; }
        NoProtocolOk(possible);
      }
    }

    /** Parameters, historical bytes, protocols and state are those of the usable ATR of `n` bytes in the store. */
    ghost predicate Adopted(n: nat, warm: bool)
      reads this
      requires |atr| == 35 && 1 <= n <= 33
    {
      var f := Judged(atr, norm, warm);
      && params == f.params
      && (Walk(atr, n, 0, false).hist.Some? ==> historical == Walk(atr, n, 0, false).hist) && histLen == Announced(atr)
      && (if f.specific then possible == active == (if f.t1 == 0 then T0 else T1) && state == Specific
          else possible == ProtocolBits(f.named) && active == 0)
      && (!f.specific && (0 in f.named || 1 in f.named) ==> state == Negotiable)
    }

    lemma AdoptedProtocols(n: nat, warm: bool)
      requires |atr| == 35 && 1 <= n <= 33 && Adopted(n, warm)
      ensures ProtocolsAre(atr, possible, active, state)
    {
      hide Walk, Judged, ProtocolsAre;
      ProtocolsTold(atr, norm, warm, possible, active, state);
    }

    /** What the interface bytes of the ATR in the store say. */
    method ReadFindings(warm: bool) returns (f: Findings)
      requires |atr| == 35
      ensures f == Judged(atr, norm, warm) && (!f.broken ==> f.t1 <= 1)
    {
      hide FindingsOf, LevelsAt;
      f := TakeFields(atr, norm, warm);
      if !f.broken { UsableNamesT0OrT1(atr, norm, warm); }
    }

    /** The ATR of an asynchronous card is taken apart, and the card adopted if nothing speaks against it. */
    method Inspect(warm: bool) returns (error: int)
      requires Valid() && AsyncCard(atr, atrLen) && possible == 0 && active == 0
      modifies this`historical, this`histLen, this`params, this`possible, this`active, this`state
      ensures Valid() && error == FirstVerdict(atr, atrLen, norm, warm)
      ensures if error == 0 then Adopted(atrLen, warm) else possible == 0 && active == 0
      ensures historical == HistoricalAt(atr, atrLen, old(historical)) && histLen == Announced(atr)
      ensures params == if CheckLenResult(atr, atrLen) == 1 then Judged(atr, norm, warm).params else old(params)
    {
      hide ProtocolOk, CheckLenResult, Walk, Judged, Announced, ProtocolBits;
      var check;
      check, historical, histLen := CheckLen(atr, atrLen, historical);
      if check == 1 {
        var f := ReadFindings(warm);
        params := f.params;
        if f.broken {
          error := 1;
        } else {
          Adopt(f);
          error := 0;
        }
      } else {
        error := if check == 2 then 1 else 2;
      }
    }

    /** The ATR of an asynchronous card: accepted, worth a second try, or a reason to power the card down. */
    method Judge(warm: bool) returns (error: int)
      requires Valid() && AsyncCard(atr, atrLen) && possible == 0 && active == 0
      modifies this
      ensures Valid() && atr == old(atr) && (atrLen == old(atrLen) || atrLen == 0) && (isRF ==> old(isRF))
      ensures error == Verdict(old(atr), old(atrLen), norm, warm)
      ensures Quiet(old(log), log, if error == 2 then 1 else 0)
      ensures error == 0 ==> atrLen == old(atrLen) && Adopted(atrLen, warm)
      ensures error != 0 ==> possible == 0 && active == 0
      ensures error == 1 ==> script == old(script) && log == old(log)
      ensures historical == HistoricalAt(old(atr), old(atrLen), old(historical)) && histLen == Announced(old(atr))
      ensures params ==
        if CheckLenResult(old(atr), old(atrLen)) == 1 then Judged(old(atr), norm, warm).params else old(params)
    {
      hide ProtocolOk, Sent, CheckLenResult, Walk, Judged, Announced, HistoricalAt, Adopted, FirstVerdict;
      error := Inspect(warm);
      if error == 2 || (error == 1 && warm) {
        var _ := PowerDown();
        error := 2;
      }
    }

    /** The ATR in the store decides what the card is. */
    method AnalyseATR(warm: bool) returns (error: int)
      requires Valid()
      modifies this
      ensures Valid() && atr == old(atr) && (atrLen == old(atrLen) || atrLen == 0) && (isRF ==> old(isRF))
      ensures error == Verdict(old(atr), old(atrLen), norm, warm)
      ensures Quiet(old(log), log, if error == 2 then 1 else 0)
      ensures error == 0 ==> atrLen == old(atrLen) && Adopted(atrLen, warm)
      ensures error != 0 && AsyncCard(old(atr), old(atrLen)) ==> possible == 0 && active == 0
      ensures error != 0 && !AsyncCard(old(atr), old(atrLen)) && OtherCard(old(atr), old(atrLen)) != NoOther ==>
        possible == RAW
      ensures AsyncCard(old(atr), old(atrLen)) ==>
        && historical == HistoricalAt(old(atr), old(atrLen), old(historical)) && histLen == Announced(old(atr))
        && params == if CheckLenResult(old(atr), old(atrLen)) == 1 then Judged(old(atr), norm, warm).params
                     else DEFAULT_PARAMS
      ensures AsyncCard(old(atr), old(atrLen)) && CheckLenResult(old(atr), old(atrLen)) == 1 ==>
        && ParamsAre(atr, params)
        && error == (if !Breaks(atr, norm, warm) then 0 else if warm then 2 else 1)
      ensures error == 0 ==> ProtocolsAre(atr, possible, active, state)
      ensures error == 1 ==> script == old(script) && log == old(log)
      ensures forall a :: AsyncCard(old(atr), old(atrLen)) && Represents(old(atr), old(atrLen), a) ==>
        && error == (if RulesOk(a.first, a.more, norm, warm) then 0 else if warm then 2 else 1)
        && params == ParamsOf(a.first, a.more)
        && historical == Some(2 + |Interface(a)|) && histLen == |a.hist|
        && atr[2 + |Interface(a)|..2 + |Interface(a)| + histLen] == a.hist
    {
      hide ProtocolOk, Sent, CheckLenResult, OtherCard, Adopted, Judged, Represents, Verdict, RulesOk, ParamsOf;
      hide HistoricalAt, Interface, ParamsAre, Breaks, ProtocolsAre;
      NoProtocolOk(0);
      VerdictTold(atr, atrLen, norm, warm);
      forall a | AsyncCard(atr, atrLen) && Represents(atr, atrLen, a) {
        StructuredVerdict(atr, atrLen, a, norm, warm, historical);
      }
      if atr[0] == 0x3b || atr[0] == 0x3f { AsyncIsNoOther(atr); }
      possible, active, state, params := 0, 0, Powered, DEFAULT_PARAMS;
      if atrLen > 0 && (atr[0] == 0x3b || atr[0] == 0x3f) {
        error := Judge(warm);
        if error == 0 {
          AdoptedProtocols(atrLen, warm);
          return;
        }
      } else {
        NotAsync(atr, atrLen, norm, warm);
        error := 2;
      }
      AnalyseOther();
    }

    /** One turn of the reset loop: the card is powered up and its ATR analysed; `again` asks for another turn. */
    method PowerUp(warm: bool) returns (s: Status, answer: seq<bv8>, again: bool)
      requires Valid() && !isRF
      modifies this
      ensures Valid() && !isRF && |answer| <= 33 && (again ==> !warm)
      ensures Sent(log, PowerOn) == Sent(old(log), PowerOn) + 1
      ensures Sent(log, PowerOff) <= Sent(old(log), PowerOff) + (if again then 0 else 1)
      ensures again <==> !warm && WorthRetry(old(atr), Upcoming(old(script)), norm)
      ensures again ==> script == Later(old(script))
      ensures PoweredUp(Upcoming(old(script)), s, answer)
      ensures s == Success && !again ==>
        && answer == atr[..|answer|] && (atrLen == |answer| || atrLen == 0)
        && Verdict(atr, |answer|, norm, warm) != 1
        && (Verdict(atr, |answer|, norm, warm) == 0 ==> atrLen == |answer| && Adopted(|answer|, warm))
    {
      hide ProtocolOk, Sent, Verdict, Judged, Walk, Adopted, WorthRetry, ParamsOf, RulesOk, Represents, HistoricalAt;
      hide CheckLenResult, OtherCard, AsyncCard;
      hide Reply.Inactive, Reply.Removed;
      answer, again := [], false;
      var r := Transfer(PowerOn);
      RetryIs(atr, r, norm);
      if r.Lost? || !r.ofKind { return NotConnected, [], false; }
      if r.Failed() { return PowerError(r.error), [], false; }
      var n := Clamped(r.data);
      atrLen, atr := n, Splice(atr, 0, r.data[..n]);
      WarmVerdictIsFinal(atr, atrLen, norm);
      var error := AnalyseATR(warm);
      return Success, r.data[..n], error == 1;
    }

    /** `IfdPower` with a cold or warm reset. */
    method Reset() returns (s: Status, answer: seq<bv8>, ghost warm: bool)
      requires Valid()
      modifies this
      ensures Valid() && |answer| <= 33
      ensures Sent(log, PowerOn) == Sent(old(log), PowerOn) + (if warm then 2 else 1)
      ensures Sent(log, PowerOff) <= Sent(old(log), PowerOff) + 2
      ensures warm <==> WorthRetry(old(atr), Upcoming(Later(old(script))), norm)
      ensures PoweredUp(LastReply(old(atr), old(script), norm), s, answer)
      ensures s == Success ==> answer == atr[..|answer|] && !isRF && (atrLen == |answer| || atrLen == 0)
      ensures s == Success ==> Verdict(atr, |answer|, norm, warm) != 1
      ensures s == Success && Verdict(atr, |answer|, norm, warm) == 0 ==> atrLen == |answer| && Adopted(|answer|, warm)
    {
      hide ProtocolOk, Sent, Verdict, Judged, Adopted, WorthRetry, PoweredUp, Later, Upcoming;
      s, answer, warm := NotConnected, [], false;
      var _ := PowerDown();
      var second, again := false, true;
      while again
        invariant Valid() && !isRF && (!again ==> |answer| <= 33)
        invariant second && again ==> WorthRetry(old(atr), Upcoming(Later(old(script))), norm)
        invariant second && again ==> script == Later(Later(old(script)))
        invariant !again ==> PoweredUp(LastReply(old(atr), old(script), norm), s, answer)
        invariant !second ==> again && Quiet(old(log), log, 1) && script == Later(old(script)) && atr == old(atr)
        invariant second && again ==> Sent(log, PowerOn) == Sent(old(log), PowerOn) + 1
        invariant second && again ==> Sent(log, PowerOff) <= Sent(old(log), PowerOff) + 1
        invariant !again ==> Finished(s, answer, warm)
        invariant !again ==> (warm <==> WorthRetry(old(atr), Upcoming(Later(old(script))), norm))
        invariant !again ==> Sent(log, PowerOn) == Sent(old(log), PowerOn) + (if warm then 2 else 1)
        invariant !again ==> Sent(log, PowerOff) <= Sent(old(log), PowerOff) + 2
        decreases again, !second
      {
        warm := second;
        s, answer, again := PowerUp(second);
        second := true;
      }
    }

    /** A reset that succeeded left a final verdict, and adopted the card if it is usable. */
    ghost predicate Finished(s: Status, answer: seq<bv8>, warm: bool)
      reads this
      requires |atr| == 35 && |answer| <= 33
    {
      s == Success ==>
        && answer == atr[..|answer|] && !isRF && (atrLen == |answer| || atrLen == 0)
        && Verdict(atr, |answer|, norm, warm) != 1
        && (Verdict(atr, |answer|, norm, warm) == 0 ==> atrLen == |answer| && Adopted(|answer|, warm))
    }

    /** The timing to be sent for protocol `p`, with TA1 and TC1 replaced where the configuration says so. */
    function Timing(p: bv32): Settings
      reads this
      requires atrLen <= |atr|
    {
      SettingsFor(p, params, ta1For(params.ta1), tc1For(atr[..atrLen], params.tc1))
    }

    /** The choice is sent to the reader and holds once the reader agrees. */
    method Propose(p: bv32) returns (s: Status, chosen: bv32)
      requires Valid() && ProtocolOk(p, possible) && state == Negotiable
      modifies this`script, this`log, this`active, this`atrLen, this`state
      ensures Valid() && (atrLen == old(atrLen) || atrLen == 0)
      ensures log == old(log) + [SetParameters(old(Timing(p)))]
      ensures s == ParameterStatus(Upcoming(old(script)))
      ensures if s == Success then chosen == active == p && state == Specific else chosen == 0
    {
      hide ProtocolOk, Sent, ParameterStatus, SettingsFor;
      var r := Transfer(SetParameters(Timing(p)));
      s, chosen := ParameterStatus(r), 0;
      if s == Success {
        active, state := p, Specific;
        chosen := active;
      }
    }

    /** A card that leaves the choice of protocol open. For a contactless card nothing is sent. */
    method Negotiate(wanted: bv32) returns (s: Status, chosen: bv32)
      requires Valid() && state == Negotiable
      modifies this`script, this`log, this`active, this`atrLen, this`state
      ensures Valid() && (atrLen == old(atrLen) || atrLen == 0)
      ensures var p := Pick(wanted, possible);
        if p == 0 then (s, chosen) == (InvalidRequest, 0) && log == old(log) && active == old(active)
        else
          && s == (if isRF then Success else ParameterStatus(Upcoming(old(script))))
          && log == (if isRF then old(log) else old(log) + [SetParameters(old(Timing(p)))])
          && (if s == Success then chosen == active == p && state == Specific else chosen == 0)
    {
      hide ProtocolOk, Sent, Pick, ParameterStatus, Chosen;
      var p := Pick(wanted, possible);
      if p == 0 {
        s, chosen := InvalidRequest, 0;
      } else if isRF {
        active, state := p, Specific;
        s, chosen := Success, active;
      } else {
        s, chosen := Propose(p);
      }
    }

    /** `IfdSetProtocol`. */
    method SetProtocol(wanted: bv32) returns (s: Status, chosen: bv32)
      requires Valid()
      modifies this`script, this`log, this`active, this`atrLen, this`state
      ensures Valid() && (atrLen == old(atrLen) || atrLen == 0)
      ensures s != Success ==> chosen == 0
      ensures s == Success && AsyncCard(atr, 1) ==>
        chosen == active && Chosen(chosen, possible, wanted)
      ensures old(state) == Specific ==>
        && log == old(log) && active == old(active)
        && (s, chosen) == if Grants(wanted, active) then (Success, active) else (NotSupported, 0)
      ensures old(state) != Negotiable && old(state) != Specific ==>
        log == old(log) && s == if old(state) == Absent then NoMedia else IoTimeout
      ensures old(state) == Negotiable && !isRF && BareAtr(atr) ==> (s, chosen) == (Success, RAW) && log == old(log)
      ensures old(state) == Negotiable && (isRF || !BareAtr(atr)) ==>
        && (s == Success ==> chosen == active == Pick(wanted, possible) && state == Specific)
        && s == (if Pick(wanted, possible) == 0 then InvalidRequest
                 else if isRF then Success else ParameterStatus(Upcoming(old(script))))
        && log == old(log) + if Pick(wanted, possible) == 0 || isRF then []
                             else [SetParameters(old(Timing(Pick(wanted, possible))))]
    {
      hide ProtocolOk, Sent, Pick, Grants, Chosen, BareAtr;
      if state == Absent { return NoMedia, 0; }
      if state == Negotiable {
        NotBare(atr);
        if !isRF && BareAtr(atr) { return Success, RAW; }
        s, chosen := Negotiate(wanted);
      } else if state == Specific {
        if !Grants(wanted, active) { return NotSupported, 0; }
        GrantedIsChosen(wanted, active, possible);
        return Success, active;
      } else {
        return IoTimeout, 0;
      }
    }

    /** `IfdGetState`. */
    method GetState() returns (s: Status, result: CardState)
      requires Valid()
      modifies this`script, this`log, this`active, this`atrLen, this`state
      ensures Valid() && (atrLen == old(atrLen) || atrLen == 0)
      ensures var r := Upcoming(old(script));
        if r.Lost? then s == NotConnected && result == Undefined
        else if !r.ofKind then s == Success && result == Undefined
        else
          && s == Success && result == state
          && state == if r.status & 3 == 0 then old(state) else if r.status & 3 == 1 then Swallowed else Absent
      ensures result == Absent || result == Swallowed ==> active == 0
    {
      hide ProtocolOk, Sent;
      var r := Transfer(GetSlotStatus);
      if r.Lost? { return NotConnected, Undefined; }
      if !r.ofKind { return Success, Undefined; }
      if r.status & 3 == 1 { state := Swallowed; }
      else if r.status & 3 != 0 { state := Absent; }
      return Success, state;
    }

    // ----- contactless cards -----

    /** While a contactless card is active, the store holds the ATR made up for it. */
    ghost predicate StandIn()
      reads this
    {
      isRF && atrLen > 0 ==>
        && 5 <= atrLen <= 20 && |atr| == 35
        && atr[..atrLen] == ContactlessAtr(atr[4..atrLen - 1])
    }

    /** Header, historical bytes and check byte are written over the store. */
    method Seal(hist: seq<bv8>, cap: nat) returns (s: Status, answer: seq<bv8>)
      requires Valid() && |hist| < 16
      modifies this`atr, this`atrLen, this`possible, this`active, this`state, this`isRF
      ensures Valid() && atrLen == |hist| + 5 && atr[..atrLen] == ContactlessAtr(hist)
      ensures if cap < |hist| + 5 then s == BufferTooSmall && isRF == old(isRF)
              else s == Success && isRF && answer == atr[..atrLen] && active == possible == T1 && state == Specific
    {
      hide ProtocolOk, Xor, Covered;
      SpecificOk(T1);
      var head := [0x3b] + [0x80 | (|hist| as bv8), 0x80, 0x01] + hist;
      CoveredIs(hist);
      atr, atrLen := Splice(atr, 0, head), |head|;
      assert atr[1..atrLen] == head[1..] == Covered(hist);
      var tck := Lrc(atr, atrLen);
      atr, atrLen := Splice(atr, atrLen, [tck]), atrLen + 1;
      assert atr[..atrLen] == head + [tck];
      if cap < atrLen { return BufferTooSmall, []; }
      possible, active, state, isRF := T1, T1, Specific, true;
      return Success, atr[..atrLen];
    }

    /**
     Type A: the ATS is fetched, unless the card is to be used as a storage card. `ats` is the reply to that. A
     length that does not cover the ATS wraps around, and more is copied than the store can hold.
     */
    method StandInTypeA(cap: nat, ats: AtsReply, preferMifare: bool) returns (s: Status, answer: seq<bv8>)
      requires Valid() && 6 <= atrLen <= 12 && !isRF
      modifies this
      ensures overrun <==> AtsOverruns(old(atr)[1], ats, preferMifare)
      ensures if overrun then atrLen == AtsCount(ats.data) + 5 > 33 else Valid()
      ensures Quiet(old(log), log, 0) && serial == old(atr[3..atrLen])
      ensures !overrun ==> s == TypeAStatus(old(atr)[1], ats, preferMifare, cap)
      ensures s != Success ==> !isRF
      ensures s == Success && !overrun ==>
        && isRF && answer == atr[..atrLen] && atrLen <= 20 && active == possible == T1 && state == Specific
        && answer == ContactlessAtr(TypeAHist(old(atr)[1], ats, preferMifare))
    {
      hide ProtocolOk, Sent, UsesAts, AtsHist, AtsCovers, AtsCount, StorageHist, ContactlessAtr, ParameterStatus;
      serial := atr[3..atrLen];
      var sak := atr[1];
      if UsesAts(sak, preferMifare) {
        Receive(SetParameters(ForAts), ats);
        s, answer := ParameterStatus(ats), [];
        if s != Success { return; }
        StatusResponds(ats);
        if ats.data[0] > 15 {
          atr := Splice(atr, 0, [0x3b, 0x80, 0x80, 0x01]);
          return NoMedia, [];
        }
        AtsFitsExactly(ats.data);
        if AtsCount(ats.data) + 5 > 33 {
          overrun, atrLen := true, AtsCount(ats.data) + 5;
          return Success, [];
        }
      }
      s, answer := Seal(TypeAHist(sak, ats, preferMifare), cap);
    }

    /** Type B: the eight bytes behind the kind byte become the historical bytes. */
    method StandInTypeB(cap: nat) returns (s: Status, answer: seq<bv8>)
      requires Valid() && 6 <= atrLen <= 12 && !isRF
      modifies this
      ensures Valid() && serial == old(atr[..4]) && log == old(log)
      ensures s == if cap < 13 then BufferTooSmall else Success
      ensures s != Success ==> !isRF
      ensures s == Success ==>
        && isRF && answer == atr[..atrLen] && atrLen == 13 && active == possible == T1 && state == Specific
        && answer == ContactlessAtr(old(atr[1..9]))
    {
      hide ProtocolOk, ContactlessAtr;
      serial := atr[..4];
      s, answer := Seal(atr[1..9], cap);
    }

    /** `CECRReader::IfdPower` with a cold or warm reset; `base` and `sent` are what the card itself gave. */
    method ResetContactless(warm: bool, cap: nat, ats: AtsReply, preferMifare: bool)
      returns (s: Status, answer: seq<bv8>, ghost base: Status, ghost sent: seq<bv8>, ghost card: seq<bv8>,
               ghost store: seq<bv8>)
      requires Valid()
      modifies this
      ensures |store| == 35 && card <= store
      ensures PoweredUp(LastReply(old(atr), old(script), norm), base, sent)
      ensures overrun <==>
        && (base == Success || warm) && 6 <= |card| <= 12 && card[0] == 0x41
        && AtsOverruns(card[1], ats, preferMifare)
      ensures !overrun ==>
        if (base == Success || warm) && 6 <= |card| <= 12 && (card[0] == 0x41 || card[0] == 0x42) then
          var kind := if card[0] == 0x41 then TypeAStatus(card[1], ats, preferMifare, cap)
                      else if cap < 13 then BufferTooSmall else Success;
          s == (if kind == Success then base else kind) && (isRF <==> kind == Success)
        else s == base && answer == sent && !isRF
      ensures !overrun ==> Valid() && StandIn()
      ensures Sent(log, PowerOn) <= Sent(old(log), PowerOn) + 2 && Sent(log, PowerOff) <= Sent(old(log), PowerOff) + 2
      ensures isRF && !overrun ==>
        && (base == Success || warm) && 6 <= |card| <= 12 && (card[0] == 0x41 || card[0] == 0x42)
        && answer == atr[..atrLen] && active == possible == T1 && state == Specific
      ensures isRF && !overrun && card[0] == 0x41 ==>
        answer == ContactlessAtr(TypeAHist(card[1], ats, preferMifare)) && serial == card[3..]
      ensures isRF && !overrun && card[0] == 0x42 ==> answer == ContactlessAtr(store[1..9]) && serial == card[..4]
      ensures s == Success && !isRF && !overrun ==> answer <= store
    {
      hide ProtocolOk, Sent, ContactlessAtr, TypeAHist, Adopted, Verdict, AtsOverruns, WorthRetry, TypeAStatus;
      hide PoweredUp, LastReply;
      ghost var retried;
      s, answer, retried := Reset();
      isRF := false;
      base, sent, store, card := s, answer, atr, atr[..atrLen];
      if (s == Success || warm) && 6 <= atrLen <= 12 {
        if atr[0] == 0x41 {
          var result, sak := s, atr[1];
          s, answer := StandInTypeA(cap, ats, preferMifare);
          if s == Success {
            if !overrun { StandInHist(atr, atrLen, TypeAHist(sak, ats, preferMifare)); }
            s := result;
          }
        } else if atr[0] == 0x42 {
          var result := s;
          s, answer := StandInTypeB(cap);
          if s == Success { StandInHist(atr, atrLen, store[1..9]); s := result; }
        }
      }
    }

    /** FF CA 00 00 and FF CA 01 00 on a contactless card: its serial number, and the historical bytes of its ATR. */
    method GetData(historicalBytes: bool, le: nat, cap: nat) returns (s: Status, response: seq<bv8>)
      requires Valid() && StandIn() && isRF && le < 256
      ensures !historicalBytes ==> (s, response) == DataAnswer(serial, le, cap)
      ensures historicalBytes && atrLen > 0 ==> (s, response) == DataAnswer(atr[4..atrLen - 1], le, cap)
      ensures historicalBytes && atrLen == 0 ==>
        (s, response) == if cap < 2 then (BufferTooSmall, []) else (Success, [0x6C, 0xFB])
    {
      hide ContactlessAtr, ProtocolOk;
      if historicalBytes && atrLen == 0 {
        if cap >= 2 { return Success, [0x6C, 0xFB]; }
        return BufferTooSmall, [];
      }
      var data := if historicalBytes then atr[4..atrLen - 1] else serial;
      var k := |data|;
      if cap >= k + 2 {
        if le == 0 || le >= k {
          if le > k { return Success, data + seq(le - k, _ => 0) + [0x62, 0x82]; }
          return Success, data + [0x90, 0x00];
        }
      }
      if cap >= 2 { return Success, [0x6C, k as bv8]; }
      return BufferTooSmall, [];
    }

    /** `ccidTransmit`, as far as it touches the state: a protocol error powers the card down. */
    method Exchange(len: nat, cap: nat) returns (s: Status)
      requires Valid()
      modifies this`script, this`log, this`active, this`atrLen, this`state, this`isRF
      ensures Valid() && (atrLen == old(atrLen) || atrLen == 0) && (isRF ==> old(isRF))
      ensures var r := Upcoming(old(script));
        if len > 1014 then s == BufferOverflow && log == old(log) && script == old(script) && isRF == old(isRF)
        else if r.Lost? then s == NotConnected && log == old(log) + [XfrBlock]
        else if !r.ofKind || r.Failed() then
          && s == (if r.ofKind && r.error == 0xFE then IoTimeout else DeviceProtocolError)
          && log == old(log) + [XfrBlock, PowerOff] && !isRF
        else
          && s == (if |r.data| > cap then BufferTooSmall else Success)
          && log == old(log) + [XfrBlock] && isRF == old(isRF)
    {
      hide ProtocolOk, Sent;
      if len > 1014 { return BufferOverflow; }
      var r := Transfer(XfrBlock);
      if r.Lost? { return NotConnected; }
      if !r.ofKind {
        var _ := PowerDown();
        return DeviceProtocolError;
      }
      if r.Failed() {
        var _ := PowerDown();
        return if r.error == ICC_MUTE then IoTimeout else DeviceProtocolError;
      }
      return if |r.data| > cap then BufferTooSmall else Success;
    }

    /**
     Any run of resets, exchanges, state queries and protocol selections keeps the reader consistent, except that
     it ends at a reset whose ATS overruns the store; `done` operations came before that.
     */
    method Session(ops: seq<Op>) returns (done: nat)
      requires Valid() && StandIn()
      modifies this
      ensures done <= |ops| && (overrun <==> done < |ops|)
      ensures !overrun ==> Valid() && StandIn()
      ensures overrun ==> ops[done].Power? && MayOverrun(ops[done].ats)
      ensures (forall i :: 0 <= i < |ops| && ops[i].Power? ==> !MayOverrun(ops[i].ats)) ==> Valid() && StandIn()
    {
      hide ProtocolOk, Sent, ContactlessAtr, MayOverrun, AtsOverruns;
      done := 0;
      while done < |ops|
        invariant 0 <= done <= |ops| && Valid() && StandIn()
      {
        match ops[done] {
          case Power(warm, cap, ats, preferMifare) =>
            var _, _, _, _, c, _ := ResetContactless(warm, cap, ats, preferMifare);
            if overrun {
              OverrunIs(c[1], ats, preferMifare);
              return;
            }
          case Select(wanted) => var _, _ := SetProtocol(wanted);
          case Query => var _, _ := GetState();
          case Transmit(len, cap) => var _ := Exchange(len, cap);
        }
        done := done + 1;
      }
    }
  }

  /** The ATS is delivered, and its length does not cover its T0 and interface bytes. */
  predicate MayOverrun(ats: AtsReply) { ParameterStatus(ats) == Success && ats.data[0] <= 15 && !AtsCovers(ats.data) }

  lemma OverrunIs(sak: bv8, ats: AtsReply, preferMifare: bool)
    ensures AtsOverruns(sak, ats, preferMifare) <==> UsesAts(sak, preferMifare) && MayOverrun(ats)
  {
  }
}
