/**
 What `CBaseReader::AnalyseATR` reads out of an accepted ATR: the transmission parameters, the
 protocols on offer, and whether one of its acceptance rules is broken.
 */
module AtrRules {
  import opened Bytes
  import opened Atr

  datatype Norm = NormPcsc | NormIso | NormEmv

  datatype Params = Params(ta1: bv8, tc1: bv8, tc2: bv8, ta3: bv8, tb3: bv8, tc3: bv8)

  const DEFAULT_PARAMS := Params(0x11, 0x00, 10, 0x20, 0x4d, 0x00)

  /** `named` are the protocol numbers on offer; `specific` is set by TA2. */
  datatype Findings = Findings(params: Params, broken: bool, specific: bool, t1: bv8, named: set<bv8>)

  // ----- the rules, over the structure -----

  /** TB3 under EMV: small waiting times, and a character waiting time above the guard time. */
  predicate Tb3Ok(tb3: bv8, tc1: bv8) {
    && tb3 <= 0x45
    && tb3 & 0x0f <= 5
    && (PowerOfTwo(tb3 & 0x0f) > tc1 as int + 1 || tc1 == 0xff)
  }

  function PowerOfTwo(e: bv8): int
    requires e <= 5
  {
    if e == 0 then 1 else if e == 1 then 2 else if e == 2 then 4 else if e == 3 then 8 else if e == 4 then 16 else 32
  }

  /** TB1 has to be there and zero on a first reset. */
  predicate FirstLevelOk(l: Level, warm: bool) { warm || l.tb == Some(0) }

  predicate SecondLevelOk(d: Next) {
    && d.protocol <= 1
    && (d.level.ta.Some? ==> d.level.ta.value & 0x10 == 0)
    && d.level.tb.None?
    && d.level.tc != Some(0)
  }

  predicate ThirdLevelOk(first: Level, d1: Next, d2: Next, norm: Norm) {
    if d2.protocol == 1 then
      && (d2.level.ta.Some? ==> 0x10 <= d2.level.ta.value < 0xff)
      && (norm == NormEmv ==> d2.level.tb.Some? && Tb3Ok(d2.level.tb.value, first.tc.GetOr(0)))
      && (d2.level.tc.Some? ==> d2.level.tc.value == 0)
    else
      d1.protocol == 0 && d2.protocol & 0x0e == 0x0e
  }

  predicate RulesOk(first: Level, more: seq<Next>, norm: Norm, warm: bool) {
    && FirstLevelOk(first, warm)
    && (|more| >= 1 ==> SecondLevelOk(more[0]))
    && (|more| == 1 ==> more[0].protocol != 1)
    && (|more| >= 2 ==> ThirdLevelOk(first, more[0], more[1], norm))
  }

  /** The parameters the ATR gives, or their defaults where it is silent. */
  function ParamsOf(first: Level, more: seq<Next>): (p: Params) {
    Params(
      first.ta.GetOr(DEFAULT_PARAMS.ta1),
      first.tc.GetOr(DEFAULT_PARAMS.tc1),
      if |more| >= 1 then more[0].level.tc.GetOr(DEFAULT_PARAMS.tc2) else DEFAULT_PARAMS.tc2,
      if |more| >= 2 && more[1].protocol == 1 then more[1].level.ta.GetOr(DEFAULT_PARAMS.ta3) else DEFAULT_PARAMS.ta3,
      if |more| >= 2 && more[1].protocol == 1 then more[1].level.tb.GetOr(DEFAULT_PARAMS.tb3) else DEFAULT_PARAMS.tb3,
      if |more| >= 2 && more[1].protocol == 1 then more[1].level.tc.GetOr(DEFAULT_PARAMS.tc3) else DEFAULT_PARAMS.tc3)
  }

  function NamedBy(more: seq<Next>): (t: set<bv8>) {
    if |more| == 0 then {0}
    else if |more| == 1 then {more[0].protocol}
    else {more[0].protocol, more[1].protocol}
  }

  function FindingsOf(first: Level, more: seq<Next>, norm: Norm, warm: bool): (f: Findings) {
    Findings(ParamsOf(first, more), !RulesOk(first, more, norm, warm), |more| >= 1 && more[0].level.ta.Some?,
      if |more| >= 1 then more[0].protocol else 0, NamedBy(more))
  }

  // ----- reading the levels off the bytes -----

  /** At most two TD bytes deep, what stands behind the indicator byte at `at`. */
  function LevelsAt(s: seq<bv8>, at: nat, depth: nat): (r: (Level, seq<Next>))
    requires at + 5 * (depth + 1) <= |s|
    ensures |r.1| <= depth
    decreases depth
  {
    PopCountSplit(s[at]);
    PopCountHigh(s[at]);
    var l := LevelAt(s, at + 1, s[at]);
    if s[at] & 0x80 == 0 || depth == 0 then (l, [])
    else
      var p := at + 1 + |LevelBytes(l)|;
      var (l', more) := LevelsAt(s, p, depth - 1);
      (l, [Next(s[p] & 0x0f, l')] + more)
  }

  lemma LevelsStep(s: seq<bv8>, len: nat, l: Level, more: seq<Next>, depth: nat)
    requires 1 + len + 5 * (depth + 1) <= |s| && Standing(s, len, l, more)
    ensures |LevelBytes(l)| <= 3
    ensures more == [] || depth == 0 ==> LevelsAt(s, 1 + len, depth) == (l, [])
    ensures more != [] && depth > 0 ==>
      var p := 2 + len + |LevelBytes(l)|;
      var next := LevelsAt(s, p, depth - 1);
      LevelsAt(s, 1 + len, depth) == (l, [Next(s[p] & 0x0f, next.0)] + next.1)
  {
    hide Y, LevelBytes, PopCount, Standing, LevelAt;
    StandingHead(s, len, l, more);
  }

  /** They are the levels of the structure that stands there. */
  lemma {:induction false} LevelsStanding(s: seq<bv8>, len: nat, l: Level, more: seq<Next>, depth: nat)
    requires 1 + len + 5 * (depth + 1) <= |s| && Standing(s, len, l, more)
    ensures LevelsAt(s, 1 + len, depth) == (l, if |more| <= depth then more else more[..depth])
    decreases depth
  {
    hide LevelBytes, Standing, LevelsAt;
    LevelsStep(s, len, l, more, depth);
    if more != [] && depth > 0 {
      var d, rest := more[0], more[1..];
      assert more == [d] + rest;
      StandingStep(s, len, l, d, rest);
      LevelsStanding(s, len + |LevelBytes(l)| + 1, d.level, rest, depth - 1);
      assert |more| > depth ==> more[..depth] == [d] + rest[..depth - 1];
    }
  }

  lemma LevelUnique(s: seq<bv8>, at: nat, y: bv8, l: Level, td: bool)
    requires y & 0xf0 == Y(l, td) && at + |LevelBytes(l)| <= |s| && s[at..at + |LevelBytes(l)|] == LevelBytes(l)
    ensures |LevelBytes(l)| == PopCount(y & 0x70) <= 3 && LevelAt(s, at, y) == l
  {
    hide PopCount, Y;
    YFacts(y, l, td);
    PopCountSplit(y);
    var w := LevelBytes(l);
    var b := Bit(l.ta.Some?);
    var c := b + Bit(l.tb.Some?);
    assert |w| == c + Bit(l.tc.Some?) && forall i :: 0 <= i < |w| ==> s[at + i] == w[i];
    assert l.ta.Some? ==> w[0] == l.ta.value;
    assert l.tb.Some? ==> w[b] == l.tb.value;
    assert l.tc.Some? ==> w[c] == l.tc.value;
  }

  lemma StandingHead(s: seq<bv8>, len: nat, l: Level, more: seq<Next>)
    requires Standing(s, len, l, more)
    ensures |LevelBytes(l)| <= 3 && 2 + len + PopCount(s[1 + len] & 0x70) <= |s|
    ensures LevelAt(s, 2 + len, s[1 + len]) == l
    ensures s[1 + len] & 0x80 != 0 <==> more != []
  {
    hide Y, LevelBytes, PopCount, Chain, LevelAt;
    var m, c := |LevelBytes(l)|, |Chain(more)|;
    YFacts(s[1 + len], l, more != []);
    assert s[2 + len..2 + len + m] == s[2 + len..2 + len + m + c][..m];
    LevelUnique(s, 2 + len, s[1 + len], l, more != []);
  }

  /** One structure only stands in the bytes. */
  lemma {:induction false} StandingUnique(s: seq<bv8>, len: nat, l: Level, more: seq<Next>, l': Level, more': seq<Next>)
    requires Standing(s, len, l, more) && Standing(s, len, l', more')
    ensures l == l' && more == more'
    decreases |more|
  {
    hide LevelBytes, Standing, LevelAt, PopCount;
    StandingHead(s, len, l, more);
    StandingHead(s, len, l', more');
    if more != [] {
      var d, rest, d', rest' := more[0], more[1..], more'[0], more'[1..];
      assert more == [d] + rest && more' == [d'] + rest';
      StandingStep(s, len, l, d, rest);
      StandingStep(s, len, l', d', rest');
      StandingUnique(s, len + |LevelBytes(l)| + 1, d.level, rest, d'.level, rest');
    }
  }

  /** Headline: the received bytes can be read as a structured ATR in one way only. */
  lemma RepresentsUnique(s: seq<bv8>, n: nat, a: Atr, b: Atr)
    requires n <= |s| && Represents(s, n, a) && Represents(s, n, b)
    ensures a == b
  {
    hide Y, LevelBytes, Chain, Standing, CheckByteOk;
    RepresentsPieces(s, n, a);
    RepresentsPieces(s, n, b);
    StandingUnique(s, 0, a.first, a.more, b.first, b.more);
    assert a.hist == b.hist;
    assert a.ts == s[..n][0] == b.ts;
    SameCheckByte(Body(a), a.tck, b.tck, Body(a)[..|Body(a)| - |Opt(a.tck)|]);
  }

  lemma SameCheckByte(body: seq<bv8>, x: Option<bv8>, y: Option<bv8>, front: seq<bv8>)
    requires body == front + Opt(x) == front + Opt(y)
    ensures x == y
  {
    assert Opt(x) == body[|front|..] == Opt(y);
  }

  lemma RepresentsParts(s: seq<bv8>, n: nat, a: Atr)
    requires n <= |s| && Represents(s, n, a)
    ensures Standing(s, 0, a.first, a.more)
  {
    RepresentsPieces(s, n, a);
  }

  /** The rules look at the first two TD bytes only. */
  lemma FindingsPrefix(first: Level, more: seq<Next>, norm: Norm, warm: bool)
    requires |more| > 2
    ensures FindingsOf(first, more[..2], norm, warm) == FindingsOf(first, more, norm, warm)
  {
  }

  /** What the reader gets out of a structured ATR is what the structure says. */
  lemma RoundTrip(s: seq<bv8>, n: nat, a: Atr, norm: Norm, warm: bool)
    requires 1 <= n && n <= |s| && |s| >= 16 && Represents(s, n, a)
    ensures var (l, more) := LevelsAt(s, 1, 2);
      FindingsOf(l, more, norm, warm) == FindingsOf(a.first, a.more, norm, warm)
  {
    hide Represents, LevelsAt, FindingsOf, Standing;
    RepresentsParts(s, n, a);
    LevelsStanding(s, 0, a.first, a.more, 2);
    if |a.more| > 2 {
      FindingsPrefix(a.first, a.more, norm, warm);
    }
  }

  // ----- the same, told over the received bytes -----

  /** 1 if bit `mask` of the indicator byte announces a byte, and 0 if not. */
  function Has(y: bv8, mask: bv8): (n: nat)
    ensures n <= 1
  {
    if y & mask != 0 then 1 else 0
  }

  /** Where TD1 stands if T0 announces it. */
  function FirstTd(s: seq<bv8>): (d: nat)
    requires |s| >= 16
    ensures 2 <= d <= 5
  {
    2 + Has(s[1], 0x10) + Has(s[1], 0x20) + Has(s[1], 0x40)
  }

  /** Where TD2 stands if TD1 announces it. */
  function SecondTd(s: seq<bv8>): (d: nat)
    requires |s| >= 16
    ensures 3 <= d <= 9
  {
    var d := FirstTd(s);
    d + 1 + Has(s[d], 0x10) + Has(s[d], 0x20) + Has(s[d], 0x40)
  }

  predicate HasFirstTd(s: seq<bv8>)
    requires |s| >= 16
  {
    s[1] & 0x80 != 0
  }

  predicate HasSecondTd(s: seq<bv8>)
    requires |s| >= 16
  {
    HasFirstTd(s) && s[FirstTd(s)] & 0x80 != 0
  }

  /** The parameters are the interface bytes at their places, or their defaults. */
  predicate ParamsAre(s: seq<bv8>, p: Params)
    requires |s| >= 16
  {
    var d1, d2 := FirstTd(s), SecondTd(s);
    var y0, y1, y2 := s[1], s[d1], s[d2];
    var t1 := HasSecondTd(s) && y2 & 0x0f == 1;
    && p.ta1 == (if y0 & 0x10 != 0 then s[2] else 0x11)
    && p.tc1 == (if y0 & 0x40 != 0 then s[2 + Has(y0, 0x10) + Has(y0, 0x20)] else 0)
    && p.tc2 == (if HasFirstTd(s) && y1 & 0x40 != 0 then s[d1 + 1 + Has(y1, 0x10) + Has(y1, 0x20)] else 10)
    && p.ta3 == (if t1 && y2 & 0x10 != 0 then s[d2 + 1] else 0x20)
    && p.tb3 == (if t1 && y2 & 0x20 != 0 then s[d2 + 1 + Has(y2, 0x10)] else 0x4D)
    && p.tc3 == (if t1 && y2 & 0x40 != 0 then s[d2 + 1 + Has(y2, 0x10) + Has(y2, 0x20)] else 0)
  }

  /** On a first reset TB1 is missing or not zero. */
  predicate FirstBroken(s: seq<bv8>, warm: bool)
    requires |s| >= 16
  {
    !warm && !(s[1] & 0x20 != 0 && s[2 + Has(s[1], 0x10)] == 0)
  }

  /** TD1 names a protocol above T=1, TA2 has bit 5, TB2 is there, TC2 is zero, or T=1 has no TD2. */
  predicate SecondBroken(s: seq<bv8>)
    requires |s| >= 16
  {
    var d := FirstTd(s);
    var y := s[d];
    || y & 0x0f > 1
    || (y & 0x10 != 0 && s[d + 1] & 0x10 != 0)
    || y & 0x20 != 0
    || (y & 0x40 != 0 && s[d + 1 + Has(y, 0x10) + Has(y, 0x20)] == 0)
    || (y & 0x80 == 0 && y & 0x0f == 1)
  }

  /** TD2 names neither T=1 nor, behind T=0, T=14 or T=15. */
  predicate ThirdMisnamed(s: seq<bv8>)
    requires |s| >= 16
  {
    var y1, y2 := s[FirstTd(s)], s[SecondTd(s)];
    y2 & 0x0f != 1 && (y1 & 0x0f != 0 || y2 & 0x0e != 0x0e)
  }

  /** Under T=1: TA3 is below 16 or 255, TC3 is not zero, or under EMV TB3 is missing, too large or at odds with TC1. */
  predicate ThirdBroken(s: seq<bv8>, norm: Norm)
    requires |s| >= 16
  {
    var d := SecondTd(s);
    var y := s[d];
    var b, c := d + 1 + Has(y, 0x10), d + 1 + Has(y, 0x10) + Has(y, 0x20);
    var tc1 := if s[1] & 0x40 != 0 then s[2 + Has(s[1], 0x10) + Has(s[1], 0x20)] else 0;
    && y & 0x0f == 1
    && (|| (y & 0x10 != 0 && (s[d + 1] < 0x10 || s[d + 1] == 0xff))
        || (y & 0x40 != 0 && s[c] != 0)
        || (norm == NormEmv && (y & 0x20 == 0 || WaitingTimeBad(s[b], tc1))))
  }

  predicate WaitingTimeBad(tb3: bv8, tc1: bv8) {
    || tb3 > 0x45 || tb3 & 0x0f > 5
    || (tc1 != 0xff && (1 as bv32 << (tb3 & 0x0f)) as int <= tc1 as int + 1)
  }

  /** Some rule is broken. */
  predicate Breaks(s: seq<bv8>, norm: Norm, warm: bool)
    requires |s| >= 16
  {
    || FirstBroken(s, warm)
    || (HasFirstTd(s) && SecondBroken(s))
    || (HasSecondTd(s) && (ThirdMisnamed(s) || ThirdBroken(s, norm)))
  }

  /** The optional bytes of a level, one behind the other. */
  predicate LevelIs(s: seq<bv8>, at: nat, y: bv8, l: Level)
    requires at + 4 <= |s|
  {
    && l.ta == (if y & 0x10 != 0 then Some(s[at]) else None)
    && l.tb == (if y & 0x20 != 0 then Some(s[at + Has(y, 0x10)]) else None)
    && l.tc == (if y & 0x40 != 0 then Some(s[at + Has(y, 0x10) + Has(y, 0x20)]) else None)
  }

  lemma LevelAtIs(s: seq<bv8>, at: nat, y: bv8)
    requires at + 4 <= |s|
    ensures PopCount(y & 0x70) <= 3 && LevelIs(s, at, y, LevelAt(s, at, y))
    ensures |LevelBytes(LevelAt(s, at, y))| == Has(y, 0x10) + Has(y, 0x20) + Has(y, 0x40)
  {
  }

  /** The levels read off are those at the places told. */
  predicate LevelsAre(s: seq<bv8>, first: Level, more: seq<Next>)
    requires |s| >= 16
  {
    var d1, d2 := FirstTd(s), SecondTd(s);
    && LevelIs(s, 2, s[1], first)
    && |more| == (if HasSecondTd(s) then 2 else if HasFirstTd(s) then 1 else 0)
    && (|more| >= 1 ==> more[0].protocol == s[d1] & 0x0f && LevelIs(s, d1 + 1, s[d1], more[0].level))
    && (|more| >= 2 ==> more[1].protocol == s[d2] & 0x0f && LevelIs(s, d2 + 1, s[d2], more[1].level))
  }

  /** Level by level, with the next TD byte where the bytes of this level end. */
  lemma LevelsAtStep(s: seq<bv8>, at: nat, depth: nat)
    requires at + 5 * (depth + 1) <= |s|
    ensures var r, p := LevelsAt(s, at, depth), at + 1 + Has(s[at], 0x10) + Has(s[at], 0x20) + Has(s[at], 0x40);
      && LevelIs(s, at + 1, s[at], r.0)
      && if s[at] & 0x80 == 0 || depth == 0 then r.1 == []
         else
           var next := LevelsAt(s, p, depth - 1);
           r.1 == [Next(s[p] & 0x0f, next.0)] + next.1
  {
    hide PopCount, LevelAt, LevelBytes, LevelsAt, LevelIs, Has;
    LevelAtIs(s, at + 1, s[at]);
    LevelsUnfold(s, at, depth, LevelAt(s, at + 1, s[at]));
  }

  lemma LevelsTold(s: seq<bv8>)
    requires |s| >= 16
    ensures LevelsAre(s, LevelsAt(s, 1, 2).0, LevelsAt(s, 1, 2).1)
  {
    hide LevelsAt, LevelIs, Has;
    LevelsAtStep(s, 1, 2);
    LevelsAtStep(s, FirstTd(s), 1);
    LevelsAtStep(s, SecondTd(s), 0);
  }

  lemma ParamsTold(s: seq<bv8>, first: Level, more: seq<Next>)
    requires |s| >= 16 && LevelsAre(s, first, more)
    ensures ParamsAre(s, ParamsOf(first, more))
  {
    hide Has, FirstTd, SecondTd;
  }

  lemma PowerTold(e: bv8)
    requires e <= 5
    ensures PowerOfTwo(e) == (1 as bv32 << e) as int
  {
  }

  lemma WaitingTold(tb3: bv8, tc1: bv8)
    ensures Tb3Ok(tb3, tc1) <==> !WaitingTimeBad(tb3, tc1)
  {
    hide PowerOfTwo;
    if tb3 & 0x0f <= 5 { PowerTold(tb3 & 0x0f); }
  }

  lemma SecondTold(s: seq<bv8>, d: Next)
    requires |s| >= 16
    requires var at := FirstTd(s); d.protocol == s[at] & 0x0f && LevelIs(s, at + 1, s[at], d.level)
    ensures SecondBroken(s) <==> !SecondLevelOk(d) || (s[FirstTd(s)] & 0x80 == 0 && d.protocol == 1)
  {
    hide Has, FirstTd;
  }

  lemma ThirdTold(s: seq<bv8>, first: Level, d1: Next, d2: Next, norm: Norm)
    requires |s| >= 16 && LevelIs(s, 2, s[1], first) && d1.protocol == s[FirstTd(s)] & 0x0f
    requires var at := SecondTd(s); d2.protocol == s[at] & 0x0f && LevelIs(s, at + 1, s[at], d2.level)
    ensures ThirdMisnamed(s) || ThirdBroken(s, norm) <==> !ThirdLevelOk(first, d1, d2, norm)
  {
    hide Has, FirstTd, SecondTd, Tb3Ok, WaitingTimeBad;
    if d2.level.tb.Some? { WaitingTold(d2.level.tb.value, first.tc.GetOr(0)); }
    NibbleMask(d2.protocol, s[SecondTd(s)]);
  }

  lemma NibbleMask(p: bv8, y: bv8)
    requires p == y & 0x0f
    ensures p & 0x0e == y & 0x0e
  {
  }

  lemma BreaksTold(s: seq<bv8>, first: Level, more: seq<Next>, norm: Norm, warm: bool)
    requires |s| >= 16 && LevelsAre(s, first, more)
    ensures Breaks(s, norm, warm) <==> !RulesOk(first, more, norm, warm)
  {
    hide Has, FirstTd, SecondTd, SecondBroken, ThirdMisnamed, ThirdBroken, SecondLevelOk, ThirdLevelOk;
    if |more| >= 1 { SecondTold(s, more[0]); }
    if |more| >= 2 { ThirdTold(s, first, more[0], more[1], norm); }
  }

  /**
   Headline: parameters, rules, protocols and the mode of the card are those of the received bytes, each at the
   place that the indicator bytes before it give.
   */
  lemma FindingsTold(s: seq<bv8>, norm: Norm, warm: bool)
    requires |s| >= 16
    ensures var f := FindingsOf(LevelsAt(s, 1, 2).0, LevelsAt(s, 1, 2).1, norm, warm);
      && ParamsAre(s, f.params) && (f.broken <==> Breaks(s, norm, warm))
      && (f.specific <==> HasFirstTd(s) && s[FirstTd(s)] & 0x10 != 0)
      && f.t1 == (if HasFirstTd(s) then s[FirstTd(s)] & 0x0f else 0)
      && f.named == {f.t1} + (if HasSecondTd(s) then {s[SecondTd(s)] & 0x0f} else {})
  {
    hide LevelsAt, ParamsAre, Breaks, RulesOk, ParamsOf, Has, FirstTd, SecondTd;
    LevelsTold(s);
    var first, more := LevelsAt(s, 1, 2).0, LevelsAt(s, 1, 2).1;
    ParamsTold(s, first, more);
    BreaksTold(s, first, more, norm, warm);
  }

  // ----- the pointer walk of AnalyseATR -----

  /** The optional bytes of one level, taken off the store one by one. */
  method TakeLevel(s: seq<bv8>, at: nat, y: bv8) returns (l: Level, ptr: nat)
    requires at + 4 <= |s|
    ensures PopCount(y & 0x70) <= 3 && l == LevelAt(s, at, y) && ptr == at + |LevelBytes(l)| <= at + 3
  {
    ptr := at;
    l := Level(None, None, None);
    if y & 0x10 != 0 { l, ptr := l.(ta := Some(s[ptr])), ptr + 1; }
    if y & 0x20 != 0 { l, ptr := l.(tb := Some(s[ptr])), ptr + 1; }
    if y & 0x40 != 0 { l, ptr := l.(tc := Some(s[ptr])), ptr + 1; }
  }

  lemma LevelsUnfold(s: seq<bv8>, at: nat, depth: nat, l: Level)
    requires at + 5 * (depth + 1) <= |s| && PopCount(s[at] & 0x70) <= 3 && l == LevelAt(s, at + 1, s[at])
    ensures |LevelBytes(l)| <= 3
    ensures s[at] & 0x80 == 0 || depth == 0 ==> LevelsAt(s, at, depth) == (l, [])
    ensures s[at] & 0x80 != 0 && depth > 0 ==>
      var p := at + 1 + |LevelBytes(l)|;
      var next := LevelsAt(s, p, depth - 1);
      LevelsAt(s, at, depth) == (l, [Next(s[p] & 0x0f, next.0)] + next.1)
  {
    hide PopCount, LevelBytes;
  }

  /** The first three levels, as far as TD bytes announce them. */
  method TakeLevels(s: seq<bv8>) returns (first: Level, more: seq<Next>)
    requires |s| >= 16
    ensures (first, more) == LevelsAt(s, 1, 2)
  {
    hide PopCount, LevelAt, LevelBytes, LevelsAt;
    var ptr, ptr2, end, l2, l3 := 0, 0, 0, Level(None, None, None), Level(None, None, None);
    first, ptr := TakeLevel(s, 2, s[1]);
    LevelsUnfold(s, 1, 2, first);
    if s[1] & 0x80 == 0 { return first, []; }
    l2, ptr2 := TakeLevel(s, ptr + 1, s[ptr]);
    LevelsUnfold(s, ptr, 1, l2);
    if s[ptr] & 0x80 == 0 { return first, [Next(s[ptr] & 0x0f, l2)] + []; }
    l3, end := TakeLevel(s, ptr2 + 1, s[ptr2]);
    LevelsUnfold(s, ptr2, 0, l3);
    more := [Next(s[ptr] & 0x0f, l2)] + ([Next(s[ptr2] & 0x0f, l3)] + []);
  }

  method JudgeSecond(d: Next) returns (broken: bool)
    ensures broken == !SecondLevelOk(d)
  {
    broken := false;
    if d.protocol > 1 { broken := true; }
    if d.level.ta.Some? && d.level.ta.value & 0x10 != 0 { broken := true; }
    if d.level.tb.Some? { broken := true; }
    if d.level.tc.Some? && d.level.tc.value == 0 { broken := true; }
  }

  method JudgeThird(first: Level, d1: Next, d2: Next, norm: Norm) returns (broken: bool)
    ensures broken == !ThirdLevelOk(first, d1, d2, norm)
  {
    broken := false;
    if d2.protocol != 1 && (d1.protocol != 0 || d2.protocol & 0x0e != 0x0e) { broken := true; }
    if d2.protocol == 1 {
      if d2.level.ta.Some? && (d2.level.ta.value < 0x10 || d2.level.ta.value == 0xff) { broken := true; }
      if d2.level.tb.Some? {
        if norm == NormEmv && !Tb3Ok(d2.level.tb.value, first.tc.GetOr(0)) { broken := true; }
      } else if norm == NormEmv { broken := true; }
      if d2.level.tc.Some? && d2.level.tc.value != 0 { broken := true; }
    }
  }

  /** The part of `AnalyseATR` that follows a successful `check_len`. */
  method TakeFields(s: seq<bv8>, norm: Norm, warm: bool) returns (f: Findings)
    requires |s| >= 16
    ensures f == FindingsOf(LevelsAt(s, 1, 2).0, LevelsAt(s, 1, 2).1, norm, warm)
  {
    hide LevelsAt, SecondLevelOk, ThirdLevelOk;
    var first, more := TakeLevels(s);
    var p := DEFAULT_PARAMS.(ta1 := first.ta.GetOr(DEFAULT_PARAMS.ta1), tc1 := first.tc.GetOr(DEFAULT_PARAMS.tc1));
    var broken := !warm && (first.tb.None? || first.tb.value != 0);
    if more == [] { return Findings(p, broken, false, 0, {0}); }
    var bad := JudgeSecond(more[0]);
    broken := broken || bad;
    p := p.(tc2 := more[0].level.tc.GetOr(p.tc2));
    var specific, t1 := more[0].level.ta.Some?, more[0].protocol;
    if |more| == 1 { return Findings(p, broken || t1 == 1, specific, t1, {t1}); }
    bad := JudgeThird(first, more[0], more[1], norm);
    broken := broken || bad;
    if more[1].protocol == 1 {
      var l := more[1].level;
      p := p.(ta3 := l.ta.GetOr(p.ta3), tb3 := l.tb.GetOr(p.tb3), tc3 := l.tc.GetOr(p.tc3));
    }
    return Findings(p, broken, specific, t1, {t1, more[1].protocol});
  }
}
