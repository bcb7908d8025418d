/**
 The Answer-to-Reset as section 8.2 of ISO/IEC 7816-3 structures it, and `CBaseReader::check_len`,
 which decides whether received bytes are one.
 */
module Atr {
  import opened Bytes

  // ----- the structure -----

  /** The optional interface bytes TAi, TBi, TCi of one level. */
  datatype Level = Level(ta: Option<bv8>, tb: Option<bv8>, tc: Option<bv8>)

  /** A level that a TD byte announces, with the protocol number that TD byte names. */
  datatype Next = Next(protocol: bv8, level: Level)

  datatype Atr = Atr(ts: bv8, first: Level, more: seq<Next>, hist: seq<bv8>, tck: Option<bv8>)

  function Opt(b: Option<bv8>): (s: seq<bv8>) { if b.Some? then [b.value] else [] }

  function LevelBytes(l: Level): (s: seq<bv8>) { Opt(l.ta) + Opt(l.tb) + Opt(l.tc) }

  /** The indicator bits Y of a level, with bit 8 for the TD byte behind it. */
  function Y(l: Level, td: bool): (y: bv8) {
    (if l.ta.Some? then 0x10 else 0) | (if l.tb.Some? then 0x20 else 0)
    | (if l.tc.Some? then 0x40 else 0) | (if td then 0x80 else 0)
  }

  /** The TD bytes and the levels they announce. */
  function Chain(more: seq<Next>): (s: seq<bv8>) {
    if more == [] then []
    else [Joined(Y(more[0].level, |more| > 1), more[0].protocol)] + (LevelBytes(more[0].level) + Chain(more[1..]))
  }

  function Interface(a: Atr): (s: seq<bv8>) { LevelBytes(a.first) + Chain(a.more) }

  predicate WellFormed(a: Atr) {
    |a.hist| < 16 && forall i :: 0 <= i < |a.more| ==> a.more[i].protocol < 16
  }

  /** All bytes but TS: what the check byte covers. */
  function Body(a: Atr): (s: seq<bv8>)
    requires WellFormed(a)
  {
    [Y(a.first, a.more != []) | (|a.hist| as bv8)] + Interface(a) + a.hist + Opt(a.tck)
  }

  function Serialize(a: Atr): (s: seq<bv8>)
    requires WellFormed(a)
  {
    [a.ts] + Body(a)
  }

  /** Some TD byte names a protocol other than T=0. */
  predicate NamesOther(more: seq<Next>) {
    exists i :: 0 <= i < |more| && more[i].protocol != 0
  }

  /** Section 8.2.5: TCK makes the XOR zero; it is there when a protocol other than T=0 is named. */
  predicate CheckByteOk(a: Atr)
    requires WellFormed(a)
  {
    && (NamesOther(a.more) ==> a.tck.Some?)
    && (a.tck.Some? ==> Xor(Body(a)) == 0)
  }

  // ----- the walk of check_len -----

  function Bit(b: bool): nat { if b then 1 else 0 }

  /** Number of set bits. */
  function PopCount(v: bv8): nat {
    Bit(v & 1 != 0) + Bit(v & 2 != 0) + Bit(v & 4 != 0) + Bit(v & 8 != 0)
    + Bit(v & 16 != 0) + Bit(v & 32 != 0) + Bit(v & 64 != 0) + Bit(v & 128 != 0)
  }

  method GetBits(value: bv8) returns (res: nat)
    ensures res == PopCount(value)
  {
    var v := value;
    res := 0;
    while v != 0
      invariant res + PopCount(v) == PopCount(value)
      decreases v
    {
      if v & 1 != 0 { res := res + 1; }
      v := v >> 1;
    }
  }

  /** Interface bytes seen, whether another protocol was named, and where the historical bytes start. */
  datatype Walked = Walked(len: nat, other: bool, hist: Option<nat>)

  /** The walk from the indicator byte at `1 + len`, with `n` bytes received into the store `s`. */
  function Walk(s: seq<bv8>, n: nat, len: nat, other: bool): (w: Walked)
    requires len <= n && n + 2 <= |s|
    ensures w.len >= len && (w.hist.None? ==> w.len == n) && (w.hist.Some? ==> w.hist.value == 2 + w.len)
    decreases n - len
  {
    var y := s[1 + len];
    var len' := len + PopCount(y & 0xf0);
    if n >= len' && y & 0x80 != 0 then
      var other' := other || s[1 + len'] & 0x0f != 0;
      if n > len' then Walk(s, n, len', other') else Walked(len', other', None)
    else Walked(len', other, Some(2 + len'))
  }

  lemma YFacts(y: bv8, l: Level, td: bool)
    requires y & 0xf0 == Y(l, td)
    ensures y & 0x80 != 0 <==> td
    ensures y & 0x10 != 0 <==> l.ta.Some?
    ensures y & 0x20 != 0 <==> l.tb.Some?
    ensures y & 0x40 != 0 <==> l.tc.Some?
    ensures PopCount(y & 0xf0) == |LevelBytes(l)| + Bit(td)
  {
  }

  function High(y: bv8): bv8 { y & 0xf0 }
  function Low(y: bv8): bv8 { y & 0x0f }
  function Joined(high: bv8, low: bv8): bv8 { high | low }

  /** An indicator byte is its high bits and its low nibble. */
  lemma TdByte(y: bv8, high: bv8, low: bv8)
    requires Low(high) == 0
    ensures low < 16 && y == Joined(high, low) <==> High(y) == high && Low(y) == low
  {
  }

  lemma YHigh(l: Level, td: bool)
    ensures Y(l, td) & 0x0f == 0 && Low(Y(l, td)) == 0
  {
  }

  lemma NamesOtherStep(d: Next, more: seq<Next>)
    ensures NamesOther([d] + more) <==> d.protocol != 0 || NamesOther(more)
  {
    assert forall i :: 1 <= i < |[d] + more| ==> ([d] + more)[i] == more[i - 1];
    if NamesOther(more) {
      var i :| 0 <= i < |more| && more[i].protocol != 0;
      assert ([d] + more)[i + 1].protocol != 0;
    }
    if d.protocol != 0 {
      assert ([d] + more)[0].protocol != 0;
    }
  }

  /** The level whose presence bits are those of `y` and whose bytes stand at `at`. */
  function LevelAt(s: seq<bv8>, at: nat, y: bv8): (l: Level)
    requires at + PopCount(y & 0x70) <= |s|
    ensures Y(l, y & 0x80 != 0) == y & 0xf0
    ensures LevelBytes(l) == s[at..at + PopCount(y & 0x70)]
  {
    var b := at + Bit(y & 0x10 != 0);
    var c := b + Bit(y & 0x20 != 0);
    Level(if y & 0x10 != 0 then Some(s[at]) else None,
      if y & 0x20 != 0 then Some(s[b]) else None,
      if y & 0x40 != 0 then Some(s[c]) else None)
  }

  /** The level `l` and the levels `more` stand in `s`, their indicator bits at `1 + len`. */
  predicate Standing(s: seq<bv8>, len: nat, l: Level, more: seq<Next>) {
    var size := |LevelBytes(l)| + |Chain(more)|;
    && (forall i :: 0 <= i < |more| ==> more[i].protocol < 16)
    && 2 + len + size <= |s|
    && High(s[1 + len]) == Y(l, more != [])
    && s[2 + len..2 + len + size] == LevelBytes(l) + Chain(more)
  }

  /** Peeling off one level. */
  lemma StandingStep(s: seq<bv8>, len: nat, l: Level, d: Next, more: seq<Next>)
    ensures Standing(s, len, l, [d] + more) <==>
      var m := |LevelBytes(l)|;
      && 2 + len + m < |s|
      && High(s[1 + len]) == Y(l, true)
      && s[2 + len..2 + len + m] == LevelBytes(l)
      && Low(s[2 + len + m]) == d.protocol
      && Standing(s, len + m + 1, d.level, more)
  {
    hide Y, LevelBytes, Chain, High, Low, Joined;
    var m, all, len' := |LevelBytes(l)|, [d] + more, len + |LevelBytes(l)| + 1;
    var rest := LevelBytes(d.level) + Chain(more);
    var td := Joined(Y(d.level, more != []), d.protocol);
    ChainStep(d, more);
    assert LevelBytes(l) + ([td] + rest) == LevelBytes(l) + [td] + rest;
    YHigh(d.level, more != []);
    Protocols(d, more);
    if 2 + len' + |rest| <= |s| {
      TdByte(s[1 + len'], Y(d.level, more != []), d.protocol);
      SplitAround(s, 2 + len, LevelBytes(l), td, rest);
    }
  }

  lemma {:induction false} ChainStep(d: Next, more: seq<Next>)
    ensures Chain([d] + more) == [Joined(Y(d.level, more != []), d.protocol)] + (LevelBytes(d.level) + Chain(more))
  {
    hide Y, LevelBytes, Joined;
    assert ([d] + more)[1..] == more;
  }

  lemma Protocols(d: Next, more: seq<Next>)
    ensures (forall i :: 0 <= i < |[d] + more| ==> ([d] + more)[i].protocol < 16) <==>
              d.protocol < 16 && forall i :: 0 <= i < |more| ==> more[i].protocol < 16
  {
    var all := [d] + more;
    assert all[0] == d;
    assert forall i :: 0 <= i < |more| ==> all[i + 1] == more[i];
    assert forall i :: 1 <= i < |all| ==> all[i] == more[i - 1];
  }

  lemma WalkStep(s: seq<bv8>, n: nat, len: nat, other: bool, l: Level, td: bool)
    requires len <= n && n + 2 <= |s| && s[1 + len] & 0xf0 == Y(l, td)
    ensures var len' := len + |LevelBytes(l)| + Bit(td);
      Walk(s, n, len, other) ==
        if td && n >= len' then
          var other' := other || s[1 + len'] & 0x0f != 0;
          if n > len' then Walk(s, n, len', other') else Walked(len', other', None)
        else Walked(len', other, Some(2 + len'))
  {
    hide PopCount, Y, LevelBytes;
    YFacts(s[1 + len], l, td);
  }

  /** Over a structured ATR the walk finds all interface bytes and the start of the historical bytes. */
  lemma {:induction false} WalkForward(s: seq<bv8>, n: nat, len: nat, other: bool, l: Level, more: seq<Next>)
    requires n + 2 <= |s| && Standing(s, len, l, more) && 2 + len + |LevelBytes(l)| + |Chain(more)| <= n
    ensures var size := |LevelBytes(l)| + |Chain(more)|;
      Walk(s, n, len, other) == Walked(len + size, other || NamesOther(more), Some(2 + len + size))
    decreases |more|
  {
    hide Walk, Y, LevelBytes, NamesOther;
    WalkStep(s, n, len, other, l, more != []);
    if more == [] {
      NamesNone();
    } else {
      var d, rest := more[0], more[1..];
      assert more == [d] + rest;
      StandingStep(s, len, l, d, rest);
      NamesOtherStep(d, rest);
      WalkForward(s, n, len + |LevelBytes(l)| + 1, other || d.protocol != 0, d.level, rest);
    }
  }

  lemma StandingLast(s: seq<bv8>, len: nat, l: Level)
    requires 2 + len + |LevelBytes(l)| <= |s| && s[1 + len] & 0xf0 == Y(l, false)
    requires s[2 + len..2 + len + |LevelBytes(l)|] == LevelBytes(l)
    ensures Chain([]) == [] && Standing(s, len, l, [])
  {
    hide Y, LevelBytes;
    assert LevelBytes(l) + [] == LevelBytes(l);
  }

  lemma NamesNone()
    ensures !NamesOther([])
  {
  }

  /** Wherever the walk ends inside what was received, it has walked over a structure. */
  lemma {:induction false} WalkBackward(s: seq<bv8>, n: nat, len: nat, other: bool) returns (l: Level, more: seq<Next>)
    requires len <= n && n + 2 <= |s|
    requires Walk(s, n, len, other).hist.Some? && Walk(s, n, len, other).len <= n
    ensures var w := Walk(s, n, len, other);
      && Standing(s, len, l, more)
      && w.len == len + |LevelBytes(l)| + |Chain(more)|
      && w.other == (other || NamesOther(more))
    decreases n - len
  {
    hide Walk, PopCount, Y, LevelBytes, NamesOther, Chain, Standing;
    var y := s[1 + len];
    PopCountSplit(y);
    WalkSize(s, n, len, other);
    l := LevelAt(s, 2 + len, y);
    WalkStep(s, n, len, other, l, y & 0x80 != 0);
    var m := |LevelBytes(l)|;
    if y & 0x80 == 0 {
      more := [];
      NamesNone();
      StandingLast(s, len, l);
    } else {
      var td := s[2 + len + m];
      var l', more' := WalkBackward(s, n, len + m + 1, other || td & 0x0f != 0);
      var d := Next(td & 0x0f, l');
      StandingStep(s, len, l, d, more');
      NamesOtherStep(d, more');
      ChainStep(d, more');
      more := [d] + more';
    }
  }

  lemma WalkSize(s: seq<bv8>, n: nat, len: nat, other: bool)
    requires len <= n && n + 2 <= |s|
    ensures Walk(s, n, len, other).len >= len + PopCount(s[1 + len] & 0xf0)
  {
    hide PopCount;
  }

  lemma PopCountSplit(y: bv8)
    ensures PopCount(y & 0xf0) == PopCount(y & 0x70) + Bit(y & 0x80 != 0)
  {
  }

  // ----- check_len -----

  /** Number of historical bytes announced by T0. */
  function Announced(s: seq<bv8>): (k: nat)
    requires |s| > 1
    ensures k < 16
  {
    (s[1] & 0x0f) as int
  }

  /** 1: accepted, 0: wrong check byte, 2: wrong length. */
  function CheckLenResult(s: seq<bv8>, n: nat): int
    requires 1 <= n && n + 2 <= |s|
  {
    var w := Walk(s, n, 0, false);
    var size := w.len + Announced(s) + 2;
    if w.other || n == size + 1 then (if Xor(s[1..n]) == 0 then 1 else 0)
    else if n == size then 1
    else 2
  }

  /** With another protocol named, or one byte more than announced, the XOR decides; otherwise the length does. */
  lemma RefusalTold(s: seq<bv8>, n: nat)
    requires 1 <= n && n + 2 <= |s|
    ensures var w := Walk(s, n, 0, false);
      var size := 2 + w.len + (s[1] & 0x0f) as int;
      && (CheckLenResult(s, n) == 0 <==> (w.other || n == size + 1) && Xor(s[1..n]) != 0)
      && (CheckLenResult(s, n) == 2 <==> !w.other && n != size && n != size + 1)
      && 0 <= CheckLenResult(s, n) <= 2
  {
    hide Walk, Xor;
  }

  /** The first `n` bytes of the store are the structured ATR `a`, with a correct check byte. */
  predicate Represents(s: seq<bv8>, n: nat, a: Atr)
    requires n <= |s|
  {
    WellFormed(a) && CheckByteOk(a) && Serialize(a) == s[..n]
  }

  lemma RepresentsPieces(s: seq<bv8>, n: nat, a: Atr)
    requires n <= |s| && WellFormed(a) && Serialize(a) == s[..n]
    ensures var size := |LevelBytes(a.first)| + |Chain(a.more)|;
      && n == 2 + size + |a.hist| + |Opt(a.tck)|
      && Standing(s, 0, a.first, a.more)
      && Announced(s) == |a.hist|
      && s[2 + size..2 + size + |a.hist|] == a.hist
      && s[1..n] == Body(a)
  {
    hide Y, LevelBytes, Chain, Xor, Standing, Interface;
    var t0 := Y(a.first, a.more != []) | (|a.hist| as bv8);
    Slices(s, n, a.ts, t0, Interface(a), a.hist, Opt(a.tck));
    HeadStands(s, a);
  }

  lemma HeadStands(s: seq<bv8>, a: Atr)
    requires WellFormed(a) && 2 + |Interface(a)| <= |s|
    requires s[1] == Y(a.first, a.more != []) | (|a.hist| as bv8) && s[2..2 + |Interface(a)|] == Interface(a)
    ensures Standing(s, 0, a.first, a.more) && Announced(s) == |a.hist|
    ensures |Interface(a)| == |LevelBytes(a.first)| + |Chain(a.more)|
  {
    hide Y, LevelBytes, Chain;
    YHigh(a.first, a.more != []);
    SmallNibble(Y(a.first, a.more != []), |a.hist|);
    StandingIntro(s, a.first, a.more);
  }

  lemma StandingIntro(s: seq<bv8>, l: Level, more: seq<Next>)
    requires 2 + |LevelBytes(l) + Chain(more)| <= |s| && s[1] & 0xf0 == Y(l, more != [])
    requires s[2..2 + |LevelBytes(l) + Chain(more)|] == LevelBytes(l) + Chain(more)
    requires forall i :: 0 <= i < |more| ==> more[i].protocol < 16
    ensures Standing(s, 0, l, more)
  {
    hide Y, LevelBytes, Chain;
  }

  lemma Join(s: seq<bv8>, at: nat, k: nat, n: nat)
    requires 2 <= at && at + k <= n <= |s|
    ensures s[1..n] == [s[1]] + s[2..at] + s[at..at + k] + s[at + k..n]
  {
    assert s[1..n] == s[1..at + k] + s[at + k..n];
    assert s[1..at + k] == s[1..at] + s[at..at + k];
    assert s[1..at] == [s[1]] + s[2..at];
  }

  lemma SmallNibble(high: bv8, k: nat)
    requires k < 16 && high & 0x0f == 0
    ensures var y := high | (k as bv8); y & 0xf0 == high && (y & 0x0f) as int == k
  {
  }

  lemma Slices(s: seq<bv8>, n: nat, ts: bv8, t0: bv8, i: seq<bv8>, h: seq<bv8>, c: seq<bv8>)
    requires n <= |s| && s[..n] == [ts] + ([t0] + i + h + c)
    ensures n == 2 + |i| + |h| + |c| && s[1] == t0 && s[1..n] == [t0] + i + h + c
    ensures s[2..2 + |i|] == i && s[2 + |i|..2 + |i| + |h|] == h
  {
    var b, w := [t0] + i + h + c, s[..n];
    assert |w| == 1 + |b|;
    assert w[1..] == b && s[1..n] == w[1..];
    assert b[0] == t0 && b[1..1 + |i|] == i && b[1 + |i|..1 + |i| + |h|] == h;
    assert s[2..2 + |i|] == b[1..1 + |i|] && s[2 + |i|..2 + |i| + |h|] == b[1 + |i|..1 + |i| + |h|];
    assert s[1] == b[0];
  }

  /** Every structured ATR is accepted, with its historical bytes found at the right place. */
  lemma AcceptsStructured(s: seq<bv8>, n: nat, a: Atr)
    requires 1 <= n && n + 2 <= |s| && Represents(s, n, a)
    ensures CheckLenResult(s, n) == 1
    ensures Announced(s) == |a.hist|
    ensures var w := Walk(s, n, 0, false);
      && w.hist == Some(2 + |Interface(a)|) && w.other == NamesOther(a.more)
      && s[2 + |Interface(a)|..2 + |Interface(a)| + |a.hist|] == a.hist
      && n == w.len + Announced(s) + 2 + |Opt(a.tck)|
  {
    hide Y, LevelBytes, Chain, Walk, Serialize, Xor, NamesOther;
    RepresentsPieces(s, n, a);
    WalkForward(s, n, 0, false, a.first, a.more);
  }

  lemma LowNibble(y: bv8)
    ensures var k := (y & 0x0f) as int; k < 16 && y == (y & 0xf0) | (k as bv8)
  {
  }

  /** A store cut into T0, interface bytes, historical bytes and check byte is a serialised ATR. */
  lemma Reassemble(s: seq<bv8>, n: nat, a: Atr)
    requires |s| > 1
    requires var at, k := 2 + |LevelBytes(a.first)| + |Chain(a.more)|, Announced(s);
      && at + k <= n <= at + k + 1 && n <= |s|
      && Standing(s, 0, a.first, a.more)
      && a.ts == s[0] && a.hist == s[at..at + k]
      && a.tck == if n == at + k then None else Some(s[n - 1])
    ensures WellFormed(a) && Body(a) == s[1..n]
  {
    hide Y, LevelBytes, Chain, Xor;
    var at, k := 2 + |LevelBytes(a.first)| + |Chain(a.more)|, Announced(s);
    LowNibble(s[1]);
    assert Opt(a.tck) == s[at + k..n];
    assert Interface(a) == s[2..at];
    Join(s, at, k, n);
  }

  /** Whatever is accepted with the announced length is a structured ATR. */
  lemma AcceptedIsStructured(s: seq<bv8>, n: nat) returns (a: Atr)
    requires 1 <= n && n + 2 <= |s| && CheckLenResult(s, n) == 1
    requires Walk(s, n, 0, false).other ==> n == Walk(s, n, 0, false).len + Announced(s) + 3
    ensures Represents(s, n, a)
  {
    hide Y, LevelBytes, Chain, Walk, Xor, NamesOther, Standing, Body, WellFormed;
    var w, k := Walk(s, n, 0, false), Announced(s);
    var l, more := WalkBackward(s, n, 0, false);
    var at := 2 + w.len;
    a := Atr(s[0], l, more, s[at..at + k], if n == at + k then None else Some(s[n - 1]));
    Reassemble(s, n, a);
    assert s[..n] == [s[0]] + s[1..n];
  }

  /**
   Headline: the received bytes are a structured ATR exactly when `check_len` returns 1 and, where a
   protocol other than T=0 is named, the length is the announced one. (With another protocol named
   `check_len` itself looks at the XOR only.)
   */
  lemma CheckLenExact(s: seq<bv8>, n: nat)
    requires 1 <= n && n + 2 <= |s|
    ensures (exists a :: Represents(s, n, a)) <==>
      && CheckLenResult(s, n) == 1
      && var w := Walk(s, n, 0, false);
         w.other ==> n == w.len + Announced(s) + 3
  {
    hide Represents, CheckLenResult, Walk;
    if exists a :: Represents(s, n, a) {
      var a :| Represents(s, n, a);
      AcceptsStructured(s, n, a);
      OtherHasCheckByte(s, n, a);
    }
    if CheckLenResult(s, n) == 1 && (Walk(s, n, 0, false).other ==> n == Walk(s, n, 0, false).len + Announced(s) + 3) {
      var a := AcceptedIsStructured(s, n);
    }
  }

  lemma OtherHasCheckByte(s: seq<bv8>, n: nat, a: Atr)
    requires n <= |s| && Represents(s, n, a)
    ensures NamesOther(a.more) ==> |Opt(a.tck)| == 1
  {
  }

  /** With T=1 named, bytes that cancel out under XOR may follow a complete ATR and it is still accepted. */
  lemma TrailingBytesAccepted()
    ensures var s: seq<bv8> := [0x3B, 0x80, 0x01, 0x81, 0x55, 0x55, 0x00, 0x00];
      CheckLenResult(s, 6) == 1 && !exists a :: Represents(s, 6, a)
  {
    hide Represents, Xor, Walk;
    var s: seq<bv8> := [0x3B, 0x80, 0x01, 0x81, 0x55, 0x55, 0x00, 0x00];
    TrailingWalk(s);
    TrailingXor();
    assert s[1..6] == [0x80, 0x01, 0x81, 0x55, 0x55];
    CheckLenExact(s, 6);
  }

  lemma TrailingWalk(s: seq<bv8>)
    requires s == [0x3B, 0x80, 0x01, 0x81, 0x55, 0x55, 0x00, 0x00]
    ensures Walk(s, 6, 0, false) == Walked(1, true, Some(3))
  {
    assert Walk(s, 6, 1, true) == Walked(1, true, Some(3));
  }

  lemma TrailingXor()
    ensures Xor([0x80, 0x01, 0x81, 0x55, 0x55]) == 0
  {
    var x: seq<bv8> := [0x80, 0x01, 0x81, 0x55, 0x55];
    assert x[..4] == [0x80, 0x01, 0x81, 0x55] && x[..4][..3] == [0x80, 0x01, 0x81];
    assert [0x80, 0x01, 0x81][..2] == [0x80, 0x01] && [0x80, 0x01][..1] == [0x80] && [0x80][..0] == [];
    assert Xor([0x80]) == 0x80 && Xor([0x80, 0x01]) == 0x81 && Xor([0x80, 0x01, 0x81]) == 0;
    assert Xor([0x80, 0x01, 0x81, 0x55]) == 0x55;
  }

  /** The LRC loop over bytes 1 to n-1. */
  method Lrc(s: seq<bv8>, n: nat) returns (lrc: bv8)
    requires 1 <= n <= |s|
    ensures lrc == Xor(s[1..n])
  {
    lrc := 0;
    for i := 1 to n
      invariant lrc == Xor(s[1..i])
    {
      lrc := lrc ^ s[i];
      assert s[1..i + 1][..i - 1] == s[1..i];
    }
  }

  lemma PopCountHigh(y: bv8)
    ensures PopCount(y & 0xf0) <= 4 && (y & 0x80 != 0 ==> PopCount(y & 0xf0) >= 1)
  {
  }

  /** The `do` loop of `check_len`: counts the interface bytes and looks for another protocol. */
  method WalkLevels(s: seq<bv8>, n: nat) returns (len: nat, t1: bool, historical: Option<nat>)
    requires 1 <= n <= 33 && n + 2 <= |s|
    ensures Walked(len, t1, historical) == Walk(s, n, 0, false) && len <= 37
  {
    hide PopCount;
    len, t1, historical := 0, false, None;
    var ptr, more := 1, true;
    while more
      invariant len <= 37
      invariant more ==> historical == None && ptr == 1 + len && len <= n && Walk(s, n, 0, false) == Walk(s, n, len, t1)
      invariant !more ==> Walk(s, n, 0, false) == Walked(len, t1, historical)
      decreases more, n - len
    {
      PopCountHigh(s[ptr]);
      var v := GetBits(s[ptr] & 0xf0);
      len := len + v;
      if n >= len && s[ptr] & 0x80 != 0 {
        ptr := ptr + v;
        if !t1 && s[ptr] & 0x0f != 0 {
          t1 := true;
        }
        more := n > len;
      } else {
        historical := Some(ptr + v + 1);
        more := false;
      }
    }
  }

  function HistoricalAt(s: seq<bv8>, n: nat, previous: Option<nat>): Option<nat>
    requires 1 <= n && n + 2 <= |s|
  {
    var found := Walk(s, n, 0, false).hist;
    if found.Some? then found else previous
  }

  /** `previous` is where the historical bytes of the card before stood; it stays when the walk finds no new place. */
  method CheckLen(s: seq<bv8>, n: nat, previous: Option<nat>)
    returns (result: int, historical: Option<nat>, histLen: nat)
    requires 1 <= n <= 33 && n + 2 <= |s|
    ensures result == CheckLenResult(s, n) && histLen == Announced(s)
    ensures historical == HistoricalAt(s, n, previous)
  {
    hide Xor, Walk;
    histLen := (s[1] & 0x0f) as int;
    var len, t1;
    len, t1, historical := WalkLevels(s, n);
    if historical.None? { historical := previous; }
    var len1 := histLen + 2 + if t1 then 1 else 0;
    if t1 {
      var lrc := Lrc(s, n);
      return if lrc != 0 then 0 else 1, historical, histLen;
    } else if n != len + len1 {
      if n == len + len1 + 1 {
        var lrc := Lrc(s, n);
        return if lrc != 0 then 0 else 1, historical, histLen;
      }
      return 2, historical, histLen;
    }
    return 1, historical, histLen;
  }
}
