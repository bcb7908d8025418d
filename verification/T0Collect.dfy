/**
 Case 4 of the T=0 transport of `CEC30Reader::_IfdTransmit`: data is sent, and the answer is collected with
 GET RESPONSE for as long as the card has more (section 12.2 of ISO/IEC 7816-3).

 Two readings of it: a recursion over answers (`Fetched`), in which the P3 values chosen play no part, and the
 loop over one buffer (`RawFetched`), which may leave the buffer when the first answer already carries data.
 */
module T0Collect {
  import opened Bytes
  import opened T0Chain

  /** The card has more data, or wants another length. */
  predicate Continues(sw1: Byte) { sw1 == 0x61 || sw1 == 0x6C }

  /** A warning, behind which there is data to fetch. */
  predicate Warns(sw1: Byte, sw2: Byte) {
    (sw1 / 16 == 9 && (sw1 != 0x90 || sw2 != 0)) || sw1 == 0x62 || sw1 == 0x63
  }

  // ----- the specification: recursion over answers -----

  /** The result of collecting, and the replies not yet used. */
  datatype Fetch = Fetch(result: Result<seq<Byte>>, script: seq<Reply>)

  predicate HasMore(a: seq<Byte>) { |a| >= 2 && Continues(a[|a| - 2]) }

  predicate BareWarning(a: seq<Byte>) { |a| == 2 && Warns(a[0], a[1]) }

  /** What GET RESPONSE after GET RESPONSE adds to the data `got`, until the card has no more. */
  function Gather(script: seq<Reply>, got: seq<Byte>): (f: Fetch)
    requires |got| <= 256
    ensures f.result.Ok? ==> |f.result.value| <= 258 && got <= f.result.value && |f.script| < |script|
    decreases |script|
  {
    match Exchange(script, 258 - |got|)
    case Err(e) => Fetch(Err(e), Rest(script))
    case Ok(a) =>
      if HasMore(a) then Gather(script[1..], got + a[..|a| - 2]) else Fetch(Ok(got + a), script[1..])
  }

  /** The whole of case 4. */
  function Fetched(script: seq<Reply>): (f: Fetch)
    ensures f.result.Ok? ==> |f.result.value| <= 258
  {
    match Exchange(script, 258)
    case Err(e) => Fetch(Err(e), Rest(script))
    case Ok(a) =>
      if BareWarning(a) then Gather(script[1..], [])
      else if HasMore(a) then Gather(script[1..], a[..|a| - 2])
      else Fetch(Ok(a), script[1..])
  }

  /** An answer followed by GET RESPONSE: 61xx and 6Cxx always, a warning where it is all of the first answer. */
  predicate AsksOn(r: Reply, first: bool) {
    && r.Answer? && |r.bytes| >= 2
    && var sw1, sw2 := r.bytes[|r.bytes| - 2], r.bytes[|r.bytes| - 1];
    || sw1 == 0x61 || sw1 == 0x6C
    || (first && |r.bytes| == 2 && (sw1 == 0x62 || sw1 == 0x63 || (0x90 <= sw1 <= 0x9F && !(sw1 == 0x90 && sw2 == 0))))
  }

  /** The data of a run of answers, in order, without the status words. */
  function Payload(answers: seq<Reply>): (d: seq<Byte>)
    requires forall r :: r in answers ==> r.Answer? && |r.bytes| >= 2
  {
    if answers == [] then [] else answers[0].bytes[..|answers[0].bytes| - 2] + Payload(answers[1..])
  }

  /** The answers `used` end the run: all but the last are followed by GET RESPONSE, the last is not. */
  predicate Complete(used: seq<Reply>, first: bool) {
    && used != [] && used[|used| - 1].Answer? && !AsksOn(used[|used| - 1], first && |used| == 1)
    && forall i :: 0 <= i < |used| - 1 ==> AsksOn(used[i], first && i == 0)
  }

  /** The data of all answers but the last, and the last answer whole. */
  function Whole(used: seq<Reply>, first: bool): (d: seq<Byte>)
    requires Complete(used, first)
  {
    assert forall r :: r in used[..|used| - 1] ==> r.Answer? && |r.bytes| >= 2;
    Payload(used[..|used| - 1]) + used[|used| - 1].bytes
  }

  lemma AskingTalks(r: Reply, first: bool)
    requires AsksOn(r, first)
    ensures r.Answer? && |r.bytes| >= 2
  {
  }

  lemma WholeStep(r: Reply, used: seq<Reply>, first: bool)
    requires AsksOn(r, first) && Complete(used, false)
    ensures Complete([r] + used, first)
    ensures Whole([r] + used, first) == r.bytes[..|r.bytes| - 2] + Whole(used, false)
  {
    hide AsksOn;
    assert r.Answer? && |r.bytes| >= 2 by { AskingTalks(r, first); }
    var all := [r] + used;
    assert forall i :: 0 < i < |all| ==> all[i] == used[i - 1];
    var front := all[..|all| - 1];
    assert front == [r] + used[..|used| - 1] && front[1..] == used[..|used| - 1];
    assert all[|all| - 1] == used[|used| - 1];
  }

  lemma {:induction false} GatherWhole(script: seq<Reply>, got: seq<Byte>) returns (used: seq<Reply>)
    requires |got| <= 256 && Gather(script, got).result.Ok?
    ensures Complete(used, false) && used + Gather(script, got).script == script
    ensures Gather(script, got).result.value == got + Whole(used, false)
    decreases |script|
  {
    hide Whole, Complete;
    var a := Exchange(script, 258 - |got|).value;
    assert script == [script[0]] + script[1..];
    if HasMore(a) {
      var more := GatherWhole(script[1..], got + a[..|a| - 2]);
      WholeStep(script[0], more, false);
      used := [script[0]] + more;
      assert got + (a[..|a| - 2] + Whole(more, false)) == got + a[..|a| - 2] + Whole(more, false);
    } else {
      used := [script[0]];
      LastWhole(script[0], false);
    }
  }

  lemma LastWhole(r: Reply, first: bool)
    requires r.Answer? && !AsksOn(r, first)
    ensures Complete([r], first) && Whole([r], first) == r.bytes
  {
    assert [r][..0] == [];
  }

  /** Headline: success returns the data of every answer used, in order, and the last answer whole. */
  lemma FetchedWhole(script: seq<Reply>) returns (used: seq<Reply>)
    requires Fetched(script).result.Ok?
    ensures Complete(used, true) && used + Fetched(script).script == script
    ensures Fetched(script).result.value == Whole(used, true)
  {
    hide Whole, Gather, Complete;
    var a := Exchange(script, 258).value;
    assert script == [script[0]] + script[1..];
    if BareWarning(a) || HasMore(a) {
      var got := if BareWarning(a) then [] else a[..|a| - 2];
      var more := GatherWhole(script[1..], got);
      WholeStep(script[0], more, true);
      if BareWarning(a) { WarningCarriesNothing(a); }
      used := [script[0]] + more;
    } else {
      used := [script[0]];
      LastWhole(script[0], true);
    }
  }

  /** A failure is that of the exchange behind answers that were all followed by GET RESPONSE. */
  lemma {:induction false} GatherFails(script: seq<Reply>, got: seq<Byte>) returns (used: seq<Reply>)
    requires |got| <= 256 && Gather(script, got).result.Err?
    ensures used <= script && forall i :: 0 <= i < |used| ==> AsksOn(used[i], false)
    ensures forall r :: r in used ==> r.Answer? && |r.bytes| >= 2
    ensures FailsWith(script[|used|..], Gather(script, got).result.error, 258 - |got| - |Payload(used)|, 0)
    decreases |script|
  {
    used := [];
    assert script[0..] == script;
    if Exchange(script, 258 - |got|).Ok? {
      var a := Exchange(script, 258 - |got|).value;
      assert script == [script[0]] + script[1..];
      var more := GatherFails(script[1..], got + a[..|a| - 2]);
      used := [script[0]] + more;
      assert used[1..] == more && script[1..][|more|..] == script[|used|..];
    }
  }

  lemma FetchedFails(script: seq<Reply>) returns (used: seq<Reply>)
    requires Fetched(script).result.Err?
    ensures used <= script && forall i :: 0 <= i < |used| ==> AsksOn(used[i], i == 0)
    ensures forall r :: r in used ==> r.Answer? && |r.bytes| >= 2
    ensures FailsWith(script[|used|..], Fetched(script).result.error, 258 - |Payload(used)|, 0)
  {
    hide Gather;
    used := [];
    assert script[0..] == script;
    if Exchange(script, 258).Ok? {
      var a := Exchange(script, 258).value;
      assert script == [script[0]] + script[1..];
      var more := GatherFails(script[1..], a[..|a| - 2]);
      used := [script[0]] + more;
      assert used[1..] == more && script[1..][|more|..] == script[|used|..];
    }
  }

  /** With a card that always answers with a status word, the caller never gets 61xx or 6Cxx. */
  lemma FinalStatus(script: seq<Reply>)
    requires forall r :: r in script && r.Answer? ==> |r.bytes| >= 2
    requires Fetched(script).result.Ok?
    ensures var v := Fetched(script).result.value; |v| >= 2 && v[|v| - 2] != 0x61 && v[|v| - 2] != 0x6C
  {
    hide Fetched, Payload;
    var used := FetchedWhole(script);
    var last := used[|used| - 1];
    assert last in script by { assert script[|used| - 1] == last; }
  }

  /** A bare first answer is the result exactly when it is neither 61xx, 6Cxx nor a warning. */
  lemma BareFirst(sw1: Byte, sw2: Byte, rest: seq<Reply>)
    ensures var f := Fetched([Answer([sw1, sw2])] + rest);
      if sw1 == 0x61 || sw1 == 0x6C || sw1 == 0x62 || sw1 == 0x63 || (0x90 <= sw1 <= 0x9F && !(sw1 == 0x90 && sw2 == 0))
      then f == Gather(rest, [])
      else f == Fetch(Ok([sw1, sw2]), rest)
  {
    hide Gather;
    var script := [Answer([sw1, sw2])] + rest;
    assert script[1..] == rest && [sw1, sw2][..0] == [];
  }

  lemma WarningCarriesNothing(a: seq<Byte>)
    requires BareWarning(a)
    ensures |a| == 2 && a[..|a| - 2] == []
  {
  }

  // ----- the same in one buffer of 258 bytes -----

  /** The bytes in use, the buffer and the replies left; `Outside` when the driver reads or writes behind its buffer. */
  datatype RawFetch = Outside | Inside(result: Result<nat>, buf: Buffer, script: seq<Reply>)

  function Put(buf: Buffer, at: nat, a: seq<Byte>): (b: Buffer)
    requires at + |a| <= 258
  {
    buf[..at] + a + buf[at + |a|..]
  }

  /**
   The loop with `tot` bytes of data counted. The status word is looked for, and the next answer written, `skew`
   bytes behind that; `skew` is the number of data bytes in the first answer.
   */
  function RawGather(buf: Buffer, tot: nat, skew: nat, script: seq<Reply>): (f: RawFetch)
    requires tot <= 256
    ensures f.Inside? && f.result.Ok? ==> f.result.value <= 258
    decreases |script|
  {
    if tot + skew >= 258 then Outside
    else if !Continues(buf[tot + skew]) then Inside(Ok(tot + 2), buf, script)
    else if tot + skew + 1 >= 258 then Outside
    else
      match Exchange(script, 258 - tot)
      case Err(e) => Inside(Err(e), buf, Rest(script))
      case Ok(a) =>
        if tot + skew + |a| > 258 then Outside
        else
          var b := Put(buf, tot + skew, a);
          if |a| < 2 then Inside(Ok(tot + |a|), b, script[1..])
          else RawGather(b, tot + |a| - 2, skew, script[1..])
  }

  /** After a warning: its answer is written over the warning. */
  function RawFollow(buf: Buffer, script: seq<Reply>): (f: RawFetch)
    ensures f.Inside? && f.result.Ok? ==> f.result.value <= 258
  {
    match Exchange(script, 258)
    case Err(e) => Inside(Err(e), buf, Rest(script))
    case Ok(a) =>
      var b := Received(a, buf);
      if |a| < 2 then Inside(Ok(|a|), b, script[1..]) else RawGather(b, |a| - 2, 0, script[1..])
  }

  /** Case 4 for any card and whatever the buffer held before. */
  function RawFetched(stale: Buffer, script: seq<Reply>): (f: RawFetch)
    ensures f.Inside? && f.result.Ok? ==> f.result.value <= 258
  {
    match Exchange(script, 258)
    case Err(e) => Inside(Err(e), stale, Rest(script))
    case Ok(a) =>
      var b := Received(a, stale);
      if |a| < 2 then Inside(Ok(|a|), b, script[1..])
      else if BareWarning(a) then RawFollow(b, script[1..])
      else RawGather(b, |a| - 2, |a| - 2, script[1..])
  }

  /** The buffer holds what the recursion over answers returns, after the same replies. */
  predicate Concurs(r: RawFetch, f: Fetch) {
    && r.Inside? && r.script == f.script
    && match f.result
       case Err(e) => r.result == Err(e)
       case Ok(v) => r.result == Ok(|v|) && v <= r.buf
  }

  /** With nothing skewed the loop does what the answers say. */
  lemma {:induction false} Straight(buf: Buffer, tot: nat, script: seq<Reply>)
    requires tot <= 256
    ensures Concurs(RawGather(buf, tot, 0, script),
      if Continues(buf[tot]) then Gather(script, buf[..tot]) else Fetch(Ok(buf[..tot + 2]), script))
    decreases |script|
  {
    hide Concurs;
    ConcursHere(buf, tot, script);
    if Continues(buf[tot]) {
      ConcursError(buf, script, Exchange(script, 258 - tot));
      if Exchange(script, 258 - tot).Ok? {
        var a := Exchange(script, 258 - tot).value;
        var b, n := Put(buf, tot, a), tot + |a| - 2;
        PutFacts(buf, tot, a);
        if |a| < 2 {
          ConcursShort(b, buf[..tot] + a, script[1..]);
        } else {
          assert b[n] == a[|a| - 2];
          Straight(b, n, script[1..]);
        }
      }
    }
  }

  lemma PutFacts(buf: Buffer, at: nat, a: seq<Byte>)
    requires at + |a| <= 258
    ensures var b := Put(buf, at, a);
      && b[..at + |a|] == buf[..at] + a && (forall i :: at <= i < at + |a| ==> b[i] == a[i - at])
      && (|a| >= 2 ==> b[..at + |a| - 2] == buf[..at] + a[..|a| - 2])
  {
  }

  lemma ConcursHere(buf: Buffer, tot: nat, script: seq<Reply>)
    requires tot <= 256
    ensures Concurs(Inside(Ok(tot + 2), buf, script), Fetch(Ok(buf[..tot + 2]), script))
  {
  }

  lemma ConcursError(buf: Buffer, script: seq<Reply>, r: Result<seq<Byte>>)
    ensures r.Err? ==> Concurs(Inside(Err(r.error), buf, Rest(script)), Fetch(Err(r.error), Rest(script)))
  {
  }

  lemma ConcursShort(buf: Buffer, v: seq<Byte>, script: seq<Reply>)
    requires v <= buf
    ensures Concurs(Inside(Ok(|v|), buf, script), Fetch(Ok(v), script))
  {
  }

  /** The first answer carries no data, or one byte of it and neither half of its status word is 61 or 6C. */
  predicate Harmless(a: seq<Byte>) {
    |a| <= 2 || (|a| == 3 && a[1] != 0x61 && a[1] != 0x6C && a[2] != 0x61 && a[2] != 0x6C)
  }

  lemma ReceivedFacts(a: seq<Byte>, stale: Buffer)
    requires |a| <= 258
    ensures var b := Received(a, stale); a <= b && b[..|a|] == a && (|a| >= 2 ==> b[..|a| - 2] == a[..|a| - 2])
  {
  }

  /** After a harmless first answer case 4 does what the answers say, whatever the buffer held before. */
  lemma HarmlessConcurs(stale: Buffer, script: seq<Reply>)
    requires script != [] && script[0].Answer? ==> Harmless(script[0].bytes)
    ensures Concurs(RawFetched(stale, script), Fetched(script))
  {
    hide Concurs, RawGather, Gather;
    ConcursError(stale, script, Exchange(script, 258));
    if Exchange(script, 258).Ok? {
      var a := Exchange(script, 258).value;
      var b := Received(a, stale);
      ReceivedFacts(a, stale);
      if |a| < 2 {
        ConcursShort(b, a, script[1..]);
      } else if BareWarning(a) {
        FollowConcurs(b, script[1..]);
      } else if |a| == 2 {
        Straight(b, 0, script[1..]);
        assert b[..0] == [] && b[..2] == a && a[..0] == [];
      } else {
        assert b[1] == a[1] && b[2] == a[2] && b[..3] == a;
        OneByte(b, script[1..]);
        ConcursHere(b, 1, script[1..]);
      }
    }
  }

  lemma OneByte(b: Buffer, script: seq<Reply>)
    requires !Continues(b[2])
    ensures RawGather(b, 1, 1, script) == Inside(Ok(3), b, script)
  {
  }

  lemma FollowConcurs(buf: Buffer, script: seq<Reply>)
    ensures Concurs(RawFollow(buf, script), Gather(script, []))
  {
    hide Concurs, RawGather;
    ConcursError(buf, script, Exchange(script, 258));
    if Exchange(script, 258).Ok? {
      var a := Exchange(script, 258).value;
      var b := Received(a, buf);
      ReceivedFacts(a, buf);
      assert [] + a == a;
      if |a| < 2 {
        ConcursShort(b, a, script[1..]);
      } else {
        Straight(b, |a| - 2, script[1..]);
        assert b[|a| - 2] == a[|a| - 2] && [] + a[..|a| - 2] == a[..|a| - 2];
      }
    }
  }

  const DONE: Reply := Answer([0x90, 0x00])

  /** A card and old contents for which case 4 goes wrong after the first answer `a`. */
  lemma HarmfulDiffers(a: seq<Byte>) returns (stale: Buffer)
    requires |a| <= 258 && !Harmless(a)
    ensures !Concurs(RawFetched(stale, [Answer(a), DONE]), Fetched([Answer(a), DONE]))
  {
    hide RawGather, Gather, Concurs;
    var k := |a| - 2;
    var script := [Answer(a), DONE];
    assert script[1..] == [DONE];
    var filler: Byte := if Continues(a[k]) then 0 else 0x61;
    stale := seq(258, _ => filler);
    var b := Received(a, stale);
    ReceivedFacts(a, stale);
    var got := a[..k];
    GatherDone(got);
    if 2 * k >= 258 {
      FarOutside(b, k, [DONE]);
      NotConcur(Outside, Fetched(script));
    } else {
      assert |a| > 3 ==> b[2 * k] == stale[2 * k];
      RawDone(b, k);
      Differ(b, a, RawGather(b, k, k, [DONE]), Fetched(script));
    }
  }

  lemma FarOutside(b: Buffer, k: nat, script: seq<Reply>)
    requires k <= 256 && 2 * k >= 258
    ensures RawGather(b, k, k, script) == Outside
  {
  }

  lemma NotConcur(r: RawFetch, f: Fetch)
    requires r.Outside?
    ensures !Concurs(r, f)
  {
  }

  lemma GatherDone(got: seq<Byte>)
    requires |got| <= 256
    ensures Gather([DONE], got) == Fetch(Ok(got + [0x90, 0x00]), [])
  {
    assert [DONE][1..] == [];
  }

  /** What the loop makes of a card that is done after one GET RESPONSE. */
  lemma RawDone(b: Buffer, k: nat)
    requires 1 <= k <= 256 && 2 * k < 258
    ensures var r := RawGather(b, k, k, [DONE]);
      if !Continues(b[2 * k]) then r == Inside(Ok(k + 2), b, [DONE])
      else r.Inside? ==> r.script == [] && r.result == Ok(k + 2) && r.buf[k] == b[k]
  {
    assert [DONE][1..] == [];
    if Continues(b[2 * k]) && 2 * k + 2 <= 258 {
      var c := Put(b, 2 * k, [0x90, 0x00]);
      PutFacts(b, 2 * k, [0x90, 0x00]);
      assert c[2 * k] == 0x90;
      assert c[k] == b[k];
      assert RawGather(c, k, k, []) == Inside(Ok(k + 2), c, []);
    }
  }

  lemma Differ(b: Buffer, a: seq<Byte>, r: RawFetch, f: Fetch)
    requires |a| >= 3 && a <= b && !Harmless(a)
    requires var k := |a| - 2;
      && 2 * k < 258 && (|a| > 3 ==> (Continues(b[2 * k]) <==> !Continues(a[k])))
      && (if !Continues(b[2 * k]) then r == Inside(Ok(k + 2), b, [DONE])
          else r.Inside? ==> r.script == [] && r.result == Ok(k + 2) && r.buf[k] == b[k])
      && f == if Continues(a[k]) then Fetch(Ok(a[..k] + [0x90, 0x00]), []) else Fetch(Ok(a), [DONE])
    ensures !Concurs(r, f)
  {
    var k := |a| - 2;
    assert b[k] == a[k];
    if Continues(a[k]) && f.result.value <= b {
      assert f.result.value[k] == 0x90;
    }
  }

  /**
   Headline: case 4 does what the answers say, for all later answers and all old contents of the buffer, exactly
   when the first answer is harmless.
   */
  lemma FirstAnswerExact(a: seq<Byte>)
    requires |a| <= 258
    ensures (forall rest: seq<Reply>, stale: Buffer ::
               Concurs(RawFetched(stale, [Answer(a)] + rest), Fetched([Answer(a)] + rest)))
       <==> Harmless(a)
  {
    hide Concurs, RawFetched, Fetched, Harmless;
    if Harmless(a) {
      forall rest: seq<Reply>, stale: Buffer
        ensures Concurs(RawFetched(stale, [Answer(a)] + rest), Fetched([Answer(a)] + rest))
      {
        HarmlessConcurs(stale, [Answer(a)] + rest);
      }
    } else {
      var stale := HarmfulDiffers(a);
      assert [Answer(a)] + [DONE] == [Answer(a), DONE];
      assert !Concurs(RawFetched(stale, [Answer(a)] + [DONE]), Fetched([Answer(a)] + [DONE]));
    }
  }

  /** One byte of data and status 9061: the second half of the status word is taken for a first one. */
  lemma StatusMisread(stale: Buffer)
    ensures var script := [Answer([0x11, 0x90, 0x61]), DONE];
      && Fetched(script) == Fetch(Ok([0x11, 0x90, 0x61]), [DONE])
      && var r := RawFetched(stale, script);
         r.Inside? && r.result == Ok(3) && r.script == [] && r.buf[..3] == [0x11, 0x90, 0x90]
  {
    hide RawGather;
    var script := [Answer([0x11, 0x90, 0x61]), DONE];
    var b := Received([0x11, 0x90, 0x61], stale);
    assert script[1..] == [DONE] && [DONE][1..] == [];
    var c := Put(b, 2, [0x90, 0x00]);
    MisreadLoop(b);
    assert c[..3] == [0x11, 0x90, 0x90];
  }

  lemma MisreadLoop(b: Buffer)
    requires b[2] == 0x61
    ensures RawGather(b, 1, 1, [DONE]) == Inside(Ok(3), Put(b, 2, [0x90, 0x00]), [])
  {
    assert [DONE][1..] == [];
    var c := Put(b, 2, [0x90, 0x00]);
    assert c[2] == 0x90;
    assert RawGather(c, 1, 1, []) == Inside(Ok(3), c, []);
  }
}
