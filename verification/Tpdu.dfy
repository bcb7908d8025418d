/**
 The T=0 part of `CEC30Reader::_IfdTransmit`: mapping a command APDU to T=0 TPDUs. Cases 2 and 4 run in place
 what the modules `T0Chain` and `T0Collect` specify.
 */
module Tpdu {
  import opened Bytes
  import opened T0Chain
  import opened T0Collect
  import Apdu

  /** Only GET RESPONSE was sent since `before`. */
  predicate GetResponses(before: seq<seq<Byte>>, after: seq<seq<Byte>>) {
    && before <= after
    && forall i :: |before| <= i < |after| ==> |after[i]| == 5 && after[i][..4] == [0x00, 0xC0, 0x00, 0x00]
  }

  /** After 61xx or 6Cxx the first GET RESPONSE asks for Le bytes where 0 < Le < xx, and else for xx. */
  predicate BareAsked(sw1: Byte, sw2: Byte, le: Byte, before: seq<seq<Byte>>, after: seq<seq<Byte>>) {
    if sw1 == 0x61 || sw1 == 0x6C then
      before + [[0x00, 0xC0, 0x00, 0x00, if le != 0 && le < sw2 then le else sw2]] <= after
    else after == before
  }

  /** The command goes out without Le; what follows a bare first answer depends on its status word. */
  predicate FirstAsked(cmd: seq<Byte>, script: seq<Reply>, before: seq<seq<Byte>>, after: seq<seq<Byte>>)
    requires cmd != []
  {
    var le, sent := cmd[|cmd| - 1], before + [cmd[..|cmd| - 1]];
    && sent <= after
    && (script == [] || script[0].Failed? ==> after == sent)
    && (script != [] && script[0].Answer? && |script[0].bytes| == 2 ==>
          var sw1, sw2 := script[0].bytes[0], script[0].bytes[1];
          if sw1 == 0x62 || sw1 == 0x63 || (0x90 <= sw1 <= 0x9F && !(sw1 == 0x90 && sw2 == 0)) then
            sent + [[0x00, 0xC0, 0x00, 0x00, le]] <= after
          else BareAsked(sw1, sw2, le, sent, after))
  }

  // ----- the in-place loops -----

  /** A call that started with TPDUs `sent0` already sent ended as `o` says, its answer in the buffer. */
  predicate Matches(o: Outcome, sent0: seq<seq<Byte>>, res: Result<nat>, buf: seq<Byte>, sent: seq<seq<Byte>>,
                    script: seq<Reply>)
  {
    && script == o.script && sent == sent0 + o.sent
    && match o.result
       case Err(e) => res == Err(e)
       case Ok(v) => res == Ok(|v|) && v <= buf
  }

  /** After the TPDUs `tries`, with `rlen` bytes of the buffer in use, what is left to do leads to `goal`. */
  ghost predicate Trying(goal: Raw, hdr: seq<Byte>, le: Byte, tries: seq<seq<Byte>>, rlen: nat, buf: Buffer,
                         script: seq<Reply>)
  {
    if rlen == 2 && buf[0] == 0x6C then
      goal == Tried(tries, RawLink(hdr, le, buf[1], buf, script))
    else
      goal == Raw(Ok(rlen), buf, tries, script)
  }

  lemma LinkStart(hdr: seq<Byte>, le: Byte, buf: Buffer, script: seq<Reply>)
    requires buf[0] == 0x6C && buf[1] == le
    ensures Trying(RawLink(hdr, le, le, buf, script), hdr, le, [], 2, buf, script)
  {
    hide RawLink;
    var o := RawLink(hdr, le, le, buf, script);
    assert [] + o.sent == o.sent;
  }

  /** The number of bytes in use and the buffer after the cut. */
  function CutRaw(le: Byte, la: Byte, n: nat, b: Buffer): (nat, Buffer) {
    if le != 0 && le < la then (le as int + 2, MovedDown(b, le, la)) else (n, b)
  }

  lemma LinkTurn(goal: Raw, hdr: seq<Byte>, le: Byte, tries: seq<seq<Byte>>, buf: Buffer, script: seq<Reply>)
    requires buf[0] == 0x6C && Trying(goal, hdr, le, tries, 2, buf, script)
    ensures var tries' := tries + [hdr + [buf[1]]];
      match Exchange(script, 258)
      case Err(e) => goal == Raw(Err(e), buf, tries', Rest(script))
      case Ok(a) =>
        if |a| < 2 then goal == Raw(Err(IoTimeout), Received(a, buf), tries', script[1..])
        else
          var (n, b) := CutRaw(le, buf[1], |a|, Received(a, buf));
          Trying(goal, hdr, le, tries', n, b, script[1..])
  {
    hide MovedDown;
    var tpdu := [hdr + [buf[1]]];
    match Exchange(script, 258)
    case Err(e) =>
    case Ok(a) =>
      if |a| >= 2 && !(le != 0 && le < buf[1]) && Corrects(a) {
        var b := Received(a, buf);
        var rest := RawLink(hdr, le, a[1], b, script[1..]);
        assert b[0] == 0x6C && b[1] == a[1];
        assert tries + (tpdu + rest.sent) == tries + tpdu + rest.sent;
      }
  }

  /** After the TPDUs `done` and the data `acc`, with status word `sw1 sw2`, what is left to do leads to `goal`. */
  ghost predicate Chaining(goal: Outcome, hdr: seq<Byte>, sw1: Byte, sw2: Byte, done: seq<seq<Byte>>,
                           acc: seq<Byte>, buf: Buffer, script: seq<Reply>, room: int)
  {
    if sw1 == 0x61 then
      goal == After(done, acc, RawChain(hdr, sw2, buf, script, room))
    else
      goal == Outcome(Ok(acc + [sw1, sw2]), done, script)
  }

  lemma ChainStart(hdr: seq<Byte>, le: Byte, stale: Buffer, script: seq<Reply>, room: int)
    ensures Chaining(RawChain(hdr, le, stale, script, room), hdr, 0x61, le, [], [], stale[0 := 0x61][1 := le], script,
                     room)
  {
    hide RawLink;
    var buf: Buffer := stale[0 := 0x61][1 := le];
    assert Primed(buf, le) == Primed(stale, le);
    var o := RawChain(hdr, le, stale, script, room);
    assert o == RawChain(hdr, le, buf, script, room);
    assert [] + o.sent == o.sent && (o.result.Ok? ==> [] + o.result.value == o.result.value);
  }

  lemma ChainTurn(goal: Outcome, hdr: seq<Byte>, le: Byte, done: seq<seq<Byte>>, acc: seq<Byte>,
                  buf: Buffer, script: seq<Reply>, room: int)
    requires Chaining(goal, hdr, 0x61, le, done, acc, buf, script, room)
    ensures var l := RawLink(hdr, le, le, Primed(buf, le), script);
      match l.result
      case Err(e) => goal == Outcome(Err(e), done + l.sent, l.script)
      case Ok(n) =>
        if n > room then goal == Outcome(Err(BufferTooSmall), done + l.sent, l.script)
        else
          Chaining(goal, GET_RESPONSE, l.buf[n - 2], l.buf[n - 1], done + l.sent, acc + l.buf[..n - 2], l.buf,
                   l.script, room - (n - 2))
  {
    hide RawLink, Primed;
    var l := RawLink(hdr, le, le, Primed(buf, le), script);
    if l.result.Ok? && l.result.value <= room {
      var n := l.result.value - 2;
      if l.buf[n] == 0x61 {
        AfterAfter(done, acc, l.sent, l.buf[..n], RawChain(GET_RESPONSE, l.buf[n + 1], l.buf, l.script, room - n));
      } else {
        assert acc + l.buf[..n + 2] == acc + l.buf[..n] + [l.buf[n], l.buf[n + 1]];
      }
    }
  }

  lemma ChainEnd(goal: Outcome, hdr: seq<Byte>, sw1: Byte, sw2: Byte, done: seq<seq<Byte>>, acc: seq<Byte>,
                 buf: Buffer, script: seq<Reply>, room: int)
    requires sw1 != 0x61 && Chaining(goal, hdr, sw1, sw2, done, acc, buf, script, room)
    ensures goal == Outcome(Ok(acc + [sw1, sw2]), done, script)
  {
  }

  class T0Channel {
    var script: seq<Reply>
    var sent: seq<seq<Byte>>

    constructor (script: seq<Reply>)
      ensures this.script == script && sent == []
    {
      this.script, sent := script, [];
    }

    /** `ccidTransmit` into `buf` at offset `at`, room for `cap` bytes. */
    method CcidTransmit(tpdu: seq<Byte>, buf: array<Byte>, at: nat, cap: nat) returns (res: Result<nat>)
      requires at + cap <= buf.Length
      modifies this, buf
      ensures script == Rest(old(script)) && sent == old(sent) + [tpdu]
      ensures match Exchange(old(script), cap)
        case Err(e) => res == Err(e) && buf[..] == old(buf[..])
        case Ok(a) => res == Ok(|a|) && buf[..] == old(buf[..at]) + a + old(buf[at + |a|..])
    {
      sent := sent + [tpdu];
      if script == [] { return Err(NotConnected); }
      var reply := script[0];
      script := script[1..];
      match reply {
        case Failed(e) => return Err(e);
        case Answer(a) =>
          if |a| > cap { return Err(BufferTooSmall); }
          forall i | 0 <= i < |a| { buf[at + i] := a[i]; }
          return Ok(|a|);
      }
    }

    /** The `memmove` that brings the status word down when fewer bytes were asked for than received. */
    static method CutInPlace(rbuffer: array<Byte>, le: Byte, la: Byte, rlen: nat) returns (n: nat)
      requires rbuffer.Length == 258 && 2 <= rlen <= 258
      modifies rbuffer
      ensures 2 <= n <= 258 && (n, rbuffer[..]) == CutRaw(le, la, rlen, old(rbuffer[..]))
      ensures (le != 0 && le < la ==> SoundCut(la, old(rbuffer[..rlen]))) ==>
        rbuffer[..n] == Cut(le, la, old(rbuffer[..rlen]))
    {
      n := rlen;
      ghost var before: Buffer := rbuffer[..];
      if le != 0 && le < la {
        rbuffer[le], rbuffer[le as int + 1] := rbuffer[la], rbuffer[la as int + 1];
        n := le as int + 2;
        if SoundCut(la, before[..rlen]) {
          assert Received(before[..rlen], before) == before;
          MovedIsCut(le, la, before[..rlen], before);
        }
      }
    }

    /**
     The inner loop of case 2: one link, retransmitted with another length while the card asks for it. Whatever the
     card does it is `RawLink`; for an honest card it is `Link`.
     */
    method FetchLink(hdr: seq<Byte>, le: Byte, rbuffer: array<Byte>) returns (res: Result<nat>)
      requires rbuffer.Length == 258
      modifies this, rbuffer
      ensures var l := RawLink(hdr, le, le, Primed(old(rbuffer[..]), le), old(script));
        res == l.result && rbuffer[..] == l.buf && sent == old(sent) + l.sent && script == l.script
      ensures HonestLink(le, le, old(script)) ==>
        Matches(Link(hdr, le, le, old(script)), old(sent), res, rbuffer[..], sent, script)
    {
      hide RawLink, Exchange, CutRaw, Received, Trying, SoundCut, Cut, HonestLink, Link, Matches;
      ghost var tries: seq<seq<Byte>> := [];
      rbuffer[0], rbuffer[1] := 0x6C, le;
      ghost var goal := RawLink(hdr, le, le, rbuffer[..], script);
      assert rbuffer[..] == Primed(old(rbuffer[..]), le);
      if HonestLink(le, le, script) { HonestMatches(hdr, le, rbuffer[..], script, sent); }
      LinkStart(hdr, le, rbuffer[..], script);
      var rlen := 2;
      while rlen == 2 && rbuffer[0] == 0x6C
        invariant 2 <= rlen <= 258 && sent == old(sent) + tries
        invariant Trying(goal, hdr, le, tries, rlen, rbuffer[..], script)
        decreases |script|
      {
        var la := rbuffer[1];
        ghost var before, buf := script, rbuffer[..];
        LinkTurn(goal, hdr, le, tries, buf, script);
        var r := CcidTransmit(hdr + [la], rbuffer, 0, 258);
        tries := tries + [hdr + [la]];
        ReceivedIs(before, buf, rbuffer[..]);
        if r.Err? { return Err(r.error); }
        if r.value < 2 { return Err(IoTimeout); }
        rlen := CutInPlace(rbuffer, le, la, r.value);
      }
      TryingEnd(goal, hdr, le, tries, rlen, rbuffer[..], script);
      res := Ok(rlen);
    }

    /** The first `n` bytes of `src` go to `dst` at offset `at`. */
    static method CopyTo(src: array<Byte>, n: nat, dst: array<Byte>, at: nat)
      requires src != dst && n <= src.Length && at + n <= dst.Length
      modifies dst
      ensures dst[..at + n] == old(dst[..at]) + src[..n]
    {
      forall i | 0 <= i < n { dst[at + i] := src[i]; }
    }

    /** One TPDU, its answer returned unchanged. */
    method TransmitOnce(tpdu: seq<Byte>, response: array<Byte>, cap: nat) returns (res: Result<nat>)
      requires cap <= response.Length
      modifies this, response
      ensures sent == old(sent) + [tpdu] && script == Rest(old(script))
      ensures match Exchange(old(script), 258)
        case Err(e) => res == Err(e)
        case Ok(a) => if |a| > cap then res == Err(BufferTooSmall) else res == Ok(|a|) && a <= response[..]
    {
      hide Exchange;
      var rbuffer := new Byte[258](_ => 0);
      res := CcidTransmit(tpdu, rbuffer, 0, 258);
      if res.Ok? {
        assert rbuffer[..res.value] == Exchange(old(script), 258).value;
        if res.value > cap { return Err(BufferTooSmall); }
        CopyTo(rbuffer, res.value, response, 0);
      }
    }

    /** One turn of the outer loop of case 2: a link is fetched and its answer appended to the response. */
    method AppendLink(hdr: seq<Byte>, le: Byte, rbuffer: array<Byte>, response: array<Byte>, ges: nat, cap: nat)
      returns (res: Result<nat>)
      requires rbuffer.Length == 258 && rbuffer != response && ges <= cap <= response.Length
      modifies this, rbuffer, response
      ensures res.Ok? ==> 2 <= res.value <= 258 && ges + res.value <= cap && |script| < |old(script)|
      ensures var l := RawLink(hdr, le, le, Primed(old(rbuffer[..]), le), old(script));
        && script == l.script && sent == old(sent) + l.sent && rbuffer[..] == l.buf
        && match l.result
           case Err(e) => res == Err(e)
           case Ok(n) =>
             if ges + n > cap then res == Err(BufferTooSmall)
             else
               && res == Ok(n) && response[..ges + (n - 2)] == old(response[..ges]) + l.buf[..n - 2]
               && response[ges + (n - 2)] == rbuffer[n - 2] && response[ges + (n - 2) + 1] == rbuffer[n - 1]
    {
      hide RawLink, Link, HonestLink, Matches, Primed;
      res := FetchLink(hdr, le, rbuffer);
      if res.Ok? {
        if ges + res.value > cap { return Err(BufferTooSmall); }
        CopyTo(rbuffer, res.value, response, ges);
        AppendedStatus(response[..], old(response[..ges]), rbuffer[..], res.value);
      }
    }

    /**
     The outer loop of case 2: links are fetched while the card announces more. `stale` is what the buffer on
     the stack happens to hold.
     */
    method FetchChain(cmd: seq<Byte>, response: array<Byte>, cap: nat, stale: Buffer) returns (res: Result<nat>)
      requires |cmd| == 5 && cap <= response.Length
      modifies this, response
      ensures res.Ok? ==> res.value <= cap
      ensures Matches(RawChain(cmd[..4], cmd[4], stale, old(script), cap), old(sent), res, response[..], sent, script)
    {
      hide RawChain, RawLink, Chaining, Primed, Matches;
      var sbuffer := cmd[..4];
      ghost var goal := RawChain(sbuffer, cmd[4], stale, script, cap);
      ghost var done: seq<seq<Byte>> := [];
      ChainStart(sbuffer, cmd[4], stale, script, cap);
      var rbuffer := new Byte[258](i requires 0 <= i < 258 => stale[i]);
      rbuffer[0], rbuffer[1] := 0x61, cmd[4];
      assert rbuffer[..] == stale[0 := 0x61][1 := cmd[4]];
      var rlen, ges := 2, 0;
      while rbuffer[rlen - 2] == 0x61
        invariant fresh(rbuffer) && 2 <= rlen <= 258 && 0 <= ges <= cap
        invariant sent == old(sent) + done
        invariant rbuffer[rlen - 2] != 0x61 ==>
          ges + 2 <= cap && response[ges] == rbuffer[rlen - 2] && response[ges + 1] == rbuffer[rlen - 1]
        invariant Chaining(goal, sbuffer, rbuffer[rlen - 2], rbuffer[rlen - 1], done, response[..ges], rbuffer[..],
                           script, cap - ges)
        decreases |script|
      {
        var le := rbuffer[rlen - 1];
        ChainTurn(goal, sbuffer, le, done, response[..ges], rbuffer[..], script, cap - ges);
        ghost var l := RawLink(sbuffer, le, le, Primed(rbuffer[..], le), script);
        var r := AppendLink(sbuffer, le, rbuffer, response, ges, cap);
        done := done + l.sent;
        if r.Err? {
          ChainFailed(goal, r.error, old(sent), response[..], sent, script);
          return Err(r.error);
        }
        rlen := r.value;
        ges := ges + (rlen - 2);
        sbuffer := GET_RESPONSE;
      }
      res := Ok(ges + 2);
      assert response[..ges + 2] == response[..ges] + [response[ges], response[ges + 1]];
      ChainEnd(goal, sbuffer, rbuffer[rlen - 2], rbuffer[rlen - 1], done, response[..ges], rbuffer[..], script,
               cap - ges);
      ChainReturned(goal, response[..ges + 2], old(sent), response[..], sent, script);
    }

    /** Case 2: the command asks for data and sends none. */
    method Case2(cmd: seq<Byte>, response: array<Byte>, cap: nat, pcsc: bool, stale: Buffer) returns (res: Result<nat>)
      requires |cmd| == 5 && cap <= response.Length
      modifies this, response
      ensures res.Ok? ==> res.value <= cap
      ensures !pcsc ==>
        Matches(RawChain(cmd[..4], cmd[4], stale, old(script), cap), old(sent), res, response[..], sent, script)
      ensures !pcsc && Honest(cmd[..4], cmd[4], old(script), cap) ==>
        Matches(Chain(cmd[..4], cmd[4], old(script), cap), old(sent), res, response[..], sent, script)
      ensures pcsc ==> sent == old(sent) + [cmd] && script == Rest(old(script))
      ensures pcsc ==>
        match Exchange(old(script), 258)
        case Err(e) => res == Err(e)
        case Ok(a) => if |a| > cap then res == Err(BufferTooSmall) else res == Ok(|a|) && a <= response[..]
    {
      hide RawChain, Chain, Honest, Matches, Exchange;
      if pcsc {
        assert cmd[..4] + [cmd[4]] == cmd;
        res := TransmitOnce(cmd[..4] + [cmd[4]], response, cap);
      } else {
        if Honest(cmd[..4], cmd[4], script, cap) { RawChainHonest(cmd[..4], cmd[4], stale, script, cap); }
        res := FetchChain(cmd, response, cap, stale);
      }
    }

    /**
     `ccidTransmit` into `buf` at offset `at` with room for `cap` bytes, which may be more than there is behind
     `at`. `inside` is false when the answer would be written over the end.
     */
    method TransmitAt(tpdu: seq<Byte>, buf: array<Byte>, at: nat, cap: nat) returns (res: Result<nat>, inside: bool)
      requires buf.Length == 258 && at <= 258
      modifies this, buf
      ensures sent == old(sent) + [tpdu] && script == Rest(old(script))
      ensures match Exchange(old(script), cap)
        case Err(e) => inside && res == Err(e) && buf[..] == old(buf[..])
        case Ok(a) => inside == (at + |a| <= 258) && (inside ==> res == Ok(|a|) && buf[..] == Put(old(buf[..]), at, a))
    {
      if script != [] && script[0].Answer? && at + |script[0].bytes| > 258 && |script[0].bytes| <= cap {
        sent, script := sent + [tpdu], script[1..];
        return Err(BufferTooSmall), false;
      }
      res := CcidTransmit(tpdu, buf, at, if at + cap <= 258 then cap else 258 - at);
      inside := true;
    }

    /**
     One GET RESPONSE of case 4, for Le bytes where that is less than the byte compared and not 0, and else for as
     many as the card announced. `stray` is the byte compared when the comparison misses SW2, wherever that lies.
     */
    method AskMore(le: Byte, rbuffer: array<Byte>, rptr: nat, rlen: nat, rest: nat, stray: nat -> Byte)
      returns (res: Result<nat>, inside: bool)
      requires rbuffer.Length == 258 && rptr + 1 < 258
      modifies this, rbuffer
      ensures |sent| == |old(sent)| + 1 && GetResponses(old(sent), sent) && script == Rest(old(script))
      ensures rlen == 2 ==>
        var sw2 := old(rbuffer[rptr + 1]);
        sent == old(sent) + [[0x00, 0xC0, 0x00, 0x00, if le != 0 && le < sw2 then le else sw2]]
      ensures match Exchange(old(script), rest)
        case Err(e) => inside && res == Err(e) && rbuffer[..] == old(rbuffer[..])
        case Ok(a) =>
          inside == (rptr + |a| <= 258) && (inside ==> res == Ok(|a|) && rbuffer[..] == Put(old(rbuffer[..]), rptr, a))
    {
      hide Exchange, Put, GetResponses;
      var compared := if rlen == 2 then rbuffer[rptr + 1] else stray(rptr);
      var p3 := if le < compared && le != 0 then le else rbuffer[rptr + 1];
      OneAsked(sent, p3);
      assert GET_RESPONSE + [p3] == [0x00, 0xC0, 0x00, 0x00, p3];
      res, inside := TransmitAt(GET_RESPONSE + [p3], rbuffer, rptr, rest);
    }

    /** The GET RESPONSE loop of case 4. */
    method CollectAll(le: Byte, rbuffer: array<Byte>, rptr0: nat, rlen0: nat, stray: nat -> Byte)
      returns (res: Result<nat>, inside: bool)
      requires rbuffer.Length == 258 && 2 <= rlen0 <= 258
      modifies this, rbuffer
      ensures GetResponses(old(sent), sent)
      ensures rlen0 == 2 && rptr0 == 0 ==> BareAsked(old(rbuffer[0]), old(rbuffer[1]), le, old(sent), sent)
      ensures match RawGather(old(rbuffer[..]), rlen0 - 2, rptr0, old(script))
        case Outside => !inside
        case Inside(r, b, rest) => inside && res == r && rbuffer[..] == b && script == rest
    {
      hide RawGather, GetResponses, Exchange, Put;
      NoneAsked(sent);
      ghost var goal := RawGather(rbuffer[..], rlen0 - 2, rptr0, script);
      ghost var first, at := true, if rptr0 < 257 then rptr0 else 0;
      ghost var sw1, sw2 := rbuffer[at], rbuffer[at + 1];
      ghost var asked := sent + [[0x00, 0xC0, 0x00, 0x00, if le != 0 && le < sw2 then le else sw2]];
      var rptr, rlen := rptr0, rlen0;
      var tot, rest := rlen0 - 2, 258 - (rlen0 - 2);
      while true
        invariant 2 <= rlen && 0 <= tot <= 256 && tot + rest == 258 && rptr + rlen - 2 == tot + rptr0
        invariant goal == RawGather(rbuffer[..], tot, rptr0, script)
        invariant first ==> sent == old(sent) && rbuffer[..] == old(rbuffer[..]) && rptr == rptr0 && rlen == rlen0
        invariant !first && rlen0 == 2 ==> Continues(sw1) && asked <= sent
        invariant GetResponses(old(sent), sent)
        decreases |script|
      {
        GatherUnfold(rbuffer[..], tot, rptr0, script);
        if rptr + rlen - 2 >= 258 { return Err(BufferTooSmall), false; }
        if !Continues(rbuffer[rptr + rlen - 2]) { return Ok(tot + 2), true; }
        rptr := rptr + rlen - 2;
        if rptr + 1 >= 258 { return Err(BufferTooSmall), false; }
        ghost var earlier := sent;
        res, inside := AskMore(le, rbuffer, rptr, rlen, rest, stray);
        ResponsesJoin(old(sent), earlier, sent);
        AskedPrefix(earlier, sent);
        if first { assert rlen0 == 2 ==> sent == asked; } else { PrefixGrows(asked, earlier, sent); }
        first := false;
        if !inside || res.Err? { return; }
        rlen := res.value;
        tot := tot + rlen - 2;
        if rlen < 2 { return Ok(tot + 2), true; }
        rest := rest - (rlen - 2);
      }
    }

    /** A warning is followed by a GET RESPONSE for Le bytes, its answer over the warning. */
    method FollowWarning(le: Byte, rbuffer: array<Byte>, stray: nat -> Byte) returns (res: Result<nat>, inside: bool)
      requires rbuffer.Length == 258
      modifies this, rbuffer
      ensures GetResponses(old(sent) + [[0x00, 0xC0, 0x00, 0x00, le]], sent)
      ensures match RawFollow(old(rbuffer[..]), old(script))
        case Outside => !inside
        case Inside(r, b, rest) => inside && res == r && rbuffer[..] == b && script == rest
    {
      hide RawGather, GetResponses, Exchange;
      assert GET_RESPONSE + [le] == [0x00, 0xC0, 0x00, 0x00, le];
      res, inside := TransmitAt(GET_RESPONSE + [le], rbuffer, 0, 258);
      NoneAsked(sent);
      if res.Err? { return; }
      assert rbuffer[..] == Received(Exchange(old(script), 258).value, old(rbuffer[..]));
      if res.value >= 2 {
        res, inside := CollectAll(le, rbuffer, 0, res.value, stray);
      }
    }

    /** The data goes out, and the answer is collected in the buffer; `rbuffer` holds whatever it held before. */
    method SendData(cmd: seq<Byte>, rbuffer: array<Byte>, stray: nat -> Byte) returns (res: Result<nat>, inside: bool)
      requires |cmd| > 5 && rbuffer.Length == 258
      modifies this, rbuffer
      ensures GetResponses(old(sent) + [cmd[..|cmd| - 1]], sent)
      ensures FirstAsked(cmd, old(script), old(sent), sent)
      ensures match RawFetched(old(rbuffer[..]), old(script))
        case Outside => !inside
        case Inside(r, b, rest) => inside && res == r && rbuffer[..] == b && script == rest
    {
      hide RawGather, RawFollow, GetResponses;
      res, inside := TransmitAt(cmd[..|cmd| - 1], rbuffer, 0, 258);
      NoneAsked(sent);
      if res.Err? { return; }
      ghost var a, mid := Exchange(old(script), 258).value, sent;
      assert rbuffer[..] == Received(a, old(rbuffer[..]));
      var n := res.value;
      if n == 2 && Warns(rbuffer[0], rbuffer[1]) {
        res, inside := FollowWarning(cmd[|cmd| - 1], rbuffer, stray);
        OneAsked(mid, cmd[|cmd| - 1]);
        assert GET_RESPONSE + [cmd[|cmd| - 1]] == [0x00, 0xC0, 0x00, 0x00, cmd[|cmd| - 1]];
        ResponsesJoin(mid, mid + [[0x00, 0xC0, 0x00, 0x00, cmd[|cmd| - 1]]], sent);
        AskedPrefix(mid + [[0x00, 0xC0, 0x00, 0x00, cmd[|cmd| - 1]]], sent);
      } else if n >= 2 {
        assert n == 2 ==> rbuffer[0] == a[0] && rbuffer[1] == a[1];
        res, inside := CollectAll(cmd[|cmd| - 1], rbuffer, n - 2, n, stray);
      }
      AskedPrefix(mid, sent);
    }

    /**
     Case 4: the command sends data and asks for data. For every card it is the recursion over the buffer, and after
     a harmless first answer the recursion over answers, whatever P3 values were chosen.
     */
    method Case4(cmd: seq<Byte>, response: array<Byte>, cap: nat, stale: Buffer, stray: nat -> Byte)
      returns (res: Result<nat>, inside: bool)
      requires |cmd| > 5 && cap <= response.Length
      modifies this, response
      ensures GetResponses(old(sent) + [cmd[..|cmd| - 1]], sent)
      ensures FirstAsked(cmd, old(script), old(sent), sent)
      ensures match RawFetched(stale, old(script))
        case Outside => !inside
        case Inside(r, b, rest) => inside && script == rest && Handed(r, b, cap, res, response[..])
      ensures (old(script) != [] && old(script)[0].Answer? ==> Harmless(old(script)[0].bytes)) ==>
        var f := Fetched(old(script));
        inside && script == f.script && Returned(f.result, cap, res, response[..])
    {
      hide RawFetched, Fetched, GetResponses, Harmless, FirstAsked;
      var rbuffer := new Byte[258](i requires 0 <= i < 258 => stale[i]);
      assert rbuffer[..] == stale;
      if script != [] && script[0].Answer? ==> Harmless(script[0].bytes) { HarmlessConcurs(stale, script); }
      res, inside := SendData(cmd, rbuffer, stray);
      if !inside || res.Err? { return; }
      if res.value > cap { return Err(BufferTooSmall), true; }
      CopyTo(rbuffer, res.value, response, 0);
      assert response[..res.value] == rbuffer[..res.value];
    }

    /** The T=0 branch of `_IfdTransmit`: the length of the command decides its case. */
    method Transmit(cmd: seq<Byte>, response: array<Byte>, cap: nat, pcsc: bool, stale: Buffer, stray: nat -> Byte)
      returns (res: Result<nat>, inside: bool)
      requires cap <= response.Length
      modifies this, response
      ensures inside && res.Ok? ==> res.value <= cap
      ensures CaseOf(cmd) != 4 ==> inside
      ensures CaseOf(cmd) == 0 ==> res == Err(InvalidParameter) && sent == old(sent) && script == old(script)
      ensures CaseOf(cmd) == 1 || CaseOf(cmd) == 3 ==>
        && sent == old(sent) + [if CaseOf(cmd) == 1 then cmd + [0] else cmd] && script == Rest(old(script))
        && match Exchange(old(script), cap)
           case Err(e) => res == Err(e)
           case Ok(a) => res == Ok(|a|) && a == response[..|a|]
      ensures CaseOf(cmd) == 2 && !pcsc ==>
        Matches(RawChain(cmd[..4], cmd[4], stale, old(script), cap), old(sent), res, response[..], sent, script)
      ensures CaseOf(cmd) == 2 && !pcsc && Honest(cmd[..4], cmd[4], old(script), cap) ==>
        Matches(Chain(cmd[..4], cmd[4], old(script), cap), old(sent), res, response[..], sent, script)
      ensures CaseOf(cmd) == 2 && pcsc ==> sent == old(sent) + [cmd] && script == Rest(old(script))
      ensures CaseOf(cmd) == 4 ==>
        && GetResponses(old(sent) + [cmd[..|cmd| - 1]], sent) && FirstAsked(cmd, old(script), old(sent), sent)
        && match RawFetched(stale, old(script))
           case Outside => !inside
           case Inside(r, b, rest) => inside && script == rest && Handed(r, b, cap, res, response[..])
      ensures CaseOf(cmd) == 4 && (old(script) != [] && old(script)[0].Answer? ==> Harmless(old(script)[0].bytes)) ==>
        inside && script == Fetched(old(script)).script && Returned(Fetched(old(script)).result, cap, res, response[..])
    {
      hide Exchange, Honest, Chain, RawChain, RawFetched, Fetched, GetResponses, Matches, Harmless, FirstAsked;
      inside := true;
      if |cmd| == 4 {
        res := CcidTransmit(cmd + [0], response, 0, cap);
      } else if |cmd| == 5 {
        res := Case2(cmd, response, cap, pcsc, stale);
      } else if |cmd| > 5 && |cmd| == 5 + cmd[4] as int && cmd[4] != 0 {
        res := CcidTransmit(cmd, response, 0, cap);
      } else if |cmd| > 5 && |cmd| == 6 + cmd[4] as int && cmd[4] != 0 {
        res, inside := Case4(cmd, response, cap, stale, stray);
      } else {
        res := Err(InvalidParameter);
      }
    }
  }

  /** The cases are those of the short APDU; extended ones and ill-formed ones are refused. */
  lemma CasesAgree(cmd: seq<Byte>)
    requires |cmd| >= 4
    ensures CaseOf(cmd) ==
      match Apdu.BodyOf(cmd)
      case Some(Case1) => 1
      case Some(Case2S(_)) => 2
      case Some(Case3S(_)) => 3
      case Some(Case4S(_, _)) => 4
      case _ => 0
  {
  }

  /** The bytes in use are handed to the caller if they fit. */
  predicate Handed(r: Result<nat>, b: Buffer, cap: nat, res: Result<nat>, response: seq<Byte>)
    requires r.Ok? ==> r.value <= 258
  {
    match r
    case Err(e) => res == Err(e)
    case Ok(n) => if n > cap then res == Err(BufferTooSmall) else res == Ok(n) && b[..n] <= response
  }

  /** The answer is handed to the caller if it fits. */
  predicate Returned(r: Result<seq<Byte>>, cap: nat, res: Result<nat>, response: seq<Byte>) {
    match r
    case Err(e) => res == Err(e)
    case Ok(v) => if |v| > cap then res == Err(BufferTooSmall) else res == Ok(|v|) && v <= response
  }

  lemma PrefixGrows(a: seq<seq<Byte>>, b: seq<seq<Byte>>, c: seq<seq<Byte>>)
    requires b <= c
    ensures a <= b ==> a <= c
  {
  }

  lemma AskedPrefix(before: seq<seq<Byte>>, after: seq<seq<Byte>>)
    requires GetResponses(before, after)
    ensures before <= after
  {
  }

  lemma OneAsked(before: seq<seq<Byte>>, p3: Byte)
    ensures GetResponses(before, before + [GET_RESPONSE + [p3]])
  {
  }

  /** One turn of the loop, seen from the recursion. */
  lemma GatherUnfold(buf: Buffer, tot: nat, skew: nat, script: seq<Reply>)
    requires tot <= 256
    ensures var f := RawGather(buf, tot, skew, script);
      if tot + skew >= 258 then f == Outside
      else if !Continues(buf[tot + skew]) then f == Inside(Ok(tot + 2), buf, script)
      else if tot + skew + 1 >= 258 then f == Outside
      else
        match Exchange(script, 258 - tot)
        case Err(e) => f == Inside(Err(e), buf, Rest(script))
        case Ok(a) =>
          if tot + skew + |a| > 258 then f == Outside
          else
            var b := Put(buf, tot + skew, a);
            if |a| < 2 then f == Inside(Ok(tot + |a|), b, script[1..])
            else f == RawGather(b, tot + |a| - 2, skew, script[1..])
  {
    hide Exchange, Put;
  }

  /** The case of a command APDU, as its length tells it; 0 for none that T=0 can carry. */
  function CaseOf(cmd: seq<Byte>): (c: nat)
    ensures (c == 4 ==> |cmd| > 6) && (c == 2 ==> |cmd| == 5)
  {
    if |cmd| == 4 then 1
    else if |cmd| == 5 then 2
    else if |cmd| < 5 || cmd[4] == 0 then 0
    else if |cmd| == 5 + cmd[4] as int then 3
    else if |cmd| == 6 + cmd[4] as int then 4
    else 0
  }

  lemma NoneAsked(sent: seq<seq<Byte>>)
    ensures GetResponses(sent, sent)
  {
  }

  lemma ResponsesJoin(a: seq<seq<Byte>>, b: seq<seq<Byte>>, c: seq<seq<Byte>>)
    requires GetResponses(a, b) && GetResponses(b, c)
    ensures GetResponses(a, c)
  {
    forall i | |a| <= i < |c| ensures |c[i]| == 5 && c[i][..4] == [0x00, 0xC0, 0x00, 0x00] {
      if i < |b| { assert c[i] == b[i]; }
    }
  }

  lemma ReceivedIs(script: seq<Reply>, before: Buffer, after: Buffer)
    requires match Exchange(script, 258)
      case Err(_) => after == before
      case Ok(a) => after == before[..0] + a + before[0 + |a|..]
    ensures match Exchange(script, 258)
      case Err(_) => after == before
      case Ok(a) => after == Received(a, before) && after[..|a|] == a
  {
    hide Exchange;
  }

  lemma TryingEnd(goal: Raw, hdr: seq<Byte>, le: Byte, tries: seq<seq<Byte>>, rlen: nat, buf: Buffer,
                  script: seq<Reply>)
    requires Trying(goal, hdr, le, tries, rlen, buf, script) && !(rlen == 2 && buf[0] == 0x6C)
    ensures goal == Raw(Ok(rlen), buf, tries, script)
  {
  }

  /** For an honest card whatever ends as `RawLink` ends as `Link`. */
  lemma HonestMatches(hdr: seq<Byte>, le: Byte, buf: Buffer, script: seq<Reply>, sent0: seq<seq<Byte>>)
    requires HonestLink(le, le, script)
    ensures var l := RawLink(hdr, le, le, buf, script);
      Matches(Link(hdr, le, le, script), sent0, l.result, l.buf, sent0 + l.sent, l.script)
  {
    hide RawLink, Link, HonestLink;
    RawLinkHonest(hdr, le, le, buf, script);
  }

  lemma ChainFailed(goal: Outcome, e: Error, sent0: seq<seq<Byte>>, buf: seq<Byte>, sent: seq<seq<Byte>>,
                    script: seq<Reply>)
    requires goal.result == Err(e) && sent == sent0 + goal.sent && script == goal.script
    ensures Matches(goal, sent0, Err(e), buf, sent, script)
  {
  }

  lemma ChainReturned(goal: Outcome, v: seq<Byte>, sent0: seq<seq<Byte>>, buf: seq<Byte>, sent: seq<seq<Byte>>,
                      script: seq<Reply>)
    requires goal.result == Ok(v) && v <= buf && sent == sent0 + goal.sent && script == goal.script
    ensures Matches(goal, sent0, Ok(|v|), buf, sent, script)
  {
  }

  lemma AppendedStatus(whole: seq<Byte>, acc: seq<Byte>, buf: Buffer, n: nat)
    requires 2 <= n <= 258 && |acc| + n <= |whole| && whole[..|acc| + n] == acc + buf[..n]
    ensures whole[..|acc| + (n - 2)] == acc + buf[..n - 2]
    ensures whole[|acc| + (n - 2)] == buf[n - 2] && whole[|acc| + (n - 2) + 1] == buf[n - 1]
  {
    var w := whole[..|acc| + n];
    assert w[..|acc| + (n - 2)] == acc + buf[..n - 2] && whole[..|acc| + (n - 2)] == w[..|acc| + (n - 2)];
    assert w[|acc| + n - 2] == buf[n - 2] && w[|acc| + n - 1] == buf[n - 1];
  }
}
