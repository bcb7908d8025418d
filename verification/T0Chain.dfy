/**
 Case 2 of the T=0 transport of `CEC30Reader::_IfdTransmit`: a command that asks for data is sent, P3 is
 corrected after 6Cxx, and GET RESPONSE follows 61xx (section 12.2 of ISO/IEC 7816-3).

 Three readings of it: a recursion over answers (`Link`, `Chain`), a transcript of requests and answers, and the
 two loops over one buffer whose old contents show through (`RawLink`, `RawChain`).

 The card is an arbitrary script of replies. A run against a card is the run against the script of
 the replies it gave; when the script ends, the reader is gone.
 */
module T0Chain {
  import opened Bytes

  datatype Error = NotConnected | IoTimeout | BufferTooSmall | InvalidParameter | Device(code: int)

  datatype Reply = Failed(error: Error) | Answer(bytes: seq<Byte>)

  datatype Result<+T> = Ok(value: T) | Err(error: Error)

  /** One exchange: what `ccidTransmit` reports for a buffer of `cap` bytes. */
  function Exchange(script: seq<Reply>, cap: nat): (r: Result<seq<Byte>>)
    ensures r.Ok? ==> script != [] && |r.value| <= cap
  {
    if script == [] then Err(NotConnected)
    else
      match script[0]
      case Failed(e) => Err(e)
      case Answer(a) => if |a| > cap then Err(BufferTooSmall) else Ok(a)
  }

  function Rest(script: seq<Reply>): seq<Reply> { if script == [] then [] else script[1..] }

  const GET_RESPONSE: seq<Byte> := [0x00, 0xC0, 0x00, 0x00]

  /** What a call leaves behind: its result, the TPDUs sent and the replies not yet used. */
  datatype Outcome = Outcome(result: Result<seq<Byte>>, sent: seq<seq<Byte>>, script: seq<Reply>)

  // ----- case 2, the specification: recursion over links, no buffer -----

  /** What the caller gets of answer `a`: no more than it asked for when P3 was raised above Le. */
  function Cut(le: Byte, p3: Byte, a: seq<Byte>): (c: seq<Byte>) {
    if le != 0 && le < p3 && le + 2 <= |a| then a[..le] + a[|a| - 2..] else a
  }

  predicate Corrects(c: seq<Byte>) { |c| == 2 && c[0] == 0x6C }

  /** One link of the chain: P3 is corrected for as long as the card answers 6Cxx. */
  function Link(hdr: seq<Byte>, le: Byte, p3: Byte, script: seq<Reply>): (o: Outcome)
    ensures o.result.Ok? ==> |o.result.value| >= 2 && |o.script| < |script|
    ensures o.sent != []
    decreases |script|
  {
    match Exchange(script, 258)
    case Err(e) => Outcome(Err(e), [hdr + [p3]], Rest(script))
    case Ok(a) =>
      var c := Cut(le, p3, a);
      if |a| < 2 then Outcome(Err(IoTimeout), [hdr + [p3]], script[1..])
      else if Corrects(c) then After([hdr + [p3]], [], Link(hdr, le, c[1], script[1..]))
      else Outcome(Ok(c), [hdr + [p3]], script[1..])
  }

  /**
   The whole chain: the data of every link followed by the status word of the last one. The next link
   is a GET RESPONSE whose first P3 is the SW2 of the 61xx before it.
   */
  function Chain(hdr: seq<Byte>, le: Byte, script: seq<Reply>, room: int): (o: Outcome)
    decreases |script|
  {
    var l := Link(hdr, le, le, script);
    if l.result.Err? then l
    else
      var c, n := l.result.value, |l.result.value| - 2;
      if |c| > room then l.(result := Err(BufferTooSmall))
      else if c[n] != 0x61 then l
      else After(l.sent, c[..n], Chain(GET_RESPONSE, c[n + 1], l.script, room - n))
  }

  /** `o` preceded by the TPDUs `sent` and the data `data`. */
  function After(sent: seq<seq<Byte>>, data: seq<Byte>, o: Outcome): (r: Outcome)
    ensures r.result.Ok? <==> o.result.Ok?
    ensures r.result.Ok? ==> r.result.value == data + o.result.value
    ensures r.result.Err? ==> r.result == o.result
    ensures r.script == o.script && r.sent == sent + o.sent
  {
    Outcome(match o.result case Ok(v) => Ok(data + v) case Err(e) => Err(e), sent + o.sent, o.script)
  }

  lemma AfterAfter(s0: seq<seq<Byte>>, d0: seq<Byte>, s1: seq<seq<Byte>>, d1: seq<Byte>, o: Outcome)
    ensures After(s0, d0, After(s1, d1, o)) == After(s0 + s1, d0 + d1, o)
  {
    assert s0 + (s1 + o.sent) == s0 + s1 + o.sent;
    if o.result.Ok? {
      assert d0 + (d1 + o.result.value) == d0 + d1 + o.result.value;
    }
  }

  /** The response never exceeds the caller's buffer. */
  lemma {:induction false} ChainFits(hdr: seq<Byte>, le: Byte, script: seq<Reply>, room: int)
    ensures var o := Chain(hdr, le, script, room); o.result.Ok? ==> 2 <= |o.result.value| <= room
    decreases |script|
  {
    var l := Link(hdr, le, le, script);
    if l.result.Ok? {
      var c, n := l.result.value, |l.result.value| - 2;
      if |c| <= room && c[n] == 0x61 {
        ChainFits(GET_RESPONSE, c[n + 1], l.script, room - n);
      }
    }
  }

  // ----- the same as a transcript: which request follows which answer, and what is kept of each -----

  /** A TPDU header, the Le it serves and the P3 it carries. */
  datatype Request = Request(hdr: seq<Byte>, le: Byte, p3: Byte)

  /** A request and the card's answer, never less than a status word. */
  datatype Turn = Turn(request: Request, answer: seq<Byte>)

  predicate Spoken(t: Turn) { |t.answer| >= 2 }

  function StatusWord(a: seq<Byte>): (sw: seq<Byte>)
    requires |a| >= 2
    ensures |sw| == 2
  {
    a[|a| - 2..]
  }

  function Corrected(r: Request, p3: Byte): Request { Request(r.hdr, r.le, p3) }

  /** A bare 6Cxx is answered by the same request with P3 xx, 61xx by GET RESPONSE (00 C0 00 00) with Le and P3 xx. */
  function Following(t: Turn): (r: Option<Request>)
    requires Spoken(t)
  {
    var sw1, sw2 := t.answer[|t.answer| - 2], t.answer[|t.answer| - 1];
    if |t.answer| == 2 && sw1 == 0x6C then Some(Corrected(t.request, sw2))
    else if sw1 == 0x61 then Some(Request([0x00, 0xC0, 0x00, 0x00], sw2, sw2))
    else None
  }

  /** The turns follow each other from the request `first` on. */
  predicate Transcript(first: Request, turns: seq<Turn>) {
    && (forall i :: 0 <= i < |turns| ==> Spoken(turns[i]))
    && (turns != [] ==> turns[0].request == first)
    && forall i :: 0 < i < |turns| ==> Following(turns[i - 1]) == Some(turns[i].request)
  }

  /** The request that comes after these turns, if any. */
  function Upcoming(first: Request, turns: seq<Turn>): (r: Option<Request>)
    requires Transcript(first, turns)
  {
    if turns == [] then Some(first) else Following(turns[|turns| - 1])
  }

  /** The data kept of an answer: no more than Le bytes where P3 was raised above Le. */
  function Kept(t: Turn): (d: seq<Byte>)
    requires Spoken(t)
  {
    var le, p3, n := t.request.le as int, t.request.p3 as int, |t.answer| - 2;
    if 0 < le < p3 && le < n then t.answer[..le] else t.answer[..n]
  }

  function Delivered(turns: seq<Turn>): (d: seq<Byte>)
    requires forall i :: 0 <= i < |turns| ==> Spoken(turns[i])
  {
    if turns == [] then [] else Delivered(turns[..|turns| - 1]) + Kept(turns[|turns| - 1])
  }

  function TpduOf(r: Request): seq<Byte> { r.hdr + [r.p3] }

  function Tpdus(turns: seq<Turn>): (s: seq<seq<Byte>>) {
    if turns == [] then [] else Tpdus(turns[..|turns| - 1]) + [TpduOf(turns[|turns| - 1].request)]
  }

  /** The turns are the first exchanges of the script. */
  predicate Uses(turns: seq<Turn>, script: seq<Reply>) {
    |turns| <= |script| && forall i :: 0 <= i < |turns| ==> script[i] == Answer(turns[i].answer)
  }

  lemma CutFacts(le: Byte, p3: Byte, a: seq<Byte>)
    requires |a| >= 2
    ensures var c := Cut(le, p3, a); |c| >= 2 && StatusWord(c) == StatusWord(a) && (Corrects(c) <==> Corrects(a))
    ensures Corrects(a) ==> Cut(le, p3, a) == a
  {
  }

  lemma {:induction false} TurnsConcat(xs: seq<Turn>, ys: seq<Turn>)
    requires (forall i :: 0 <= i < |xs| ==> Spoken(xs[i])) && (forall i :: 0 <= i < |ys| ==> Spoken(ys[i]))
    ensures forall i :: 0 <= i < |xs + ys| ==> Spoken((xs + ys)[i])
    ensures Delivered(xs + ys) == Delivered(xs) + Delivered(ys) && Tpdus(xs + ys) == Tpdus(xs) + Tpdus(ys)
    decreases |ys|
  {
    hide Kept, Spoken, TpduOf;
    if ys == [] {
      assert xs + ys == xs;
    } else {
      var front := ys[..|ys| - 1];
      TurnsConcat(xs, front);
      assert (xs + ys)[..|xs + ys| - 1] == xs + front;
    }
  }

  lemma OneTurn(t: Turn)
    requires Spoken(t)
    ensures Delivered([t]) == Kept(t) && Tpdus([t]) == [TpduOf(t.request)] && Transcript(t.request, [t])
  {
    hide Kept;
    assert [t][..0] == [];
  }

  lemma TranscriptConcat(first: Request, xs: seq<Turn>, ys: seq<Turn>)
    requires xs != [] && Transcript(first, xs) && Following(xs[|xs| - 1]).Some?
    requires Transcript(Following(xs[|xs| - 1]).value, ys)
    ensures Transcript(first, xs + ys)
    ensures Upcoming(first, xs + ys) == Upcoming(Following(xs[|xs| - 1]).value, ys)
  {
    hide Following;
    var all := xs + ys;
    forall i | 0 < i < |all| ensures Spoken(all[i]) && Following(all[i - 1]) == Some(all[i].request) {
      if i > |xs| { assert all[i] == ys[i - |xs|] && all[i - 1] == ys[i - |xs| - 1]; }
    }
  }

  lemma UsesConcat(xs: seq<Turn>, ys: seq<Turn>, script: seq<Reply>)
    requires Uses(xs, script) && Uses(ys, script[|xs|..])
    ensures Uses(xs + ys, script) && script[|xs|..][|ys|..] == script[|xs + ys|..]
  {
    forall i | |xs| <= i < |xs + ys| ensures script[i] == Answer((xs + ys)[i].answer) {
      assert script[i] == script[|xs|..][i - |xs|];
    }
  }

  /** The next exchange fails with `e`: the reader is gone or refuses, or the answer is too long or too short. */
  predicate FailsWith(rest: seq<Reply>, e: Error, cap: int, shortest: nat) {
    if rest == [] then e == NotConnected
    else
      match rest[0]
      case Failed(x) => e == x
      case Answer(a) => (|a| > cap && e == BufferTooSmall) || (|a| <= cap && |a| < shortest && e == IoTimeout)
  }

  /** What a link returns, told by the transcript of its requests and answers. */
  predicate LinkTold(o: Outcome, first: Request, turns: seq<Turn>, script: seq<Reply>) {
    && Transcript(first, turns) && Uses(turns, script)
    && match o.result
       case Ok(c) =>
         && turns != [] && !Corrects(turns[|turns| - 1].answer)
         && o.sent == Tpdus(turns) && o.script == script[|turns|..]
         && c == Delivered(turns) + StatusWord(turns[|turns| - 1].answer)
       case Err(e) =>
         && Upcoming(first, turns).Some? && o.sent == Tpdus(turns) + [TpduOf(Upcoming(first, turns).value)]
         && FailsWith(script[|turns|..], e, 258, 2)
  }

  /** A link is a run of bare 6Cxx answers and one last answer, of which the cut is kept. */
  lemma {:induction false} LinkPayload(hdr: seq<Byte>, le: Byte, p3: Byte, script: seq<Reply>)
    returns (turns: seq<Turn>)
    ensures LinkTold(Link(hdr, le, p3, script), Request(hdr, le, p3), turns, script)
    decreases |script|
  {
    hide Kept, Delivered, Tpdus, Cut, Following;
    var first := Request(hdr, le, p3);
    NoTurns(first);
    turns := [];
    assert script[0..] == script;
    if Exchange(script, 258).Ok? && |Exchange(script, 258).value| >= 2 {
      var a := Exchange(script, 258).value;
      var t := Turn(first, a);
      CutFacts(le, p3, a);
      OneTurn(t);
      KeptWhole(t);
      if Corrects(a) {
        var rest := LinkPayload(hdr, le, a[1], script[1..]);
        FirstTurn(t, rest, Link(hdr, le, a[1], script[1..]), script);
        turns := [t] + rest;
      } else {
        turns := [t];
      }
    }
  }

  lemma NoTurns(first: Request)
    ensures Transcript(first, []) && Upcoming(first, []) == Some(first) && Tpdus([]) == [] && Delivered([]) == []
  {
  }

  lemma KeptWhole(t: Turn)
    requires Spoken(t)
    ensures Cut(t.request.le, t.request.p3, t.answer) == Kept(t) + StatusWord(t.answer)
  {
    CutFacts(t.request.le, t.request.p3, t.answer);
  }

  lemma CorrectionFollows(t: Turn)
    requires Spoken(t) && Corrects(t.answer)
    ensures Following(t) == Some(Corrected(t.request, t.answer[1])) && Kept(t) == []
  {
  }

  /** A correction in front of a link. */
  lemma FirstTurn(t: Turn, rest: seq<Turn>, o: Outcome, script: seq<Reply>)
    requires Spoken(t) && Corrects(t.answer) && script != [] && script[0] == Answer(t.answer)
    requires LinkTold(o, Corrected(t.request, t.answer[1]), rest, script[1..])
    ensures LinkTold(After([TpduOf(t.request)], [], o), t.request, [t] + rest, script)
  {
    hide Kept, Delivered, Tpdus, Cut, Following, Transcript, TpduOf, Uses, FailsWith;
    OneTurn(t);
    CorrectionFollows(t);
    TranscriptConcat(t.request, [t], rest);
    TranscriptSpoken(Corrected(t.request, t.answer[1]), rest);
    TurnsConcat([t], rest);
    assert Uses([t], script) by { UsesOne(t, script); }
    UsesConcat([t], rest, script);
    var all := [t] + rest;
    assert rest != [] ==> all[|all| - 1] == rest[|rest| - 1];
    assert [] + Delivered(rest) == Delivered(rest);
    if o.result.Ok? { assert [] + o.result.value == o.result.value; }
    assert [TpduOf(t.request)] + (Tpdus(rest)) == Tpdus(all);
  }

  lemma UsesOne(t: Turn, script: seq<Reply>)
    requires script != [] && script[0] == Answer(t.answer)
    ensures Uses([t], script)
  {
  }

  lemma TranscriptSpoken(first: Request, turns: seq<Turn>)
    requires Transcript(first, turns)
    ensures forall i :: 0 <= i < |turns| ==> Spoken(turns[i])
  {
  }

  /**
   What a chain returns, told by its transcript: on success the data kept of every answer and the last status
   word; otherwise the requests up to the exchange that failed, or up to the link that did not fit.
   */
  predicate ChainTold(o: Outcome, first: Request, turns: seq<Turn>, script: seq<Reply>, room: int) {
    && Transcript(first, turns) && Uses(turns, script)
    && match o.result
       case Ok(v) =>
         && turns != [] && Upcoming(first, turns) == None
         && o.sent == Tpdus(turns) && o.script == script[|turns|..]
         && v == Delivered(turns) + StatusWord(turns[|turns| - 1].answer) && |v| <= room
       case Err(e) =>
         || (&& Upcoming(first, turns).Some? && o.sent == Tpdus(turns) + [TpduOf(Upcoming(first, turns).value)]
             && FailsWith(script[|turns|..], e, 258, 2))
         || (e == BufferTooSmall && o.sent == Tpdus(turns) && |Delivered(turns)| + 2 > room)
  }

  /** Headline: case 2, cut or not, as a transcript. */
  lemma {:induction false} ChainPayload(hdr: seq<Byte>, le: Byte, script: seq<Reply>, room: int)
    returns (turns: seq<Turn>)
    ensures ChainTold(Chain(hdr, le, script, room), Request(hdr, le, le), turns, script, room)
    decreases |script|
  {
    hide Kept, Delivered, Tpdus, Cut, Following, Transcript, TpduOf, Uses, Link;
    var l := Link(hdr, le, le, script);
    var first := Request(hdr, le, le);
    turns := LinkPayload(hdr, le, le, script);
    if l.result.Ok? {
      var c, n := l.result.value, |l.result.value| - 2;
      LinkEnd(first, turns);
      assert c[n] == StatusWord(turns[|turns| - 1].answer)[0] && c[n + 1] == StatusWord(turns[|turns| - 1].answer)[1];
      assert c[..n] == Delivered(turns);
      if |c| <= room && c[n] == 0x61 {
        var rest := ChainPayload(GET_RESPONSE, c[n + 1], l.script, room - n);
        NextLink(first, turns, rest, Chain(GET_RESPONSE, c[n + 1], l.script, room - n), script, room);
        turns := turns + rest;
      }
    }
  }

  lemma LinkEnd(first: Request, turns: seq<Turn>)
    requires Transcript(first, turns) && turns != [] && !Corrects(turns[|turns| - 1].answer)
    ensures forall i :: 0 <= i < |turns| ==> Spoken(turns[i])
    ensures var sw := StatusWord(turns[|turns| - 1].answer);
      Upcoming(first, turns) == (if sw[0] == 0x61 then Some(Request(GET_RESPONSE, sw[1], sw[1])) else None)
  {
  }

  /** A link in front of a chain. */
  lemma NextLink(first: Request, turns: seq<Turn>, rest: seq<Turn>, o: Outcome, script: seq<Reply>, room: int)
    requires Transcript(first, turns) && Uses(turns, script) && turns != []
    requires Following(turns[|turns| - 1]).Some?
    requires var n := |Delivered(turns)|;
      ChainTold(o, Following(turns[|turns| - 1]).value, rest, script[|turns|..], room - n)
    ensures ChainTold(After(Tpdus(turns), Delivered(turns), o), first, turns + rest, script, room)
  {
    hide Kept, Delivered, Tpdus, Cut, Following, Transcript, TpduOf, Uses, FailsWith;
    TranscriptSpoken(first, turns);
    var next := Following(turns[|turns| - 1]).value;
    TranscriptConcat(first, turns, rest);
    TranscriptSpoken(next, rest);
    TurnsConcat(turns, rest);
    UsesConcat(turns, rest, script);
    var all := turns + rest;
    assert rest != [] ==> all[|all| - 1] == rest[|rest| - 1];
    if o.result.Ok? {
      var sw := StatusWord(rest[|rest| - 1].answer);
      assert Delivered(turns) + (Delivered(rest) + sw) == Delivered(turns) + Delivered(rest) + sw;
    } else if Upcoming(next, rest).Some? {
      var t := [TpduOf(Upcoming(next, rest).value)];
      assert Tpdus(turns) + (Tpdus(rest) + t) == Tpdus(turns) + Tpdus(rest) + t;
    }
  }

  // ----- the same in one buffer of 258 bytes, where old contents show through -----

  type Buffer = b: seq<Byte> | |b| == 258 witness seq(258, _ => 0)

  /** The buffer after answer `a` arrived over older contents. */
  function Received(a: seq<Byte>, stale: Buffer): (b: Buffer)
    requires |a| <= 258
  {
    a + stale[|a|..]
  }

  /** The `memmove` that brings two bytes down from offset La to offset Le. */
  function MovedDown(b: Buffer, le: Byte, la: Byte): (r: Buffer) {
    b[le as int := b[la]][le as int + 1 := b[la as int + 1]]
  }

  /** What the inner loop leaves behind: the bytes in use, the buffer, the TPDUs sent, the replies not yet used. */
  datatype Raw = Raw(result: Result<nat>, buf: Buffer, sent: seq<seq<Byte>>, script: seq<Reply>)

  function Tried(sent: seq<seq<Byte>>, o: Raw): (r: Raw) { o.(sent := sent + o.sent) }

  /** The inner loop from P3 `la` on, for any card. */
  function RawLink(hdr: seq<Byte>, le: Byte, la: Byte, buf: Buffer, script: seq<Reply>): (o: Raw)
    ensures o.result.Ok? ==> 2 <= o.result.value <= 258 && |o.script| < |script|
    ensures o.sent != []
    decreases |script|
  {
    match Exchange(script, 258)
    case Err(e) => Raw(Err(e), buf, [hdr + [la]], Rest(script))
    case Ok(a) =>
      var b := Received(a, buf);
      if |a| < 2 then Raw(Err(IoTimeout), b, [hdr + [la]], script[1..])
      else if le != 0 && le < la then Raw(Ok(le as int + 2), MovedDown(b, le, la), [hdr + [la]], script[1..])
      else if Corrects(a) then Tried([hdr + [la]], RawLink(hdr, le, a[1], b, script[1..]))
      else Raw(Ok(|a|), b, [hdr + [la]], script[1..])
  }

  /** The first two bytes are set before a link, so that the loop starts. */
  function Primed(buf: Buffer, le: Byte): (b: Buffer) { buf[0 := 0x6C][1 := le] }

  /** Both loops, for any card and whatever the buffer held before. */
  function RawChain(hdr: seq<Byte>, le: Byte, buf: Buffer, script: seq<Reply>, room: int): (o: Outcome)
    decreases |script|
  {
    var l := RawLink(hdr, le, le, Primed(buf, le), script);
    match l.result
    case Err(e) => Outcome(Err(e), l.sent, l.script)
    case Ok(n) =>
      if n > room then Outcome(Err(BufferTooSmall), l.sent, l.script)
      else if l.buf[n - 2] != 0x61 then Outcome(Ok(l.buf[..n]), l.sent, l.script)
      else After(l.sent, l.buf[..n - 2], RawChain(GET_RESPONSE, l.buf[n - 1], l.buf, l.script, room - (n - 2)))
  }

  // ----- when the buffer does not show -----

  /** The two bytes at offset La of the answer are its status word. */
  predicate SoundCut(la: Byte, a: seq<Byte>) {
    2 <= |a| && la as int + 2 <= |a| && a[la..la as int + 2] == StatusWord(a)
  }

  /** The bytes moved down are the status word, whatever the buffer held before, exactly when the cut is sound. */
  lemma CutIsSound(la: Byte, a: seq<Byte>)
    requires 2 <= |a| <= 258
    ensures (forall stale: Buffer :: Received(a, stale)[la..la as int + 2] == StatusWord(a)) <==> SoundCut(la, a)
  {
    if la as int + 2 <= |a| {
      forall stale: Buffer
        ensures Received(a, stale)[la..la as int + 2] == a[la..la as int + 2]
      {
      }
      var zero: Buffer := seq(258, _ => 0);
      assert Received(a, zero)[la..la as int + 2] == a[la..la as int + 2];
    } else {
      var other: Byte := if a[|a| - 1] == 0 then 1 else 0;
      var stale: Buffer := seq(258, _ => other);
      assert Received(a, stale)[la..la as int + 2][1] == other;
    }
  }

  /** Wherever P3 was raised above Le the cut is sound, as with a card that honours the P3 it asked for. */
  predicate HonestLink(le: Byte, p3: Byte, script: seq<Reply>)
    decreases |script|
  {
    match Exchange(script, 258)
    case Err(_) => true
    case Ok(a) =>
      |a| >= 2 ==>
        && (le != 0 && le < p3 ==> SoundCut(p3, a))
        && (Corrects(a) ==> HonestLink(le, a[1], script[1..]))
  }

  predicate Honest(hdr: seq<Byte>, le: Byte, script: seq<Reply>, room: int)
    decreases |script|
  {
    && HonestLink(le, le, script)
    && var l := Link(hdr, le, le, script);
       l.result.Ok? ==>
         var c, n := l.result.value, |l.result.value| - 2;
         |c| <= room && c[n] == 0x61 ==> Honest(GET_RESPONSE, c[n + 1], l.script, room - n)
  }

  /** The buffer holds what the recursion over answers returns, after the same TPDUs. */
  predicate Agrees(r: Raw, o: Outcome) {
    && r.sent == o.sent && r.script == o.script
    && match o.result
       case Err(e) => r.result == Err(e)
       case Ok(v) => r.result == Ok(|v|) && v <= r.buf
  }

  lemma MovedIsCut(le: Byte, la: Byte, a: seq<Byte>, buf: Buffer)
    requires le < la && |a| <= 258 && SoundCut(la, a)
    ensures Cut(le, la, a) == MovedDown(Received(a, buf), le, la)[..le as int + 2] || le == 0
  {
    var m := MovedDown(Received(a, buf), le, la)[..le as int + 2];
    assert m[..le] == a[..le];
    assert m[le] == a[la] == StatusWord(a)[0] && m[le as int + 1] == a[la as int + 1] == StatusWord(a)[1];
  }

  lemma AgreesErr(buf: Buffer, e: Error, sent: seq<seq<Byte>>, script: seq<Reply>)
    ensures Agrees(Raw(Err(e), buf, sent, script), Outcome(Err(e), sent, script))
  {
  }

  lemma AgreesOk(buf: Buffer, c: seq<Byte>, sent: seq<seq<Byte>>, script: seq<Reply>)
    requires c <= buf
    ensures Agrees(Raw(Ok(|c|), buf, sent, script), Outcome(Ok(c), sent, script))
  {
  }

  lemma ReceivedStarts(a: seq<Byte>, buf: Buffer)
    requires |a| <= 258
    ensures a <= Received(a, buf)
  {
  }

  lemma {:induction false} RawLinkHonest(hdr: seq<Byte>, le: Byte, la: Byte, buf: Buffer, script: seq<Reply>)
    requires HonestLink(le, la, script)
    ensures Agrees(RawLink(hdr, le, la, buf, script), Link(hdr, le, la, script))
    decreases |script|
  {
    hide Agrees, MovedDown, SoundCut, Cut, Received, Tried, After;
    var sent := [hdr + [la]];
    match Exchange(script, 258)
    case Err(e) => AgreesErr(buf, e, sent, Rest(script));
    case Ok(a) =>
      var b := Received(a, buf);
      ReceivedStarts(a, buf);
      if |a| < 2 {
        AgreesErr(b, IoTimeout, sent, script[1..]);
      } else {
        CutFacts(le, la, a);
        if le != 0 && le < la {
          MovedIsCut(le, la, a, buf);
          SoundIsLong(le, la, a);
          AgreesOk(MovedDown(b, le, la), Cut(le, la, a), sent, script[1..]);
        } else {
          UncutIsWhole(le, la, a);
          if Corrects(a) {
            RawLinkHonest(hdr, le, a[1], b, script[1..]);
            TriedAgrees(sent, RawLink(hdr, le, a[1], b, script[1..]), Link(hdr, le, a[1], script[1..]));
          } else {
            AgreesOk(b, a, sent, script[1..]);
          }
        }
      }
  }

  lemma UncutIsWhole(le: Byte, la: Byte, a: seq<Byte>)
    requires !(le != 0 && le < la)
    ensures Cut(le, la, a) == a
  {
  }

  lemma SoundIsLong(le: Byte, la: Byte, a: seq<Byte>)
    requires le != 0 && le < la && SoundCut(la, a)
    ensures !Corrects(a) && |Cut(le, la, a)| == le as int + 2
  {
  }

  /** From offset 2 on the buffer holds nothing but `c`. */
  predicate Filled(buf: Buffer, c: Byte) { forall i :: 2 <= i < 258 ==> buf[i] == c }

  /** For any other card there are old contents that show through. */
  lemma {:induction false} RawLinkDishonest(hdr: seq<Byte>, le: Byte, la: Byte, script: seq<Reply>) returns (c: Byte)
    requires !HonestLink(le, la, script)
    ensures forall buf: Buffer | Filled(buf, c) :: !Agrees(RawLink(hdr, le, la, buf, script), Link(hdr, le, la, script))
    decreases |script|
  {
    hide Cut, MovedDown, SoundCut;
    var a := Exchange(script, 258).value;
    CutFacts(le, la, a);
    if le != 0 && le < la {
      c := if a[|a| - 1] == 0 then 1 else 0;
      if SoundCut(la, a) { SoundIsLong(le, la, a); }
      forall buf: Buffer | Filled(buf, c)
        ensures !Agrees(RawLink(hdr, le, la, buf, script), Link(hdr, le, la, script))
      {
        CutShows(hdr, le, la, script, buf, c);
      }
    } else {
      c := RawLinkDishonest(hdr, le, a[1], script[1..]);
      forall buf: Buffer | Filled(buf, c)
        ensures !Agrees(RawLink(hdr, le, la, buf, script), Link(hdr, le, la, script))
      {
        assert Filled(Received(a, buf), c);
        var r, o := RawLink(hdr, le, a[1], Received(a, buf), script[1..]), Link(hdr, le, a[1], script[1..]);
        assert !Agrees(r, o);
        TriedAgrees([hdr + [la]], r, o);
      }
    }
  }

  lemma TriedAgrees(sent: seq<seq<Byte>>, r: Raw, o: Outcome)
    ensures Agrees(Tried(sent, r), After(sent, [], o)) <==> Agrees(r, o)
  {
    assert sent + r.sent == sent + o.sent <==> r.sent == o.sent by {
      assert (sent + r.sent)[|sent|..] == r.sent && (sent + o.sent)[|sent|..] == o.sent;
    }
    if o.result.Ok? { assert [] + o.result.value == o.result.value; }
  }

  /** The bytes moved down are not the status word. */
  lemma MovedShows(le: Byte, la: Byte, a: seq<Byte>, buf: Buffer, c: Byte)
    requires 2 <= |a| <= 258 && le < la && le as int + 2 <= |a| && Filled(buf, c) && !SoundCut(la, a)
    requires c != a[|a| - 1]
    ensures !(a[..le] + StatusWord(a) <= MovedDown(Received(a, buf), le, la))
  {
    var k, n := le as int, la as int;
    var v, m, b := a[..le] + StatusWord(a), MovedDown(Received(a, buf), le, la), Received(a, buf);
    assert v[k] == a[|a| - 2] && v[k + 1] == a[|a| - 1] && m[k] == b[n] && m[k + 1] == b[n + 1];
    if n + 2 <= |a| {
      assert b[n] == a[n] && b[n + 1] == a[n + 1];
      assert a[n..n + 2] == [a[n], a[n + 1]] && StatusWord(a) == [a[|a| - 2], a[|a| - 1]];
    } else {
      assert b[n + 1] == c;
    }
  }

  lemma CutShows(hdr: seq<Byte>, le: Byte, la: Byte, script: seq<Reply>, buf: Buffer, c: Byte)
    requires Exchange(script, 258).Ok? && |Exchange(script, 258).value| >= 2
    requires le != 0 && le < la && Filled(buf, c) && !SoundCut(la, Exchange(script, 258).value)
    requires c != Exchange(script, 258).value[|Exchange(script, 258).value| - 1]
    ensures !Agrees(RawLink(hdr, le, la, buf, script), Link(hdr, le, la, script))
  {
    hide MovedDown, Received, SoundCut, Filled;
    var a := Exchange(script, 258).value;
    var r, o := RawLink(hdr, le, la, buf, script), Link(hdr, le, la, script);
    assert r.result == Ok(le as int + 2) && |r.sent| == 1;
    if Corrects(a) {
      assert |o.sent| >= 2;
    } else if le as int + 2 <= |a| {
      MovedShows(le, la, a, buf, c);
    }
  }

  /** Headline: the buffer agrees with the answers, whatever it held before, exactly for honest cards. */
  lemma LinkExact(hdr: seq<Byte>, le: Byte, la: Byte, script: seq<Reply>)
    ensures (forall buf: Buffer :: Agrees(RawLink(hdr, le, la, buf, script), Link(hdr, le, la, script)))
       <==> HonestLink(le, la, script)
  {
    hide Agrees, RawLink, Link, HonestLink;
    if HonestLink(le, la, script) {
      forall buf: Buffer ensures Agrees(RawLink(hdr, le, la, buf, script), Link(hdr, le, la, script)) {
        RawLinkHonest(hdr, le, la, buf, script);
      }
    } else {
      var c := RawLinkDishonest(hdr, le, la, script);
      var buf: Buffer := seq(258, _ => c);
      assert Filled(buf, c);
      assert !Agrees(RawLink(hdr, le, la, buf, script), Link(hdr, le, la, script));
    }
  }

  /** Le 1, corrected to 5, and then an error without data: the caller gets three bytes, two of them left over. */
  lemma LeftoversReturned(hdr: seq<Byte>, buf: Buffer, room: nat)
    requires room >= 258
    ensures var script := [Answer([0x6C, 0x05]), Answer([0x69, 0x82])];
      && Chain(hdr, 1, script, room).result == Ok([0x69, 0x82])
      && (buf[5] != 0x61 ==> RawChain(hdr, 1, buf, script, room).result == Ok([0x69, buf[5], buf[6]]))
  {
    hide Chain;
    var script := [Answer([0x6C, 0x05]), Answer([0x69, 0x82])];
    var b := Primed(buf, 1);
    var b1 := Received([0x6C, 0x05], b);
    var b2 := Received([0x69, 0x82], b1);
    assert script[1..] == [Answer([0x69, 0x82])];
    var l := RawLink(hdr, 1, 5, b1, script[1..]);
    assert l.buf == MovedDown(b2, 1, 5) && l.result == Ok(3);
    assert l.buf[..3] == [0x69, buf[5], buf[6]];
    assert RawLink(hdr, 1, 1, b, script) == Tried([hdr + [1]], l);
    ErrorLink(hdr);
    ChainOne(hdr, 1, script, room, [0x69, 0x82]);
  }

  lemma ErrorLink(hdr: seq<Byte>)
    ensures Link(hdr, 1, 1, [Answer([0x6C, 0x05]), Answer([0x69, 0x82])]).result == Ok([0x69, 0x82])
  {
    var script := [Answer([0x6C, 0x05]), Answer([0x69, 0x82])];
    assert script[1..] == [Answer([0x69, 0x82])];
    assert Link(hdr, 1, 5, script[1..]).result == Ok([0x69, 0x82]);
    assert [] + [0x69, 0x82] == [0x69, 0x82];
  }

  lemma ChainOne(hdr: seq<Byte>, le: Byte, script: seq<Reply>, room: int, v: seq<Byte>)
    requires Link(hdr, le, le, script).result == Ok(v) && 2 <= |v| <= room && v[|v| - 2] != 0x61
    ensures Chain(hdr, le, script, room).result == Ok(v)
  {
    hide Link;
  }

  /** For an honest card both loops return the chain, whatever the buffer held before. */
  lemma {:induction false} RawChainHonest(hdr: seq<Byte>, le: Byte, buf: Buffer, script: seq<Reply>, room: int)
    requires Honest(hdr, le, script, room)
    ensures RawChain(hdr, le, buf, script, room) == Chain(hdr, le, script, room)
    decreases |script|
  {
    hide RawLink, Link, HonestLink, Primed;
    var l, o := RawLink(hdr, le, le, Primed(buf, le), script), Link(hdr, le, le, script);
    RawLinkHonest(hdr, le, le, Primed(buf, le), script);
    if o.result.Ok? {
      var c, n := o.result.value, |o.result.value| - 2;
      assert l.buf[..n + 2] == c && l.buf[..n] == c[..n] && l.buf[n] == c[n] && l.buf[n + 1] == c[n + 1];
      if |c| <= room && c[n] == 0x61 {
        RawChainHonest(GET_RESPONSE, c[n + 1], l.buf, l.script, room - n);
      }
    }
  }
}
