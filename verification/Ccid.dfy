/**
 `CCCIDReader::Transfer`: matching replies to requests by the 8-bit sequence number `bSeq`
 (sections 6.1 and 6.2 of the USB CCID specification, revision 1.1).

 The wire is a FIFO. The reader may answer a request any number of times, or not at all, but answers
 requests in the order they were sent and echoes their sequence numbers. A failed read or write closes
 the channel, as both the USB and the serial communicator do.
 */
module Ccid {
  import opened Bytes

  /** `request` says which request this answers; it is not on the wire. */
  datatype Reply = Reply(seqNo: Byte, request: nat, payload: seq<Byte>)

  datatype Result = Answered(reply: Reply) | DeviceLost | SequenceError

  /** The link as a value: next sequence number, requests written so far, replies read, replies on the wire. */
  datatype Link = Link(seqNo: Byte, written: nat, consumed: seq<Reply>, inFlight: seq<Reply>, open: bool)

  function Next(s: Byte): Byte { (s + 1) % 256 }

  /** The sequence number request `k` goes out with, on a link that started at `first`. */
  function SeqOf(first: Byte, k: nat): Byte { (first + k) % 256 }

  // ----- what the reader may do -----

  predicate Ordered(q: seq<Reply>) {
    forall i, j :: 0 <= i < j < |q| ==> q[i].request <= q[j].request
  }

  /** All replies of a run so far: in request order, none before its request, each echoing its number. */
  predicate Faithful(all: seq<Reply>, first: Byte, latest: nat) {
    && Ordered(all)
    && forall i :: 0 <= i < |all| ==> all[i].request <= latest && all[i].seqNo == SeqOf(first, all[i].request)
  }

  /** While the link is open, the request before was answered, and only it has replies left on the wire. */
  predicate Consistent(l: Link, first: Byte) {
    l.open ==>
      && l.seqNo == SeqOf(first, l.written)
      && (l.written > 0 ==> l.consumed != [] && l.consumed[|l.consumed| - 1].request + 1 == l.written)
      && forall i :: 0 <= i < |l.inFlight| ==>
           l.inFlight[i].request + 1 == l.written && Next(l.inFlight[i].seqNo) == l.seqNo
  }

  // ----- one call -----

  /** Position of the first reply with sequence number `s`, or the length of the queue. */
  function FirstMatch(q: seq<Reply>, s: Byte): (n: nat)
    ensures n <= |q| && (n < |q| ==> q[n].seqNo == s) && forall i :: 0 <= i < n ==> q[i].seqNo != s
  {
    if q == [] || q[0].seqNo == s then 0 else 1 + FirstMatch(q[1..], s)
  }

  /** The call on values: `arrivals` is what the reader puts on the wire while it lasts. */
  function Call(l: Link, writable: bool, arrivals: seq<Reply>): (r: (Link, Result)) {
    if !l.open || !writable then (l.(open := false), DeviceLost)
    else
      var q := l.inFlight + arrivals;
      var n := FirstMatch(q, l.seqNo);
      if n == |q| then
        (Link(l.seqNo, l.written + 1, l.consumed + q, [], false), if q == [] then DeviceLost else SequenceError)
      else
        (Link(Next(l.seqNo), l.written + 1, l.consumed + q[..n + 1], q[n + 1..], true), Answered(q[n]))
  }

  /** The reader behaves during this call: all it ever sent is in order and faithful. */
  predicate Behaves(l: Link, arrivals: seq<Reply>, first: Byte) {
    Faithful(l.consumed + (l.inFlight + arrivals), first, l.written)
  }

  /**
   What a call does, told over the wire: the first reply with the number of the request is returned, everything
   before it is dropped and the number goes up by one, from 255 to 0; without such a reply the link is closed.
   */
  lemma CallTold(l: Link, writable: bool, arrivals: seq<Reply>)
    ensures var (after, res) := Call(l, writable, arrivals);
      var q := l.inFlight + arrivals;
      if !l.open || !writable then res == DeviceLost && !after.open && after.written == l.written
      else
        && after.written == l.written + 1
        && if forall i :: 0 <= i < |q| ==> q[i].seqNo != l.seqNo then
             !after.open && res == (if q == [] then DeviceLost else SequenceError)
           else
             && after.open && after.seqNo == (if l.seqNo == 255 then 0 else l.seqNo as int + 1)
             && res.Answered? && res.reply.seqNo == l.seqNo
             && var n := |q| - |after.inFlight| - 1;
                0 <= n < |q| && q[n] == res.reply && after.inFlight == q[n + 1..]
                && forall i :: 0 <= i < n ==> q[i].seqNo != l.seqNo
  {
    hide FirstMatch;
  }

  /** A request that the reader answers in time is answered to the caller. */
  lemma AnsweredInTime(l: Link, arrivals: seq<Reply>, first: Byte, i: nat)
    requires l.open && Consistent(l, first) && Behaves(l, arrivals, first)
    requires i < |arrivals| && arrivals[i].request == l.written
    ensures Call(l, true, arrivals).1.Answered?
  {
    hide Call;
    CallTold(l, true, arrivals);
    var q := l.inFlight + arrivals;
    StaleOrFresh(l, arrivals, first, |l.inFlight| + i);
    assert q[|l.inFlight| + i] == arrivals[i];
  }

  /** What is not yet read answers this request or the one before. */
  lemma StaleOrFresh(l: Link, arrivals: seq<Reply>, first: Byte, i: nat)
    requires l.open && Consistent(l, first) && Behaves(l, arrivals, first) && i < |l.inFlight + arrivals|
    ensures var r := (l.inFlight + arrivals)[i];
      && r.seqNo == SeqOf(first, r.request) && r.request <= l.written <= r.request + 1
      && (r.seqNo == l.seqNo <==> r.request == l.written)
  {
    var q := l.inFlight + arrivals;
    var all, c := l.consumed + q, |l.consumed|;
    assert all[c + i] == q[i];
    if l.written > 0 {
      assert all[c - 1] == l.consumed[c - 1];
      assert all[c - 1].request <= all[c + i].request;
    }
  }

  /** From the first reply with the number of this request on, everything unread answers this request. */
  lemma FreshBehind(l: Link, arrivals: seq<Reply>, first: Byte, n: nat, i: nat)
    requires l.open && Consistent(l, first) && Behaves(l, arrivals, first) && n <= i < |l.inFlight + arrivals|
    requires (l.inFlight + arrivals)[n].seqNo == l.seqNo
    ensures var r := (l.inFlight + arrivals)[i]; r.request == l.written && r.seqNo == l.seqNo
  {
    hide Consistent;
    var q := l.inFlight + arrivals;
    StaleOrFresh(l, arrivals, first, n);
    StaleOrFresh(l, arrivals, first, i);
    assert q[n] == (l.consumed + q)[|l.consumed| + n] && q[i] == (l.consumed + q)[|l.consumed| + i];
  }

  /** Headline: a successful call returns a reply to its own request and leaves the link consistent. */
  lemma CallMatches(l: Link, writable: bool, arrivals: seq<Reply>, first: Byte)
    requires Consistent(l, first) && Behaves(l, arrivals, first)
    ensures Consistent(Call(l, writable, arrivals).0, first)
    ensures var res := Call(l, writable, arrivals).1;
      res.Answered? ==> res.reply.request == l.written && res.reply.seqNo == l.seqNo
  {
    hide FirstMatch, Behaves;
    if l.open && writable {
      var q := l.inFlight + arrivals;
      var n := FirstMatch(q, l.seqNo);
      if n < |q| {
        forall i | n <= i < |q| ensures q[i].request == l.written && q[i].seqNo == l.seqNo {
          FreshBehind(l, arrivals, first, n, i);
        }
        var rest := q[n + 1..];
        assert forall i :: 0 <= i < |rest| ==> rest[i] == q[n + 1 + i];
        NumberGoesUp(l, first);
      }
    }
  }

  lemma NumberGoesUp(l: Link, first: Byte)
    requires l.seqNo == SeqOf(first, l.written)
    ensures Next(l.seqNo) == SeqOf(first, l.written + 1)
  {
  }

  // ----- whole runs -----

  datatype Turn = Turn(writable: bool, arrivals: seq<Reply>)

  function RunTo(l: Link, turns: seq<Turn>, n: nat): (r: Link)
    requires n <= |turns|
  {
    if n == 0 then l else Call(RunTo(l, turns, n - 1), turns[n - 1].writable, turns[n - 1].arrivals).0
  }

  /** Call `i` of the run, if it succeeds, returns a reply to the request it wrote. */
  predicate AnswersOwn(l: Link, turns: seq<Turn>, i: nat)
    requires i < |turns|
  {
    var at := RunTo(l, turns, i);
    var res := Call(at, turns[i].writable, turns[i].arrivals).1;
    res.Answered? ==> res.reply.request == at.written
  }

  /** Headline: over any run of calls, every answer belongs to the request it is returned for. */
  lemma {:induction false} RunMatches(l: Link, first: Byte, turns: seq<Turn>, n: nat)
    requires Consistent(l, first) && n <= |turns|
    requires forall i :: 0 <= i < n ==> Behaves(RunTo(l, turns, i), turns[i].arrivals, first)
    ensures Consistent(RunTo(l, turns, n), first)
    ensures forall i :: 0 <= i < n ==> AnswersOwn(l, turns, i)
  {
    hide Call, Consistent, Behaves;
    if n > 0 {
      RunMatches(l, first, turns, n - 1);
      CallMatches(RunTo(l, turns, n - 1), turns[n - 1].writable, turns[n - 1].arrivals, first);
    }
  }

  /**
   Closing the channel on a failed read is what this rests on: were it left open, the sequence number
   would be used again, and a late reply to the lost request would pass for an answer to the next one.
   */
  lemma ReopenedLinkMismatches()
    ensures var start := Link(7, 0, [], [], true);
      var late := Reply(7, 0, []);
      var lost := Call(start, true, []).0;
      var reopened := lost.(open := true);
      && Behaves(reopened, [late], 7)
      && Call(reopened, true, [late]).1 == Answered(late) && late.request != reopened.written
  {
    var q := [Reply(7, 0, [])];
    assert [] + ([] + q) == q && [] + q == q;
    assert FirstMatch(q, 7) == 0;
    assert FirstMatch([], 7) == 0;
  }

  // ----- the call as the driver makes it -----

  class CcidLink {
    var sequenceNo: Byte
    var attached: bool
    var open: bool
    ghost var link: Link

    ghost predicate Valid()
      reads this
    {
      link.seqNo == sequenceNo && link.open == (attached && open)
    }

    constructor (first: Byte)
      ensures Valid() && link == Link(first, 0, [], [], true) && Consistent(link, first)
    {
      sequenceNo, attached, open := first, true, true;
      link := Link(first, 0, [], [], true);
    }

    /** `writable`: the write goes through. `wire`: what the reads of this call deliver before they fail. */
    method Transfer(writable: bool, wire: seq<Reply>, ghost arrivals: seq<Reply>) returns (res: Result)
      requires Valid() && wire == link.inFlight + arrivals
      modifies this
      ensures Valid() && (link, res) == Call(old(link), writable, arrivals)
    {
      link := Call(link, writable, arrivals).0;
      if !attached { return DeviceLost; }
      if !writable || !open {
        attached := false;
        return DeviceLost;
      }
      if wire == [] {
        open := false;
        return DeviceLost;
      }
      var n := 0;
      while wire[n].seqNo != sequenceNo
        invariant 0 <= n < |wire| && forall i :: 0 <= i < n ==> wire[i].seqNo != sequenceNo
        invariant attached && open && sequenceNo == old(link.seqNo)
        decreases |wire| - n
      {
        n := n + 1;
        if n == |wire| {
          open := false;
          return SequenceError;
        }
      }
      sequenceNo := Next(sequenceNo);
      return Answered(wire[n]);
    }
  }
}
