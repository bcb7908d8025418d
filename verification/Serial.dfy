/**
 `CSerialUnix`: framing of CCID messages on a serial line, with an additive and an XOR checksum
 behind every message and an ACK or NAK byte in return.

 The operating system may take or deliver any positive number of bytes per call; `chunk` decides. `breaks` says
 which calls that write or drain fail, and `dropped` how much a flush discards. A read that fails is the end of
 the input.
 */
module Serial {
  import opened Bytes

  const NOTIFY_SLOT_CHANGE: bv8 := 0x50
  const HARDWARE_ERROR: bv8 := 0x51
  const KEY_EVENT: bv8 := 0x40
  const ACK: bv8 := 0xff
  const NAK: bv8 := 0x00

  // ----- the format -----

  /** The sum of the bytes as numbers. */
  function Total(s: seq<bv8>): nat {
    if s == [] then 0 else Total(s[..|s| - 1]) + s[|s| - 1] as int
  }

  /** The additive checksum: the sum of the bytes modulo 256, as a C `uint8_t` wraps around. */
  function Sum(s: seq<bv8>): bv8 { (Total(s) % 256) as bv8 }

  function Frame(msg: seq<bv8>): (f: seq<bv8>)
    ensures |f| == |msg| + 2
  {
    msg + [Sum(msg), Xor(msg)]
  }

  /** A frame is the message, the sum of its bytes modulo 256 and their XOR. */
  lemma FrameTold(msg: seq<bv8>)
    ensures var f, n := Frame(msg), |msg|;
      |f| == n + 2 && f[..n] == msg && f[n] == (Total(msg) % 256) as bv8 && f[n + 1] == Xor(msg)
  {
    hide Xor, Total;
  }

  lemma ModuloSum(a: nat, b: nat)
    ensures (a % 256 + b) % 256 == (a + b) % 256
  {
  }

  predicate Interrupt(b: bv8) { b == NOTIFY_SLOT_CHANGE || b == HARDWARE_ERROR || b == KEY_EVENT }

  predicate Acknowledge(b: bv8) { b == ACK || b == NAK }

  function Length(s: seq<bv8>): nat
    requires |s| >= 3
  {
    256 * (s[2] as int) + s[1] as int
  }

  /** A CCID message: ten bytes of header, then as many as the header says. */
  predicate IsMessage(msg: seq<bv8>) {
    |msg| >= 10 && !Interrupt(msg[0]) && !Acknowledge(msg[0]) && |msg| == 10 + Length(msg)
  }

  // ----- what the receiver makes of a byte stream -----

  /** The size of the message at the head of the stream, once enough of it is there. */
  function HeadSize(input: seq<bv8>): (n: Option<nat>)
    ensures n.Some? ==> 1 <= n.value
  {
    if input == [] then None
    else if Interrupt(input[0]) then Some(2)
    else if Acknowledge(input[0]) then Some(1)
    else if |input| < 10 then None
    else Some(10 + Length(input))
  }

  /** 50, 51 and 40 start a message of two bytes, 00 and FF one of one byte; any other has ten bytes and a length. */
  lemma HeadTold(input: seq<bv8>)
    ensures HeadSize(input) ==
      if |input| == 0 then None
      else if input[0] == 0x50 || input[0] == 0x51 || input[0] == 0x40 then Some(2)
      else if input[0] == 0x00 || input[0] == 0xFF then Some(1)
      else if |input| < 10 then None
      else Some(10 + input[1] as int + 256 * (input[2] as int))
  {
  }

  datatype Received = Lost | Good(msg: seq<bv8>, rest: seq<bv8>) | Bad(rest: seq<bv8>)

  /** One frame off the stream. Interrupt messages are taken whatever their checksums say. */
  function Receive(input: seq<bv8>, cap: nat): (r: Received)
    ensures !r.Lost? ==> |r.rest| < |input|
  {
    var size := HeadSize(input);
    if size.None? || size.value > cap || |input| < size.value + 2 then Lost
    else
      var n := size.value;
      if Interrupt(input[0]) || input[..n + 2] == Frame(input[..n]) then Good(input[..n], input[n + 2..])
      else Bad(input[n + 2..])
  }

  /** Headline: what was framed is received, whatever follows it. */
  lemma RoundTrip(msg: seq<bv8>, rest: seq<bv8>, cap: nat)
    requires IsMessage(msg) && |msg| <= cap
    ensures Receive(Frame(msg) + rest, cap) == Good(msg, rest)
  {
    hide Sum, Xor;
    var f := Frame(msg) + rest;
    assert HeadSize(f) == Some(|msg|);
    assert f[..|msg|] == msg && f[..|msg| + 2] == Frame(msg) && f[|msg| + 2..] == rest;
  }

  lemma {:induction false} XorUpdate(s: seq<bv8>, i: nat, b: bv8)
    requires i < |s|
    ensures Xor(s[i := b]) == Xor(s) ^ s[i] ^ b
  {
    var n := |s| - 1;
    if i == n {
      assert s[i := b][..n] == s[..n];
      XorCancel(Xor(s[..n]), s[i], b);
    } else {
      XorUpdate(s[..n], i, b);
      assert s[i := b][..n] == s[..n][i := b];
      XorSwap(Xor(s[..n]), s[i], b, s[n]);
    }
  }

  lemma XorCancel(x: bv8, y: bv8, b: bv8)
    ensures x ^ b == x ^ y ^ y ^ b
  {
  }

  lemma XorSwap(x: bv8, y: bv8, b: bv8, z: bv8)
    ensures x ^ y ^ b ^ z == x ^ z ^ y ^ b
  {
  }

  /** Headline: one byte changed behind the length field, checksums included, is always detected. */
  lemma SubstitutionDetected(msg: seq<bv8>, i: nat, b: bv8, rest: seq<bv8>, cap: nat)
    requires IsMessage(msg) && |msg| <= cap && 3 <= i < |msg| + 2 && b != Frame(msg)[i]
    ensures Receive(Frame(msg)[i := b] + rest, cap) == Bad(rest)
  {
    hide Sum, Xor, Frame, HeadSize, IsMessage;
    var n := |msg|;
    var g := Frame(msg)[i := b];
    var f := g + rest;
    HeadKept(msg, i, b, rest);
    DamagedDiffers(msg, i, b);
    assert f[..n + 2] == g && f[..n] == g[..n] && f[n + 2..] == rest;
  }

  /** Damage behind the length field leaves the kind and the size of the message alone. */
  lemma HeadKept(msg: seq<bv8>, i: nat, b: bv8, rest: seq<bv8>)
    requires IsMessage(msg) && 3 <= i < |msg| + 2
    ensures var f := Frame(msg)[i := b] + rest;
      |f| > 0 && f[0] == msg[0] && !Interrupt(f[0]) && HeadSize(f) == Some(|msg|)
  {
    hide Sum, Xor;
    var f := Frame(msg)[i := b] + rest;
    assert f[0] == msg[0] && f[1] == msg[1] && f[2] == msg[2];
  }

  lemma DamagedDiffers(msg: seq<bv8>, i: nat, b: bv8)
    requires i < |msg| + 2 && b != Frame(msg)[i]
    ensures var g := Frame(msg)[i := b]; g != Frame(g[..|msg|])
  {
    hide Sum, Xor;
    var n := |msg|;
    var g := Frame(msg)[i := b];
    if i < n {
      assert g[..n] == msg[i := b];
      XorUpdate(msg, i, b);
      XorChanged(Xor(msg), msg[i], b);
      assert Frame(g[..n])[n + 1] != g[n + 1];
    } else {
      assert g[..n] == msg;
      assert g[i] != Frame(msg)[i];
    }
  }

  lemma XorChanged(x: bv8, y: bv8, b: bv8)
    requires y != b
    ensures x ^ y ^ b != x
  {
  }

  /** `Read`: frames are taken off the stream until one is good; each is answered. */
  function ReadAll(input: seq<bv8>, cap: nat): (r: (Received, seq<bv8>))
    decreases |input|
  {
    match Receive(input, cap)
    case Lost => (Lost, [])
    case Good(msg, rest) => (Good(msg, rest), if Interrupt(input[0]) then [] else [ACK])
    case Bad(rest) =>
      var next := ReadAll(rest, cap);
      (next.0, [NAK] + next.1)
  }

  /** A frame with one byte changed on the line. */
  datatype Damaged = Damaged(msg: seq<bv8>, at: nat, value: bv8)

  /** The damage is behind the length field of a message that would have fitted. */
  predicate Detectable(d: Damaged, cap: nat) {
    IsMessage(d.msg) && |d.msg| <= cap && 3 <= d.at < |d.msg| + 2 && d.value != Frame(d.msg)[d.at]
  }

  function Stream(ds: seq<Damaged>, tail: seq<bv8>, cap: nat): seq<bv8>
    requires forall d :: d in ds ==> Detectable(d, cap)
  {
    if ds == [] then tail
    else
      assert Detectable(ds[0], cap);
      Frame(ds[0].msg)[ds[0].at := ds[0].value] + Stream(ds[1..], tail, cap)
  }

  /** Headline: after any number of damaged frames the next intact one is returned; NAK for each, then ACK. */
  lemma {:induction false} RetriesRecover(ds: seq<Damaged>, msg: seq<bv8>, rest: seq<bv8>, cap: nat)
    requires forall d :: d in ds ==> Detectable(d, cap)
    requires IsMessage(msg) && |msg| <= cap
    ensures ReadAll(Stream(ds, Frame(msg) + rest, cap), cap) == (Good(msg, rest), seq(|ds|, _ => 0x00) + [0xFF])
    decreases |ds|
  {
    hide Frame, Receive;
    if ds == [] {
      RoundTrip(msg, rest, cap);
      FrameHead(msg);
      assert seq(0, _ => NAK) + [ACK] == [ACK];
    } else {
      var tail := Stream(ds[1..], Frame(msg) + rest, cap);
      assert Detectable(ds[0], cap);
      SubstitutionDetected(ds[0].msg, ds[0].at, ds[0].value, tail, cap);
      RetriesRecover(ds[1..], msg, rest, cap);
      assert seq(|ds|, _ => NAK) + [ACK] == [NAK] + (seq(|ds| - 1, _ => NAK) + [ACK]);
    }
  }

  lemma FrameHead(msg: seq<bv8>)
    requires msg != []
    ensures Frame(msg)[0] == msg[0]
  {
  }

  lemma FrameIff(msg: seq<bv8>, crc: seq<bv8>)
    requires |crc| == 2
    ensures msg + crc == Frame(msg) <==> crc[0] == Sum(msg) && crc[1] == Xor(msg)
  {
    var f := Frame(msg);
    assert f[|msg|] == Sum(msg) && f[|msg| + 1] == Xor(msg);
    assert (msg + crc)[|msg|] == crc[0] && (msg + crc)[|msg| + 1] == crc[1];
  }

  lemma ChecksumsStart()
    ensures Total([]) == 0 && Xor([]) == 0
  {
  }

  lemma ChecksumsStep(p: seq<bv8>, i: nat)
    requires i < |p|
    ensures Total(p[..i + 1]) == Total(p[..i]) + p[i] as int && Xor(p[..i + 1]) == Xor(p[..i]) ^ p[i]
  {
    assert p[..i + 1][..i] == p[..i];
  }

  function Times(f: seq<bv8>, k: nat): seq<bv8> {
    if k == 0 then [] else Times(f, k - 1) + f
  }

  // ----- the driver -----

  class SerialPort {
    const chunk: nat -> nat
    const breaks: nat -> bool
    const dropped: nat -> nat
    var calls: nat
    var out: seq<bv8>
    var input: seq<bv8>
    var open: bool

    constructor (chunk: nat -> nat, breaks: nat -> bool, dropped: nat -> nat, input: seq<bv8>)
      ensures this.chunk == chunk && this.breaks == breaks && this.dropped == dropped
      ensures this.input == input && out == [] && open
    {
      this.chunk, this.breaks, this.dropped, this.input := chunk, breaks, dropped, input;
      calls, out, open := 0, [], true;
    }

    /** No call that writes ever fails. */
    ghost predicate Reliable() { forall i :: !breaks(i) }

    /** A flush finds nothing to discard. */
    ghost predicate Undisturbed() { forall i :: dropped(i) == 0 }

    /** One call that may fail, and closes the line when it does. */
    method Attempt() returns (ok: bool)
      modifies this`calls, this`open
      ensures open == (old(open) && ok) && (Reliable() ==> ok)
    {
      ok := !breaks(calls);
      calls := calls + 1;
      if !ok { open := false; }
    }

    /** How many of `n` bytes one system call moves: between 1 and `n`. */
    method Moved(n: nat) returns (m: nat)
      requires n > 0
      modifies this`calls
      ensures 1 <= m <= n
    {
      m := 1 + chunk(calls) % n;
      calls := calls + 1;
    }

    /** Writes all of `buf`, in as many calls as it takes, until one fails. */
    method WriteFully(buf: seq<bv8>) returns (ok: bool)
      modifies this`calls, this`out, this`open
      ensures open == (old(open) && ok) && (Reliable() ==> ok)
      ensures if ok then out == old(out) + buf else old(out) <= out <= old(out) + buf
    {
      var p, len := 0, |buf|;
      while len > 0
        invariant 0 <= len && p + len == |buf| && out == old(out) + buf[..p] && open == old(open)
      {
        ok := Attempt();
        if !ok { return; }
        var rv := Moved(len);
        out := out + buf[p..p + rv];
        assert buf[..p + rv] == buf[..p] + buf[p..p + rv];
        p, len := p + rv, len - rv;
      }
      ok := true;
    }

    method WriteLowlevel(msg: seq<bv8>) returns (ok: bool)
      modifies this`calls, this`out, this`open
      ensures open == ok && (Reliable() ==> ok == old(open))
      ensures ok ==> old(open) && out == old(out) + Frame(msg)
      ensures !ok ==> old(out) <= out <= old(out) + Frame(msg)
    {
      if !open { return false; }
      var sum, xor := Checksums(msg);
      assert old(out) + msg + [sum, xor] == old(out) + Frame(msg);
      ok := WriteFully(msg);
      if !ok { return; }
      ok := WriteFully([sum, xor]);
      if !ok { return; }
      ok := Attempt();
    }

    static method Checksums(p: seq<bv8>) returns (sum: bv8, xor: bv8)
      ensures sum == Sum(p) && xor == Xor(p)
    {
      hide Total, Xor;
      var crc := 0;
      xor := 0;
      ChecksumsStart();
      for i := 0 to |p|
        invariant crc == Total(p[..i]) % 256 && xor == Xor(p[..i])
      {
        ChecksumsStep(p, i);
        ModuloSum(Total(p[..i]), p[i] as int);
        crc, xor := (crc + p[i] as int) % 256, xor ^ p[i];
      }
      assert p[..|p|] == p;
      sum := crc as bv8;
    }

    /** Reads exactly `n` bytes, in as many calls as it takes; fails at the end of the stream. */
    method ReadForced(n: nat) returns (ok: bool, buf: seq<bv8>)
      modifies this`calls, this`input
      ensures ok == (n <= |old(input)|)
      ensures ok ==> buf == old(input)[..n] && input == old(input)[n..]
    {
      buf := [];
      var len := n;
      while len > 0
        invariant 0 <= len && |buf| + len == n && |buf| <= |old(input)|
        invariant buf == old(input)[..|buf|] && input == old(input)[|buf|..]
      {
        if input == [] { return false, buf; }
        var rv := Moved(if len < |input| then len else |input|);
        ghost var got := |buf|;
        assert old(input)[..got + rv] == old(input)[..got] + input[..rv];
        buf, input := buf + input[..rv], input[rv..];
        len := len - rv;
      }
      return true, buf;
    }

    /** The first byte, and for a CCID message the rest of its header; then the number of bytes to come. */
    method ReadHead() returns (ok: bool, head: seq<bv8>, toRead: nat)
      modifies this`calls, this`input
      ensures ok == HeadSize(old(input)).Some?
      ensures ok ==>
        && |head| <= |old(input)| && head == old(input)[..|head|] && input == old(input)[|head|..]
        && HeadSize(old(input)) == Some(|head| + toRead)
    {
      hide Interrupt, Acknowledge;
      toRead := 0;
      ok, head := ReadForced(1);
      if !ok { return; }
      if Interrupt(head[0]) {
        toRead := 1;
      } else if !Acknowledge(head[0]) {
        var more;
        ok, more := ReadForced(9);
        if !ok { return; }
        head := head + more;
        toRead := 256 * (head[2] as int) + head[1] as int;
      }
    }

    /** Header, body and the two checksum bytes behind them. */
    method ReadMessage(cap: nat) returns (ok: bool, msg: seq<bv8>, crc: seq<bv8>)
      modifies this`calls, this`input
      ensures var size := HeadSize(old(input));
        ok == (size.Some? && size.value <= cap && size.value + 2 <= |old(input)|)
      ensures ok ==>
        var n := HeadSize(old(input)).value;
        msg == old(input)[..n] && crc == old(input)[n..n + 2] && input == old(input)[n + 2..]
    {
      hide HeadSize;
      ghost var all := input;
      msg, crc := [], [];
      var head, toRead, body;
      ok, head, toRead := ReadHead();
      if !ok { return; }
      if |head| + toRead > cap { return false, [], []; }
      ok, body := ReadForced(toRead);
      if !ok { return; }
      msg := head + body;
      assert msg == all[..|msg|] && input == all[|msg|..];
      ok, crc := ReadForced(2);
    }

    /** One frame, answered with ACK or NAK unless it is an interrupt message. */
    method ReadLowlevel(cap: nat) returns (r: Received)
      modifies this
      ensures r == Lost || (old(open) && r == Receive(old(input), cap))
      ensures Reliable() && old(open) ==> r == Receive(old(input), cap)
      ensures open == (old(open) && !r.Lost?) && (!r.Lost? ==> input == r.rest)
      ensures out == old(out) + match r case Lost => [] case Bad(_) => [NAK]
                                case Good(msg, _) => if Interrupt(old(input)[0]) then [] else [ACK]
    {
      hide HeadSize, Sum, Xor, Frame;
      if !open { return Lost; }
      ghost var all := input;
      var ok, msg, crc := ReadMessage(cap);
      if !ok {
        open := false;
        return Lost;
      }
      var sum, xor := Checksums(msg);
      FrameIff(msg, crc);
      assert all[..|msg| + 2] == msg + crc;
      if Interrupt(msg[0]) { return Good(msg, input); }
      ok := Attempt();
      if !ok { return Lost; }
      if crc[0] == sum && crc[1] == xor {
        out := out + [ACK];
        return Good(msg, input);
      }
      out := out + [NAK];
      return Bad(input);
    }

    /** Retries until a frame is good. */
    method Read(cap: nat) returns (r: Received)
      modifies this
      ensures r == Lost ||
        (old(open) && r == ReadAll(old(input), cap).0 && out == old(out) + ReadAll(old(input), cap).1)
      ensures Reliable() && old(open) ==>
        (r, out) == (ReadAll(old(input), cap).0, old(out) + ReadAll(old(input), cap).1)
      ensures !r.Bad? && (r == Lost ==> !open) && (!r.Lost? ==> input == r.rest)
    {
      hide Receive;
      ghost var goal := ReadAll(input, cap);
      ghost var answers: seq<bv8> := [];
      assert answers + goal.1 == goal.1;
      if !open { return Lost; }
      while true
        invariant open && out == old(out) + answers
        invariant goal == (ReadAll(input, cap).0, answers + ReadAll(input, cap).1)
        decreases |input|
      {
        ghost var rest, received := ReadAll(input, cap), Receive(input, cap);
        r := ReadLowlevel(cap);
        if !r.Bad? {
          assert r == received ==> out == old(out) + (answers + rest.1);
          return;
        }
        assert answers + rest.1 == answers + [NAK] + ReadAll(input, cap).1;
        answers := answers + [NAK];
      }
    }

    /** What has arrived and was not read is discarded. */
    method Flush()
      modifies this`calls, this`input
      ensures |input| <= |old(input)| && input == old(input)[|old(input)| - |input|..]
      ensures Undisturbed() ==> input == old(input)
    {
      var n := dropped(calls);
      calls := calls + 1;
      input := if n <= |input| then input[n..] else [];
    }

    /** Sends a message again and again until the reader acknowledges it; `acks` are the answers taken off the line. */
    method Write(msg: seq<bv8>) returns (ok: bool, ghost acks: seq<bv8>)
      modifies this
      ensures open == ok
      ensures ok ==> old(open) && acks != [] && acks[|acks| - 1] == ACK && ACK !in acks[..|acks| - 1]
      ensures ok ==> out == old(out) + Times(Frame(msg), |acks|)
      ensures !ok && old(open) ==> ACK !in acks
      ensures !ok && old(open) ==>
        old(out) + Times(Frame(msg), |acks|) <= out <= old(out) + Times(Frame(msg), |acks| + 1)
      ensures !old(open) ==> !ok && out == old(out) && input == old(input)
      ensures Reliable() && Undisturbed() && old(open) ==>
        ok == (ACK in old(input)) && out == old(out) + Times(Frame(msg), Attempts(old(input)))
    {
      hide Frame, Times, Attempts, Taken;
      acks := [];
      NoneSent(Frame(msg), out);
      NoneTaken(input);
      if !open { return false, []; }
      while true
        invariant open && ACK !in acks && out == old(out) + Times(Frame(msg), |acks|)
        invariant Undisturbed() ==> Taken(old(input), acks, input)
        decreases |input|
      {
        ok := WriteLowlevel(msg);
        OnceMore(Frame(msg), |acks|, old(out));
        if !ok { return; }
        ghost var before := input;
        var buf;
        ok, buf := ReadForced(1);
        if Undisturbed() { TakenStep(old(input), acks, before); }
        if !ok {
          open := false;
          return;
        }
        assert buf == [before[0]];
        if buf[0] == ACK {
          assert (acks + buf)[..|acks|] == acks;
          return true, acks + buf;
        }
        acks := acks + buf;
        Flush();
      }
    }
  }

  /** The bytes `taken` are off the line, `left` is still on it. */
  ghost predicate Taken(line: seq<bv8>, taken: seq<bv8>, left: seq<bv8>) { line == taken + left }

  lemma NoneTaken(line: seq<bv8>)
    ensures Taken(line, [], line)
  {
  }

  lemma TakenStep(line: seq<bv8>, taken: seq<bv8>, left: seq<bv8>)
    requires Taken(line, taken, left) && ACK !in taken
    ensures left == [] ==> Attempts(line) == |taken| + 1 && ACK !in line
    ensures left != [] ==> Taken(line, taken + [left[0]], left[1..])
    ensures left != [] && left[0] == ACK ==> Attempts(line) == |taken| + 1 && ACK in line
  {
    assert line[..|taken|] == taken;
    if left == [] || left[0] == ACK { AttemptsAt(line, |taken|); }
    if left != [] { assert taken + left == taken + [left[0]] + left[1..]; }
  }

  /** How often the message is sent: once for every answer up to the first ACK, and once without an answer. */
  function Attempts(acks: seq<bv8>): nat {
    if acks == [] || acks[0] == ACK then 1 else 1 + Attempts(acks[1..])
  }

  lemma {:induction false} AttemptsAt(acks: seq<bv8>, k: nat)
    requires k <= |acks| && ACK !in acks[..k] && (k < |acks| ==> acks[k] == ACK)
    ensures Attempts(acks) == k + 1 && (ACK in acks <==> k < |acks|)
  {
    if k > 0 {
      assert acks[0] == acks[..k][0];
      assert acks[1..][..k - 1] == acks[..k][1..];
      AttemptsAt(acks[1..], k - 1);
    }
  }

  lemma NoneSent(f: seq<bv8>, before: seq<bv8>)
    ensures before + Times(f, 0) == before == before + []
  {
  }

  lemma OnceMore(f: seq<bv8>, k: nat, before: seq<bv8>)
    ensures before + Times(f, k) + f == before + Times(f, k + 1)
  {
    assert before + Times(f, k) + f == before + (Times(f, k) + f);
  }
}
