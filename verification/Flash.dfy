/**
 Firmware upload: the CT-API commands of `ctapi_special.cpp` that stage a module, a signature or a key
 file block by block, and `CEC30Reader::CtLoadModule`, which sends the staged module to the reader.
 */
module Flash {
  import opened Bytes

  // ----- staging -----

  /** A staging command. P1 flags: 0x20 first block, 0x40 abort. */
  datatype Command = Module(apdu: seq<Byte>) | KeyFile(apdu: seq<Byte>) | Signature(apdu: seq<Byte>)

  predicate IsFirst(apdu: seq<Byte>)
    requires |apdu| >= 4
  {
    apdu[2] / 32 % 2 == 1
  }

  predicate IsAbort(apdu: seq<Byte>)
    requires |apdu| >= 4
  {
    apdu[2] / 64 % 2 == 1
  }

  /** The declared length lies within the command, where it is looked at. */
  predicate WellFormed(apdu: seq<Byte>) {
    |apdu| >= 4 && (|apdu| >= 5 && !IsAbort(apdu) ==> 5 + apdu[4] as int <= |apdu|)
  }

  predicate AllWellFormed(cs: seq<Command>) { forall c :: c in cs ==> WellFormed(c.apdu) }

  /** The data field; a command without a length byte has none, and that of an abort is not looked at. */
  function Data(apdu: seq<Byte>): seq<Byte>
    requires WellFormed(apdu)
  {
    if |apdu| < 5 || IsAbort(apdu) then [] else apdu[5..5 + apdu[4] as int]
  }

  /** What one command does to the staged bytes. */
  function Stage(staged: seq<Byte>, apdu: seq<Byte>): (s: seq<Byte>)
    requires WellFormed(apdu)
  {
    if IsAbort(apdu) then [] else (if IsFirst(apdu) then [] else staged) + Data(apdu)
  }

  /** P1 20 starts over, 40 throws everything away, 80 marks a last block; without 20 and 40 the data is appended. */
  lemma StageTold(staged: seq<Byte>, cla: Byte, ins: Byte, p1: Byte, p2: Byte, data: seq<Byte>)
    requires |data| < 256
    ensures var apdu := [cla, ins, p1, p2, |data|] + data;
      && WellFormed(apdu)
      && (p1 == 0x00 || p1 == 0x80 ==> Stage(staged, apdu) == staged + data)
      && (p1 == 0x20 || p1 == 0xA0 ==> Stage(staged, apdu) == data)
      && (p1 == 0x40 || p1 == 0x60 ==> Stage(staged, apdu) == [])
  {
    var apdu := [cla, ins, p1, p2, |data|] + data;
    assert apdu[5..5 + apdu[4] as int] == data && [] + data == data;
  }

  /** The staged bytes after a whole history of commands; `signature` selects which of the two buffers. */
  function Staged(history: seq<Command>, signature: bool): (s: seq<Byte>)
    requires AllWellFormed(history)
  {
    if history == [] then []
    else
      var last := history[|history| - 1];
      var before := Staged(history[..|history| - 1], signature);
      if last.Signature? == signature then Stage(before, last.apdu) else before
  }

  /** All data of the commands for one buffer, in order. */
  function AllData(history: seq<Command>, signature: bool): (s: seq<Byte>)
    requires AllWellFormed(history)
  {
    if history == [] then []
    else
      var last := history[|history| - 1];
      AllData(history[..|history| - 1], signature) + if last.Signature? == signature then Data(last.apdu) else []
  }

  /** None of the commands for this buffer starts over or aborts. */
  predicate OnlyAppends(cs: seq<Command>, signature: bool)
    requires AllWellFormed(cs)
  {
    forall c :: c in cs && c.Signature? == signature ==> !IsFirst(c.apdu) && !IsAbort(c.apdu)
  }

  lemma StagedSnoc(h: seq<Command>, x: Command, signature: bool)
    requires AllWellFormed(h) && WellFormed(x.apdu)
    ensures AllWellFormed(h + [x])
    ensures Staged(h + [x], signature) ==
      if x.Signature? == signature then Stage(Staged(h, signature), x.apdu) else Staged(h, signature)
    ensures AllData(h + [x], signature) ==
      AllData(h, signature) + if x.Signature? == signature then Data(x.apdu) else []
  {
    hide Data, Stage;
    assert (h + [x])[..|h|] == h;
  }

  lemma StageAppends(staged: seq<Byte>, apdu: seq<Byte>)
    requires WellFormed(apdu) && !IsFirst(apdu) && !IsAbort(apdu)
    ensures Stage(staged, apdu) == staged + Data(apdu)
  {
  }

  lemma {:induction false} StagedAppends(h: seq<Command>, cs: seq<Command>, signature: bool)
    requires AllWellFormed(h) && AllWellFormed(cs) && OnlyAppends(cs, signature)
    ensures AllWellFormed(h + cs) && Staged(h + cs, signature) == Staged(h, signature) + AllData(cs, signature)
    decreases |cs|
  {
    hide Data, IsFirst, IsAbort, Staged, Stage, AllData, WellFormed;
    if cs == [] {
      assert h + cs == h && AllData(cs, signature) == [] by { NoneStaged(signature); }
    } else {
      var n := |cs| - 1;
      var x, init := cs[n], cs[..n];
      assert x in cs && cs == init + [x] && h + cs == h + init + [x];
      StagedAppends(h, init, signature);
      StagedSnoc(h + init, x, signature);
      StagedSnoc(init, x, signature);
      if x.Signature? == signature { StageAppends(Staged(h + init, signature), x.apdu); }
    }
  }

  lemma NoneStaged(signature: bool)
    ensures AllData([], signature) == []
  {
  }

  /** Headline: what is staged is exactly the data sent since the last first-block or abort flag. */
  lemma StagedSinceFlag(before: seq<Command>, c: Command, after: seq<Command>)
    requires AllWellFormed(before) && WellFormed(c.apdu) && AllWellFormed(after)
    requires IsFirst(c.apdu) || IsAbort(c.apdu)
    requires OnlyAppends(after, c.Signature?)
    ensures AllWellFormed(before + [c] + after)
    ensures Staged(before + [c] + after, c.Signature?) ==
      (if IsAbort(c.apdu) then [] else Data(c.apdu)) + AllData(after, c.Signature?)
  {
    hide Data, IsFirst, IsAbort, Staged, AllData, OnlyAppends;
    StagedSnoc(before, c, c.Signature?);
    StagedAppends(before + [c], after, c.Signature?);
    assert [] + Data(c.apdu) == Data(c.apdu);
  }

  // ----- flashing -----

  datatype Escape =
    | SetFlashMask
    | UpdateStart(header: seq<Byte>)
    | Update(length: nat, block: seq<Byte>)
    | Verify(signature: seq<Byte>)

  /** The bytes of the module that a run of messages carries. */
  function Carried(log: seq<Escape>): (s: seq<Byte>) {
    if log == [] then []
    else
      Carried(log[..|log| - 1]) + Load(log[|log| - 1])
  }

  predicate NoVerify(log: seq<Escape>) { forall e :: e in log ==> !e.Verify? }

  datatype Result = Ok | WrongSize | Invalid | Device(code: int)

  class Uploader {
    const dev: nat -> Result
    var tick: nat
    var log: seq<Escape>
    var dataToFlash: seq<Byte>
    var signatureToFlash: seq<Byte>
    ghost var history: seq<Command>

    ghost predicate Valid()
      reads this
    {
      && AllWellFormed(history)
      && dataToFlash == Staged(history, false)
      && signatureToFlash == Staged(history, true)
    }

    constructor (dev: nat -> Result)
      ensures Valid() && this.dev == dev && log == [] && history == []
    {
      this.dev, tick, log, dataToFlash, signatureToFlash, history := dev, 0, [], [], [], [];
    }

    /**
     The three staging commands; a key file shares the buffer of the module. `inside` is false when the declared
     length makes the driver read behind the command.
     */
    method Upload(c: Command) returns (ok: bool, inside: bool)
      requires Valid() && |c.apdu| >= 4
      modifies this`dataToFlash, this`signatureToFlash, this`history
      ensures Valid() && (inside <==> WellFormed(c.apdu))
      ensures inside ==> history == old(history) + [c] && ok == (IsAbort(c.apdu) || |c.apdu| >= 5)
    {
      hide Data, IsFirst, IsAbort, Staged, AllWellFormed;
      var staged := if c.Signature? then signatureToFlash else dataToFlash;
      ghost var before := staged;
      if IsFirst(c.apdu) { staged := []; }
      ok, inside := true, true;
      if IsAbort(c.apdu) {
        staged := [];
      } else if |c.apdu| < 5 {
        ok := false;
        NoData(c.apdu);
      } else if 5 + c.apdu[4] as int > |c.apdu| {
        return false, false;
      } else {
        staged := staged + Data(c.apdu);
      }
      StagedSnoc(history, c, false);
      StagedSnoc(history, c, true);
      assert staged == Stage(before, c.apdu);
      if c.Signature? { signatureToFlash := staged; } else { dataToFlash := staged; }
      history := history + [c];
    }

    method Send(e: Escape) returns (res: Result)
      modifies this`tick, this`log
      ensures log == old(log) + [e] && tick == old(tick) + 1 && res == dev(old(tick))
    {
      log := log + [e];
      res := dev(tick);
      tick := tick + 1;
    }

    /** Flash mask, then the message: what every step of the update does. */
    method SendMasked(e: Escape) returns (res: Result, ghost sent: seq<Escape>)
      modifies this`tick, this`log
      ensures log == old(log) + sent
      ensures sent == [SetFlashMask, e] || (res != Ok && sent == [SetFlashMask])
      ensures Ran(dev, old(tick), tick, sent, res)
    {
      res := Send(SetFlashMask);
      sent := [SetFlashMask];
      if res == Ok {
        res := Send(e);
        sent := [SetFlashMask, e];
      }
    }

    /** The module goes out in blocks of 256 bytes; the block buffer keeps old bytes behind a short block. */
    method SendBlocks(data: seq<Byte>, from: nat) returns (res: Result, ghost sent: seq<Escape>)
      requires from <= |data|
      modifies this`tick, this`log
      ensures log == old(log) + sent && NoVerify(sent) && Masked(sent)
      ensures res == Ok ==> Carried(sent) == data[from..] && |sent| % 2 == 0
      ensures Ran(dev, old(tick), tick, sent, res)
    {
      hide Carried;
      var pData, length := from, |data| - from;
      var block := new Byte[256](_ => 0);
      res, sent := Ok, [];
      CarriedEmpty();
      while length > 0
        invariant 0 <= length && pData + length == |data| && from <= pData && res == Ok && fresh(block)
        invariant log == old(log) + sent && NoVerify(sent) && Carried(sent) == data[from..pData]
        invariant Masked(sent) && |sent| % 2 == 0 && Ran(dev, old(tick), tick, sent, Ok)
      {
        var len := if length > 256 then 256 else length;
        forall i | 0 <= i < len { block[i] := data[pData + i]; }
        assert block[..][..len] == data[pData..pData + len];
        ghost var more;
        var e := Update(len, block[..]);
        ghost var before := tick;
        res, more := SendMasked(e);
        RanOn(dev, old(tick), before, tick, sent, more, res);
        CarriedStep(sent, e);
        MaskedStep(sent, more, e);
        sent := sent + more;
        if res != Ok { return; }
        assert data[from..pData + len] == data[from..pData] + data[pData..pData + len];
        pData, length := pData + len, length - len;
      }
    }

    /** The module: start block and update blocks. */
    method SendModule(data: seq<Byte>) returns (res: Result, ghost sent: seq<Escape>)
      requires |data| >= 258
      modifies this`tick, this`log
      ensures log == old(log) + sent && sent != [] && Masked(sent) && NoVerify(sent)
      ensures Ran(dev, old(tick), tick, sent, res)
      ensures res == Ok ==>
        |sent| % 2 == 0 && |sent| >= 2 && sent[1] == UpdateStart(data[..256]) && Carried(sent) == data
    {
      hide Carried, Masked;
      ghost var more, head;
      var start := UpdateStart(data[..256]);
      CarriedEmpty();
      CarriedStep([], start);
      res, sent := SendMasked(start);
      NothingMasked();
      MaskedStep([], sent, start);
      assert [] + sent == sent && [] + [SetFlashMask, start] == [SetFlashMask, start];
      if res != Ok { return; }
      head := sent;
      ghost var before := tick;
      res, more := SendBlocks(data, 256);
      RanOn(dev, old(tick), before, tick, head, more, res);
      CarriedConcat(head, more);
      MaskedConcat(head, more);
      assert data == data[..256] + data[256..];
      sent := head + more;
    }

    /**
     The whole update: the module, and the signature once everything is sent. `inside` is false when the signature
     would be copied over the end of its message field.
     */
    method LoadModule(data: seq<Byte>, signature: seq<Byte>)
      returns (res: Result, inside: bool, ghost sent: seq<Escape>)
      modifies this`tick, this`log
      ensures log == old(log) + sent
      ensures Masked(sent) && (|data| < 258 <==> sent == [])
      ensures |data| < 258 ==> res == WrongSize && inside
      ensures NoVerify(sent) || Verified(sent, data, signature)
      ensures inside && res == Ok && |data| >= 258 ==> |signature| <= 768 && Verified(sent, data, signature)
      ensures |signature| <= 768 ==> inside
      ensures |signature| > 768 ==> NoVerify(sent) && (inside <==> res != Ok)
      ensures !inside ==> Carried(sent) == data
      ensures |data| >= 258 ==> Ran(dev, old(tick), tick, sent, res)
    {
      hide Carried, Masked, Ran;
      inside := true;
      if |data| < 258 {
        NothingMasked();
        return WrongSize, true, [];
      }
      ghost var more, body;
      res, body := SendModule(data);
      sent := body;
      if res != Ok { return; }
      if |signature| > 768 { return Ok, false, sent; }
      CarriedStep(body, Verify(signature));
      ghost var before := tick;
      res, more := SendMasked(Verify(signature));
      RanOn(dev, old(tick), before, tick, body, more, res);
      MaskedStep(body, more, Verify(signature));
      sent := body + more;
      if more == [SetFlashMask, Verify(signature)] {
        assert sent[..|sent| - 1] == body + [SetFlashMask];
      }
    }

    /** `_specialUploadFlash`. */
    method UploadFlash() returns (res: Result, inside: bool, ghost sent: seq<Escape>)
      requires Valid()
      modifies this`tick, this`log
      ensures log == old(log) + sent
      ensures inside && res == Ok ==> Verified(sent, Staged(history, false), Staged(history, true))
      ensures NoVerify(sent) || Verified(sent, Staged(history, false), Staged(history, true))
      ensures |Staged(history, true)| <= 768 ==> inside
      ensures |Staged(history, true)| > 768 ==> NoVerify(sent) && (inside <==> res != Ok)
      ensures Staged(history, false) == [] || Staged(history, true) == [] <==> res == Invalid && sent == []
      ensures Staged(history, false) != [] && Staged(history, true) != [] && |Staged(history, false)| < 258 <==>
        res == WrongSize && sent == []
      ensures |Staged(history, false)| >= 258 && Staged(history, true) != [] ==>
        && sent != [] && tick == old(tick) + |sent|
        && (forall t :: old(tick) <= t < tick - 1 ==> dev(t) == Ok) && res == dev(tick - 1)
    {
      sent, inside := [], true;
      if |dataToFlash| < 1 || |signatureToFlash| < 1 { return Invalid, true, sent; }
      res, inside, sent := LoadModule(dataToFlash, signatureToFlash);
    }
  }

  /** The messages were sent one after the other until one was refused; the result is that of the last. */
  ghost predicate Ran(dev: nat -> Result, from: nat, to: nat, sent: seq<Escape>, res: Result) {
    && to == from + |sent| && (forall t :: from <= t < to - 1 ==> dev(t) == Ok)
    && res == (if sent == [] then Ok else dev(to - 1))
  }

  lemma RanOn(dev: nat -> Result, a: nat, b: nat, c: nat, xs: seq<Escape>, ys: seq<Escape>, res: Result)
    requires Ran(dev, a, b, xs, Ok) && Ran(dev, b, c, ys, res)
    ensures Ran(dev, a, c, xs + ys, res)
  {
  }

  /** Four signature commands of 255 bytes each are staged one behind the other, more than the message field holds. */
  lemma FourBlocksTooMany(block: seq<Byte>)
    requires |block| == 255
    ensures var c := Signature([0x20, 0x00, 0x00, 0x00, 0xFF] + block);
      AllWellFormed([c, c, c, c]) && |Staged([c, c, c, c], true)| == 1020 > 768
  {
    hide Data, IsFirst, IsAbort;
    var apdu := [0x20, 0x00, 0x00, 0x00, 0xFF] + block;
    var c := Signature(apdu);
    PlainBlock(block);
    assert forall x :: x in [c, c, c, c] ==> x == c;
    StagedAppends([], [c, c, c, c], true);
    assert [] + [c, c, c, c] == [c, c, c, c];
    assert [c, c, c, c][..3] == [c, c, c] && [c, c, c][..2] == [c, c] && [c, c][..1] == [c] && [c][..0] == [];
    assert |AllData([c], true)| == 255;
    assert |AllData([c, c], true)| == 510;
    assert |AllData([c, c, c], true)| == 765;
  }

  lemma PlainBlock(block: seq<Byte>)
    requires |block| == 255
    ensures var apdu := [0x20, 0x00, 0x00, 0x00, 0xFF] + block;
      WellFormed(apdu) && !IsFirst(apdu) && !IsAbort(apdu) && |Data(apdu)| == 255
  {
  }

  /** Every other message sets the flash mask, and update blocks are full buffers with 1 to 256 bytes in use. */
  predicate Masked(sent: seq<Escape>) {
    forall i :: 0 <= i < |sent| ==>
      && (i % 2 == 0 <==> sent[i] == SetFlashMask)
      && (sent[i].Update? ==> 1 <= sent[i].length <= 256 == |sent[i].block|)
  }

  /** The module was carried from its 256-byte start block on, then the signature was sent, once and last. */
  ghost predicate Verified(sent: seq<Escape>, data: seq<Byte>, signature: seq<Byte>) {
    && |data| >= 258 && |sent| >= 4 && sent[1] == UpdateStart(data[..256])
    && sent[|sent| - 1] == Verify(signature)
    && NoVerify(sent[..|sent| - 1])
    && Carried(sent) == data
  }

  function Load(e: Escape): seq<Byte> {
    match e
    case UpdateStart(header) => header
    case Update(n, block) => if n <= |block| then block[..n] else block
    case _ => []
  }

  lemma CarriedEmpty()
    ensures Carried([]) == []
  {
  }

  lemma CarriedStep(s: seq<Escape>, e: Escape)
    ensures Carried(s + [SetFlashMask, e]) == Carried(s) + Load(e)
  {
    hide Carried;
    CarriedSnoc(s, SetFlashMask);
    CarriedSnoc(s + [SetFlashMask], e);
    assert s + [SetFlashMask, e] == s + [SetFlashMask] + [e];
  }

  lemma NothingMasked()
    ensures Masked([])
  {
  }

  lemma MaskedConcat(s: seq<Escape>, t: seq<Escape>)
    requires Masked(s) && |s| % 2 == 0 && Masked(t)
    ensures Masked(s + t)
  {
    forall i | |s| <= i < |s + t| ensures (s + t)[i] == t[i - |s|] && i % 2 == (i - |s|) % 2 { }
  }

  lemma MaskedStep(s: seq<Escape>, more: seq<Escape>, e: Escape)
    requires Masked(s) && |s| % 2 == 0 && (more == [SetFlashMask, e] || more == [SetFlashMask])
    requires e != SetFlashMask && (e.Update? ==> 1 <= e.length <= 256 == |e.block|)
    ensures Masked(s + more)
  {
    MaskedConcat(s, more);
  }

  lemma CarriedSnoc(s: seq<Escape>, e: Escape)
    ensures Carried(s + [e]) == Carried(s) + Load(e)
  {
    hide Load;
    assert (s + [e])[..|s|] == s;
  }

  lemma {:induction false} CarriedConcat(s: seq<Escape>, t: seq<Escape>)
    ensures Carried(s + t) == Carried(s) + Carried(t)
  {
    hide Load, Carried;
    CarriedEmpty();
    if t == [] {
      assert s + t == s;
    } else {
      var n := |t| - 1;
      var front, last := t[..n], t[n];
      assert t == front + [last] && s + t == s + front + [last];
      CarriedConcat(s, front);
      CarriedSnoc(front, last);
      CarriedSnoc(s + front, last);
    }
  }

  lemma NoData(apdu: seq<Byte>)
    requires WellFormed(apdu)
    ensures |apdu| >= 4 && (|apdu| < 5 ==> Data(apdu) == [])
  {
  }
}
