/**
 `CEC30Reader::CtKeyUpdate`: walks a key file a second time, without any check of its own, and sends
 the keys the reader needs.

 The reader is an arbitrary oracle: `dev(n)` is what it does on the n-th call made to it.
 */
module KeyUpdate {
  import opened Bytes
  import opened KeyFile
  import opened KeyValidator

  /** The outcome of one call, and the key slots the reader would report after it. */
  datatype Reply = Reply(res: CjResult, keys: Slots)

  type Device = nat -> Reply

  datatype Command =
    | SetFlashMask
    | UpdateKey(payload: seq<Byte>)
    | VerifyKey(payload: seq<Byte>)
    | VerifyBlank(remaining: nat)

  /** A command sent, and the key slots cached at that moment. */
  datatype Event = Event(cmd: Command, cached: Slots)

  // ----- the run over records -----

  datatype Run = Run(log: seq<Event>, tick: nat, keys: Slots, res: CjResult)

  /** Sends a key and its verification; only then are the key slots read again. */
  function Install(dev: Device, t: nat, keys: Slots, update: Command, verify: Command): (r: Run)
    ensures forall e :: e in r.log ==> e.cached == keys
  {
    var mask := Event(SetFlashMask, keys);
    if dev(t).res != CjSuccess then Run([mask], t + 1, keys, dev(t).res)
    else if dev(t + 1).res != CjSuccess then Run([mask, Event(update, keys)], t + 2, keys, dev(t + 1).res)
    else if dev(t + 2).res != CjSuccess then Run([mask, Event(update, keys), mask], t + 3, keys, dev(t + 2).res)
    else
      var log := [mask, Event(update, keys), mask, Event(verify, keys)];
      if dev(t + 3).res != CjSuccess then Run(log, t + 4, keys, dev(t + 3).res)
      else Run(log, t + 5, dev(t + 4).keys, CjSuccess)
  }

  /** A blank slot takes the newest version of any key. */
  predicate FillsBlank(keys: Slots, kv: Versions, r: Record) {
    Blank(keys) && kv[r.keyNr] == r.version
  }

  /** The signer is one of the cached keys. */
  predicate SignerCached(keys: Slots, r: Record) {
    r.signer.Some? && Slot(r.signer.value.keyNr, r.signer.value.version) in {keys.first, keys.second}
  }

  function Step(dev: Device, t: nat, keys: Slots, kv: Versions, r: Record, root: bool, remaining: nat): (s: Run)
    requires WellFormed(r, root)
    ensures forall e :: e in s.log ==> e.cached == keys
  {
    if FillsBlank(keys, kv, r) then
      if KeySize(r) > 800 then Run([], t, keys, CjCheckResult)
      else Install(dev, t, keys, UpdateKey(KeyPart(r)), VerifyBlank(remaining))
    else if !root && Outdated(keys, r.keyNr, r.version) then
      if !SignerCached(keys, r) then Run([], t, keys, CjDataCorrupt)
      else if KeySize(r) > 800 || |r.signer.value.body| + 8 > 796 then Run([], t, keys, CjCheckResult)
      else Install(dev, t, keys, UpdateKey(KeyPart(r)), VerifyKey(SignaturePart(r.signer.value)))
    else Run([], t, keys, CjSuccess)
  }

  function SizeFrom(rs: seq<Record>, n: nat): (size: nat)
    requires n <= |rs|
    ensures n < |rs| ==> size >= 5 + BodySize(rs[n])
    decreases |rs| - n
  {
    if n == |rs| then 0 else 5 + BodySize(rs[n]) + SizeFrom(rs, n + 1)
  }

  /** The state after the first `n` records of `rs`; an error ends the run. */
  function RunTo(dev: Device, keys: Slots, kv: Versions, rs: seq<Record>, n: nat): (r: Run)
    requires n <= |rs| && AllWellFormed(rs, true)
  {
    if n == 0 then Run([], 0, keys, CjSuccess)
    else
      var p := RunTo(dev, keys, kv, rs, n - 1);
      if p.res != CjSuccess then p
      else
        var s := Step(dev, p.tick, p.keys, kv, rs[n - 1], n == 1, SizeFrom(rs, n - 1) - 5);
        Run(p.log + s.log, s.tick, s.keys, s.res)
  }

  lemma {:induction false} Sticky(dev: Device, keys: Slots, kv: Versions, rs: seq<Record>, m: nat, n: nat)
    requires m <= n <= |rs| && AllWellFormed(rs, true)
    requires RunTo(dev, keys, kv, rs, m).res != CjSuccess
    ensures RunTo(dev, keys, kv, rs, n) == RunTo(dev, keys, kv, rs, m)
  {
    if m < n {
      Sticky(dev, keys, kv, rs, m, n - 1);
    }
  }

  // ----- what every run keeps -----

  /** Record `i` was sent and verified by its signer at position `j` of the log, and rightly so. */
  predicate SignedInstall(log: seq<Event>, j: nat, rs: seq<Record>, i: nat)
    requires j < |log| && i < |rs| && AllWellFormed(rs, true)
  {
    && 1 <= i && 2 <= j
    && log[j].cmd == VerifyKey(SignaturePart(rs[i].signer.value))
    && log[j - 2] == Event(UpdateKey(KeyPart(rs[i])), log[j].cached)
    && Outdated(log[j].cached, rs[i].keyNr, rs[i].version)
    && SignerCached(log[j].cached, rs[i])
  }

  /** Record `i` was sent into a blank slot at position `j` of the log, and rightly so. */
  predicate BlankInstall(log: seq<Event>, j: nat, rs: seq<Record>, kv: Versions, i: nat)
    requires j < |log| && i < |rs| && AllWellFormed(rs, true)
  {
    && 2 <= j
    && log[j].cmd.VerifyBlank?
    && log[j - 2] == Event(UpdateKey(KeyPart(rs[i])), log[j].cached)
    && FillsBlank(log[j].cached, kv, rs[i])
  }

  /** Every verification in the log belongs to an install the caches allowed. */
  predicate Justified(log: seq<Event>, rs: seq<Record>, kv: Versions)
    requires AllWellFormed(rs, true)
  {
    && (forall j :: 0 <= j < |log| && log[j].cmd.VerifyKey? ==>
          exists i :: 0 <= i < |rs| && SignedInstall(log, j, rs, i))
    && (forall j :: 0 <= j < |log| && log[j].cmd.VerifyBlank? ==>
          exists i :: 0 <= i < |rs| && BlankInstall(log, j, rs, kv, i))
  }

  /** Event `e` sends the key of record `i`, and the slots cached at that moment allow it. */
  predicate Rightful(e: Event, rs: seq<Record>, kv: Versions, i: nat)
    requires i < |rs| && AllWellFormed(rs, true)
  {
    && e.cmd == UpdateKey(KeyPart(rs[i]))
    && (|| FillsBlank(e.cached, kv, rs[i])
        || (1 <= i && Outdated(e.cached, rs[i].keyNr, rs[i].version) && SignerCached(e.cached, rs[i])))
  }

  /** Every key in the log was sent rightfully, whether its verification followed or the reader failed before it. */
  predicate AllRightful(log: seq<Event>, rs: seq<Record>, kv: Versions)
    requires AllWellFormed(rs, true)
  {
    forall e :: e in log && e.cmd.UpdateKey? ==> exists i :: 0 <= i < |rs| && Rightful(e, rs, kv, i)
  }

  lemma InstallSends(dev: Device, t: nat, keys: Slots, update: Command, verify: Command)
    requires !verify.UpdateKey?
    ensures forall e :: e in Install(dev, t, keys, update, verify).log && e.cmd.UpdateKey? ==> e == Event(update, keys)
  {
  }

  lemma RightfulStep(dev: Device, t: nat, keys: Slots, kv: Versions, rs: seq<Record>, n: nat, remaining: nat)
    requires n < |rs| && AllWellFormed(rs, true)
    ensures AllRightful(Step(dev, t, keys, kv, rs[n], n == 0, remaining).log, rs, kv)
  {
    hide KeyPart, SignaturePart, Install, Blank, Outdated;
    var r := rs[n];
    if r.signer.Some? { InstallSends(dev, t, keys, UpdateKey(KeyPart(r)), VerifyKey(SignaturePart(r.signer.value))); }
    InstallSends(dev, t, keys, UpdateKey(KeyPart(r)), VerifyBlank(remaining));
    var log := Step(dev, t, keys, kv, rs[n], n == 0, remaining).log;
    forall e | e in log && e.cmd.UpdateKey?
      ensures exists i :: 0 <= i < |rs| && Rightful(e, rs, kv, i)
    {
      assert Rightful(e, rs, kv, n);
    }
  }

  lemma JustifiedStep(log: seq<Event>, dev: Device, t: nat, keys: Slots, kv: Versions, rs: seq<Record>, n: nat,
                      remaining: nat)
    requires n < |rs| && AllWellFormed(rs, true) && Justified(log, rs, kv)
    ensures Justified(log + Step(dev, t, keys, kv, rs[n], n == 0, remaining).log, rs, kv)
  {
    hide KeyPart, SignaturePart, KeySize, BodySize;
    var s := Step(dev, t, keys, kv, rs[n], n == 0, remaining).log;
    var all := log + s;
    forall j | 0 <= j < |all| && (all[j].cmd.VerifyKey? || all[j].cmd.VerifyBlank?)
      ensures all[j].cmd.VerifyKey? ==> exists i :: 0 <= i < |rs| && SignedInstall(all, j, rs, i)
      ensures all[j].cmd.VerifyBlank? ==> exists i :: 0 <= i < |rs| && BlankInstall(all, j, rs, kv, i)
    {
      if j < |log| {
        assert all[j] == log[j];
        if all[j].cmd.VerifyKey? {
          var i :| 0 <= i < |rs| && SignedInstall(log, j, rs, i);
          assert SignedInstall(all, j, rs, i);
        } else {
          var i :| 0 <= i < |rs| && BlankInstall(log, j, rs, kv, i);
          assert BlankInstall(all, j, rs, kv, i);
        }
      } else {
        assert all[j] == s[j - |log|] && j - |log| == 3 && all[j - 2] == s[1];
        assert if all[j].cmd.VerifyKey? then SignedInstall(all, j, rs, n) else BlankInstall(all, j, rs, kv, n);
      }
    }
  }

  /**
   Headline: over every run, against every reader, each key sent fills a blank slot with its newest version or
   supersedes a cached slot and names a cached signer, and each verification belongs to such a key.
   */
  lemma {:induction false} RunJustified(dev: Device, keys: Slots, kv: Versions, rs: seq<Record>, n: nat)
    requires n <= |rs| && AllWellFormed(rs, true)
    ensures AllRightful(RunTo(dev, keys, kv, rs, n).log, rs, kv)
    ensures Justified(RunTo(dev, keys, kv, rs, n).log, rs, kv)
  {
    hide Step, Rightful, SignedInstall, BlankInstall, SizeFrom, AllWellFormed;
    if n > 0 {
      var p := RunTo(dev, keys, kv, rs, n - 1);
      RunJustified(dev, keys, kv, rs, n - 1);
      if p.res == CjSuccess {
        RightfulStep(dev, p.tick, p.keys, kv, rs, n - 1, SizeFrom(rs, n - 1) - 5);
        JustifiedStep(p.log, dev, p.tick, p.keys, kv, rs, n - 1, SizeFrom(rs, n - 1) - 5);
      }
    }
  }

  // ----- what one record does to a run, told from the outside -----

  predicate HasBlank(k: Slots) {
    || (k.first.keyNr == 255 && k.first.version == 255)
    || (k.second.keyNr == 255 && k.second.version == 255)
  }

  predicate Supersedes(r: Record, k: Slots) {
    || (r.keyNr == k.first.keyNr && r.version > k.first.version)
    || (r.keyNr == k.second.keyNr && r.version > k.second.version)
  }

  predicate NamesSigner(r: Record, k: Slots) {
    && r.signer.Some?
    && (|| (r.signer.value.keyNr == k.first.keyNr && r.signer.value.version == k.first.version)
        || (r.signer.value.keyNr == k.second.keyNr && r.signer.value.version == k.second.version))
  }

  /** The four messages that install a key, in order. */
  function Messages(update: Command, verify: Command, cached: Slots): (m: seq<Event>)
    ensures |m| == 4
  {
    [Event(SetFlashMask, cached), Event(update, cached), Event(SetFlashMask, cached), Event(verify, cached)]
  }

  /** From `p` to `q` the four messages went out, up to the first that the reader refused. */
  predicate Installed(p: Run, q: Run, dev: Device, update: Command, verify: Command) {
    var sent := |q.log| - |p.log|;
    && 1 <= sent <= 4 && q.log == p.log + Messages(update, verify, p.keys)[..sent]
    && (forall t :: p.tick <= t < p.tick + sent - 1 ==> dev(t).res == CjSuccess)
    && q.res == dev(p.tick + sent - 1).res && (q.res == CjSuccess ==> sent == 4)
    && q.keys == (if q.res == CjSuccess then dev(p.tick + 4).keys else p.keys)
    && q.tick == p.tick + sent + (if q.res == CjSuccess then 1 else 0)
  }

  /** What record `r` does to the run `p`; `left` bytes of the file lie behind its header. */
  predicate Turned(p: Run, q: Run, dev: Device, kv: Versions, r: Record, root: bool, left: nat)
    requires WellFormed(r, root)
  {
    var size := 16 + |r.modulus| + |r.exponent|;
    if HasBlank(p.keys) && kv[r.keyNr] == r.version then
      if size > 800 then q == p.(res := CjCheckResult)
      else Installed(p, q, dev, UpdateKey(KeyPart(r)), VerifyBlank(left))
    else if !root && Supersedes(r, p.keys) then
      if !NamesSigner(r, p.keys) then q == p.(res := CjDataCorrupt)
      else if size > 800 || |r.signer.value.body| > 788 then q == p.(res := CjCheckResult)
      else Installed(p, q, dev, UpdateKey(KeyPart(r)), VerifyKey(SignaturePart(r.signer.value)))
    else q == p
  }

  lemma InstallIs(dev: Device, p: Run, update: Command, verify: Command)
    requires p.res == CjSuccess
    ensures var s := Install(dev, p.tick, p.keys, update, verify);
      Installed(p, Run(p.log + s.log, s.tick, s.keys, s.res), dev, update, verify)
  {
    var s := Install(dev, p.tick, p.keys, update, verify);
    var n := |s.log|;
    assert Messages(update, verify, p.keys)[..n] == s.log;
  }

  lemma StepIs(dev: Device, p: Run, kv: Versions, r: Record, root: bool, left: nat)
    requires WellFormed(r, root) && p.res == CjSuccess
    ensures var s := Step(dev, p.tick, p.keys, kv, r, root, left);
      Turned(p, Run(p.log + s.log, s.tick, s.keys, s.res), dev, kv, r, root, left)
  {
    hide KeyPart, SignaturePart, Install, Installed;
    assert p.log + [] == p.log;
    InstallIs(dev, p, UpdateKey(KeyPart(r)), VerifyBlank(left));
    if r.signer.Some? { InstallIs(dev, p, UpdateKey(KeyPart(r)), VerifyKey(SignaturePart(r.signer.value))); }
  }

  lemma {:induction false} SizeIsBytes(rs: seq<Record>, n: nat)
    requires n <= |rs| && AllWellFormed(rs[n..], n == 0)
    ensures SizeFrom(rs, n) == |SerializeAll(rs[n..], n == 0)|
    decreases |rs| - n
  {
    hide Serialize;
    if n < |rs| {
      assert rs[n..][0] == rs[n] && rs[n..][1..] == rs[n + 1..];
      SizeIsBytes(rs, n + 1);
    }
  }

  lemma TailWellFormed(rs: seq<Record>, n: nat)
    requires n <= |rs| && AllWellFormed(rs, true)
    ensures AllWellFormed(rs[n..], n == 0)
  {
    assert forall i :: 0 <= i < |rs[n..]| ==> rs[n..][i] == rs[n + i];
  }

  /** Headline: every record of every run does exactly what its key number, version and signer call for. */
  lemma RunTurned(dev: Device, keys: Slots, kv: Versions, rs: seq<Record>, n: nat)
    requires n < |rs| && AllWellFormed(rs, true) && RunTo(dev, keys, kv, rs, n).res == CjSuccess
    ensures AllWellFormed(rs[n..], n == 0) && |SerializeAll(rs[n..], n == 0)| >= 5
    ensures Turned(RunTo(dev, keys, kv, rs, n), RunTo(dev, keys, kv, rs, n + 1), dev, kv, rs[n], n == 0,
                   |SerializeAll(rs[n..], n == 0)| - 5)
  {
    hide Step, Turned, SizeFrom, AllWellFormed;
    TailWellFormed(rs, n);
    SizeIsBytes(rs, n);
    assert WellFormed(rs[n], n == 0) by { RecordWellFormed(rs, n); }
    StepIs(dev, RunTo(dev, keys, kv, rs, n), kv, rs[n], n == 0, SizeFrom(rs, n) - 5);
  }

  lemma RecordWellFormed(rs: seq<Record>, n: nat)
    requires n < |rs| && AllWellFormed(rs, true)
    ensures WellFormed(rs[n], n == 0)
  {
  }

  /** The key at `j` is record `i`, masked, sent, masked and verified in that order unless the run failed there. */
  predicate PairedAt(log: seq<Event>, res: CjResult, rs: seq<Record>, j: nat, i: nat)
    requires j < |log| && i < |rs| && AllWellFormed(rs, true)
  {
    var cached := log[j].cached;
    && log[j].cmd == UpdateKey(KeyPart(rs[i]))
    && 1 <= j && log[j - 1] == Event(SetFlashMask, cached)
    && (res == CjSuccess ==> j + 2 < |log|)
    && (j + 1 < |log| ==> log[j + 1] == Event(SetFlashMask, cached))
    && (j + 2 < |log| ==>
          && log[j + 2].cached == cached
          && if HasBlank(cached) && log[j + 2].cmd.VerifyBlank? then true
             else 1 <= i && log[j + 2].cmd == VerifyKey(SignaturePart(rs[i].signer.value)))
  }

  predicate Paired(log: seq<Event>, res: CjResult, rs: seq<Record>)
    requires AllWellFormed(rs, true)
  {
    forall j :: 0 <= j < |log| && log[j].cmd.UpdateKey? ==> exists i :: 0 <= i < |rs| && PairedAt(log, res, rs, j, i)
  }

  /** The messages of an installation stand in the log where the run before it ended. */
  lemma InstalledAt(p: Run, q: Run, dev: Device, update: Command, verify: Command, j: nat)
    requires Installed(p, q, dev, update, verify) && |p.log| <= j < |q.log|
    ensures q.log[j] == Messages(update, verify, p.keys)[j - |p.log|]
  {
  }

  lemma PairedInstall(p: Run, q: Run, dev: Device, rs: seq<Record>, n: nat, verify: Command)
    requires n < |rs| && AllWellFormed(rs, true)
    requires Installed(p, q, dev, UpdateKey(KeyPart(rs[n])), verify)
    requires if verify.VerifyBlank? then HasBlank(p.keys)
             else 1 <= n && verify == VerifyKey(SignaturePart(rs[n].signer.value))
    ensures forall j :: |p.log| <= j < |q.log| && q.log[j].cmd.UpdateKey? ==> PairedAt(q.log, q.res, rs, j, n)
  {
    hide KeyPart, SignaturePart, HasBlank, AllWellFormed;
    RecordWellFormed(rs, n);
    var update := UpdateKey(KeyPart(rs[n]));
    forall j | |p.log| <= j < |q.log| ensures q.log[j] == Messages(update, verify, p.keys)[j - |p.log|] {
      InstalledAt(p, q, dev, update, verify, j);
    }
    forall j | |p.log| <= j < |q.log| && q.log[j].cmd.UpdateKey? ensures PairedAt(q.log, q.res, rs, j, n) {
      assert j == |p.log| + 1;
    }
  }

  /** What is complete in the log stays so when the log grows. */
  lemma PairedKept(log: seq<Event>, more: seq<Event>, res: CjResult, rs: seq<Record>, j: nat, i: nat)
    requires j < |log| && i < |rs| && AllWellFormed(rs, true) && log <= more && PairedAt(log, CjSuccess, rs, j, i)
    ensures PairedAt(more, res, rs, j, i)
  {
    hide KeyPart, SignaturePart, HasBlank, AllWellFormed;
    assert more[j - 1] == log[j - 1] && more[j] == log[j] && more[j + 1] == log[j + 1] && more[j + 2] == log[j + 2];
  }

  lemma PairedStep(p: Run, q: Run, dev: Device, kv: Versions, rs: seq<Record>, n: nat, left: nat)
    requires n < |rs| && AllWellFormed(rs, true) && p.res == CjSuccess && Paired(p.log, p.res, rs)
    requires Turned(p, q, dev, kv, rs[n], n == 0, left)
    ensures Paired(q.log, q.res, rs)
  {
    hide KeyPart, SignaturePart, HasBlank, Supersedes, NamesSigner, PairedAt, AllWellFormed;
    RecordWellFormed(rs, n);
    var blank := VerifyBlank(left);
    if Installed(p, q, dev, UpdateKey(KeyPart(rs[n])), blank) && HasBlank(p.keys) {
      PairedInstall(p, q, dev, rs, n, blank);
    } else if n > 0 && Installed(p, q, dev, UpdateKey(KeyPart(rs[n])), VerifyKey(SignaturePart(rs[n].signer.value))) {
      PairedInstall(p, q, dev, rs, n, VerifyKey(SignaturePart(rs[n].signer.value)));
    }
    forall j | 0 <= j < |q.log| && q.log[j].cmd.UpdateKey?
      ensures exists i :: 0 <= i < |rs| && PairedAt(q.log, q.res, rs, j, i)
    {
      if j < |p.log| {
        assert p.log[j] == q.log[j];
        var i :| 0 <= i < |rs| && PairedAt(p.log, p.res, rs, j, i);
        PairedKept(p.log, q.log, q.res, rs, j, i);
      } else {
        assert PairedAt(q.log, q.res, rs, j, n);
      }
    }
  }

  /** Headline: over every run each key is masked, sent, masked and verified, in that order, unless the run failed. */
  lemma {:induction false} RunPaired(dev: Device, keys: Slots, kv: Versions, rs: seq<Record>, n: nat)
    requires n <= |rs| && AllWellFormed(rs, true)
    ensures var r := RunTo(dev, keys, kv, rs, n); Paired(r.log, r.res, rs)
  {
    hide Step, Turned, Paired, AllWellFormed, SizeFrom;
    if n == 0 {
      NothingPaired(rs);
    } else {
      var p := RunTo(dev, keys, kv, rs, n - 1);
      RunPaired(dev, keys, kv, rs, n - 1);
      if p.res == CjSuccess {
        RunTurned(dev, keys, kv, rs, n - 1);
        PairedStep(p, RunTo(dev, keys, kv, rs, n), dev, kv, rs, n - 1, |SerializeAll(rs[n - 1..], n == 1)| - 5);
      }
    }
  }

  lemma NothingPaired(rs: seq<Record>)
    requires AllWellFormed(rs, true)
    ensures Paired([], CjSuccess, rs)
  {
  }

  /** The log only grows, and a run that succeeds never failed before. */
  lemma {:induction false} RunGrows(dev: Device, keys: Slots, kv: Versions, rs: seq<Record>, m: nat, n: nat)
    requires m <= n <= |rs| && AllWellFormed(rs, true)
    ensures RunTo(dev, keys, kv, rs, m).log <= RunTo(dev, keys, kv, rs, n).log
    ensures RunTo(dev, keys, kv, rs, n).res == CjSuccess ==> RunTo(dev, keys, kv, rs, m).res == CjSuccess
  {
    hide Step, AllWellFormed, SizeFrom;
    if m < n { RunGrows(dev, keys, kv, rs, m, n - 1); }
  }

  /** Record `n` was sent at its turn: both masks, the key and `verify`, with nothing in between. */
  predicate SentAt(log: seq<Event>, at: nat, r: Record, cached: Slots, verify: Command)
    requires |r.modulus| < 0x10000 && |r.exponent| < 256
  {
    at + 4 <= |log| && log[at..at + 4] == Messages(UpdateKey(KeyPart(r)), verify, cached)
  }

  /** Headline: a run that succeeds sent every record that filled a blank slot or superseded a slot at its turn. */
  lemma SuccessSentAll(dev: Device, keys: Slots, kv: Versions, rs: seq<Record>, n: nat)
    requires n < |rs| && AllWellFormed(rs, true) && RunTo(dev, keys, kv, rs, |rs|).res == CjSuccess
    ensures WellFormed(rs[n], n == 0) && AllWellFormed(rs[n..], n == 0) && |SerializeAll(rs[n..], n == 0)| >= 5
    ensures var log, p, r := RunTo(dev, keys, kv, rs, |rs|).log, RunTo(dev, keys, kv, rs, n), rs[n];
      if HasBlank(p.keys) && kv[r.keyNr] == r.version then
        SentAt(log, |p.log|, r, p.keys, VerifyBlank(|SerializeAll(rs[n..], n == 0)| - 5))
      else n > 0 && Supersedes(r, p.keys) ==>
        SentAt(log, |p.log|, r, p.keys, VerifyKey(SignaturePart(r.signer.value)))
  {
    hide KeyPart, SignaturePart, HasBlank, Supersedes, NamesSigner, RunTo, AllWellFormed;
    RecordWellFormed(rs, n);
    RunGrows(dev, keys, kv, rs, n, |rs|);
    RunGrows(dev, keys, kv, rs, n + 1, |rs|);
    RunTurned(dev, keys, kv, rs, n);
    var log, p, q := RunTo(dev, keys, kv, rs, |rs|).log, RunTo(dev, keys, kv, rs, n), RunTo(dev, keys, kv, rs, n + 1);
    assert |q.log| == |p.log| + 4 ==> log[|p.log|..|p.log| + 4] == q.log[|p.log|..|p.log| + 4];
  }

  /** What is sent fits the message field of 800 bytes. */
  predicate Fits(log: seq<Event>) {
    forall e :: e in log && (e.cmd.UpdateKey? || e.cmd.VerifyKey?) ==> |e.cmd.payload| <= 800
  }

  lemma StepFits(dev: Device, t: nat, keys: Slots, kv: Versions, r: Record, root: bool, remaining: nat)
    requires WellFormed(r, root)
    ensures Fits(Step(dev, t, keys, kv, r, root, remaining).log)
  {
    hide KeyPart, SignaturePart, KeySize, BodySize;
  }

  lemma {:induction false} RunFits(dev: Device, keys: Slots, kv: Versions, rs: seq<Record>, n: nat)
    requires n <= |rs| && AllWellFormed(rs, true)
    ensures Fits(RunTo(dev, keys, kv, rs, n).log)
  {
    hide Step, SizeFrom;
    if n > 0 {
      var p := RunTo(dev, keys, kv, rs, n - 1);
      RunFits(dev, keys, kv, rs, n - 1);
      if p.res == CjSuccess {
        StepFits(dev, p.tick, p.keys, kv, rs[n - 1], n == 1, SizeFrom(rs, n - 1) - 5);
      }
    }
  }

  /** A record that would supersede a slot but names no cached signer ends the run: nothing more is sent. */
  lemma BrokenLinkStops(dev: Device, keys: Slots, kv: Versions, rs: seq<Record>, n: nat)
    requires 1 <= n < |rs| && AllWellFormed(rs, true)
    requires var p := RunTo(dev, keys, kv, rs, n);
      && p.res == CjSuccess
      && !FillsBlank(p.keys, kv, rs[n])
      && Outdated(p.keys, rs[n].keyNr, rs[n].version)
      && !SignerCached(p.keys, rs[n])
    ensures RunTo(dev, keys, kv, rs, |rs|) == RunTo(dev, keys, kv, rs, n).(res := CjDataCorrupt)
  {
    hide KeyPart, SignaturePart, Install, KeySize, SizeFrom, AllWellFormed;
    var p := RunTo(dev, keys, kv, rs, n);
    assert p.log + [] == p.log;
    assert RunTo(dev, keys, kv, rs, n + 1) == p.(res := CjDataCorrupt);
    Sticky(dev, keys, kv, rs, n + 1, |rs|);
  }

  /** A reader that stored record `r` reports it in every slot of that key number, and leaves other slots alone. */
  predicate Stored(before: Slots, after: Slots, r: Record) {
    && (after.first == before.first || after.first == Slot(r.keyNr, r.version))
    && (after.second == before.second || after.second == Slot(r.keyNr, r.version))
    && !Outdated(after, r.keyNr, r.version)
  }

  /** If record `n` was sent and accepted, the reader stored it. */
  predicate StoredAt(dev: Device, keys: Slots, kv: Versions, rs: seq<Record>, n: nat)
    requires n < |rs| && AllWellFormed(rs, true)
  {
    var p, q := RunTo(dev, keys, kv, rs, n), RunTo(dev, keys, kv, rs, n + 1);
    q.res == CjSuccess && q.tick != p.tick ==> Stored(p.keys, q.keys, rs[n])
  }

  predicate UpToDate(keys: Slots, rs: seq<Record>, n: nat)
    requires n <= |rs|
  {
    forall i :: 1 <= i < n ==> !Outdated(keys, rs[i].keyNr, rs[i].version)
  }

  lemma UpToDateStep(dev: Device, t: nat, keys: Slots, kv: Versions, rs: seq<Record>, n: nat, remaining: nat)
    requires n < |rs| && AllWellFormed(rs, true) && Increasing(rs) && UpToDate(keys, rs, n)
    ensures var s := Step(dev, t, keys, kv, rs[n], n == 0, remaining);
      s.res == CjSuccess && (s.tick != t ==> Stored(keys, s.keys, rs[n])) ==> UpToDate(s.keys, rs, n + 1)
  {
    hide KeyPart, SignaturePart, KeySize, BodySize, SignerCached;
  }

  /** Headline: with a reader that stores what it accepts, success leaves no slot older than any signed record. */
  lemma {:induction false} SuccessIsUpToDate(dev: Device, keys: Slots, kv: Versions, rs: seq<Record>, n: nat)
    requires n <= |rs| && AllWellFormed(rs, true) && Increasing(rs)
    requires forall i :: 0 <= i < n ==> StoredAt(dev, keys, kv, rs, i)
    requires RunTo(dev, keys, kv, rs, n).res == CjSuccess
    ensures UpToDate(RunTo(dev, keys, kv, rs, n).keys, rs, n)
  {
    hide Step, Stored, Outdated, SizeFrom, AllWellFormed, Increasing;
    if n > 0 {
      var p := RunTo(dev, keys, kv, rs, n - 1);
      SuccessIsUpToDate(dev, keys, kv, rs, n - 1);
      UpToDateStep(dev, p.tick, p.keys, kv, rs, n - 1, SizeFrom(rs, n - 1) - 5);
      assert StoredAt(dev, keys, kv, rs, n - 1);
    }
  }

  // ----- the byte walk refines the run -----

  /** The records from number `n` on stand, in order, from `ptr` to the end of the file. */
  ghost predicate Standing(data: seq<Byte>, ptr: nat, rs: seq<Record>, n: nat)
    requires ptr <= |data| && n <= |rs|
    decreases |rs| - n
  {
    && ptr + SizeFrom(rs, n) == |data|
    && (n < |rs| ==>
          && Stands(data, ptr, rs[n], n == 0)
          && Standing(data, ptr + 5 + BodySize(rs[n]), rs, n + 1))
  }

  lemma {:induction false} ReadsStand(data: seq<Byte>, ptr: nat, kv: Versions, rs: seq<Record>, n: nat)
    requires ptr <= |data| && n <= |rs| && Reads(data, ptr, n == 0, kv, rs[n..])
    ensures Standing(data, ptr, rs, n)
    decreases |rs| - n
  {
    hide Serialize;
    if n < |rs| {
      assert rs[n..][0] == rs[n] && rs[n..][1..] == rs[n + 1..];
      ReadsStand(data, ptr + 5 + BodySize(rs[n]), kv[rs[n].keyNr := rs[n].version], rs, n + 1);
    }
  }

  lemma KeyFileStands(data: seq<Byte>, rs: seq<Record>)
    requires IsKeyFile(data, rs)
    ensures AllWellFormed(rs, true) && Standing(data, 0, rs, 0)
  {
    hide Standing, SerializeAll, Reads;
    assert data[0..] == data && rs[0..] == rs;
    assert Above(rs, NoVersions());
    ReadsExact(data, 0, true, NoVersions(), rs);
    ReadsStand(data, 0, NoVersions(), rs, 0);
  }

  /** The bytes the walk reads and copies at a record that stands there. */
  lemma StandingBytes(data: seq<Byte>, ptr: nat, r: Record, root: bool)
    requires Stands(data, ptr, r, root)
    ensures WellFormed(r, root) && ptr + 5 + BodySize(r) <= |data|
    ensures U16(data, ptr + 3) == BodySize(r)
    ensures U16(data, ptr + 17) == |r.modulus| && data[ptr + 20 + |r.modulus|] == |r.exponent|
    ensures data[ptr + 13] == r.keyNr && data[ptr + 14] == r.version
    ensures data[ptr + 5..ptr + 5 + KeySize(r)] == KeyPart(r)
    ensures !root ==>
      var g, at := r.signer.value, ptr + 5 + KeySize(r);
      && U16(data, at + 2) == |g.body| + 8
      && data[at + 6] == g.keyNr && data[at + 7] == g.version
      && data[at..at + 12 + |g.body|] == SignaturePart(g)
  {
    hide Serialize, KeyPart, SignaturePart;
    RecordAt(data, ptr, r, root);
    KeyPartAt(data, ptr + 5, r);
    if !root {
      SignaturePartAt(data, ptr + 5 + KeySize(r), r.signer.value);
    }
  }

  lemma StandingHead(data: seq<Byte>, ptr: nat, rs: seq<Record>, n: nat)
    requires ptr < |data| && n <= |rs| && Standing(data, ptr, rs, n)
    ensures n < |rs| && Stands(data, ptr, rs[n], n == 0) && |data| - ptr == SizeFrom(rs, n)
    ensures ptr + 5 + BodySize(rs[n]) <= |data| && Standing(data, ptr + 5 + BodySize(rs[n]), rs, n + 1)
  {
    hide Stands;
  }

  lemma StandingEnd(data: seq<Byte>, rs: seq<Record>, n: nat)
    requires n <= |rs| && Standing(data, |data|, rs, n)
    ensures n == |rs|
  {
    hide Stands;
  }

  class KeyUpdater {
    const dev: Device
    var keys: Slots
    var tick: nat
    var log: seq<Event>

    constructor (dev: Device, keys: Slots)
      ensures this.dev == dev && this.keys == keys && tick == 0 && log == []
    {
      this.dev, this.keys, tick, log := dev, keys, 0, [];
    }

    /** One `Escape` to the reader. */
    method Send(cmd: Command) returns (res: CjResult)
      modifies this
      ensures res == dev(old(tick)).res && tick == old(tick) + 1 && keys == old(keys)
      ensures log == old(log) + [Event(cmd, keys)]
    {
      log := log + [Event(cmd, keys)];
      res := dev(tick).res;
      tick := tick + 1;
    }

    method SendKey(update: Command, verify: Command) returns (res: CjResult)
      modifies this
      ensures var r := Install(dev, old(tick), old(keys), update, verify);
        log == old(log) + r.log && tick == r.tick && keys == r.keys && res == r.res
    {
      res := Send(SetFlashMask);
      if res != CjSuccess { return; }
      res := Send(update);
      if res != CjSuccess { return; }
      res := Send(SetFlashMask);
      if res != CjSuccess { return; }
      res := Send(verify);
      if res != CjSuccess { return; }
      keys := dev(tick).keys;
      tick := tick + 1;
    }

    /** `memcpy` into the 800-byte message field. */
    static method Copy(data: seq<Byte>, from: nat, n: nat) returns (field: array<Byte>)
      requires n <= 800 && from + n <= |data|
      ensures fresh(field) && field.Length == 800 && field[..n] == data[from..from + n]
    {
      field := new Byte[800](_ => 0);
      var i := 0;
      while i < n
        invariant 0 <= i <= n && field[..i] == data[from..from + i]
      {
        field[i] := data[from + i];
        i := i + 1;
      }
    }

    /** One turn of the walk: the body of the loop, at a record that stands at `ptr`. */
    method Visit(data: seq<Byte>, ptr: nat, kv: array<Byte>, isRoot: bool, ghost r: Record)
      returns (help: nat, res: CjResult)
      requires kv.Length == 256 && Stands(data, ptr, r, isRoot)
      modifies this
      ensures help == BodySize(r)
      ensures ptr + 5 + BodySize(r) <= |data|
      ensures var s := Step(dev, old(tick), old(keys), kv[..], r, isRoot, |data| - ptr - 5);
        log == old(log) + s.log && tick == s.tick && keys == s.keys && res == s.res
    {
      hide KeyPart, SignaturePart, Stands, Install, U16, Outdated, Blank;
      StandingBytes(data, ptr, r, isRoot);
      help := U16(data, ptr + 3);
      var newKey, len := ptr + 5, |data| - ptr - 5;
      var help1 := U16(data, newKey + 12);
      var help2 := data[newKey + 15 + help1];
      var keyLen := 16 + help1 + help2;
      var sig := newKey + keyLen;
      var keyNr, version := data[newKey + 8], data[newKey + 9];
      res := CjSuccess;
      if Blank(keys) && kv[keyNr] == version {
        if keyLen > 800 { return help, CjCheckResult; }
        var field := Copy(data, newKey, keyLen);
        res := SendKey(UpdateKey(field[..keyLen]), VerifyBlank(len));
      } else if !isRoot {
        var help3 := U16(data, sig + 2);
        if Outdated(keys, keyNr, version) {
          if Slot(data[sig + 6], data[sig + 7]) != keys.first && Slot(data[sig + 6], data[sig + 7]) != keys.second {
            return help, CjDataCorrupt;
          }
          if keyLen > 800 || help3 > 796 { return help, CjCheckResult; }
          var field := Copy(data, newKey, keyLen);
          var signature := Copy(data, sig, help3 + 4);
          res := SendKey(UpdateKey(field[..keyLen]), VerifyKey(signature[..help3 + 4]));
        }
      }
    }

    /**
     The whole call. The walk stays inside the file and ends exactly at its end because the file was
     validated first; what it sends and leaves behind is the run over the records of the file.
     */
    method KeyUpdate(data: seq<Byte>) returns (res: CjResult, ghost rs: seq<Record>, ghost newest: Versions)
      requires tick == 0 && log == []
      modifies this
      ensures !IsKeyFile(data, rs) ==> forall other :: !IsKeyFile(data, other)
      ensures !IsKeyFile(data, rs) ==> log == [] && keys == old(keys)
      ensures !IsKeyFile(data, rs) ==>
        res == if Silent(data, old(keys)) then CjSuccess else CjDataCorrupt
      ensures IsKeyFile(data, rs) ==>
        && Newest(newest, rs)
        && Run(log, tick, keys, res) ==
             if UpdateTime(rs, old(keys)) == 0 then Run([], 0, old(keys), CjSuccess)
             else RunTo(dev, old(keys), newest, rs, |rs|)
    {
      hide Estimate, Silent, IsKeyFile, Newest, UpdateTime, Step, Standing, Stands, BodySize, SizeFrom, AllWellFormed;
      var kv := new Byte[256](_ => 0);
      var recommended, time;
      recommended, time, res, rs := IsKeyUpdateRecommended(data, keys, kv);
      newest := kv[..];
      SilentExactly(data, keys);
      if !recommended { return CjSuccess, rs, newest; }
      if res != CjSuccess { return; }
      KeyFileStands(data, rs);
      var ptr, len, isRoot := 0, |data|, true;
      ghost var n := 0;
      while len != 0
        invariant 0 <= n <= |rs| && 0 <= ptr && 0 <= len && ptr + len == |data|
        invariant isRoot == (n == 0) && kv[..] == newest && fresh(kv)
        invariant Standing(data, ptr, rs, n)
        invariant res == CjSuccess && Run(log, tick, keys, res) == RunTo(dev, old(keys), newest, rs, n)
        decreases len
      {
        StandingHead(data, ptr, rs, n);
        var help;
        help, res := Visit(data, ptr, kv, isRoot, rs[n]);
        n := n + 1;
        if res != CjSuccess {
          Sticky(dev, old(keys), newest, rs, n, |rs|);
          return;
        }
        ptr, len := ptr + 5 + help, len - 5 - help;
        isRoot := false;
      }
      StandingEnd(data, rs, n);
    }
  }
}
