/**
 `CEC30Reader::_CtIsKeyUpdateRecommended`: one pass over a key file that validates it, collects the
 newest version per key number and estimates how long the update will take.
 */
module KeyValidator {
  import opened Bytes
  import opened KeyFile

  datatype CjResult = CjSuccess | CjDataCorrupt | CjCheckResult | CjDevice(code: int)

  /** The two key slots the reader reported last (`m_ReaderInfo.Keys`). */
  datatype Slot = Slot(keyNr: Byte, version: Byte)
  datatype Slots = Slots(first: Slot, second: Slot)

  predicate Blank(k: Slots) {
    k.first == Slot(0xff, 0xff) || k.second == Slot(0xff, 0xff)
  }

  /** Some slot holds key number `keyNr` in an older version. */
  predicate Outdated(k: Slots, keyNr: Byte, version: Byte) {
    || (keyNr == k.first.keyNr && version > k.first.version)
    || (keyNr == k.second.keyNr && version > k.second.version)
  }

  /** Number of records that supersede a slot. */
  function CountNewer(rs: seq<Record>, k: Slots): nat {
    if rs == [] then 0
    else
      var last := rs[|rs| - 1];
      CountNewer(rs[..|rs| - 1], k) + if Outdated(k, last.keyNr, last.version) then 1 else 0
  }

  function KeyNumbers(rs: seq<Record>): set<Byte> { set i | 0 <= i < |rs| :: rs[i].keyNr }

  /** 5 seconds per record that supersedes a slot, and 1 second per key number if a slot is still blank. */
  function UpdateTime(rs: seq<Record>, k: Slots): nat {
    5000 * CountNewer(rs, k) + if Blank(k) then 1000 * |KeyNumbers(rs)| else 0
  }

  /** `kv` holds the newest version of every key number in `rs`, and 0 for the others. */
  predicate Newest(kv: Versions, rs: seq<Record>) {
    && (forall i :: 0 <= i < |rs| ==> 1 <= rs[i].version <= kv[rs[i].keyNr])
    && (forall k: Byte :: kv[k] > 0 ==> exists i :: 0 <= i < |rs| && rs[i].keyNr == k && rs[i].version == kv[k])
  }

  /** In a key file the newest version of a key number is carried by one record only. */
  lemma NewestIsUnique(rs: seq<Record>, kv: Versions, i: nat, j: nat)
    requires Increasing(rs) && Newest(kv, rs) && i < |rs| && j < |rs|
    requires rs[i].keyNr == rs[j].keyNr && rs[i].version == kv[rs[i].keyNr] && rs[j].version == kv[rs[j].keyNr]
    ensures i == j
  {
  }

  function Sum(kv: seq<Byte>): nat {
    if kv == [] then 0 else kv[|kv| - 1] + Sum(kv[..|kv| - 1])
  }

  lemma {:induction false} SumUpdate(kv: seq<Byte>, k: nat, v: Byte)
    requires k < |kv|
    ensures Sum(kv[k := v]) == Sum(kv) - kv[k] + v
  {
    var n := |kv| - 1;
    if k == n {
      assert kv[k := v][..n] == kv[..n];
    } else {
      assert kv[k := v][..n] == kv[..n][k := v];
      SumUpdate(kv[..n], k, v);
    }
  }

  lemma {:induction false} SumBound(kv: seq<Byte>)
    ensures Sum(kv) <= 255 * |kv|
  {
    if kv != [] {
      SumBound(kv[..|kv| - 1]);
    }
  }

  lemma {:induction false} SumZero(kv: seq<Byte>)
    requires forall i :: 0 <= i < |kv| ==> kv[i] == 0
    ensures Sum(kv) == 0
  {
    if kv != [] {
      SumZero(kv[..|kv| - 1]);
    }
  }

  lemma ExtendNewest(rs: seq<Record>, r: Record, kv: Versions)
    requires Newest(kv, rs) && kv[r.keyNr] < r.version
    ensures Newest(kv[r.keyNr := r.version], rs + [r])
  {
    var rs', kv' := rs + [r], kv[r.keyNr := r.version];
    forall k: Byte | kv'[k] > 0
      ensures exists i :: 0 <= i < |rs'| && rs'[i].keyNr == k && rs'[i].version == kv'[k]
    {
      if k == r.keyNr {
        assert rs'[|rs|] == r;
      } else {
        var i :| 0 <= i < |rs| && rs[i].keyNr == k && rs[i].version == kv[k];
        assert rs'[i] == rs[i];
      }
    }
  }

  lemma ExtendKeyNumbers(rs: seq<Record>, r: Record, kv: Versions)
    requires Newest(kv, rs)
    ensures |KeyNumbers(rs + [r])| == |KeyNumbers(rs)| + if kv[r.keyNr] == 0 then 1 else 0
  {
    KeyNumbersExtend(rs, r);
    if kv[r.keyNr] > 0 {
      var i :| 0 <= i < |rs| && rs[i].keyNr == r.keyNr && rs[i].version == kv[r.keyNr];
      assert r.keyNr in KeyNumbers(rs);
      assert KeyNumbers(rs) + {r.keyNr} == KeyNumbers(rs);
    } else {
      assert r.keyNr !in KeyNumbers(rs);
    }
  }

  lemma KeyNumbersExtend(rs: seq<Record>, r: Record)
    ensures KeyNumbers(rs + [r]) == KeyNumbers(rs) + {r.keyNr}
  {
    var rs' := rs + [r];
    forall k | k in KeyNumbers(rs) + {r.keyNr}
      ensures k in KeyNumbers(rs')
    {
      if k == r.keyNr {
        assert rs'[|rs|].keyNr == k;
      } else {
        var i :| 0 <= i < |rs| && rs[i].keyNr == k;
        assert rs'[i].keyNr == k;
      }
    }
  }

  /** What one more record does to the table, to the record bound and to the estimate. */
  lemma Extend(rs: seq<Record>, r: Record, kv: Versions, k: Slots)
    requires Newest(kv, rs) && kv[r.keyNr] < r.version && |rs| <= Sum(kv)
    ensures Newest(kv[r.keyNr := r.version], rs + [r])
    ensures |rs| + 1 <= Sum(kv[r.keyNr := r.version])
    ensures UpdateTime(rs + [r], k) == UpdateTime(rs, k) + Cost(k, kv, r)
  {
    ExtendNewest(rs, r, kv);
    ExtendKeyNumbers(rs, r, kv);
    SumUpdate(kv, r.keyNr, r.version);
    assert (rs + [r])[..|rs|] == rs;
  }

  /** The time, told record by record: 5 seconds to supersede a slot, 1 second for a key number new to a blank slot. */
  lemma TimeTold(rs: seq<Record>, r: Record, k: Slots)
    ensures UpdateTime([], k) == 0
    ensures UpdateTime(rs + [r], k) == UpdateTime(rs, k)
      + (if || (r.keyNr == k.first.keyNr && r.version > k.first.version)
            || (r.keyNr == k.second.keyNr && r.version > k.second.version) then 5000 else 0)
      + (if && (|| (k.first.keyNr == 255 && k.first.version == 255)
                || (k.second.keyNr == 255 && k.second.version == 255))
            && (forall i :: 0 <= i < |rs| ==> rs[i].keyNr != r.keyNr) then 1000 else 0)
  {
    assert (rs + [r])[..|rs|] == rs;
    KeyNumbersExtend(rs, r);
    if forall i :: 0 <= i < |rs| ==> rs[i].keyNr != r.keyNr {
      assert r.keyNr !in KeyNumbers(rs);
    } else {
      assert KeyNumbers(rs) + {r.keyNr} == KeyNumbers(rs);
    }
  }

  /** The running estimate stays far below the range of a `uint32_t`. */
  lemma EstimateBound(rs: seq<Record>, kv: Versions, k: Slots)
    requires |rs| <= Sum(kv)
    ensures |rs| <= 255 * 256
    ensures UpdateTime(rs, k) + 6000 < 0x1_0000_0000
  {
    SumBound(kv);
    CountNewerBound(rs, k);
    KeyNumbersBound(rs);
  }

  lemma {:induction false} CountNewerBound(rs: seq<Record>, k: Slots)
    ensures CountNewer(rs, k) <= |rs|
  {
    if rs != [] {
      CountNewerBound(rs[..|rs| - 1], k);
    }
  }

  lemma {:induction false} KeyNumbersBound(rs: seq<Record>)
    ensures |KeyNumbers(rs)| <= |rs|
  {
    if rs != [] {
      var n := |rs| - 1;
      KeyNumbersBound(rs[..n]);
      assert rs == rs[..n] + [rs[n]];
      KeyNumbersExtend(rs[..n], rs[n]);
    }
  }

  ghost function Prepend(done: seq<Record>, rest: Option<seq<Record>>): Option<seq<Record>> {
    match rest
    case None => None
    case Some(rs) => Some(done + rs)
  }

  /** All checks on one record, the version check included. */
  predicate Passes(data: seq<Byte>, p: nat, root: bool, kv: Versions)
    requires p <= |data|
  {
    Checks(data, p, root) && kv[Extract(data, p, root).keyNr] < Extract(data, p, root).version
  }

  /** What one record adds to the estimate. */
  function Cost(keys: Slots, kv: Versions, r: Record): nat { CostOf(keys, kv, r.keyNr, r.version) }

  function CostOf(keys: Slots, kv: Versions, keyNr: Byte, version: Byte): nat {
    (if Outdated(keys, keyNr, version) then 5000 else 0)
    + (if Blank(keys) && kv[keyNr] == 0 then 1000 else 0)
  }

  /** What the bytes at `p` add to the estimate: it is raised before the record has been checked to its end. */
  function CostAt(data: seq<Byte>, p: nat, root: bool, kv: Versions, keys: Slots): nat
    requires p <= |data|
  {
    if HeaderChecks(data, p, root) && kv[data[p + 13]] < data[p + 14]
    then CostOf(keys, kv, data[p + 13], data[p + 14])
    else 0
  }

  /** The estimate for the bytes from `p` on, whether they turn out to be corrupt or not. */
  function Estimate(data: seq<Byte>, p: nat, root: bool, kv: Versions, keys: Slots): nat
    requires p <= |data|
    decreases |data| - p
  {
    if p == |data| then 0
    else
      CostAt(data, p, root, kv, keys)
      + if Passes(data, p, root, kv) then
          var r := Extract(data, p, root);
          Estimate(data, p + 5 + U16(data, p + 3), false, kv[r.keyNr := r.version], keys)
        else 0
  }

  lemma CostPasses(data: seq<Byte>, p: nat, root: bool, kv: Versions, keys: Slots)
    requires p <= |data| && Passes(data, p, root, kv)
    ensures CostAt(data, p, root, kv, keys) == Cost(keys, kv, Extract(data, p, root))
  {
    hide KeyChecks, SignatureChecks, Outdated, Blank;
  }

  /** One turn of the loop, seen from the grammar. */
  lemma ScanTurn(data: seq<Byte>, p: nat, root: bool, kv: Versions, done: seq<Record>)
    requires p < |data|
    ensures Prepend(done, Scan(data, p, root, kv)) ==
      if Passes(data, p, root, kv) then
        var r := Extract(data, p, root);
        Prepend(done + [r], Scan(data, p + 5 + U16(data, p + 3), false, kv[r.keyNr := r.version]))
      else None
  {
    hide Checks, Extract, Fields, Stands;
    ChecksExact(data, p, root);
    if Checks(data, p, root) {
      var r := Extract(data, p, root);
      ChecksToFields(data, p, root);
      var rest := Scan(data, p + 5 + BodySize(r), false, kv[r.keyNr := r.version]);
      if rest.Some? {
        assert done + ([r] + rest.value) == done + [r] + rest.value;
      }
    }
  }

  /** Where the loop stands after the records `rs`, at offset `ptr`. */
  ghost predicate Progress(data: seq<Byte>, keys: Slots, ptr: nat, root: bool, kv: Versions, rs: seq<Record>, time: nat)
    requires ptr <= |data|
  {
    && Scan(data, 0, true, NoVersions()) == Prepend(rs, Scan(data, ptr, root, kv))
    && Newest(kv, rs) && |rs| <= Sum(kv)
    && time == UpdateTime(rs, keys)
    && Estimate(data, 0, true, NoVersions(), keys) == time + Estimate(data, ptr, root, kv, keys)
  }

  lemma ProgressStart(data: seq<Byte>, keys: Slots)
    ensures Progress(data, keys, 0, true, NoVersions(), [], 0)
  {
    hide Scan;
    SumZero(NoVersions());
    var all := Scan(data, 0, true, NoVersions());
    if all.Some? {
      assert [] + all.value == all.value;
    }
  }

  /** The records `rs` can be read from `p` on, and behind them, at `q`, a header with a version above the table. */
  ghost predicate Readable(data: seq<Byte>, p: nat, root: bool, kv: Versions, rs: seq<Record>, q: nat): (b: bool)
    requires p <= |data|
    ensures b ==> q + 15 <= |data|
    decreases |rs|
  {
    if rs == [] then q == p && HeaderChecks(data, p, root) && kv[data[p + 13]] < data[p + 14]
    else
      && Stands(data, p, rs[0], root) && kv[rs[0].keyNr] < rs[0].version
      && Readable(data, p + 5 + BodySize(rs[0]), false, kv[rs[0].keyNr := rs[0].version], rs[1..], q)
  }

  /** Nothing that can be read from `p` on would supersede a slot. */
  ghost predicate NothingNewer(data: seq<Byte>, p: nat, root: bool, kv: Versions, keys: Slots)
    requires p <= |data|
  {
    forall rs: seq<Record>, q: nat :: Readable(data, p, root, kv, rs, q) ==> !Outdated(keys, data[q + 13], data[q + 14])
  }

  /** The file asks for no update: with a blank slot, because not even its first header can be read. */
  ghost predicate Silent(data: seq<Byte>, keys: Slots) {
    if Blank(keys) then data == [] || !HeaderChecks(data, 0, true) || data[14] == 0
    else NothingNewer(data, 0, true, NoVersions(), keys)
  }

  lemma PassesExact(data: seq<Byte>, p: nat, root: bool, kv: Versions, r: Record)
    requires p <= |data|
    ensures Passes(data, p, root, kv) && Extract(data, p, root) == r <==>
      Stands(data, p, r, root) && kv[r.keyNr] < r.version
    ensures Passes(data, p, root, kv) && Extract(data, p, root) == r ==>
      BodySize(r) == U16(data, p + 3) && p + 5 + BodySize(r) <= |data|
  {
    hide Checks, Extract, Fields, Stands;
    ChecksExact(data, p, root);
    if Checks(data, p, root) { ChecksToFields(data, p, root); }
    if Stands(data, p, r, root) { HeadUnique(data, p, r, root); }
  }

  lemma {:induction false} EstimateZero(data: seq<Byte>, p: nat, root: bool, kv: Versions, keys: Slots)
    requires p <= |data| && !Blank(keys)
    ensures Estimate(data, p, root, kv, keys) == 0 <==> NothingNewer(data, p, root, kv, keys)
    decreases |data| - p
  {
    hide Checks, Extract, Stands, Blank, Outdated, NothingNewer, CostAt, Readable;
    CostZero(data, p, root, kv, keys);
    if p < |data| && Passes(data, p, root, kv) {
      var r := Extract(data, p, root);
      PassesExact(data, p, root, kv, r);
      EstimateZero(data, p + 5 + BodySize(r), false, kv[r.keyNr := r.version], keys);
      NewerBehind(data, p, root, kv, keys, r);
    } else {
      forall r { PassesExact(data, p, root, kv, r); }
      NewerHere(data, p, root, kv, keys);
    }
  }

  /** Behind a record that stands at `p`, what can be read from `p` on is its header and what follows it. */
  lemma NewerBehind(data: seq<Byte>, p: nat, root: bool, kv: Versions, keys: Slots, r: Record)
    requires p <= |data| && Stands(data, p, r, root) && kv[r.keyNr] < r.version && p + 5 + BodySize(r) <= |data|
    ensures NothingNewer(data, p, root, kv, keys) <==>
      && (Readable(data, p, root, kv, [], p) ==> !Outdated(keys, data[p + 13], data[p + 14]))
      && NothingNewer(data, p + 5 + BodySize(r), false, kv[r.keyNr := r.version], keys)
  {
    hide Stands, Outdated, HeaderChecks;
    var next, kv' := p + 5 + BodySize(r), kv[r.keyNr := r.version];
    if !NothingNewer(data, next, false, kv', keys) {
      var rs: seq<Record>, q: nat :|
        Readable(data, next, false, kv', rs, q) && Outdated(keys, data[q + 13], data[q + 14]);
      assert ([r] + rs)[1..] == rs;
      assert Readable(data, p, root, kv, [r] + rs, q);
    }
    forall rs: seq<Record>, q: nat | Readable(data, p, root, kv, rs, q)
      ensures if rs == [] then q == p else Readable(data, next, false, kv', rs[1..], q)
    {
      if rs != [] {
        HeadUnique(data, p, r, root);
        HeadUnique(data, p, rs[0], root);
      }
    }
  }

  /** Where no record with a new version stands, only the header itself can be read. */
  lemma NewerHere(data: seq<Byte>, p: nat, root: bool, kv: Versions, keys: Slots)
    requires p <= |data| && forall r :: Stands(data, p, r, root) ==> kv[r.keyNr] >= r.version
    ensures NothingNewer(data, p, root, kv, keys) <==>
      (Readable(data, p, root, kv, [], p) ==> !Outdated(keys, data[p + 13], data[p + 14]))
  {
    hide Stands, Outdated, HeaderChecks;
  }

  lemma CostZero(data: seq<Byte>, p: nat, root: bool, kv: Versions, keys: Slots)
    requires p <= |data| && !Blank(keys)
    ensures CostAt(data, p, root, kv, keys) > 0 <==>
      Readable(data, p, root, kv, [], p) && Outdated(keys, data[p + 13], data[p + 14])
  {
    hide HeaderChecks, Outdated, Blank;
  }

  /** The estimate is 0 exactly for the files that ask for no update, corrupt or not. */
  lemma SilentExactly(data: seq<Byte>, keys: Slots)
    ensures Estimate(data, 0, true, NoVersions(), keys) == 0 <==> Silent(data, keys)
  {
    hide Checks, Extract, Outdated;
    if !Blank(keys) {
      EstimateZero(data, 0, true, NoVersions(), keys);
    } else if data != [] && Passes(data, 0, true, NoVersions()) {
      PassesHeader(data, 0, true, NoVersions());
    }
  }

  lemma PassesHeader(data: seq<Byte>, p: nat, root: bool, kv: Versions)
    requires p <= |data| && Passes(data, p, root, kv)
    ensures HeaderChecks(data, p, root) && kv[data[p + 13]] < data[p + 14]
  {
    hide KeyChecks, SignatureChecks;
  }

  /** A file refused before its first key number is looked at reads as corrupt and as asking for no update at once. */
  lemma RefusedUnseen(data: seq<Byte>, keys: Slots)
    requires data != [] && !HeaderChecks(data, 0, true)
    ensures Silent(data, keys) && forall rs :: !IsKeyFile(data, rs)
  {
    hide IsKeyFile;
    SilentExactly(data, keys);
    forall rs ensures !IsKeyFile(data, rs) {
      AcceptsExactlyKeyFiles(data, rs);
      ChecksExact(data, 0, true);
    }
  }

  lemma ProgressTurn(data: seq<Byte>, keys: Slots, ptr: nat, root: bool, kv: Versions, rs: seq<Record>, time: nat)
    requires ptr < |data| && Progress(data, keys, ptr, root, kv, rs, time)
    ensures time + 6000 < 0x1_0000_0000
    ensures !Passes(data, ptr, root, kv) ==>
      Estimate(data, 0, true, NoVersions(), keys) == time + CostAt(data, ptr, root, kv, keys)
    ensures if Passes(data, ptr, root, kv) then
        var r := Extract(data, ptr, root);
        && ptr + 5 + U16(data, ptr + 3) <= |data|
        && Progress(data, keys, ptr + 5 + U16(data, ptr + 3), false, kv[r.keyNr := r.version], rs + [r],
                    time + CostAt(data, ptr, root, kv, keys))
      else Scan(data, 0, true, NoVersions()) == None
  {
    EstimateBound(rs, kv, keys);
    ScanTurn(data, ptr, root, kv, rs);
    if Passes(data, ptr, root, kv) {
      CostPasses(data, ptr, root, kv, keys);
      Extend(rs, Extract(data, ptr, root), kv, keys);
    }
  }

  lemma ProgressEnd(data: seq<Byte>, keys: Slots, root: bool, kv: Versions, rs: seq<Record>, time: nat)
    requires Progress(data, keys, |data|, root, kv, rs, time)
    ensures Scan(data, 0, true, NoVersions()) == Some(rs) && Newest(kv, rs) && |rs| <= 255 * 256
    ensures time == UpdateTime(rs, keys) == Estimate(data, 0, true, NoVersions(), keys) && time < 0x1_0000_0000
  {
    assert rs + [] == rs;
    EstimateBound(rs, kv, keys);
  }

  method CheckHeader(data: seq<Byte>, at: nat, isRoot: bool) returns (ok: bool)
    requires at <= |data|
    ensures ok == HeaderChecks(data, at, isRoot)
  {
    var ptr, len := at, |data| - at;
    if len < 23 || (!isRoot && len < 36) { return false; }
    if data[ptr..ptr + 3] != RECORD_TAG { return false; }
    ptr, len := ptr + 3, len - 3;
    var help := U16(data, ptr);
    if help < 18 || (!isRoot && help < 31) { return false; }
    ptr, len := ptr + 2, len - 2;
    if len < help { return false; }
    if data[ptr..ptr + 8] != KEY_TAG { return false; }
    return data[ptr + 10..ptr + 12] == [0x81, 0x82];
  }

  method CheckKey(data: seq<Byte>, ptr: nat, isRoot: bool, help: nat) returns (ok: bool, size: nat)
    requires help >= (if isRoot then 18 else 31) && ptr + help <= |data|
    ensures ok == KeyChecks(data, ptr, isRoot, help)
    ensures ok ==> size == 16 + U16(data, ptr + 12) + data[ptr + 15 + U16(data, ptr + 12)]
  {
    var help1 := U16(data, ptr + 12);
    if help < 17 + help1 || (!isRoot && help < 30 + help1) || help1 < 1 { return false, 0; }
    var help2 := data[ptr + 15 + help1];
    if data[ptr + 14 + help1] != 0x82 || (isRoot && 16 + help1 + help2 != help)
       || (!isRoot && help < 29 + help1 + help2) || help2 < 1 { return false, 0; }
    return true, 16 + help1 + help2;
  }

  method CheckSignature(data: seq<Byte>, ptr: nat, size: int) returns (ok: bool)
    requires ptr + 12 <= |data|
    ensures ok == SignatureChecks(data, ptr, size)
  {
    if data[ptr..ptr + 2] != [0x83, 0x82] { return false; }
    var help3 := U16(data, ptr + 2);
    if help3 < 9 || help3 != size { return false; }
    if data[ptr + 4..ptr + 6] != [0x51, 0x02] { return false; }
    if data[ptr + 8..ptr + 10] != [0x84, 0x82] { return false; }
    var help4 := U16(data, ptr + 10);
    return help3 == help4 + 8;
  }

  /** One record: all checks, the estimate and the table entry. */
  method CheckRecord(data: seq<Byte>, ptr: nat, isRoot: bool, keys: Slots, kv: array<Byte>)
    returns (ok: bool, help: nat, cost: nat)
    requires ptr <= |data| && kv.Length == 256
    modifies kv
    ensures cost == CostAt(data, ptr, isRoot, old(kv[..]), keys) && cost <= 6000
    ensures ok == Passes(data, ptr, isRoot, old(kv[..]))
    ensures ok ==>
      var r := Extract(data, ptr, isRoot);
      && help == U16(data, ptr + 3)
      && kv[..] == old(kv[..])[r.keyNr := r.version]
  {
    hide SignatureChecks, At;
    cost := 0;
    ok := CheckHeader(data, ptr, isRoot);
    if !ok { return false, 0, 0; }
    help := U16(data, ptr + 3);
    var keyNr, version := data[ptr + 13], data[ptr + 14];
    if kv[keyNr] >= version { return false, 0, 0; }
    if Outdated(keys, keyNr, version) { cost := cost + 5000; }
    if Blank(keys) && kv[keyNr] == 0 { cost := cost + 1000; }
    var size;
    ok, size := CheckKey(data, ptr + 5, isRoot, help);
    if !ok { return false, 0, cost; }
    kv[keyNr] := version;
    if !isRoot {
      ok := CheckSignature(data, ptr + 5 + size, help - size - 4);
    }
  }

  method Clear(kv: array<Byte>)
    requires kv.Length == 256
    modifies kv
    ensures kv[..] == NoVersions()
  {
    forall i | 0 <= i < 256 { kv[i] := 0; }
  }

  method IsKeyUpdateRecommended(data: seq<Byte>, keys: Slots, kv: array<Byte>)
    returns (recommended: bool, time: nat, res: CjResult, ghost rs: seq<Record>)
    requires kv.Length == 256
    modifies kv
    ensures res == CjSuccess || res == CjDataCorrupt
    ensures res == CjSuccess ==> IsKeyFile(data, rs)
    ensures res == CjDataCorrupt ==> forall other :: !IsKeyFile(data, other)
    ensures res == CjSuccess ==> Newest(kv[..], rs) && |rs| <= 255 * 256
    ensures res == CjSuccess ==> time == UpdateTime(rs, keys)
    ensures time == Estimate(data, 0, true, NoVersions(), keys) && recommended == (time > 0)
    ensures time < 0x1_0000_0000
  {
    hide CostAt, Estimate, Progress, Checks, Extract, Scan, Newest, IsKeyFile;
    forall other { AcceptsExactlyKeyFiles(data, other); }
    var ptr, len, isRoot := 0, |data|, true;
    recommended, time, res, rs := false, 0, CjSuccess, [];
    Clear(kv);
    ProgressStart(data, keys);
    while len != 0
      invariant 0 <= ptr && 0 <= len && ptr + len == |data|
      invariant res == CjSuccess && recommended == (time > 0)
      invariant Progress(data, keys, ptr, isRoot, kv[..], rs, time)
      decreases len
    {
      ProgressTurn(data, keys, ptr, isRoot, kv[..], rs, time);
      var ok, help, cost := CheckRecord(data, ptr, isRoot, keys, kv);
      time := time + cost;
      recommended := recommended || cost > 0;
      if !ok {
        return recommended, time, CjDataCorrupt, rs;
      }
      rs := rs + [Extract(data, ptr, isRoot)];
      ptr, len := ptr + 5 + help, len - 5 - help;
      isRoot := false;
    }
    ProgressEnd(data, keys, isRoot, kv[..], rs, time);
  }
}
