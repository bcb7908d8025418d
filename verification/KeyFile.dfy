/**
 The key-update certificate file: its grammar, and the validator
 `CEC30Reader::_CtIsKeyUpdateRecommended` that guards every use of such a file.

 A file is a chain of records. The first record (the root) carries a key only; every later
 record also carries the signature of another key over it.
 */
module KeyFile {
  import opened Bytes

  // ----- the grammar, independent of any parser -----

  datatype Signature = Signature(keyNr: Byte, version: Byte, body: seq<Byte>)

  datatype Record =
    Record(keyNr: Byte, version: Byte, modulus: seq<Byte>, exponent: seq<Byte>, signer: Option<Signature>)

  predicate WellFormed(r: Record, root: bool) {
    && 1 <= |r.modulus|
    && 1 <= |r.exponent| < 256
    && (root <==> r.signer.None?)
    && (r.signer.Some? ==> 1 <= |r.signer.value.body|)
    && BodySize(r) < 0x10000
  }

  function KeySize(r: Record): nat { 16 + |r.modulus| + |r.exponent| }

  function BodySize(r: Record): nat {
    KeySize(r) + if r.signer.None? then 0 else 12 + |r.signer.value.body|
  }

  /** What the reader receives as the new key (UPDATE_KEY). */
  function KeyPart(r: Record): (s: seq<Byte>)
    requires |r.modulus| < 0x10000 && |r.exponent| < 256
    ensures |s| == KeySize(r)
  {
    [0x52, 0x04, 0x65, 0x63, 0x6f, 0x6d, 0x51, 0x02, r.keyNr, r.version, 0x81, 0x82]
    + LE16(|r.modulus|) + r.modulus + [0x82, |r.exponent|] + r.exponent
  }

  /** What the reader receives as the proof for that key (VERIFY_KEY). */
  function SignaturePart(g: Signature): (s: seq<Byte>)
    requires |g.body| + 8 < 0x10000
    ensures |s| == 12 + |g.body|
  {
    [0x83, 0x82] + LE16(|g.body| + 8) + [0x51, 0x02, g.keyNr, g.version, 0x84, 0x82] + LE16(|g.body|) + g.body
  }

  function Serialize(r: Record, root: bool): (s: seq<Byte>)
    requires WellFormed(r, root)
    ensures |s| == 5 + BodySize(r)
  {
    [0x7F, 0x21, 0x82] + LE16(BodySize(r)) + KeyPart(r)
    + if root then [] else SignaturePart(r.signer.value)
  }

  predicate AllWellFormed(rs: seq<Record>, root: bool) {
    forall i :: 0 <= i < |rs| ==> WellFormed(rs[i], root && i == 0)
  }

  function SerializeAll(rs: seq<Record>, root: bool): (s: seq<Byte>)
    requires AllWellFormed(rs, root)
  {
    if rs == [] then [] else Serialize(rs[0], root) + SerializeAll(rs[1..], false)
  }

  /** Versions of one key number only ever go up, starting at 1. */
  predicate Increasing(rs: seq<Record>) {
    && (forall i :: 0 <= i < |rs| ==> 1 <= rs[i].version)
    && (forall i, j :: 0 <= i < j < |rs| && rs[i].keyNr == rs[j].keyNr ==> rs[i].version < rs[j].version)
  }

  /** `data` is the key file made of the records `rs`. */
  predicate IsKeyFile(data: seq<Byte>, rs: seq<Record>) {
    && AllWellFormed(rs, true)
    && Increasing(rs)
    && SerializeAll(rs, true) == data
  }

  // ----- one record: the validator's checks accept exactly the grammar -----

  const RECORD_TAG: seq<Byte> := [0x7F, 0x21, 0x82]
  const KEY_TAG: seq<Byte> := [0x52, 0x04, 0x65, 0x63, 0x6f, 0x6d, 0x51, 0x02]

  /** The checks made on the bytes of `s` from `p` on, all but the version check. */
  predicate Checks(s: seq<Byte>, p: nat, root: bool)
    requires p <= |s|
  {
    && HeaderChecks(s, p, root)
    && KeyChecks(s, p + 5, root, U16(s, p + 3))
    && (root ||
        var size := 16 + U16(s, p + 17) + s[p + 20 + U16(s, p + 17)];
        SignatureChecks(s, p + 5 + size, U16(s, p + 3) - size - 4))
  }

  /** The checks up to the first length inside the key. */
  predicate HeaderChecks(s: seq<Byte>, p: nat, root: bool)
    requires p <= |s|
  {
    && |s| - p >= (if root then 23 else 36)
    && At(s, p, RECORD_TAG)
    && var help := U16(s, p + 3);
    && help >= (if root then 18 else 31)
    && |s| - p - 5 >= help
    && At(s, p + 5, KEY_TAG)
    && At(s, p + 15, [0x81, 0x82])
  }

  /** The checks on the two lengths inside a key at `at`, in a record body of `help` bytes. */
  predicate KeyChecks(s: seq<Byte>, at: nat, root: bool, help: nat)
    requires help >= (if root then 18 else 31) && at + help <= |s|
  {
    && var help1 := U16(s, at + 12);
    && help >= 17 + help1
    && (root || help >= 30 + help1)
    && help1 >= 1
    && var help2 := s[at + 15 + help1];
    && s[at + 14 + help1] == 0x82
    && (if root then 16 + help1 + help2 == help else help >= 29 + help1 + help2)
    && help2 >= 1
  }

  /** The checks on a signature block at `at` whose declared size has to be `size`. */
  predicate SignatureChecks(s: seq<Byte>, at: nat, size: int)
    requires at + 12 <= |s|
  {
    && At(s, at, [0x83, 0x82])
    && var help3 := U16(s, at + 2);
    && help3 >= 9 && size == help3
    && At(s, at + 4, [0x51, 0x02])
    && At(s, at + 8, [0x84, 0x82])
    && help3 == U16(s, at + 10) + 8
  }

  /** The record those bytes stand for. */
  function Extract(s: seq<Byte>, p: nat, root: bool): (r: Record)
    requires p <= |s| && Checks(s, p, root)
  {
    var help1 := U16(s, p + 17);
    var at := p + 21 + help1 + s[p + 20 + help1];
    Record(s[p + 13], s[p + 14], s[p + 19..p + 19 + help1], s[p + 21 + help1..at],
      if root then None else Some(Signature(s[at + 6], s[at + 7], s[at + 12..at + 12 + U16(s, at + 10)])))
  }

  /** Field by field: the key part of `r` stands at `at`. */
  predicate KeyFields(s: seq<Byte>, at: nat, r: Record) {
    var m := |r.modulus|;
    && at + KeySize(r) <= |s|
    && At(s, at, KEY_TAG)
    && s[at + 8] == r.keyNr && s[at + 9] == r.version
    && At(s, at + 10, [0x81, 0x82])
    && U16(s, at + 12) == m
    && At(s, at + 14, r.modulus)
    && s[at + 14 + m] == 0x82 && s[at + 15 + m] == |r.exponent|
    && At(s, at + 16 + m, r.exponent)
  }

  lemma KeyPartAt(s: seq<Byte>, at: nat, r: Record)
    requires |r.modulus| < 0x10000 && |r.exponent| < 256
    ensures At(s, at, KeyPart(r)) <==> KeyFields(s, at, r)
  {
    var a, b := KEY_TAG, [r.keyNr, r.version];
    var c, d: seq<Byte> := [0x81, 0x82], [0x82, |r.exponent|];
    var m := LE16(|r.modulus|);
    assert KeyPart(r) == a + b + c + m + r.modulus + d + r.exponent;
    AtConcat(s, at, a + b + c + m + r.modulus + d, r.exponent);
    AtConcat(s, at, a + b + c + m + r.modulus, d);
    AtConcat(s, at, a + b + c + m, r.modulus);
    AtConcat(s, at, a + b + c, m);
    AtConcat(s, at, a + b, c);
    AtConcat(s, at, a, b);
    AtPair(s, at + 8, r.keyNr, r.version);
    AtLE16(s, at + 12, |r.modulus|);
    AtPair(s, at + 14 + |r.modulus|, 0x82, |r.exponent|);
  }

  /** Field by field: the signature part `g` stands at `at`. */
  predicate SignatureFields(s: seq<Byte>, at: nat, g: Signature) {
    && at + 12 + |g.body| <= |s|
    && At(s, at, [0x83, 0x82])
    && U16(s, at + 2) == |g.body| + 8
    && At(s, at + 4, [0x51, 0x02])
    && s[at + 6] == g.keyNr && s[at + 7] == g.version
    && At(s, at + 8, [0x84, 0x82])
    && U16(s, at + 10) == |g.body|
    && At(s, at + 12, g.body)
  }

  lemma SignaturePartAt(s: seq<Byte>, at: nat, g: Signature)
    requires |g.body| + 8 < 0x10000
    ensures At(s, at, SignaturePart(g)) <==> SignatureFields(s, at, g)
  {
    var a, b, c, d: seq<Byte> := [0x83, 0x82], [0x51, 0x02], [g.keyNr, g.version], [0x84, 0x82];
    var m, n := LE16(|g.body| + 8), LE16(|g.body|);
    assert SignaturePart(g) == a + m + b + c + d + n + g.body;
    AtConcat(s, at, a + m + b + c + d + n, g.body);
    AtConcat(s, at, a + m + b + c + d, n);
    AtConcat(s, at, a + m + b + c, d);
    AtConcat(s, at, a + m + b, c);
    AtConcat(s, at, a + m, b);
    AtConcat(s, at, a, m);
    AtLE16(s, at + 2, |g.body| + 8);
    AtPair(s, at + 6, g.keyNr, g.version);
    AtLE16(s, at + 10, |g.body|);
  }

  /** Field by field: the record `r` stands at `p`. */
  predicate Fields(s: seq<Byte>, p: nat, r: Record, root: bool) {
    && At(s, p, RECORD_TAG)
    && p + 5 + BodySize(r) <= |s|
    && U16(s, p + 3) == BodySize(r)
    && KeyFields(s, p + 5, r)
    && (root || (r.signer.Some? && SignatureFields(s, p + 5 + KeySize(r), r.signer.value)))
  }

  lemma RecordPieces(s: seq<Byte>, p: nat, r: Record, root: bool)
    requires WellFormed(r, root)
    ensures At(s, p, Serialize(r, root)) <==>
              && At(s, p, RECORD_TAG) && At(s, p + 3, LE16(BodySize(r))) && At(s, p + 5, KeyPart(r))
              && (root || At(s, p + 5 + KeySize(r), SignaturePart(r.signer.value)))
  {
    var g := if root then [] else SignaturePart(r.signer.value);
    var n, key := LE16(BodySize(r)), KeyPart(r);
    assert Serialize(r, root) == RECORD_TAG + n + key + g;
    AtConcat(s, p, RECORD_TAG + n + key, g);
    AtConcat(s, p, RECORD_TAG + n, key);
    AtConcat(s, p, RECORD_TAG, n);
  }

  lemma RecordAt(s: seq<Byte>, p: nat, r: Record, root: bool)
    requires WellFormed(r, root)
    ensures At(s, p, Serialize(r, root)) <==> Fields(s, p, r, root)
  {
    hide Serialize, KeyPart, SignaturePart, KeyFields, SignatureFields;
    RecordPieces(s, p, r, root);
    AtLE16(s, p + 3, BodySize(r));
    KeyPartAt(s, p + 5, r);
    if !root {
      SignaturePartAt(s, p + 5 + KeySize(r), r.signer.value);
    }
  }

  lemma ChecksToFields(s: seq<Byte>, p: nat, root: bool)
    requires p <= |s| && Checks(s, p, root)
    ensures WellFormed(Extract(s, p, root), root) && Fields(s, p, Extract(s, p, root), root)
    ensures BodySize(Extract(s, p, root)) == U16(s, p + 3) && p + 5 + U16(s, p + 3) <= |s|
  {
    hide SignatureFields, KeyFields, SignatureChecks;
    var r := Extract(s, p, root);
    LE16Unique(s, p + 3);
    KeyToFields(s, p, root);
    if !root {
      SignatureToFields(s, p + 5 + KeySize(r), U16(s, p + 3) - KeySize(r) - 4, r.signer.value);
    }
  }

  lemma KeyToFields(s: seq<Byte>, p: nat, root: bool)
    requires p <= |s| && Checks(s, p, root)
    ensures KeyFields(s, p + 5, Extract(s, p, root)) && KeySize(Extract(s, p, root)) <= U16(s, p + 3)
  {
    hide SignatureChecks;
  }

  lemma SignatureToFields(s: seq<Byte>, at: nat, size: nat, g: Signature)
    requires at + 4 + size <= |s| && at + 12 <= |s| && SignatureChecks(s, at, size)
    requires g == Signature(s[at + 6], s[at + 7], s[at + 12..at + 12 + U16(s, at + 10)])
    ensures SignatureFields(s, at, g) && |g.body| + 8 == size && |g.body| >= 1
  {
  }

  lemma FieldsToChecks(s: seq<Byte>, p: nat, r: Record, root: bool)
    requires WellFormed(r, root) && Fields(s, p, r, root)
    ensures p <= |s| && Checks(s, p, root) && Extract(s, p, root) == r
  {
    assert root || SignatureChecks(s, p + 5 + KeySize(r), BodySize(r) - KeySize(r) - 4);
  }

  /** The record `r` stands at `p`. */
  ghost predicate Stands(s: seq<Byte>, p: nat, r: Record, root: bool) {
    WellFormed(r, root) && At(s, p, Serialize(r, root))
  }

  /** The record that stands at `p`, if any. */
  ghost function Head(s: seq<Byte>, p: nat, root: bool): (h: Option<Record>)
    ensures h.Some? ==> Stands(s, p, h.value, root)
  {
    if exists r :: Stands(s, p, r, root) then
      var r :| Stands(s, p, r, root);
      Some(r)
    else None
  }

  /** The checks pass exactly where a record stands, and there is only one way to read it. */
  lemma ChecksExact(s: seq<Byte>, p: nat, root: bool)
    requires p <= |s|
    ensures Head(s, p, root) == if Checks(s, p, root) then Some(Extract(s, p, root)) else None
  {
    if Checks(s, p, root) {
      var r := Extract(s, p, root);
      ChecksToFields(s, p, root);
      RecordAt(s, p, r, root);
      assert Stands(s, p, r, root);
    }
    var h := Head(s, p, root);
    if h.Some? {
      RecordAt(s, p, h.value, root);
      FieldsToChecks(s, p, h.value, root);
    }
  }

  lemma HeadUnique(s: seq<Byte>, p: nat, r: Record, root: bool)
    requires Stands(s, p, r, root)
    ensures Head(s, p, root) == Some(r)
  {
    RecordAt(s, p, r, root);
    FieldsToChecks(s, p, r, root);
    ChecksExact(s, p, root);
  }

  // ----- the whole file -----

  /** The highest version seen so far, per key number: the array KV of the source. */
  type Versions = kv: seq<Byte> | |kv| == 256 witness seq(256, _ => 0)

  function NoVersions(): (kv: Versions)
    ensures forall i :: 0 <= i < 256 ==> kv[i] == 0
  {
    seq(256, _ => 0)
  }

  /** `rs` goes on where `kv` stands: all versions above `kv`, and rising per key number. */
  predicate Above(rs: seq<Record>, kv: Versions) {
    && (forall i :: 0 <= i < |rs| ==> kv[rs[i].keyNr] < rs[i].version)
    && (forall i, j :: 0 <= i < j < |rs| && rs[i].keyNr == rs[j].keyNr ==> rs[i].version < rs[j].version)
  }

  lemma AboveStep(rs: seq<Record>, kv: Versions)
    requires rs != []
    ensures var r := rs[0];
      Above(rs, kv) <==> kv[r.keyNr] < r.version && Above(rs[1..], kv[r.keyNr := r.version])
  {
    hide Above;
    var r := rs[0];
    if Above(rs, kv) { AboveTail(rs, kv); }
    if kv[r.keyNr] < r.version && Above(rs[1..], kv[r.keyNr := r.version]) { AboveHead(rs, kv); }
  }

  lemma AboveTail(rs: seq<Record>, kv: Versions)
    requires rs != [] && Above(rs, kv)
    ensures kv[rs[0].keyNr] < rs[0].version && Above(rs[1..], kv[rs[0].keyNr := rs[0].version])
  {
    assert forall i :: 0 <= i < |rs[1..]| ==> rs[1..][i] == rs[i + 1];
  }

  lemma AboveHead(rs: seq<Record>, kv: Versions)
    requires rs != [] && kv[rs[0].keyNr] < rs[0].version && Above(rs[1..], kv[rs[0].keyNr := rs[0].version])
    ensures Above(rs, kv)
  {
    var rest := rs[1..];
    forall i | 0 <= i < |rs| ensures kv[rs[i].keyNr] < rs[i].version {
      if i > 0 { assert rs[i] == rest[i - 1]; }
    }
    forall i, j | 0 <= i < j < |rs| && rs[i].keyNr == rs[j].keyNr ensures rs[i].version < rs[j].version {
      assert rs[j] == rest[j - 1];
      if i > 0 { assert rs[i] == rest[i - 1]; }
    }
  }

  /** Reading the file record by record: the chain it holds from `p` on, if it goes on where `kv` stands. */
  ghost function Scan(s: seq<Byte>, p: nat, root: bool, kv: Versions): (rs: Option<seq<Record>>)
    requires p <= |s|
    decreases |s| - p
  {
    if p == |s| then Some([])
    else
      match Head(s, p, root)
      case None => None
      case Some(r) =>
        if kv[r.keyNr] >= r.version then None
        else
          match Scan(s, p + 5 + BodySize(r), false, kv[r.keyNr := r.version])
          case None => None
          case Some(rest) => Some([r] + rest)
  }

  lemma ChainStep(s: seq<Byte>, p: nat, root: bool, rs: seq<Record>)
    requires p <= |s| && rs != [] && AllWellFormed(rs, root)
    ensures AllWellFormed(rs[1..], false)
    ensures SerializeAll(rs, root) == s[p..] <==>
              && Stands(s, p, rs[0], root)
              && SerializeAll(rs[1..], false) == s[p + 5 + BodySize(rs[0])..]
  {
    SplitAt(s, p, Serialize(rs[0], root), SerializeAll(rs[1..], false));
  }

  /** `rs` is read off `s` from `p` on, one record after the other. */
  ghost predicate Reads(s: seq<Byte>, p: nat, root: bool, kv: Versions, rs: seq<Record>)
    requires p <= |s|
    decreases |rs|
  {
    if rs == [] then p == |s|
    else
      && Stands(s, p, rs[0], root)
      && kv[rs[0].keyNr] < rs[0].version
      && Reads(s, p + 5 + BodySize(rs[0]), false, kv[rs[0].keyNr := rs[0].version], rs[1..])
  }

  lemma {:induction false} ReadsExact(s: seq<Byte>, p: nat, root: bool, kv: Versions, rs: seq<Record>)
    requires p <= |s|
    ensures Reads(s, p, root, kv, rs) <==>
              AllWellFormed(rs, root) && Above(rs, kv) && SerializeAll(rs, root) == s[p..]
    decreases |rs|
  {
    hide Serialize;
    if rs == [] {
      assert p == |s| <==> s[p..] == [];
    } else {
      AboveStep(rs, kv);
      if Stands(s, p, rs[0], root) {
        ReadsExact(s, p + 5 + BodySize(rs[0]), false, kv[rs[0].keyNr := rs[0].version], rs[1..]);
        assert AllWellFormed(rs[1..], false) ==> AllWellFormed(rs, root) by {
          assert rs == [rs[0]] + rs[1..];
        }
      }
      if AllWellFormed(rs, root) {
        ChainStep(s, p, root, rs);
      }
    }
  }

  lemma {:induction false} ScanReads(s: seq<Byte>, p: nat, root: bool, kv: Versions, rs: seq<Record>)
    requires p <= |s|
    ensures Scan(s, p, root, kv) == Some(rs) <==> Reads(s, p, root, kv, rs)
    decreases |rs|
  {
    hide Serialize;
    if rs != [] {
      assert rs == [rs[0]] + rs[1..];
      if Stands(s, p, rs[0], root) {
        HeadUnique(s, p, rs[0], root);
        ScanReads(s, p + 5 + BodySize(rs[0]), false, kv[rs[0].keyNr := rs[0].version], rs[1..]);
      }
    }
  }

  /** Headline: a byte string is accepted iff it is a key file, and then it is one in one way only. */
  lemma AcceptsExactlyKeyFiles(data: seq<Byte>, rs: seq<Record>)
    ensures Scan(data, 0, true, NoVersions()) == Some(rs) <==> IsKeyFile(data, rs)
  {
    ScanReads(data, 0, true, NoVersions(), rs);
    ReadsExact(data, 0, true, NoVersions(), rs);
    assert data[0..] == data;
    assert Increasing(rs) <==> Above(rs, NoVersions());
  }

  /** The shortest file: a root record with one byte of modulus and one of exponent. */
  lemma ShortestFile(keyNr: Byte, version: Byte, m: Byte, e: Byte)
    requires version >= 1
    ensures IsKeyFile(
      [0x7F, 0x21, 0x82, 0x12, 0x00, 0x52, 0x04, 0x65, 0x63, 0x6F, 0x6D, 0x51, 0x02, keyNr, version,
       0x81, 0x82, 0x01, 0x00, m, 0x82, 0x01, e],
      [Record(keyNr, version, [m], [e], None)])
  {
    var r := Record(keyNr, version, [m], [e], None);
    assert [r][1..] == [];
    assert SerializeAll([r], true) == Serialize(r, true) + [];
  }

  /** A signed record with one byte of modulus, exponent and signature. */
  lemma ShortestSigned(keyNr: Byte, version: Byte, m: Byte, e: Byte, signerNr: Byte, signerVersion: Byte, g: Byte)
    ensures var r := Record(keyNr, version, [m], [e], Some(Signature(signerNr, signerVersion, [g])));
      && WellFormed(r, false)
      && Serialize(r, false) ==
           [0x7F, 0x21, 0x82, 0x1F, 0x00, 0x52, 0x04, 0x65, 0x63, 0x6F, 0x6D, 0x51, 0x02, keyNr, version,
            0x81, 0x82, 0x01, 0x00, m, 0x82, 0x01, e,
            0x83, 0x82, 0x09, 0x00, 0x51, 0x02, signerNr, signerVersion, 0x84, 0x82, 0x01, 0x00, g]
  {
  }
}
