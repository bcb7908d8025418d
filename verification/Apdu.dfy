/**
 The head of `CCCIDReader::_CtData`: telling the seven cases of a command APDU (section 5.1 of
 ISO/IEC 7816-4) apart by the length of the command and its first bytes.
 */
module Apdu {
  import opened Bytes

  /** What follows the four header bytes; `S` short, `E` extended length fields. */
  datatype Body =
    | Case1
    | Case2S(le: Byte)
    | Case3S(data: seq<Byte>)
    | Case4S(data: seq<Byte>, le: Byte)
    | Case2E(le16: nat)
    | Case3E(data: seq<Byte>)
    | Case4E(data: seq<Byte>, le16: nat)

  predicate WellFormed(b: Body) {
    match b
    case Case1 => true
    case Case2S(_) => true
    case Case3S(d) => 1 <= |d| < 256
    case Case4S(d, _) => 1 <= |d| < 256
    case Case2E(le) => le < 0x10000
    case Case3E(d) => 1 <= |d| < 0x10000
    case Case4E(d, le) => 1 <= |d| < 0x10000 && le < 0x10000
  }

  /** Big-endian 16-bit field. */
  function BE16(n: nat): (s: seq<Byte>)
    requires n < 0x10000
    ensures |s| == 2
  {
    [n / 256, n % 256]
  }

  function Big(s: seq<Byte>, at: nat): nat
    requires at + 2 <= |s|
  {
    256 * (s[at] as int) + s[at + 1] as int
  }

  function Encode(header: seq<Byte>, b: Body): (s: seq<Byte>)
    requires |header| == 4 && WellFormed(b)
  {
    match b
    case Case1 => header
    case Case2S(le) => header + [le]
    case Case3S(d) => header + [|d|] + d
    case Case4S(d, le) => header + [|d|] + d + [le]
    case Case2E(le) => header + [0] + BE16(le)
    case Case3E(d) => header + [0] + BE16(|d|) + d
    case Case4E(d, le) => header + [0] + BE16(|d|) + d + BE16(le)
  }

  /** The decision the driver takes, as a body or nothing. */
  function BodyOf(cmd: seq<Byte>): (r: Option<Body>)
    requires |cmd| >= 4
  {
    var n := |cmd|;
    if n == 4 then Some(Case1)
    else if n == 5 then Some(Case2S(cmd[4]))
    else if n == 5 + cmd[4] as int then Some(Case3S(cmd[5..]))
    else if n == 6 + cmd[4] as int && cmd[4] != 0 then Some(Case4S(cmd[5..n - 1], cmd[n - 1]))
    else if n >= 7 && cmd[4] == 0 then
      if n == 7 then Some(Case2E(Big(cmd, 5)))
      else if n == 7 + Big(cmd, 5) then Some(Case3E(cmd[7..]))
      else if n == 9 + Big(cmd, 5) && Big(cmd, 5) != 0 then Some(Case4E(cmd[7..n - 2], Big(cmd, n - 2)))
      else None
    else None
  }

  /** Extended lengths stand behind a zero byte, high byte first. */
  lemma ExtendedTold(header: seq<Byte>, data: seq<Byte>, le: nat)
    requires |header| == 4 && 1 <= |data| < 0x10000 && le < 0x10000
    ensures Encode(header, Case2E(le)) == header + [0, le / 256, le % 256]
    ensures Encode(header, Case3E(data)) == header + [0, |data| / 256, |data| % 256] + data
    ensures Encode(header, Case4E(data, le)) ==
      header + [0, |data| / 256, |data| % 256] + data + [le / 256, le % 256]
  {
  }

  lemma BigUnique(s: seq<Byte>, at: nat)
    requires at + 2 <= |s|
    ensures Big(s, at) < 0x10000 && BE16(Big(s, at)) == [s[at], s[at + 1]]
  {
  }

  lemma BigOfBE16(s: seq<Byte>, at: nat, n: nat)
    requires n < 0x10000 && at + 2 <= |s| && s[at] == BE16(n)[0] && s[at + 1] == BE16(n)[1]
    ensures Big(s, at) == n
  {
  }

  lemma DecodeSoundShort(cmd: seq<Byte>)
    requires |cmd| >= 4 && BodyOf(cmd).Some? && !(|cmd| >= 7 && cmd[4] == 0)
    ensures WellFormed(BodyOf(cmd).value) && Encode(cmd[..4], BodyOf(cmd).value) == cmd
  {
    hide BE16, Big;
    var n := |cmd|;
    if n == 4 {
      assert cmd[..4] == cmd;
    } else if n == 5 {
      assert cmd == cmd[..4] + [cmd[4]];
    } else if n == 5 + cmd[4] as int {
      assert cmd == cmd[..4] + [cmd[4]] + cmd[5..];
    } else {
      assert cmd == cmd[..4] + [cmd[4]] + cmd[5..n - 1] + [cmd[n - 1]];
    }
  }

  lemma DecodeSoundExtended(cmd: seq<Byte>)
    requires |cmd| >= 7 && cmd[4] == 0 && BodyOf(cmd).Some?
    ensures WellFormed(BodyOf(cmd).value) && Encode(cmd[..4], BodyOf(cmd).value) == cmd
  {
    hide BE16, Big;
    var n := |cmd|;
    BigUnique(cmd, 5);
    BigUnique(cmd, n - 2);
    assert cmd[..7] == cmd[..4] + [0] + [cmd[5], cmd[6]];
    if n == 7 {
      assert cmd == cmd[..7];
    } else if n == 7 + Big(cmd, 5) {
      assert cmd == cmd[..7] + cmd[7..];
    } else {
      assert cmd == cmd[..7] + cmd[7..n - 2] + [cmd[n - 2], cmd[n - 1]];
    }
  }

  /** Whatever is decoded encodes back to the command: its length fits that case. */
  lemma DecodeSound(cmd: seq<Byte>)
    requires |cmd| >= 4 && BodyOf(cmd).Some?
    ensures WellFormed(BodyOf(cmd).value) && Encode(cmd[..4], BodyOf(cmd).value) == cmd
  {
    hide BodyOf, Encode, WellFormed;
    if |cmd| >= 7 && cmd[4] == 0 {
      DecodeSoundExtended(cmd);
    } else {
      DecodeSoundShort(cmd);
    }
  }

  /** Whatever is encoded is decoded to the same case with the same data and lengths. */
  lemma DecodeComplete(header: seq<Byte>, b: Body)
    requires |header| == 4 && WellFormed(b)
    ensures BodyOf(Encode(header, b)) == Some(b)
  {
    hide BE16, Big;
    var cmd := Encode(header, b);
    var n := |cmd|;
    match b
    case Case1 =>
    case Case2S(le) =>
    case Case3S(d) => assert cmd[4] == |d| && cmd[5..] == d;
    case Case4S(d, le) => assert cmd[4] == |d| && cmd[5..n - 1] == d;
    case Case2E(le) =>
      assert cmd[4] == 0 && cmd[5] == BE16(le)[0] && cmd[6] == BE16(le)[1];
      BigOfBE16(cmd, 5, le);
    case Case3E(d) =>
      assert cmd[4] == 0 && cmd[5] == BE16(|d|)[0] && cmd[6] == BE16(|d|)[1] && cmd[7..] == d;
      BigOfBE16(cmd, 5, |d|);
    case Case4E(d, le) =>
      assert cmd[4] == 0 && cmd[5] == BE16(|d|)[0] && cmd[6] == BE16(|d|)[1] && cmd[7..n - 2] == d;
      assert cmd[n - 2] == BE16(le)[0] && cmd[n - 1] == BE16(le)[1];
      BigOfBE16(cmd, 5, |d|);
      BigOfBE16(cmd, n - 2, le);
  }

  /** Headline: a command is accepted iff it is the encoding of some case, and then of one only. */
  lemma AcceptsExactlyTheCases(cmd: seq<Byte>, b: Body)
    requires |cmd| >= 4
    ensures BodyOf(cmd) == Some(b) <==> WellFormed(b) && Encode(cmd[..4], b) == cmd
  {
    hide Encode, BodyOf, WellFormed;
    if BodyOf(cmd) == Some(b) {
      DecodeSound(cmd);
    }
    if WellFormed(b) && Encode(cmd[..4], b) == cmd {
      DecodeComplete(cmd[..4], b);
    }
  }

  /** Lc, Le and the data pointer of the driver; -1 for a length that is not there. */
  method Decode(cmd: seq<Byte>) returns (ok: bool, lc: int, le: int, data: nat)
    requires |cmd| >= 4
    ensures ok == BodyOf(cmd).Some?
    ensures ok && lc >= 0 ==> data + lc <= |cmd|
    ensures ok ==>
      match BodyOf(cmd).value
      case Case1 => lc == -1 && le == -1
      case Case2S(l) => lc == -1 && le == l
      case Case3S(d) =>
        && lc == |d| && cmd[data..data + lc] == d
        && le == if cmd[0] == 0x20 && cmd[1] == 0x12 then 0 else -1
      case Case4S(d, l) => lc == |d| && cmd[data..data + lc] == d && le == l
      case Case2E(l) => lc == -1 && le == l
      case Case3E(d) => lc == |d| && cmd[data..data + lc] == d && le == -1
      case Case4E(d, l) => lc == |d| && cmd[data..data + lc] == d && le == l
  {
    hide Big;
    ok, lc, le, data := true, -1, -1, 0;
    var lenc := |cmd|;
    if lenc == 4 {
    } else if lenc == 5 {
      le := cmd[4];
    } else if lenc == 5 + cmd[4] as int {
      lc, data := cmd[4], 5;
      if cmd[0] == 0x20 && cmd[1] == 0x12 { le := 0; }
    } else if lenc == 6 + cmd[4] as int && cmd[4] != 0 {
      lc, data, le := cmd[4], 5, cmd[lenc - 1];
    } else if lenc >= 7 && cmd[4] == 0 {
      var ext := Big(cmd, 5);
      if lenc == 7 {
        le := ext;
      } else if lenc == 7 + ext {
        lc, data := ext, 7;
      } else if lenc == 9 + ext && ext != 0 {
        lc, data, le := ext, 7, Big(cmd, lenc - 2);
      } else {
        ok := false;
      }
    } else {
      ok := false;
    }
  }
}
