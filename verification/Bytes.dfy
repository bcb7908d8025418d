/** Byte-level vocabulary shared by the other modules. */
module Bytes {

  /** A C `uint8_t` seen as a number. Modules that mask or XOR use `bv8` instead. */
  type Byte = x: int | 0 <= x < 256

  datatype Option<+T> = None | Some(value: T) {
    function GetOr(default: T): T {
      match this
      case Some(v) => v
      case None => default
    }
  }

  /** A little-endian 16-bit field: what `ReaderToHostShort` yields for the readers modelled here. */
  function U16(s: seq<Byte>, at: nat): (r: nat)
    requires at + 2 <= |s|
  {
    s[at] as int + 256 * (s[at + 1] as int)
  }

  function LE16(n: nat): (s: seq<Byte>)
    requires n < 0x10000
    ensures |s| == 2 && U16(s, 0) == n
  {
    [n % 256, n / 256]
  }

  /** Two bytes carry exactly one 16-bit number. */
  lemma LE16Unique(s: seq<Byte>, at: nat)
    requires at + 2 <= |s|
    ensures U16(s, at) < 0x10000 && LE16(U16(s, at)) == s[at..at + 2]
  {
  }

  /** The bytes `t` stand in `s` at offset `at` (a C `memcmp` inside the buffer). */
  predicate At(s: seq<Byte>, at: nat, t: seq<Byte>) {
    at + |t| <= |s| && s[at..at + |t|] == t
  }

  lemma AtConcat(s: seq<Byte>, at: nat, a: seq<Byte>, b: seq<Byte>)
    ensures At(s, at, a + b) <==> At(s, at, a) && At(s, at + |a|, b)
  {
    if at + |a| + |b| <= |s| {
      var w := s[at..at + |a| + |b|];
      assert w[..|a|] == s[at..at + |a|] && w[|a|..] == s[at + |a|..at + |a| + |b|];
      assert w == w[..|a|] + w[|a|..];
      assert (a + b)[..|a|] == a && (a + b)[|a|..] == b;
    }
  }

  lemma AtLE16(s: seq<Byte>, at: nat, n: nat)
    requires n < 0x10000
    ensures At(s, at, LE16(n)) <==> at + 2 <= |s| && U16(s, at) == n
  {
    if at + 2 <= |s| && U16(s, at) == n {
      LE16Unique(s, at);
    }
  }

  lemma AtPair(s: seq<Byte>, at: nat, a: Byte, b: Byte)
    ensures At(s, at, [a, b]) <==> at + 2 <= |s| && s[at] == a && s[at + 1] == b
  {
    if at + 2 <= |s| {
      assert s[at..at + 2] == [s[at], s[at + 1]];
    }
  }

  lemma SplitAt(s: seq<Byte>, p: nat, a: seq<Byte>, b: seq<Byte>)
    requires p <= |s|
    ensures a + b == s[p..] <==> At(s, p, a) && b == s[p + |a|..]
  {
    if a + b == s[p..] {
      assert a == (a + b)[..|a|] && b == (a + b)[|a|..];
      assert s[p + |a|..] == s[p..][|a|..];
    }
    if At(s, p, a) {
      assert s[p..] == s[p..p + |a|] + s[p + |a|..];
    }
  }

  /** A slice made of a part, one element and another part. */
  lemma SplitAround<T>(s: seq<T>, at: nat, a: seq<T>, x: T, b: seq<T>)
    requires at + |a| + 1 + |b| <= |s|
    ensures s[at..at + |a| + 1 + |b|] == a + [x] + b <==>
              && s[at..at + |a|] == a && s[at + |a|] == x
              && s[at + |a| + 1..at + |a| + 1 + |b|] == b
  {
    var w := s[at..at + |a| + 1 + |b|];
    assert w[..|a|] == s[at..at + |a|] && w[|a| + 1..] == s[at + |a| + 1..at + |a| + 1 + |b|];
    assert w == w[..|a|] + [w[|a|]] + w[|a| + 1..];
    var c := a + [x] + b;
    assert c[..|a|] == a && c[|a|] == x && c[|a| + 1..] == b;
  }

  /** The XOR of all bytes. */
  function Xor(s: seq<bv8>): bv8 {
    if s == [] then 0 else Xor(s[..|s| - 1]) ^ s[|s| - 1]
  }

  /** It starts at zero and takes in one byte after the other. */
  lemma XorTold(s: seq<bv8>, x: bv8)
    ensures Xor([]) == 0 && Xor(s + [x]) == Xor(s) ^ x
  {
    assert (s + [x])[..|s|] == s;
  }
}
