/**
 `CBaseReader::GetTag`: looking up a tag in the data field of a command, which is a row of fields made of a tag,
 a length and that many bytes.
 */
module Tlv {
  import opened Bytes

  datatype Field = Field(tag: Byte, value: seq<Byte>)

  predicate WellFormed(fs: seq<Field>) { forall i :: 0 <= i < |fs| ==> |fs[i].value| < 256 }

  function Encode(fs: seq<Field>): (d: seq<Byte>)
    requires WellFormed(fs)
  {
    if fs == [] then [] else [fs[0].tag, |fs[0].value|] + fs[0].value + Encode(fs[1..])
  }

  /** Where a value starts, and its declared length. */
  datatype Found = Found(at: nat, len: Byte)

  /** The walk over the data `d`: a field is looked at only while more than two bytes are left. */
  function TagIn(d: seq<Byte>, tag: Byte): (f: Option<Found>)
    ensures f.Some? ==> 2 <= f.value.at < |d| && d[f.value.at - 2] == tag && d[f.value.at - 1] == f.value.len
    decreases |d|
  {
    if |d| <= 2 then None
    else if d[0] == tag then Some(Found(2, d[1]))
    else
      var next := 2 + d[1] as int;
      if next > |d| then None
      else
        match TagIn(d[next..], tag)
        case None => None
        case Some(f) => Some(Found(next + f.at, f.len))
  }

  /** The value lies inside the data exactly when the declared length does. */
  predicate Within(d: seq<Byte>, f: Found) { f.at + f.len as int <= |d| }

  lemma EncodeStep(f: Field, fs: seq<Field>)
    requires |f.value| < 256 && WellFormed(fs)
    ensures WellFormed([f] + fs)
    ensures var d := Encode([f] + fs);
      && |d| == 2 + |f.value| + |Encode(fs)| && d[0] == f.tag && d[1] == |f.value|
      && d[2..2 + |f.value|] == f.value && d[2 + |f.value|..] == Encode(fs)
  {
    assert ([f] + fs)[1..] == fs;
  }

  lemma TagStep(f: Field, fs: seq<Field>, tag: Byte)
    requires |f.value| < 256 && WellFormed(fs)
    ensures WellFormed([f] + fs)
    ensures TagIn(Encode([f] + fs), tag) ==
      if |f.value| + |Encode(fs)| == 0 then None
      else if f.tag == tag then Some(Found(2, |f.value|))
      else
        match TagIn(Encode(fs), tag)
        case None => None
        case Some(g) => Some(Found(2 + |f.value| + g.at, g.len))
  {
    hide Encode;
    EncodeStep(f, fs);
  }

  lemma EncodeNothing(fs: seq<Field>)
    requires WellFormed(fs)
    ensures |Encode(fs)| == 0 <==> fs == []
  {
  }

  /**
   Headline: in a row of fields the first one with the tag is found, with its whole value, unless it is the last
   one and empty.
   */
  lemma {:induction false} FirstFound(fs: seq<Field>, i: nat)
    requires WellFormed(fs) && i < |fs| && forall j :: 0 <= j < i ==> fs[j].tag != fs[i].tag
    ensures WellFormed(fs[..i])
    ensures var at, v := |Encode(fs[..i])| + 2, fs[i].value;
      && at + |v| <= |Encode(fs)| && Encode(fs)[at..at + |v|] == v
      && TagIn(Encode(fs), fs[i].tag) == if i == |fs| - 1 && v == [] then None else Some(Found(at, |v|))
  {
    hide Encode, TagIn;
    var f, rest := fs[0], fs[1..];
    assert fs == [f] + rest;
    EncodeStep(f, rest);
    TagStep(f, rest, fs[i].tag);
    EncodeNothing(rest);
    if i == 0 {
      EncodeNothing(fs[..0]);
    } else {
      FirstFound(rest, i - 1);
      assert fs[..i] == [f] + rest[..i - 1];
      EncodeStep(f, rest[..i - 1]);
      var k, at, v := 2 + |f.value|, |Encode(rest[..i - 1])| + 2, fs[i].value;
      assert Encode(fs)[k + at..k + at + |v|] == Encode(fs)[k..][at..at + |v|];
    }
  }

  lemma {:induction false} MissingNotFound(fs: seq<Field>, tag: Byte)
    requires WellFormed(fs) && forall j :: 0 <= j < |fs| ==> fs[j].tag != tag
    ensures TagIn(Encode(fs), tag) == None
  {
    hide Encode, TagIn;
    if fs == [] {
      NothingFound(tag);
    } else {
      assert fs == [fs[0]] + fs[1..];
      TagStep(fs[0], fs[1..], tag);
      MissingNotFound(fs[1..], tag);
    }
  }

  lemma NothingFound(tag: Byte)
    ensures TagIn(Encode([]), tag) == None
  {
  }

  /** Three bytes of data that declare a value of 255. */
  lemma ValueBehindData(b: Byte)
    ensures var d := [0x52, 0xFF, b]; TagIn(d, 0x52) == Some(Found(2, 255)) && !Within(d, Found(2, 255))
  {
  }

  /** The walk from offset `start` on, its result counted from the start of the data. */
  function TagFrom(d: seq<Byte>, start: nat, tag: Byte): Option<Found>
    requires start <= |d|
  {
    match TagIn(d[start..], tag)
    case None => None
    case Some(f) => Some(Found(start + f.at, f.len))
  }

  lemma TagFromStart(d: seq<Byte>, tag: Byte)
    ensures TagFrom(d, 0, tag) == TagIn(d, tag)
  {
    hide TagIn;
    assert d[0..] == d;
  }

  lemma TagFromStep(d: seq<Byte>, start: nat, tag: Byte)
    requires start <= |d|
    ensures TagFrom(d, start, tag) ==
      if |d| - start <= 2 then None
      else if d[start] == tag then Some(Found(start + 2, d[start + 1]))
      else
        var next := start + 2 + d[start + 1] as int;
        if next > |d| then None else TagFrom(d, next, tag)
  {
    var rest := d[start..];
    if |rest| > 2 && 2 + rest[1] as int <= |rest| {
      assert rest[2 + rest[1] as int..] == d[start + 2 + rest[1] as int..];
    }
  }

  method GetTag(data: seq<Byte>, tag: Byte) returns (found: Option<Found>)
    ensures found == TagIn(data, tag)
  {
    hide TagIn, TagFrom;
    var start, len := 0, |data|;
    TagFromStart(data, tag);
    while len > 2
      invariant 0 <= start && start + len == |data|
      invariant TagIn(data, tag) == if len < 0 then None else TagFrom(data, start, tag)
      decreases len
    {
      TagFromStep(data, start, tag);
      var t, tlen := data[start], data[start + 1];
      start := start + 2;
      if t == tag { return Some(Found(start, tlen)); }
      start, len := start + tlen as int, len - (tlen as int + 2);
    }
    if len >= 0 { TagFromStep(data, start, tag); }
    return None;
  }
}
