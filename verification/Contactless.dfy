/**
 The ATR that stands in for a contactless card: section 3.1.3.2.3 of PC/SC Part 3, as built by
 `CECRReader::IfdPower`.
 */
module Contactless {
  import opened Bytes
  import opened Atr

  const EMPTY_LEVEL := Level(None, None, None)

  /** T0, TD1 and TD2, and the historical bytes. */
  function Covered(hist: seq<bv8>): (s: seq<bv8>)
    requires |hist| < 16
  {
    [0x80 | (|hist| as bv8), 0x80, 0x01] + hist
  }

  lemma CoveredIs(hist: seq<bv8>)
    requires |hist| < 16
    ensures [0x3b] + [0x80 | (|hist| as bv8), 0x80, 0x01] + hist == [0x3b] + Covered(hist)
    ensures ([0x3b] + [0x80 | (|hist| as bv8), 0x80, 0x01] + hist)[1..] == Covered(hist)
  {
  }

  function ContactlessAtr(hist: seq<bv8>): (s: seq<bv8>)
    requires |hist| < 16
    ensures |s| == |hist| + 5 && s[4..|s| - 1] == hist
    ensures s[0] == 0x3b && s[1] == 0x80 | (|hist| as bv8) && s[2] == 0x80 && s[3] == 0x01
  {
    var s := [0x3b] + Covered(hist) + [Xor(Covered(hist))];
    assert s[4..|s| - 1] == hist;
    s
  }

  /** Its structure: T=0 and T=1 named, no interface bytes, a check byte. */
  function Structure(hist: seq<bv8>): (a: Atr)
    requires |hist| < 16
  {
    Atr(0x3b, EMPTY_LEVEL, [Next(0, EMPTY_LEVEL), Next(1, EMPTY_LEVEL)], hist, Some(Xor(Covered(hist))))
  }

  lemma StructureInterface(hist: seq<bv8>)
    requires |hist| < 16
    ensures WellFormed(Structure(hist)) && Interface(Structure(hist)) == [0x80, 0x01]
    ensures Y(EMPTY_LEVEL, true) == 0x80
  {
    hide Covered, Xor;
    var more := Structure(hist).more;
    assert LevelBytes(EMPTY_LEVEL) == [] && Y(EMPTY_LEVEL, false) == 0;
    assert more[1..] == [Next(1, EMPTY_LEVEL)] && more[1..][1..] == [];
    assert Chain(more[1..]) == [0x01];
    assert Chain(more) == [0x80, 0x01];
  }

  lemma StructureSerialized(hist: seq<bv8>)
    requires |hist| < 16
    ensures WellFormed(Structure(hist)) && CheckByteOk(Structure(hist))
    ensures Serialize(Structure(hist)) == ContactlessAtr(hist) && |Interface(Structure(hist))| == 2
  {
    hide Interface, Chain, Y, LevelBytes, WellFormed;
    var a, tck := Structure(hist), Xor(Covered(hist));
    StructureInterface(hist);
    assert Body(a) == Covered(hist) + [tck];
    assert Body(a)[..|Body(a)| - 1] == Covered(hist);
    assert Serialize(a) == [0x3b] + Covered(hist) + [tck];
  }

  /** Headline: it passes `check_len`, with the historical bytes at offset 4 and an XOR of zero. */
  lemma ContactlessAccepted(s: seq<bv8>, hist: seq<bv8>)
    requires |hist| < 16 && |hist| + 7 <= |s| && s[..|hist| + 5] == ContactlessAtr(hist)
    ensures var n := |hist| + 5;
      && CheckLenResult(s, n) == 1 && Walk(s, n, 0, false).hist == Some(4)
      && Announced(s) == |hist| == n - 5 && Xor(s[1..n]) == 0
  {
    hide Structure, ContactlessAtr, Walk, CheckLenResult, Xor, Interface;
    var n, a := |hist| + 5, Structure(hist);
    StructureSerialized(hist);
    AcceptsStructured(s, n, a);
    RepresentsPieces(s, n, a);
    HasCheckByte(hist);
  }

  lemma HasCheckByte(hist: seq<bv8>)
    requires |hist| < 16
    ensures Structure(hist).tck.Some? && Structure(hist).hist == hist
  {
  }

  const STORAGE_CARD: seq<bv8> :=
    [0x80, 0x4f, 0x0c, 0xA0, 0x00, 0x00, 0x03, 0x06, 0x00, 0x00, 0x00, 0x00, 0x00, 0x00, 0x00]

  /** The historical bytes of a storage card; `sak` tells the Mifare kinds apart. */
  function StorageHist(sak: bv8): (h: seq<bv8>)
    ensures |h| == 15
  {
    var kind: seq<bv8> :=
      if sak & 0xdf == 0x08 then [0x03, 0x00, 0x01]
      else if sak & 0xdf == 0x09 then [0x03, 0x00, 0x26]
      else if sak & 0xdf == 0x18 then [0x03, 0x00, 0x02]
      else [0x00, 0x00, 0x00];
    STORAGE_CARD[..8] + kind + STORAGE_CARD[11..]
  }

  /** Registered application provider, standard and card name as PC/SC Part 3 lays them out; the name tells the kind. */
  lemma StorageHistTold(sak: bv8)
    ensures var h := StorageHist(sak);
      && h[..8] == [0x80, 0x4F, 0x0C, 0xA0, 0x00, 0x00, 0x03, 0x06] && h[11..] == [0x00, 0x00, 0x00, 0x00]
      && h[8..11] ==
           if sak == 0x08 || sak == 0x28 then [0x03, 0x00, 0x01]
           else if sak == 0x09 || sak == 0x29 then [0x03, 0x00, 0x26]
           else if sak == 0x18 || sak == 0x38 then [0x03, 0x00, 0x02]
           else [0x00, 0x00, 0x00]
  {
    SakKinds(sak);
  }

  lemma SakKinds(sak: bv8)
    ensures sak & 0xdf == 0x08 <==> sak == 0x08 || sak == 0x28
    ensures sak & 0xdf == 0x09 <==> sak == 0x09 || sak == 0x29
    ensures sak & 0xdf == 0x18 <==> sak == 0x18 || sak == 0x38
  {
  }

  /** Number of interface bytes announced by the T0 byte of an ATS. */
  function AtsInterface(t0: bv8): nat { PopCount((t0 & 0x70) >> 4) }

  lemma AtsInterfaceBound(t0: bv8)
    ensures AtsInterface(t0) <= 3
  {
  }

  /**
   The data field of a reply as the driver holds it: the length of the ATS, then TL, T0, interface bytes and
   historical bytes, and behind them whatever was there before.
   */
  type DataField = d: seq<bv8> | |d| == 2038 witness seq(2038, _ => 0)

  /** The length covers TL, T0 and the interface bytes. */
  predicate AtsCovers(d: DataField) { 2 + AtsInterface(d[2]) <= d[0] as int }

  /** The number of historical bytes, in 8-bit arithmetic. */
  function AtsCount(d: DataField): (n: nat)
    ensures n < 256
  {
    (d[0] as int - 2 - AtsInterface(d[2])) % 256
  }

  function AtsHist(d: DataField): (h: seq<bv8>)
    ensures |h| == AtsCount(d)
  {
    AtsInterfaceBound(d[2]);
    d[3 + AtsInterface(d[2])..3 + AtsInterface(d[2]) + AtsCount(d)]
  }

  /** T0 announces TA, TB and TC with its bits 5 to 7, and the historical bytes follow those. */
  lemma AtsTold(d: DataField, i: nat)
    requires AtsCovers(d) && i < AtsCount(d)
    ensures var skipped := (if d[2] & 0x10 != 0 then 1 else 0) + (if d[2] & 0x20 != 0 then 1 else 0)
                           + (if d[2] & 0x40 != 0 then 1 else 0);
      AtsCount(d) == d[0] as int - 2 - skipped && AtsHist(d)[i] == d[3 + skipped + i]
  {
    hide AtsInterface;
    InterfaceTold(d[2]);
    AtsInterfaceBound(d[2]);
    assert AtsHist(d)[i] == d[3 + AtsInterface(d[2]) + i];
  }

  lemma InterfaceTold(t0: bv8)
    ensures AtsInterface(t0) == (if t0 & 0x10 != 0 then 1 else 0) + (if t0 & 0x20 != 0 then 1 else 0)
                                + (if t0 & 0x40 != 0 then 1 else 0)
  {
  }

  /** Header, historical bytes and check byte stay inside the 33 bytes of the store exactly when the length covers. */
  lemma AtsFitsExactly(d: DataField)
    requires d[0] <= 15
    ensures AtsCount(d) + 5 <= 33 <==> AtsCovers(d)
    ensures AtsCovers(d) ==> AtsCount(d) == d[0] as int - 2 - AtsInterface(d[2]) < 16
    ensures !AtsCovers(d) ==> AtsCount(d) >= 251
  {
    hide AtsInterface;
    AtsInterfaceBound(d[2]);
  }

  /** An ATS that is nothing but its length byte, which section 5.2 of ISO/IEC 14443-4 allows, with 0 behind it. */
  lemma BareAtsOverruns(d: DataField)
    requires d[0] == 1 && d[2] == 0
    ensures AtsCount(d) + 5 == 260
  {
  }
}
