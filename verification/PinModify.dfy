/**
 MODIFY VERIFICATION (command 20 19) of `CCCIDReader::_CtData` with a format 2 PIN block: the command
 template for the card is built in a 260-byte buffer, with an empty PIN block (2F FF FF FF FF FF FF FF,
 section 6.5.12 of EMV Book 3) at the place of the new PIN and, where it is asked for, of the old one.
 */
module PinModify {
  import opened Bytes

  const WINDOW: seq<Byte> := [0x2f, 0xff, 0xff, 0xff, 0xff, 0xff, 0xff, 0xff]

  /** An empty PIN block stands at PIN position `pos` of the data field. */
  predicate WindowAt(buffer: seq<Byte>, pos: nat) { At(buffer, 5 + pos, WINDOW) }

  /** Byte `i` of the command belongs to the PIN block at position `pos`. */
  predicate InWindow(i: int, pos: nat) { 5 + pos <= i < 13 + pos }

  predicate Disjoint(a: int, b: int) { a + 8 <= b || b + 8 <= a }

  /** Positions as the driver computes them, in 8-bit arithmetic; the old PIN is entered only when `asksOld`. */
  datatype Layout = Rejected | Layout(oldPos: Byte, newPos: Byte, asksOld: bool)

  /** `p1` and `p2` are the old and the new position of the request, counted from 1 behind the header. */
  function LayoutOf(p1: Byte, p2: Byte): (l: Layout) {
    if p1 > 5 && p1 != p2 then
      if p2 > 5 then Layout(p1 - 6, p2 - 6, true)
      else if p2 == 0 then Layout(p1 - 6, (p1 - 6 + 8) % 256, true)
      else Rejected
    else if p2 > 5 && p1 == p2 then Layout(0, p2 - 6, false)
    else Rejected
  }

  /** What the request means, without wrap-around: the new PIN goes to its own place or right behind the old one. */
  predicate Means(p1: Byte, p2: Byte, oldPos: int, newPos: int) {
    && (p1 != p2 ==> oldPos == p1 as int - 6)
    && newPos == if p2 == 0 then oldPos + 8 else p2 as int - 6
  }

  /** A position lies in the first 241 bytes of the data field of the command. */
  predicate InRange(pos: int) { 0 <= pos <= 240 }

  /**
   Exactly these requests get past the range check: both PINs at places of their own, the new one right behind the
   old one (new position 0), or no old PIN at all (both positions the same).
   */
  lemma LayoutTold(p1: Byte, p2: Byte)
    ensures var l, a, b := LayoutOf(p1, p2), p1 as int - 6, p2 as int - 6;
      && (l.Layout? && l.oldPos <= 240 && l.newPos <= 240 <==>
            if p1 == p2 then InRange(b) else InRange(a) && if p2 == 0 then InRange(a + 8) else InRange(b))
      && (l.Layout? && l.oldPos <= 240 && l.newPos <= 240 ==>
            && l.asksOld == (p1 != p2)
            && l.oldPos == (if p1 == p2 then 0 else a) && l.newPos == (if p2 == 0 then a + 8 else b))
  {
  }

  /** The empty PIN block, spelled out. */
  lemma WindowTold(buffer: seq<Byte>, pos: nat)
    requires |buffer| == 260 && pos <= 240
    ensures WindowAt(buffer, pos) <==>
      buffer[5 + pos] == 0x2F && forall i :: 6 + pos <= i < 13 + pos ==> buffer[i] == 0xFF
  {
    var w := buffer[5 + pos..13 + pos];
    if buffer[5 + pos] == 0x2F && forall i :: 6 + pos <= i < 13 + pos ==> buffer[i] == 0xFF {
      assert w == WINDOW;
    }
    if WindowAt(buffer, pos) {
      assert forall i :: 6 + pos <= i < 13 + pos ==> buffer[i] == w[i - 5 - pos];
    }
  }

  /** Headline: no position that passes the range check is the product of a wrap-around. */
  lemma NoWrapAccepted(p1: Byte, p2: Byte)
    requires LayoutOf(p1, p2).Layout? && LayoutOf(p1, p2).oldPos <= 240 && LayoutOf(p1, p2).newPos <= 240
    ensures var l := LayoutOf(p1, p2);
      && Means(p1, p2, if l.asksOld then l.oldPos as int else p1 as int - 6, l.newPos)
      && (l.asksOld <==> p1 != p2)
      && (l.asksOld ==> l.oldPos != l.newPos)
  {
  }

  /** Writing the new block leaves the old one intact exactly when the two do not overlap. */
  lemma OldWindow(before: seq<Byte>, after: seq<Byte>, oldPos: nat, newPos: nat)
    requires |before| == |after| == 260 && oldPos <= 240 && newPos <= 240 && oldPos != newPos
    requires WindowAt(before, oldPos) && WindowAt(after, newPos)
    requires forall i :: 0 <= i < 260 && !InWindow(i, newPos) ==> after[i] == before[i]
    ensures WindowAt(after, oldPos) <==> Disjoint(oldPos, newPos)
  {
    var w := after[5 + oldPos..13 + oldPos];
    if Disjoint(oldPos, newPos) {
      assert w == before[5 + oldPos..13 + oldPos];
    } else if oldPos < newPos {
      assert w[newPos - oldPos] == after[5 + newPos..13 + newPos][0] == 0x2f;
    } else {
      assert w[0] == after[5 + newPos..13 + newPos][oldPos - newPos] == 0xff;
    }
  }

  /** One PIN block is written over the buffer. */
  method PutWindow(buffer: array<Byte>, pos: nat)
    requires buffer.Length == 260 && pos <= 240
    modifies buffer
    ensures WindowAt(buffer[..], pos)
    ensures forall i :: 0 <= i < 260 && !InWindow(i, pos) ==> buffer[i] == old(buffer[i])
  {
    buffer[5 + pos] := 0x2f;
    forall i | 0 <= i < 7 { buffer[6 + pos + i] := 0xff; }
    assert buffer[5 + pos..13 + pos] == WINDOW;
  }

  /**
   The template: `request` is the value of tag 52 (control byte, two positions, then the command header
   and data for the card). Returns the length of the command to send.
   */
  method BuildTemplate(request: seq<Byte>, buffer: array<Byte>) returns (ok: bool, outlen: nat)
    requires |request| < 256 && buffer.Length == 260 && (|request| >= 7 ==> request[0] % 4 == 2)
    modifies buffer
    ensures |request| < 7 ==> !ok
    ensures |request| >= 7 ==>
      var l := LayoutOf(request[1], request[2]);
      && (ok ==> l.Layout? && l.oldPos <= 240 && l.newPos <= 240)
      && (l.Layout? && l.oldPos <= 240 && l.newPos <= 240 ==>
            (ok <==> request[0] / 16 == 0 || 4 <= request[0] / 16 <= 12))
    ensures ok ==>
      var l := LayoutOf(request[1], request[2]);
      && outlen == buffer[4] as int + 5 <= 260
      && WindowAt(buffer[..], l.newPos)
      && (l.asksOld ==> (WindowAt(buffer[..], l.oldPos) <==> Disjoint(l.oldPos, l.newPos)))
      && l.oldPos + 8 <= buffer[4] && l.newPos + 8 <= buffer[4]
      && (|request| > 7 ==> request[7] <= buffer[4])
      && (buffer[4] == l.oldPos + 8 || buffer[4] == l.newPos + 8 || (|request| > 7 && buffer[4] == request[7]))
      && buffer[..4] == request[3..7]
      && forall i :: 5 <= i < |request| - 3 && !InWindow(i, l.newPos) && !(l.asksOld && InWindow(i, l.oldPos)) ==>
           buffer[i] == request[3 + i]
  {
    hide WindowAt, Disjoint;
    outlen := 0;
    var taglen := |request|;
    if taglen < 7 { return false, 0; }
    forall i | 0 <= i < taglen - 3 { buffer[i] := request[3 + i]; }
    var l := LayoutOf(request[1], request[2]);
    if l.Rejected? { return false, 0; }
    if taglen == 7 { buffer[4] := 0; }
    if l.newPos > 240 || l.oldPos > 240 { return false, 0; }
    if buffer[4] < l.oldPos + 8 { buffer[4] := l.oldPos + 8; }
    if buffer[4] < l.newPos + 8 { buffer[4] := l.newPos + 8; }
    if l.asksOld { PutWindow(buffer, l.oldPos); }
    ghost var before := buffer[..];
    PutWindow(buffer, l.newPos);
    if l.asksOld { OldWindow(before, buffer[..], l.oldPos, l.newPos); }
    outlen := buffer[4] as int + 5;
    var pinLength := request[0] / 16;
    ok := pinLength == 0 || 4 <= pinLength <= 12;
  }
}
