/**
 * Properties of the AX.25 codec model: the layout of the address octets and
 * of the control field, where the address field ends, what decode recovers
 * from what encode wrote, and the places where it does not.
 */
module AX25Properties {
  import opened Wrappers
  import opened Bits
  import opened Utils
  import opened AX25Defs
  import opened AX25Frame

  // ---------------------------------------------------------------------------
  // Address octets
  // ---------------------------------------------------------------------------

  /** Destination SSID octet: `C 1 1 SSID 0`, the command bit on top. */
  lemma DestinationOctetValue(f: Frame)
    requires f.command <= 1 && f.destinationSSID <= 15
    ensures DestinationOctet(f) == 128 * f.command + 96 + 2 * f.destinationSSID
  {
    var c, ssid := f.command, f.destinationSSID;
    assert Pow2(1) == 2 && Pow2(5) == 32 && Pow2(7) == 128;
    var s1, s2, s3 := Shl(c, 7), Shl(3, 5), Shl(ssid, 1);
    assert s1 == 128 * c && s2 == 96 && s3 == 2 * ssid;
    OrAt(s1, c, s2, 128, 7);
    OrAt(Or(s1, s2), 4 * c + 3, s3, 32, 5);
  }

  /**
   * Source SSID octet: the inverted command bit, the first reserved bit set
   * only in standard mode, the second reserved bit, the SSID, and the
   * end-of-address bit when there are no repeaters.
   */
  lemma SourceOctetValue(f: Frame)
    requires f.command <= 1 && f.sourceSSID <= 15
    ensures SourceOctet(f) == 128 * (1 - f.command) + (if f.modulo128 then 0 else 64) + 32
                              + 2 * f.sourceSSID + (if |f.repeaterPath| == 0 then 1 else 0)
  {
    assert Pow2(1) == 2 && Pow2(5) == 32 && Pow2(6) == 64 && Pow2(7) == 128;
    var x := Xor(f.command, 1);
    assert x == 1 - f.command;
    var m := if f.modulo128 then 0 else 1;
    var e := if |f.repeaterPath| < 1 then 1 else 0;
    var ssid := f.sourceSSID;
    var s1, s2, s3, s4 := Shl(x, 7), Shl(m, 6), Shl(1, 5), Shl(ssid, 1);
    assert s1 == 128 * x && s2 == 64 * m && s3 == 32 && s4 == 2 * ssid;
    OrAt(s1, x, s2, 128, 7);
    var o1 := Or(s1, s2);
    OrAt(o1, 2 * x + m, s3, 64, 6);
    var o2 := Or(o1, s3);
    OrAt(o2, 4 * x + 2 * m + 1, s4, 32, 5);
    var o3 := Or(o2, s4);
    OrAt(o3, 64 * x + 32 * m + 16 + ssid, e, 2, 1);
  }

  /** Repeater SSID octet: the SSID shifted left, bit 0 set on the last repeater. */
  lemma RepeaterOctetValue(path: seq<Repeater>, r: nat)
    requires r < |path|
    ensures RepeaterOctet(path, r) == 2 * path[r].ssid + (if r == |path| - 1 then 1 else 0)
  {
    assert Pow2(1) == 2;
    var s := Shl(path[r].ssid, 1);
    assert s == 2 * path[r].ssid;
    OrAt(s, path[r].ssid, if r == |path| - 1 then 1 else 0, 2, 1);
  }

  /** The destination octet never carries the end-of-address bit. */
  lemma DestinationNotLast(f: Frame)
    ensures And(DestinationOctet(f), 1) == 0
  {
    AndOne(DestinationOctet(f));
  }

  /** The source octet carries the end-of-address bit iff there are no repeaters. */
  lemma SourceLastIffNoRepeaters(f: Frame)
    ensures And(SourceOctet(f), 1) != 0 <==> |f.repeaterPath| == 0
  {
    AndOne(SourceOctet(f));
  }

  /**
   * Exactly one address octet carries the end-of-address bit: never the
   * destination, the source iff there are no repeaters, and a repeater iff
   * it is the last one. This holds for every record, in range or not.
   */
  lemma EndOfAddressMarker(f: Frame)
    ensures And(DestinationOctet(f), 1) == 0
    ensures And(SourceOctet(f), 1) != 0 <==> |f.repeaterPath| == 0
    ensures forall r :: 0 <= r < |f.repeaterPath| ==>
      (And(RepeaterOctet(f.repeaterPath, r), 1) != 0 <==> r == |f.repeaterPath| - 1)
  {
    DestinationNotLast(f);
    SourceLastIffNoRepeaters(f);
    forall r | 0 <= r < |f.repeaterPath|
      ensures And(RepeaterOctet(f.repeaterPath, r), 1) != 0 <==> r == |f.repeaterPath| - 1
    {
      RepeaterLastBit(f.repeaterPath, r);
    }
  }

  /** A repeater octet carries the end-of-address bit iff it is the last one. */
  lemma RepeaterLastBit(path: seq<Repeater>, r: nat)
    requires r < |path|
    ensures And(RepeaterOctet(path, r), 1) != 0 <==> r == |path| - 1
  {
    AndOne(RepeaterOctet(path, r));
  }

  /** `(x & A_SSID) >> 1` recovers an SSID below 16 from `32*hi + 2*ssid + e`. */
  lemma SsidField(x: nat, hi: nat, ssid: nat, e: nat)
    requires ssid <= 15 && e <= 1 && x == 32 * hi + 2 * ssid + e
    ensures SsidOf(x) == ssid
  {
    assert Pow2(1) == 2 && Pow2(4) == 16;
    FieldAt(x, 1, 4, A_SSID, 2, 16, hi, ssid, e);
  }

  /** `(x & A_CRH) >> 7` is the command bit of `128*c + low` for `low < 128`. */
  lemma CommandField(x: nat, c: nat, low: nat)
    requires c <= 1 && low < 128 && x == 128 * c + low
    ensures Shr(And(x, A_CRH), 7) == c
  {
    assert Pow2(0) == 1 && Pow2(1) == 2 && Pow2(7) == 128;
    FieldAt(x, 7, 1, A_CRH, 128, 2, 0, c, low);
  }

  // ---------------------------------------------------------------------------
  // Control field
  // ---------------------------------------------------------------------------

  /** The sequence numbers a control field can hold: 0-7, or 0-127 in modulo-128 mode. */
  predicate InSequenceRange(f: Frame)
  {
    if f.modulo128 then f.nr <= 127 && f.ns <= 127 else f.nr <= 7 && f.ns <= 7
  }

  /** I-frame control field: N(R), P, N(S), 0 (section 4.2 of AX.25 v2.2). */
  lemma IFrameControl(f: Frame)
    requires f.frameType == I_FRAME && f.pollFinal <= 1 && InSequenceRange(f)
    ensures ControlOf(f) == if f.modulo128 then 512 * f.nr + 256 * f.pollFinal + 2 * f.ns
                               else 32 * f.nr + 16 * f.pollFinal + 2 * f.ns
  {
    assert Pow2(1) == 2 && Pow2(4) == 16 && Pow2(5) == 32 && Pow2(8) == 256 && Pow2(9) == 512;
    var k, p := if f.modulo128 then 9 else 5, if f.modulo128 then 512 else 32;
    var q, s := Shl(f.nr, k), Shl(f.ns, 1);
    assert q == p * f.nr && s == 2 * f.ns;
    assert Or(I_FRAME, q) == q;
    OrAt(q, f.nr, s, p, k);
    if f.pollFinal == 1 {
      var u := Shl(1, k - 1);
      assert u == p / 2;
      OrAssoc(q, s, u);
      OrAt(u, 1, s, p / 2, k - 1);
      OrAt(q, f.nr, Or(s, u), p, k);
    }
  }

  /** The supervisory frame types RR, RNR, REJ and SREJ. */
  predicate IsSupervisoryType(t: nat)
  {
    t == S_FRAME_RR || t == S_FRAME_RNR || t == S_FRAME_REJ || t == S_FRAME_SREJ
  }

  /** Every supervisory type has low bits `01` and fits in four bits. */
  lemma SupervisoryTypeBits(t: nat)
    requires IsSupervisoryType(t)
    ensures And(t, U_FRAME) == S_FRAME && t < 16
  {
    AndLowMask2(t);
    match t
    case 0x01 => case 0x05 => case 0x09 => case 0x0D =>
    case _ => assert false;
  }

  /** S-frame control field: N(R), P/F, the S type bits (section 4.2 of AX.25 v2.2). */
  lemma SFrameControl(f: Frame)
    requires IsSupervisoryType(f.frameType) && f.pollFinal <= 1 && InSequenceRange(f)
    ensures ControlOf(f) == if f.modulo128 then 512 * f.nr + 256 * f.pollFinal + f.frameType
                               else 32 * f.nr + 16 * f.pollFinal + f.frameType
  {
    var t := f.frameType;
    SupervisoryTypeBits(t);
    assert Pow2(4) == 16 && Pow2(5) == 32 && Pow2(8) == 256 && Pow2(9) == 512;
    var k, p := if f.modulo128 then 9 else 5, if f.modulo128 then 512 else 32;
    var q := Shl(f.nr, k);
    assert q == p * f.nr;
    OrAt(q, f.nr, t, p, k);
    if f.pollFinal == 1 {
      var u := Shl(1, k - 1);
      assert u == p / 2;
      OrAssoc(t, q, u);
      OrAt(q, f.nr, u, p, k);
      OrAt(Or(q, u), 2 * f.nr + 1, t, p / 2, k - 1);
    }
  }

  /** The unnumbered frame types of AX25Defs. */
  predicate IsUnnumberedType(t: nat)
  {
    t == U_FRAME_SABM || t == U_FRAME_SABME || t == U_FRAME_DISC || t == U_FRAME_DM
    || t == U_FRAME_UA || t == U_FRAME_FRMR || t == U_FRAME_UI || t == U_FRAME_XID
    || t == U_FRAME_TEST
  }

  /** Every unnumbered type has both low bits set and bit 4 clear, and fits in a byte. */
  lemma UnnumberedTypeBits(t: nat)
    requires IsUnnumberedType(t)
    ensures And(t, U_FRAME) == U_FRAME && t % 4 == 3 && t % 32 < 16 && t < 256
  {
    AndLowMask2(t);
    match t
    case 0x2F => case 0x6B => case 0x43 => case 0x0F => case 0x63 =>
    case 0x87 => case 0x03 => case 0xAF => case 0xE3 =>
    case _ => assert false;
  }

  /** U-frame control field: the type bits with P/F at bit 4, or at bit 8 in modulo-128 mode. */
  lemma UFrameControl(f: Frame)
    requires IsUnnumberedType(f.frameType) && f.pollFinal <= 1
    ensures ControlOf(f) == if f.modulo128 then f.frameType + 256 * f.pollFinal else f.frameType + 16 * f.pollFinal
  {
    var t := f.frameType;
    UnnumberedTypeBits(t);
    assert Pow2(4) == 16 && Pow2(5) == 32 && Pow2(8) == 256;
    if f.pollFinal == 1 {
      if f.modulo128 {
        OrAt(Shl(1, 8), 1, t, 256, 8);
      } else {
        assert Shl(1, 4) == 16;
        OrBit4(t);
      }
    }
  }

  /** Setting bit 4 of a number whose bit 4 is clear adds 16. */
  lemma OrBit4(t: nat)
    requires t % 32 < 16
    ensures Or(t, 16) == t + 16
  {
    assert Pow2(4) == 16 && Pow2(5) == 32;
    var h, lo := 32 * (t / 32), t % 32;
    OrAt(h, t / 32, lo, 32, 5);
    assert t == Or(h, lo);
    OrAssoc(h, lo, 16);
    OrAt(16, 1, lo, 16, 4);
    OrAt(h, t / 32, Or(lo, 16), 32, 5);
  }

  /** N(S) = 3, N(R) = 5 with the poll bit set gives the control byte 0xB6. */
  lemma ControlExample()
    ensures ControlOf(DefaultFrame.(ns := 3, nr := 5, pollFinal := 1)) == 0xB6
  {
    IFrameControl(DefaultFrame.(ns := 3, nr := 5, pollFinal := 1));
  }

  /** In standard mode the control getter is pushed unmasked: N(R) = 8 gives the "byte" 256. */
  lemma UnmaskedControlByte()
    ensures ControlField(DefaultFrame.(nr := 8)) == [256]
  {
    assert Pow2(5) == 32;
  }
}
