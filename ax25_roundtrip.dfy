/**
 * What decode recovers from the bytes encode writes: callsigns come back
 * blank-padded to six characters, the SSIDs and the command bit come back
 * unchanged, and the repeater path comes back with padded callsigns. Decode
 * appends the callsigns and the path to the record it decodes into.
 */
module AX25RoundTrip {
  import opened Wrappers
  import opened Bits
  import opened Utils
  import opened AX25Defs
  import opened AX25Frame
  import opened AX25Properties

  // ---------------------------------------------------------------------------
  // Callsigns
  // ---------------------------------------------------------------------------

  /** `n` blanks. */
  function Blanks(n: nat): (r: JsString)
    ensures |r| == n && forall i :: 0 <= i < n ==> r[i] == 32
  {
    seq(n, i => 32)
  }

  /** The first six characters of a callsign, with blanks after a shorter one. */
  function Padded(cs: JsString): (r: JsString)
    ensures |r| == 6
  {
    if |cs| >= 6 then cs[..6] else cs + Blanks(6 - |cs|)
  }

  /** A repeater path with every callsign padded. */
  function PaddedPath(path: seq<Repeater>): (r: seq<Repeater>)
    ensures |r| == |path|
    ensures forall i :: 0 <= i < |path| ==> r[i] == Repeater(Padded(path[i].callsign), path[i].ssid)
  {
    seq(|path|, i requires 0 <= i < |path| => Repeater(Padded(path[i].callsign), path[i].ssid))
  }

  /** `(x << 1) >> 1 == x` */
  lemma ShiftBack(x: nat)
    ensures Shr(Shl(x, 1), 1) == x
  {
    assert Pow2(1) == 2;
  }

  /**
   * Decoding a callsign subfield gives the callsign padded to six
   * characters; a six-character callsign comes back as it was.
   */
  lemma CallsignRoundTrip(cs: JsString)
    ensures DecodeCallsign(CallsignSubfield(cs)) == Padded(cs)
    ensures |cs| == 6 ==> DecodeCallsign(CallsignSubfield(cs)) == cs
  {
    var b, d, p := CallsignSubfield(cs), DecodeCallsign(CallsignSubfield(cs)), Padded(cs);
    forall i | 0 <= i < 6
      ensures d[i] == p[i]
    {
      var code := SlotCode(cs, i);
      assert b[i] == Shl(code, 1);
      ShiftBack(code);
      assert code < 0x1_0000;
      FromCharCodeOfCode(code);
    }
    assert d == p;
    if |cs| == 6 {
      assert cs[..6] == cs;
    }
  }

  /** A five-character callsign is padded with one blank: "SP4MK" comes back as "SP4MK ". */
  lemma ShortCallsignIsPadded()
    ensures DecodeCallsign(CallsignSubfield(Str("SP4MK"))) == Str("SP4MK ")
  {
    CallsignRoundTrip(Str("SP4MK"));
    assert Padded(Str("SP4MK")) == Str("SP4MK") + [32];
    assert Str("SP4MK ") == Str("SP4MK") + [32];
  }

  // ---------------------------------------------------------------------------
  // Address field
  // ---------------------------------------------------------------------------

  /** Every value the address octets of `f` carry is in range. */
  predicate AddressInRange(f: Frame)
  {
    && f.command <= 1 && f.destinationSSID <= 15 && f.sourceSSID <= 15
    && forall r :: 0 <= r < |f.repeaterPath| ==> f.repeaterPath[r].ssid <= 15
  }

  /** The bytes after the address field. */
  function Tail(f: Frame): seq<nat>
  {
    ControlField(f) + PidField(f) + InfoField(f)
  }

  /** Repeater `r`'s subfield sits at `7 * r` among the first `n` subfields. */
  lemma {:induction false} RepeaterSubfieldAt(path: seq<Repeater>, n: nat, r: nat)
    requires r < n <= |path|
    ensures RepeaterSubfields(path, n)[7 * r..7 * r + 6] == CallsignSubfield(path[r].callsign)
    ensures RepeaterSubfields(path, n)[7 * r + 6] == RepeaterOctet(path, r)
  {
    var prev := RepeaterSubfields(path, n - 1);
    var all := RepeaterSubfields(path, n);
    assert all == prev + CallsignSubfield(path[n - 1].callsign) + [RepeaterOctet(path, n - 1)];
    if r < n - 1 {
      RepeaterSubfieldAt(path, n - 1, r);
      assert all[7 * r..7 * r + 6] == prev[7 * r..7 * r + 6];
      assert all[7 * r + 6] == prev[7 * r + 6];
    } else {
      assert all[7 * r..7 * r + 6] == CallsignSubfield(path[r].callsign);
    }
  }

  /** The wire bytes, piece by piece. */
  lemma WireSplit(f: Frame)
    ensures Wire(f)[0..6] == CallsignSubfield(f.destinationCallsign)
    ensures Wire(f)[6] == DestinationOctet(f)
    ensures Wire(f)[7..13] == CallsignSubfield(f.sourceCallsign)
    ensures Wire(f)[13] == SourceOctet(f)
    ensures Wire(f)[14..14 + 7 * |f.repeaterPath|] == RepeaterSubfields(f.repeaterPath, |f.repeaterPath|)
    ensures Wire(f)[14 + 7 * |f.repeaterPath|..] == Tail(f)
  {
    var d, s := CallsignSubfield(f.destinationCallsign), CallsignSubfield(f.sourceCallsign);
    var rs := RepeaterSubfields(f.repeaterPath, |f.repeaterPath|);
    var c, pid, info := ControlField(f), PidField(f), InfoField(f);
    assert Wire(f) == d + [DestinationOctet(f)] + s + [SourceOctet(f)] + rs + c + pid + info;
    FieldsSplit(d, DestinationOctet(f), s, SourceOctet(f), rs, c, pid, info);
  }

  /** Slicing the concatenation of an address field's pieces and three trailing pieces. */
  lemma FieldsSplit(d: seq<nat>, x: nat, s: seq<nat>, y: nat, rs: seq<nat>, c: seq<nat>, pid: seq<nat>, info: seq<nat>)
    requires |d| == 6 && |s| == 6
    ensures var w := d + [x] + s + [y] + rs + c + pid + info;
      && w[0..6] == d && w[6] == x && w[7..13] == s && w[13] == y
      && w[14..14 + |rs|] == rs && w[14 + |rs|..] == c + pid + info
  {
    var w := d + [x] + s + [y] + rs + c + pid + info;
    assert w == (d + [x] + s + [y] + rs) + (c + pid + info);
  }

  /** The SSID octet of address slot `k`: the source's, then each repeater's. */
  function SsidOctet(f: Frame, k: nat): nat
    requires k <= |f.repeaterPath|
  {
    if k == 0 then SourceOctet(f) else RepeaterOctet(f.repeaterPath, k - 1)
  }

  /** `w` holds the SSID octets and repeater callsign bytes of `f` where encode puts them. */
  predicate AddressLaidOut(w: seq<nat>, f: Frame)
  {
    && |w| > 14 + 7 * |f.repeaterPath|
    && (forall k :: 0 <= k <= |f.repeaterPath| ==> w[13 + 7 * k] == SsidOctet(f, k))
    && (forall k :: 0 <= k < |f.repeaterPath| ==>
          w[14 + 7 * k..20 + 7 * k] == CallsignSubfield(f.repeaterPath[k].callsign))
  }

  /** One repeater's subfield placed in `w`. */
  lemma RepeaterPlaced(w: seq<nat>, f: Frame, k: nat)
    requires k < |f.repeaterPath| && |w| > 14 + 7 * |f.repeaterPath|
    requires w[14..14 + 7 * |f.repeaterPath|] == RepeaterSubfields(f.repeaterPath, |f.repeaterPath|)
    ensures w[13 + 7 * (k + 1)] == SsidOctet(f, k + 1)
    ensures w[14 + 7 * k..20 + 7 * k] == CallsignSubfield(f.repeaterPath[k].callsign)
  {
    var n := |f.repeaterPath|;
    var rs := w[14..14 + 7 * n];
    RepeaterSubfieldAt(f.repeaterPath, n, k);
    assert w[20 + 7 * k] == rs[7 * k + 6];
    forall i | 14 + 7 * k <= i < 20 + 7 * k
      ensures w[i] == rs[i - 14]
    {
    }
    assert w[14 + 7 * k..20 + 7 * k] == rs[7 * k..7 * k + 6];
  }

  /** Bytes holding the source SSID octet and then the repeater subfields have the address layout. */
  lemma LaidOutOf(w: seq<nat>, f: Frame)
    requires |w| > 14 + 7 * |f.repeaterPath| && w[13] == SourceOctet(f)
    requires w[14..14 + 7 * |f.repeaterPath|] == RepeaterSubfields(f.repeaterPath, |f.repeaterPath|)
    ensures AddressLaidOut(w, f)
  {
    RepeaterCallsignsPlaced(w, f);
    SsidOctetsPlaced(w, f);
  }

  /** Each repeater callsign subfield sits at its place in `w`. */
  lemma RepeaterCallsignsPlaced(w: seq<nat>, f: Frame)
    requires |w| > 14 + 7 * |f.repeaterPath|
    requires w[14..14 + 7 * |f.repeaterPath|] == RepeaterSubfields(f.repeaterPath, |f.repeaterPath|)
    ensures forall k :: 0 <= k < |f.repeaterPath| ==>
              w[14 + 7 * k..20 + 7 * k] == CallsignSubfield(f.repeaterPath[k].callsign)
  {
    forall k | 0 <= k < |f.repeaterPath|
      ensures w[14 + 7 * k..20 + 7 * k] == CallsignSubfield(f.repeaterPath[k].callsign)
    {
      RepeaterPlaced(w, f, k);
    }
  }

  /** Each SSID octet after the destination sits every seven bytes from index 13. */
  lemma SsidOctetsPlaced(w: seq<nat>, f: Frame)
    requires |w| > 14 + 7 * |f.repeaterPath| && w[13] == SourceOctet(f)
    requires w[14..14 + 7 * |f.repeaterPath|] == RepeaterSubfields(f.repeaterPath, |f.repeaterPath|)
    ensures forall k :: 0 <= k <= |f.repeaterPath| ==> w[13 + 7 * k] == SsidOctet(f, k)
  {
    forall k | 0 <= k <= |f.repeaterPath|
      ensures w[13 + 7 * k] == SsidOctet(f, k)
    {
      SsidOctetPlaced(w, f, k);
    }
  }

  /** The SSID octet of address slot `k` sits at index `13 + 7 k`. */
  lemma SsidOctetPlaced(w: seq<nat>, f: Frame, k: nat)
    requires |w| > 14 + 7 * |f.repeaterPath| && w[13] == SourceOctet(f) && k <= |f.repeaterPath|
    requires w[14..14 + 7 * |f.repeaterPath|] == RepeaterSubfields(f.repeaterPath, |f.repeaterPath|)
    ensures w[13 + 7 * k] == SsidOctet(f, k)
  {
    if k > 0 {
      RepeaterOctetPlaced(w, f, k - 1, 13 + 7 * k);
    } else {
      SlotZero(w, k, SourceOctet(f));
    }
  }

  /** Address slot 0 starts at index 13. */
  lemma SlotZero(w: seq<nat>, k: nat, v: nat)
    requires k == 0 && |w| > 13 && w[13] == v
    ensures w[13 + 7 * k] == v
  {
  }

  /** The SSID octet of repeater `j` sits at index `i = 20 + 7 j`. */
  lemma RepeaterOctetPlaced(w: seq<nat>, f: Frame, j: nat, i: nat)
    requires j < |f.repeaterPath| && |w| > 14 + 7 * |f.repeaterPath| && i == 20 + 7 * j
    requires w[14..14 + 7 * |f.repeaterPath|] == RepeaterSubfields(f.repeaterPath, |f.repeaterPath|)
    ensures w[i] == RepeaterOctet(f.repeaterPath, j)
  {
    RepeaterPlaced(w, f, j);
  }

  /** The wire bytes have the address layout. */
  lemma WireLaidOut(f: Frame)
    ensures AddressLaidOut(Wire(f), f)
  {
    WireSplit(f);
    LaidOutOf(Wire(f), f);
  }

  /** A repeater's SSID comes back from its octet. */
  lemma RepeaterSsidBack(path: seq<Repeater>, r: nat)
    requires r < |path| && path[r].ssid <= 15
    ensures SsidOf(RepeaterOctet(path, r)) == path[r].ssid
  {
    RepeaterOctetValue(path, r);
    SsidField(RepeaterOctet(path, r), 0, path[r].ssid, if r == |path| - 1 then 1 else 0);
  }

  /** Only the SSID octet of the last address slot has the end-of-address bit. */
  lemma SlotEndBit(f: Frame, k: nat)
    requires k <= |f.repeaterPath|
    ensures And(SsidOctet(f, k), 1) != 0 <==> k == |f.repeaterPath|
  {
    if k == 0 {
      SourceLastIffNoRepeaters(f);
    } else {
      RepeaterLastBit(f.repeaterPath, k - 1);
    }
  }

  /** From the SSID octet of address slot `k` on, the address field ends right after the last repeater. */
  lemma {:induction false} AddressEndFrom(w: seq<nat>, f: Frame, k: nat)
    requires k <= |f.repeaterPath| && AddressLaidOut(w, f)
    decreases |f.repeaterPath| - k
    ensures AddressEnd(w, 13 + 7 * k) == Some(14 + 7 * |f.repeaterPath|)
  {
    assert w[13 + 7 * k] == SsidOctet(f, k);
    SlotEndBit(f, k);
    if k < |f.repeaterPath| {
      AddressEndFrom(w, f, k + 1);
    }
  }

  /** Reading address slot `k + 1`: repeater `k`, padded, with its SSID. */
  lemma RepeaterRead(w: seq<nat>, f: Frame, k: nat, o: nat)
    requires k < |f.repeaterPath| && AddressLaidOut(w, f) && AddressInRange(f) && o == 13 + 7 * k
    ensures AddressEnd(w, o).Some? && AddressEnd(w, o + 7).Some?
    ensures DecodeRepeaters(w, o)
         == [Repeater(Padded(f.repeaterPath[k].callsign), f.repeaterPath[k].ssid)] + DecodeRepeaters(w, o + 7)
  {
    AddressEndFrom(w, f, k);
    AddressEndFrom(w, f, k + 1);
    assert w[o] == SsidOctet(f, k);
    SlotEndBit(f, k);
    var rep := f.repeaterPath[k];
    assert w[o + 1..o + 7] == CallsignSubfield(rep.callsign);
    CallsignRoundTrip(rep.callsign);
    assert w[o + 7] == SsidOctet(f, k + 1);
    RepeaterSsidBack(f.repeaterPath, k);
  }

  /**
   * From the SSID octet `o` of address slot `k` on, the repeaters read are
   * the remaining ones, padded.
   */
  lemma {:induction false} RepeatersBack(w: seq<nat>, f: Frame, k: nat, o: nat)
    requires k <= |f.repeaterPath| && AddressLaidOut(w, f) && AddressInRange(f) && o == 13 + 7 * k
    decreases |f.repeaterPath| - k
    ensures AddressEnd(w, o).Some?
    ensures DecodeRepeaters(w, o) == PaddedPath(f.repeaterPath[k..])
  {
    AddressEndFrom(w, f, k);
    if k < |f.repeaterPath| {
      RepeaterRead(w, f, k, o);
      RepeatersBack(w, f, k + 1, o + 7);
      PaddedPathFrom(f.repeaterPath, k);
    } else {
      LastSlotEnds(w, f, o);
    }
  }

  /** Padding the path from entry `k` on pads entry `k`, then the rest. */
  lemma PaddedPathFrom(path: seq<Repeater>, k: nat)
    requires k < |path|
    ensures PaddedPath(path[k..])
         == [Repeater(Padded(path[k].callsign), path[k].ssid)] + PaddedPath(path[k + 1..])
  {
    assert PaddedPath(path[k..])[1..] == PaddedPath(path[k + 1..]);
  }

  /** The SSID octet after the last repeater has its end-of-address bit set. */
  lemma LastSlotEnds(w: seq<nat>, f: Frame, o: nat)
    requires AddressLaidOut(w, f) && o == 13 + 7 * |f.repeaterPath|
    ensures And(w[o], 1) != 0
  {
    assert w[o] == SsidOctet(f, |f.repeaterPath|);
    SlotEndBit(f, |f.repeaterPath|);
  }

  /**
   * The record decode makes of `f`'s address field when decoding into `p`:
   * padded callsigns and path appended to `p`'s, SSIDs and command bit as in `f`.
   */
  function AddressDecoded(p: Frame, f: Frame): (q: Frame)
    ensures q.modulo128 == p.modulo128 && q.sent == p.sent
  {
    p.(destinationCallsign := p.destinationCallsign + Padded(f.destinationCallsign),
       destinationSSID := f.destinationSSID,
       command := f.command,
       sourceCallsign := p.sourceCallsign + Padded(f.sourceCallsign),
       sourceSSID := f.sourceSSID,
       repeaterPath := p.repeaterPath + PaddedPath(f.repeaterPath))
  }

  /** The destination SSID, the command bit and the source SSID come back from their octets. */
  lemma OctetsBack(f: Frame)
    requires AddressInRange(f)
    ensures SsidOf(DestinationOctet(f)) == f.destinationSSID
    ensures Shr(And(DestinationOctet(f), A_CRH), 7) == f.command
    ensures SsidOf(SourceOctet(f)) == f.sourceSSID
  {
    DestinationOctetValue(f);
    SsidField(DestinationOctet(f), 4 * f.command + 3, f.destinationSSID, 0);
    CommandField(DestinationOctet(f), f.command, 96 + 2 * f.destinationSSID);
    SourceOctetValue(f);
    SsidField(SourceOctet(f), 4 * (1 - f.command) + (if f.modulo128 then 0 else 2) + 1, f.sourceSSID,
              if |f.repeaterPath| == 0 then 1 else 0);
  }

  /** The address decode for bytes `w` laid out as encode lays out `f`. */
  lemma AddressBackOf(p: Frame, w: seq<nat>, f: Frame)
    requires AddressInRange(f) && AddressLaidOut(w, f)
    requires w[0..6] == CallsignSubfield(f.destinationCallsign) && w[6] == DestinationOctet(f)
    requires w[7..13] == CallsignSubfield(f.sourceCallsign) && w[13] == SourceOctet(f)
    ensures AddressEnd(w, 13) == Some(14 + 7 * |f.repeaterPath|)
    ensures DecodeAddress(p, w) == AddressDecoded(p, f)
  {
    PathBack(w, f);
    CallsignRoundTrip(f.destinationCallsign);
    CallsignRoundTrip(f.sourceCallsign);
    OctetsBack(f);
  }

  /** The repeater path read from slot 0 on is the whole path, padded. */
  lemma PathBack(w: seq<nat>, f: Frame)
    requires AddressInRange(f) && AddressLaidOut(w, f)
    ensures AddressEnd(w, 13) == Some(14 + 7 * |f.repeaterPath|)
    ensures DecodeRepeaters(w, 13) == PaddedPath(f.repeaterPath)
  {
    AddressEndFrom(w, f, 0);
    RepeatersBack(w, f, 0, 13);
    assert f.repeaterPath[0..] == f.repeaterPath;
  }

  /**
   * Decoding the address field encode wrote into a record `p`: the padded
   * callsigns and path are appended to `p`'s, the SSIDs and the command bit
   * come back, and the control byte follows the last repeater.
   */
  lemma AddressBack(p: Frame, f: Frame)
    requires AddressInRange(f)
    ensures AddressEnd(Wire(f), 13) == Some(14 + 7 * |f.repeaterPath|)
    ensures DecodeAddress(p, Wire(f)) == AddressDecoded(p, f)
  {
    WireSplit(f);
    WireLaidOut(f);
    AddressBackOf(p, Wire(f), f);
  }

  // ---------------------------------------------------------------------------
  // Control field
  // ---------------------------------------------------------------------------

  /** N(R), P/F, the N(S) bits and the class bits of a standard control byte `32 nr + 16 pf + low`. */
  lemma StandardFieldsBack(c: nat, nr: nat, pf: nat, low: nat)
    requires nr <= 7 && pf <= 1 && low < 16 && c == 32 * nr + 16 * pf + low
    ensures Shr(And(c, NR), 5) == nr
    ensures Shr(And(c, PF), 4) == pf
    ensures Shr(And(c, NS), 1) == low / 2
    ensures And(c, U_FRAME) == low % 4 && And(c, I_FRAME_MASK) == low % 2
    ensures low % 2 == 0 ==>
      And(c, U_FRAME) != U_FRAME && And(c, U_FRAME) != S_FRAME && And(c, I_FRAME_MASK) == I_FRAME
  {
    assert Pow2(1) == 2 && Pow2(3) == 8 && Pow2(4) == 16 && Pow2(5) == 32;
    FieldAt(c, 5, 3, NR, 32, 8, 0, nr, 16 * pf + low);
    FieldAt(c, 4, 1, PF, 16, 2, nr, pf, low);
    FieldAt(c, 1, 3, NS, 2, 8, 2 * nr + pf, low / 2, low % 2);
    DivUnique(c, 2, 16 * nr + 8 * pf + low / 2, low % 2);
    AndLowMask2(c);
    DivUnique(c, 4, 8 * nr + 4 * pf + low / 4, low % 4);
    AndOne(c);
  }

  /** In a standard I frame, decode recovers N(R), N(S), P, the PID and the information. */
  lemma IFrameBack(q: Frame, f: Frame)
    requires f.frameType == I_FRAME && f.pollFinal <= 1 && InSequenceRange(f) && f.pid != 0
    requires !f.modulo128 && !q.modulo128
    ensures |Tail(f)| >= 2 && ControlReadable(Tail(f)[0], |Tail(f)| - 1, q.modulo128)
    ensures DecodeControl(q, Tail(f)[0], Tail(f)[1..])
         == q.(frameType := I_FRAME, nr := f.nr, ns := f.ns, pollFinal := f.pollFinal, pid := f.pid, info := f.info)
  {
    var c := ControlOf(f);
    IControlFields(f);
    ControlByte(f, c);
    assert PidField(f) == [f.pid] && InfoField(f) == f.info;
    AfterFirst(c, [f.pid], f.info);
    var rest := [f.pid] + f.info;
    assert rest[0] == f.pid && rest[1..] == f.info;
    IControlDecoded(q, c, rest, f.nr, f.ns, f.pollFinal);
  }

  /** The masks of decode recover the fields of a standard I frame's control byte. */
  lemma IControlFields(f: Frame)
    requires f.frameType == I_FRAME && f.pollFinal <= 1 && InSequenceRange(f) && !f.modulo128
    ensures And(ControlOf(f), U_FRAME) != U_FRAME && And(ControlOf(f), U_FRAME) != S_FRAME
    ensures And(ControlOf(f), I_FRAME_MASK) == I_FRAME
    ensures Shr(And(ControlOf(f), NR), 5) == f.nr && Shr(And(ControlOf(f), NS), 1) == f.ns
    ensures Shr(And(ControlOf(f), PF), 4) == f.pollFinal
  {
    var c := ControlOf(f);
    IFrameControl(f);
    assert c == 32 * f.nr + 16 * f.pollFinal + 2 * f.ns;
    StandardFieldsBack(c, f.nr, f.pollFinal, 2 * f.ns);
    assert (2 * f.ns) / 2 == f.ns && (2 * f.ns) % 2 == 0;
  }

  /** What standard-mode decode makes of an I control byte followed by `rest`. */
  lemma IControlDecoded(q: Frame, c: nat, rest: seq<nat>, nr: nat, ns: nat, pf: nat)
    requires !q.modulo128 && |rest| >= 1
    requires And(c, U_FRAME) != U_FRAME && And(c, U_FRAME) != S_FRAME && And(c, I_FRAME_MASK) == I_FRAME
    requires Shr(And(c, NR), 5) == nr && Shr(And(c, NS), 1) == ns && Shr(And(c, PF), 4) == pf
    ensures ControlReadable(c, |rest|, q.modulo128)
    ensures DecodeControl(q, c, rest)
         == q.(frameType := I_FRAME, nr := nr, ns := ns, pollFinal := pf, pid := rest[0], info := rest[1..])
  {
  }

  /** `& S_FRAME_MASK` keeps a supervisory type below whatever sits above bit 3. */
  lemma SupervisoryMaskBack(c: nat, h: nat, t: nat)
    requires IsSupervisoryType(t) && c == 16 * h + t
    ensures And(c, S_FRAME_MASK) == t
  {
    assert Pow2(4) == 16;
    AndLowPartAt(c, h, t, 13, 16, 4);
    match t
    case 0x01 => assert And(1, 13) == 1;
    case 0x05 => assert And(5, 13) == 5;
    case 0x09 => assert And(9, 13) == 9;
    case 0x0D => assert And(13, 13) == 13;
    case _ => assert false;
  }

  /** In a standard S frame, decode recovers the type, N(R) and P/F. */
  lemma SFrameBack(q: Frame, f: Frame)
    requires IsSupervisoryType(f.frameType) && f.pollFinal <= 1 && InSequenceRange(f)
    requires !f.modulo128 && !q.modulo128
    ensures |Tail(f)| >= 1 && ControlReadable(Tail(f)[0], |Tail(f)| - 1, q.modulo128)
    ensures DecodeControl(q, Tail(f)[0], Tail(f)[1..])
         == q.(frameType := f.frameType, nr := f.nr, pollFinal := f.pollFinal)
  {
    var c, t := ControlOf(f), f.frameType;
    SFrameControl(f);
    SupervisoryTypeBits(t);
    AndLowMask2(t);
    StandardFieldsBack(c, f.nr, f.pollFinal, t);
    SupervisoryMaskBack(c, 2 * f.nr + f.pollFinal, t);
    assert Tail(f) == [c];
  }

  /** The U class bits, P/F at bit 4 and the type under `U_FRAME_MASK` of `c == t + 16 pf`. */
  lemma UnnumberedBack(t: nat, pf: nat, c: nat)
    requires t % 4 == 3 && t % 32 < 16 && t < 256 && pf <= 1 && c == t + 16 * pf
    ensures And(c, U_FRAME) == U_FRAME
    ensures Shr(And(c, PF), 4) == pf
    ensures And(c, U_FRAME_MASK) == t
  {
    DivFacts(t, 32);
    var hi, lo := t / 32, t % 32;
    DivFacts(lo, 4);
    var l2 := lo / 4;
    DivUnique(t, 4, 8 * hi + l2, lo % 4);
    UClassBits(c, 8 * hi + 4 * pf + l2);
    PollBitBack(c, hi, lo, pf);
    ClearPollBit(c, hi, lo, pf);
  }

  /** The two low bits of `c == 4 a + 3` are the U class bits. */
  lemma UClassBits(c: nat, a: nat)
    requires c == 4 * a + 3
    ensures And(c, U_FRAME) == U_FRAME
  {
    assert Pow2(2) == 4;
    AndLowPartAt(c, a, 3, 3, 4, 2);
    AndAllOnes(3, 2);
  }

  /** Bit 4 of `c == 32 hi + 16 pf + lo`, for `lo` below 16. */
  lemma PollBitBack(c: nat, hi: nat, lo: nat, pf: nat)
    requires lo < 16 && pf <= 1 && c == 32 * hi + 16 * pf + lo
    ensures Shr(And(c, PF), 4) == pf
  {
    assert Pow2(1) == 2 && Pow2(4) == 16;
    FieldAt(c, 4, 1, PF, 16, 2, hi, pf, lo);
  }

  /** `U_FRAME_MASK` clears bit 4 of a byte `c == 32 hi + 16 pf + lo` and keeps the rest. */
  lemma ClearPollBit(c: nat, hi: nat, lo: nat, pf: nat)
    requires hi < 8 && lo < 16 && pf <= 1 && c == 32 * hi + 16 * pf + lo
    ensures And(c, U_FRAME_MASK) == 32 * hi + lo
  {
    assert Pow2(3) == 8 && Pow2(4) == 16 && Pow2(5) == 32;
    AndSplitAt(c, U_FRAME_MASK, hi, 16 * pf + lo, 7, 15, 32, 5);
    AndLowPartAt(16 * pf + lo, pf, lo, 15, 16, 4);
    AndAllOnes(lo, 4);
    AndAllOnes(hi, 3);
  }

  /**
   * In a standard U frame, decode recovers the type and P/F; a UI frame's
   * PID and information and a TEST frame's non-empty information come back.
   */
  lemma UFrameBack(q: Frame, f: Frame)
    requires IsUnnumberedType(f.frameType) && f.pollFinal <= 1
    requires f.frameType == U_FRAME_UI ==> f.pid != 0
    requires !f.modulo128 && !q.modulo128
    ensures |Tail(f)| >= 1 && ControlReadable(Tail(f)[0], |Tail(f)| - 1, q.modulo128)
    ensures DecodeControl(q, Tail(f)[0], Tail(f)[1..]) == UDecoded(q, f)
  {
    UFrameControl(f);
    UnnumberedTypeBits(f.frameType);
    UControlBack(f);
    ControlByte(f, ControlOf(f));
    UFrameBackOf(q, f, ControlOf(f));
  }

  /** The U control byte of `f` read back through the masks decode applies. */
  lemma UControlBack(f: Frame)
    requires f.frameType % 4 == 3 && f.frameType % 32 < 16 && f.frameType < 256 && f.pollFinal <= 1
    requires ControlOf(f) == f.frameType + 16 * f.pollFinal
    ensures And(ControlOf(f), U_FRAME) == U_FRAME && And(ControlOf(f), U_FRAME_MASK) == f.frameType
    ensures Shr(And(ControlOf(f), PF), 4) == f.pollFinal
  {
    UnnumberedBack(f.frameType, f.pollFinal, ControlOf(f));
  }

  /**
   * What decode makes of a standard U frame `f` decoded into `q`: the type
   * and P/F, a UI frame's PID and information, a TEST frame's non-empty
   * information.
   */
  function UDecoded(q: Frame, f: Frame): Frame
  {
    var u := q.(pollFinal := f.pollFinal, frameType := f.frameType);
    if f.frameType == U_FRAME_UI then u.(pid := f.pid, info := f.info)
    else if f.frameType == U_FRAME_TEST && |f.info| > 0 then u.(info := f.info)
    else u
  }

  /** The standard-mode U-frame decode, stated over the control byte `c` alone. */
  lemma UFrameBackOf(q: Frame, f: Frame, c: nat)
    requires f.frameType != I_FRAME && Tail(f) == [c] + PidField(f) + InfoField(f)
    requires And(c, U_FRAME) == U_FRAME && And(c, U_FRAME_MASK) == f.frameType
    requires Shr(And(c, PF), 4) == f.pollFinal
    requires f.frameType == U_FRAME_UI ==> f.pid != 0
    requires !q.modulo128
    ensures |Tail(f)| >= 1 && ControlReadable(Tail(f)[0], |Tail(f)| - 1, q.modulo128)
    ensures DecodeControl(q, Tail(f)[0], Tail(f)[1..]) == UDecoded(q, f)
  {
    var tl := Tail(f);
    var rest := PidField(f) + InfoField(f);
    AfterFirst(c, PidField(f), InfoField(f));
    if f.frameType == U_FRAME_UI {
      assert rest == [f.pid] + f.info;
    }
    UControlDecoded(q, c, rest, f.frameType, f.pollFinal);
  }

  /** The bytes after the first of `[a] + y + z`. */
  lemma AfterFirst(a: nat, y: seq<nat>, z: seq<nat>)
    ensures ([a] + y + z)[1..] == y + z
  {
    assert [a] + y + z == [a] + (y + z);
  }

  /** The bytes after the first and the second of `[a, b] + y + z`. */
  lemma AfterSecond(a: nat, b: nat, y: seq<nat>, z: seq<nat>)
    ensures ([a, b] + y + z)[1..] == [b] + y + z
    ensures ([a, b] + y + z)[1..][1..] == y + z
  {
    assert [a, b] + y + z == [a] + ([b] + y + z);
    AfterFirst(b, y, z);
  }

  /** What decode makes of a U control byte of type `t` and P/F bit `pf` followed by `rest`. */
  lemma UControlDecoded(q: Frame, c: nat, rest: seq<nat>, t: nat, pf: nat)
    requires And(c, U_FRAME) == U_FRAME && And(c, U_FRAME_MASK) == t && Shr(And(c, PF), 4) == pf
    requires t == U_FRAME_UI ==> |rest| >= 1
    ensures ControlReadable(c, |rest|, q.modulo128)
    ensures DecodeControl(q, c, rest) ==
      var u := q.(pollFinal := pf, frameType := t);
      if t == U_FRAME_UI then u.(pid := rest[0], info := rest[1..])
      else if t == U_FRAME_TEST && |rest| > 0 then u.(info := rest)
      else u
  {
  }

  /** The control byte of a standard record. */
  lemma ControlByte(f: Frame, c: nat)
    requires !f.modulo128 && ControlOf(f) == c
    ensures Tail(f) == [c] + PidField(f) + InfoField(f)
  {
  }

  // ---------------------------------------------------------------------------
  // Modulo-128 control field
  // ---------------------------------------------------------------------------

  /**
   * A 16-bit control field `512 nr + 256 pf + low` is written as the bytes
   * `low` and `2 nr + pf`; read back through decode's masks, N(R) comes out
   * doubled (shifted by 8 where encode shifted by 9), N(S) from the low byte,
   * and P/F as zero (decode tests bit 4 where encode set bit 8).
   */
  lemma Modulo128FieldsBack(c: nat, nr: nat, pf: nat, low: nat, hi: nat)
    requires nr <= 127 && pf <= 1 && low < 256 && c == 512 * nr + 256 * pf + low && hi == 2 * nr + pf
    ensures And(c, 255) == low && Shr(c, 8) == hi
    ensures Or(low, Shl(hi, 8)) == c
    ensures Shr(And(c, NR_MODULO128), 8) == 2 * nr
    ensures Shr(And(c, NS_MODULO128), 1) == low / 2
    ensures Shr(And(c, PF), 7) == 0
  {
    assert Pow2(1) == 2 && Pow2(7) == 128 && Pow2(8) == 256;
    ByteSplit(c);
    DivUnique(c, 256, hi, low);
    Modulo128NrBack(c, nr, pf, low);
    FieldAt(c, 1, 7, NS_MODULO128, 2, 128, hi, low / 2, low % 2);
    AndAtMost(c, PF);
    DivUnique(And(c, PF), 128, 0, And(c, PF));
  }

  /** `(c & NR_MODULO128) >> 8` is twice the N(R) encode put at bit 9. */
  lemma Modulo128NrBack(c: nat, nr: nat, pf: nat, low: nat)
    requires nr <= 127 && pf <= 1 && low < 256 && c == 512 * nr + 256 * pf + low
    ensures Shr(And(c, NR_MODULO128), 8) == 2 * nr
  {
    assert Pow2(7) == 128 && Pow2(8) == 256 && Pow2(9) == 512;
    MaskFieldAt(c, 9, 7, NR_MODULO128, 512, 128, 0, nr, 256 * pf + low);
    DivUnique(nr * 512, 256, 2 * nr, 0);
  }

  /**
   * A modulo-128 I frame decodes with N(S), the PID and the information
   * intact, but N(R) doubled and P/F cleared.
   */
  lemma Modulo128IFrameBack(q: Frame, f: Frame)
    requires f.frameType == I_FRAME && f.pollFinal <= 1 && InSequenceRange(f) && f.pid != 0
    requires f.modulo128 && q.modulo128
    ensures |Tail(f)| >= 3 && ControlReadable(Tail(f)[0], |Tail(f)| - 1, q.modulo128)
    ensures DecodeControl(q, Tail(f)[0], Tail(f)[1..])
         == q.(frameType := I_FRAME, nr := 2 * f.nr, ns := f.ns, pollFinal := 0, pid := f.pid, info := f.info)
  {
    var lo, hi := 2 * f.ns, 2 * f.nr + f.pollFinal;
    Modulo128IControlFields(f, lo, hi);
    ControlBytes(f, lo, hi);
    assert PidField(f) == [f.pid] && InfoField(f) == f.info;
    AfterSecond(lo, hi, [f.pid], f.info);
    var rest := [hi] + [f.pid] + f.info;
    assert rest[0] == hi && rest[1] == f.pid && rest[2..] == f.info;
    Modulo128IControlDecoded(q, lo, hi, rest, 2 * f.nr, f.ns);
  }

  /** The two control bytes of a modulo-128 I frame, and what decode's masks make of them. */
  lemma Modulo128IControlFields(f: Frame, lo: nat, hi: nat)
    requires f.frameType == I_FRAME && f.pollFinal <= 1 && InSequenceRange(f) && f.modulo128
    requires lo == 2 * f.ns && hi == 2 * f.nr + f.pollFinal
    ensures And(ControlOf(f), 255) == lo && Shr(ControlOf(f), 8) == hi
    ensures And(lo, U_FRAME) != U_FRAME && And(lo, U_FRAME) != S_FRAME && And(lo, I_FRAME_MASK) == I_FRAME
    ensures Shr(And(Or(lo, Shl(hi, 8)), NR_MODULO128), 8) == 2 * f.nr
    ensures Shr(And(Or(lo, Shl(hi, 8)), NS_MODULO128), 1) == f.ns
    ensures Shr(And(Or(lo, Shl(hi, 8)), PF), 7) == 0
  {
    var c := ControlOf(f);
    IFrameControl(f);
    assert c == 512 * f.nr + 256 * f.pollFinal + lo;
    Modulo128FieldsBack(c, f.nr, f.pollFinal, lo, hi);
    assert lo / 2 == f.ns;
    AndLowMask2(lo);
    AndOne(lo);
  }

  /** What modulo-128 decode makes of an I control byte `lo` followed by `rest`. */
  lemma Modulo128IControlDecoded(q: Frame, lo: nat, hi: nat, rest: seq<nat>, nr: nat, ns: nat)
    requires q.modulo128 && |rest| >= 2 && rest[0] == hi
    requires And(lo, U_FRAME) != U_FRAME && And(lo, U_FRAME) != S_FRAME && And(lo, I_FRAME_MASK) == I_FRAME
    requires Shr(And(Or(lo, Shl(hi, 8)), NR_MODULO128), 8) == nr
    requires Shr(And(Or(lo, Shl(hi, 8)), NS_MODULO128), 1) == ns
    requires Shr(And(Or(lo, Shl(hi, 8)), PF), 7) == 0
    ensures ControlReadable(lo, |rest|, q.modulo128)
    ensures DecodeControl(q, lo, rest)
         == q.(frameType := I_FRAME, nr := nr, ns := ns, pollFinal := 0, pid := rest[1], info := rest[2..])
  {
  }

  /** A modulo-128 S frame decodes with its type, but N(R) doubled and P/F cleared. */
  lemma Modulo128SFrameBack(q: Frame, f: Frame)
    requires IsSupervisoryType(f.frameType) && f.pollFinal <= 1 && InSequenceRange(f)
    requires f.modulo128 && q.modulo128
    ensures |Tail(f)| >= 2 && ControlReadable(Tail(f)[0], |Tail(f)| - 1, q.modulo128)
    ensures DecodeControl(q, Tail(f)[0], Tail(f)[1..])
         == q.(frameType := f.frameType, nr := 2 * f.nr, pollFinal := 0)
  {
    var t, hi := f.frameType, 2 * f.nr + f.pollFinal;
    Modulo128SControlFields(f, t, hi);
    ControlBytes(f, t, hi);
    AfterSecond(t, hi, PidField(f), InfoField(f));
    var rest := [hi] + PidField(f) + InfoField(f);
    assert rest[0] == hi;
    Modulo128SControlDecoded(q, t, hi, rest, 2 * f.nr);
  }

  /** The two control bytes of a modulo-128 S frame, and what decode's masks make of them. */
  lemma Modulo128SControlFields(f: Frame, t: nat, hi: nat)
    requires IsSupervisoryType(f.frameType) && f.pollFinal <= 1 && InSequenceRange(f) && f.modulo128
    requires t == f.frameType && hi == 2 * f.nr + f.pollFinal
    ensures And(ControlOf(f), 255) == t && Shr(ControlOf(f), 8) == hi
    ensures And(t, U_FRAME) == S_FRAME && And(t, S_FRAME_MASK) == t
    ensures Shr(And(Or(t, Shl(hi, 8)), NR_MODULO128), 8) == 2 * f.nr
    ensures Shr(And(Or(t, Shl(hi, 8)), PF), 7) == 0
  {
    var c := ControlOf(f);
    SFrameControl(f);
    assert c == 512 * f.nr + 256 * f.pollFinal + t;
    SupervisoryTypeBits(t);
    Modulo128FieldsBack(c, f.nr, f.pollFinal, t, hi);
    AndLowMask2(t);
    SupervisoryMaskBack(t, 0, t);
  }

  /** The two control bytes of a modulo-128 record. */
  lemma ControlBytes(f: Frame, lo: nat, hi: nat)
    requires f.modulo128 && And(ControlOf(f), 255) == lo && Shr(ControlOf(f), 8) == hi
    ensures Tail(f) == [lo, hi] + PidField(f) + InfoField(f)
  {
  }

  /** What modulo-128 decode makes of an S control byte `lo` followed by `rest`. */
  lemma Modulo128SControlDecoded(q: Frame, lo: nat, hi: nat, rest: seq<nat>, nr: nat)
    requires q.modulo128 && |rest| >= 1 && rest[0] == hi && And(lo, U_FRAME) == S_FRAME
    requires Shr(And(Or(lo, Shl(hi, 8)), NR_MODULO128), 8) == nr
    requires Shr(And(Or(lo, Shl(hi, 8)), PF), 7) == 0
    ensures ControlReadable(lo, |rest|, q.modulo128)
    ensures DecodeControl(q, lo, rest) == q.(frameType := And(lo, S_FRAME_MASK), nr := nr, pollFinal := 0)
  {
  }

  /**
   * What decode makes of a modulo-128 U frame `f` decoded into `q`: encode
   * wrote the control field as two bytes, decode reads one, so P/F comes out
   * zero and the high control byte (P/F) is taken for the PID of a UI frame
   * and for the first information byte of a TEST frame.
   */
  function Modulo128UDecoded(q: Frame, f: Frame): Frame
  {
    var u := q.(pollFinal := 0, frameType := f.frameType);
    if f.frameType == U_FRAME_UI then u.(pid := f.pollFinal, info := PidField(f) + InfoField(f))
    else if f.frameType == U_FRAME_TEST then u.(info := [f.pollFinal] + InfoField(f))
    else u
  }

  /** Decoding a modulo-128 U frame: see `Modulo128UDecoded`. */
  lemma Modulo128UFrameBack(q: Frame, f: Frame)
    requires IsUnnumberedType(f.frameType) && f.pollFinal <= 1
    requires f.modulo128 && q.modulo128
    ensures |Tail(f)| >= 2 && ControlReadable(Tail(f)[0], |Tail(f)| - 1, q.modulo128)
    ensures DecodeControl(q, Tail(f)[0], Tail(f)[1..]) == Modulo128UDecoded(q, f)
  {
    UFrameControl(f);
    UnnumberedTypeBits(f.frameType);
    Modulo128UControlBack(f);
    ControlBytes(f, f.frameType, f.pollFinal);
    Modulo128UFrameBackOf(q, f);
  }

  /** The two bytes of a modulo-128 U control field read back through decode's masks. */
  lemma Modulo128UControlBack(f: Frame)
    requires f.frameType % 4 == 3 && f.frameType % 32 < 16 && f.frameType < 256 && f.pollFinal <= 1
    requires ControlOf(f) == f.frameType + 256 * f.pollFinal
    ensures And(ControlOf(f), 255) == f.frameType && Shr(ControlOf(f), 8) == f.pollFinal
    ensures And(f.frameType, U_FRAME) == U_FRAME && And(f.frameType, U_FRAME_MASK) == f.frameType
    ensures Shr(And(f.frameType, PF), 4) == 0
  {
    var c := ControlOf(f);
    assert Pow2(8) == 256;
    ByteSplit(c);
    DivUnique(c, 256, f.pollFinal, f.frameType);
    UnnumberedBack(f.frameType, 0, f.frameType);
  }

  /** The modulo-128 U-frame decode, stated over the two control bytes alone. */
  lemma Modulo128UFrameBackOf(q: Frame, f: Frame)
    requires f.frameType != I_FRAME && q.modulo128
    requires Tail(f) == [f.frameType, f.pollFinal] + PidField(f) + InfoField(f)
    requires And(f.frameType, U_FRAME) == U_FRAME && And(f.frameType, U_FRAME_MASK) == f.frameType
    requires Shr(And(f.frameType, PF), 4) == 0
    ensures |Tail(f)| >= 2 && ControlReadable(Tail(f)[0], |Tail(f)| - 1, q.modulo128)
    ensures DecodeControl(q, Tail(f)[0], Tail(f)[1..]) == Modulo128UDecoded(q, f)
  {
    var tl := Tail(f);
    var rest := [f.pollFinal] + PidField(f) + InfoField(f);
    AfterSecond(f.frameType, f.pollFinal, PidField(f), InfoField(f));
    UControlDecoded(q, f.frameType, rest, f.frameType, 0);
  }

  // ---------------------------------------------------------------------------
  // Whole frames
  // ---------------------------------------------------------------------------

  /**
   * Decoding the wire bytes of `f` into `p`: the address part of
   * `AddressDecoded`, then the control byte and the bytes after it.
   */
  lemma DecodeOfWire(p: Frame, f: Frame)
    requires AddressInRange(f) && |Tail(f)| >= 1
    requires ControlReadable(Tail(f)[0], |Tail(f)| - 1, p.modulo128)
    ensures Decodable(Wire(f), p.modulo128)
    ensures DecodeFrame(p, Wire(f)) == Success(DecodeControl(AddressDecoded(p, f), Tail(f)[0], Tail(f)[1..]))
  {
    var w, c := Wire(f), 14 + 7 * |f.repeaterPath|;
    AddressBack(p, f);
    WireSplit(f);
    TailAt(w, c, Tail(f));
    DecodeFrameAt(p, w, c, AddressDecoded(p, f), Tail(f));
  }

  /** The bytes from `c` on are `tl`: the byte at `c` is its head, and the rest its tail. */
  lemma TailAt(w: seq<nat>, c: nat, tl: seq<nat>)
    requires c <= |w| && w[c..] == tl && |tl| >= 1
    ensures c < |w| && w[c] == tl[0] && w[c + 1..] == tl[1..]
  {
    assert w[c + 1..] == w[c..][1..];
  }

  /** Decode of any byte sequence whose address ends at `c` and is followed by `tl`. */
  lemma DecodeFrameAt(p: Frame, w: seq<nat>, c: nat, a: Frame, tl: seq<nat>)
    requires |w| >= 15 && AddressEnd(w, 13) == Some(c) && c < |w| && |tl| >= 1
    requires w[c] == tl[0] && w[c + 1..] == tl[1..] && DecodeAddress(p, w) == a
    requires ControlReadable(tl[0], |tl| - 1, p.modulo128)
    ensures Decodable(w, p.modulo128)
    ensures DecodeFrame(p, w) == Success(DecodeControl(a, tl[0], tl[1..]))
  {
    assert |w| - c - 1 == |tl| - 1;
  }

  /**
   * The fields that a frame's class carries on the wire, and nothing else,
   * differ from a fresh packet's: an I frame has a PID and information; an
   * S frame has no N(S), PID or information; a U frame has no sequence
   * numbers, and a PID only when it is UI, information only when UI or TEST.
   */
  predicate CarriedByClass(f: Frame)
  {
    if f.frameType == I_FRAME then f.pid != 0 && |f.info| > 0
    else if IsSupervisoryType(f.frameType) then f.ns == 0 && f.pid == PID_NONE && f.info == []
    else
      && IsUnnumberedType(f.frameType) && f.nr == 0 && f.ns == 0
      && if f.frameType == U_FRAME_UI then f.pid != 0
         else f.pid == PID_NONE && (f.frameType == U_FRAME_TEST || f.info == [])
  }

  /**
   * A standard-mode record that encode can write and decode can read back
   * unchanged: six-character callsigns, fields in range, not yet sent, and
   * only what its frame class carries.
   */
  predicate Lossless(f: Frame)
  {
    && |f.destinationCallsign| == 6 && |f.sourceCallsign| == 6
    && (forall r :: 0 <= r < |f.repeaterPath| ==> |f.repeaterPath[r].callsign| == 6)
    && AddressInRange(f) && f.pollFinal <= 1 && InSequenceRange(f)
    && !f.sent && !f.modulo128 && CarriedByClass(f)
  }

  /** Decoding the address of a lossless record into a fresh packet's: everything but the control part. */
  lemma FreshAddressDecoded(f: Frame)
    requires Lossless(f)
    ensures AddressDecoded(DefaultFrame, f)
         == f.(frameType := I_FRAME, nr := 0, ns := 0, pollFinal := 0, pid := PID_NONE, info := [])
  {
    var d, s := f.destinationCallsign, f.sourceCallsign;
    assert d[..6] == d && s[..6] == s;
    var path := f.repeaterPath;
    forall r | 0 <= r < |path|
      ensures PaddedPath(path)[r] == path[r]
    {
      assert path[r].callsign[..6] == path[r].callsign;
    }
    assert PaddedPath(path) == path;
    assert [] + Padded(d) == d && [] + Padded(s) == s && [] + PaddedPath(path) == path;
  }

  /**
   * The round trip of the example program, for every standard-mode record
   * whose fields fit: encode accepts it, decode can read what it wrote,
   * and decoding into a fresh packet gives the record back.
   */
  lemma StandardRoundTrip(f: Frame)
    requires Lossless(f)
    ensures EncodeFrame(f) == Success(Wire(f))
    ensures Decodable(Wire(f), false)
    ensures DecodeFrame(DefaultFrame, Wire(f)) == Success(f)
  {
    var q := AddressDecoded(DefaultFrame, f);
    FreshAddressDecoded(f);
    if f.frameType == I_FRAME {
      IFrameBack(q, f);
    } else if IsSupervisoryType(f.frameType) {
      SFrameBack(q, f);
    } else {
      UFrameBack(q, f);
    }
    DecodeOfWire(DefaultFrame, f);
  }

  /**
   * In modulo-128 mode the round trip of an I frame loses: N(R) comes back
   * doubled and P/F cleared, so any frame with N(R) > 0 or P set differs.
   */
  lemma Modulo128IFrameRoundTrip(f: Frame)
    requires f.frameType == I_FRAME && f.pollFinal <= 1 && InSequenceRange(f) && f.pid != 0
    requires f.modulo128 && AddressInRange(f)
    ensures Decodable(Wire(f), true)
    ensures DecodeFrame(DefaultFrame.(modulo128 := true), Wire(f)).value.nr == 2 * f.nr
    ensures DecodeFrame(DefaultFrame.(modulo128 := true), Wire(f)).value.pollFinal == 0
    ensures DecodeFrame(DefaultFrame.(modulo128 := true), Wire(f)).value.ns == f.ns
    ensures f.nr > 0 || f.pollFinal == 1 ==> DecodeFrame(DefaultFrame.(modulo128 := true), Wire(f)) != Success(f)
  {
    var p := DefaultFrame.(modulo128 := true);
    Modulo128IFrameBack(AddressDecoded(p, f), f);
    DecodeOfWire(p, f);
  }

  /**
   * In modulo-128 mode an S frame comes back with N(R) doubled and P/F
   * cleared, so any frame with N(R) > 0 or P/F set differs.
   */
  lemma Modulo128SFrameRoundTrip(f: Frame)
    requires IsSupervisoryType(f.frameType) && f.pollFinal <= 1 && InSequenceRange(f)
    requires f.modulo128 && AddressInRange(f)
    ensures Decodable(Wire(f), true)
    ensures DecodeFrame(DefaultFrame.(modulo128 := true), Wire(f)).value.nr == 2 * f.nr
    ensures DecodeFrame(DefaultFrame.(modulo128 := true), Wire(f)).value.pollFinal == 0
    ensures f.nr > 0 || f.pollFinal == 1 ==> DecodeFrame(DefaultFrame.(modulo128 := true), Wire(f)) != Success(f)
  {
    var p := DefaultFrame.(modulo128 := true);
    Modulo128SFrameBack(AddressDecoded(p, f), f);
    DecodeOfWire(p, f);
  }

  /**
   * In modulo-128 mode a UI frame is read back with its second control byte
   * (the P/F bit) taken as the PID and its PID taken as the first byte of the
   * information, so a UI frame whose PID is not its P/F bit differs.
   */
  lemma Modulo128UIFrameRoundTrip(f: Frame)
    requires f.frameType == U_FRAME_UI && f.pollFinal <= 1
    requires f.modulo128 && AddressInRange(f)
    ensures Decodable(Wire(f), true)
    ensures DecodeFrame(DefaultFrame.(modulo128 := true), Wire(f)).value.pid == f.pollFinal
    ensures DecodeFrame(DefaultFrame.(modulo128 := true), Wire(f)).value.info == PidField(f) + f.info
    ensures DecodeFrame(DefaultFrame.(modulo128 := true), Wire(f)).value.pollFinal == 0
    ensures f.pid != f.pollFinal ==> DecodeFrame(DefaultFrame.(modulo128 := true), Wire(f)) != Success(f)
  {
    var p := DefaultFrame.(modulo128 := true);
    Modulo128UFrameBack(AddressDecoded(p, f), f);
    DecodeOfWire(p, f);
  }
}
