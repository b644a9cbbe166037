/**
 * The frame record of `src/lib/ax.25.ts` (`AX25Frame`, `RepeaterPath`) and
 * the pure description of what the codec computes from it: the derived
 * control field, the wire bytes `encode` produces, and the record `decode`
 * produces from wire bytes. The class in AX25Packet runs these steps
 * imperatively and is proved to agree with them.
 */
module AX25Frame {
  import opened Wrappers
  import opened Bits
  import opened Utils
  import opened AX25Defs

  /** One entry of the digipeater path. */
  datatype Repeater = Repeater(callsign: JsString, ssid: nat)

  /**
   * AX25Frame. Every numeric field is a JavaScript number holding a
   * non-negative integer; `frameType` is the source's `type`.
   */
  datatype Frame = Frame(
    destinationCallsign: JsString,
    destinationSSID: nat,
    sourceCallsign: JsString,
    sourceSSID: nat,
    repeaterPath: seq<Repeater>,
    pollFinal: nat,
    command: nat,
    frameType: nat,
    nr: nat,
    ns: nat,
    pid: nat,
    info: seq<nat>,
    sent: bool,
    modulo128: bool)

  /** The record a packet gets when it is constructed without one. */
  const DefaultFrame: Frame :=
    Frame([], 0, [], 0, [], 0, 0, I_FRAME, 0, 0, PID_NONE, [], false, false)

  datatype EncodeError = DestinationNotSet | SourceNotSet | NoPayload

  datatype DecodeError = BelowMinimumLength

  // ---------------------------------------------------------------------------
  // Control field
  // ---------------------------------------------------------------------------

  /**
   * The control getter: `type`, then N(R), N(S) and poll/final OR-ed in by
   * frame class. The fields land above the class bits, so an I frame's value
   * keeps bit 0 clear and any other type's value keeps the type's two low bits.
   */
  function ControlOf(f: Frame): (c: nat)
    ensures f.frameType == I_FRAME ==> c % 2 == 0
    ensures f.frameType != I_FRAME ==> c % 4 == f.frameType % 4
  {
    var numbered := f.frameType == I_FRAME || And(f.frameType, U_FRAME) == S_FRAME;
    var nrShift := if f.modulo128 then 9 else 5;
    var pfShift := if f.modulo128 then 8 else 4;
    ShlLowBits(f.nr, nrShift);
    ShlLowBits(f.ns, 1);
    ShlLowBits(f.pollFinal, pfShift);
    var c1 := if numbered then Or(f.frameType, Shl(f.nr, nrShift)) else f.frameType;
    OrKeepsLow2(f.frameType, Shl(f.nr, nrShift));
    var c2 := if f.frameType == I_FRAME then Or(c1, Shl(f.ns, 1)) else c1;
    OrBit0(c1, Shl(f.ns, 1));
    OrKeepsLow2(c2, Shl(f.pollFinal, pfShift));
    if f.pollFinal == 1 then Or(c2, Shl(f.pollFinal, pfShift)) else c2
  }

  // ---------------------------------------------------------------------------
  // Encoder
  // ---------------------------------------------------------------------------

  /** The code `encode` writes for slot `c` of a callsign: its code unit, or a blank past the end. */
  function SlotCode(callsign: JsString, c: nat): nat
  {
    if |callsign| - 1 >= c then callsign[c] else 32
  }

  /** Six bytes: each slot's code shifted left by one. */
  function CallsignSubfield(callsign: JsString): (b: seq<nat>)
    ensures |b| == 6
  {
    seq(6, c requires 0 <= c < 6 => Shl(SlotCode(callsign, c), 1))
  }

  /** The destination SSID octet: the command bit, both reserved bits set, the SSID, extension bit clear. */
  function DestinationOctet(f: Frame): (o: nat)
    ensures o % 2 == 0
  {
    ShlLowBits(f.command, 7);
    ShlLowBits(3, 5);
    ShlLowBits(f.destinationSSID, 1);
    OrBit0(Shl(f.command, 7), Shl(3, 5));
    OrBit0(Or(Shl(f.command, 7), Shl(3, 5)), Shl(f.destinationSSID, 1));
    Or(Or(Shl(f.command, 7), Shl(3, 5)), Shl(f.destinationSSID, 1))
  }

  /** The source SSID octet: the inverted command bit, the reserved bits, the SSID and the end-of-address bit. */
  function SourceOctet(f: Frame): (o: nat)
    ensures o % 2 == if |f.repeaterPath| == 0 then 1 else 0
  {
    var s1, s2, s3, s4 := Shl(Xor(f.command, 1), 7), Shl(if f.modulo128 then 0 else 1, 6), Shl(1, 5), Shl(f.sourceSSID, 1);
    ShlLowBits(Xor(f.command, 1), 7);
    ShlLowBits(if f.modulo128 then 0 else 1, 6);
    ShlLowBits(1, 5);
    ShlLowBits(f.sourceSSID, 1);
    OrBit0(s1, s2);
    OrBit0(Or(s1, s2), s3);
    OrBit0(Or(Or(s1, s2), s3), s4);
    OrBit0(Or(Or(Or(s1, s2), s3), s4), if |f.repeaterPath| < 1 then 1 else 0);
    Or(Or(Or(Or(s1, s2), s3), s4), if |f.repeaterPath| < 1 then 1 else 0)
  }

  /** The SSID octet of repeater `r`; bit 0 marks the last one. */
  function RepeaterOctet(path: seq<Repeater>, r: nat): (o: nat)
    requires r < |path|
    ensures o % 2 == if r == |path| - 1 then 1 else 0
  {
    ShlLowBits(path[r].ssid, 1);
    OrBit0(Shl(path[r].ssid, 1), if r == |path| - 1 then 1 else 0);
    Or(Shl(path[r].ssid, 1), if r == |path| - 1 then 1 else 0)
  }

  /** The subfields of the first `n` repeaters. */
  function RepeaterSubfields(path: seq<Repeater>, n: nat): (b: seq<nat>)
    requires n <= |path|
    ensures |b| == 7 * n
  {
    if n == 0 then []
    else RepeaterSubfields(path, n - 1) + CallsignSubfield(path[n - 1].callsign) + [RepeaterOctet(path, n - 1)]
  }

  /**
   * One control byte, unmasked; or, in modulo-128 mode, a low byte and the
   * rest, which OR back together into the control value.
   */
  function ControlField(f: Frame): (b: seq<nat>)
    ensures |b| == if f.modulo128 then 2 else 1
    ensures !f.modulo128 ==> b[0] == ControlOf(f)
    ensures f.modulo128 ==> b[0] < 256 && Or(b[0], Shl(b[1], 8)) == ControlOf(f)
  {
    var c := ControlOf(f);
    ByteSplit(c);
    if !f.modulo128 then [c] else [And(c, 255), Shr(c, 8)]
  }

  /** The PID byte is written when it is non-zero and the frame is I or UI. */
  predicate HasPid(f: Frame)
  {
    f.pid != 0 && (f.frameType == I_FRAME || f.frameType == U_FRAME_UI)
  }

  /** The information bytes are written when there are some and the frame is I, UI or TEST. */
  predicate HasInfo(f: Frame)
  {
    |f.info| > 0 && (f.frameType == I_FRAME || f.frameType == U_FRAME_UI || f.frameType == U_FRAME_TEST)
  }

  /** Destination, source and repeater subfields, seven bytes each. */
  function AddressField(f: Frame): (b: seq<nat>)
    ensures |b| == 14 + 7 * |f.repeaterPath|
  {
    CallsignSubfield(f.destinationCallsign) + [DestinationOctet(f)]
    + CallsignSubfield(f.sourceCallsign) + [SourceOctet(f)]
    + RepeaterSubfields(f.repeaterPath, |f.repeaterPath|)
  }

  /** The PID byte, when the frame has one. */
  function PidField(f: Frame): seq<nat>
  {
    if HasPid(f) then [f.pid] else []
  }

  /** The information bytes, when the frame class carries them. */
  function InfoField(f: Frame): seq<nat>
  {
    if HasInfo(f) then f.info else []
  }

  /** The bytes `encode` pushes once its checks have passed. */
  function Wire(f: Frame): (b: seq<nat>)
    ensures |b| == 14 + 7 * |f.repeaterPath| + (if f.modulo128 then 2 else 1)
                   + (if HasPid(f) then 1 else 0) + (if HasInfo(f) then |f.info| else 0)
  {
    AddressField(f) + ControlField(f) + PidField(f) + InfoField(f)
  }

  /**
   * encode: fails exactly when a callsign is empty or an I frame has no
   * information, naming the first check that failed; otherwise the wire bytes.
   */
  function EncodeFrame(f: Frame): (r: Result<seq<nat>, EncodeError>)
    ensures r.Failure? <==>
      |f.destinationCallsign| == 0 || |f.sourceCallsign| == 0 || (f.frameType == I_FRAME && |f.info| == 0)
    ensures r.Failure? ==> (r.error == DestinationNotSet <==> |f.destinationCallsign| == 0)
    ensures r.Failure? ==>
      (r.error == SourceNotSet <==> |f.destinationCallsign| > 0 && |f.sourceCallsign| == 0)
    ensures r.Failure? ==>
      (r.error == NoPayload <==> |f.destinationCallsign| > 0 && |f.sourceCallsign| > 0
                                 && f.frameType == I_FRAME && |f.info| == 0)
    ensures r.Success? ==> r.value == Wire(f) && |r.value| >= 15
  {
    if |f.destinationCallsign| == 0 then Failure(DestinationNotSet)
    else if |f.sourceCallsign| == 0 then Failure(SourceNotSet)
    else if f.frameType == I_FRAME && |f.info| < 1 then Failure(NoPayload)
    else Success(Wire(f))
  }

  // ---------------------------------------------------------------------------
  // Decoder
  // ---------------------------------------------------------------------------

  /** The characters `decode` appends for callsign bytes: each byte shifted right by one. */
  function DecodeCallsign(bytes: seq<nat>): (s: JsString)
    ensures |s| == |bytes|
    ensures forall i :: 0 <= i < |bytes| ==> s[i] == FromCharCode(Shr(bytes[i], 1))
  {
    if bytes == [] then []
    else DecodeCallsign(bytes[..|bytes| - 1]) + [FromCharCode(Shr(bytes[|bytes| - 1], 1))]
  }

  /** `(octet & A_SSID) >> 1`: a four-bit SSID. */
  function SsidOf(octet: nat): (ssid: nat)
    ensures ssid <= 15
  {
    AndAtMost(octet, A_SSID);
    assert Pow2(1) == 2;
    ShrAtMost(And(octet, A_SSID), 1, 15);
    Shr(And(octet, A_SSID), 1)
  }

  /**
   * Where the address field ends, scanning the SSID octets at `octet`,
   * `octet + 7`, ... for one with bit 0 set; None when the bytes run out first.
   */
  function AddressEnd(frame: seq<nat>, octet: nat): (e: Option<nat>)
    requires octet < |frame|
    ensures e.Some? ==> octet < e.value <= |frame| && (e.value - 1 - octet) % 7 == 0
    ensures e.Some? ==> And(frame[e.value - 1], 1) != 0
    decreases |frame| - octet
  {
    if And(frame[octet], 1) != 0 then Some(octet + 1)
    else if octet + 7 < |frame| then AddressEnd(frame, octet + 7)
    else None
  }

  /**
   * The repeaters read while the current SSID octet has bit 0 clear: one per
   * seven bytes before the octet that ends the address field.
   */
  function DecodeRepeaters(frame: seq<nat>, octet: nat): (rs: seq<Repeater>)
    requires octet < |frame| && AddressEnd(frame, octet).Some?
    ensures 7 * |rs| == AddressEnd(frame, octet).value - 1 - octet
    decreases |frame| - octet
  {
    if And(frame[octet], 1) != 0 then []
    else [Repeater(DecodeCallsign(frame[octet + 1..octet + 7]), SsidOf(frame[octet + 7]))]
         + DecodeRepeaters(frame, octet + 7)
  }

  /** Every repeater read has a six-character callsign and a four-bit SSID. */
  lemma {:induction false} DecodedRepeatersShape(frame: seq<nat>, octet: nat)
    requires octet < |frame| && AddressEnd(frame, octet).Some?
    ensures forall i :: 0 <= i < |DecodeRepeaters(frame, octet)| ==>
      |DecodeRepeaters(frame, octet)[i].callsign| == 6 && DecodeRepeaters(frame, octet)[i].ssid <= 15
    decreases |frame| - octet
  {
    if And(frame[octet], 1) == 0 {
      DecodedRepeatersShape(frame, octet + 7);
    }
  }

  /** Whether the bytes after a control byte hold everything `decode` goes on to read. */
  predicate ControlReadable(control: nat, rest: nat, modulo128: bool)
  {
    if And(control, U_FRAME) == U_FRAME then
      And(control, U_FRAME_MASK) == U_FRAME_UI ==> rest >= 1
    else if And(control, U_FRAME) == S_FRAME then
      modulo128 ==> rest >= 1
    else
      rest >= if modulo128 then 2 else 1
  }

  /**
   * The input `decode` can handle: too short to be a frame, or holding every
   * byte it reads (an address field that ends, a control byte, and what the
   * control byte calls for).
   */
  predicate Decodable(frame: seq<nat>, modulo128: bool)
  {
    |frame| < 15 ||
    match AddressEnd(frame, 13)
    case None => false
    case Some(c) => c < |frame| && ControlReadable(frame[c], |frame| - c - 1, modulo128)
  }

  /** The control-field bytes are U (low bits 11), S (01) or I (bit 0 clear): nothing else. */
  lemma ControlClassification(control: nat)
    ensures And(control, U_FRAME) == U_FRAME || And(control, U_FRAME) == S_FRAME
         || And(control, I_FRAME_MASK) == I_FRAME
  {
    AndLowMask2(control);
    AndOne(control);
  }

  /** `x & 3` is `x mod 4`. */
  lemma AndLowMask2(x: nat)
    ensures And(x, 3) == x % 4
  {
    assert 3 == Pow2(2) - 1;
    AndLowPartAt(x, x / 4, x % 4, 3, 4, 2);
    AndAllOnes(x % 4, 2);
  }

  /**
   * The fields `decode` sets from the control byte and the bytes after it.
   * The address fields, `sent` and `modulo128` are left alone; the type is
   * I exactly for an even control byte and keeps the class bits otherwise;
   * P/F comes back as one bit, and standard-mode sequence numbers as three.
   */
  function DecodeControl(q: Frame, control: nat, rest: seq<nat>): (r: Frame)
    requires ControlReadable(control, |rest|, q.modulo128)
    ensures r.destinationCallsign == q.destinationCallsign && r.destinationSSID == q.destinationSSID
    ensures r.sourceCallsign == q.sourceCallsign && r.sourceSSID == q.sourceSSID
    ensures r.repeaterPath == q.repeaterPath && r.command == q.command
    ensures r.sent == q.sent && r.modulo128 == q.modulo128
    ensures control % 2 == 0 <==> r.frameType == I_FRAME
    ensures control % 2 == 1 ==> r.frameType % 2 == 1
    ensures control % 4 == 3 ==> r.frameType % 4 == 3
    ensures r.pollFinal <= 1
    ensures !q.modulo128 && control % 4 != 3 ==> r.nr <= 7
    ensures !q.modulo128 && control % 2 == 0 ==> r.ns <= 7
  {
    ClassBits(control);
    PollBits(control);
    SequenceBits(control);
    ControlClassification(control);
    if And(control, U_FRAME) == U_FRAME then
      var t := And(control, U_FRAME_MASK);
      var u := q.(pollFinal := Shr(And(control, PF), 4), frameType := t);
      if t == U_FRAME_UI then u.(pid := rest[0], info := rest[1..])
      else if t == U_FRAME_XID && |rest| > 0 then u  // XID parameters are not parsed
      else if t == U_FRAME_TEST && |rest| > 0 then u.(info := rest)
      else u
    else if And(control, U_FRAME) == S_FRAME then
      var s := q.(frameType := And(control, S_FRAME_MASK));
      if q.modulo128 then
        var c := Or(control, Shl(rest[0], 8));
        PollBits(c);
        s.(nr := Shr(And(c, NR_MODULO128), 8), pollFinal := Shr(And(c, PF), 7))
      else
        s.(nr := Shr(And(control, NR), 5), pollFinal := Shr(And(control, PF), 4))
    else if And(control, I_FRAME_MASK) == I_FRAME then
      var i := q.(frameType := I_FRAME);
      if q.modulo128 then
        var c := Or(control, Shl(rest[0], 8));
        PollBits(c);
        i.(nr := Shr(And(c, NR_MODULO128), 8), ns := Shr(And(c, NS_MODULO128), 1),
           pollFinal := Shr(And(c, PF), 7), pid := rest[1], info := rest[2..])
      else
        i.(nr := Shr(And(control, NR), 5), ns := Shr(And(control, NS), 1),
           pollFinal := Shr(And(control, PF), 4), pid := rest[0], info := rest[1..])
    else
      assert false;
      q
  }

  /** The class bits of a control byte, and what the U and S type masks keep of them. */
  lemma ClassBits(control: nat)
    ensures And(control, U_FRAME) == control % 4 && And(control, I_FRAME_MASK) == control % 2
    ensures And(control, U_FRAME_MASK) % 4 == control % 4
    ensures control % 2 == 1 ==> And(control, S_FRAME_MASK) % 2 == 1
  {
    AndLowMask2(control);
    AndOne(control);
    AndLow2(control, U_FRAME_MASK);
    AndAllOnes(control % 4, 2);
    AndUnfold(control, S_FRAME_MASK);
  }

  /** `(x & PF) >> 4` is one bit, and `(x & PF) >> 7` is always 0. */
  lemma PollBits(x: nat)
    ensures Shr(And(x, PF), 4) <= 1 && Shr(And(x, PF), 7) == 0
  {
    assert Pow2(4) == 16 && Pow2(7) == 128;
    AndAtMost(x, PF);
    ShrAtMost(And(x, PF), 4, 1);
    ShrAtMost(And(x, PF), 7, 0);
  }

  /** The standard-mode N(R) and N(S) masks yield three bits each. */
  lemma SequenceBits(x: nat)
    ensures Shr(And(x, NR), 5) <= 7 && Shr(And(x, NS), 1) <= 7
  {
    assert Pow2(1) == 2 && Pow2(5) == 32;
    AndAtMost(x, NR);
    ShrAtMost(And(x, NR), 5, 7);
    AndAtMost(x, NS);
    ShrAtMost(And(x, NS), 1, 7);
  }

  /**
   * decode into a record `p`: the address fields are appended to what `p`
   * already holds, the control byte picks the remaining fields, and `sent`
   * and `modulo128` are left alone.
   */
  function DecodeFrame(p: Frame, frame: seq<nat>): (r: Result<Frame, DecodeError>)
    requires Decodable(frame, p.modulo128)
    ensures r.Failure? <==> |frame| < 15
    ensures r.Success? ==>
      && r.value.sent == p.sent && r.value.modulo128 == p.modulo128
      && |r.value.destinationCallsign| == |p.destinationCallsign| + 6
      && r.value.destinationCallsign[..|p.destinationCallsign|] == p.destinationCallsign
      && |r.value.sourceCallsign| == |p.sourceCallsign| + 6
      && r.value.sourceCallsign[..|p.sourceCallsign|] == p.sourceCallsign
      && |r.value.repeaterPath| >= |p.repeaterPath|
      && r.value.repeaterPath[..|p.repeaterPath|] == p.repeaterPath
  {
    if |frame| < 15 then Failure(BelowMinimumLength)
    else
      var c := AddressEnd(frame, 13).value;
      Success(DecodeControl(DecodeAddress(p, frame), frame[c], frame[c + 1..]))
  }

  /**
   * The address part of decode: both callsigns and the repeater path are
   * appended to `p`'s, the SSIDs and the command bit are overwritten.
   */
  function DecodeAddress(p: Frame, frame: seq<nat>): (r: Frame)
    requires |frame| >= 14 && AddressEnd(frame, 13).Some?
    ensures |r.destinationCallsign| == |p.destinationCallsign| + 6
    ensures r.destinationCallsign[..|p.destinationCallsign|] == p.destinationCallsign
    ensures |r.sourceCallsign| == |p.sourceCallsign| + 6
    ensures r.sourceCallsign[..|p.sourceCallsign|] == p.sourceCallsign
    ensures |r.repeaterPath| >= |p.repeaterPath| && r.repeaterPath[..|p.repeaterPath|] == p.repeaterPath
    ensures 7 * (|r.repeaterPath| - |p.repeaterPath|) == AddressEnd(frame, 13).value - 14
    ensures r.destinationSSID <= 15 && r.sourceSSID <= 15 && r.command <= 1
    ensures r.frameType == p.frameType && r.nr == p.nr && r.ns == p.ns && r.pollFinal == p.pollFinal
    ensures r.pid == p.pid && r.info == p.info && r.sent == p.sent && r.modulo128 == p.modulo128
  {
    AndAtMost(frame[6], A_CRH);
    assert Pow2(7) == 128;
    ShrAtMost(And(frame[6], A_CRH), 7, 1);
    p.(destinationCallsign := p.destinationCallsign + DecodeCallsign(frame[0..6]),
       destinationSSID := SsidOf(frame[6]),
       command := Shr(And(frame[6], A_CRH), 7),
       sourceCallsign := p.sourceCallsign + DecodeCallsign(frame[7..13]),
       sourceSSID := SsidOf(frame[13]),
       repeaterPath := p.repeaterPath + DecodeRepeaters(frame, 13))
  }
}
