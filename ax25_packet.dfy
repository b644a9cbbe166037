/**
 * Class `AX25Packet` of `src/lib/ax.25.ts`: a packet wraps one mutable frame
 * record. Getters that throw on a bad field return `None`; setters that
 * throw return `false` and leave the record as it was; `encode` and `decode`
 * run the source's byte-by-byte steps and are proved to compute what the
 * functions of AX25Frame describe.
 */
module AX25Packet {
  import opened Wrappers
  import opened Bits
  import opened Utils
  import opened AX25Defs
  import opened AX25Frame

  class Packet {
    var properties: Frame

    /** A packet with the default record. */
    constructor ()
      ensures properties == DefaultFrame
    {
      properties := DefaultFrame;
    }

    /** A packet around a caller's record. */
    constructor FromFrame(frame: Frame)
      ensures properties == frame
    {
      properties := frame;
    }

    function GetAX25Frame(): Frame
      reads this
    {
      properties
    }

    // -------------------------------------------------------------------------
    // Address fields
    // -------------------------------------------------------------------------

    /** The destination callsign, or None where the getter throws. */
    function DestinationCallsign(): (r: Option<JsString>)
      reads this
      ensures r.Some? <==> IsValidCallsign(properties.destinationCallsign)
      ensures r.Some? ==> r.value == properties.destinationCallsign
    {
      if IsValidCallsign(properties.destinationCallsign) then Some(properties.destinationCallsign) else None
    }

    method SetDestinationCallsign(callsign: JsString) returns (ok: bool)
      modifies this
      ensures ok <==> IsValidCallsign(callsign)
      ensures ok ==> properties == old(properties).(destinationCallsign := callsign)
      ensures ok ==> DestinationCallsign() == Some(callsign)
      ensures !ok ==> properties == old(properties)
    {
      ok := TestCallsign(callsign);
      if ok {
        properties := properties.(destinationCallsign := callsign);
      }
    }

    /** The destination SSID, or None where the getter throws. */
    function DestinationSSID(): (r: Option<nat>)
      reads this
      ensures r.Some? <==> properties.destinationSSID <= 15
      ensures r.Some? ==> r.value == properties.destinationSSID
    {
      if properties.destinationSSID > 15 then None else Some(properties.destinationSSID)
    }

    method SetDestinationSSID(ssid: int) returns (ok: bool)
      modifies this
      ensures ok <==> 0 <= ssid <= 15
      ensures ok ==> properties == old(properties).(destinationSSID := ssid)
      ensures ok ==> DestinationSSID() == Some(ssid)
      ensures !ok ==> properties == old(properties)
    {
      if ssid < 0 || ssid > 15 {
        return false;
      }
      properties := properties.(destinationSSID := ssid);
      ok := true;
    }

    /** The source callsign, or None where the getter throws. */
    function SourceCallsign(): (r: Option<JsString>)
      reads this
      ensures r.Some? <==> IsValidCallsign(properties.sourceCallsign)
      ensures r.Some? ==> r.value == properties.sourceCallsign
    {
      if IsValidCallsign(properties.sourceCallsign) then Some(properties.sourceCallsign) else None
    }

    /**
     * The source-callsign setter validates its argument but stores it in the
     * destination callsign; the source callsign is not changed.
     */
    method SetSourceCallsign(callsign: JsString) returns (ok: bool)
      modifies this
      ensures ok <==> IsValidCallsign(callsign)
      ensures ok ==> properties == old(properties).(destinationCallsign := callsign)
      ensures properties.sourceCallsign == old(properties.sourceCallsign)
      ensures !ok ==> properties == old(properties)
    {
      ok := TestCallsign(callsign);
      if ok {
        properties := properties.(destinationCallsign := callsign);
      }
    }

    /** The source SSID, or None where the getter throws. */
    function SourceSSID(): (r: Option<nat>)
      reads this
      ensures r.Some? <==> properties.sourceSSID <= 15
      ensures r.Some? ==> r.value == properties.sourceSSID
    {
      if properties.sourceSSID > 15 then None else Some(properties.sourceSSID)
    }

    method SetSourceSSID(ssid: int) returns (ok: bool)
      modifies this
      ensures ok <==> 0 <= ssid <= 15
      ensures ok ==> properties == old(properties).(sourceSSID := ssid)
      ensures ok ==> SourceSSID() == Some(ssid)
      ensures !ok ==> properties == old(properties)
    {
      if ssid < 0 || ssid > 15 {
        return false;
      }
      properties := properties.(sourceSSID := ssid);
      ok := true;
    }

    function RepeaterPath(): seq<Repeater>
      reads this
    {
      properties.repeaterPath
    }

    /** Every repeater has a valid callsign and an SSID of at most 15. */
    static predicate ValidRepeaters(repeaters: seq<Repeater>)
    {
      forall r :: 0 <= r < |repeaters| ==>
        IsValidCallsign(repeaters[r].callsign) && repeaters[r].ssid <= 15
    }

    /** The repeater-path setter checks every entry before storing the path. */
    method SetRepeaterPath(repeaters: seq<Repeater>) returns (ok: bool)
      modifies this
      ensures ok <==> ValidRepeaters(repeaters)
      ensures ok ==> properties == old(properties).(repeaterPath := repeaters)
      ensures !ok ==> properties == old(properties)
    {
      for r := 0 to |repeaters|
        invariant ValidRepeaters(repeaters[..r])
        invariant properties == old(properties)
      {
        var valid := TestCallsign(repeaters[r].callsign);
        if !valid {
          return false;
        }
        if repeaters[r].ssid > 15 {
          return false;
        }
        assert repeaters[..r + 1] == repeaters[..r] + [repeaters[r]];
      }
      assert repeaters[..|repeaters|] == repeaters;
      properties := properties.(repeaterPath := repeaters);
      ok := true;
    }

    // -------------------------------------------------------------------------
    // Control fields
    // -------------------------------------------------------------------------

    function PollFinal(): bool
      reads this
    {
      properties.pollFinal == 1
    }

    method SetPollFinal(pollFinal: bool)
      modifies this
      ensures properties == old(properties).(pollFinal := if pollFinal then 1 else 0)
      ensures PollFinal() == pollFinal
    {
      properties := properties.(pollFinal := if pollFinal then 1 else 0);
    }

    function Command(): bool
      reads this
    {
      properties.command == 1
    }

    method SetCommand(cmd: bool)
      modifies this
      ensures properties == old(properties).(command := if cmd then 1 else 0)
      ensures Command() == cmd
    {
      properties := properties.(command := if cmd then 1 else 0);
    }

    /** Response reads the same bit as Command; there is no separate field. */
    function Response(): (b: bool)
      reads this
      ensures b == Command()
    {
      properties.command == 1
    }

    method SetResponse(resp: bool)
      modifies this
      ensures properties == old(properties).(command := if resp then 1 else 0)
      ensures Response() == resp && Command() == resp
    {
      properties := properties.(command := if resp then 1 else 0);
    }

    /** The control field, assembled from the type, N(R), N(S) and poll/final. */
    function Control(): nat
      reads this
    {
      ControlOf(properties)
    }

    function FrameType(): nat
      reads this
    {
      properties.frameType
    }

    method SetFrameType(frameType: nat)
      modifies this
      ensures properties == old(properties).(frameType := frameType)
    {
      properties := properties.(frameType := frameType);
    }

    function NR(): nat
      reads this
    {
      properties.nr
    }

    /** The largest sequence number: 127 in modulo-128 mode, 7 otherwise. */
    function MaxSequence(): nat
      reads this
    {
      if properties.modulo128 then 127 else 7
    }

    method SetNR(nr: int) returns (ok: bool)
      modifies this
      ensures ok <==> 0 <= nr <= old(MaxSequence())
      ensures ok ==> properties == old(properties).(nr := nr)
      ensures !ok ==> properties == old(properties)
    {
      if nr < 0 || nr > (if properties.modulo128 then 127 else 7) {
        return false;
      }
      properties := properties.(nr := nr);
      ok := true;
    }

    function NS(): nat
      reads this
    {
      properties.ns
    }

    method SetNS(ns: int) returns (ok: bool)
      modifies this
      ensures ok <==> 0 <= ns <= old(MaxSequence())
      ensures ok ==> properties == old(properties).(ns := ns)
      ensures !ok ==> properties == old(properties)
    {
      if ns < 0 || ns > (if properties.modulo128 then 127 else 7) {
        return false;
      }
      properties := properties.(ns := ns);
      ok := true;
    }

    // -------------------------------------------------------------------------
    // PID and information fields
    // -------------------------------------------------------------------------

    /** The PID, where zero reads as undefined. */
    function Pid(): (r: Option<nat>)
      reads this
      ensures r.None? <==> properties.pid == 0
      ensures r.Some? ==> r.value == properties.pid
    {
      if properties.pid == 0 then None else Some(properties.pid)
    }

    /** The PID can be set on I and UI frames only. */
    method SetPid(pid: nat) returns (ok: bool)
      modifies this
      ensures ok <==> old(properties.frameType) == I_FRAME || old(properties.frameType) == U_FRAME_UI
      ensures ok ==> properties == old(properties).(pid := pid)
      ensures !ok ==> properties == old(properties)
    {
      if properties.frameType == I_FRAME || properties.frameType == U_FRAME_UI {
        properties := properties.(pid := pid);
        ok := true;
      } else {
        ok := false;
      }
    }

    function Info(): seq<nat>
      reads this
    {
      properties.info
    }

    /** The information field can be set on I frames and on frames whose type is U_FRAME (UI). */
    method SetInfo(info: seq<nat>) returns (ok: bool)
      modifies this
      ensures ok <==> old(properties.frameType) == I_FRAME || old(properties.frameType) == U_FRAME
      ensures ok ==> properties == old(properties).(info := info)
      ensures !ok ==> properties == old(properties)
    {
      if properties.frameType == I_FRAME || properties.frameType == U_FRAME {
        properties := properties.(info := info);
        ok := true;
      } else {
        ok := false;
      }
    }

    function InfoString(): JsString
      reads this
    {
      FromCharCodes(properties.info)
    }

    /** The string setter stores the character codes without any frame-type check. */
    method SetInfoString(s: JsString)
      modifies this
      ensures properties == old(properties).(info := CharCodes(s))
      ensures InfoString() == s
    {
      var bytes := StringToByteArray(s);
      properties := properties.(info := bytes);
      StringRoundTrip(s);
    }

    function Sent(): bool
      reads this
    {
      properties.sent
    }

    method SetSent(sent: bool)
      modifies this
      ensures properties == old(properties).(sent := sent)
    {
      properties := properties.(sent := sent);
    }

    function Modulo128(): bool
      reads this
    {
      properties.modulo128
    }

    method SetModulo128(modulo128: bool)
      modifies this
      ensures properties == old(properties).(modulo128 := modulo128)
    {
      properties := properties.(modulo128 := modulo128);
    }

    // -------------------------------------------------------------------------
    // Codec
    // -------------------------------------------------------------------------

    /**
     * Wire bytes of the record: an error when a callsign is empty or an I
     * frame has no information, otherwise the address, control, PID and
     * information fields pushed one byte at a time.
     */
    method Encode() returns (r: Result<seq<nat>, EncodeError>)
      ensures r == EncodeFrame(properties)
    {
      var p := properties;
      if |p.destinationCallsign| == 0 {
        return Failure(DestinationNotSet);
      }
      if |p.sourceCallsign| == 0 {
        return Failure(SourceNotSet);
      }
      if p.frameType == I_FRAME && |p.info| < 1 {
        return Failure(NoPayload);
      }
      // Address field: destination, source and repeater subfields
      var frame := PushCallsign([], p.destinationCallsign);
      assert frame == CallsignSubfield(p.destinationCallsign);
      frame := frame + [DestinationOctet(p)];
      frame := PushCallsign(frame, p.sourceCallsign);
      frame := frame + [SourceOctet(p)];
      frame := PushRepeaters(frame, p.repeaterPath);
      assert frame == AddressField(p);

      // Control field
      var control := ControlOf(p);
      if !p.modulo128 {
        frame := frame + [control];
      } else {
        frame := frame + [And(control, 255)];
        frame := frame + [Shr(control, 8)];
      }
      assert frame == AddressField(p) + ControlField(p);

      // PID field
      if p.pid != 0 && (p.frameType == I_FRAME || p.frameType == U_FRAME_UI) {
        frame := frame + [p.pid];
      }
      assert frame == AddressField(p) + ControlField(p) + PidField(p);

      // Information field
      if |p.info| > 0 && (p.frameType == I_FRAME || p.frameType == U_FRAME_UI || p.frameType == U_FRAME_TEST) {
        frame := PushBytes(frame, p.info);
      }
      assert frame == Wire(p);
      return Success(frame);
    }

    /**
     * Reads wire bytes into the record: the callsigns and the repeater path
     * are appended to what the record already holds, the SSIDs and the
     * command bit are overwritten, and the control byte decides which of the
     * remaining fields are set. A frame below 15 bytes is refused and leaves
     * the record unchanged.
     */
    method Decode(frame: seq<nat>) returns (ok: bool)
      requires Decodable(frame, properties.modulo128)
      modifies this
      ensures ok <==> |frame| >= 15
      ensures ok ==> properties == DecodeFrame(old(properties), frame).value
      ensures !ok ==> properties == old(properties)
    {
      if |frame| < 15 {
        return false;
      }
      var end := ReadAddress(frame);
      ReadControl(frame, end);
      ok := true;
    }

    /**
     * The address part of decode: destination and source subfields, then
     * repeater subfields while the last SSID octet read has bit 0 clear.
     * Returns the index of the control byte.
     */
    method ReadAddress(frame: seq<nat>) returns (end: nat)
      requires |frame| >= 14 && AddressEnd(frame, 13).Some?
      modifies this
      ensures AddressEnd(frame, 13) == Some(end)
      ensures properties == DecodeAddress(old(properties), frame)
    {
      // Address field: destination subfield
      var destination := ReadCallsign(frame, 0);
      properties := properties.(destinationCallsign := properties.destinationCallsign + destination);
      var field := frame[6];
      properties := properties.(destinationSSID := Shr(And(field, A_SSID), 1));
      properties := properties.(command := Shr(And(field, A_CRH), 7));

      // Address field: source subfield
      var source := ReadCallsign(frame, 7);
      properties := properties.(sourceCallsign := properties.sourceCallsign + source);
      var fieldSSID := frame[13];
      properties := properties.(sourceSSID := Shr(And(fieldSSID, A_SSID), 1));

      // Address field: repeater path
      end := ReadRepeaters(frame);
      assert frame[0..6] == frame[..6];
    }

    /**
     * The repeater loop of decode: while the last SSID octet read has bit 0
     * clear, reads one more repeater and pushes it onto the path. Returns the
     * index of the control byte.
     */
    method ReadRepeaters(frame: seq<nat>) returns (end: nat)
      requires |frame| >= 14 && AddressEnd(frame, 13).Some?
      modifies this
      ensures AddressEnd(frame, 13) == Some(end)
      ensures properties == old(properties).(repeaterPath := old(properties.repeaterPath) + DecodeRepeaters(frame, 13))
    {
      ghost var p2 := properties;
      var repeaterField := frame[13];
      var pos := 13;
      while And(repeaterField, 1) == 0
        invariant 13 <= pos < |frame| && repeaterField == frame[pos]
        invariant AddressEnd(frame, pos) == AddressEnd(frame, 13)
        invariant properties == p2.(repeaterPath := properties.repeaterPath)
        invariant properties.repeaterPath + DecodeRepeaters(frame, pos) == p2.repeaterPath + DecodeRepeaters(frame, 13)
        decreases |frame| - pos
      {
        RepeaterSlotOpen(frame, pos);
        var callsign := ReadCallsign(frame, pos + 1);
        repeaterField := frame[pos + 7];
        var repeater := Repeater(callsign, Shr(And(repeaterField, A_SSID), 1));
        RepeaterStep(frame, pos, properties.repeaterPath, repeater);
        properties := properties.(repeaterPath := properties.repeaterPath + [repeater]);
        pos := pos + 7;
      }
      assert DecodeRepeaters(frame, pos) == [];
      end := pos + 1;
    }

    /**
     * The control-field part of decode: the control byte at index `at` and
     * the bytes after it set the frame type, the sequence numbers, poll/final,
     * the PID and the information field as the frame class calls for.
     */
    method ReadControl(frame: seq<nat>, at: nat)
      requires at < |frame| && ControlReadable(frame[at], |frame| - at - 1, properties.modulo128)
      modifies this
      ensures properties == DecodeControl(old(properties), frame[at], frame[at + 1..])
    {
      var control := frame[at];
      var next := at + 1;
      if And(control, U_FRAME) == U_FRAME {
        properties := properties.(pollFinal := Shr(And(control, PF), 4));
        properties := properties.(frameType := And(control, U_FRAME_MASK));
        if properties.frameType == U_FRAME_UI {
          properties := properties.(pid := frame[next]);
          properties := properties.(info := frame[next + 1..]);
        } else if properties.frameType == U_FRAME_XID && |frame| - next > 0 {
          // XID parameters are not parsed
        } else if properties.frameType == U_FRAME_TEST && |frame| - next > 0 {
          properties := properties.(info := frame[next..]);
        }
      } else if And(control, U_FRAME) == S_FRAME {
        properties := properties.(frameType := And(control, S_FRAME_MASK));
        if properties.modulo128 {
          control := Or(control, Shl(frame[next], 8));
          properties := properties.(nr := Shr(And(control, NR_MODULO128), 8));
          properties := properties.(pollFinal := Shr(And(control, PF), 7));
        } else {
          properties := properties.(nr := Shr(And(control, AX25Defs.NR), 5));
          properties := properties.(pollFinal := Shr(And(control, PF), 4));
        }
      } else if And(control, 1) == I_FRAME {
        properties := properties.(frameType := I_FRAME);
        if properties.modulo128 {
          control := Or(control, Shl(frame[next], 8));
          next := next + 1;
          properties := properties.(nr := Shr(And(control, NR_MODULO128), 8));
          properties := properties.(ns := Shr(And(control, NS_MODULO128), 1));
          properties := properties.(pollFinal := Shr(And(control, PF), 7));
        } else {
          properties := properties.(nr := Shr(And(control, AX25Defs.NR), 5));
          properties := properties.(ns := Shr(And(control, AX25Defs.NS), 1));
          properties := properties.(pollFinal := Shr(And(control, PF), 4));
        }
        properties := properties.(pid := frame[next]);
        properties := properties.(info := frame[next + 1..]);
      } else {
        ControlClassification(control);
        assert false;
      }
    }
  }

  /** Pushes the six bytes of a callsign subfield: each code unit shifted left by one, blanks past the end. */
  method PushCallsign(frame: seq<nat>, callsign: JsString) returns (r: seq<nat>)
    ensures r == frame + CallsignSubfield(callsign)
  {
    r := frame;
    for c := 0 to 6
      invariant r == frame + CallsignSubfield(callsign)[..c]
    {
      r := r + [Shl(if |callsign| - 1 >= c then callsign[c] else 32, 1)];
    }
    assert CallsignSubfield(callsign)[..6] == CallsignSubfield(callsign);
  }

  /** Pushes a callsign subfield and an SSID octet per repeater; bit 0 marks the last. */
  method PushRepeaters(frame: seq<nat>, path: seq<Repeater>) returns (r: seq<nat>)
    ensures r == frame + RepeaterSubfields(path, |path|)
  {
    r := frame;
    for i := 0 to |path|
      invariant r == frame + RepeaterSubfields(path, i)
    {
      r := PushCallsign(r, path[i].callsign);
      r := r + [Or(Shl(path[i].ssid, 1), if i == |path| - 1 then 1 else 0)];
    }
  }

  /** An SSID octet with bit 0 clear, inside the address field, is followed by another slot. */
  lemma RepeaterSlotOpen(frame: seq<nat>, pos: nat)
    requires pos < |frame| && AddressEnd(frame, pos).Some? && And(frame[pos], 1) == 0
    ensures pos + 7 < |frame| && AddressEnd(frame, pos + 7) == AddressEnd(frame, pos)
  {
  }

  /** Pushing the repeater read at slot `pos` moves the rest of the path on by one slot. */
  lemma RepeaterStep(frame: seq<nat>, pos: nat, path: seq<Repeater>, repeater: Repeater)
    requires pos + 7 < |frame| && AddressEnd(frame, pos).Some? && And(frame[pos], 1) == 0
    requires repeater == Repeater(DecodeCallsign(frame[pos + 1..pos + 7]), SsidOf(frame[pos + 7]))
    ensures AddressEnd(frame, pos + 7).Some?
    ensures path + [repeater] + DecodeRepeaters(frame, pos + 7) == path + DecodeRepeaters(frame, pos)
  {
    assert DecodeRepeaters(frame, pos) == [repeater] + DecodeRepeaters(frame, pos + 7);
  }

  /** Reads the six callsign bytes at `from`: each byte shifted right by one, as a code unit. */
  method ReadCallsign(frame: seq<nat>, from: nat) returns (s: JsString)
    requires from + 6 <= |frame|
    ensures s == DecodeCallsign(frame[from..from + 6])
  {
    s := [];
    for f := 0 to 6
      invariant s == DecodeCallsign(frame[from..from + f])
    {
      assert frame[from..from + f + 1][..f] == frame[from..from + f];
      s := s + [FromCharCode(Shr(frame[from + f], 1))];
    }
  }

  /** Pushes every element of `bytes`, in order. */
  method PushBytes(frame: seq<nat>, bytes: seq<nat>) returns (r: seq<nat>)
    ensures r == frame + bytes
  {
    r := frame;
    for i := 0 to |bytes|
      invariant r == frame + bytes[..i]
    {
      r := r + [bytes[i]];
    }
    assert bytes[..|bytes|] == bytes;
  }
}
