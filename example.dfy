/**
 * The example program `src/example/app.ts`: an I frame from SP4MK-15 to
 * APRX29 through SR4DIG carrying "Siema!" is encoded by one packet, decoded
 * by a fresh one, and the two records are compared field by field.
 */
module AX25Example {
  import opened Wrappers
  import opened Utils
  import opened AX25Defs
  import opened AX25Frame
  import opened AX25Packet
  import opened AX25RoundTrip

  /**
   * The record of the example. The source callsign is given already padded
   * to six characters, and the information field is the UTF-8 encoding of
   * "Siema!".
   */
  const ExampleFrame: Frame :=
    Frame(Str("APRX29"), 0, Str("SP4MK "), 15, [Repeater(Str("SR4DIG"), 0)],
          0, 0, I_FRAME, 0, 0, PID_NONE, [83, 105, 101, 109, 97, 33], false, false)

  /** The example record survives encode followed by decode into a fresh packet. */
  lemma ExampleRoundTrip()
    ensures EncodeFrame(ExampleFrame) == Success(Wire(ExampleFrame))
    ensures Decodable(Wire(ExampleFrame), false)
    ensures DecodeFrame(DefaultFrame, Wire(ExampleFrame)) == Success(ExampleFrame)
  {
    var path := ExampleFrame.repeaterPath;
    assert |path[0].callsign| == 6;
    assert Lossless(ExampleFrame);
    StandardRoundTrip(ExampleFrame);
  }

  /**
   * The steps of the example program: the record read back from the decoding
   * packet is the record the encoding packet was built from, so the final
   * comparison holds.
   */
  method ExampleProgram() returns (decoded: Frame)
    ensures decoded == ExampleFrame
  {
    var toEncode := new Packet.FromFrame(ExampleFrame);
    var encoded := toEncode.Encode();
    ExampleRoundTrip();
    var toDecode := new Packet();
    var ok := toDecode.Decode(encoded.value);
    decoded := toDecode.GetAX25Frame();
  }
}
