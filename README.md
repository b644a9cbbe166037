# AX.25 frame codec

A Dafny model of the AX.25 packet codec of the `ax.25` TypeScript library. The model has five parts:

- The packet class `AX25Packet`. It holds a mutable `AX25Frame` record behind validating getters and setters.
- Its derived `control` field.
- `encode`, which turns the record into the bytes of an AX.25 v2.2 frame. It writes the address field of section 3.12, the control field of section 4.2 and the PID of section 3.4. It does not write flags or the FCS.
- `decode`, which reads such bytes back into a record.
- The helpers of `src/lib/utils.ts`: the callsign validator, the modular distance of sequence numbers, and the string/char-code conversions.

The Dafny modules follow the program:

| module | file | holds |
|---|---|---|
| `AX25Defs` | `ax25_defs.dfy` | the `AX25Defs` constants |
| `AX25Frame` | `ax25_frame.dfy` | the record types and the pure specification of `control`, `encode` and `decode` |
| `AX25Packet` | `ax25_packet.dfy` | class `Packet`: the getters, the setters, and `Encode`/`Decode` as byte-pushing and cursor-reading methods proved against that specification |
| `Utils` | `utils.dfy` | the helpers of `utils.ts` |
| `AX25Properties`, `AX25RoundTrip` | `ax25_lemmas.dfy`, `ax25_roundtrip.dfy` | what is proved about the codec |
| `AX25Example` | `example.dfy` | the example program `src/example/app.ts` |
| `Bits` | `bits.dfy` | JavaScript's `|`, `&`, `^`, `<<` and `>>` on naturals, with the layout lemmas the proofs use |
| `Wrappers` | `wrappers.dfy` | `Option` and `Result` |

JavaScript numbers are modelled as naturals. Strings are sequences of UTF-16 code units (`JsString`). A thrown exception becomes a `Failure` result, a `None`, or a `false` success flag that leaves the record unchanged.

The model keeps the code's behaviour as written, including these quirks:

- The `sourceCallsign` setter stores into `destinationCallsign`.
- `decode` appends the callsigns and the repeater path to what the record already holds.
- Callsigns come back padded with blanks to six characters.
- In modulo-128 mode, decode shifts N(R) by 8 instead of 9, so N(R) comes back doubled. It also reads P/F as `(control & 0x10) >> 7`, which is always 0.
- Modulo-128 U frames are written with two control bytes but read with one. The second byte is therefore taken as the PID of a UI frame.
- In standard mode the control byte is written unmasked.

## Model

| member | source | states |
|---|---|---|
| AX25Packet.Packet.constructor | src/lib/ax.25.ts:81-98 | a packet built without a record starts from the default record (empty callsigns, type I, PID 0xF0, nothing sent) |
| AX25Packet.Packet.FromFrame | src/lib/ax.25.ts:81-98 | a packet built from a record holds exactly that record |
| AX25Packet.Packet.DestinationCallsign | src/lib/ax.25.ts:104-109 | the getter yields the callsign exactly when it passes `testCallsign`, and fails otherwise |
| AX25Packet.Packet.SetDestinationCallsign | src/lib/ax.25.ts:111-116 | succeeds iff the callsign passes `testCallsign`; on success only the destination callsign changes and the getter returns it; on failure nothing changes |
| AX25Packet.Packet.DestinationSSID | src/lib/ax.25.ts:118-126 | the getter yields the SSID exactly when it is at most 15 |
| AX25Packet.Packet.SetDestinationSSID | src/lib/ax.25.ts:128-133 | succeeds iff 0 <= ssid <= 15; then only the destination SSID changes; otherwise nothing changes |
| AX25Packet.Packet.SourceCallsign | src/lib/ax.25.ts:135-140 | the getter yields the source callsign exactly when it passes `testCallsign` |
| AX25Packet.Packet.SetSourceCallsign | src/lib/ax.25.ts:142-147 | succeeds iff the callsign is valid; on success the destination callsign is replaced and the source callsign is left as it was |
| AX25Packet.Packet.SourceSSID | src/lib/ax.25.ts:149-154 | the getter yields the SSID exactly when it is at most 15 |
| AX25Packet.Packet.SetSourceSSID | src/lib/ax.25.ts:156-161 | succeeds iff 0 <= ssid <= 15; then only the source SSID changes |
| AX25Packet.Packet.SetRepeaterPath | src/lib/ax.25.ts:167-184 | succeeds iff every repeater has a valid callsign and an SSID in [0,15]; then only the path changes; otherwise nothing changes |
| AX25Packet.Packet.SetPollFinal | src/lib/ax.25.ts:186-192 | stores 1 or 0 and the getter reads back the flag that was set |
| AX25Packet.Packet.SetCommand | src/lib/ax.25.ts:194-200 | stores 1 or 0 in the command field and the getter reads back the flag |
| AX25Packet.Packet.Response | src/lib/ax.25.ts:202-204 | `response` reads the same flag as `command` |
| AX25Packet.Packet.SetResponse | src/lib/ax.25.ts:206-208 | writes the command field, so both `response` and `command` read back the value set |
| AX25Packet.Packet.SetFrameType | src/lib/ax.25.ts:234-236 | only the type changes, with no check |
| AX25Packet.Packet.SetNR | src/lib/ax.25.ts:242-251 | succeeds iff 0 <= nr <= 7, or <= 127 in modulo-128 mode; then only N(R) changes; otherwise nothing changes |
| AX25Packet.Packet.SetNS | src/lib/ax.25.ts:257-266 | the same range rule for N(S) |
| AX25Packet.Packet.Pid | src/lib/ax.25.ts:268-270 | the getter is undefined (None) exactly when the stored PID is 0 |
| AX25Packet.Packet.SetPid | src/lib/ax.25.ts:272-283 | succeeds iff the type is I or UI; then only the PID changes; otherwise nothing changes |
| AX25Packet.Packet.SetInfo | src/lib/ax.25.ts:289-299 | succeeds iff the type is 0 or 3; then only the information changes; otherwise nothing changes |
| AX25Packet.Packet.SetInfoString | src/lib/ax.25.ts:301-309 | stores the character codes of the string, and `infoString` gives the string back |
| AX25Packet.Packet.SetSent | src/lib/ax.25.ts:315-317 | only `sent` changes |
| AX25Packet.Packet.SetModulo128 | src/lib/ax.25.ts:323-325 | only `modulo128` changes |
| AX25Packet.Packet.Encode | src/lib/ax.25.ts:416-512 | the bytes pushed one by one, through the callsign, repeater and information loops, are `EncodeFrame` of the record; the record is not changed |
| AX25Packet.Packet.Decode | src/lib/ax.25.ts:327-414 | fails iff the frame is shorter than 15 bytes, and then leaves the record unchanged; otherwise the new record is `DecodeFrame` of the old record and the bytes |
| AX25Packet.Packet.ReadAddress | src/lib/ax.25.ts:331-366 | reads the destination, the source and the repeaters, stops where `AddressEnd` says the address ends, and leaves the record as `DecodeAddress` describes |
| AX25Packet.Packet.ReadRepeaters | src/lib/ax.25.ts:351-366 | the `while` loop appends `DecodeRepeaters` (repeaters in wire order, up to the first octet with bit 0 set) to the existing path |
| AX25Packet.Packet.ReadControl | src/lib/ax.25.ts:368-413 | the control part of decode sets the fields `DecodeControl` gives |
| AX25Packet.PushCallsign | src/lib/ax.25.ts:432-439 | the six-slot loop appends exactly the callsign subfield |
| AX25Packet.PushRepeaters | src/lib/ax.25.ts:462-481 | the repeater loop appends exactly the repeater subfields |
| AX25Packet.ReadCallsign | src/lib/ax.25.ts:332-336 | the `+=` loop builds the decoded callsign of six bytes |
| AX25Packet.PushBytes | src/lib/ax.25.ts:500-509 | the information loop appends the bytes in order |
| AX25Frame.ControlOf | src/lib/ax.25.ts:215-228 | the `control` getter puts the fields above the class bits: an I frame's value has bit 0 clear, and any other type's value keeps the type's two low bits |
| AX25Frame.DestinationOctet | src/lib/ax.25.ts:440-444 | the destination SSID octet always has the end-of-address bit clear |
| AX25Frame.SourceOctet | src/lib/ax.25.ts:454-460 | the source SSID octet has the end-of-address bit set iff the repeater path is empty |
| AX25Frame.RepeaterOctet | src/lib/ax.25.ts:477-480 | a repeater SSID octet has the end-of-address bit set iff it belongs to the last repeater |
| AX25Frame.ControlField | src/lib/ax.25.ts:483-489 | one control byte, the unmasked control value, in standard mode; in modulo-128 mode two bytes, a low byte below 256 and the rest, which OR back together (`low | high << 8`) into the control value |
| AX25Frame.CallsignSubfield | src/lib/ax.25.ts:432-439 | a callsign subfield is always six bytes |
| AX25Frame.RepeaterSubfields | src/lib/ax.25.ts:462-481 | n repeaters take 7n bytes |
| AX25Frame.AddressField | src/lib/ax.25.ts:432-481 | the address field is 14 + 7 * (number of repeaters) bytes |
| AX25Frame.Wire | src/lib/ax.25.ts:430-511 | the encoded length is 14 + 7 * repeaters, plus 1 or 2 control bytes, plus 1 for a non-zero PID on I/UI frames, plus the length of non-empty information on I/UI/TEST frames |
| AX25Frame.EncodeFrame | src/lib/ax.25.ts:416-429 | encode fails iff a callsign is empty or an I frame has no information; the error names the first check that failed, in the source's order: `DestinationNotSet` iff the destination is empty, `SourceNotSet` iff only the source is, `NoPayload` iff both are set and an I frame has no information; on success it gives the wire bytes, at least 15 of them |
| AX25Frame.DecodeCallsign | src/lib/ax.25.ts:332-336 | each decoded character is its byte shifted right by one |
| AX25Frame.ControlClassification | src/lib/ax.25.ts:370-413 | every control byte is U, S or I, so the invalid-packet branch cannot be reached |
| AX25Frame.AddressEnd | src/lib/ax.25.ts:351-366 | when the repeater loop stops, it stops a whole number of seven-byte slots after the source SSID octet, inside the frame, just after an octet with bit 0 set |
| AX25Frame.DecodeRepeaters | src/lib/ax.25.ts:351-366 | the loop reads one repeater per seven-byte slot before the octet that ends the address field |
| AX25Frame.DecodedRepeatersShape | src/lib/ax.25.ts:352-364 | every repeater read has a six-character callsign and an SSID of at most 15 |
| AX25Frame.DecodeAddress | src/lib/ax.25.ts:331-366 | six characters are appended to each callsign after the old ones, and the repeaters read after the old path, one per seven-byte slot; both SSIDs come back at most 15 and the command bit as 0 or 1; no control-part field, `sent` or `modulo128` changes |
| AX25Frame.DecodeControl | src/lib/ax.25.ts:368-413 | the control part leaves the address fields, `sent` and `modulo128` alone; the type is I exactly when the control byte is even, and otherwise keeps bit 0 set, and the U class bits for a U byte; P/F comes back as 0 or 1, and standard-mode N(R) and N(S) as at most 7 |
| AX25Frame.DecodeFrame | src/lib/ax.25.ts:327-414 | decode fails iff the input is under 15 bytes; otherwise `sent` and `modulo128` are kept, and six characters are appended to each callsign after the old ones, and repeaters after the old path |
| AX25Properties.DestinationOctetValue | src/lib/ax.25.ts:440-444 | the destination octet is 128 * command + 96 + 2 * SSID |
| AX25Properties.SourceOctetValue | src/lib/ax.25.ts:454-460 | the source octet is 128 * (1 - command) + 64 (standard mode only) + 32 + 2 * SSID + (1 if there are no repeaters) |
| AX25Properties.RepeaterOctetValue | src/lib/ax.25.ts:477-480 | a repeater octet is 2 * SSID, plus 1 on the last repeater |
| AX25Properties.EndOfAddressMarker | src/lib/ax.25.ts:440-480 | exactly one address octet has bit 0 set: never the destination, the source iff there are no repeaters, a repeater iff it is the last |
| AX25Properties.DestinationNotLast | src/lib/ax.25.ts:440-444 | bit 0 of the destination octet is clear |
| AX25Properties.SourceLastIffNoRepeaters | src/lib/ax.25.ts:454-460 | bit 0 of the source octet is set iff the path is empty |
| AX25Properties.RepeaterLastBit | src/lib/ax.25.ts:477-480 | bit 0 of a repeater octet is set iff it is the last repeater |
| AX25Properties.SsidField | src/lib/ax.25.ts:338-339 | decode's SSID mask recovers the SSID from any octet that holds it in bits 1-4 |
| AX25Properties.CommandField | src/lib/ax.25.ts:340 | decode's command mask recovers bit 7 |
| AX25Properties.IFrameControl | src/lib/ax.25.ts:215-228 | an I frame's control is 32 nr + 16 pf + 2 ns; in modulo-128 mode it is 512 nr + 256 pf + 2 ns |
| AX25Properties.SupervisoryTypeBits | src/lib/ax.25.ts:22-26 | every S type has low bits 01 and is below 16 |
| AX25Properties.SFrameControl | src/lib/ax.25.ts:215-228 | an S frame's control is 32 nr + 16 pf + type, or 512 nr + 256 pf + type |
| AX25Properties.UnnumberedTypeBits | src/lib/ax.25.ts:28-37 | every U type has low bits 11, bit 4 clear and fits a byte |
| AX25Properties.UFrameControl | src/lib/ax.25.ts:215-228 | a U frame's control is type + 16 pf, or type + 256 pf in modulo-128 mode, with no sequence numbers |
| AX25Properties.OrBit4 | src/lib/ax.25.ts:225-226 | setting P/F into a type with bit 4 clear adds 16 |
| AX25Properties.ControlExample | src/lib/ax.25.ts:215-228 | ns = 3, nr = 5, pf = 1 gives control 0xB6 |
| AX25Properties.UnmaskedControlByte | src/lib/ax.25.ts:484-485 | in standard mode an out-of-range N(R) gives a control byte above 255, which is pushed unmasked |
| AX25RoundTrip.CallsignRoundTrip | src/lib/ax.25.ts:332-336 | decoding an encoded callsign gives it truncated or blank-padded to six characters, and a six-character callsign unchanged |
| AX25RoundTrip.ShortCallsignIsPadded | src/lib/ax.25.ts:432-439 | "SP4MK" comes back as "SP4MK " |
| AX25RoundTrip.WireLaidOut | src/lib/ax.25.ts:432-481 | in the encoded bytes, each SSID octet sits every seven bytes from index 13, with the repeater callsigns between them |
| AX25RoundTrip.AddressEndFrom | src/lib/ax.25.ts:351-366 | on encoded bytes, the repeater loop stops right after the last repeater |
| AX25RoundTrip.RepeatersBack | src/lib/ax.25.ts:351-366 | on encoded bytes, the repeaters read are those encoded, in order, with padded callsigns and their SSIDs |
| AX25RoundTrip.AddressBack | src/lib/ax.25.ts:331-366 | decoding an encoded address appends the padded callsigns and path and restores both SSIDs and the command bit; the control byte follows the last repeater |
| AX25RoundTrip.AddressDecoded | src/lib/ax.25.ts:331-366 | the address part of decode keeps `sent` and `modulo128` |
| AX25RoundTrip.IFrameBack | src/lib/ax.25.ts:397-410 | in standard mode an encoded I frame decodes to its N(R), N(S), P/F, PID and information |
| AX25RoundTrip.SFrameBack | src/lib/ax.25.ts:387-396 | in standard mode an encoded S frame decodes to its type, N(R) and P/F |
| AX25RoundTrip.UFrameBack | src/lib/ax.25.ts:370-386 | in standard mode an encoded U frame decodes to its type and P/F, a UI frame's PID and information, and a TEST frame's non-empty information |
| AX25RoundTrip.Modulo128IFrameBack | src/lib/ax.25.ts:399-404 | in modulo-128 mode an I frame decodes with N(S), PID and information intact, N(R) doubled and P/F 0 |
| AX25RoundTrip.Modulo128SFrameBack | src/lib/ax.25.ts:389-392 | in modulo-128 mode an S frame decodes with N(R) doubled and P/F 0 |
| AX25RoundTrip.Modulo128UFrameBack | src/lib/ax.25.ts:369-386 | in modulo-128 mode a U frame's second control byte is taken as the UI PID, or as the first TEST information byte |
| AX25RoundTrip.DecodeOfWire | src/lib/ax.25.ts:327-414 | every encoded frame whose control part is readable is decodable; decode is the address part followed by the control part |
| AX25RoundTrip.FreshAddressDecoded | src/lib/ax.25.ts:331-366 | decoding the address of a lossless record into a fresh packet gives back its callsigns, path, SSIDs and command |
| AX25RoundTrip.StandardRoundTrip | src/example/app.ts:29-47 | for every standard-mode record with six-character callsigns, fields in range, `sent` false, and only the fields its frame class carries: encode succeeds, and decoding its bytes into a fresh packet gives the record back |
| AX25RoundTrip.Modulo128IFrameRoundTrip | src/lib/ax.25.ts:399-404 | in modulo-128 mode an I frame with N(R) > 0 or P/F set does not survive the round trip |
| AX25RoundTrip.Modulo128SFrameRoundTrip | src/lib/ax.25.ts:389-392 | the same for an S frame |
| AX25RoundTrip.Modulo128UIFrameRoundTrip | src/lib/ax.25.ts:369-375 | a modulo-128 UI frame comes back with its P/F bit as the PID and its PID in front of the information |
| AX25Example.ExampleRoundTrip | src/example/app.ts:5-47 | the example record (APRX29-0 from "SP4MK "-15 via SR4DIG-0, I frame, PID 0xF0, "Siema!") survives encode and decode |
| AX25Example.ExampleProgram | src/example/app.ts:29-47 | the example program's steps, run on `Packet`, give back exactly the record it started from |
| Utils.TestCallsign | src/lib/utils.ts:4-15 | accepts exactly the callsigns of `IsValidCallsign`: too long is refused, otherwise the trimmed, upper-cased string is scanned |
| Utils.ScanCallsign | src/lib/utils.ts:7-14 | the loop with early return answers true exactly when every code unit is a digit or an upper-case letter |
| Utils.ValidCallsignCharacterization | src/lib/utils.ts:4-15 | valid iff there are at most 6 characters, each a digit or a letter of either case, or whitespace followed only by whitespace |
| Utils.TooLongCallsignRejected | src/lib/utils.ts:5 | a string longer than 6 is rejected before any trimming |
| Utils.ValidCallsignIgnoresCase | src/lib/utils.ts:6 | upper-casing does not change the verdict |
| Utils.InteriorWhitespaceRejected | src/lib/utils.ts:6-13 | whitespace before a non-whitespace character is rejected |
| Utils.InteriorInvalidRejected | src/lib/utils.ts:7-13 | a character outside 0-9, A-Z and a-z that is not trailing whitespace is rejected |
| Utils.AcceptsTrailingBlank | src/lib/utils.ts:5-6 | "SP4MK " passes, because the length is checked before trimming |
| Utils.AcceptsEmpty | src/lib/utils.ts:4-15 | the empty string passes |
| Utils.AcceptsLowerCase | src/lib/utils.ts:6 | "sp4mk" passes |
| Utils.AcceptsPlainCallsign | src/lib/utils.ts:4-15 | "SP4MK" passes |
| Utils.AcceptsSixCharacterCallsign | src/lib/utils.ts:4-15 | "APRX29" passes |
| Utils.RejectsLongCallsign | src/lib/utils.ts:5 | "TOOLONG1" is rejected |
| Utils.RejectsHyphen | src/lib/utils.ts:9-12 | "AB-3" is rejected |
| Utils.RejectsInteriorBlank | src/lib/utils.ts:6-12 | "SP 4" is rejected |
| Utils.DistanceBetween | src/lib/utils.ts:19-21 | for 0 <= l, f < m the distance lies in [0, m) and (f + d) mod m == l |
| Utils.StringToByteArray | src/lib/utils.ts:24-29 | the push loop gives the character code of each character, same length |
| Utils.ByteArrayToString | src/lib/utils.ts:32-36 | the append loop gives `String.fromCharCode` of each code, same length |
| Utils.StringRoundTrip | src/lib/utils.ts:24-36 | `byteArrayToString(stringToByteArray(s)) == s` |
| Utils.CodesRoundTrip | src/lib/utils.ts:24-36 | `stringToByteArray(byteArrayToString(b)) == b` for codes in [0, 65535] |

## Left out

- Flags, bit-stuffing, the FCS and KISS framing: the codec does not do them, and `FLAG` is unused.
- The PID constant table: only `PID_NONE` is used by the codec. The other table entries are plain constants.
- XID parameter parsing: the branch is empty in the source, and the model leaves the record as it is there.
- `typeof` and `hasOwnProperty` guards, and an undefined PID: the Dafny parameters are typed, so these cannot occur. The PID is the stored number, with 0 meaning absent.
- The thrown message strings: errors are results, options or a `false` flag.
- JavaScript numbers are naturals. Bitwise operations agree with JavaScript's 32-bit ones below 2^31; wrap-around above that, negative values and fractions are not modelled.
- `toUpperCase` is modelled on the ASCII letters only. Other scripts' case mappings are not modelled.
- AX25Packet.Packet.Decode: requires `Decodable`. This is a short frame, or one that holds every byte decode reads. On a truncated frame the source reads `undefined` from an exhausted array, or loops, and that is not modelled.
- AX25Packet.Packet.Decode: reads the caller's array without consuming it. The source's `splice`/`shift` remove the bytes decode reads from the caller's array, and for I, UI and TEST frames the rest of that array becomes `info` by reference. Neither the removal nor the sharing is modelled.
- AX25Packet.Packet.FromFrame: the source keeps the caller's record object by reference, so later setter or `decode` calls also change the caller's record. The model copies the record as a value, so the caller's copy never changes.
- `getAX25Frame` returns the record as a value. Later changes through the returned object do not reach the packet.
- `console.log` in the example program is not modelled, and neither is the JSON-string comparison it ends with. `ExampleProgram` states the equality of the records instead.
- `TextEncoder` in the example program: the information bytes of "Siema!" are written out.
- The getters without a check (`pollFinal`, `command`, `type`, `nr`, `ns`, `info`, `infoString`, `sent`, `modulo128`, `repeaterPath`, `control`, `getAX25Frame`) are plain functions of the record. What they return is stated through the setter contracts and the control-field lemmas.
