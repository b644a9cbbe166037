/**
 * The `AX25Defs` enumeration of `src/lib/ax.25.ts`: bit masks of the address
 * and control fields and the frame-type codes (AX.25 v2.2, sections 3.12 and
 * 4.2), and the PID value the codec starts from (section 3.4).
 */
module AX25Defs {

  // Address field: SSID octet `CRH(1) RR(2) SSID(4) ext(1)`
  const A_CRH: nat := 0x80   // command/response or has-been-repeated bit
  const A_RR: nat := 0x60    // the two reserved bits
  const A_SSID: nat := 0x1E  // the four SSID bits

  // Control field
  const PF: nat := 0x10             // poll/final, 8-bit control field
  const NS: nat := 0x0E             // N(S), bits 1-3
  const NR: nat := 0xE0             // N(R), bits 5-7
  const PF_MODULO128: nat := 0x100  // poll/final, 16-bit control field
  const NS_MODULO128: nat := 0xFE   // N(S), bits 1-7
  const NR_MODULO128: nat := 0xFE00 // N(R), bits 9-15

  // Information frame
  const I_FRAME: nat := 0
  const I_FRAME_MASK: nat := 1

  // Supervisory frames
  const S_FRAME: nat := 1
  const S_FRAME_RR: nat := 0x01
  const S_FRAME_RNR: nat := 0x05
  const S_FRAME_REJ: nat := 0x09
  const S_FRAME_SREJ: nat := 0x0D
  const S_FRAME_MASK: nat := 0x0D

  // Unnumbered frames
  const U_FRAME: nat := 3
  const U_FRAME_SABM: nat := 0x2F
  const U_FRAME_SABME: nat := 0x6B
  const U_FRAME_DISC: nat := 0x43
  const U_FRAME_DM: nat := 0x0F
  const U_FRAME_UA: nat := 0x63
  const U_FRAME_FRMR: nat := 0x87
  const U_FRAME_UI: nat := 0x03
  const U_FRAME_XID: nat := 0xAF
  const U_FRAME_TEST: nat := 0xE3
  const U_FRAME_MASK: nat := 0xEF

  // Protocol identifier: no layer-3 protocol
  const PID_NONE: nat := 0xF0
}
