/** The command bytes and constants of TM1637.h, and the two commands the driver computes. */
module Commands {
  import opened Arith
  import opened Segments

  /** Data command: write with automatic address increment. */
  const AddrAuto: Int8 := 0x40
  /** Data command: write to a fixed address. */
  const AddrFixed: Int8 := 0x44
  /** Address command for digit 0. */
  const StartAddr: Byte := 0xc0

  const BrightDarkest: Byte := 0
  const BrightTypical: Byte := 2
  const Brightest: Byte := 7

  /** Number of digits on the display. */
  const Digits: nat := 4

  /** The display-control command kept by set: 0x88 + brightness, stored in a uint8_t. */
  function DispCtrl(brightness: Byte): (c: Byte)
    ensures brightness < 0x78 ==> c == 0x88 + brightness
    ensures brightness <= Brightest ==> 0x88 <= c <= 0x8f
    ensures brightness >= 0x78 ==> c == brightness - 0x78
  {
    (0x88 + brightness) % 256
  }

  /** The fixed-address command bit_addr | 0xc0; bit_addr itself is not range-checked. */
  function FixedAddress(bitAddr: Byte): (a: Byte)
    ensures a == StartAddr + bitAddr % 0x40
  {
    BitOrHigh(bitAddr, 6, 3);
    assert BitOr(bitAddr / 0x40, 3) == 3;
    BitOr(bitAddr, 0xc0)
  }

  /** The header's defaults for set give full addressing and the typical brightness 0x8a. */
  lemma DefaultSettings()
    ensures DispCtrl(BrightTypical) == 0x8a
    ensures DispCtrl(BrightDarkest) == 0x88 && DispCtrl(Brightest) == 0x8f
  {
  }

  /** The four digit positions address 0xc0..0xc3, one to one. */
  lemma DigitAddresses(pos: Byte)
    requires pos < Digits
    ensures StartAddr <= FixedAddress(pos) < StartAddr + Digits
    ensures FixedAddress(pos) - StartAddr == pos
  {
  }
}
