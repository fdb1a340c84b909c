/** CRC-32/ISO-HDLC, as both `management_frame.c` and `configuration_service.c` compute it. */
module Crc32 {
  import opened Bytes
  import opened Bits

  const POLYNOMIAL := 0xEDB8_8320

  /** The generator of CRC-32 without x^32; x^k is bit 31 - k. */
  lemma PolynomialIsStandard()
    ensures POLYNOMIAL
            == Pow2(31 - 26) + Pow2(31 - 23) + Pow2(31 - 22) + Pow2(31 - 16) + Pow2(31 - 12) + Pow2(31 - 11) + Pow2(31 - 10)
               + Pow2(31 - 8) + Pow2(31 - 7) + Pow2(31 - 5) + Pow2(31 - 4) + Pow2(31 - 2) + Pow2(31 - 1) + Pow2(31 - 0)
  {
    assert Pow2(5) == 0x20;
    assert Pow2(8) == 0x100 && Pow2(9) == 0x200;
    assert Pow2(12) == 0x1000;
    assert Pow2(15) == 0x8000;
    assert Pow2(19) == 0x8_0000 && Pow2(20) == 0x10_0000 && Pow2(21) == 0x20_0000;
    assert Pow2(23) == 0x80_0000 && Pow2(24) == 0x100_0000;
    assert Pow2(26) == 0x400_0000 && Pow2(27) == 0x800_0000;
    assert Pow2(29) == 0x2000_0000 && Pow2(30) == 0x4000_0000 && Pow2(31) == 0x8000_0000;
  }

  function BitStep(crc: u32): u32 {
    if crc % 2 != 0 then WidthKept(crc / 2, POLYNOMIAL); Xor(crc / 2, POLYNOMIAL) else crc / 2
  }

  function BitSteps(crc: u32, n: nat): u32 {
    if n == 0 then crc else BitStep(BitSteps(crc, n - 1))
  }

  /** The register after the bytes of `s`. */
  function Register(s: seq<byte>): u32 {
    if s == [] then 0xFFFF_FFFF
    else
      var r := Register(s[..|s| - 1]);
      WidthKept(r, s[|s| - 1]);
      BitSteps(Xor(r, s[|s| - 1]), 8)
  }

  function Crc(s: seq<byte>): u32 {
    WidthKept(Register(s), 0xFFFF_FFFF);
    Xor(Register(s), 0xFFFF_FFFF)
  }

  lemma WidthKept(a: u32, b: u32)
    ensures Xor(a, b) < 0x1_0000_0000
  {
    hide Pow2, Xor;
    ThirtyTwoBits();
    XorRange(a, b, 32);
  }

  /** The loops of `management_frame_crc32` and of `crc32` in `configuration_service.c`, over `length` bytes from `at`. */
  method Calculate(data: array<byte>, at: nat, length: nat) returns (crc: u32)
    requires at + length <= data.Length
    ensures crc == Crc(data[at..at + length])
  {
    hide Xor, BitSteps;
    crc := 0xFFFF_FFFF;
    var byteIndex := 0;
    while byteIndex < length
      invariant 0 <= byteIndex <= length
      invariant crc == Register(data[at..at + byteIndex])
    {
      crc := FeedByte(crc, data[at + byteIndex]);
      assert data[at..at + byteIndex + 1][..byteIndex] == data[at..at + byteIndex];
      byteIndex := byteIndex + 1;
    }
    WidthKept(crc, 0xFFFF_FFFF);
    crc := Xor(crc, 0xFFFF_FFFF);
  }

  /** The body of the outer loop. */
  method FeedByte(register: u32, b: byte) returns (crc: u32)
    ensures Xor(register, b) < 0x1_0000_0000 && crc == BitSteps(Xor(register, b), 8)
  {
    hide Xor;
    WidthKept(register, b);
    ghost var start := Xor(register, b);
    crc := Xor(register, b);
    var bitIndex := 0;
    while bitIndex < 8
      invariant 0 <= bitIndex <= 8
      invariant crc == BitSteps(start, bitIndex)
    {
      if crc % 2 != 0 {
        WidthKept(crc / 2, POLYNOMIAL);
        crc := Xor(crc / 2, POLYNOMIAL);
      } else {
        crc := crc / 2;
      }
      bitIndex := bitIndex + 1;
    }
  }
}
