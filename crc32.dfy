/**
 * CRC-32 with the IEEE 802.3 polynomial, as computed by Go's `hash/crc32.NewIEEE`:
 * reflected polynomial 0xEDB88320, register preset to all ones, final complement.
 * Go evaluates it through lookup tables; the model states the bit-at-a-time definition,
 * which yields the same checksum.
 */
module Crc32 {
  import opened GoStrings

  const Polynomial: bv32 := 0xEDB8_8320

  /** One bit step of the reflected shift register. */
  function ShiftBit(c: bv32): (r: bv32)
    ensures c & 1 == 0 ==> r == c >> 1
    ensures c & 1 == 1 ==> r == (c >> 1) ^ Polynomial
  {
    if c & 1 == 1 then (c >> 1) ^ Polynomial else c >> 1
  }

  /** Feed one byte into the register: xor it into the low bits, then eight bit steps. */
  function UpdateByte(c: bv32, b: byte): bv32 {
    var x := c ^ (b as bv32);
    ShiftBit(ShiftBit(ShiftBit(ShiftBit(ShiftBit(ShiftBit(ShiftBit(ShiftBit(x))))))))
  }

  /** Feed a byte string into the register, first byte first. */
  function Update(c: bv32, data: seq<byte>): bv32
    decreases |data|
  {
    if data == [] then c else Update(UpdateByte(c, data[0]), data[1..])
  }

  /** `Sum32` after one `Write(data)` on a fresh IEEE hasher. */
  function Checksum(data: seq<byte>): (r: nat)
    ensures r < 0x1_0000_0000
  {
    (Update(0xFFFF_FFFF, data) ^ 0xFFFF_FFFF) as nat
  }

  /** Reference values of CRC-32/IEEE: the empty input sums to 0 and "a" to 0xE8B7BE43. */
  lemma ReferenceValues()
    ensures Checksum([]) == 0
    ensures Checksum([0x61]) == 0xE8B7_BE43
  {
    var a: seq<byte> := [0x61];
    assert (0x61 as bv32) == 0x61;
    assert UpdateByte(0xFFFF_FFFF, a[0]) == 0x1748_41BC;
    assert a[1..] == [];
  }
}
