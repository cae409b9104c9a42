/**
 The shifts, masks and ors of the source on `u8` values, and the quotients and remainders they amount to. Each function
 is written as the source writes it; its contract is the arithmetic that the proofs use.
 */
module Bits {
  import opened Bytes

  lemma Double(x: bv8)
    requires x as int < 128
    ensures (x << 1) as int == 2 * (x as int)
    ensures ((x << 1) | 1) as int == 2 * (x as int) + 1
  {}

  /** The `u8` with a given value. */
  function U8(b: byte): (x: bv8)
    ensures x as int == b
    decreases b
  {
    if b == 0 then 0
    else
      Double(U8(b / 2));
      if b % 2 == 0 then U8(b / 2) << 1 else (U8(b / 2) << 1) | 1
  }

  // ---------------------------------------------------------------- parts of one byte

  lemma Right(x: bv8)
    ensures (x >> 2) as int == x as int / 4
    ensures (x >> 4) as int == x as int / 16
    ensures (x >> 6) as int == x as int / 64
  {}

  lemma Low6(x: bv8)
    ensures (x & 0x3F) as int == x as int % 64
  {}

  lemma Low2At4(x: bv8)
    ensures ((x << 4) & 0x30) as int == x as int % 4 * 16
  {}

  lemma Low4At2(x: bv8)
    ensures ((x << 2) & 0x3C) as int == x as int % 16 * 4
  {}

  lemma Left2(x: bv8)
    requires x < 64
    ensures (x << 2) as int == x as int * 4
  {}

  lemma Left4(x: bv8)
    ensures (x << 4) as int == x as int % 16 * 16
  {}

  lemma Left6(x: bv8)
    ensures (x << 6) as int == x as int % 4 * 64
  {}

  /** Parts without a common bit: joining them is adding them. */
  lemma Join(x: bv8, y: bv8)
    requires x & y == 0
    ensures (x | y) as int == x as int + y as int
  {}

  // ---------------------------------------------------------------- the table indices of an encoded group

  lemma Join1(x: bv8, y: bv8)
    ensures (((x << 4) & 0x30) | (y >> 4)) as int == x as int % 4 * 16 + y as int / 16
  {
    Low2At4(x);
    Right(y);
    Join((x << 4) & 0x30, y >> 4);
  }

  lemma Join2(x: bv8, y: bv8)
    ensures (((x << 2) & 0x3C) | (y >> 6)) as int == x as int % 16 * 4 + y as int / 64
  {
    Low4At2(x);
    Right(y);
    Join((x << 2) & 0x3C, y >> 6);
  }

  function Index0(b0: byte): (v: nat)
    ensures v == b0 / 4
  {
    Right(U8(b0));
    (U8(b0) >> 2) as int
  }

  function Index1(b0: byte, b1: byte): (v: nat)
    ensures v == b0 % 4 * 16 + b1 / 16
  {
    Join1(U8(b0), U8(b1));
    (((U8(b0) << 4) & 0x30) | (U8(b1) >> 4)) as int
  }

  function Index2(b1: byte, b2: byte): (v: nat)
    ensures v == b1 % 16 * 4 + b2 / 64
  {
    Join2(U8(b1), U8(b2));
    (((U8(b1) << 2) & 0x3C) | (U8(b2) >> 6)) as int
  }

  function Index3(b2: byte): (v: nat)
    ensures v == b2 % 64
  {
    Low6(U8(b2));
    (U8(b2) & 0x3F) as int
  }

  // ---------------------------------------------------------------- the bytes of a decoded quad

  lemma Below64(x: bv8)
    ensures x < 64 <==> x as int < 64
  {}

  lemma JoinByte0(x: bv8, y: bv8)
    requires x < 64 && y < 64
    ensures ((x << 2) | (y >> 4)) as int == x as int * 4 + y as int / 16
  {
    Left2(x);
    Right(y);
    Join(x << 2, y >> 4);
  }

  lemma JoinByte1(x: bv8, y: bv8)
    requires x < 64 && y < 64
    ensures ((x << 4) | (y >> 2)) as int == x as int % 16 * 16 + y as int / 4
  {
    Left4(x);
    Right(y);
    Join(x << 4, y >> 2);
  }

  lemma JoinByte2(x: bv8, y: bv8)
    requires x < 64 && y < 64
    ensures ((x << 6) | y) as int == x as int % 4 * 64 + y as int
  {
    Left6(x);
    Join(x << 6, y);
  }

  function Byte0(v0: byte, v1: byte): (b: byte)
    requires v0 < 64 && v1 < 64
    ensures b == v0 * 4 + v1 / 16
  {
    Below64(U8(v0));
    Below64(U8(v1));
    JoinByte0(U8(v0), U8(v1));
    ((U8(v0) << 2) | (U8(v1) >> 4)) as int
  }

  function Byte1(v1: byte, v2: byte): (b: byte)
    requires v1 < 64 && v2 < 64
    ensures b == v1 % 16 * 16 + v2 / 4
  {
    Below64(U8(v1));
    Below64(U8(v2));
    JoinByte1(U8(v1), U8(v2));
    ((U8(v1) << 4) | (U8(v2) >> 2)) as int
  }

  function Byte2(v2: byte, v3: byte): (b: byte)
    requires v2 < 64 && v3 < 64
    ensures b == v2 % 4 * 64 + v3
  {
    Below64(U8(v2));
    Below64(U8(v3));
    JoinByte2(U8(v2), U8(v3));
    ((U8(v2) << 6) | U8(v3)) as int
  }

  // ---------------------------------------------------------------- the difficulty mask

  /** `b & (0xFF << (8 - bits)) == 0` on eight bits, where the shift drops the high bits of the mask. */
  predicate Masked(b: byte, bits: nat)
    requires 0 < bits < 8
  {
    U8(b) & (0xFF << (8 - bits)) == 0
  }

  /** The same on 32 bits, where the shift keeps them. */
  predicate MaskedWide(b: byte, bits: nat)
    requires 0 < bits < 8
  {
    U8(b) as bv32 & (0xFF << (8 - bits)) == 0
  }

  lemma MaskAt(x: bv8)
    ensures x & (0xFF << 7) == 0 <==> x as int < 128
    ensures x & (0xFF << 6) == 0 <==> x as int < 64
    ensures x & (0xFF << 5) == 0 <==> x as int < 32
    ensures x & (0xFF << 4) == 0 <==> x as int < 16
    ensures x & (0xFF << 3) == 0 <==> x as int < 8
    ensures x & (0xFF << 2) == 0 <==> x as int < 4
    ensures x & (0xFF << 1) == 0 <==> x as int < 2
  {}

  lemma WideMaskAt(x: bv8)
    ensures x as bv32 & (0xFF << 7) == 0 <==> x as int < 128
    ensures x as bv32 & (0xFF << 6) == 0 <==> x as int < 64
    ensures x as bv32 & (0xFF << 5) == 0 <==> x as int < 32
    ensures x as bv32 & (0xFF << 4) == 0 <==> x as int < 16
    ensures x as bv32 & (0xFF << 3) == 0 <==> x as int < 8
    ensures x as bv32 & (0xFF << 2) == 0 <==> x as int < 4
    ensures x as bv32 & (0xFF << 1) == 0 <==> x as int < 2
  {}

  lemma SmallPowers()
    ensures Pow2(7) == 128 && Pow2(6) == 64 && Pow2(5) == 32 && Pow2(4) == 16
    ensures Pow2(3) == 8 && Pow2(2) == 4 && Pow2(1) == 2
  {}

  /** Both masks test whether the byte lies below the remaining power of two. */
  lemma MaskIsBound(b: byte, bits: nat)
    requires 0 < bits < 8
    ensures Masked(b, bits) <==> b < Pow2(8 - bits)
    ensures MaskedWide(b, bits) <==> b < Pow2(8 - bits)
  {
    hide Pow2;
    MaskAt(U8(b));
    WideMaskAt(U8(b));
    SmallPowers();
    match bits { case 1 => case 2 => case 3 => case 4 => case 5 => case 6 => case 7 => }
  }
}
