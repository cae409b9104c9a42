/** Bytes, fixed-width integer encodings and powers of two shared by every wire format. */
module Bytes {

  /** A `u8`. Bit-level code converts to `bv8` where shifts and masks matter. */
  type byte = x: int | 0 <= x < 256

  datatype Option<+T> = None | Some(value: T) {
    predicate IsFailure() { None? }
    function PropagateFailure<U>(): Option<U>
      requires None?
    {
      None
    }
    function Extract(): T
      requires Some?
    {
      value
    }
  }

  function Get<K, V>(m: map<K, V>, k: K): Option<V> {
    if k in m then Some(m[k]) else None
  }

  function Pow2(n: nat): (p: nat)
    ensures p >= 1
  {
    if n == 0 then 1 else 2 * Pow2(n - 1)
  }

  lemma {:induction false} Pow2Add(a: nat, b: nat)
    ensures Pow2(a + b) == Pow2(a) * Pow2(b)
  {
    if a > 0 { Pow2Add(a - 1, b); }
  }

  lemma Pow2Widths()
    ensures Pow2(8) == 0x100 && Pow2(16) == 0x1_0000 && Pow2(32) == 0x1_0000_0000
  {
    Pow2Add(8, 8);
    Pow2Add(16, 16);
  }

  /** `x` shifted left by `bits`. */
  function Shifted(x: nat, bits: nat): nat { x * Pow2(bits) }

  /** The low `8 * width` bits of `n`, most significant byte first (`to_be_bytes` after an `as` cast). */
  function BigEndian(n: nat, width: nat): (b: seq<byte>)
    ensures |b| == width
  {
    if width == 0 then [] else BigEndian(n / 256, width - 1) + [n % 256]
  }

  function BigEndianValue(b: seq<byte>): nat {
    if b == [] then 0 else 256 * BigEndianValue(b[..|b| - 1]) + b[|b| - 1]
  }

  /** The low `8 * width` bits of `n`, least significant byte first (`to_le_bytes`). */
  function LittleEndian(n: nat, width: nat): (b: seq<byte>)
    ensures |b| == width
  {
    if width == 0 then [] else [n % 256] + LittleEndian(n / 256, width - 1)
  }

  function LittleEndianValue(b: seq<byte>): nat {
    if b == [] then 0 else b[0] + 256 * LittleEndianValue(b[1..])
  }

  lemma {:induction false} BigEndianRoundTrip(n: nat, width: nat)
    requires n < Pow2(8 * width)
    ensures BigEndianValue(BigEndian(n, width)) == n
  {
    if width > 0 {
      Pow2Add(8 * (width - 1), 8);
      BigEndianRoundTrip(n / 256, width - 1);
      var b := BigEndian(n, width);
      assert b[..|b| - 1] == BigEndian(n / 256, width - 1);
    }
  }

  lemma {:induction false} BigEndianInverse(b: seq<byte>)
    ensures BigEndianValue(b) < Pow2(8 * |b|)
    ensures BigEndian(BigEndianValue(b), |b|) == b
  {
    if b != [] {
      var init := b[..|b| - 1];
      BigEndianInverse(init);
      Pow2Add(8 * |init|, 8);
      assert b == init + [b[|b| - 1]];
    }
  }

  lemma {:induction false} LittleEndianRoundTrip(n: nat, width: nat)
    requires n < Pow2(8 * width)
    ensures LittleEndianValue(LittleEndian(n, width)) == n
  {
    if width > 0 {
      Pow2Add(8 * (width - 1), 8);
      LittleEndianRoundTrip(n / 256, width - 1);
    }
  }

  lemma {:induction false} LittleEndianInverse(b: seq<byte>)
    ensures LittleEndianValue(b) < Pow2(8 * |b|)
    ensures LittleEndian(LittleEndianValue(b), |b|) == b
  {
    if b == [] { return; }
    LittleEndianInverse(b[1..]);
    ghost var p, m := Pow2(8 * (|b| - 1)), LittleEndianValue(b[1..]);
    assert Pow2(8 * |b|) == p * 256 by { Pow2Add(8 * (|b| - 1), 8); }
    LowByte(b[0], m);
    hide Pow2;
    assert b == [b[0]] + b[1..];
  }

  lemma LowByte(b: byte, m: nat)
    ensures (b + 256 * m) % 256 == b && (b + 256 * m) / 256 == m
  {}

  /** Splitting off the most significant byte instead of the least significant one. */
  lemma {:induction false} BigEndianValueFromFront(b: seq<byte>)
    requires b != []
    ensures BigEndianValue(b) == Shifted(b[0], 8 * (|b| - 1)) + BigEndianValue(b[1..])
  {
    if |b| == 1 {
      assert b[..0] == [];
    } else {
      var init, tail := b[..|b| - 1], b[1..];
      BigEndianValueFromFront(init);
      assert tail[..|tail| - 1] == init[1..];
      ghost var p, v := Pow2(8 * (|init| - 1)), BigEndianValue(init[1..]);
      assert Pow2(8 * |init|) == 256 * p by { Pow2Add(8, 8 * (|init| - 1)); }
      Distribute(b[0], p, v);
    }
  }

  lemma Distribute(x: int, p: int, v: int)
    ensures 256 * (x * p + v) == x * (256 * p) + 256 * v
  {}
}
