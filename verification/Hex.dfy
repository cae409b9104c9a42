/** Lower-case hexadecimal names: challenge ids of the relay and address names of the ratchet sessions. */
module Hex {
  import opened Bytes

  function Digit(n: nat): (c: char)
    requires n < 16
  {
    if n < 10 then ('0' as nat + n) as char else ('a' as nat + (n - 10)) as char
  }

  function Encode(b: seq<byte>): (s: string)
    ensures |s| == 2 * |b|
  {
    if b == [] then [] else [Digit(b[0] / 16), Digit(b[0] % 16)] + Encode(b[1..])
  }

  method EncodeBytes(b: seq<byte>) returns (s: string)
    ensures s == Encode(b)
  {
    s := [];
    for i := 0 to |b|
      invariant s + Encode(b[i..]) == Encode(b)
    {
      assert b[i..][1..] == b[i + 1..];
      s := s + [Digit(b[i] / 16), Digit(b[i] % 16)];
    }
    assert b[|b|..] == [];
  }

  /** Every byte is spelled by two lower-case digits, the high one first. */
  lemma {:induction false} EncodeAt(b: seq<byte>, i: nat)
    requires i < |b|
    ensures Encode(b)[2 * i] == "0123456789abcdef"[b[i] / 16] && Encode(b)[2 * i + 1] == "0123456789abcdef"[b[i] % 16]
  {
    if i > 0 {
      EncodeAt(b[1..], i - 1);
      assert Encode(b)[2 * i] == Encode(b[1..])[2 * (i - 1)] && Encode(b)[2 * i + 1] == Encode(b[1..])[2 * (i - 1) + 1];
    }
  }

  /** Distinct byte strings have distinct names. */
  lemma {:induction false} Injective(a: seq<byte>, b: seq<byte>)
    requires Encode(a) == Encode(b)
    ensures a == b
  {
    if a != [] {
      var x, y := Encode(a), Encode(b);
      assert x[0] == y[0] && x[1] == y[1] && x[2..] == y[2..];
      assert x[2..] == Encode(a[1..]) && y[2..] == Encode(b[1..]);
      Injective(a[1..], b[1..]);
      assert a[0] == a[0] / 16 * 16 + a[0] % 16 && b[0] == b[0] / 16 * 16 + b[0] % 16;
      assert a == [a[0]] + a[1..] && b == [b[0]] + b[1..];
    }
  }
}
