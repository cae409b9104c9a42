/** The relay's hand-written base64 codec (section 4 of RFC 4648), relay/src/ws.rs. */
module Base64 {
  import opened Bytes
  import Bits

  datatype Result = Ok(data: seq<byte>) | Err

  predicate Blank(c: char) { c == '\n' || c == '\r' || c == ' ' }

  function Strip(s: string): string {
    if s == [] then [] else (if Blank(s[0]) then [] else [s[0]]) + Strip(s[1..])
  }

  function Lookup(c: char): (v: Option<nat>)
    ensures v.Some? ==> v.value < 64
  {
    if 'A' <= c <= 'Z' then Some(c as nat - 'A' as nat)
    else if 'a' <= c <= 'z' then Some(c as nat - 'a' as nat + 26)
    else if '0' <= c <= '9' then Some(c as nat - '0' as nat + 52)
    else if c == '+' then Some(62)
    else if c == '/' then Some(63)
    else None
  }

  /** Entry `v` of the 64-character alphabet table. */
  function Letter(v: nat): (c: char)
    requires v < 64
    ensures Lookup(c) == Some(v) && !Blank(c) && c != '='
  {
    if v < 26 then ('A' as nat + v) as char
    else if v < 52 then ('a' as nat + (v - 26)) as char
    else if v < 62 then ('0' as nat + (v - 52)) as char
    else if v == 62 then '+' else '/'
  }

  lemma LetterOfLookup(c: char)
    requires Lookup(c).Some?
    ensures Letter(Lookup(c).value) == c
  {}

  // ---------------------------------------------------------------- encoding

  /** One output quad, in arithmetic, for a group of one to three bytes; missing bytes count as zero and print as '='. */
  function EncodeGroup(g: seq<byte>): (q: string)
    requires 1 <= |g| <= 3
    ensures |q| == 4
  {
    var b0, b1, b2 := g[0], if |g| > 1 then g[1] else 0, if |g| > 2 then g[2] else 0;
    [Letter(b0 / 4),
     Letter(b0 % 4 * 16 + b1 / 16),
     if |g| > 1 then Letter(b1 % 16 * 4 + b2 / 64) else '=',
     if |g| > 2 then Letter(b2 % 64) else '=']
  }

  function Encode(data: seq<byte>): string {
    if data == [] then []
    else if |data| <= 3 then EncodeGroup(data)
    else EncodeGroup(data[..3]) + Encode(data[3..])
  }

  /** The body of the source's loop, with its shifts and masks. */
  method EncodeOneGroup(data: seq<byte>, i: nat) returns (q: string)
    requires i < |data|
    ensures q == EncodeGroup(if i + 3 < |data| then data[i..i + 3] else data[i..])
  {
    hide Letter;
    hide Bits.Index0;
    hide Bits.Index1;
    hide Bits.Index2;
    hide Bits.Index3;
    var b0 := data[i];
    var b1 := if i + 1 < |data| then data[i + 1] else 0;
    var b2 := if i + 2 < |data| then data[i + 2] else 0;
    q := [Letter(Bits.Index0(b0)), Letter(Bits.Index1(b0, b1))];
    if i + 1 < |data| { q := q + [Letter(Bits.Index2(b1, b2))]; } else { q := q + ['=']; }
    if i + 2 < |data| { q := q + [Letter(Bits.Index3(b2))]; } else { q := q + ['=']; }
  }

  method EncodeBytes(data: seq<byte>) returns (out: string)
    ensures out == Encode(data)
  {
    hide EncodeGroup;
    out := [];
    var i := 0;
    while i < |data|
      invariant 0 <= i
      invariant out + Encode(TailFrom(data, i)) == Encode(data)
    {
      var q := EncodeOneGroup(data, i);
      EncodeStep(data, i, q);
      assert (out + q) + Encode(TailFrom(data, i + 3)) == out + (q + Encode(TailFrom(data, i + 3)));
      out := out + q;
      i := i + 3;
    }
  }

  function TailFrom(data: seq<byte>, i: nat): seq<byte> {
    if i < |data| then data[i..] else []
  }

  lemma EncodeStep(data: seq<byte>, i: nat, q: string)
    requires i < |data|
    requires q == EncodeGroup(if i + 3 < |data| then data[i..i + 3] else data[i..])
    ensures Encode(data[i..]) == q + Encode(TailFrom(data, i + 3))
  {
    hide EncodeGroup;
    var rest := data[i..];
    if |rest| > 3 {
      assert rest[..3] == data[i..i + 3];
      assert rest[3..] == data[i + 3..];
    }
  }

  // ---------------------------------------------------------------- decoding

  /** What the decoder's up-front checks let through: alphabet or '=', no '=' before the last two, whole quads. */
  predicate WellFormed(t: string) {
    && (forall i :: 0 <= i < |t| ==> t[i] == '=' || Lookup(t[i]).Some?)
    && (forall i :: 0 <= i < |t| - 2 ==> t[i] != '=')
    && |t| % 4 == 0
  }

  /** A '=' slot contributes zero bits. */
  function Sextet(c: char): (v: nat)
    ensures v < 64
  {
    if c == '=' || Lookup(c) == None then 0 else Lookup(c).value
  }

  function DecodeQuad(q: string): (d: seq<byte>)
    requires |q| == 4
    ensures 1 <= |d| <= 3
  {
    var v0, v1, v2, v3 := Sextet(q[0]), Sextet(q[1]), Sextet(q[2]), Sextet(q[3]);
    [v0 * 4 + v1 / 16]
    + (if q[2] == '=' then [] else [v1 % 16 * 16 + v2 / 4])
    + (if q[3] == '=' then [] else [v2 % 4 * 64 + v3])
  }

  function DecodeQuads(t: string): seq<byte>
    requires |t| % 4 == 0
  {
    if t == [] then [] else DecodeQuad(t[..4]) + DecodeQuads(t[4..])
  }

  function Decode(s: string): Result {
    var t := Strip(s);
    if WellFormed(t) then Ok(DecodeQuads(t)) else Err
  }

  method StripText(s: string) returns (t: string)
    ensures t == Strip(s)
  {
    t := [];
    for i := 0 to |s|
      invariant t + Strip(s[i..]) == Strip(s)
    {
      assert s[i..][1..] == s[i + 1..];
      if !Blank(s[i]) { t := t + [s[i]]; }
    }
    assert s[|s|..] == [];
  }

  /** `b64_decode`, with its early exits: the proof shows that neither `break` ever skips a quad. */
  method DecodeText(s: string) returns (r: Result)
    ensures r == Decode(s)
  {
    var t := StripText(s);
    if t == [] { return Ok([]); }
    for i := 0 to |t|
      invariant forall j :: 0 <= j < i ==> t[j] == '=' || Lookup(t[j]).Some?
    {
      if t[i] != '=' && Lookup(t[i]) == None { return Err; }
    }
    var nonPad := 0;
    while nonPad < |t| && t[nonPad] != '='
      invariant 0 <= nonPad <= |t|
      invariant forall j :: 0 <= j < nonPad ==> t[j] != '='
    {
      nonPad := nonPad + 1;
    }
    if |t| - nonPad > 2 { return Err; }
    if |t| % 4 != 0 { return Err; }
    var out := DecodeGroups(t);
    r := Ok(out);
  }

  method CountData(q: string) returns (n: nat)
    ensures n == 0 <==> forall j :: 0 <= j < |q| ==> q[j] == '='
    ensures n == |q| <==> '=' !in q
  {
    n := 0;
    for k := 0 to |q|
      invariant n <= k
      invariant n == 0 <==> forall j :: 0 <= j < k ==> q[j] == '='
      invariant n == k <==> forall j :: 0 <= j < k ==> q[j] != '='
    {
      if q[k] != '=' { n := n + 1; }
    }
  }

  lemma DecodeStep(t: string, p: nat, out: seq<byte>)
    requires |t| % 4 == 0 && p % 4 == 0 && p + 4 <= |t|
    requires out + DecodeQuads(t[p..]) == DecodeQuads(t)
    ensures out + DecodeQuad(t[p..p + 4]) + DecodeQuads(t[p + 4..]) == DecodeQuads(t)
  {
    hide DecodeQuad;
    assert t[p..][..4] == t[p..p + 4] && t[p..][4..] == t[p + 4..];
  }

  lemma LastQuad(t: string, p: nat)
    requires WellFormed(t) && p % 4 == 0 && p + 4 <= |t|
    requires '=' in t[p..p + 4]
    ensures p + 4 == |t|
  {
    var j :| 0 <= j < 4 && t[p..p + 4][j] == '=';
    assert t[p + j] == '=';
  }

  lemma NoQuadsLeft(t: string, p: nat)
    requires p == |t|
    ensures DecodeQuads(t[p..]) == []
  {
  }

  lemma QuadHasData(t: string, p: nat)
    requires WellFormed(t) && p % 4 == 0 && p < |t|
    ensures p + 4 <= |t| && t[p..p + 4][1] != '='
  {
  }

  /** The bytes of one quad, with the source's shifts. */
  method DecodeOneQuad(q: string) returns (out: seq<byte>)
    requires |q| == 4
    ensures out == DecodeQuad(q)
  {
    hide Sextet;
    hide Bits.Byte0;
    hide Bits.Byte1;
    hide Bits.Byte2;
    var v0, v1, v2, v3 := Sextet(q[0]), Sextet(q[1]), Sextet(q[2]), Sextet(q[3]);
    out := [Bits.Byte0(v0, v1)];
    if q[2] != '=' { out := out + [Bits.Byte1(v1, v2)]; }
    if q[3] != '=' { out := out + [Bits.Byte2(v2, v3)]; }
  }

  /** The quad loop. A '=' stops it, which is harmless: well-formed text has one only in the last quad. */
  method DecodeGroups(t: string) returns (out: seq<byte>)
    requires WellFormed(t)
    ensures out == DecodeQuads(t)
  {
    assert |t| % 4 == 0;
    hide DecodeQuad;
    hide DecodeQuads;
    hide WellFormed;
    out := [];
    var p := 0;
    assert t[0..] == t;
    while p < |t|
      invariant 0 <= p <= |t| && p % 4 == 0
      invariant out + DecodeQuads(t[p..]) == DecodeQuads(t)
    {
      QuadHasData(t, p);
      DecodeStep(t, p, out);
      var n := CountData(t[p..p + 4]);
      if n == 0 { break; }
      var group := DecodeOneQuad(t[p..p + 4]);
      out := out + group;
      p := p + 4;
      if n < 4 {
        LastQuad(t, p - 4);
        break;
      }
    }
    NoQuadsLeft(t, p);
  }

  // ---------------------------------------------------------------- properties

  lemma {:induction false} EncodeLength(data: seq<byte>)
    ensures |Encode(data)| == 4 * ((|data| + 2) / 3)
  {
    hide EncodeGroup;
    if |data| > 3 { EncodeLength(data[3..]); }
  }

  lemma SplitThenJoin(a: byte, b: byte)
    ensures a / 4 * 4 + (a % 4 * 16 + b / 16) / 16 == a
    ensures (a % 4 * 16 + b / 16) % 16 == b / 16
    ensures (a % 16 * 4 + b / 64) / 4 == a % 16
    ensures (a % 16 * 4 + b / 64) % 4 * 64 + b % 64 == b
  {}

  lemma DecodeOfGroup(g: seq<byte>)
    requires 1 <= |g| <= 3
    ensures DecodeQuad(EncodeGroup(g)) == g
  {
    hide Letter;
    hide Lookup;
    var q := EncodeGroup(g);
    SplitThenJoin(g[0], if |g| > 1 then g[1] else 0);
    if |g| > 1 { SplitThenJoin(g[1], if |g| > 2 then g[2] else 0); }
  }

  lemma {:induction false} EncodeWellFormed(data: seq<byte>)
    ensures WellFormed(Encode(data))
    ensures DecodeQuads(Encode(data)) == data
  {
    hide DecodeQuad;
    hide Letter;
    hide Lookup;
    if |data| > 3 {
      var g, rest := EncodeGroup(data[..3]), Encode(data[3..]);
      EncodeWellFormed(data[3..]);
      EncodeLength(data[3..]);
      DecodeOfGroup(data[..3]);
      assert Encode(data)[..4] == g && Encode(data)[4..] == rest;
      assert data == data[..3] + data[3..];
    } else if data != [] {
      DecodeOfGroup(data);
      assert Encode(data)[..4] == Encode(data) && Encode(data)[4..] == [];
    }
  }

  lemma {:induction false} StripNothing(t: string)
    requires forall i :: 0 <= i < |t| ==> !Blank(t[i])
    ensures Strip(t) == t
  {
    if t != [] { StripNothing(t[1..]); }
  }

  lemma EncodeHasNoBlanks(data: seq<byte>)
    ensures Strip(Encode(data)) == Encode(data)
  {
    EncodeWellFormed(data);
    StripNothing(Encode(data));
  }

  lemma DecodeOfStripped(data: seq<byte>, s: string)
    requires Strip(s) == Encode(data)
    ensures Decode(s) == Ok(data)
  {
    EncodeWellFormed(data);
  }

  /** `s` is `t` with spaces, carriage returns and line feeds inserted anywhere. */
  predicate Interleaved(t: string, s: string) {
    if s == [] then t == []
    else (s[0] in {' ', '\r', '\n'} && Interleaved(t, s[1..])) || (t != [] && s[0] == t[0] && Interleaved(t[1..], s[1..]))
  }

  lemma {:induction false} StripInterleaved(t: string, s: string)
    requires Interleaved(t, s) && forall i :: 0 <= i < |t| ==> !Blank(t[i])
    ensures Strip(s) == t
  {
    if s != [] {
      if s[0] in {' ', '\r', '\n'} {
        StripInterleaved(t, s[1..]);
      } else {
        StripInterleaved(t[1..], s[1..]);
        assert t == [t[0]] + t[1..];
      }
    }
  }

  /** Decoding an encoding gives the bytes back, whatever blanks were inserted. */
  lemma RoundTrip(data: seq<byte>, s: string)
    requires Interleaved(Encode(data), s)
    ensures Decode(s) == Ok(data)
  {
    hide Decode;
    hide Encode;
    EncodeLetters(data);
    StripInterleaved(Encode(data), s);
    DecodeOfStripped(data, s);
  }

  lemma EncodeLetters(data: seq<byte>)
    ensures forall i :: 0 <= i < |Encode(data)| ==> !Blank(Encode(data)[i])
  {
    hide Encode;
    EncodeWellFormed(data);
    var t := Encode(data);
    forall i | 0 <= i < |t| ensures !Blank(t[i]) { assert t[i] == '=' || Lookup(t[i]).Some?; }
  }

  const ALPHABET: string := "ABCDEFGHIJKLMNOP" + "QRSTUVWXYZabcdef" + "ghijklmnopqrstuv" + "wxyz0123456789+/"

  lemma Letters0(v: nat)
    requires v < 16
    ensures Letter(v) == "ABCDEFGHIJKLMNOP"[v]
  {}

  lemma Letters16(v: nat)
    requires v < 16
    ensures Letter(16 + v) == "QRSTUVWXYZabcdef"[v]
  {}

  lemma Letters32(v: nat)
    requires v < 16
    ensures Letter(32 + v) == "ghijklmnopqrstuv"[v]
  {}

  lemma Letters48(v: nat)
    requires v < 16
    ensures Letter(48 + v) == "wxyz0123456789+/"[v]
  {}

  /** The letters are those of section 4 of RFC 4648, in its order, and no other character has a value. */
  lemma AlphabetTable(c: char, v: nat)
    requires v < 64
    ensures |ALPHABET| == 64 && Letter(v) == ALPHABET[v]
    ensures Lookup(c) == Some(v) <==> c == ALPHABET[v]
  {
    if Lookup(c) == Some(v) { LetterOfLookup(c); }
    hide Lookup;
    hide Letter;
    if v < 16 { Letters0(v); }
    else if v < 32 { Letters16(v - 16); }
    else if v < 48 { Letters32(v - 32); }
    else { Letters48(v - 48); }
  }

  /** A group's bytes and its letters spell the same number, most significant part first. */
  lemma GroupValue(g: seq<byte>)
    requires 1 <= |g| <= 3
    ensures var q := EncodeGroup(g);
            && g[0] as int * 65536 + (if |g| > 1 then g[1] as int * 256 else 0) + (if |g| > 2 then g[2] else 0)
               == 262144 * Sextet(q[0]) + 4096 * Sextet(q[1]) + 64 * Sextet(q[2]) + Sextet(q[3])
            && q[0] != '=' && q[1] != '=' && (q[2] == '=' <==> |g| < 2) && (q[3] == '=' <==> |g| < 3)
  {
    hide Letter;
  }

  predicate Legal(c: char) { c in ALPHABET || c in {'=', ' ', '\r', '\n'} }

  lemma LegalIff(c: char)
    ensures Legal(c) <==> c in {' ', '\r', '\n'} || c == '=' || Lookup(c).Some?
  {
    hide Lookup;
    hide ALPHABET;
    InAlphabet(c);
  }

  lemma LegalText(s: string)
    ensures (forall c :: c in s ==> Legal(c)) <==> (forall c :: c in Strip(s) ==> c == '=' || Lookup(c).Some?)
  {
    hide Lookup;
    hide Legal;
    hide Strip;
    StripKeeps(s);
    forall c: char ensures Legal(c) <==> c in {' ', '\r', '\n'} || c == '=' || Lookup(c).Some? { LegalIff(c); }
  }

  lemma DataText(t: string)
    ensures (forall c :: c in t ==> c == '=' || Lookup(c).Some?)
       <==> (forall i :: 0 <= i < |t| ==> t[i] == '=' || Lookup(t[i]).Some?)
  {
    hide Lookup;
    if forall c :: c in t ==> c == '=' || Lookup(c).Some? {
      forall i | 0 <= i < |t| ensures t[i] == '=' || Lookup(t[i]).Some? { assert t[i] in t; }
    }
  }

  /** Exactly the texts that are accepted. */
  lemma AcceptsIff(s: string)
    ensures Decode(s).Ok? <==>
      (&& (forall c :: c in s ==> Legal(c))
       && |Strip(s)| % 4 == 0
       && forall i :: 0 <= i < |Strip(s)| && Strip(s)[i] == '=' ==> |Strip(s)| - i <= 2)
  {
    hide Lookup;
    hide Legal;
    hide Strip;
    hide DecodeQuads;
    LegalText(s);
    DataText(Strip(s));
  }

  lemma InAlphabet(c: char)
    ensures Lookup(c).Some? <==> c in ALPHABET
  {
    if Lookup(c).Some? { AlphabetTable(c, Lookup(c).value); }
    if c in ALPHABET {
      var v :| 0 <= v < |ALPHABET| && ALPHABET[v] == c;
      AlphabetTable(c, v);
    }
  }

  lemma {:induction false} StripKeeps(s: string)
    ensures forall c :: c in Strip(s) <==> c in s && c !in {' ', '\r', '\n'}
  {
    if s != [] {
      StripKeeps(s[1..]);
      assert s == [s[0]] + s[1..];
    }
  }

  lemma WellFormedTail(t: string)
    requires WellFormed(t) && |t| > 4
    ensures WellFormed(t[4..])
    ensures forall i :: 0 <= i < 4 ==> t[i] != '='
  {}

  lemma QuadLength(q: string)
    requires |q| == 4 && q[0] != '=' && q[1] != '='
    ensures |DecodeQuad(q)| + multiset(q)['='] == 3
  {
    assert q == [q[0], q[1], q[2], q[3]];
  }

  /** Every accepted text decodes all its quads: three bytes each, less one per '='. */
  lemma {:induction false} DecodedLength(t: string)
    requires WellFormed(t)
    ensures |DecodeQuads(t)| + multiset(t)['='] == 3 * (|t| / 4)
  {
    hide DecodeQuad;
    if t != [] {
      QuadLength(t[..4]);
      assert t == t[..4] + t[4..];
      if |t| > 4 { WellFormedTail(t); }
      DecodedLength(t[4..]);
    }
  }

  /** A final quad as an encoder would write it: '=' only at the very end, and zero spare bits before it. */
  predicate CanonicalQuad(q: string)
    requires |q| == 4
  {
    && (q[2] == '=' ==> q[3] == '=' && Sextet(q[1]) % 16 == 0)
    && (q[2] != '=' && q[3] == '=' ==> Sextet(q[2]) % 4 == 0)
  }

  predicate Canonical(t: string) {
    |t| >= 4 ==> CanonicalQuad(t[|t| - 4..])
  }

  lemma JoinThenSplit(v0: nat, v1: nat, v2: nat, v3: nat)
    requires v0 < 64 && v1 < 64 && v2 < 64 && v3 < 64
    ensures var b0, b1, b2 := v0 * 4 + v1 / 16, v1 % 16 * 16 + v2 / 4, v2 % 4 * 64 + v3;
            && b0 / 4 == v0 && b0 % 4 * 16 == v1 / 16 * 16
            && b1 / 16 == v1 % 16 && b1 % 16 * 4 == v2 / 4 * 4
            && b2 / 64 == v2 % 4 && b2 % 64 == v3
  {}

  lemma QuadCanonical(q: string)
    requires |q| == 4 && q[0] != '=' && q[1] != '='
    requires forall i :: 0 <= i < 4 ==> q[i] == '=' || Lookup(q[i]).Some?
    ensures EncodeGroup(DecodeQuad(q)) == q <==> CanonicalQuad(q)
  {
    hide Letter;
    hide Lookup;
    JoinThenSplit(Sextet(q[0]), Sextet(q[1]), Sextet(q[2]), Sextet(q[3]));
    forall i | 0 <= i < 4 && q[i] != '=' ensures Letter(Sextet(q[i])) == q[i] { LetterOfLookup(q[i]); }
    var e := EncodeGroup(DecodeQuad(q));
    assert e[0] == q[0];
    if q[2] == '=' && q[3] == '=' {
      assert e[1] == Letter(Sextet(q[1]) / 16 * 16);
    }
  }

  lemma FullQuadFirst(q: string, rest: string)
    requires |q| == 4 && '=' !in q && (forall i :: 0 <= i < 4 ==> Lookup(q[i]).Some?)
    requires rest != [] && WellFormed(rest)
    ensures Encode(DecodeQuads(q + rest)) == q + Encode(DecodeQuads(rest))
  {
    hide DecodeQuad;
    hide EncodeGroup;
    hide Lookup;
    var d, e := DecodeQuad(q), DecodeQuads(rest);
    QuadLength(q);
    QuadCanonical(q);
    DecodedLength(rest);
    assert (q + rest)[..4] == q && (q + rest)[4..] == rest;
    assert multiset(q)['='] == 0;
    assert (d + e)[..3] == d && (d + e)[3..] == e;
  }

  /** Which accepted texts re-encode to themselves. The rest are further spellings of the same bytes. */
  lemma {:induction false} CanonicalIff(t: string)
    requires WellFormed(t)
    ensures Encode(DecodeQuads(t)) == t <==> Canonical(t)
  {
    hide DecodeQuad;
    hide EncodeGroup;
    hide Lookup;
    if |t| == 4 {
      QuadCanonical(t);
      QuadLength(t);
      assert t[..4] == t && t[4..] == [] && t[|t| - 4..] == t;
      assert DecodeQuads(t) == DecodeQuad(t);
    } else if |t| > 4 {
      var q, rest := t[..4], t[4..];
      WellFormedTail(t);
      FullQuadFirst(q, rest);
      CanonicalIff(rest);
      assert t == q + rest;
      assert rest[|rest| - 4..] == t[|t| - 4..];
      assert (q + Encode(DecodeQuads(rest)))[4..] == Encode(DecodeQuads(rest));
    }
  }

  /**
   The check bounds only where the first '=' may stand, so data may follow it, against the comment beside it: any two
   letters, '=' and a further letter are accepted, as two bytes that encode to another text.
   */
  lemma PaddingMayBeFollowedByData(v0: nat, v1: nat, v3: nat)
    requires v0 < 64 && v1 < 64 && v3 < 64
    ensures var t := [Letter(v0), Letter(v1), '=', Letter(v3)];
            var data := [v0 * 4 + v1 / 16, v3];
            Decode(t) == Ok(data) && Encode(data) != t
  {
    hide Letter;
    hide Lookup;
    var t := [Letter(v0), Letter(v1), '=', Letter(v3)];
    StripNothing(t);
    hide Strip;
    assert DecodeQuad(t) == [v0 * 4 + v1 / 16, v3];
    assert t[..4] == t && t[4..] == [];
    assert WellFormed(t);
    CanonicalIff(t);
    hide Encode;
  }
}
