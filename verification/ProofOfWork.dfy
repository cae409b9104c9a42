/** The proof-of-work gate: challenge wire format, difficulty test, verifier and the three solvers. */
module ProofOfWork {
  import opened Bytes
  import Base64
  import Bits

  /** SHA-256 stands for any function to 32 bytes. */
  type Hash = seq<byte> -> seq<byte>

  ghost predicate To32Bytes(h: Hash) { forall m :: |h(m)| == 32 }

  datatype Challenge = Challenge(context: seq<byte>, nonce: seq<byte>, difficulty: nat) {
    /** What the Rust types and `Challenge::new` guarantee. */
    ghost predicate Valid() { |nonce| == 16 && 1 <= difficulty <= 256 }

    /** The context length is cast to `u16`, so only its low sixteen bits are written. */
    function ToWire(): seq<byte> {
      BigEndian(|context|, 2) + context + nonce + BigEndian(difficulty, 4)
    }

    function PreimagePrefix(): seq<byte> { context + nonce }
  }

  // ---------------------------------------------------------------- difficulty

  /** `OutOfBounds` is the index panic of the unguarded client for difficulties 257 to 263. */
  datatype Verdict = Met | NotMet | OutOfBounds

  function CheckDigest(digest: seq<byte>, difficulty: nat): Verdict {
    var full, extra := difficulty / 8, difficulty % 8;
    if |digest| < full || exists i :: 0 <= i < full && digest[i] != 0 then NotMet
    else if extra == 0 then Met
    else if full == |digest| then OutOfBounds
    else if Bits.Masked(digest[full], extra) then Met else NotMet
  }

  lemma LeadingDigit(x: nat, r: nat, p: nat, q: nat)
    requires r < p
    ensures x * p + r < q * p <==> x < q
  {
    if x < q { assert (x + 1) * p <= q * p; } else { assert x * p >= q * p; }
  }

  lemma CheckTail(digest: seq<byte>, d: nat)
    requires digest != [] && 8 <= d
    ensures CheckDigest(digest, d) == if digest[0] == 0 then CheckDigest(digest[1..], d - 8) else NotMet
  {
    assert (d - 8) / 8 == d / 8 - 1 && (d - 8) % 8 == d % 8;
    forall i | 0 <= i < d / 8 - 1 && i + 1 < |digest| ensures digest[1..][i] == digest[i + 1] {}
    if exists i :: 0 <= i < d / 8 && i < |digest| && digest[i] != 0 {
      var i :| 0 <= i < d / 8 && i < |digest| && digest[i] != 0;
      assert i > 0 ==> digest[1..][i - 1] != 0;
    }
  }

  lemma PartialByte(digest: seq<byte>, d: nat)
    requires digest != [] && 0 < d < 8
    ensures CheckDigest(digest, d) == if digest[0] < Pow2(8 - d) then Met else NotMet
  {
    hide Pow2;
    hide Bits.Masked;
    Bits.MaskIsBound(digest[0], d);
  }

  lemma NoDifficulty(digest: seq<byte>)
    ensures CheckDigest(digest, 0) == Met
  {}

  /** The byte-and-mask test is the numeric target the module documentation promises. */
  lemma {:induction false} MetIffBelowTarget(digest: seq<byte>, d: nat)
    requires d <= 8 * |digest|
    ensures CheckDigest(digest, d) != OutOfBounds
    ensures CheckDigest(digest, d) == Met <==> BigEndianValue(digest) < Pow2(8 * |digest| - d)
  {
    hide *;
    if d == 0 {
      NoDifficulty(digest);
      BigEndianInverse(digest);
    } else {
      var tail, n := digest[1..], |digest| - 1;
      BigEndianValueFromFront(digest);
      BigEndianInverse(tail);
      if d < 8 {
        PartialByte(digest, d);
        SplitTarget(digest[0], BigEndianValue(tail), 8 - d, 8 * n);
      } else {
        CheckTail(digest, d);
        MetIffBelowTarget(tail, d - 8);
        LeadingZero(digest[0], BigEndianValue(tail), 8 * |digest| - d, 8 * n);
      }
    }
  }

  lemma SplitTarget(x: nat, r: nat, a: nat, b: nat)
    requires r < Pow2(b)
    ensures Shifted(x, b) + r < Pow2(a + b) <==> x < Pow2(a)
  {
    Pow2Add(a, b);
    LeadingDigit(x, r, Pow2(b), Pow2(a));
  }

  lemma LeadingZero(x: nat, r: nat, a: nat, b: nat)
    requires a <= b && r < Pow2(b)
    ensures Shifted(x, b) + r < Pow2(a) <==> x == 0 && r < Pow2(a)
  {
    Pow2Monotone(a, b);
    LeadingDigit(x, r, Pow2(b), 1);
    assert x == 0 ==> Shifted(x, b) == 0;
  }

  lemma Pow2Monotone(a: nat, b: nat)
    requires a <= b
    ensures Pow2(a) <= Pow2(b)
  {
    Pow2Add(a, b - a);
    assert Pow2(a) * Pow2(b - a) >= Pow2(a);
  }

  // ---------------------------------------------------------------- wire format

  /** The Rust client reads by index, so `None` is its panic; bytes after the difficulty are ignored. */
  function ParseWire(wire: seq<byte>): Option<Challenge> {
    if |wire| < 2 then None
    else
      var n := BigEndianValue(wire[..2]);
      if |wire| < 2 + n + 20 then None
      else Some(Challenge(wire[2..2 + n], wire[2 + n..2 + n + 16], BigEndianValue(wire[2 + n + 16..2 + n + 20])))
  }

  /** `parseChallengeWire` of the TypeScript client, where `None` is a thrown error. */
  function ParseWireScript(wire: seq<byte>): Option<Challenge> {
    if |wire| < 2 + 16 + 4 then None
    else
      var nonceStart := 2 + BigEndianValue(wire[..2]);
      var difficultyStart := nonceStart + 16;
      if |wire| < difficultyStart + 4 then None
      else Some(Challenge(wire[2..nonceStart], wire[nonceStart..difficultyStart],
                          BigEndianValue(wire[difficultyStart..difficultyStart + 4])))
  }

  lemma ClientParsersAgree(wire: seq<byte>)
    ensures ParseWireScript(wire) == ParseWire(wire)
  {}

  lemma FieldsOfWire(a: seq<byte>, context: seq<byte>, nonce: seq<byte>, d: seq<byte>)
    requires |a| == 2 && |nonce| == 16 && |d| == 4
    ensures var wire, n := a + context + nonce + d, |context|;
            && |wire| == n + 22 && wire[..2] == a && wire[2..2 + n] == context
            && wire[2 + n..2 + n + 16] == nonce && wire[2 + n + 16..2 + n + 20] == d
  {}

  /** The wire carries a challenge faithfully exactly when its context length fits the sixteen-bit field. */
  lemma WireRoundTrip(c: Challenge)
    requires |c.nonce| == 16 && c.difficulty < 0x1_0000_0000
    ensures ParseWire(c.ToWire()) == Some(c) <==> |c.context| < 0x1_0000
  {
    hide BigEndianValue;
    hide BigEndian;
    var wire := c.ToWire();
    Pow2Widths();
    if |c.context| < 0x1_0000 {
      var n := |c.context|;
      BigEndianRoundTrip(n, 2);
      BigEndianRoundTrip(c.difficulty, 4);
      FieldsOfWire(BigEndian(n, 2), c.context, c.nonce, BigEndian(c.difficulty, 4));
    } else {
      BigEndianInverse(wire[..2]);
    }
  }

  // ---------------------------------------------------------------- verifying and solving

  datatype PowResult = Accepted | Invalid | Malformed

  /** `pow::verify`. */
  function Verify(h: Hash, c: Challenge, solution: seq<byte>): PowResult {
    if !(1 <= c.difficulty <= 256) then Malformed
    else if CheckDigest(h(c.PreimagePrefix() + solution), c.difficulty) == Met then Accepted
    else Invalid
  }

  /**
   A solution is accepted exactly when the difficulty is legal and the digest, read as a 256-bit number, is below
   `2^(256 - difficulty)`; an illegal difficulty is reported as such.
   */
  lemma AcceptedIffBelowTarget(h: Hash, c: Challenge, solution: seq<byte>)
    requires To32Bytes(h)
    ensures Verify(h, c, solution) == Malformed <==> !(1 <= c.difficulty <= 256)
    ensures Verify(h, c, solution) == Accepted <==>
      (1 <= c.difficulty <= 256 && BigEndianValue(h(c.context + c.nonce + solution)) < Pow2(256 - c.difficulty))
  {
    hide CheckDigest;
    if c.difficulty <= 256 { MetIffBelowTarget(h(c.PreimagePrefix() + solution), c.difficulty); }
  }

  const LIMIT: nat := 0x1_0000_0000

  function Attempt(h: Hash, preimage: seq<byte>, difficulty: nat, counter: nat): Verdict {
    CheckDigest(h(preimage + LittleEndian(counter, 8)), difficulty)
  }

  lemma AttemptIs(h: Hash, preimage: seq<byte>, difficulty: nat, counter: nat)
    ensures Attempt(h, preimage, difficulty, counter) == CheckDigest(h(preimage + LittleEndian(counter, 8)), difficulty)
  {}

  lemma OutOfBoundsOnly(h: Hash, preimage: seq<byte>, difficulty: nat, counter: nat)
    requires To32Bytes(h)
    ensures Attempt(h, preimage, difficulty, counter) == OutOfBounds ==> difficulty > 256
  {}

  ghost predicate NoneBelow(h: Hash, preimage: seq<byte>, difficulty: nat, n: nat) {
    forall k: nat :: k < n ==> Attempt(h, preimage, difficulty, k) != Met
  }

  lemma NoneBelowStep(h: Hash, preimage: seq<byte>, difficulty: nat, n: nat)
    requires NoneBelow(h, preimage, difficulty, n) && Attempt(h, preimage, difficulty, n) != Met
    ensures NoneBelow(h, preimage, difficulty, n + 1)
  {}

  lemma NothingBelowZero(h: Hash, preimage: seq<byte>, difficulty: nat)
    ensures NoneBelow(h, preimage, difficulty, 0)
  {}

  /** `counter` is the first one, up to and including 2^32, whose digest meets the difficulty. */
  ghost predicate Least(h: Hash, preimage: seq<byte>, difficulty: nat, counter: nat) {
    && counter <= LIMIT
    && Attempt(h, preimage, difficulty, counter) == Met
    && NoneBelow(h, preimage, difficulty, counter)
  }

  ghost predicate IsLeastSolution(h: Hash, preimage: seq<byte>, difficulty: nat, solution: seq<byte>) {
    exists k :: Least(h, preimage, difficulty, k) && solution == LittleEndian(k, 8)
  }

  ghost predicate Unsolvable(h: Hash, preimage: seq<byte>, difficulty: nat) {
    NoneBelow(h, preimage, difficulty, LIMIT + 1)
  }

  /** The digest of preimage and counter, read as a 256-bit number, lies below the target. */
  ghost predicate Below(h: Hash, preimage: seq<byte>, d: nat, counter: nat)
    requires d <= 256
  {
    BigEndianValue(h(preimage + LittleEndian(counter, 8))) < Pow2(256 - d)
  }

  lemma MetIsBelow(h: Hash, preimage: seq<byte>, d: nat, counter: nat)
    requires To32Bytes(h) && d <= 256
    ensures Attempt(h, preimage, d, counter) == Met <==> Below(h, preimage, d, counter)
  {
    hide CheckDigest;
    MetIffBelowTarget(h(preimage + LittleEndian(counter, 8)), d);
  }

  /** What the solvers look for, in numbers: the first counter up to 2^32 whose digest lies below the target. */
  lemma SearchInNumbers(h: Hash, preimage: seq<byte>, d: nat, k: nat)
    requires To32Bytes(h) && d <= 256
    ensures Least(h, preimage, d, k) <==>
      (k <= 0x1_0000_0000 && Below(h, preimage, d, k) && forall j: nat :: j < k ==> !Below(h, preimage, d, j))
    ensures Unsolvable(h, preimage, d) <==> forall j: nat :: j <= 0x1_0000_0000 ==> !Below(h, preimage, d, j)
  {
    hide Attempt;
    hide Below;
    forall j: nat ensures Attempt(h, preimage, d, j) == Met <==> Below(h, preimage, d, j) { MetIsBelow(h, preimage, d, j); }
  }

  /** `pow::solve`; `None` is its `MalformedChallenge` error. */
  method Solve(h: Hash, c: Challenge) returns (solution: Option<seq<byte>>)
    ensures solution.Some? ==> 1 <= c.difficulty <= 256
    ensures solution.Some? ==> IsLeastSolution(h, c.PreimagePrefix(), c.difficulty, solution.value)
    ensures solution == None && 1 <= c.difficulty <= 256 ==> Unsolvable(h, c.PreimagePrefix(), c.difficulty)
  {
    hide Attempt;
    hide NoneBelow;
    hide CheckDigest;
    hide LittleEndian;
    if !(1 <= c.difficulty <= 256) { return None; }
    var preimage := c.PreimagePrefix();
    var counter := 0;
    NothingBelowZero(h, preimage, c.difficulty);
    while true
      invariant 0 <= counter <= LIMIT
      invariant NoneBelow(h, preimage, c.difficulty, counter)
      decreases LIMIT - counter
    {
      var suffix := LittleEndian(counter, 8);
      if Attempt(h, preimage, c.difficulty, counter) == Met {
        assert Least(h, preimage, c.difficulty, counter);
        return Some(suffix);
      }
      NoneBelowStep(h, preimage, c.difficulty, counter);
      counter := counter + 1;
      if counter > LIMIT { return None; }
    }
  }

  datatype ClientOutcome = Solved(solution: string) | DecodeError | PowFailed | Panicked

  /** Everything `WsRelayClient::solve_challenge` can make of a challenge text. */
  ghost predicate IsClientOutcome(h: Hash, text: string, r: ClientOutcome) {
    var wire := Base64.Decode(text);
    if wire == Base64.Err then r == DecodeError
    else if ParseWire(wire.data) == None then r == Panicked
    else
      var c := ParseWire(wire.data).value;
      match r
      case Solved(s) =>
        exists k :: Least(h, c.PreimagePrefix(), c.difficulty, k) && s == Base64.Encode(LittleEndian(k, 8))
      case PowFailed => Unsolvable(h, c.PreimagePrefix(), c.difficulty)
      case Panicked => c.difficulty > 256
      case DecodeError => false
  }

  method SolveChallenge(h: Hash, text: string) returns (r: ClientOutcome)
    requires To32Bytes(h)
    ensures IsClientOutcome(h, text, r)
  {
    hide Attempt;
    hide NoneBelow;
    hide CheckDigest;
    hide LittleEndian;
    var decoded := Base64.DecodeText(text);
    if decoded == Base64.Err { return DecodeError; }
    var parsed := ParseWire(decoded.data);
    if parsed == None { return Panicked; }
    var c := parsed.value;
    var preimage := c.context + c.nonce;
    var counter := 0;
    NothingBelowZero(h, preimage, c.difficulty);
    while true
      invariant 0 <= counter <= LIMIT
      invariant NoneBelow(h, preimage, c.difficulty, counter)
      decreases LIMIT - counter
    {
      var suffix := LittleEndian(counter, 8);
      var verdict := Attempt(h, preimage, c.difficulty, counter);
      assert verdict == OutOfBounds ==> c.difficulty > 256 by { OutOfBoundsOnly(h, preimage, c.difficulty, counter); }
      if verdict == Met {
        assert Least(h, preimage, c.difficulty, counter);
        var solution := Base64.EncodeBytes(suffix);
        return Solved(solution);
      }
      if verdict == OutOfBounds { return Panicked; }
      NoneBelowStep(h, preimage, c.difficulty, counter);
      counter := counter + 1;
      if counter > LIMIT { return PowFailed; }
    }
  }

  /** `meetsDifficulty` of the TypeScript client; an index past the end reads as zero there instead of failing. */
  method MeetsDifficultyScript(digest: seq<byte>, difficulty: nat) returns (met: bool)
    ensures met <==> CheckDigest(digest, difficulty) != NotMet
  {
    var fullBytes := difficulty / 8;
    if |digest| < fullBytes { return false; }
    for i := 0 to fullBytes
      invariant forall j :: 0 <= j < i ==> digest[j] == 0
    {
      if digest[i] != 0 { return false; }
    }
    var extraBits := difficulty % 8;
    if extraBits == 0 || fullBytes == |digest| { return true; }
    Bits.MaskIsBound(digest[fullBytes], extraBits);
    return Bits.MaskedWide(digest[fullBytes], extraBits);
  }

  /** `u64ToLeBytes`: repeated division by 256 instead of the Rust `to_le_bytes`. */
  method U64ToLeBytes(value: nat) returns (out: seq<byte>)
    ensures out == LittleEndian(value, 8)
  {
    out := [];
    var v := value;
    for i := 0 to 8
      invariant out + LittleEndian(v, 8 - i) == LittleEndian(value, 8)
    {
      out := out + [v % 256];
      v := v / 256;
    }
  }

  /** `solvePow`; `None` stands for either thrown error. */
  method SolvePowScript(h: Hash, c: Challenge) returns (solution: Option<seq<byte>>)
    requires To32Bytes(h)
    ensures solution.Some? ==> c.difficulty <= 32
    ensures solution.Some? ==> IsLeastSolution(h, c.PreimagePrefix(), c.difficulty, solution.value)
    ensures solution == None && c.difficulty <= 32 ==> Unsolvable(h, c.PreimagePrefix(), c.difficulty)
  {
    hide Attempt;
    hide NoneBelow;
    hide CheckDigest;
    hide LittleEndian;
    if c.difficulty > 32 { return None; }
    var preimage := c.context + c.nonce;
    var counter := 0;
    NothingBelowZero(h, preimage, c.difficulty);
    while true
      invariant 0 <= counter <= LIMIT
      invariant NoneBelow(h, preimage, c.difficulty, counter)
      decreases LIMIT - counter
    {
      var suffix := U64ToLeBytes(counter);
      var met := MeetsDifficultyScript(h(preimage + suffix), c.difficulty);
      assert met <==> Attempt(h, preimage, c.difficulty, counter) == Met by {
        AttemptIs(h, preimage, c.difficulty, counter);
        OutOfBoundsOnly(h, preimage, c.difficulty, counter);
      }
      if met {
        assert Least(h, preimage, c.difficulty, counter);
        return Some(suffix);
      }
      NoneBelowStep(h, preimage, c.difficulty, counter);
      counter := counter + 1;
      if counter > LIMIT { return None; }
    }
  }

  /** End to end: whatever the client computes from the text of an issued challenge, the verifier accepts. */
  lemma ClientSolutionAccepted(h: Hash, c: Challenge, text: string, r: ClientOutcome)
    requires c.Valid() && |c.context| < 0x1_0000
    requires Base64.Strip(text) == Base64.Encode(c.ToWire())
    requires IsClientOutcome(h, text, r)
    ensures r.Solved? || (r == PowFailed && Unsolvable(h, c.PreimagePrefix(), c.difficulty))
    ensures r.Solved? ==> var s := Base64.Decode(r.solution); s.Ok? && Verify(h, c, s.data) == Accepted
  {
    Base64.DecodeOfStripped(c.ToWire(), text);
    WireRoundTrip(c);
    if r.Solved? {
      var k :| Least(h, c.PreimagePrefix(), c.difficulty, k) && r.solution == Base64.Encode(LittleEndian(k, 8));
      Base64.EncodeHasNoBlanks(LittleEndian(k, 8));
      Base64.DecodeOfStripped(LittleEndian(k, 8), r.solution);
    }
  }
}
