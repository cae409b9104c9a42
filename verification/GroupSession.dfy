/** Sender Keys group sessions at the level of bytes, core/protocol/src/group.rs. */
module GroupSession {
  import opened Bytes

  type Key = seq<byte>

  const MAX_MEMBERS: nat := 255

  /** The HKDF-Expand labels: "chain", "msg", "nonce" and "chain-ratchet". */
  datatype Label = ChainLabel | MessageLabel | NonceLabel | RatchetLabel

  /** The primitives the module is built on. `coins` stands for the randomness one seal draws. */
  datatype Suite = Suite(
    expand: (Label, Key) -> seq<byte>,
    encrypt: (Key, seq<byte>, seq<byte>) -> seq<byte>,
    decrypt: (Key, seq<byte>, seq<byte>) -> Option<seq<byte>>,
    publicOf: nat -> Key,
    seal: (Key, seq<byte>, nat) -> Option<seq<byte>>,
    open: (nat, seq<byte>) -> Option<seq<byte>>)

  /** What is asked of the primitives: lengths, and that what was encrypted or sealed opens again. */
  ghost predicate Correct(x: Suite) {
    && (forall l, k :: |x.expand(l, k)| == if l == NonceLabel then 12 else 32)
    && (forall k, n, p :: |x.encrypt(k, n, p)| == |p| + 16 && x.decrypt(k, n, x.encrypt(k, n, p)) == Some(p))
    && (forall k, n, c :: x.decrypt(k, n, c).Some? ==> |c| == |x.decrypt(k, n, c).value| + 16)
    && (forall who :: |x.publicOf(who)| == 33)
    && (forall who, m, coins :: x.seal(x.publicOf(who), m, coins).Some?
                             && x.open(who, x.seal(x.publicOf(who), m, coins).value) == Some(m))
    && (forall pub, m, coins :: x.seal(pub, m, coins).Some? ==> |x.seal(pub, m, coins).value| == |m| + 60)
  }

  function Zeros(n: nat): (z: seq<byte>)
    ensures |z| == n
  {
    seq(n, i => 0)
  }

  /** The requirements can be met, so nothing below holds for want of a suite. */
  lemma SomeSuiteIsCorrect() returns (x: Suite)
    ensures Correct(x)
  {
    x := Suite(
      (l: Label, k: Key) => Zeros(if l == NonceLabel then 12 else 32),
      (k: Key, n: seq<byte>, p: seq<byte>) => p + Zeros(16),
      (k: Key, n: seq<byte>, c: seq<byte>) => if |c| < 16 then None else Some(c[..|c| - 16]),
      (who: nat) => Zeros(33),
      (pub: Key, m: seq<byte>, coins: nat) => Some(m + Zeros(60)),
      (who: nat, c: seq<byte>) => if |c| < 60 then None else Some(c[..|c| - 60]));
    forall p: seq<byte> ensures (p + Zeros(16))[..|p + Zeros(16)| - 16] == p {}
    forall m: seq<byte> ensures (m + Zeros(60))[..|m + Zeros(60)| - 60] == m {}
  }

  // ---------------------------------------------------------------- wire format

  datatype Wrapper = Wrapper(pub: Key, sealed: seq<byte>)

  function PrintWrappers(ws: seq<Wrapper>): seq<byte> {
    if ws == [] then []
    else ws[0].pub + LittleEndian(|ws[0].sealed|, 2) + ws[0].sealed + PrintWrappers(ws[1..])
  }

  function PrintMessage(nonce: seq<byte>, payload: seq<byte>, ws: seq<Wrapper>): seq<byte> {
    nonce + LittleEndian(|payload|, 4) + payload + [|ws| % 256] + PrintWrappers(ws)
  }

  datatype DecryptError =
    | TooShort | PayloadMismatch | WrapperTruncated | SealedTruncated | NotAMember | CannotOpen | BadKey | NotAuthentic

  datatype Scan = Scanned(sealed: Option<seq<byte>>) | Broken(error: DecryptError)

  /** The lookup loop: read `n` wrappers, keep the first one addressed to `pub`. */
  function ScanWrappers(rest: seq<byte>, n: nat, pub: Key, found: Option<seq<byte>>): Scan
    decreases n
  {
    if n == 0 then Scanned(found)
    else if |rest| < 33 + 2 then Broken(WrapperTruncated)
    else
      var len := LittleEndianValue(rest[33..35]);
      if |rest| < 35 + len then Broken(SealedTruncated)
      else
        var hit := found == None && rest[..33] == pub;
        ScanWrappers(rest[35 + len..], n - 1, pub, if hit then Some(rest[35..35 + len]) else found)
  }

  function FirstFor(ws: seq<Wrapper>, pub: Key): Option<seq<byte>> {
    if ws == [] then None else if ws[0].pub == pub then Some(ws[0].sealed) else FirstFor(ws[1..], pub)
  }

  predicate Fitting(ws: seq<Wrapper>) {
    forall i :: 0 <= i < |ws| ==> |ws[i].pub| == 33 && |ws[i].sealed| < 0x1_0000
  }

  lemma PartsOfWrapper(w: Wrapper, rest: seq<byte>)
    requires |w.pub| == 33 && |w.sealed| < 0x1_0000
    ensures var bytes := w.pub + LittleEndian(|w.sealed|, 2) + w.sealed + rest;
            && |bytes| >= 35 + |w.sealed| && bytes[..33] == w.pub && LittleEndianValue(bytes[33..35]) == |w.sealed|
            && bytes[35..35 + |w.sealed|] == w.sealed && bytes[35 + |w.sealed|..] == rest
  {
    hide LittleEndian;
    hide LittleEndianValue;
    Pow2Widths();
    LittleEndianRoundTrip(|w.sealed|, 2);
    var bytes := w.pub + LittleEndian(|w.sealed|, 2) + w.sealed + rest;
    assert bytes[33..35] == LittleEndian(|w.sealed|, 2);
  }

  lemma ScanStep(w: Wrapper, rest: seq<byte>, n: nat, pub: Key, found: Option<seq<byte>>)
    requires |w.pub| == 33 && |w.sealed| < 0x1_0000
    ensures ScanWrappers(w.pub + LittleEndian(|w.sealed|, 2) + w.sealed + rest, n + 1, pub, found)
         == ScanWrappers(rest, n, pub, if found == None && w.pub == pub then Some(w.sealed) else found)
  {
    hide LittleEndian;
    hide LittleEndianValue;
    PartsOfWrapper(w, rest);
  }

  lemma PrintStep(ws: seq<Wrapper>, tail: seq<byte>)
    requires ws != []
    ensures PrintWrappers(ws) + tail
         == ws[0].pub + LittleEndian(|ws[0].sealed|, 2) + ws[0].sealed + (PrintWrappers(ws[1..]) + tail)
  {
    hide LittleEndian;
  }

  /** The scan reads back exactly what the printer wrote, duplicates included, whatever follows. */
  lemma {:induction false} ScanOfPrint(ws: seq<Wrapper>, tail: seq<byte>, pub: Key, found: Option<seq<byte>>)
    requires Fitting(ws)
    ensures ScanWrappers(PrintWrappers(ws) + tail, |ws|, pub, found)
         == Scanned(if found.Some? then found else FirstFor(ws, pub))
    decreases |ws|
  {
    if ws == [] { return; }
    hide ScanWrappers;
    hide PrintWrappers;
    var w := ws[0];
    PrintStep(ws, tail);
    ScanStep(w, PrintWrappers(ws[1..]) + tail, |ws| - 1, pub, found);
    ScanOfPrint(ws[1..], tail, pub, if found == None && w.pub == pub then Some(w.sealed) else found);
  }

  /** The first wrapper of an accepted rest, and what remains. */
  lemma ScanPeel(rest: seq<byte>, n: nat, pub: Key, found: Option<seq<byte>>) returns (w: Wrapper, later: seq<byte>)
    requires n > 0 && ScanWrappers(rest, n, pub, found).Scanned?
    ensures |w.pub| == 33 && |w.sealed| < 0x1_0000
    ensures rest == w.pub + LittleEndian(|w.sealed|, 2) + w.sealed + later
    ensures ScanWrappers(rest, n, pub, found)
         == ScanWrappers(later, n - 1, pub, if found == None && w.pub == pub then Some(w.sealed) else found)
  {
    hide LittleEndian;
    hide LittleEndianValue;
    var len := LittleEndianValue(rest[33..35]);
    Pow2Widths();
    LittleEndianInverse(rest[33..35]);
    w, later := Wrapper(rest[..33], rest[35..35 + len]), rest[35 + len..];
    SplitWrapper(rest, len);
  }

  /** Whatever the scan accepts starts with printed wrappers, of which it kept the first for the key. */
  lemma {:induction false} ScanInverse(rest: seq<byte>, n: nat, pub: Key, found: Option<seq<byte>>)
    returns (ws: seq<Wrapper>, tail: seq<byte>)
    requires ScanWrappers(rest, n, pub, found).Scanned?
    ensures |ws| == n && Fitting(ws) && rest == PrintWrappers(ws) + tail
    ensures ScanWrappers(rest, n, pub, found).sealed == if found.Some? then found else FirstFor(ws, pub)
    decreases n
  {
    if n == 0 {
      ws, tail := [], rest;
      return;
    }
    hide ScanWrappers;
    hide PrintWrappers;
    hide LittleEndian;
    var w, later := ScanPeel(rest, n, pub, found);
    var others;
    others, tail := ScanInverse(later, n - 1, pub, if found == None && w.pub == pub then Some(w.sealed) else found);
    ws := [w] + others;
    assert ws[1..] == others;
    PrintStep(ws, tail);
  }

  lemma SplitWrapper(rest: seq<byte>, len: nat)
    requires 35 + len <= |rest|
    ensures rest == rest[..33] + rest[33..35] + rest[35..35 + len] + rest[35 + len..]
  {}

  // ---------------------------------------------------------------- sessions as values

  datatype Session = Session(members: seq<Key>, chainKey: Key)

  function NewSession(x: Suite, sender: Key): Session {
    Session([], x.expand(ChainLabel, sender))
  }

  function Without(members: seq<Key>, gone: Key): (r: seq<Key>)
    ensures forall m :: m in r <==> m in members && m != gone
  {
    if members == [] then []
    else (if members[0] == gone then [] else [members[0]]) + Without(members[1..], gone)
  }

  function Added(s: Session, member: Key): Session { s.(members := s.members + [member]) }

  function Rotated(s: Session, drawn: Key): Session { s.(chainKey := drawn) }

  /** Removal always rotates, whether or not the key was on the roster. */
  function Removed(s: Session, gone: Key, drawn: Key): Session { Session(Without(s.members, gone), drawn) }

  /** One wrapper per roster entry in roster order; `None` if a seal fails. The `i`-th seal draws `coins(i)`. */
  function SealAll(x: Suite, members: seq<Key>, key: Key, coins: nat -> nat, i: nat): Option<seq<Wrapper>>
    requires i <= |members|
    decreases |members| - i
  {
    if i == |members| then Some([])
    else
      var sealed := x.seal(members[i], key, coins(i));
      var rest := SealAll(x, members, key, coins, i + 1);
      if sealed == None || rest == None then None
      else Some([Wrapper(members[i], sealed.value)] + rest.value)
  }

  /** `encrypt_as`: the session afterwards and the message. The ratchet moves before anything can still fail. */
  function EncryptAs(x: Suite, s: Session, plaintext: seq<byte>, coins: nat -> nat): (Session, Option<seq<byte>>) {
    if |s.members| > MAX_MEMBERS then (s, None)
    else
      var key, nonce := x.expand(MessageLabel, s.chainKey), x.expand(NonceLabel, s.chainKey);
      var next := s.(chainKey := x.expand(RatchetLabel, s.chainKey));
      var ws := SealAll(x, s.members, key, coins, 0);
      (next, if ws == None then None else Some(PrintMessage(nonce, x.encrypt(key, nonce, plaintext), ws.value)))
  }

  /** A caller with a private key, or one that only names a public key. */
  datatype Caller = Holder(who: nat) | NonMember(pub: Key)

  function PublicKey(x: Suite, c: Caller): Key {
    match c case Holder(who) => x.publicOf(who) case NonMember(pub) => pub
  }

  datatype DecryptResult = Opened(plaintext: seq<byte>) | Failed(error: DecryptError)

  function OpenWith(x: Suite, c: Caller, sealed: seq<byte>, nonce: seq<byte>, payload: seq<byte>): DecryptResult {
    var key := if c.Holder? then x.open(c.who, sealed) else None;
    if key == None then Failed(CannotOpen)
    else if |key.value| != 32 then Failed(BadKey)
    else
      var p := x.decrypt(key.value, nonce, payload);
      if p == None then Failed(NotAuthentic) else Opened(p.value)
  }

  /** `decrypt_as`. It reads nothing of the session, so nothing done to the session later can matter. */
  function DecryptAs(x: Suite, c: Caller, ct: seq<byte>): DecryptResult {
    if |ct| < 12 + 4 + 1 then Failed(TooShort)
    else
      var len := LittleEndianValue(ct[12..16]);
      if |ct| < 16 + len + 1 then Failed(PayloadMismatch)
      else
        match ScanWrappers(ct[16 + len + 1..], ct[16 + len], PublicKey(x, c), None)
        case Broken(e) => Failed(e)
        case Scanned(None) => Failed(NotAMember)
        case Scanned(Some(sealed)) => OpenWith(x, c, sealed, ct[..12], ct[16..16 + len])
  }

  /** `try_decrypt_with_sender_key`: the wire nonce with a message key derived from a given chain key. */
  function TryDecryptWith(x: Suite, chainKey: Key, ct: seq<byte>): DecryptResult {
    if |ct| < 12 + 4 + 1 then Failed(TooShort)
    else
      var len := LittleEndianValue(ct[12..16]);
      if |ct| < 16 + len then Failed(PayloadMismatch)
      else
        var p := x.decrypt(x.expand(MessageLabel, chainKey), ct[..12], ct[16..16 + len]);
        if p == None then Failed(NotAuthentic) else Opened(p.value)
  }

  // ---------------------------------------------------------------- who can read a message

  lemma {:induction false} SealAllShape(x: Suite, members: seq<Key>, key: Key, coins: nat -> nat, i: nat)
    requires Correct(x) && |key| == 32 && i <= |members| && SealAll(x, members, key, coins, i).Some?
    ensures var ws := SealAll(x, members, key, coins, i).value;
            && |ws| == |members| - i
            && (forall j :: 0 <= j < |ws| ==> ws[j].pub == members[i + j] && |ws[j].sealed| == 92)
            && (forall j :: 0 <= j < |ws| ==> x.seal(ws[j].pub, key, coins(i + j)) == Some(ws[j].sealed))
    decreases |members| - i
  {
    if i < |members| { SealAllShape(x, members, key, coins, i + 1); }
  }

  lemma {:induction false} FirstForMember(ws: seq<Wrapper>, pub: Key) returns (j: nat)
    ensures FirstFor(ws, pub).Some? <==> exists i :: 0 <= i < |ws| && ws[i].pub == pub
    ensures FirstFor(ws, pub).Some? ==> j < |ws| && ws[j].pub == pub && FirstFor(ws, pub) == Some(ws[j].sealed)
  {
    j := 0;
    if ws != [] && ws[0].pub != pub {
      var k := FirstForMember(ws[1..], pub);
      j := k + 1;
      forall i | 0 <= i < |ws| && ws[i].pub == pub ensures ws[1..][i - 1].pub == pub {}
    }
  }

  /** Where the parts of a message stand; the length field tells the payload's length iff that is below 2^32. */
  lemma PartsOfMessage(nonce: seq<byte>, payload: seq<byte>, ws: seq<Wrapper>)
    requires |nonce| == 12 && |ws| <= MAX_MEMBERS
    ensures var ct := PrintMessage(nonce, payload, ws);
            && |ct| >= 17 + |payload|
            && LittleEndianValue(ct[12..16]) < 0x1_0000_0000
            && (LittleEndianValue(ct[12..16]) == |payload| <==> |payload| < 0x1_0000_0000)
            && ct[..12] == nonce && ct[16..16 + |payload|] == payload
            && ct[16 + |payload|] == |ws| && ct[16 + |payload| + 1..] == PrintWrappers(ws)
  {
    hide PrintWrappers;
    hide LittleEndian;
    hide LittleEndianValue;
    var ct := PrintMessage(nonce, payload, ws);
    Pow2Widths();
    LittleEndianInverse(ct[12..16]);
    if |payload| < 0x1_0000_0000 { LittleEndianRoundTrip(|payload|, 4); }
    assert ct[12..16] == LittleEndian(|payload|, 4);
  }

  lemma WrapperOpens(x: Suite, s: Session, key: Key, coins: nat -> nat, c: Caller)
    requires Correct(x) && |key| == 32 && SealAll(x, s.members, key, coins, 0).Some?
    requires forall m :: m in s.members ==> |m| == 33
    ensures var ws := SealAll(x, s.members, key, coins, 0).value;
            var pub := PublicKey(x, c);
            && |ws| == |s.members| && Fitting(ws) && (FirstFor(ws, pub).Some? <==> pub in s.members)
            && (pub in s.members && c.Holder? ==> x.open(c.who, FirstFor(ws, pub).value) == Some(key))
  {
    var ws, pub := SealAll(x, s.members, key, coins, 0).value, PublicKey(x, c);
    SealAllShape(x, s.members, key, coins, 0);
    forall i | 0 <= i < |ws| ensures |ws[i].pub| == 33 { assert ws[i].pub in s.members; }
    var j := FirstForMember(ws, pub);
    if pub in s.members {
      var i :| 0 <= i < |s.members| && s.members[i] == pub;
      assert ws[i].pub == pub;
    }
  }

  lemma PartsBefore(ct: seq<byte>, tail: seq<byte>, len: nat)
    requires 17 + len <= |ct|
    ensures var whole := ct + tail;
            && whole[..12] == ct[..12] && whole[12..16] == ct[12..16] && whole[16..16 + len] == ct[16..16 + len]
            && whole[16 + len] == ct[16 + len] && whole[16 + len + 1..] == ct[16 + len + 1..] + tail
  {}

  /** What `decrypt_as` makes of a message with these parts; bytes after the last wrapper are not looked at. */
  lemma DecryptReadsParts(x: Suite, c: Caller, nonce: seq<byte>, payload: seq<byte>, ws: seq<Wrapper>, tail: seq<byte>)
    requires |nonce| == 12 && |payload| < 0x1_0000_0000 && |ws| <= MAX_MEMBERS && Fitting(ws)
    ensures DecryptAs(x, c, PrintMessage(nonce, payload, ws) + tail) ==
      match FirstFor(ws, PublicKey(x, c))
      case None => Failed(NotAMember)
      case Some(sealed) => OpenWith(x, c, sealed, nonce, payload)
  {
    hide ScanWrappers;
    hide PrintMessage;
    hide PrintWrappers;
    hide LittleEndianValue;
    hide OpenWith;
    hide FirstFor;
    hide Fitting;
    PartsOfMessage(nonce, payload, ws);
    PartsBefore(PrintMessage(nonce, payload, ws), tail, |payload|);
    ScanOfPrint(ws, tail, PublicKey(x, c), None);
  }

  /**
   Exactly what `decrypt_as` opens: a printed message, with anything after it, whose first wrapper for the caller holds
   a 32-byte key under which the payload is authentic.
   */
  lemma OpenedWasPrinted(x: Suite, c: Caller, ct: seq<byte>) returns (payload: seq<byte>, ws: seq<Wrapper>, tail: seq<byte>)
    requires DecryptAs(x, c, ct).Opened?
    ensures |ct| >= 12 && |payload| < 0x1_0000_0000 && |ws| <= 255 && Fitting(ws)
    ensures ct == PrintMessage(ct[..12], payload, ws) + tail
    ensures c.Holder? && FirstFor(ws, PublicKey(x, c)).Some?
    ensures var key := x.open(c.who, FirstFor(ws, PublicKey(x, c)).value);
            && key.Some? && |key.value| == 32
            && x.decrypt(key.value, ct[..12], payload) == Some(DecryptAs(x, c, ct).plaintext)
  {
    hide ScanWrappers;
    hide PrintWrappers;
    hide LittleEndianValue;
    hide LittleEndian;
    hide FirstFor;
    var len := LittleEndianValue(ct[12..16]);
    Pow2Widths();
    LittleEndianInverse(ct[12..16]);
    payload := ct[16..16 + len];
    ws, tail := ScanInverse(ct[16 + len + 1..], ct[16 + len], PublicKey(x, c), None);
    SplitMessage(ct, len);
    assert ct == PrintMessage(ct[..12], payload, ws) + tail;
  }

  lemma SplitMessage(ct: seq<byte>, len: nat)
    requires 17 + len <= |ct|
    ensures ct == ct[..12] + ct[12..16] + ct[16..16 + len] + [ct[16 + len]] + ct[16 + len + 1..]
  {}

  lemma MessageKeyWorks(x: Suite, chainKey: Key, plaintext: seq<byte>)
    requires Correct(x)
    ensures var key, nonce := x.expand(MessageLabel, chainKey), x.expand(NonceLabel, chainKey);
            && |key| == 32 && |nonce| == 12 && |x.encrypt(key, nonce, plaintext)| == |plaintext| + 16
            && x.decrypt(key, nonce, x.encrypt(key, nonce, plaintext)) == Some(plaintext)
  {
  }

  /** The payload and its tag fit the 32-bit length field, which `encrypt_as` writes without a check. */
  predicate FitsField(plaintext: seq<byte>) { |plaintext| + 16 < 0x1_0000_0000 }

  /** Whatever opens has the length that the field announces. */
  lemma OpensAnnouncedLength(x: Suite, c: Caller, chainKey: Key, ct: seq<byte>)
    requires Correct(x) && |ct| >= 17
    ensures var r := DecryptAs(x, c, ct); r.Opened? ==> |r.plaintext| + 16 == LittleEndianValue(ct[12..16])
    ensures var r := TryDecryptWith(x, chainKey, ct); r.Opened? ==> |r.plaintext| + 16 == LittleEndianValue(ct[12..16])
  {
    hide ScanWrappers;
    hide LittleEndianValue;
  }

  /**
   `decrypt_as` opens a message to its plaintext exactly for the key holders on the roster it was encrypted to, and
   only if the payload fits the length field.
   */
  lemma ReadableIffOnRoster(x: Suite, s: Session, plaintext: seq<byte>, coins: nat -> nat, c: Caller)
    requires Correct(x)
    requires forall m :: m in s.members ==> |m| == 33
    requires EncryptAs(x, s, plaintext, coins).1.Some?
    ensures var r := DecryptAs(x, c, EncryptAs(x, s, plaintext, coins).1.value);
            && (r == Opened(plaintext) <==> PublicKey(x, c) in s.members && c.Holder? && FitsField(plaintext))
            && (FitsField(plaintext) ==> r == DecryptOutcome(x, s, plaintext, c))
  {
    hide Correct;
    hide DecryptAs;
    hide FirstFor;
    hide Fitting;
    hide SealAll;
    hide PrintMessage;
    hide PrintWrappers;
    hide LittleEndianValue;
    var key, nonce := x.expand(MessageLabel, s.chainKey), x.expand(NonceLabel, s.chainKey);
    MessageKeyWorks(x, s.chainKey, plaintext);
    var payload, ws := x.encrypt(key, nonce, plaintext), SealAll(x, s.members, key, coins, 0).value;
    WrapperOpens(x, s, key, coins, c);
    if FitsField(plaintext) {
      DecryptReadsParts(x, c, nonce, payload, ws, []);
      assert PrintMessage(nonce, payload, ws) + [] == PrintMessage(nonce, payload, ws);
    } else {
      PartsOfMessage(nonce, payload, ws);
      OpensAnnouncedLength(x, c, s.chainKey, PrintMessage(nonce, payload, ws));
    }
  }

  /** What `decrypt_as` answers on a message whose length field holds. */
  function DecryptOutcome(x: Suite, s: Session, plaintext: seq<byte>, c: Caller): DecryptResult {
    if PublicKey(x, c) !in s.members then Failed(NotAMember)
    else if c.Holder? then Opened(plaintext)
    else Failed(CannotOpen)
  }

  /** The chain key a message was sent under opens it too, on the same condition. */
  lemma SendingKeyOpens(x: Suite, s: Session, plaintext: seq<byte>, coins: nat -> nat)
    requires Correct(x)
    requires EncryptAs(x, s, plaintext, coins).1.Some?
    ensures TryDecryptWith(x, s.chainKey, EncryptAs(x, s, plaintext, coins).1.value) == Opened(plaintext) <==> FitsField(plaintext)
  {
    hide SealAll;
    hide PrintMessage;
    hide LittleEndianValue;
    var key, nonce := x.expand(MessageLabel, s.chainKey), x.expand(NonceLabel, s.chainKey);
    SealAllShape(x, s.members, key, coins, 0);
    var payload, ws := x.encrypt(key, nonce, plaintext), SealAll(x, s.members, key, coins, 0).value;
    PartsOfMessage(nonce, payload, ws);
    if !FitsField(plaintext) {
      OpensAnnouncedLength(x, NonMember([]), s.chainKey, PrintMessage(nonce, payload, ws));
    }
  }

  /** A chain key opens what is authentic under its message key and the nonce on the wire, and nothing else. */
  lemma ChainKeyOpensIff(x: Suite, chainKey: Key, nonce: seq<byte>, payload: seq<byte>, rest: seq<byte>, p: seq<byte>)
    requires |nonce| == 12 && |payload| < 0x1_0000_0000 && rest != []
    ensures TryDecryptWith(x, chainKey, nonce + LittleEndian(|payload|, 4) + payload + rest) == Opened(p)
       <==> x.decrypt(x.expand(MessageLabel, chainKey), nonce, payload) == Some(p)
  {
    hide LittleEndian;
    hide LittleEndianValue;
    Pow2Widths();
    LittleEndianRoundTrip(|payload|, 4);
    FrontParts(nonce, LittleEndian(|payload|, 4), payload, rest);
  }

  lemma FrontParts(nonce: seq<byte>, field: seq<byte>, payload: seq<byte>, rest: seq<byte>)
    requires |nonce| == 12 && |field| == 4
    ensures var ct := nonce + field + payload + rest;
            && |ct| == 16 + |payload| + |rest|
            && ct[..12] == nonce && ct[12..16] == field && ct[16..16 + |payload|] == payload
  {}

  /** A message starts with the nonce and carries the ciphertext of its own chain key. */
  lemma MessageParts(x: Suite, s: Session, plaintext: seq<byte>, coins: nat -> nat)
    requires Correct(x) && EncryptAs(x, s, plaintext, coins).1.Some?
    ensures var ct := EncryptAs(x, s, plaintext, coins).1.value;
            var key, nonce := x.expand(MessageLabel, s.chainKey), x.expand(NonceLabel, s.chainKey);
            && |ct| >= 16 + |plaintext| + 16
            && ct[..12] == nonce && ct[16..16 + |plaintext| + 16] == x.encrypt(key, nonce, plaintext)
  {
    hide SealAll;
    hide PrintMessage;
    hide LittleEndianValue;
    hide PrintWrappers;
    var key, nonce := x.expand(MessageLabel, s.chainKey), x.expand(NonceLabel, s.chainKey);
    SealAllShape(x, s.members, key, coins, 0);
    PartsOfMessage(nonce, x.encrypt(key, nonce, plaintext), SealAll(x, s.members, key, coins, 0).value);
  }

  lemma {:induction false} SealAllSucceeds(x: Suite, members: seq<Key>, key: Key, coins: nat -> nat, i: nat)
    requires i <= |members|
    ensures SealAll(x, members, key, coins, i).Some? <==>
      forall j :: i <= j < |members| ==> x.seal(members[j], key, coins(j)).Some?
    decreases |members| - i
  {
    if i < |members| { SealAllSucceeds(x, members, key, coins, i + 1); }
  }

  /**
   `encrypt_as` yields a message if and only if the roster has at most 255 entries and the message key can be sealed to
   each of them; the ratchet moves on in either case, unless the roster is too long.
   */
  lemma EncryptYieldsIff(x: Suite, s: Session, plaintext: seq<byte>, coins: nat -> nat)
    ensures var (next, message) := EncryptAs(x, s, plaintext, coins);
            && (message.Some? <==>
                  |s.members| <= 255 &&
                  forall j :: 0 <= j < |s.members| ==> x.seal(s.members[j], x.expand(MessageLabel, s.chainKey), coins(j)).Some?)
            && next.members == s.members
            && next.chainKey == if |s.members| <= 255 then x.expand(RatchetLabel, s.chainKey) else s.chainKey
  {
    hide SealAll;
    hide PrintMessage;
    SealAllSucceeds(x, s.members, x.expand(MessageLabel, s.chainKey), coins, 0);
  }

  /** Keys that belong to somebody. */
  ghost predicate Genuine(x: Suite, members: seq<Key>) {
    forall m :: m in members ==> exists who :: m == x.publicOf(who)
  }

  /** In every run each send to at most 255 genuine keys yields a message. */
  lemma GenuineSendYields(x: Suite, sender: Key, csprng: nat -> Key, ops: seq<Op>, i: nat)
    requires Correct(x) && i < |RunOps(x, sender, csprng, ops).sent|
    requires var s := RunOps(x, sender, csprng, ops).sent[i].session; |s.members| <= 255 && Genuine(x, s.members)
    ensures RunOps(x, sender, csprng, ops).sent[i].message.Some?
  {
    hide RunOps;
    hide EncryptAs;
    SentIsEncrypted(x, sender, csprng, ops, i);
    var m := RunOps(x, sender, csprng, ops).sent[i];
    EncryptYieldsIff(x, m.session, m.plaintext, m.coins);
    forall j | 0 <= j < |m.session.members|
      ensures x.seal(m.session.members[j], x.expand(MessageLabel, m.session.chainKey), m.coins(j)).Some?
    {
      assert m.session.members[j] in m.session.members;
    }
  }

  // ---------------------------------------------------------------- runs of one session

  datatype Op = Add(member: Key) | Remove(member: Key) | Rotate | Send(plaintext: seq<byte>, coins: nat -> nat)

  datatype Sent = Sent(session: Session, plaintext: seq<byte>, coins: nat -> nat, message: Option<seq<byte>>)

  /** `draws` counts the CSPRNG draws made so far. */
  datatype RunState = RunState(session: Session, draws: nat, sent: seq<Sent>)

  /** The run of one session; its `k`-th rotation draws `csprng(k)`. */
  function RunOps(x: Suite, sender: Key, csprng: nat -> Key, ops: seq<Op>): RunState {
    if ops == [] then RunState(NewSession(x, sender), 0, [])
    else
      var r := RunOps(x, sender, csprng, ops[..|ops| - 1]);
      match ops[|ops| - 1]
      case Add(m) => r.(session := Added(r.session, m))
      case Remove(m) => r.(session := Removed(r.session, m, csprng(r.draws)), draws := r.draws + 1)
      case Rotate => r.(session := Rotated(r.session, csprng(r.draws)), draws := r.draws + 1)
      case Send(p, coins) =>
        var e := EncryptAs(x, r.session, p, coins);
        r.(session := e.0, sent := r.sent + [Sent(r.session, p, coins, e.1)])
  }

  lemma {:induction false} SentIsEncrypted(x: Suite, sender: Key, csprng: nat -> Key, ops: seq<Op>, i: nat)
    requires i < |RunOps(x, sender, csprng, ops).sent|
    ensures var m := RunOps(x, sender, csprng, ops).sent[i];
            m.message == EncryptAs(x, m.session, m.plaintext, m.coins).1
  {
    hide EncryptAs;
    if ops != [] {
      var r := RunOps(x, sender, csprng, ops[..|ops| - 1]);
      if i < |r.sent| { SentIsEncrypted(x, sender, csprng, ops[..|ops| - 1], i); }
    }
  }

  lemma {:induction false} SentStays(x: Suite, sender: Key, csprng: nat -> Key, ops: seq<Op>, later: seq<Op>)
    ensures RunOps(x, sender, csprng, ops).sent <= RunOps(x, sender, csprng, ops + later).sent
    decreases |later|
  {
    hide EncryptAs;
    if later == [] {
      assert ops + later == ops;
    } else {
      SentStays(x, sender, csprng, ops, later[..|later| - 1]);
      assert (ops + later)[..|ops + later| - 1] == ops + later[..|later| - 1];
    }
  }

  /** In every run, message `i` stays readable for exactly the roster of its sending, whatever is done afterwards. */
  lemma MessageReadableForItsRoster(x: Suite, sender: Key, csprng: nat -> Key, ops: seq<Op>, later: seq<Op>, i: nat, c: Caller)
    requires Correct(x) && i < |RunOps(x, sender, csprng, ops).sent|
    requires var m := RunOps(x, sender, csprng, ops).sent[i];
             m.message.Some? && forall k :: k in m.session.members ==> |k| == 33
    ensures i < |RunOps(x, sender, csprng, ops + later).sent|
    ensures var m := RunOps(x, sender, csprng, ops + later).sent[i];
            && m == RunOps(x, sender, csprng, ops).sent[i]
            && (DecryptAs(x, c, m.message.value) == Opened(m.plaintext) <==>
                  PublicKey(x, c) in m.session.members && c.Holder? && FitsField(m.plaintext))
  {
    hide EncryptAs;
    hide DecryptAs;
    hide RunOps;
    SentStays(x, sender, csprng, ops, later);
    SentIsEncrypted(x, sender, csprng, ops, i);
    var m := RunOps(x, sender, csprng, ops).sent[i];
    ReadableIffOnRoster(x, m.session, m.plaintext, m.coins, c);
  }

  /** Whether the last word about a key was its addition. */
  predicate Enrolled(ops: seq<Op>, m: Key) {
    if ops == [] then false
    else match ops[|ops| - 1]
      case Add(k) => k == m || Enrolled(ops[..|ops| - 1], m)
      case Remove(k) => k != m && Enrolled(ops[..|ops| - 1], m)
      case _ => Enrolled(ops[..|ops| - 1], m)
  }

  /** The roster holds a key, however often it was added, exactly until its removal. */
  lemma {:induction false} RosterIsEnrolled(x: Suite, sender: Key, csprng: nat -> Key, ops: seq<Op>, m: Key)
    ensures m in RunOps(x, sender, csprng, ops).session.members <==> Enrolled(ops, m)
  {
    hide SealAll;
    if ops != [] { RosterIsEnrolled(x, sender, csprng, ops[..|ops| - 1], m); }
  }

  ghost predicate RemovedIn(ops: seq<Op>, m: Key) { exists j :: 0 <= j < |ops| && ops[j] == Remove(m) }

  ghost function Kept(op: Op, later: seq<Op>): seq<Key> {
    if op.Add? && !RemovedIn(later, op.member) then [op.member] else []
  }

  /** The additions that no removal followed, in their order. */
  ghost function Standing(ops: seq<Op>): seq<Key>
    decreases |ops|
  {
    if ops == [] then [] else Kept(ops[0], ops[1..]) + Standing(ops[1..])
  }

  lemma {:induction false} WithoutConcat(a: seq<Key>, b: seq<Key>, gone: Key)
    ensures Without(a + b, gone) == Without(a, gone) + Without(b, gone)
  {
    if a == [] {
      assert a + b == b;
      return;
    }
    WithoutConcat(a[1..], b, gone);
    var head := if a[0] == gone then [] else [a[0]];
    assert (a + b)[1..] == a[1..] + b && (a + b)[0] == a[0];
    assert Without(a + b, gone) == head + (Without(a[1..], gone) + Without(b, gone));
    assert Without(a, gone) == head + Without(a[1..], gone);
  }

  lemma KeptSnoc(o: Op, later: seq<Op>, op: Op)
    ensures Kept(o, later + [op]) == if op.Remove? then Without(Kept(o, later), op.member) else Kept(o, later)
  {
    if o.Add? {
      var m := o.member;
      if RemovedIn(later, m) {
        var j :| 0 <= j < |later| && later[j] == Remove(m);
        assert (later + [op])[j] == Remove(m);
      } else if op == Remove(m) {
        assert (later + [op])[|later|] == Remove(m);
      }
    }
  }

  lemma {:induction false} StandingSnoc(ops: seq<Op>, op: Op)
    ensures Standing(ops + [op]) ==
      match op
      case Add(m) => Standing(ops) + [m]
      case Remove(m) => Without(Standing(ops), m)
      case _ => Standing(ops)
    decreases |ops|
  {
    if ops == [] {
      assert ops + [op] == [op] && [op][1..] == [];
      return;
    }
    hide Kept;
    hide Without;
    var head, rest := Kept(ops[0], ops[1..]), Standing(ops[1..]);
    StandingSnoc(ops[1..], op);
    assert (ops + [op])[1..] == ops[1..] + [op];
    KeptSnoc(ops[0], ops[1..], op);
    if op.Remove? { WithoutConcat(head, rest, op.member); }
    if op.Add? { assert head + (rest + [op.member]) == head + rest + [op.member]; }
  }

  /** In every run the roster lists, in their order, the additions that no removal followed. */
  lemma {:induction false} RosterStands(x: Suite, sender: Key, csprng: nat -> Key, ops: seq<Op>)
    ensures RunOps(x, sender, csprng, ops).session.members == Standing(ops)
  {
    if ops == [] { return; }
    hide SealAll;
    hide PrintMessage;
    hide Standing;
    var init, op := ops[..|ops| - 1], ops[|ops| - 1];
    RosterStands(x, sender, csprng, init);
    StandingSnoc(init, op);
    assert init + [op] == ops;
  }

  // ---------------------------------------------------------------- the session object

  class Group {
    const x: Suite
    var members: seq<Key>
    var chainKey: Key

    ghost function Value(): Session
      reads this
    {
      Session(members, chainKey)
    }

    constructor (x: Suite, sender: Key)
      ensures this.x == x && Value() == NewSession(x, sender)
    {
      this.x := x;
      members := [];
      chainKey := x.expand(ChainLabel, sender);
    }

    method AddMember(member: Key)
      modifies this
      ensures Value() == Added(old(Value()), member)
    {
      members := members + [member];
    }

    method RotateSenderKey(drawn: Key)
      modifies this
      ensures Value() == Rotated(old(Value()), drawn)
    {
      chainKey := drawn;
    }

    method RemoveMember(member: Key, drawn: Key)
      modifies this
      ensures Value() == Removed(old(Value()), member, drawn)
    {
      members := Without(members, member);
      RotateSenderKey(drawn);
    }

    method Encrypt(plaintext: seq<byte>, coins: nat -> nat) returns (message: Option<seq<byte>>)
      modifies this
      ensures (Value(), message) == EncryptAs(x, old(Value()), plaintext, coins)
    {
      hide PrintWrappers;
      if |members| > MAX_MEMBERS { return None; }
      var key := x.expand(MessageLabel, chainKey);
      var nonce := x.expand(NonceLabel, chainKey);
      chainKey := x.expand(RatchetLabel, chainKey);
      var payload := x.encrypt(key, nonce, plaintext);
      var sealed := SealMembers(key, coins);
      if sealed == None { return None; }
      var wrappers := sealed.value;
      var body := WrapperBytes(wrappers);
      var out := nonce;
      out := out + LittleEndian(|payload|, 4);
      out := out + payload;
      out := out + [|wrappers| % 256];
      out := out + body;
      message := Some(out);
    }

    method SealMembers(key: Key, coins: nat -> nat) returns (r: Option<seq<Wrapper>>)
      ensures r == SealAll(x, members, key, coins, 0)
    {
      var wrappers: seq<Wrapper> := [];
      Prepended([], SealAll(x, members, key, coins, 0));
      for i := 0 to |members|
        invariant SealAll(x, members, key, coins, 0) == Prepend(wrappers, SealAll(x, members, key, coins, i))
      {
        var sealed := x.seal(members[i], key, coins(i));
        if sealed == None { return None; }
        var w := Wrapper(members[i], sealed.value);
        PrependStep(wrappers, w, SealAll(x, members, key, coins, i + 1));
        wrappers := wrappers + [w];
      }
      assert wrappers + [] == wrappers;
      r := Some(wrappers);
    }

    method WrapperBytes(wrappers: seq<Wrapper>) returns (out: seq<byte>)
      ensures out == PrintWrappers(wrappers)
    {
      out := [];
      for i := 0 to |wrappers|
        invariant out + PrintWrappers(wrappers[i..]) == PrintWrappers(wrappers)
      {
        var w := wrappers[i];
        assert wrappers[i..][1..] == wrappers[i + 1..];
        out := out + w.pub;
        out := out + LittleEndian(|w.sealed|, 2);
        out := out + w.sealed;
      }
      assert wrappers[|wrappers|..] == [];
    }

    method Decrypt(c: Caller, ct: seq<byte>) returns (r: DecryptResult)
      ensures r == DecryptAs(x, c, ct)
    {
      if |ct| < 12 + 4 + 1 { return Failed(TooShort); }
      var payloadLen := LittleEndianValue(ct[12..16]);
      if |ct| < 16 + payloadLen + 1 { return Failed(PayloadMismatch); }
      var payload := ct[16..16 + payloadLen];
      var pos := 16 + payloadLen;
      var wrapperCount := ct[pos];
      pos := pos + 1;
      var found := FindSealed(ct, pos, wrapperCount, PublicKey(x, c));
      match found
      case Broken(e) => r := Failed(e);
      case Scanned(sealed) =>
        if sealed == None { return Failed(NotAMember); }
        r := OpenWith(x, c, sealed.value, ct[..12], payload);
    }

    method FindSealed(ct: seq<byte>, start: nat, wrapperCount: nat, pub: Key) returns (r: Scan)
      requires start <= |ct|
      ensures r == ScanWrappers(ct[start..], wrapperCount, pub, None)
    {
      hide LittleEndianValue;
      var pos := start;
      var found: Option<seq<byte>> := None;
      for n := 0 to wrapperCount
        invariant start <= pos <= |ct|
        invariant ScanWrappers(ct[start..], wrapperCount, pub, None)
               == ScanWrappers(ct[pos..], wrapperCount - n, pub, found)
      {
        ghost var rest := ct[pos..];
        if pos + 33 + 2 > |ct| { return Broken(WrapperTruncated); }
        assert rest[..33] == ct[pos..pos + 33] && rest[33..35] == ct[pos + 33..pos + 35];
        var sealedLen := LittleEndianValue(ct[pos + 33..pos + 35]);
        if pos + 35 + sealedLen > |ct| { return Broken(SealedTruncated); }
        assert rest[35..35 + sealedLen] == ct[pos + 35..pos + 35 + sealedLen];
        assert rest[35 + sealedLen..] == ct[pos + 35 + sealedLen..];
        if found == None && ct[pos..pos + 33] == pub {
          found := Some(ct[pos + 35..pos + 35 + sealedLen]);
        }
        pos := pos + 35 + sealedLen;
      }
      r := Scanned(found);
    }
  }

  ghost function Prepend(ws: seq<Wrapper>, rest: Option<seq<Wrapper>>): Option<seq<Wrapper>> {
    if rest == None then None else Some(ws + rest.value)
  }

  lemma Prepended(ws: seq<Wrapper>, rest: Option<seq<Wrapper>>)
    ensures ws == [] ==> Prepend(ws, rest) == rest
  {
    if ws == [] && rest.Some? { assert ws + rest.value == rest.value; }
  }

  lemma PrependStep(ws: seq<Wrapper>, w: Wrapper, rest: Option<seq<Wrapper>>)
    ensures Prepend(ws, Prepend([w], rest)) == Prepend(ws + [w], rest)
  {
    if rest.Some? { assert ws + ([w] + rest.value) == (ws + [w]) + rest.value; }
  }
}
