/**
 The 1:1 session facade, core/crypto/src/ratchet_session.rs: the envelope prefix, the check that an address name is
 the hash of the key behind it, and what that check guarantees over every run of a session.
 */
module RatchetSession {
  import opened Bytes
  import Hex

  /** A serialized public identity key. */
  type Key = seq<byte>

  const DEVICE_ID: nat := 1
  const PREFIX_LEN: nat := 33

  datatype MessageType = PreKey | Ciphertext

  datatype Address = Address(name: string, device: nat)

  /** The two libsignal stores that hold peers' keys: bound identities, and the remote key of each session record. */
  datatype Store = Store(identities: map<Address, Key>, sessions: map<Address, Key>)

  /** SHA-256, and the identity key in the header of a `PreKeySignalMessage`, if the bytes parse as one. */
  datatype Library = Library(hash: Key -> seq<byte>, carried: seq<byte> -> Option<Key>)

  /** What libsignal decided in one call: which records it wrote, and its output if it succeeded. */
  datatype Choice<T> = Choice(saveIdentity: bool, saveSession: bool, output: Option<T>)

  datatype Outcome = Done(bytes: seq<byte>) | Malformed | IdentityHashMismatch | NotSender | LibraryError

  // ---------------------------------------------------------------- envelopes

  datatype Envelope = Envelope(sender: seq<byte>, kind: MessageType, raw: seq<byte>)

  function TypeTag(t: MessageType): byte { if t == PreKey then 1 else 2 }

  function FromTag(tag: byte): Option<MessageType> {
    if tag == 1 then Some(PreKey) else if tag == 2 then Some(Ciphertext) else None
  }

  function Print(e: Envelope): seq<byte> { e.sender + [TypeTag(e.kind)] + e.raw }

  function Parse(bytes: seq<byte>): Option<Envelope> {
    if |bytes| < PREFIX_LEN then None
    else
      var kind :- FromTag(bytes[32]);
      Some(Envelope(bytes[..32], kind, bytes[33..]))
  }

  /** Parsing accepts exactly the printed envelopes, and inverts printing. */
  lemma ParsesExactlyPrints(bytes: seq<byte>, e: Envelope)
    requires |e.sender| == 32
    ensures Parse(bytes) == Some(e) <==> bytes == Print(e)
  {
    if bytes == Print(e) {
      assert bytes[..32] == e.sender && bytes[33..] == e.raw;
    }
    if Parse(bytes) == Some(e) {
      assert bytes == bytes[..32] + [bytes[32]] + bytes[33..];
    }
  }

  // ---------------------------------------------------------------- sessions

  datatype Session = Session(localHash: seq<byte>, remote: Option<Address>, store: Store)

  function AddressFor(hash: seq<byte>): Address { Address(Hex.Encode(hash), DEVICE_ID) }

  /** libsignal binds one key to one address: the key the message carries, or that of the session record in use. */
  function Save<T>(st: Store, at: Address, k: Key, c: Choice<T>): Store {
    Store(if c.saveIdentity then st.identities[at := k] else st.identities,
          if c.saveSession then st.sessions[at := k] else st.sessions)
  }

  function KeyInUse(lib: Library, st: Store, at: Address, e: Envelope): Option<Key> {
    if e.kind == PreKey then lib.carried(e.raw)
    else if at in st.sessions then Some(st.sessions[at])
    else None
  }

  /** `decrypt_message`: nothing is written when no key is at hand. */
  function LibraryDecrypt(lib: Library, st: Store, at: Address, e: Envelope, c: Choice<seq<byte>>): (Store, Outcome) {
    match KeyInUse(lib, st, at, e)
    case None => (st, LibraryError)
    case Some(k) => (Save(st, at, k, c), if c.output.Some? then Done(c.output.value) else LibraryError)
  }

  /** The check made before libsignal sees the message. */
  function Refusal(lib: Library, st: Store, e: Envelope): Option<Outcome> {
    match e.kind
    case PreKey =>
      (match lib.carried(e.raw)
       case None => Some(Malformed)
       case Some(k) => if lib.hash(k) == e.sender then None else Some(IdentityHashMismatch))
    case Ciphertext =>
      var at := AddressFor(e.sender);
      if at in st.identities && lib.hash(st.identities[at]) == e.sender then None else Some(IdentityHashMismatch)
  }

  function Decrypt(lib: Library, st: Store, bytes: seq<byte>, c: Choice<seq<byte>>): (Store, Outcome) {
    match Parse(bytes)
    case None => (st, Malformed)
    case Some(e) =>
      match Refusal(lib, st, e)
      case Some(refusal) => (st, refusal)
      case None => LibraryDecrypt(lib, st, AddressFor(e.sender), e, c)
  }

  /** `c.output` holds the type and bytes of the message libsignal made. */
  function Encrypt(s: Session, c: Choice<(MessageType, seq<byte>)>): (Session, Outcome) {
    match s.remote
    case None => (s, NotSender)
    case Some(at) =>
      if at !in s.store.sessions then (s, LibraryError)
      else
        (s.(store := Save(s.store, at, s.store.sessions[at], c)),
         if c.output == None then LibraryError
         else Done(Print(Envelope(s.localHash, c.output.value.0, c.output.value.1))))
  }

  function Bob(lib: Library, own: Key): Session {
    Session(lib.hash(own), None, Store(map[], map[]))
  }

  /** A sender whose `process_prekey_bundle` succeeded. */
  function Alice(lib: Library, own: Key, peer: Key, device: nat): Session {
    var at := Address(Hex.Encode(lib.hash(peer)), device);
    Session(lib.hash(own), Some(at), Store(map[at := peer], map[at := peer]))
  }

  // ---------------------------------------------------------------- runs

  datatype Call =
    | DecryptCall(envelope: seq<byte>, opening: Choice<seq<byte>>)
    | EncryptCall(sending: Choice<(MessageType, seq<byte>)>)

  function Step(lib: Library, s: Session, call: Call): Session {
    match call
    case DecryptCall(bytes, c) => s.(store := Decrypt(lib, s.store, bytes, c).0)
    case EncryptCall(c) => Encrypt(s, c).0
  }

  function Run(lib: Library, s: Session, calls: seq<Call>): Session {
    if calls == [] then s else Step(lib, Run(lib, s, calls[..|calls| - 1]), calls[|calls| - 1])
  }

  ghost predicate Named(lib: Library, keys: map<Address, Key>) {
    forall a :: a in keys ==> a.name == Hex.Encode(lib.hash(keys[a]))
  }

  /** The facade's structural invariant, for bound identities and for session records alike. */
  ghost predicate Sound(lib: Library, s: Session) {
    Named(lib, s.store.identities) && Named(lib, s.store.sessions)
  }

  lemma NewSessionsAreSound(lib: Library, own: Key, peer: Key, device: nat)
    ensures Sound(lib, Bob(lib, own)) && Sound(lib, Alice(lib, own, peer, device))
  {
  }

  /** An envelope that passes the check is handled under a key whose hash it declares. */
  lemma KeyInUseIsDeclared(lib: Library, s: Session, e: Envelope)
    requires Sound(lib, s) && Refusal(lib, s.store, e) == None
    ensures var k := KeyInUse(lib, s.store, AddressFor(e.sender), e); k.Some? ==> lib.hash(k.value) == e.sender
  {
    hide Hex.Encode;
    var at := AddressFor(e.sender);
    if e.kind == Ciphertext && at in s.store.sessions {
      Hex.Injective(e.sender, lib.hash(s.store.sessions[at]));
    }
  }

  lemma StepKeepsSound(lib: Library, s: Session, call: Call)
    requires Sound(lib, s)
    ensures Sound(lib, Step(lib, s, call))
  {
    hide Hex.Encode;
    hide Parse;
    if call.DecryptCall? && Parse(call.envelope).Some? {
      hide Refusal;
      var e := Parse(call.envelope).value;
      if Refusal(lib, s.store, e) == None { KeyInUseIsDeclared(lib, s, e); }
    }
  }

  /** In every state of every run each address name is the hex of the hash of the key held under it. */
  lemma {:induction false} RunKeepsSound(lib: Library, s: Session, calls: seq<Call>)
    requires Sound(lib, s)
    ensures Sound(lib, Run(lib, s, calls))
  {
    if calls != [] {
      RunKeepsSound(lib, s, calls[..|calls| - 1]);
      StepKeepsSound(lib, Run(lib, s, calls[..|calls| - 1]), calls[|calls| - 1]);
    }
  }

  /**
   One name, one key: keys bound to the same name at two moments of a run, in either store and under any device
   number, have the same hash.
   */
  lemma NameHasOneHash(lib: Library, s: Session, calls: seq<Call>, i: nat, j: nat, a: Address, b: Address)
    requires Sound(lib, s) && i <= |calls| && j <= |calls| && a.name == b.name
    ensures var x := Run(lib, s, calls[..i]).store.identities; var y := Run(lib, s, calls[..j]).store;
            && (a in x && b in y.identities ==> lib.hash(x[a]) == lib.hash(y.identities[b]))
            && (a in x && b in y.sessions ==> lib.hash(x[a]) == lib.hash(y.sessions[b]))
  {
    hide Hex.Encode;
    hide Run;
    RunKeepsSound(lib, s, calls[..i]);
    RunKeepsSound(lib, s, calls[..j]);
    var x := Run(lib, s, calls[..i]).store.identities;
    var y := Run(lib, s, calls[..j]).store;
    if a in x && b in y.identities { Hex.Injective(lib.hash(x[a]), lib.hash(y.identities[b])); }
    if a in x && b in y.sessions { Hex.Injective(lib.hash(x[a]), lib.hash(y.sessions[b])); }
  }

  ghost predicate NoCollision(lib: Library, keys: iset<Key>) {
    forall k, l :: k in keys && l in keys && lib.hash(k) == lib.hash(l) ==> k == l
  }

  lemma StepKeepsAddresses(lib: Library, s: Session, call: Call)
    ensures s.store.identities.Keys <= Step(lib, s, call).store.identities.Keys
  {
    hide Parse;
    hide Refusal;
    hide KeyInUse;
  }

  lemma {:induction false} AddressesStay(lib: Library, s: Session, calls: seq<Call>, i: nat)
    requires i <= |calls|
    ensures Run(lib, s, calls[..i]).store.identities.Keys <= Run(lib, s, calls).store.identities.Keys
    decreases |calls|
  {
    hide Step;
    if i == |calls| {
      assert calls[..i] == calls;
      return;
    }
    var shorter := calls[..|calls| - 1];
    assert shorter[..i] == calls[..i];
    AddressesStay(lib, s, shorter, i);
    StepKeepsAddresses(lib, Run(lib, s, shorter), calls[|calls| - 1]);
  }

  /** A bound key is never replaced or dropped, unless by one with the same hash. */
  lemma BindingsAreForever(lib: Library, s: Session, calls: seq<Call>, i: nat, a: Address, keys: iset<Key>)
    requires Sound(lib, s) && i <= |calls| && NoCollision(lib, keys)
    requires a in Run(lib, s, calls[..i]).store.identities && Run(lib, s, calls[..i]).store.identities[a] in keys
    ensures a in Run(lib, s, calls).store.identities
    ensures Run(lib, s, calls).store.identities[a] in keys ==>
      Run(lib, s, calls).store.identities[a] == Run(lib, s, calls[..i]).store.identities[a]
  {
    hide Run;
    AddressesStay(lib, s, calls, i);
    assert calls[..|calls|] == calls;
    NameHasOneHash(lib, s, calls, i, |calls|, a, a);
  }

  /** Nobody is bound under another's name: the address of key `k` only ever holds `k`, or a collision with it. */
  lemma OnlyTheOwnerIsBound(lib: Library, s: Session, calls: seq<Call>, k: Key, device: nat)
    requires Sound(lib, s)
    ensures var at := Address(Hex.Encode(lib.hash(k)), device); var end := Run(lib, s, calls).store;
            && (at in end.identities ==> lib.hash(end.identities[at]) == lib.hash(k))
            && (at in end.sessions ==> lib.hash(end.sessions[at]) == lib.hash(k))
  {
    hide Hex.Encode;
    hide Run;
    RunKeepsSound(lib, s, calls);
    var at := Address(Hex.Encode(lib.hash(k)), device);
    var end := Run(lib, s, calls).store;
    if at in end.identities { Hex.Injective(lib.hash(end.identities[at]), lib.hash(k)); }
    if at in end.sessions { Hex.Injective(lib.hash(end.sessions[at]), lib.hash(k)); }
  }

  /** A first message is refused, leaving every binding as it was, iff the key it carries is not the declared one. */
  lemma ForgedFirstContact(lib: Library, st: Store, e: Envelope, c: Choice<seq<byte>>)
    requires |e.sender| == 32 && e.kind == PreKey && lib.carried(e.raw).Some?
    ensures Decrypt(lib, st, Print(e), c) == (st, IdentityHashMismatch) <==> lib.hash(lib.carried(e.raw).value) != e.sender
  {
    ParsesExactlyPrints(Print(e), e);
  }

  /**
   After any run an established-session message is refused by the name check iff its sender has no binding: a bound
   key always hashes to the name it is bound under, so the comparison of hashes never fails there.
   */
  lemma EstablishedCheckIsPresence(lib: Library, s: Session, calls: seq<Call>, e: Envelope, c: Choice<seq<byte>>)
    requires Sound(lib, s) && |e.sender| == 32 && e.kind == Ciphertext
    ensures var st := Run(lib, s, calls).store;
            Decrypt(lib, st, Print(e), c) == (st, IdentityHashMismatch) <==> AddressFor(e.sender) !in st.identities
  {
    hide Hex.Encode;
    hide Run;
    hide Parse;
    hide Print;
    RunKeepsSound(lib, s, calls);
    ParsesExactlyPrints(Print(e), e);
    var st := Run(lib, s, calls).store;
    var at := AddressFor(e.sender);
    if at in st.identities { Hex.Injective(lib.hash(st.identities[at]), e.sender); }
  }

  /**
   After any run, every answer of `decrypt` with its exact condition. A plaintext is libsignal's own, and is returned if
   and only if the envelope parses, the key it carries hashes to the declared sender or, in an established session, the
   sender is bound and has a session record.
   */
  lemma DecryptAnswersIff(lib: Library, s: Session, calls: seq<Call>, bytes: seq<byte>, c: Choice<seq<byte>>, p: seq<byte>)
    requires Sound(lib, s)
    ensures var st := Run(lib, s, calls).store;
            var r := Decrypt(lib, st, bytes, c).1;
            match Parse(bytes)
            case None => r == Malformed
            case Some(Envelope(sender, PreKey, raw)) =>
              var k := lib.carried(raw);
              && (r == Malformed <==> k == None)
              && (r == IdentityHashMismatch <==> k.Some? && lib.hash(k.value) != sender)
              && (r == LibraryError <==> k.Some? && lib.hash(k.value) == sender && c.output == None)
              && (r == Done(p) <==> k.Some? && lib.hash(k.value) == sender && c.output == Some(p))
            case Some(Envelope(sender, Ciphertext, raw)) =>
              var at := Address(Hex.Encode(sender), 1);
              && (r == IdentityHashMismatch <==> at !in st.identities)
              && (r == LibraryError <==> at in st.identities && (at !in st.sessions || c.output == None))
              && (r == Done(p) <==> at in st.identities && at in st.sessions && c.output == Some(p))
  {
    hide Hex.Encode;
    hide Run;
    hide Parse;
    RunKeepsSound(lib, s, calls);
    var st := Run(lib, s, calls).store;
    if Parse(bytes).Some? {
      var e := Parse(bytes).value;
      var at := AddressFor(e.sender);
      if e.kind == Ciphertext && at in st.identities { Hex.Injective(lib.hash(st.identities[at]), e.sender); }
    }
  }

  /**
   What `decrypt` writes, if anything, is written at the sender's address: the key carried, or that of the session
   record. A message that fails to parse or fails the check writes nothing.
   */
  lemma DecryptWritesAtSender(lib: Library, st: Store, bytes: seq<byte>, c: Choice<seq<byte>>, a: Address)
    ensures var (after, r) := Decrypt(lib, st, bytes, c);
            && (r in {Malformed, IdentityHashMismatch} ==> after == st)
            && (r.Done? ==>
                  && Parse(bytes).Some?
                  && var e := Parse(bytes).value;
                     var at := Address(Hex.Encode(e.sender), 1);
                     var k := if e.kind == PreKey then lib.carried(e.raw) else Get(st.sessions, at);
                     && k.Some?
                     && Get(after.identities, a) == (if a == at && c.saveIdentity then k else Get(st.identities, a))
                     && Get(after.sessions, a) == (if a == at && c.saveSession then k else Get(st.sessions, a)))
            && (Parse(bytes).None? || a != Address(Hex.Encode(Parse(bytes).value.sender), 1) ==>
                  Get(after.identities, a) == Get(st.identities, a) && Get(after.sessions, a) == Get(st.sessions, a))
  {
    hide Hex.Encode;
    hide Parse;
  }

  lemma {:induction false} RemoteStays(lib: Library, s: Session, calls: seq<Call>)
    ensures Run(lib, s, calls).remote == s.remote && s.store.sessions.Keys <= Run(lib, s, calls).store.sessions.Keys
  {
    if calls == [] { return; }
    RemoteStays(lib, s, calls[..|calls| - 1]);
    hide Parse;
    hide Refusal;
    hide KeyInUse;
  }

  /**
   After any run a sender's `encrypt` returns libsignal's message behind its own hash and the type tag, and binds only
   its peer; a receiver's is refused.
   */
  lemma EncryptAnswersIff(
    lib: Library, own: Key, peer: Key, device: nat, calls: seq<Call>, c: Choice<(MessageType, seq<byte>)>, a: Address)
    requires |lib.hash(own)| == 32
    ensures Encrypt(Run(lib, Bob(lib, own), calls), c).1 == NotSender
    ensures var s := Run(lib, Alice(lib, own, peer, device), calls);
            var (t, r) := Encrypt(s, c);
            && (c.output == None ==> r == LibraryError)
            && (c.output.Some? ==>
                  r.Done? && Parse(r.bytes) == Some(Envelope(lib.hash(own), c.output.value.0, c.output.value.1)))
            && Get(t.store.sessions, a) == Get(s.store.sessions, a)
            && Get(t.store.identities, a) ==
                 (if a == Address(Hex.Encode(lib.hash(peer)), device) && c.saveIdentity then Get(s.store.sessions, a)
                  else Get(s.store.identities, a))
  {
    hide Hex.Encode;
    hide Run;
    hide Parse;
    hide Print;
    RemoteStays(lib, Bob(lib, own), calls);
    RemoteStays(lib, Alice(lib, own, peer, device), calls);
    LocalHashStays(lib, Alice(lib, own, peer, device), calls);
    if c.output.Some? {
      var e := Envelope(lib.hash(own), c.output.value.0, c.output.value.1);
      ParsesExactlyPrints(Print(e), e);
    }
  }

  /** Every plaintext comes from a message handled under a key that hashes to the sender it declares. */
  lemma PlaintextHasDeclaredSender(lib: Library, s: Session, calls: seq<Call>, bytes: seq<byte>, c: Choice<seq<byte>>)
    requires Sound(lib, s)
    requires Decrypt(lib, Run(lib, s, calls).store, bytes, c).1.Done?
    ensures Parse(bytes).Some?
    ensures var e := Parse(bytes).value; var k := KeyInUse(lib, Run(lib, s, calls).store, AddressFor(e.sender), e);
            k.Some? && lib.hash(k.value) == e.sender
  {
    hide Hex.Encode;
    hide Run;
    hide Parse;
    RunKeepsSound(lib, s, calls);
    KeyInUseIsDeclared(lib, Run(lib, s, calls), Parse(bytes).value);
  }

  /**
   A new sender's peer can answer within the session iff the bundle carried device id 1: the sender files the peer
   under the bundle's device id, and looks replies up under the fixed one.
   */
  lemma RepliesNeedTheSharedDevice(
    lib: Library, own: Key, peer: Key, device: nat, raw: seq<byte>, c: Choice<seq<byte>>)
    requires |lib.hash(peer)| == 32
    ensures var st := Alice(lib, own, peer, device).store;
            Decrypt(lib, st, Print(Envelope(lib.hash(peer), Ciphertext, raw)), c).1 == IdentityHashMismatch
            <==> device != DEVICE_ID
  {
    hide Hex.Encode;
    hide Parse;
    hide Print;
    var e := Envelope(lib.hash(peer), Ciphertext, raw);
    ParsesExactlyPrints(Print(e), e);
  }

  /** What a session sends is accepted by the name check of any receiver the message reaches as a first contact. */
  lemma OwnEnvelopesPassTheCheck(
    lib: Library, own: Key, peer: Key, device: nat, calls: seq<Call>, c: Choice<(MessageType, seq<byte>)>, there: Store)
    requires |lib.hash(own)| == 32
    requires c.output.Some? && c.output.value.0 == PreKey && lib.carried(c.output.value.1) == Some(own)
    requires Encrypt(Run(lib, Alice(lib, own, peer, device), calls), c).1.Done?
    ensures var e := Parse(Encrypt(Run(lib, Alice(lib, own, peer, device), calls), c).1.bytes);
            e.Some? && e.value.sender == lib.hash(own) && Refusal(lib, there, e.value) == None
  {
    hide Parse;
    hide Print;
    hide Run;
    LocalHashStays(lib, Alice(lib, own, peer, device), calls);
    var e := Envelope(lib.hash(own), PreKey, c.output.value.1);
    ParsesExactlyPrints(Print(e), e);
  }

  lemma {:induction false} LocalHashStays(lib: Library, s: Session, calls: seq<Call>)
    ensures Run(lib, s, calls).localHash == s.localHash
  {
    hide Decrypt;
    if calls != [] { LocalHashStays(lib, s, calls[..|calls| - 1]); }
  }

  // ---------------------------------------------------------------- the session object

  class DoubleRatchetSession {
    var localHash: seq<byte>
    var remoteAddress: Option<Address>
    var identityStore: map<Address, Key>
    var sessionStore: map<Address, Key>

    function Value(): Session
      reads this
    {
      Session(localHash, remoteAddress, Store(identityStore, sessionStore))
    }

    constructor NewBob(lib: Library, own: Key)
      ensures Value() == Bob(lib, own)
    {
      localHash, remoteAddress, identityStore, sessionStore := lib.hash(own), None, map[], map[];
    }

    constructor NewAlice(lib: Library, own: Key, peer: Key, device: nat)
      ensures Value() == Alice(lib, own, peer, device)
    {
      var name := Hex.EncodeBytes(lib.hash(peer));
      var at := Address(name, device);
      localHash, remoteAddress := lib.hash(own), Some(at);
      identityStore, sessionStore := map[at := peer], map[at := peer];
    }

    method EncryptFor(c: Choice<(MessageType, seq<byte>)>) returns (r: Outcome)
      modifies this
      ensures (Value(), r) == Encrypt(old(Value()), c)
    {
      if remoteAddress == None { return NotSender; }
      var at := remoteAddress.value;
      if at !in sessionStore { return LibraryError; }
      var k := sessionStore[at];
      if c.saveIdentity { identityStore := identityStore[at := k]; }
      if c.saveSession { sessionStore := sessionStore[at := k]; }
      if c.output == None { return LibraryError; }
      var envelope := localHash;
      envelope := envelope + [TypeTag(c.output.value.0)];
      envelope := envelope + c.output.value.1;
      return Done(envelope);
    }

    method DecryptFrom(lib: Library, envelope: seq<byte>, c: Choice<seq<byte>>) returns (r: Outcome)
      modifies this
      ensures (Value().store, r) == Decrypt(lib, old(Value().store), envelope, c)
      ensures localHash == old(localHash) && remoteAddress == old(remoteAddress)
    {
      if |envelope| < PREFIX_LEN { return Malformed; }
      var sender := envelope[..32];
      var kind := FromTag(envelope[32]);
      if kind == None { return Malformed; }
      var raw := envelope[PREFIX_LEN..];
      var name := Hex.EncodeBytes(sender);
      var at := Address(name, DEVICE_ID);
      var k: Key;
      if kind.value == PreKey {
        var carried := lib.carried(raw);
        if carried == None { return Malformed; }
        if lib.hash(carried.value) != sender { return IdentityHashMismatch; }
        k := carried.value;
      } else {
        if at !in identityStore || lib.hash(identityStore[at]) != sender { return IdentityHashMismatch; }
        if at !in sessionStore { return LibraryError; }
        k := sessionStore[at];
      }
      if c.saveIdentity { identityStore := identityStore[at := k]; }
      if c.saveSession { sessionStore := sessionStore[at := k]; }
      if c.output == None { return LibraryError; }
      return Done(c.output.value);
    }
  }
}
