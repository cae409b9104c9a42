/**
 The keys of a group session as symbolic terms. HKDF-Expand outputs are injective, label-disjoint
 constructors and every CSPRNG draw is a new atom; `Denotes` ties the terms back to the bytes of a run.
 */
module GroupKeys {
  import opened Bytes
  import G = GroupSession

  datatype Term = Sender(pub: G.Key) | Draw(n: nat) | Expand(tag: G.Label, base: Term)

  /** The symbolic counterpart of a session in a run. `used` lists the chain keys that encrypted something. */
  datatype Sym = Sym(members: seq<G.Key>, chain: Term, draws: nat, used: seq<Term>)

  function SymStep(s: Sym, op: G.Op): Sym {
    match op
    case Add(m) => s.(members := s.members + [m])
    case Remove(m) => s.(members := G.Without(s.members, m), chain := Draw(s.draws), draws := s.draws + 1)
    case Rotate => s.(chain := Draw(s.draws), draws := s.draws + 1)
    case Send(_, _) =>
      if |s.members| > G.MAX_MEMBERS then s
      else s.(chain := Expand(G.RatchetLabel, s.chain), used := s.used + [s.chain])
  }

  function SymRun(sender: G.Key, ops: seq<G.Op>): Sym {
    if ops == [] then Sym([], Expand(G.ChainLabel, Sender(sender)), 0, [])
    else SymStep(SymRun(sender, ops[..|ops| - 1]), ops[|ops| - 1])
  }

  function MessageKey(chain: Term): Term { Expand(G.MessageLabel, chain) }

  function MessageNonce(chain: Term): Term { Expand(G.NonceLabel, chain) }

  // ---------------------------------------------------------------- terms denote the bytes of the run

  function Denotes(x: G.Suite, csprng: nat -> G.Key, t: Term): G.Key {
    match t
    case Sender(pub) => pub
    case Draw(n) => csprng(n)
    case Expand(l, base) => x.expand(l, Denotes(x, csprng, base))
  }

  /** The sends that got past the roster limit, in order. */
  function Encrypted(sent: seq<G.Sent>): seq<G.Sent> {
    if sent == [] then []
    else
      var m := sent[|sent| - 1];
      Encrypted(sent[..|sent| - 1]) + if |m.session.members| <= G.MAX_MEMBERS then [m] else []
  }

  /** The byte-level run and the symbolic run go hand in hand. */
  lemma {:induction false} RunDenotes(x: G.Suite, sender: G.Key, csprng: nat -> G.Key, ops: seq<G.Op>)
    ensures var r, s := G.RunOps(x, sender, csprng, ops), SymRun(sender, ops);
            && r.session.members == s.members && r.draws == s.draws
            && r.session.chainKey == Denotes(x, csprng, s.chain)
            && |Encrypted(r.sent)| == |s.used|
            && forall i :: 0 <= i < |s.used| ==>
                 Encrypted(r.sent)[i].session.chainKey == Denotes(x, csprng, s.used[i])
  {
    if ops == [] { return; }
    var init, op := ops[..|ops| - 1], ops[|ops| - 1];
    RunDenotes(x, sender, csprng, init);
    hide G.SealAll;
    hide G.PrintMessage;
    var r, r' := G.RunOps(x, sender, csprng, init), G.RunOps(x, sender, csprng, ops);
    if op.Send? { assert r'.sent[..|r'.sent| - 1] == r.sent; }
  }

  // ---------------------------------------------------------------- no key is used twice

  /** The rotation a term descends from: 0 before the first one. */
  function Epoch(t: Term): nat {
    match t case Sender(_) => 0 case Draw(n) => n + 1 case Expand(_, base) => Epoch(base)
  }

  function Depth(t: Term): nat {
    match t case Expand(_, base) => 1 + Depth(base) case _ => 0
  }

  predicate Before(a: Term, b: Term) {
    Epoch(a) < Epoch(b) || (Epoch(a) == Epoch(b) && Depth(a) < Depth(b))
  }

  /** Every step leaves the chain key alone or moves it strictly on; the used keys are strictly ordered before it. */
  lemma {:induction false} KeysMoveOn(sender: G.Key, ops: seq<G.Op>)
    ensures var s := SymRun(sender, ops);
            && Epoch(s.chain) == s.draws
            && (forall i :: 0 <= i < |s.used| ==> Before(s.used[i], s.chain))
            && (forall i, j :: 0 <= i < j < |s.used| ==> Before(s.used[i], s.used[j]))
  {
    if ops != [] { KeysMoveOn(sender, ops[..|ops| - 1]); }
  }

  /** In no run do two messages share a message key or a nonce, nor do they use the key that is current at the end. */
  lemma NoKeyReuse(sender: G.Key, ops: seq<G.Op>, i: nat, j: nat)
    requires i < j < |SymRun(sender, ops).used|
    ensures var s := SymRun(sender, ops);
            && s.used[i] != s.used[j] && s.used[i] != s.chain && s.used[j] != s.chain
            && MessageKey(s.used[i]) != MessageKey(s.used[j]) && MessageNonce(s.used[i]) != MessageNonce(s.used[j])
  {
    KeysMoveOn(sender, ops);
  }

  predicate Within(t: Term, whole: Term) {
    t == whole || (whole.Expand? && Within(t, whole.base))
  }

  /**
   Two values that differ in how they came about and yet are the same bytes: two different inputs of HKDF-Expand
   with one output, two CSPRNG draws, or a draw and an HKDF output.
   */
  predicate Collide(x: G.Suite, csprng: nat -> G.Key, a: Term, b: Term) {
    && Denotes(x, csprng, a) == Denotes(x, csprng, b)
    && !a.Sender? && !b.Sender?
    && (a.Draw? && b.Draw? ==> a.n != b.n)
    && (a.Expand? && b.Expand? ==> a.tag != b.tag || Denotes(x, csprng, a.base) != Denotes(x, csprng, b.base))
  }

  /** What the chain key of one session can be. */
  predicate IsChain(sender: G.Key, t: Term) {
    t.Draw? || t == Expand(G.ChainLabel, Sender(sender))
    || (t.Expand? && t.tag == G.RatchetLabel && IsChain(sender, t.base))
  }

  lemma {:induction false} RunHasChains(sender: G.Key, ops: seq<G.Op>)
    ensures var s := SymRun(sender, ops);
            IsChain(sender, s.chain) && forall i :: 0 <= i < |s.used| ==> IsChain(sender, s.used[i])
  {
    if ops != [] { RunHasChains(sender, ops[..|ops| - 1]); }
  }

  /** Different chain keys with one value come down to a collision somewhere inside them. */
  lemma {:induction false} FindCollision(x: G.Suite, sender: G.Key, csprng: nat -> G.Key, s: Term, t: Term)
    returns (a: Term, b: Term)
    requires IsChain(sender, s) && IsChain(sender, t) && s != t && Denotes(x, csprng, s) == Denotes(x, csprng, t)
    ensures Within(a, s) && Within(b, t) && Collide(x, csprng, a, b)
    decreases s
  {
    a, b := s, t;
    if s.Expand? && t.Expand? && s.tag == t.tag && Denotes(x, csprng, s.base) == Denotes(x, csprng, t.base) {
      a, b := FindCollision(x, sender, csprng, s.base, t.base);
    }
  }

  /**
   At the level of bytes: if two messages of a run were encrypted under one AES-GCM key, then among the values the run
   computed for those two messages there is a collision of HKDF outputs or of CSPRNG draws.
   */
  lemma ReuseIsACollision(x: G.Suite, sender: G.Key, csprng: nat -> G.Key, ops: seq<G.Op>, i: nat, j: nat)
    returns (a: Term, b: Term)
    requires i < j < |Encrypted(G.RunOps(x, sender, csprng, ops).sent)|
    requires var e := Encrypted(G.RunOps(x, sender, csprng, ops).sent);
             x.expand(G.MessageLabel, e[i].session.chainKey) == x.expand(G.MessageLabel, e[j].session.chainKey)
    ensures |SymRun(sender, ops).used| == |Encrypted(G.RunOps(x, sender, csprng, ops).sent)|
    ensures var s := SymRun(sender, ops);
            && Within(a, MessageKey(s.used[i])) && Within(b, MessageKey(s.used[j])) && Collide(x, csprng, a, b)
  {
    hide G.RunOps;
    hide SymRun;
    RunDenotes(x, sender, csprng, ops);
    RunHasChains(sender, ops);
    var s := SymRun(sender, ops);
    NoKeyReuse(sender, ops, i, j);
    a, b := MessageKey(s.used[i]), MessageKey(s.used[j]);
    if Denotes(x, csprng, s.used[i]) == Denotes(x, csprng, s.used[j]) {
      a, b := FindCollision(x, sender, csprng, s.used[i], s.used[j]);
    }
  }

  // ---------------------------------------------------------------- what captured keys give away

  /** What can be computed from known terms: HKDF runs forward only. */
  predicate Derivable(known: set<Term>, t: Term) {
    t in known || (t.Expand? && Derivable(known, t.base))
  }

  lemma {:induction false} DerivableKeepsEpoch(known: set<Term>, t: Term)
    requires Derivable(known, t)
    ensures exists k :: k in known && Epoch(k) == Epoch(t) && Depth(k) <= Depth(t)
  {
    if t !in known { DerivableKeepsEpoch(known, t.base); }
  }

  function ChainAt(sender: G.Key, ops: seq<G.Op>, p: nat): Term
    requires p <= |ops|
  {
    SymRun(sender, ops[..p]).chain
  }

  predicate Rotates(op: G.Op) { op.Remove? || op.Rotate? }

  lemma ChainStep(sender: G.Key, ops: seq<G.Op>, p: nat)
    requires p < |ops|
    ensures ops[..p + 1][..p] == ops[..p]
    ensures ChainAt(sender, ops, p + 1) == SymStep(SymRun(sender, ops[..p]), ops[p]).chain
  {
    assert ops[..p + 1][..p] == ops[..p];
  }

  /** Without a rotation in between, a later chain key follows from an earlier one. */
  lemma {:induction false} ForwardChain(sender: G.Key, ops: seq<G.Op>, p: nat, q: nat)
    requires p <= q <= |ops| && forall i :: p <= i < q ==> !Rotates(ops[i])
    ensures Derivable({ChainAt(sender, ops, p)}, ChainAt(sender, ops, q))
    decreases q - p
  {
    if p < q {
      ForwardChain(sender, ops, p, q - 1);
      ChainStep(sender, ops, q - 1);
    }
  }

  /** One step never lowers the number of draws, raises it on a rotation, and never moves the chain key back. */
  lemma StepMovesOn(sender: G.Key, ops: seq<G.Op>, p: nat)
    requires p < |ops|
    ensures var s, t := SymRun(sender, ops[..p]), SymRun(sender, ops[..p + 1]);
            && s.draws <= t.draws && (Rotates(ops[p]) ==> s.draws < t.draws)
            && (s.chain == t.chain || Before(s.chain, t.chain))
  {
    KeysMoveOn(sender, ops[..p]);
    ChainStep(sender, ops, p);
  }

  lemma {:induction false} ChainOrder(sender: G.Key, ops: seq<G.Op>, p: nat, q: nat)
    requires p <= q <= |ops|
    ensures SymRun(sender, ops[..p]).draws <= SymRun(sender, ops[..q]).draws
    ensures (exists i :: p <= i < q && Rotates(ops[i])) ==>
              SymRun(sender, ops[..p]).draws < SymRun(sender, ops[..q]).draws
    ensures ChainAt(sender, ops, p) == ChainAt(sender, ops, q) || Before(ChainAt(sender, ops, p), ChainAt(sender, ops, q))
    decreases q - p
  {
    hide SymRun;
    hide Epoch;
    hide Depth;
    if p < q {
      ChainOrder(sender, ops, p, q - 1);
      StepMovesOn(sender, ops, q - 1);
    }
  }

  ghost predicate NoRotation(ops: seq<G.Op>, p: nat, q: nat)
    requires q <= |ops|
  {
    forall i :: p <= i < q ==> !Rotates(ops[i])
  }

  lemma OnlyForward(held: Term, chain: Term)
    requires held == Expand(G.RatchetLabel, chain) || Before(Expand(G.RatchetLabel, chain), held)
    ensures !Derivable({held}, MessageKey(chain))
  {
    if Derivable({held}, chain) { DerivableKeepsEpoch({held}, chain); }
  }

  /** The chain key of one moment, on its own, gives the later message keys up to the next rotation and no other. */
  lemma ChainKeyReach(sender: G.Key, ops: seq<G.Op>, p: nat, q: nat)
    requires p <= |ops| && q < |ops| && ops[q].Send? && |SymRun(sender, ops[..q]).members| <= G.MAX_MEMBERS
    ensures Derivable({ChainAt(sender, ops, p)}, MessageKey(ChainAt(sender, ops, q))) <==> p <= q && NoRotation(ops, p, q)
  {
    var held, key := ChainAt(sender, ops, p), MessageKey(ChainAt(sender, ops, q));
    KeysMoveOn(sender, ops[..p]);
    KeysMoveOn(sender, ops[..q]);
    if p <= q {
      ChainOrder(sender, ops, p, q);
      if NoRotation(ops, p, q) {
        ForwardChain(sender, ops, p, q);
      } else if Derivable({held}, key) {
        DerivableKeepsEpoch({held}, key);
      }
    } else {
      ChainStep(sender, ops, q);
      ChainOrder(sender, ops, q + 1, p);
      OnlyForward(held, ChainAt(sender, ops, q));
    }
  }

  lemma {:induction false} DerivableFromOne(known: set<Term>, t: Term)
    ensures Derivable(known, t) <==> exists k :: k in known && Derivable({k}, t)
  {
    if t in known {
      assert Derivable({t}, t);
    } else if t.Expand? {
      DerivableFromOne(known, t.base);
      forall k | k in known ensures Derivable({k}, t) == Derivable({k}, t.base) { assert t != k; }
    }
  }

  lemma {:induction false} PublicStart(sender: G.Key, t: Term)
    requires Derivable({Expand(G.ChainLabel, Sender(sender))}, t)
    ensures Derivable({Sender(sender)}, t)
  {
    if t != Expand(G.ChainLabel, Sender(sender)) { PublicStart(sender, t.base); }
  }

  /**
   The sender's public key, which anyone may know, gives exactly the keys of the messages sent before the first
   rotation or removal: the first chain key is derived from it and from nothing else.
   */
  lemma PublicKeyReach(sender: G.Key, ops: seq<G.Op>, q: nat)
    requires q < |ops|
    ensures Derivable({Sender(sender)}, MessageKey(ChainAt(sender, ops, q))) <==> NoRotation(ops, 0, q)
  {
    var chain := ChainAt(sender, ops, q);
    KeysMoveOn(sender, ops[..q]);
    ChainOrder(sender, ops, 0, q);
    assert ops[..0] == [];
    if NoRotation(ops, 0, q) {
      ForwardChain(sender, ops, 0, q);
      PublicStart(sender, chain);
    } else if Derivable({Sender(sender)}, MessageKey(chain)) {
      DerivableKeepsEpoch({Sender(sender)}, MessageKey(chain));
    }
  }

  ghost function Captured(sender: G.Key, ops: seq<G.Op>, times: set<nat>): set<Term>
    requires forall p :: p in times ==> p <= |ops|
  {
    set p | p in times :: ChainAt(sender, ops, p)
  }

  /**
   Exactly what an observer who knows the public key learns from chain keys captured at any moments: a message's key
   follows if and only if some capture was made before it was sent and no rotation or removal came in between, or no
   rotation or removal came before it at all.
   */
  lemma CapturedKeyReach(sender: G.Key, ops: seq<G.Op>, times: set<nat>, q: nat)
    requires forall p :: p in times ==> p <= |ops|
    requires q < |ops| && ops[q].Send? && |SymRun(sender, ops[..q]).members| <= G.MAX_MEMBERS
    ensures Derivable(Captured(sender, ops, times) + {Sender(sender)}, MessageKey(ChainAt(sender, ops, q)))
       <==> (exists p :: p in times && p <= q && NoRotation(ops, p, q)) || NoRotation(ops, 0, q)
  {
    hide SymRun;
    hide ChainAt;
    hide NoRotation;
    hide Derivable;
    var key := MessageKey(ChainAt(sender, ops, q));
    var held := Captured(sender, ops, times);
    DerivableFromOne(held + {Sender(sender)}, key);
    PublicKeyReach(sender, ops, q);
    forall p | p in times
      ensures Derivable({ChainAt(sender, ops, p)}, key) <==> p <= q && NoRotation(ops, p, q)
    {
      ChainKeyReach(sender, ops, p, q);
    }
    if p :| p in times && p <= q && NoRotation(ops, p, q) { assert ChainAt(sender, ops, p) in held; }
  }

  /** Chain keys captured after a message was sent add nothing to what the public key gives. */
  lemma NotBackwards(sender: G.Key, ops: seq<G.Op>, times: set<nat>, q: nat)
    requires forall p :: p in times ==> q < p <= |ops|
    requires q < |ops| && ops[q].Send? && |SymRun(sender, ops[..q]).members| <= G.MAX_MEMBERS
    ensures Derivable(Captured(sender, ops, times) + {Sender(sender)}, MessageKey(ChainAt(sender, ops, q)))
       <==> Derivable({Sender(sender)}, MessageKey(ChainAt(sender, ops, q)))
  {
    hide Derivable;
    hide ChainAt;
    CapturedKeyReach(sender, ops, times, q);
    PublicKeyReach(sender, ops, q);
  }

  /** Pooling everything known from before a rotation does not help: no message key of a later epoch follows. */
  lemma RotationCutsOff(known: set<Term>, sender: G.Key, ops: seq<G.Op>, r: nat, q: nat)
    requires r < q < |ops| && Rotates(ops[r])
    requires forall k :: k in known ==> Epoch(k) <= SymRun(sender, ops[..r]).draws
    ensures !Derivable(known, MessageKey(ChainAt(sender, ops, q)))
  {
    var key := MessageKey(ChainAt(sender, ops, q));
    KeysMoveOn(sender, ops[..q]);
    ChainOrder(sender, ops, r, q);
    if Derivable(known, key) { DerivableKeepsEpoch(known, key); }
  }

  // ---------------------------------------------------------------- the same at the level of bytes

  /** The chain key after `n` sends, computed from the sender's public key alone. */
  function PublicChain(x: G.Suite, sender: G.Key, n: nat): G.Key {
    if n == 0 then x.expand(G.ChainLabel, sender) else x.expand(G.RatchetLabel, PublicChain(x, sender, n - 1))
  }

  function PublicTerm(sender: G.Key, n: nat): Term {
    Expand(if n == 0 then G.ChainLabel else G.RatchetLabel, if n == 0 then Sender(sender) else PublicTerm(sender, n - 1))
  }

  lemma {:induction false} PublicTermDenotes(x: G.Suite, sender: G.Key, csprng: nat -> G.Key, n: nat)
    ensures Denotes(x, csprng, PublicTerm(sender, n)) == PublicChain(x, sender, n)
  {
    if n > 0 { PublicTermDenotes(x, sender, csprng, n - 1); }
  }

  lemma {:induction false} UnrotatedTerms(sender: G.Key, ops: seq<G.Op>)
    requires NoRotation(ops, 0, |ops|)
    ensures var s := SymRun(sender, ops);
            && s.chain == PublicTerm(sender, |s.used|)
            && forall i :: 0 <= i < |s.used| ==> s.used[i] == PublicTerm(sender, i)
  {
    if ops != [] {
      UnrotatedTerms(sender, ops[..|ops| - 1]);
      assert !Rotates(ops[|ops| - 1]);
    }
  }

  lemma {:induction false} EncryptedWasSent(x: G.Suite, sender: G.Key, csprng: nat -> G.Key, ops: seq<G.Op>, i: nat)
    requires i < |Encrypted(G.RunOps(x, sender, csprng, ops).sent)|
    ensures var m := Encrypted(G.RunOps(x, sender, csprng, ops).sent)[i];
            m.message == G.EncryptAs(x, m.session, m.plaintext, m.coins).1
  {
    var sent := G.RunOps(x, sender, csprng, ops).sent;
    EncryptedIn(sent, i);
    var k :| 0 <= k < |sent| && sent[k] == Encrypted(sent)[i];
    G.SentIsEncrypted(x, sender, csprng, ops, k);
  }

  lemma {:induction false} EncryptedIn(sent: seq<G.Sent>, i: nat)
    requires i < |Encrypted(sent)|
    ensures Encrypted(sent)[i] in sent
  {
    var init := sent[..|sent| - 1];
    if i < |Encrypted(init)| { EncryptedIn(init, i); }
  }

  /**
   What the `i`-th message of a run looks like on the wire: the nonce of its chain key, then the length, then the
   plaintext encrypted under the key and nonce of that chain key and of no other.
   */
  lemma MessageOnTheWire(x: G.Suite, sender: G.Key, csprng: nat -> G.Key, ops: seq<G.Op>, i: nat)
    requires G.Correct(x) && i < |Encrypted(G.RunOps(x, sender, csprng, ops).sent)|
    requires Encrypted(G.RunOps(x, sender, csprng, ops).sent)[i].message.Some?
    ensures i < |SymRun(sender, ops).used|
    ensures var m := Encrypted(G.RunOps(x, sender, csprng, ops).sent)[i];
            var chain := SymRun(sender, ops).used[i];
            var key, nonce := Denotes(x, csprng, MessageKey(chain)), Denotes(x, csprng, MessageNonce(chain));
            var ct := m.message.value;
            && |ct| >= 16 + |m.plaintext| + 16
            && ct[..12] == nonce && ct[16..16 + |m.plaintext| + 16] == x.encrypt(key, nonce, m.plaintext)
  {
    hide G.RunOps;
    hide SymRun;
    hide G.PrintMessage;
    hide G.SealAll;
    RunDenotes(x, sender, csprng, ops);
    EncryptedWasSent(x, sender, csprng, ops, i);
    var m := Encrypted(G.RunOps(x, sender, csprng, ops).sent)[i];
    G.MessageParts(x, m.session, m.plaintext, m.coins);
  }

  /**
   Anyone who knows the sender's public key reads every message sent before the first rotation or removal off the
   wire: no private key and nothing of the session is needed.
   */
  lemma OutsiderReads(x: G.Suite, sender: G.Key, csprng: nat -> G.Key, ops: seq<G.Op>, i: nat)
    requires G.Correct(x) && NoRotation(ops, 0, |ops|)
    requires i < |Encrypted(G.RunOps(x, sender, csprng, ops).sent)|
    requires var m := Encrypted(G.RunOps(x, sender, csprng, ops).sent)[i]; m.message.Some? && G.FitsField(m.plaintext)
    ensures var m := Encrypted(G.RunOps(x, sender, csprng, ops).sent)[i];
            G.TryDecryptWith(x, PublicChain(x, sender, i), m.message.value) == G.Opened(m.plaintext)
  {
    hide G.RunOps;
    hide G.EncryptAs;
    hide G.TryDecryptWith;
    hide SymRun;
    RunDenotes(x, sender, csprng, ops);
    UnrotatedTerms(sender, ops);
    PublicTermDenotes(x, sender, csprng, i);
    EncryptedWasSent(x, sender, csprng, ops, i);
    var m := Encrypted(G.RunOps(x, sender, csprng, ops).sent)[i];
    G.SendingKeyOpens(x, m.session, m.plaintext, m.coins);
  }
}
