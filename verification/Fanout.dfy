/**
 Per-device fan-out, core/protocol/src/fanout.rs: three parallel tables kept in step, one envelope per linked device,
 and who reads which message over a whole run.
 */
module Fanout {
  import opened Bytes
  import opened Order

  type Hash = seq<byte>

  /** The two ends of one established ratchet session. */
  datatype Ends<S> = Ends(outbound: S, inbound: S)

  datatype Linked = Linked(device: nat, identity: Hash)

  /** The recipient list, and what establishment yields for each entry; the position stands for the random draws. */
  datatype Plan<!S> = Plan(devices: seq<Linked>, build: (int, Hash) -> Option<Ends<S>>)

  /** The Double Ratchet: each call advances the session and may fail. */
  datatype Ratchet<!S> = Ratchet(
    encrypt: (S, seq<byte>) -> (S, Option<seq<byte>>),
    decrypt: (S, seq<byte>) -> (S, Option<seq<byte>>))

  datatype Ciphertext = Ciphertext(device: nat, envelope: seq<byte>)

  datatype FanoutError =
    | NoDevices
    | DuplicateDevice(device: nat)
    | DuplicateIdentity(existing: nat)
    | Establishment(device: nat)
    | EncryptFailed(device: nat)
    | DecryptFailed(device: nat)
    | UnknownIdentity
    | DeviceMismatch(claimed: nat, actual: nat)

  datatype Broadcast = Envelopes(out: seq<Ciphertext>) | Aborted(error: FanoutError)

  datatype Read = Plain(plaintext: seq<byte>) | Refused(error: FanoutError)

  /** The three tables. */
  datatype Fan<S> = Fan(senders: map<nat, S>, owners: map<Hash, nat>, receivers: map<nat, S>)

  /** Same devices in all three tables, and identities match devices one to one. */
  ghost predicate Consistent<S(!new)>(f: Fan<S>) {
    && f.senders.Keys == f.receivers.Keys
    && (forall h :: h in f.owners ==> f.owners[h] in f.senders)
    && (forall d :: d in f.senders ==> exists h :: h in f.owners && f.owners[h] == d)
    && (forall h, g :: h in f.owners && g in f.owners && f.owners[h] == f.owners[g] ==> h == g)
  }

  // ---------------------------------------------------------------- establishing

  predicate Builds<S>(p: Plan<S>, i: nat)
    requires i < |p.devices|
  {
    p.build(i, p.devices[i].identity).Some?
  }

  ghost predicate DeviceSeen<S(!new)>(p: Plan<S>, i: nat)
    requires i < |p.devices|
  {
    exists j :: 0 <= j < i && p.devices[j].device == p.devices[i].device
  }

  ghost predicate IdentitySeen<S(!new)>(p: Plan<S>, i: nat)
    requires i < |p.devices|
  {
    exists j :: 0 <= j < i && p.devices[j].identity == p.devices[i].identity
  }

  /** Nothing is wrong with the first `n` entries. */
  ghost predicate Clean<S(!new)>(p: Plan<S>, n: nat)
    requires n <= |p.devices|
  {
    forall i :: 0 <= i < n ==> Builds(p, i) && !DeviceSeen(p, i) && !IdentitySeen(p, i)
  }

  /** Entry `i` is refused with `e`; the checks come in this order, and a repeated identity names its earlier device. */
  ghost predicate Faulty<S(!new)>(p: Plan<S>, i: nat, e: FanoutError)
    requires i < |p.devices|
  {
    if DeviceSeen(p, i) then e == DuplicateDevice(p.devices[i].device)
    else if !Builds(p, i) then e == Establishment(p.devices[i].device)
    else exists j :: 0 <= j < i && p.devices[j].identity == p.devices[i].identity && e == DuplicateIdentity(p.devices[j].device)
  }

  /** The tables after the first `n` entries. */
  function Tables<S>(p: Plan<S>, n: nat): Fan<S>
    requires n <= |p.devices|
    requires forall i :: 0 <= i < n ==> Builds(p, i)
  {
    if n == 0 then Fan(map[], map[], map[])
    else
      assert Builds(p, n - 1);
      Link(Tables(p, n - 1), p.devices[n - 1], p.build(n - 1, p.devices[n - 1].identity).value)
  }

  function Link<S>(f: Fan<S>, entry: Linked, ends: Ends<S>): Fan<S> {
    Fan(f.senders[entry.device := ends.outbound],
        f.owners[entry.identity := entry.device],
        f.receivers[entry.device := ends.inbound])
  }

  /** A list is clean exactly when sessions establish, device ids are pairwise distinct and identities are. */
  lemma CleanIff<S(!new)>(p: Plan<S>)
    ensures Clean(p, |p.devices|) <==>
      (&& (forall i :: 0 <= i < |p.devices| ==> Builds(p, i))
       && (forall i, j :: 0 <= j < i < |p.devices| ==> p.devices[j].device != p.devices[i].device)
       && (forall i, j :: 0 <= j < i < |p.devices| ==> p.devices[j].identity != p.devices[i].identity))
  {
    if Clean(p, |p.devices|) {
      forall i, j | 0 <= j < i < |p.devices|
        ensures p.devices[j].device != p.devices[i].device && p.devices[j].identity != p.devices[i].identity
      {
        assert !DeviceSeen(p, i) && !IdentitySeen(p, i);
      }
    }
  }

  ghost predicate HasDevice<S(!new)>(p: Plan<S>, n: nat, d: nat)
    requires n <= |p.devices|
  {
    exists i :: 0 <= i < n && p.devices[i].device == d
  }

  ghost predicate HasIdentity<S(!new)>(p: Plan<S>, n: nat, h: Hash)
    requires n <= |p.devices|
  {
    exists i :: 0 <= i < n && p.devices[i].identity == h
  }

  lemma {:induction false} TablesKeys<S(!new)>(p: Plan<S>, n: nat)
    requires n <= |p.devices| && Clean(p, n)
    ensures forall d :: d in Tables(p, n).senders <==> HasDevice(p, n, d)
    ensures forall h :: h in Tables(p, n).owners <==> HasIdentity(p, n, h)
  {
    if n == 0 { return; }
    assert Builds(p, n - 1);
    assert Tables(p, n).senders.Keys == Tables(p, n - 1).senders.Keys + {p.devices[n - 1].device};
    assert Tables(p, n).owners.Keys == Tables(p, n - 1).owners.Keys + {p.devices[n - 1].identity};
    TablesKeys(p, n - 1);
  }

  /** The tables of a clean list agree with each other. */
  lemma {:induction false} TablesConsistent<S(!new)>(p: Plan<S>, n: nat)
    requires n <= |p.devices| && Clean(p, n)
    ensures Consistent(Tables(p, n))
  {
    if n == 0 { return; }
    hide Consistent;
    hide Link;
    TablesConsistent(p, n - 1);
    TablesKeys(p, n - 1);
    assert !DeviceSeen(p, n - 1) && !IdentitySeen(p, n - 1) && Builds(p, n - 1);
    assert !HasDevice(p, n - 1, p.devices[n - 1].device);
    assert !HasIdentity(p, n - 1, p.devices[n - 1].identity);
    LinkKeepsConsistent(Tables(p, n - 1), p.devices[n - 1], p.build(n - 1, p.devices[n - 1].identity).value);
  }

  /** The tables of a clean list hold every entry's own sessions under its device and identity. */
  lemma {:induction false} TablesHold<S(!new)>(p: Plan<S>, n: nat, i: nat)
    requires i < n <= |p.devices| && Clean(p, n)
    ensures var f := Tables(p, n); var entry := p.devices[i];
            && EndsAt(f, entry.device) == p.build(i, entry.identity)
            && entry.identity in f.owners && f.owners[entry.identity] == entry.device
  {
    assert Builds(p, n - 1);
    if i < n - 1 {
      TablesHold(p, n - 1, i);
      assert !DeviceSeen(p, n - 1) && !IdentitySeen(p, n - 1);
      assert p.devices[i].device != p.devices[n - 1].device;
    }
  }

  function EndsAt<S>(f: Fan<S>, d: nat): Option<Ends<S>> {
    if d in f.senders && d in f.receivers then Some(Ends(f.senders[d], f.receivers[d])) else None
  }

  lemma LinkKeepsConsistent<S(!new)>(f: Fan<S>, entry: Linked, ends: Ends<S>)
    requires Consistent(f) && entry.device !in f.senders && entry.identity !in f.owners
    ensures Consistent(Link(f, entry, ends))
  {
    var g := Link(f, entry, ends);
    forall e | e in g.senders ensures exists k :: k in g.owners && g.owners[k] == e {
      if e == entry.device {
        assert entry.identity in g.owners;
      } else {
        var k :| k in f.owners && f.owners[k] == e;
        assert k in g.owners && g.owners[k] == e;
      }
    }
  }

  // ---------------------------------------------------------------- sending, reading, removing

  datatype Sent<S> = Sent(senders: map<nat, S>, out: seq<Ciphertext>, failed: Option<nat>)

  /** Encrypting for the devices in `todo`, in that order, up to the first failure. */
  function EncryptFrom<S>(x: Ratchet<S>, senders: map<nat, S>, todo: seq<nat>, plaintext: seq<byte>): Sent<S>
    requires forall k :: k in todo ==> k in senders
  {
    if todo == [] then Sent(senders, [], None)
    else
      var (next, envelope) := x.encrypt(senders[todo[0]], plaintext);
      var advanced := senders[todo[0] := next];
      match envelope
      case None => Sent(advanced, [], Some(todo[0]))
      case Some(bytes) =>
        var others := EncryptFrom(x, advanced, todo[1..], plaintext);
        others.(out := [Ciphertext(todo[0], bytes)] + others.out)
  }

  /** What the caller of a send sees: all envelopes, or the device that failed and nothing else. */
  function Report<S>(r: Sent<S>): Broadcast {
    if r.failed == None then Envelopes(r.out) else Aborted(EncryptFailed(r.failed.value))
  }

  function EncryptToAll<S>(x: Ratchet<S>, f: Fan<S>, plaintext: seq<byte>): Sent<S> {
    EncryptFrom(x, f.senders, Sorted(f.senders.Keys), plaintext)
  }

  function DecryptAs<S(!new)>(x: Ratchet<S>, f: Fan<S>, identity: Hash, c: Ciphertext): (Fan<S>, Read)
    requires Consistent(f)
  {
    if identity !in f.owners then (f, Refused(UnknownIdentity))
    else
      var d := f.owners[identity];
      if c.device != d then (f, Refused(DeviceMismatch(c.device, d)))
      else
        var (next, plaintext) := x.decrypt(f.receivers[d], c.envelope);
        (f.(receivers := f.receivers[d := next]),
         if plaintext == None then Refused(DecryptFailed(d)) else Plain(plaintext.value))
  }

  function Remove<S>(f: Fan<S>, d: nat): Fan<S> {
    Fan(f.senders - {d}, map h | h in f.owners && f.owners[h] != d :: f.owners[h], f.receivers - {d})
  }

  ghost predicate Succeeds<S(!new)>(x: Ratchet<S>, senders: map<nat, S>, d: nat, plaintext: seq<byte>)
    requires d in senders
  {
    x.encrypt(senders[d], plaintext).1.Some?
  }

  /** What a send amounts to when no device fails. */
  ghost predicate Delivered<S(!new)>(x: Ratchet<S>, senders: map<nat, S>, todo: seq<nat>, plaintext: seq<byte>, r: Sent<S>)
    requires forall k :: k in todo ==> k in senders
  {
    && |r.out| == |todo|
    && (forall i :: 0 <= i < |todo| ==> r.out[i].device == todo[i])
    && (forall i :: 0 <= i < |todo| ==> x.encrypt(senders[todo[i]], plaintext).1 == Some(r.out[i].envelope))
    && (forall d :: d in todo ==> d in r.senders && r.senders[d] == x.encrypt(senders[d], plaintext).0)
    && (forall d :: d in senders && d !in todo ==> d in r.senders && r.senders[d] == senders[d])
  }

  /** What a send amounts to when `d` fails: devices before it advance, it advances as far as it got, the rest wait. */
  ghost predicate Stopped<S(!new)>(x: Ratchet<S>, senders: map<nat, S>, todo: seq<nat>, plaintext: seq<byte>, r: Sent<S>, d: nat)
    requires forall k :: k in todo ==> k in senders
  {
    && d in todo && !Succeeds(x, senders, d, plaintext)
    && (forall e :: e in todo && e < d ==> Succeeds(x, senders, e, plaintext))
    && (forall e :: e in todo && e <= d ==> e in r.senders && r.senders[e] == x.encrypt(senders[e], plaintext).0)
    && (forall e :: e in senders && (e in todo ==> e > d) ==> e in r.senders && r.senders[e] == senders[e])
  }

  lemma RestIsHigher(todo: seq<nat>)
    requires todo != [] && Ascending(todo)
    ensures Ascending(todo[1..])
    ensures forall e :: e in todo[1..] ==> e > todo[0]
    ensures forall e :: e in todo <==> e == todo[0] || e in todo[1..]
  {
    assert todo == [todo[0]] + todo[1..];
  }

  lemma DeliveredStep<S(!new)>(
    x: Ratchet<S>, senders: map<nat, S>, todo: seq<nat>, plaintext: seq<byte>, bytes: seq<byte>, others: Sent<S>)
    requires todo != [] && (forall k :: k in todo ==> k in senders) && Ascending(todo)
    requires x.encrypt(senders[todo[0]], plaintext).1 == Some(bytes)
    requires forall k :: k in todo[1..] ==> k in senders
    requires Delivered(x, senders[todo[0] := x.encrypt(senders[todo[0]], plaintext).0], todo[1..], plaintext, others)
    ensures Delivered(x, senders, todo, plaintext, others.(out := [Ciphertext(todo[0], bytes)] + others.out))
  {
    RestIsHigher(todo);
    hide Ascending;
    var advanced := senders[todo[0] := x.encrypt(senders[todo[0]], plaintext).0];
    var out := [Ciphertext(todo[0], bytes)] + others.out;
    forall i | 0 <= i < |todo|
      ensures out[i].device == todo[i] && x.encrypt(senders[todo[i]], plaintext).1 == Some(out[i].envelope)
    {
      if i > 0 {
        assert todo[1..][i - 1] == todo[i] && todo[1..][i - 1] in todo[1..];
        assert advanced[todo[i]] == senders[todo[i]];
      }
    }
  }

  lemma {:induction false} EncryptFromDelivers<S(!new)>(x: Ratchet<S>, senders: map<nat, S>, todo: seq<nat>, plaintext: seq<byte>)
    requires (forall k :: k in todo ==> k in senders) && Ascending(todo)
    ensures var r := EncryptFrom(x, senders, todo, plaintext);
            && r.senders.Keys == senders.Keys
            && (r.failed == None ==> Delivered(x, senders, todo, plaintext, r))
  {
    if todo == [] { return; }
    hide Ascending;
    hide Delivered;
    RestIsHigher(todo);
    var (next, envelope) := x.encrypt(senders[todo[0]], plaintext);
    if envelope.Some? {
      var advanced := senders[todo[0] := next];
      EncryptFromDelivers(x, advanced, todo[1..], plaintext);
      var others := EncryptFrom(x, advanced, todo[1..], plaintext);
      if others.failed == None { DeliveredStep(x, senders, todo, plaintext, envelope.value, others); }
    }
  }

  lemma {:induction false} EncryptFromStops<S(!new)>(x: Ratchet<S>, senders: map<nat, S>, todo: seq<nat>, plaintext: seq<byte>)
    requires (forall k :: k in todo ==> k in senders) && Ascending(todo)
    ensures var r := EncryptFrom(x, senders, todo, plaintext);
            r.failed.Some? ==> Stopped(x, senders, todo, plaintext, r, r.failed.value)
  {
    if todo == [] { return; }
    hide Ascending;
    RestIsHigher(todo);
    var (next, envelope) := x.encrypt(senders[todo[0]], plaintext);
    if envelope.Some? {
      EncryptFromStops(x, senders[todo[0] := next], todo[1..], plaintext);
    }
  }

  /**
   A send without failure emits one envelope per linked device, in ascending order of device id; it fails iff some
   device's encryption fails, at the least such device, leaving the devices above it untouched.
   */
  lemma EncryptToAllExact<S(!new)>(x: Ratchet<S>, f: Fan<S>, plaintext: seq<byte>)
    ensures var r := EncryptToAll(x, f, plaintext); var todo := Sorted(f.senders.Keys);
            && r.senders.Keys == f.senders.Keys
            && (r.failed == None <==> forall d :: d in f.senders ==> Succeeds(x, f.senders, d, plaintext))
            && (r.failed == None ==> Delivered(x, f.senders, todo, plaintext, r))
            && (r.failed.Some? ==> Stopped(x, f.senders, todo, plaintext, r, r.failed.value))
            && (r.failed == None ==> Report(r) == Envelopes(r.out))
            && (r.failed.Some? ==> Report(r) == Aborted(EncryptFailed(r.failed.value)))
  {
    hide EncryptFrom;
    var r, todo := EncryptToAll(x, f, plaintext), Sorted(f.senders.Keys);
    EncryptFromDelivers(x, f.senders, todo, plaintext);
    EncryptFromStops(x, f.senders, todo, plaintext);
    if r.failed == None {
      forall d | d in f.senders ensures Succeeds(x, f.senders, d, plaintext) {
        var i :| 0 <= i < |todo| && todo[i] == d;
        assert x.encrypt(f.senders[todo[i]], plaintext).1 == Some(r.out[i].envelope);
      }
    }
  }

  /**
   Every answer of `decrypt_as` with its exact condition. Only a linked identity, an envelope for its own device and a
   ratchet that yields a plaintext give one; an unknown identity or a mismatched device changes no table.
   */
  lemma ReadAnswersIff<S(!new)>(x: Ratchet<S>, f: Fan<S>, identity: Hash, c: Ciphertext, p: seq<byte>, d: nat)
    requires Consistent(f)
    ensures var (g, r) := DecryptAs(x, f, identity, c);
            && (r == Refused(UnknownIdentity) <==> identity !in f.owners)
            && (r == Refused(DeviceMismatch(c.device, d)) <==>
                  identity in f.owners && f.owners[identity] == d && d != c.device)
            && (identity in f.owners && f.owners[identity] == c.device ==> c.device in f.receivers)
            && (r == Refused(DecryptFailed(d)) <==>
                  && identity in f.owners && f.owners[identity] == c.device && d == c.device
                  && x.decrypt(f.receivers[c.device], c.envelope).1 == None)
            && (r == Plain(p) <==>
                  && identity in f.owners && f.owners[identity] == c.device
                  && x.decrypt(f.receivers[c.device], c.envelope).1 == Some(p))
            && g.senders == f.senders && g.owners == f.owners
            && g.receivers == (if identity in f.owners && f.owners[identity] == c.device
                               then f.receivers[c.device := x.decrypt(f.receivers[c.device], c.envelope).0]
                               else f.receivers)
  {
  }

  lemma RemoveKeepsConsistent<S(!new)>(f: Fan<S>, d: nat)
    requires Consistent(f)
    ensures Consistent(Remove(f, d)) && Remove(f, d).senders.Keys == f.senders.Keys - {d}
  {
    var g := Remove(f, d);
    forall e | e in g.senders ensures exists h :: h in g.owners && g.owners[h] == e {
      var h :| h in f.owners && f.owners[h] == e;
      assert h in g.owners;
    }
  }

  // ---------------------------------------------------------------- every reachable state

  datatype Call = Send(plaintext: seq<byte>) | ReadAs(identity: Hash, c: Ciphertext) | Drop(device: nat)

  function Step<S(!new)>(x: Ratchet<S>, f: Fan<S>, call: Call): (r: Fan<S>)
    requires Consistent(f)
  {
    match call
    case Send(plaintext) => f.(senders := EncryptToAll(x, f, plaintext).senders)
    case ReadAs(identity, c) => DecryptAs(x, f, identity, c).0
    case Drop(d) => Remove(f, d)
  }

  lemma AdvancingKeepsConsistent<S(!new)>(f: Fan<S>, g: Fan<S>)
    requires Consistent(f) && f.owners == g.owners
    requires f.senders.Keys == g.senders.Keys && f.receivers.Keys == g.receivers.Keys
    ensures Consistent(g)
  {
  }

  lemma ReadingKeepsKeys<S(!new)>(x: Ratchet<S>, f: Fan<S>, identity: Hash, c: Ciphertext)
    requires Consistent(f)
    ensures var g := DecryptAs(x, f, identity, c).0;
            g.senders == f.senders && g.owners == f.owners && g.receivers.Keys == f.receivers.Keys
  {
  }

  lemma StepKeepsConsistent<S(!new)>(x: Ratchet<S>, f: Fan<S>, call: Call)
    requires Consistent(f)
    ensures Consistent(Step(x, f, call))
    ensures Step(x, f, call).senders.Keys == f.senders.Keys - (if call.Drop? then {call.device} else {})
  {
    hide Consistent;
    hide EncryptToAll;
    hide DecryptAs;
    hide Remove;
    match call
    case Send(plaintext) =>
      EncryptToAllExact(x, f, plaintext);
      AdvancingKeepsConsistent(f, Step(x, f, call));
    case ReadAs(identity, c) =>
      ReadingKeepsKeys(x, f, identity, c);
      AdvancingKeepsConsistent(f, Step(x, f, call));
    case Drop(d) =>
      RemoveKeepsConsistent(f, d);
  }

  function Dropped(calls: seq<Call>): set<nat> {
    set i | 0 <= i < |calls| && calls[i].Drop? :: calls[i].device
  }

  lemma DroppedFirst(calls: seq<Call>)
    requires calls != []
    ensures Dropped(calls) == (if calls[0].Drop? then {calls[0].device} else {}) + Dropped(calls[1..])
  {
    forall d | d in Dropped(calls)
      ensures d in (if calls[0].Drop? then {calls[0].device} else {}) + Dropped(calls[1..])
    {
      var i :| 0 <= i < |calls| && calls[i].Drop? && calls[i].device == d;
      if i > 0 { assert calls[1..][i - 1] == calls[i]; }
    }
    forall d | d in Dropped(calls[1..]) ensures d in Dropped(calls) {
      var i :| 0 <= i < |calls[1..]| && calls[1..][i].Drop? && calls[1..][i].device == d;
      assert calls[i + 1] == calls[1..][i];
    }
  }

  /**
   Every run ends consistent, linked to exactly the devices it began with less those dropped; so no lookup in the
   tables can miss.
   */
  ghost function Run<S(!new)>(x: Ratchet<S>, f: Fan<S>, calls: seq<Call>): (g: Fan<S>)
    requires Consistent(f)
    ensures Consistent(g) && g.senders.Keys == f.senders.Keys - Dropped(calls)
    decreases |calls|
  {
    if calls == [] then f
    else
      StepKeepsConsistent(x, f, calls[0]);
      DroppedFirst(calls);
      Run(x, Step(x, f, calls[0]), calls[1..])
  }

  // ---------------------------------------------------------------- who reads what

  /** What the ratchet promises of two ends in step: the next message is read, and they stay in step. */
  ghost predicate Pairs<S(!new)>(x: Ratchet<S>, inStep: (S, S) -> bool) {
    forall s, r, p: seq<byte> | inStep(s, r) ::
      && x.encrypt(s, p).1.Some?
      && x.decrypt(r, x.encrypt(s, p).1.value).1 == Some(p)
      && inStep(x.encrypt(s, p).0, x.decrypt(r, x.encrypt(s, p).1.value).0)
  }

  /** The promise can be kept, so nothing below holds for want of a ratchet. */
  lemma SomeRatchetPairs() returns (x: Ratchet<int>, inStep: (int, int) -> bool)
    ensures Pairs(x, inStep) && inStep(0, 0)
  {
    x := Ratchet((s: int, p: seq<byte>) => (s + 1, Some(p)), (r: int, c: seq<byte>) => (r + 1, Some(c)));
    inStep := (s: int, r: int) => s == r;
  }

  ghost predicate AllInStep<S(!new)>(f: Fan<S>, inStep: (S, S) -> bool) {
    forall d :: d in f.senders && d in f.receivers ==> inStep(f.senders[d], f.receivers[d])
  }

  ghost function Owner<S(!new)>(f: Fan<S>, d: nat): (h: Hash)
    requires Consistent(f) && d in f.senders
    ensures h in f.owners && f.owners[h] == d
  {
    var h :| h in f.owners && f.owners[h] == d;
    h
  }

  ghost predicate Deliverable<S(!new)>(f: Fan<S>, out: seq<Ciphertext>) {
    && (forall i :: 0 <= i < |out| ==> out[i].device in f.senders)
    && (forall i, j :: 0 <= i < j < |out| ==> out[i].device != out[j].device)
  }

  /** Every envelope of one send read by the device it names; the map says who got what. */
  ghost function Deliver<S(!new)>(x: Ratchet<S>, f: Fan<S>, out: seq<Ciphertext>): (Fan<S>, map<nat, seq<byte>>)
    requires Consistent(f) && Deliverable(f, out)
    decreases |out|
  {
    if out == [] then (f, map[])
    else
      var (g, read) := DecryptAs(x, f, Owner(f, out[0].device), out[0]);
      ReadingKeepsKeys(x, f, Owner(f, out[0].device), out[0]);
      AdvancingKeepsConsistent(f, g);
      var (end, others) := Deliver(x, g, out[1..]);
      (end, if read.Plain? then others[out[0].device := read.plaintext] else others)
  }

  /** Reading at the addressed device. */
  lemma OwnerReads<S(!new)>(x: Ratchet<S>, f: Fan<S>, c: Ciphertext)
    requires Consistent(f) && c.device in f.senders
    ensures c.device in f.receivers
    ensures var (g, read) := DecryptAs(x, f, Owner(f, c.device), c);
            var (next, plaintext) := x.decrypt(f.receivers[c.device], c.envelope);
            && g == f.(receivers := f.receivers[c.device := next])
            && (plaintext.Some? ==> read == Plain(plaintext.value))
            && Consistent(g)
  {
    hide Owner;
    ReadingKeepsKeys(x, f, Owner(f, c.device), c);
    AdvancingKeepsConsistent(f, DecryptAs(x, f, Owner(f, c.device), c).0);
  }

  lemma RestDeliverable<S(!new)>(f: Fan<S>, g: Fan<S>, out: seq<Ciphertext>)
    requires out != [] && Deliverable(f, out) && g.senders == f.senders
    ensures Deliverable(g, out[1..])
    ensures forall i :: 0 <= i < |out[1..]| ==> out[1..][i] == out[i + 1]
  {
  }

  lemma {:induction false} DeliverKeepsTables<S(!new)>(x: Ratchet<S>, f: Fan<S>, out: seq<Ciphertext>)
    requires Consistent(f) && Deliverable(f, out)
    ensures var g := Deliver(x, f, out).0; Consistent(g) && g.senders == f.senders && g.owners == f.owners
    decreases |out|
  {
    if out == [] { return; }
    hide Consistent;
    hide DecryptAs;
    OwnerReads(x, f, out[0]);
    var g := DecryptAs(x, f, Owner(f, out[0].device), out[0]).0;
    RestDeliverable(f, g, out);
    DeliverKeepsTables(x, g, out[1..]);
  }

  /** A device that no envelope names reads nothing and keeps its state. */
  lemma {:induction false} DeliverElsewhere<S(!new)>(x: Ratchet<S>, f: Fan<S>, out: seq<Ciphertext>, d: nat)
    requires Consistent(f) && Deliverable(f, out)
    requires forall i :: 0 <= i < |out| ==> out[i].device != d
    ensures var (g, read) := Deliver(x, f, out);
            d !in read && (d in f.receivers ==> d in g.receivers && g.receivers[d] == f.receivers[d])
    decreases |out|
  {
    if out == [] { return; }
    hide Consistent;
    hide DecryptAs;
    OwnerReads(x, f, out[0]);
    var g := DecryptAs(x, f, Owner(f, out[0].device), out[0]).0;
    RestDeliverable(f, g, out);
    DeliverElsewhere(x, g, out[1..], d);
  }

  /** The device an envelope names reads it with the state it had before the round. */
  lemma {:induction false} DeliverAt<S(!new)>(x: Ratchet<S>, f: Fan<S>, out: seq<Ciphertext>, k: nat)
    requires Consistent(f) && Deliverable(f, out) && k < |out|
    ensures var d := out[k].device; var (g, read) := Deliver(x, f, out);
            && d in f.receivers && d in g.receivers
            && g.receivers[d] == x.decrypt(f.receivers[d], out[k].envelope).0
            && (x.decrypt(f.receivers[d], out[k].envelope).1.Some? ==>
                  d in read && read[d] == x.decrypt(f.receivers[d], out[k].envelope).1.value)
    decreases |out|
  {
    hide Consistent;
    hide DecryptAs;
    OwnerReads(x, f, out[0]);
    var g := DecryptAs(x, f, Owner(f, out[0].device), out[0]).0;
    RestDeliverable(f, g, out);
    if k == 0 {
      DeliverElsewhere(x, g, out[1..], out[0].device);
    } else {
      DeliverAt(x, g, out[1..], k - 1);
    }
  }

  lemma SentIsDeliverable<S(!new)>(x: Ratchet<S>, f: Fan<S>, p: seq<byte>)
    requires Consistent(f)
    ensures var sent := EncryptToAll(x, f, p); var g := f.(senders := sent.senders);
            Consistent(g) && (sent.failed == None ==> Deliverable(g, sent.out))
  {
    hide EncryptToAll;
    hide Consistent;
    EncryptToAllExact(x, f, p);
    AdvancingKeepsConsistent(f, f.(senders := EncryptToAll(x, f, p).senders));
  }

  /** One message sent to all linked devices and read by them; a failed send hands out nothing. */
  ghost function Round<S(!new)>(x: Ratchet<S>, f: Fan<S>, p: seq<byte>): (Fan<S>, map<nat, seq<byte>>)
    requires Consistent(f)
  {
    SentIsDeliverable(x, f, p);
    var sent := EncryptToAll(x, f, p);
    var g := f.(senders := sent.senders);
    if sent.failed == None then Deliver(x, g, sent.out) else (g, map[])
  }

  lemma InStepSends<S(!new)>(x: Ratchet<S>, f: Fan<S>, inStep: (S, S) -> bool, p: seq<byte>)
    requires Consistent(f) && Pairs(x, inStep) && AllInStep(f, inStep)
    ensures EncryptToAll(x, f, p).failed == None
  {
    hide EncryptToAll;
    EncryptToAllExact(x, f, p);
    forall d | d in f.senders ensures Succeeds(x, f.senders, d, p) {
      assert inStep(f.senders[d], f.receivers[d]);
    }
  }

  lemma EndsInStep<S(!new)>(x: Ratchet<S>, f: Fan<S>, inStep: (S, S) -> bool, p: seq<byte>, d: nat)
    requires Consistent(f) && Pairs(x, inStep) && AllInStep(f, inStep) && d in f.senders
    ensures d in f.receivers
    ensures var (s, envelope) := x.encrypt(f.senders[d], p);
            && envelope.Some?
            && x.decrypt(f.receivers[d], envelope.value).1 == Some(p)
            && inStep(s, x.decrypt(f.receivers[d], envelope.value).0)
  {
    assert inStep(f.senders[d], f.receivers[d]);
  }

  lemma RoundAt<S(!new)>(x: Ratchet<S>, f: Fan<S>, inStep: (S, S) -> bool, p: seq<byte>, d: nat)
    requires Consistent(f) && Pairs(x, inStep) && AllInStep(f, inStep)
    ensures var (g, read) := Round(x, f, p);
            && Consistent(g) && g.senders.Keys == f.senders.Keys
            && (d in read <==> d in f.senders)
            && (d in f.senders ==> read[d] == p && d in g.receivers && inStep(g.senders[d], g.receivers[d]))
  {
    hide Deliver;
    hide EncryptToAll;
    hide Consistent;
    hide Pairs;
    hide AllInStep;
    hide Ascending;
    SentIsDeliverable(x, f, p);
    InStepSends(x, f, inStep, p);
    EncryptToAllExact(x, f, p);
    var sent := EncryptToAll(x, f, p);
    var g := f.(senders := sent.senders);
    DeliverKeepsTables(x, g, sent.out);
    var todo := Sorted(f.senders.Keys);
    if d in f.senders {
      EndsInStep(x, f, inStep, p, d);
      var k :| 0 <= k < |todo| && todo[k] == d;
      DeliverAt(x, g, sent.out, k);
    } else {
      DeliverElsewhere(x, g, sent.out, d);
    }
  }

  /** With ends in step, a message reaches every linked device in full, no other, and ends stay in step. */
  lemma RoundReachesAll<S(!new)>(x: Ratchet<S>, f: Fan<S>, inStep: (S, S) -> bool, p: seq<byte>)
    requires Consistent(f) && Pairs(x, inStep) && AllInStep(f, inStep)
    ensures var (g, read) := Round(x, f, p);
            && Consistent(g) && AllInStep(g, inStep) && g.senders.Keys == f.senders.Keys
            && read == map d | d in f.senders :: p
  {
    hide Round;
    hide Consistent;
    hide Pairs;
    var (g, read) := Round(x, f, p);
    RoundAt(x, f, inStep, p, 0);
    forall d: nat
      ensures d in read <==> d in f.senders
      ensures d in f.senders ==> read[d] == p && d in g.receivers && inStep(g.senders[d], g.receivers[d])
    {
      RoundAt(x, f, inStep, p, d);
    }
  }

  datatype Turn = Say(plaintext: seq<byte>) | Unlink(device: nat)

  ghost function TakeTurn<S(!new)>(x: Ratchet<S>, f: Fan<S>, t: Turn): (Fan<S>, map<nat, seq<byte>>)
    requires Consistent(f)
  {
    match t
    case Say(p) => Round(x, f, p)
    case Unlink(d) => (Remove(f, d), map[])
  }

  ghost predicate Live<S(!new)>(x: Ratchet<S>, f: Fan<S>, inStep: (S, S) -> bool) {
    Consistent(f) && Pairs(x, inStep) && AllInStep(f, inStep)
  }

  lemma TurnKeepsLive<S(!new)>(x: Ratchet<S>, f: Fan<S>, inStep: (S, S) -> bool, t: Turn)
    requires Live(x, f, inStep)
    ensures Live(x, TakeTurn(x, f, t).0, inStep)
    ensures TakeTurn(x, f, t).0.senders.Keys == f.senders.Keys - (if t.Unlink? then {t.device} else {})
    ensures TakeTurn(x, f, t).1 == if t.Say? then (map d | d in f.senders :: t.plaintext) else map[]
  {
    hide Consistent;
    hide Pairs;
    if t.Say? {
      hide Round;
      RoundReachesAll(x, f, inStep, t.plaintext);
    } else {
      RemoveKeepsConsistent(f, t.device);
    }
  }

  /** Everything device `d` reads in a run. */
  ghost function ReadBy<S(!new)>(x: Ratchet<S>, f: Fan<S>, inStep: (S, S) -> bool, turns: seq<Turn>, d: nat): seq<seq<byte>>
    requires Live(x, f, inStep)
    decreases |turns|
  {
    if turns == [] then []
    else
      TurnKeepsLive(x, f, inStep, turns[0]);
      var (g, read) := TakeTurn(x, f, turns[0]);
      (if d in read then [read[d]] else []) + ReadBy(x, g, inStep, turns[1..], d)
  }

  /** The messages sent before `d` is unlinked. */
  function SaidUntilUnlinked(turns: seq<Turn>, d: nat): seq<seq<byte>> {
    if turns == [] || turns[0] == Unlink(d) then []
    else (if turns[0].Say? then [turns[0].plaintext] else []) + SaidUntilUnlinked(turns[1..], d)
  }

  /**
   Over any run of sends and removals a linked device reads exactly the messages sent before its removal, in order and
   in full; a device that was never linked reads nothing.
   */
  lemma {:induction false} LinkedDevicesReadEverything<S(!new)>(
    x: Ratchet<S>, f: Fan<S>, inStep: (S, S) -> bool, turns: seq<Turn>, d: nat)
    requires Live(x, f, inStep)
    ensures ReadBy(x, f, inStep, turns, d) == if d in f.senders then SaidUntilUnlinked(turns, d) else []
    decreases |turns|
  {
    if turns == [] { return; }
    hide Live;
    hide TakeTurn;
    TurnKeepsLive(x, f, inStep, turns[0]);
    LinkedDevicesReadEverything(x, TakeTurn(x, f, turns[0]).0, inStep, turns[1..], d);
    if turns[0] == Unlink(d) && d in f.senders { assert d !in TakeTurn(x, f, turns[0]).0.senders; }
  }

  /** From establishment on: device `i` of the list reads exactly what is sent before it is unlinked. */
  lemma EstablishedDevicesRead<S(!new)>(x: Ratchet<S>, p: Plan<S>, inStep: (S, S) -> bool, turns: seq<Turn>, i: nat)
    requires Clean(p, |p.devices|) && Pairs(x, inStep) && i < |p.devices|
    requires forall k :: 0 <= k < |p.devices| && Builds(p, k) ==>
      var ends := p.build(k, p.devices[k].identity).value; inStep(ends.outbound, ends.inbound)
    ensures Live(x, Tables(p, |p.devices|), inStep)
    ensures ReadBy(x, Tables(p, |p.devices|), inStep, turns, p.devices[i].device) == SaidUntilUnlinked(turns, p.devices[i].device)
  {
    hide Tables;
    hide Pairs;
    hide ReadBy;
    var n := |p.devices|;
    var f := Tables(p, n);
    TablesConsistent(p, n);
    TablesKeys(p, n);
    forall d | d in f.senders && d in f.receivers ensures inStep(f.senders[d], f.receivers[d]) {
      var k :| 0 <= k < n && p.devices[k].device == d;
      assert Builds(p, k);
      TablesHold(p, n, k);
    }
    assert HasDevice(p, n, p.devices[i].device);
    LinkedDevicesReadEverything(x, f, inStep, turns, p.devices[i].device);
  }

  // ---------------------------------------------------------------- the session object

  /** A repeated identity is on record under the device that first had it. */
  lemma Blames<S(!new)>(p: Plan<S>, i: nat)
    requires i < |p.devices| && Clean(p, i) && !DeviceSeen(p, i) && Builds(p, i) && IdentitySeen(p, i)
    ensures p.devices[i].identity in Tables(p, i).owners
    ensures Faulty(p, i, DuplicateIdentity(Tables(p, i).owners[p.devices[i].identity]))
  {
    var j :| 0 <= j < i && p.devices[j].identity == p.devices[i].identity;
    TablesHold(p, i, j);
  }

  ghost function Resume<S>(done: seq<Ciphertext>, r: Sent<S>): Sent<S> { r.(out := done + r.out) }

  lemma ResumeDone<S(!new)>(x: Ratchet<S>, senders: map<nat, S>, todo: seq<nat>, p: seq<byte>, done: seq<Ciphertext>)
    requires todo == []
    ensures Resume(done, EncryptFrom(x, senders, todo, p)) == Sent(senders, done, None)
  {
    assert done + [] == done;
  }

  lemma ResumeStep<S(!new)>(x: Ratchet<S>, senders: map<nat, S>, todo: seq<nat>, p: seq<byte>, done: seq<Ciphertext>)
    requires todo != [] && forall k :: k in todo ==> k in senders
    ensures var (next, envelope) := x.encrypt(senders[todo[0]], p);
            var advanced := senders[todo[0] := next];
            Resume(done, EncryptFrom(x, senders, todo, p)) ==
              if envelope == None then Sent(advanced, done, Some(todo[0]))
              else Resume(done + [Ciphertext(todo[0], envelope.value)], EncryptFrom(x, advanced, todo[1..], p))
  {
    var (next, envelope) := x.encrypt(senders[todo[0]], p);
    if envelope == None {
      assert done + [] == done;
    } else {
      var others := EncryptFrom(x, senders[todo[0] := next], todo[1..], p).out;
      assert done + ([Ciphertext(todo[0], envelope.value)] + others) == done + [Ciphertext(todo[0], envelope.value)] + others;
    }
  }

  datatype Established<!S(!new)> = Ok(session: FanoutSession<S>) | Err(error: FanoutError)

  class FanoutSession<!S(!new)> {
    var senderSessions: map<nat, S>
    var identityToDevice: map<Hash, nat>
    var receiverSessions: map<nat, S>

    function Value(): Fan<S>
      reads this
    {
      Fan(senderSessions, identityToDevice, receiverSessions)
    }

    ghost predicate Valid()
      reads this
    {
      Consistent(Value())
    }

    constructor (f: Fan<S>)
      ensures Value() == f
    {
      senderSessions, identityToDevice, receiverSessions := f.senders, f.owners, f.receivers;
    }

    /** Succeeds iff the list is non-empty and clean; otherwise reports the first entry at fault. */
    static method Establish(p: Plan<S>) returns (r: Established<S>)
      ensures r.Ok? <==> p.devices != [] && Clean(p, |p.devices|)
      ensures r.Ok? ==> fresh(r.session) && r.session.Valid() && r.session.Value() == Tables(p, |p.devices|)
      ensures p.devices == [] ==> r == Err(NoDevices)
      ensures p.devices != [] && r.Err? ==> exists i :: 0 <= i < |p.devices| && Clean(p, i) && Faulty(p, i, r.error)
    {
      if p.devices == [] { return Err(NoDevices); }
      var f: Fan<S> := Fan(map[], map[], map[]);
      for i := 0 to |p.devices|
        invariant Clean(p, i) && f == Tables(p, i)
      {
        var entry := p.devices[i];
        TablesKeys(p, i);
        assert DeviceSeen(p, i) <==> HasDevice(p, i, entry.device);
        assert IdentitySeen(p, i) <==> HasIdentity(p, i, entry.identity);
        if entry.device in f.senders { return Err(DuplicateDevice(entry.device)); }
        var ends := p.build(i, entry.identity);
        if ends == None { return Err(Establishment(entry.device)); }
        if entry.identity in f.owners {
          Blames(p, i);
          return Err(DuplicateIdentity(f.owners[entry.identity]));
        }
        f := Link(f, entry, ends.value);
      }
      TablesConsistent(p, |p.devices|);
      var session := new FanoutSession(f);
      return Ok(session);
    }

    method EncryptAll(x: Ratchet<S>, plaintext: seq<byte>) returns (r: Broadcast)
      requires Valid()
      modifies this
      ensures Valid() && identityToDevice == old(identityToDevice) && receiverSessions == old(receiverSessions)
      ensures senderSessions == EncryptToAll(x, old(Value()), plaintext).senders
      ensures r == Report(EncryptToAll(x, old(Value()), plaintext))
    {
      hide Consistent;
      hide EncryptFrom;
      hide Ascending;
      var out: seq<Ciphertext> := [];
      var ids := Sorted(senderSessions.Keys);
      ghost var before := Value();
      ghost var whole := EncryptToAll(x, before, plaintext);
      assert ids[0..] == ids;
      assert Resume([], whole) == whole by { assert [] + whole.out == whole.out; }
      for i := 0 to |ids|
        invariant senderSessions.Keys == before.senders.Keys
        invariant identityToDevice == old(identityToDevice) && receiverSessions == old(receiverSessions)
        invariant whole == Resume(out, EncryptFrom(x, senderSessions, ids[i..], plaintext))
      {
        ResumeStep(x, senderSessions, ids[i..], plaintext, out);
        var (next, envelope) := x.encrypt(senderSessions[ids[i]], plaintext);
        senderSessions := senderSessions[ids[i] := next];
        assert ids[i..][1..] == ids[i + 1..];
        if envelope == None {
          AdvancingKeepsConsistent(before, Value());
          return Aborted(EncryptFailed(ids[i]));
        }
        out := out + [Ciphertext(ids[i], envelope.value)];
      }
      ResumeDone(x, senderSessions, ids[|ids|..], plaintext, out);
      AdvancingKeepsConsistent(before, Value());
      return Envelopes(out);
    }

    method ReadAsDevice(x: Ratchet<S>, identity: Hash, c: Ciphertext) returns (r: Read)
      requires Valid()
      modifies this
      ensures Valid() && (Value(), r) == DecryptAs(x, old(Value()), identity, c)
    {
      if identity !in identityToDevice { return Refused(UnknownIdentity); }
      var d := identityToDevice[identity];
      if c.device != d { return Refused(DeviceMismatch(c.device, d)); }
      var (next, plaintext) := x.decrypt(receiverSessions[d], c.envelope);
      ghost var before := Value();
      receiverSessions := receiverSessions[d := next];
      AdvancingKeepsConsistent(before, Value());
      if plaintext == None { return Refused(DecryptFailed(d)); }
      return Plain(plaintext.value);
    }

    method RemoveDevice(d: nat)
      requires Valid()
      modifies this
      ensures Valid() && Value() == Remove(old(Value()), d)
    {
      RemoveKeepsConsistent(Value(), d);
      senderSessions := senderSessions - {d};
      receiverSessions := receiverSessions - {d};
      identityToDevice := map h | h in identityToDevice && identityToDevice[h] != d :: identityToDevice[h];
    }
  }
}
