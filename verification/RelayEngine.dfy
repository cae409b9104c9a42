/**
 The relay's WebSocket request engine, relay/src/ws.rs, as a step system. Requests in flight interleave
 at lock granularity: each step of a task holds one lock at most, and any task may move next.
 */
module RelayEngine {
  import opened Bytes
  import Base64
  import Hex
  import PoW = ProofOfWork
  import RL = RateLimiter
  import MB = Mailbox

  const PREKEY_TTL: nat := 86400
  const ENVELOPE_TTL: nat := 7 * 86400
  const POW_DIFFICULTY: nat := 20
  /** The bytes of "ws-relay-v1". */
  const POW_CONTEXT: seq<byte> := [0x77, 0x73, 0x2d, 0x72, 0x65, 0x6c, 0x61, 0x79, 0x2d, 0x76, 0x31]
  const WINDOW: nat := 60

  type Capacity = n: nat | n >= 1 witness 1

  datatype Request =
    | GetChallenge(recipient: string)
    | PublishPrekey(recipient: string, payload: string, challengeId: string, solution: string)
    | LookupPrekey(recipient: string)
    | SendEnvelope(recipient: string, payload: string, challengeId: string, solution: string)
    | PickupEnvelope(recipient: string)
  {
    predicate Writes() { PublishPrekey? || SendEnvelope? }
    predicate Reads() { LookupPrekey? || PickupEnvelope? }
    function Box(): Box { if PublishPrekey? || LookupPrekey? then Prekeys else Envelopes }
    function Key(): string { if Box() == Prekeys then "prekey:" + recipient else recipient }
  }

  datatype Box = Envelopes | Prekeys

  datatype ErrorKind = RateLimitExceeded | PowFailed | InvalidBase64 | NotFound | Expired

  datatype Reply =
    | OkSimple
    | OkData(box: Box, text: string)
    | OkChallenge(id: string, text: string)
    | Error(kind: ErrorKind)

  /** Where a request stands. Steps between two locks are local and are folded into the step before them. */
  datatype Pc =
    | AtRateCheck
    | AtIssue
    | AtTake(sol: seq<byte>)
    | AtVerify(challenge: PoW.Challenge, sol: seq<byte>)
    | AtStore(data: seq<byte>, expiry: nat)
    | AtPickup
    | Done(reply: Reply)

  /** `now` is the wall clock read when the request arrived, before any lock was taken. */
  datatype Task = Task(req: Request, now: nat, pc: Pc)

  datatype Shared = Shared(
    buckets: map<RL.Identity, RL.Bucket>,
    challenges: map<string, PoW.Challenge>,
    envelopes: MB.Slots,
    prekeys: MB.Slots)
  {
    function Slots(box: Box): MB.Slots { if box == Prekeys then prekeys else envelopes }
  }

  const Fresh: Shared := Shared(map[], map[], map[], map[])

  /** What happened under a lock. */
  datatype Event =
    | Checked(tid: nat, call: RL.Call, decision: RL.Decision)
    | Issued(tid: nat, id: string, challenge: PoW.Challenge)
    | Taken(tid: nat, id: string, challenge: PoW.Challenge, sol: seq<byte>)
    | Missed(tid: nat, id: string)
    | Boxed(tid: nat, box: Box, event: MB.Event, reply: Reply)

  // ---------------------------------------------------------------- one step of one request

  datatype Outcome = Outcome(shared: Shared, pc: Pc, events: seq<Event>)

  function AfterRateCheck(req: Request): Pc {
    if req.GetChallenge? then AtIssue
    else if req.Reads() then AtPickup
    else match Base64.Decode(req.solution)
      case Err => Done(Error(PowFailed))
      case Ok(sol) => AtTake(sol)
  }

  function AfterVerify(h: PoW.Hash, req: Request, c: PoW.Challenge, sol: seq<byte>, clock: nat): Pc
    requires req.Writes()
  {
    if PoW.Verify(h, c, sol) != PoW.Accepted then Done(Error(PowFailed))
    else match Base64.Decode(req.payload)
      case Err => Done(Error(InvalidBase64))
      case Ok(data) => AtStore(data, clock + if req.Box() == Prekeys then PREKEY_TTL else ENVELOPE_TTL)
  }

  function PickupReply(box: Box, r: MB.PickupResult): Reply {
    match r
    case Delivered(data) => OkData(box, Base64.Encode(data))
    case Expired => Error(Expired)
    case NotFound => Error(NotFound)
  }

  /** `nonce` is the CSPRNG draw, used by the issuing step alone. */
  function Step(h: PoW.Hash, cap: Capacity, sh: Shared, tid: nat, t: Task, clock: nat, nonce: seq<byte>): Outcome {
    var stay := Outcome(sh, t.pc, []);
    match t.pc
    case AtRateCheck =>
      var r := RL.Check(cap, WINDOW, Get(sh.buckets, t.req.recipient), t.now);
      Outcome(sh.(buckets := sh.buckets[t.req.recipient := r.0]),
              if r.1 == RL.Admitted then AfterRateCheck(t.req) else Done(Error(RateLimitExceeded)),
              [Checked(tid, RL.Call(t.req.recipient, t.now), r.1)])
    case AtIssue =>
      if |nonce| != 16 then stay
      else
        var c := PoW.Challenge(POW_CONTEXT, nonce, POW_DIFFICULTY);
        var id := Hex.Encode(nonce);
        Outcome(sh.(challenges := sh.challenges[id := c]),
                Done(OkChallenge(id, Base64.Encode(c.ToWire()))),
                [Issued(tid, id, c)])
    case AtTake(sol) =>
      if !t.req.Writes() then stay
      else if t.req.challengeId !in sh.challenges then Outcome(sh, Done(Error(PowFailed)), [Missed(tid, t.req.challengeId)])
      else
        var c := sh.challenges[t.req.challengeId];
        Outcome(sh.(challenges := sh.challenges - {t.req.challengeId}), AtVerify(c, sol),
                [Taken(tid, t.req.challengeId, c, sol)])
    case AtVerify(c, sol) =>
      if !t.req.Writes() then stay else Outcome(sh, AfterVerify(h, t.req, c, sol, clock), [])
    case AtStore(data, expiry) =>
      WithBox(sh, tid, t.req.Box(), MB.Stored(t.req.Key(), data, expiry), OkSimple)
    case AtPickup =>
      WithBox(sh, tid, t.req.Box(), MB.PickedUp(t.req.Key(), clock),
              PickupReply(t.req.Box(), MB.PickupOf(Get(sh.Slots(t.req.Box()), t.req.Key()), clock)))
    case Done(_) => stay
  }

  function WithBox(sh: Shared, tid: nat, box: Box, e: MB.Event, reply: Reply): Outcome {
    Outcome(ApplyBox(sh, box, e), Done(reply), [Boxed(tid, box, e, reply)])
  }

  function ApplyBox(sh: Shared, box: Box, e: MB.Event): Shared {
    if box == Prekeys then sh.(prekeys := MB.Apply(sh.prekeys, e)) else sh.(envelopes := MB.Apply(sh.envelopes, e))
  }

  // ---------------------------------------------------------------- whole runs

  datatype State = State(shared: Shared, tasks: map<nat, Task>, clock: nat, wall: nat, log: seq<Event>)

  const Init: State := State(Fresh, map[], 0, 0, [])

  /** `Tick` moves the monotonic clock on and sets the wall clock anywhere, as the system clock may be. */
  datatype Action =
    | Arrive(tid: nat, req: Request)
    | Advance(tid: nat, nonce: seq<byte>)
    | Tick(elapsed: nat, wall: nat)

  function Act(h: PoW.Hash, cap: Capacity, s: State, a: Action): State {
    match a
    case Arrive(tid, req) =>
      if tid in s.tasks then s else s.(tasks := s.tasks[tid := Task(req, s.wall, AtRateCheck)])
    case Advance(tid, nonce) =>
      if tid !in s.tasks then s
      else
        var o := Step(h, cap, s.shared, tid, s.tasks[tid], s.clock, nonce);
        s.(shared := o.shared, tasks := s.tasks[tid := s.tasks[tid].(pc := o.pc)], log := s.log + o.events)
    case Tick(elapsed, wall) => s.(clock := s.clock + elapsed, wall := wall)
  }

  /** Every interleaving is some sequence of actions. */
  function Run(h: PoW.Hash, cap: Capacity, actions: seq<Action>): State {
    if actions == [] then Init
    else Act(h, cap, Run(h, cap, actions[..|actions| - 1]), actions[|actions| - 1])
  }

  // ---------------------------------------------------------------- the log determines the shared state

  function ApplyEvent(cap: Capacity, sh: Shared, e: Event): Shared {
    match e
    case Checked(_, c, _) =>
      sh.(buckets := sh.buckets[c.identity := RL.Check(cap, WINDOW, Get(sh.buckets, c.identity), c.now).0])
    case Issued(_, id, c) => sh.(challenges := sh.challenges[id := c])
    case Taken(_, id, _, _) => sh.(challenges := sh.challenges - {id})
    case Missed(_, _) => sh
    case Boxed(_, box, event, _) => ApplyBox(sh, box, event)
  }

  function Replay(cap: Capacity, log: seq<Event>): Shared {
    if log == [] then Fresh else ApplyEvent(cap, Replay(cap, log[..|log| - 1]), log[|log| - 1])
  }

  /** An event agrees with the state it happened in. */
  ghost predicate Sound(cap: Capacity, sh: Shared, e: Event) {
    match e
    case Checked(_, c, d) => d == RL.Check(cap, WINDOW, Get(sh.buckets, c.identity), c.now).1
    case Issued(_, id, c) =>
      |c.nonce| == 16 && c == PoW.Challenge(POW_CONTEXT, c.nonce, POW_DIFFICULTY) && id == Hex.Encode(c.nonce)
    case Taken(_, id, c, _) => id in sh.challenges && sh.challenges[id] == c
    case Missed(_, id) => id !in sh.challenges
    case Boxed(_, box, event, reply) =>
      match event
      case Stored(_, _, _) => reply == OkSimple
      case PickedUp(r, now) => reply == PickupReply(box, MB.PickupOf(Get(sh.Slots(box), r), now))
      case Purged(_) => false
  }

  ghost predicate SoundLog(cap: Capacity, log: seq<Event>) {
    forall i :: 0 <= i < |log| ==> Sound(cap, Replay(cap, log[..i]), log[i])
  }

  lemma StepEvents(h: PoW.Hash, cap: Capacity, sh: Shared, tid: nat, t: Task, clock: nat, nonce: seq<byte>)
    ensures var o := Step(h, cap, sh, tid, t, clock, nonce);
            || (o.events == [] && o.shared == sh)
            || (exists e :: o.events == [e] && e.tid == tid && o.shared == ApplyEvent(cap, sh, e) && Sound(cap, sh, e))
  {
    hide RL.Check;
    var o := Step(h, cap, sh, tid, t, clock, nonce);
    if o.events != [] {
      var e := o.events[0];
      assert o.events == [e] && e.tid == tid && o.shared == ApplyEvent(cap, sh, e) && Sound(cap, sh, e);
    }
  }

  /** At every point of every run the four tables are what the events so far make them. */
  lemma {:induction false} RunFollowsLog(h: PoW.Hash, cap: Capacity, actions: seq<Action>)
    ensures var s := Run(h, cap, actions); s.shared == Replay(cap, s.log) && SoundLog(cap, s.log)
  {
    if actions != [] {
      var s, a := Run(h, cap, actions[..|actions| - 1]), actions[|actions| - 1];
      RunFollowsLog(h, cap, actions[..|actions| - 1]);
      if a.Advance? && a.tid in s.tasks {
        StepEvents(h, cap, s.shared, a.tid, s.tasks[a.tid], s.clock, a.nonce);
        hide Step;
        hide ApplyEvent;
        hide Sound;
        var s' := Act(h, cap, s, a);
        if s'.log == s.log {
        } else {
          assert s'.log[..|s.log|] == s.log;
          forall i | 0 <= i < |s'.log| ensures Sound(cap, Replay(cap, s'.log[..i]), s'.log[i]) {
            assert i < |s.log| ==> s'.log[..i] == s.log[..i];
          }
        }
      }
    }
  }
}
