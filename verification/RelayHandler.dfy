/** The relay's proof-of-work gate and `handle_request` itself, relay/src/ws.rs. */
module RelayHandler {
  import opened Bytes
  import Base64
  import Hex
  import PoW = ProofOfWork
  import RL = RateLimiter
  import MB = Mailbox
  import opened RelayEngine
  import opened RelayWrites

  // ---------------------------------------------------------------- the gate accepts honest clients

  lemma IssuedChallengesAreValid(cap: Capacity, log: seq<Event>, id: string)
    requires SoundLog(cap, log) && id in Replay(cap, log).challenges
    ensures var c := Replay(cap, log).challenges[id];
            && |c.nonce| == 16 && c.difficulty == 20 && id == Hex.Encode(c.nonce)
            && |c.context| == |"ws-relay-v1"| && forall i :: 0 <= i < |c.context| ==> c.context[i] == "ws-relay-v1"[i] as int
  {
    hide Hex.Encode;
    hide Replay;
    hide RL.Check;
    LiveChallenge(cap, log, id);
    var k := LastTouch(log, id);
    assert Sound(cap, Replay(cap, log[..k]), log[k]);
  }

  /**
   In every run: what an honest client computes from a challenge text passes `verify_pow` while the challenge is live,
   and it finds nothing only if there is nothing to find.
   */
  lemma HonestClientPasses(h: PoW.Hash, cap: Capacity, actions: seq<Action>, id: string, r: PoW.ClientOutcome)
    requires id in Run(h, cap, actions).shared.challenges
    requires var c := Run(h, cap, actions).shared.challenges[id];
             PoW.IsClientOutcome(h, Base64.Encode(c.ToWire()), r)
    ensures var c := Run(h, cap, actions).shared.challenges[id];
            && (r.Solved? || (r == PoW.PowFailed && PoW.Unsolvable(h, c.PreimagePrefix(), c.difficulty)))
            && (r.Solved? ==> var sol := Base64.Decode(r.solution); sol.Ok? && PoW.Verify(h, c, sol.data) == PoW.Accepted)
  {
    hide Run;
    hide Replay;
    hide PoW.IsClientOutcome;
    hide PoW.Verify;
    var s := Run(h, cap, actions);
    var c := s.shared.challenges[id];
    RunFollowsLog(h, cap, actions);
    IssuedChallengesAreValid(cap, s.log, id);
    Base64.EncodeHasNoBlanks(c.ToWire());
    PoW.ClientSolutionAccepted(h, c, Base64.Encode(c.ToWire()), r);
  }

  /**
   In every run: a write carrying such a solution, that finds its challenge live, is served; whatever other requests do
   between its steps, only a payload that is not base64 can still stop it.
   */
  lemma HonestWriteIsServed(
    h: PoW.Hash, cap: Capacity, actions: seq<Action>, tid: nat, t: Task, r: PoW.ClientOutcome, later: Shared, clock: nat)
    requires t.req.Writes() && t.pc == AfterRateCheck(t.req)
    requires t.req.challengeId in Run(h, cap, actions).shared.challenges
    requires var c := Run(h, cap, actions).shared.challenges[t.req.challengeId];
             PoW.IsClientOutcome(h, Base64.Encode(c.ToWire()), r)
    requires r.Solved? && t.req.solution == r.solution
    ensures var s := Run(h, cap, actions);
            var taken := Step(h, cap, s.shared, tid, t, s.clock, []).pc;
            && taken.AtVerify?
            && Step(h, cap, later, tid, t.(pc := taken), clock, []).pc ==
               match Base64.Decode(t.req.payload)
               case Err => Done(Error(InvalidBase64))
               case Ok(data) => AtStore(data, clock + if t.req.PublishPrekey? then PREKEY_TTL else ENVELOPE_TTL)
  {
    hide Run;
    hide Base64.Decode;
    hide Base64.Encode;
    hide PoW.IsClientOutcome;
    hide PoW.Verify;
    hide RL.Check;
    HonestClientPasses(h, cap, actions, t.req.challengeId, r);
  }

  // ---------------------------------------------------------------- the handler itself

  /** `n` steps of one request with nobody in between. */
  function Steps(h: PoW.Hash, cap: Capacity, sh: Shared, t: Task, clock: nat, nonce: seq<byte>, n: nat): (Shared, Pc)
    decreases n
  {
    if n == 0 then (sh, t.pc)
    else
      var o := Step(h, cap, sh, 0, t, clock, nonce);
      Steps(h, cap, o.shared, t.(pc := o.pc), clock, nonce, n - 1)
  }

  lemma {:induction false} StepsWhenDone(h: PoW.Hash, cap: Capacity, sh: Shared, t: Task, clock: nat, nonce: seq<byte>, n: nat)
    requires t.pc.Done?
    ensures Steps(h, cap, sh, t, clock, nonce, n) == (sh, t.pc)
  {
    if n > 0 { StepsWhenDone(h, cap, sh, t, clock, nonce, n - 1); }
  }

  lemma OneStep(h: PoW.Hash, cap: Capacity, sh: Shared, t: Task, clock: nat, nonce: seq<byte>, n: nat)
    requires n > 0
    ensures var o := Step(h, cap, sh, 0, t, clock, nonce);
            Steps(h, cap, sh, t, clock, nonce, n) == Steps(h, cap, o.shared, t.(pc := o.pc), clock, nonce, n - 1)
  {}

  class WsState {
    const limiter: RL.Limiter
    const store: MB.RelayStore
    const prekeys: MB.RelayStore
    var challenges: map<string, PoW.Challenge>

    ghost predicate Valid() { limiter.Valid() && limiter.window == WINDOW && store != prekeys }

    ghost function Tables(): Shared
      reads this, limiter, store, prekeys
    {
      Shared(limiter.buckets, challenges, store.slots, prekeys.slots)
    }

    constructor (perMinute: nat)
      ensures Valid() && Tables() == Fresh
      ensures limiter.capacity == if perMinute == 0 then 1 else perMinute
      ensures fresh(limiter) && fresh(store) && fresh(prekeys)
    {
      limiter := new RL.Limiter(perMinute, WINDOW);
      store := new MB.RelayStore();
      prekeys := new MB.RelayStore();
      challenges := map[];
    }

    /** `handle_request`, run without interruption: it goes through the steps of the step system, and four are enough. */
    method HandleRequest(h: PoW.Hash, req: Request, now: nat, clock: nat, nonce: seq<byte>) returns (reply: Reply)
      requires Valid() && |nonce| == 16
      modifies this, limiter, store, prekeys
      ensures Valid()
      ensures (Tables(), Done(reply))
           == Steps(h, limiter.capacity, old(Tables()), Task(req, now, AtRateCheck), clock, nonce, 4)
    {
      hide Steps;
      hide RL.Check;
      ghost var cap: Capacity, t := limiter.capacity, Task(req, now, AtRateCheck);
      OneStep(h, cap, Tables(), t, clock, nonce, 4);
      var d := limiter.CheckCall(req.recipient, now);
      if d != RL.Admitted {
        reply := Error(RateLimitExceeded);
        StepsWhenDone(h, cap, Tables(), t.(pc := Done(reply)), clock, nonce, 3);
        return;
      }
      t := t.(pc := AfterRateCheck(req));
      OneStep(h, cap, Tables(), t, clock, nonce, 3);
      if req.GetChallenge? {
        var c := PoW.Challenge(POW_CONTEXT, nonce, POW_DIFFICULTY);
        var id := Hex.EncodeBytes(nonce);
        challenges := challenges[id := c];
        var text := Base64.EncodeBytes(c.ToWire());
        reply := OkChallenge(id, text);
        StepsWhenDone(h, cap, Tables(), t.(pc := Done(reply)), clock, nonce, 2);
      } else if req.Reads() {
        reply := Fetch(req, clock);
        StepsWhenDone(h, cap, Tables(), t.(pc := Done(reply)), clock, nonce, 2);
      } else {
        reply := Deposit(h, req, now, clock, nonce);
      }
    }

    method Fetch(req: Request, clock: nat) returns (reply: Reply)
      requires Valid() && req.Reads()
      modifies store, prekeys
      ensures Tables() == ApplyBox(old(Tables()), req.Box(), MB.PickedUp(req.Key(), clock))
      ensures reply == PickupReply(req.Box(), MB.PickupOf(Get(old(Tables()).Slots(req.Box()), req.Key()), clock))
    {
      var r: MB.PickupResult;
      if req.LookupPrekey? {
        r := prekeys.Pickup("prekey:" + req.recipient, clock);
      } else {
        r := store.Pickup(req.recipient, clock);
      }
      match r
      case Delivered(data) =>
        var text := Base64.EncodeBytes(data);
        reply := OkData(req.Box(), text);
      case Expired => reply := Error(Expired);
      case NotFound => reply := Error(NotFound);
    }

    /** The proof-of-work check and the store of a publish or send request that passed the rate limit. */
    method Deposit(h: PoW.Hash, req: Request, ghost now: nat, clock: nat, ghost nonce: seq<byte>) returns (reply: Reply)
      requires Valid() && req.Writes()
      modifies this, store, prekeys
      ensures Valid()
      ensures (Tables(), Done(reply))
           == Steps(h, limiter.capacity, old(Tables()), Task(req, now, AfterRateCheck(req)), clock, nonce, 3)
    {
      hide Steps;
      hide RL.Check;
      hide PoW.Verify;
      ghost var cap: Capacity, t := limiter.capacity, Task(req, now, AfterRateCheck(req));
      var decoded := Base64.DecodeText(req.solution);
      if decoded == Base64.Err {
        reply := Error(PowFailed);
        StepsWhenDone(h, cap, Tables(), t, clock, nonce, 3);
        return;
      }
      OneStep(h, cap, Tables(), t, clock, nonce, 3);
      if req.challengeId !in challenges {
        reply := Error(PowFailed);
        StepsWhenDone(h, cap, Tables(), t.(pc := Done(reply)), clock, nonce, 2);
        return;
      }
      var c := challenges[req.challengeId];
      challenges := challenges - {req.challengeId};
      t := t.(pc := AtVerify(c, decoded.data));
      OneStep(h, cap, Tables(), t, clock, nonce, 2);
      if PoW.Verify(h, c, decoded.data) != PoW.Accepted {
        reply := Error(PowFailed);
        StepsWhenDone(h, cap, Tables(), t.(pc := Done(reply)), clock, nonce, 1);
        return;
      }
      var payload := Base64.DecodeText(req.payload);
      if payload == Base64.Err {
        reply := Error(InvalidBase64);
        StepsWhenDone(h, cap, Tables(), t.(pc := Done(reply)), clock, nonce, 1);
        return;
      }
      t := t.(pc := AfterVerify(h, req, c, decoded.data, clock));
      OneStep(h, cap, Tables(), t, clock, nonce, 1);
      if req.PublishPrekey? {
        prekeys.Store("prekey:" + req.recipient, payload.data, PREKEY_TTL, clock);
      } else {
        store.Store(req.recipient, payload.data, ENVELOPE_TTL, clock);
      }
      reply := OkSimple;
      StepsWhenDone(h, cap, Tables(), t.(pc := Done(reply)), clock, nonce, 0);
    }
  }
}
