/** What every run of the relay guarantees about challenges and accepted writes, relay/src/ws.rs. */
module RelayWrites {
  import opened Bytes
  import Base64
  import PoW = ProofOfWork
  import RL = RateLimiter
  import opened RelayEngine

  // ---------------------------------------------------------------- challenges are single use

  predicate Touches(e: Event, id: string) { (e.Issued? || e.Taken?) && e.id == id }

  /** The last issue or take of a challenge id, or -1. */
  function LastTouch(log: seq<Event>, id: string): (k: int)
    ensures -1 <= k < |log|
    ensures k >= 0 ==> Touches(log[k], id)
    ensures forall i :: k < i < |log| ==> !Touches(log[i], id)
  {
    if log == [] then -1
    else if Touches(log[|log| - 1], id) then |log| - 1
    else LastTouch(log[..|log| - 1], id)
  }

  /** A challenge is live exactly when the last thing that happened to its id was its issue. */
  lemma {:induction false} LiveChallenge(cap: Capacity, log: seq<Event>, id: string)
    ensures var k := LastTouch(log, id);
            Get(Replay(cap, log).challenges, id)
            == if k >= 0 && log[k].Issued? then Some(log[k].challenge) else None
  {
    hide RL.Check;
    if log != [] { LiveChallenge(cap, log[..|log| - 1], id); }
  }

  /** The issue that the take at position `i` uses up. */
  function TicketOf(log: seq<Event>, i: nat): int
    requires i < |log| && log[i].Taken?
  {
    LastTouch(log[..i], log[i].id)
  }

  lemma TakenWasIssued(cap: Capacity, log: seq<Event>, i: nat)
    requires SoundLog(cap, log) && i < |log| && log[i].Taken?
    ensures var k := TicketOf(log, i);
            && 0 <= k < i && log[k].Issued? && log[k].id == log[i].id && log[k].challenge == log[i].challenge
            && forall j :: k < j < i ==> !Touches(log[j], log[i].id)
  {
    hide Replay;
    hide RL.Check;
    assert Sound(cap, Replay(cap, log[..i]), log[i]);
    LiveChallenge(cap, log[..i], log[i].id);
  }

  /** No issued challenge is taken twice, even if two issues drew the same nonce. */
  lemma TakenOnce(cap: Capacity, log: seq<Event>, i: nat, j: nat)
    requires SoundLog(cap, log) && i < j < |log| && log[i].Taken? && log[j].Taken?
    ensures TicketOf(log, i) != TicketOf(log, j)
  {
    hide Sound;
    TakenWasIssued(cap, log, i);
    TakenWasIssued(cap, log, j);
  }

  // ---------------------------------------------------------------- what one request leaves in the log

  /** The events of one request, in order. */
  function Trail(log: seq<Event>, tid: nat): seq<Event> {
    if log == [] then []
    else Trail(log[..|log| - 1], tid) + if log[|log| - 1].tid == tid then [log[|log| - 1]] else []
  }

  lemma TrailSnoc(log: seq<Event>, e: Event, tid: nat)
    ensures Trail(log + [e], tid) == Trail(log, tid) + if e.tid == tid then [e] else []
  {
    assert (log + [e])[..|log|] == log;
  }

  lemma {:induction false} TrailOrder(log: seq<Event>, i: nat)
    requires i < |log|
    ensures var p, tid := |Trail(log[..i], log[i].tid)|, log[i].tid;
            p < |Trail(log, tid)| && Trail(log, tid)[p] == log[i] && Trail(log, tid)[..p] == Trail(log[..i], tid)
  {
    var init, tid := log[..|log| - 1], log[i].tid;
    if i == |log| - 1 {
    } else {
      TrailOrder(init, i);
      assert init[..i] == log[..i];
      var p := |Trail(log[..i], tid)|;
      assert Trail(log, tid)[..p] == Trail(init, tid)[..p];
    }
  }

  /** The log position of the `p`-th event of a request. */
  function Nth(log: seq<Event>, tid: nat, p: nat): (k: nat)
    requires p < |Trail(log, tid)|
    ensures k < |log| && log[k].tid == tid && log[k] == Trail(log, tid)[p] && |Trail(log[..k], tid)| == p
  {
    var init := log[..|log| - 1];
    if p < |Trail(init, tid)| then
      var k := Nth(init, tid, p);
      assert log[..k] == init[..k];
      k
    else
      |log| - 1
  }

  /** Earlier in the log is earlier in the trail. */
  lemma TrailGrows(log: seq<Event>, k: nat, i: nat)
    requires k < i <= |log|
    ensures |Trail(log[..k], log[k].tid)| < |Trail(log[..i], log[k].tid)|
  {
    TrailOrder(log[..i], k);
    assert log[..i][..k] == log[..k];
  }

  lemma NthInverse(log: seq<Event>, i: nat)
    requires i < |log|
    ensures var tid := log[i].tid;
            |Trail(log[..i], tid)| < |Trail(log, tid)| && Nth(log, tid, |Trail(log[..i], tid)|) == i
  {
    TrailOrder(log, i);
    var k := Nth(log, log[i].tid, |Trail(log[..i], log[i].tid)|);
    if k < i { TrailGrows(log, k, i); } else if i < k { TrailGrows(log, i, k); }
  }

  lemma NthOrdered(log: seq<Event>, tid: nat, p: nat, q: nat)
    requires p < q < |Trail(log, tid)|
    ensures Nth(log, tid, p) < Nth(log, tid, q)
  {
    var j, k := Nth(log, tid, p), Nth(log, tid, q);
    if k < j { TrailGrows(log, k, j); }
  }

  ghost predicate Passed(tid: nat, t: Task, trail: seq<Event>) {
    |trail| >= 1 && trail[0] == Checked(tid, RL.Call(t.req.recipient, t.now), RL.Admitted)
  }

  /** The request took a live challenge and offered the solution its text decodes to. */
  ghost predicate Paid(tid: nat, t: Task, trail: seq<Event>) {
    && |trail| >= 2 && Passed(tid, t, trail) && t.req.Writes()
    && trail[1].Taken? && trail[1].id == t.req.challengeId && Base64.Decode(t.req.solution) == Base64.Ok(trail[1].sol)
  }

  ghost predicate Accepted(h: PoW.Hash, tid: nat, t: Task, trail: seq<Event>) {
    Paid(tid, t, trail) && PoW.Verify(h, trail[1].challenge, trail[1].sol) == PoW.Accepted
  }

  ghost predicate Wrote(h: PoW.Hash, tid: nat, t: Task, trail: seq<Event>) {
    && |trail| == 3 && Accepted(h, tid, t, trail)
    && trail[2].Boxed? && trail[2].event.Stored? && trail[2].reply == OkSimple
    && trail[2].box == t.req.Box() && trail[2].event.recipient == t.req.Key()
    && Base64.Decode(t.req.payload) == Base64.Ok(trail[2].event.data)
  }

  ghost predicate DoneShape(h: PoW.Hash, tid: nat, t: Task, trail: seq<Event>, reply: Reply) {
    || (|trail| == 1 && trail[0].Checked? && trail[0].decision.Exceeded? && reply == Error(RateLimitExceeded))
    || (t.req.GetChallenge? && |trail| == 2 && Passed(tid, t, trail) && trail[1].Issued?
        && reply == OkChallenge(trail[1].id, Base64.Encode(trail[1].challenge.ToWire())))
    || (t.req.Reads() && |trail| == 2 && Passed(tid, t, trail) && trail[1].Boxed? && trail[1].event.PickedUp?
        && trail[1].box == t.req.Box() && trail[1].event.recipient == t.req.Key() && reply == trail[1].reply)
    || (t.req.Writes() && |trail| == 1 && Passed(tid, t, trail) && Base64.Decode(t.req.solution) == Base64.Err
        && reply == Error(PowFailed))
    || (t.req.Writes() && |trail| == 2 && Passed(tid, t, trail) && trail[1] == Missed(tid, t.req.challengeId)
        && reply == Error(PowFailed))
    || (|trail| == 2 && Paid(tid, t, trail) && !Accepted(h, tid, t, trail) && reply == Error(PowFailed))
    || (|trail| == 2 && Accepted(h, tid, t, trail) && Base64.Decode(t.req.payload) == Base64.Err
        && reply == Error(InvalidBase64))
    || (Wrote(h, tid, t, trail) && reply == OkSimple)
  }

  /** Where a request stands fixes exactly which events it has left behind. */
  ghost predicate Shape(h: PoW.Hash, tid: nat, t: Task, trail: seq<Event>) {
    match t.pc
    case AtRateCheck => trail == []
    case AtIssue => t.req.GetChallenge? && |trail| == 1 && Passed(tid, t, trail)
    case AtPickup => t.req.Reads() && |trail| == 1 && Passed(tid, t, trail)
    case AtTake(sol) =>
      t.req.Writes() && |trail| == 1 && Passed(tid, t, trail) && Base64.Decode(t.req.solution) == Base64.Ok(sol)
    case AtVerify(c, sol) => |trail| == 2 && Paid(tid, t, trail) && trail[1].challenge == c && trail[1].sol == sol
    case AtStore(data, _) =>
      |trail| == 2 && Accepted(h, tid, t, trail) && Base64.Decode(t.req.payload) == Base64.Ok(data)
    case Done(reply) => DoneShape(h, tid, t, trail, reply)
  }

  lemma StepKeepsShape(h: PoW.Hash, cap: Capacity, sh: Shared, tid: nat, t: Task, clock: nat, nonce: seq<byte>,
                       trail: seq<Event>)
    requires Shape(h, tid, t, trail)
    ensures var o := Step(h, cap, sh, tid, t, clock, nonce); Shape(h, tid, t.(pc := o.pc), trail + o.events)
  {
    hide RL.Check;
    hide PoW.Verify;
    hide Base64.Decode;
    var o := Step(h, cap, sh, tid, t, clock, nonce);
    assert o.events == [] ==> trail + o.events == trail;
  }

  ghost predicate Tracked(h: PoW.Hash, s: State, tid: nat) {
    if tid in s.tasks then Shape(h, tid, s.tasks[tid], Trail(s.log, tid)) else Trail(s.log, tid) == []
  }

  lemma AdvanceTracked(h: PoW.Hash, cap: Capacity, s: State, a: Action, tid: nat)
    requires a.Advance? && a.tid in s.tasks && Tracked(h, s, tid)
    ensures Tracked(h, Act(h, cap, s, a), tid)
  {
    hide Step;
    hide Shape;
    hide ApplyEvent;
    hide Sound;
    var o := Step(h, cap, s.shared, a.tid, s.tasks[a.tid], s.clock, a.nonce);
    StepEvents(h, cap, s.shared, a.tid, s.tasks[a.tid], s.clock, a.nonce);
    if a.tid == tid {
      StepKeepsShape(h, cap, s.shared, tid, s.tasks[tid], s.clock, a.nonce, Trail(s.log, tid));
    }
    if o.events == [] {
      assert s.log + o.events == s.log;
      assert Trail(s.log, tid) + o.events == Trail(s.log, tid);
    } else {
      TrailSnoc(s.log, o.events[0], tid);
      assert o.events == [o.events[0]];
      assert a.tid != tid ==> Trail(s.log + o.events, tid) == Trail(s.log, tid);
    }
  }

  lemma {:induction false} RunTracked(h: PoW.Hash, cap: Capacity, actions: seq<Action>, tid: nat)
    ensures Tracked(h, Run(h, cap, actions), tid)
  {
    if actions != [] {
      hide Step;
      var s, a := Run(h, cap, actions[..|actions| - 1]), actions[|actions| - 1];
      RunTracked(h, cap, actions[..|actions| - 1], tid);
      if a.Advance? && a.tid in s.tasks { AdvanceTracked(h, cap, s, a, tid); }
    }
  }

  // ---------------------------------------------------------------- theorems about every run

  /** The take that paid for the accepted write at position `i`. */
  function TakeOf(log: seq<Event>, i: nat): (k: nat)
    requires i < |log| && |Trail(log, log[i].tid)| >= 2
    ensures k < |log|
  {
    Nth(log, log[i].tid, 1)
  }

  predicate IsWrite(e: Event) { e.Boxed? && e.event.Stored? }

  lemma ShapeOfWrite(h: PoW.Hash, tid: nat, t: Task, trail: seq<Event>, p: nat)
    requires Shape(h, tid, t, trail) && p < |trail| && IsWrite(trail[p])
    ensures Wrote(h, tid, t, trail) && p == 2 && t.pc == Done(OkSimple)
  {
    hide PoW.Verify;
    hide Base64.Decode;
  }

  lemma WriteShape(h: PoW.Hash, cap: Capacity, actions: seq<Action>, i: nat)
    requires i < |Run(h, cap, actions).log| && IsWrite(Run(h, cap, actions).log[i])
    ensures var s := Run(h, cap, actions);
            var tid := s.log[i].tid;
            && tid in s.tasks && Wrote(h, tid, s.tasks[tid], Trail(s.log, tid)) && s.tasks[tid].pc == Done(OkSimple)
            && i == Nth(s.log, tid, 2) && TakeOf(s.log, i) < i
  {
    hide Run;
    hide Shape;
    hide Wrote;
    var s := Run(h, cap, actions);
    var tid := s.log[i].tid;
    RunTracked(h, cap, actions, tid);
    TrailOrder(s.log, i);
    NthInverse(s.log, i);
    ShapeOfWrite(h, tid, s.tasks[tid], Trail(s.log, tid), |Trail(s.log[..i], tid)|);
    NthOrdered(s.log, tid, 1, 2);
  }

  /** Under every interleaving an accepted write was paid for by a challenge issued before, which its solution meets. */
  lemma AcceptedWriteHasTicket(h: PoW.Hash, cap: Capacity, actions: seq<Action>, i: nat)
    requires i < |Run(h, cap, actions).log| && IsWrite(Run(h, cap, actions).log[i])
    ensures var log := Run(h, cap, actions).log;
            && |Trail(log, log[i].tid)| >= 2 && log[TakeOf(log, i)].Taken?
            && var k := TakeOf(log, i);
               var m := TicketOf(log, k);
               && 0 <= m < k < i && log[m].Issued? && log[k].tid == log[i].tid && log[m].challenge == log[k].challenge
               && log[m].challenge.difficulty == 20
               && PoW.Verify(h, log[m].challenge, log[k].sol) == PoW.Accepted
  {
    hide Run;
    hide Replay;
    hide PoW.Verify;
    hide Base64.Decode;
    var log := Run(h, cap, actions).log;
    WriteShape(h, cap, actions, i);
    RunFollowsLog(h, cap, actions);
    var k := TakeOf(log, i);
    TakenWasIssued(cap, log, k);
    var m := TicketOf(log, k);
    assert Sound(cap, Replay(cap, log[..m]), log[m]);
  }

  /** The tickets of two accepted writes are two different issues. */
  lemma TicketsAreDistinct(h: PoW.Hash, cap: Capacity, actions: seq<Action>, i: nat, j: nat)
    requires i < j < |Run(h, cap, actions).log|
    requires IsWrite(Run(h, cap, actions).log[i]) && IsWrite(Run(h, cap, actions).log[j])
    ensures var log := Run(h, cap, actions).log;
            && |Trail(log, log[i].tid)| >= 2 && log[TakeOf(log, i)].Taken?
            && |Trail(log, log[j].tid)| >= 2 && log[TakeOf(log, j)].Taken?
            && TicketOf(log, TakeOf(log, i)) != TicketOf(log, TakeOf(log, j))
  {
    hide Run;
    hide Wrote;
    hide SoundLog;
    var log := Run(h, cap, actions).log;
    AcceptedWriteHasTicket(h, cap, actions, i);
    AcceptedWriteHasTicket(h, cap, actions, j);
    WriteShape(h, cap, actions, i);
    WriteShape(h, cap, actions, j);
    RunFollowsLog(h, cap, actions);
    var k, l := TakeOf(log, i), TakeOf(log, j);
    assert log[i].tid != log[j].tid;
    if k < l { TakenOnce(cap, log, k, l); } else { TakenOnce(cap, log, l, k); }
  }

  lemma ShapeOfDoneWrite(h: PoW.Hash, tid: nat, t: Task, trail: seq<Event>)
    requires Shape(h, tid, t, trail) && t.req.Writes() && t.pc.Done?
    ensures t.pc.reply.Error? ==> forall p :: 0 <= p < |trail| ==> !trail[p].Boxed?
    ensures !t.pc.reply.Error? ==> t.pc.reply == OkSimple && |trail| == 3 && trail[2].Boxed?
    ensures !t.pc.reply.Error? ==> forall p :: 0 <= p < |trail| && trail[p].Boxed? ==> p == 2
  {
    hide PoW.Verify;
    hide Base64.Decode;
  }

  /** A write answered with an error left nothing in either mailbox; a successful one left exactly one store. */
  lemma WriteReplyTellsTheTruth(h: PoW.Hash, cap: Capacity, actions: seq<Action>, tid: nat)
    requires tid in Run(h, cap, actions).tasks
    requires Run(h, cap, actions).tasks[tid].req.Writes() && Run(h, cap, actions).tasks[tid].pc.Done?
    ensures var s := Run(h, cap, actions);
            var reply := s.tasks[tid].pc.reply;
            && (reply == OkSimple || reply.Error?)
            && (reply.Error? ==> forall i :: 0 <= i < |s.log| && s.log[i].tid == tid ==> !s.log[i].Boxed?)
            && (reply == OkSimple ==> |Trail(s.log, tid)| == 3)
            && (reply == OkSimple ==>
                  forall i :: 0 <= i < |s.log| && s.log[i].tid == tid ==> (s.log[i].Boxed? <==> i == Nth(s.log, tid, 2)))
  {
    hide Run;
    hide Shape;
    var s := Run(h, cap, actions);
    var trail := Trail(s.log, tid);
    RunTracked(h, cap, actions, tid);
    ShapeOfDoneWrite(h, tid, s.tasks[tid], trail);
    forall i | 0 <= i < |s.log| && s.log[i].tid == tid
      ensures var p := |Trail(s.log[..i], tid)|; p < |trail| && trail[p] == s.log[i] && Nth(s.log, tid, p) == i
    {
      TrailOrder(s.log, i);
      NthInverse(s.log, i);
    }
  }

  /** How many steps a request can still take. */
  function StepsLeft(pc: Pc): nat {
    match pc
    case AtRateCheck => 4
    case AtTake(_) => 3
    case AtVerify(_, _) => 2
    case AtStore(_, _) => 1
    case AtIssue => 1
    case AtPickup => 1
    case Done(_) => 0
  }

  lemma StepProgresses(h: PoW.Hash, cap: Capacity, sh: Shared, tid: nat, t: Task, clock: nat, nonce: seq<byte>, trail: seq<Event>)
    requires Shape(h, tid, t, trail) && !t.pc.Done? && |nonce| == 16
    ensures StepsLeft(Step(h, cap, sh, tid, t, clock, nonce).pc) < StepsLeft(t.pc)
  {
    hide RL.Check;
    hide PoW.Verify;
    hide Base64.Decode;
  }

  /** The steps a request has taken. */
  function OwnSteps(h: PoW.Hash, cap: Capacity, actions: seq<Action>, tid: nat): nat {
    if actions == [] then 0
    else
      var init, a := actions[..|actions| - 1], actions[|actions| - 1];
      OwnSteps(h, cap, init, tid) + if a.Advance? && a.tid == tid && tid in Run(h, cap, init).tasks then 1 else 0
  }

  /** Whatever others do, a request is answered after at most four steps of its own; draws are sixteen bytes. */
  lemma {:induction false} RequestsFinish(h: PoW.Hash, cap: Capacity, actions: seq<Action>, tid: nat)
    requires forall i :: 0 <= i < |actions| && actions[i].Advance? ==> |actions[i].nonce| == 16
    ensures tid !in Run(h, cap, actions).tasks ==> OwnSteps(h, cap, actions, tid) == 0
    ensures tid in Run(h, cap, actions).tasks && OwnSteps(h, cap, actions, tid) >= 4 ==> Run(h, cap, actions).tasks[tid].pc.Done?
    ensures tid in Run(h, cap, actions).tasks && !Run(h, cap, actions).tasks[tid].pc.Done? ==>
              OwnSteps(h, cap, actions, tid) + StepsLeft(Run(h, cap, actions).tasks[tid].pc) <= 4
  {
    if actions == [] { return; }
    hide Step;
    hide Shape;
    var init, a := actions[..|actions| - 1], actions[|actions| - 1];
    RequestsFinish(h, cap, init, tid);
    var s := Run(h, cap, init);
    if a.Advance? && a.tid == tid && tid in s.tasks {
      RunTracked(h, cap, init, tid);
      if s.tasks[tid].pc.Done? {
        DoneStays(h, cap, s.shared, tid, s.tasks[tid], s.clock, a.nonce);
      } else {
        StepProgresses(h, cap, s.shared, tid, s.tasks[tid], s.clock, a.nonce, Trail(s.log, tid));
      }
    }
  }

  lemma DoneStays(h: PoW.Hash, cap: Capacity, sh: Shared, tid: nat, t: Task, clock: nat, nonce: seq<byte>)
    requires t.pc.Done?
    ensures Step(h, cap, sh, tid, t, clock, nonce).pc == t.pc
  {}

  /** What a write must be answered, from what its request met: the verdict of the limiter, then what it found in the table. */
  function ExpectedReply(h: PoW.Hash, req: Request, trail: seq<Event>): Reply
    requires req.Writes()
  {
    if trail == [] || !trail[0].Checked? || trail[0].decision != RL.Admitted then Error(RateLimitExceeded)
    else match Base64.Decode(req.solution)
      case Err => Error(PowFailed)
      case Ok(sol) =>
        if |trail| < 2 || !trail[1].Taken? then Error(PowFailed)
        else if PoW.Verify(h, trail[1].challenge, sol) != PoW.Accepted then Error(PowFailed)
        else if Base64.Decode(req.payload) == Base64.Err then Error(InvalidBase64)
        else OkSimple
  }

  lemma ShapeOfReply(h: PoW.Hash, tid: nat, t: Task, trail: seq<Event>)
    requires Shape(h, tid, t, trail) && t.req.Writes() && t.pc.Done?
    ensures trail != [] && trail[0].Checked? && t.pc.reply == ExpectedReply(h, t.req, trail)
    ensures trail[0].decision == RL.Admitted && Base64.Decode(t.req.solution).Ok? ==>
              |trail| >= 2 && (trail[1] == Missed(tid, t.req.challengeId) || (trail[1].Taken? && trail[1].id == t.req.challengeId))
  {
    hide PoW.Verify;
    hide Base64.Decode;
  }

  /**
   In every run the answer to a write follows from what it met, and what it met is what was there: an admitted write with
   a readable solution takes its challenge if that is live, and misses it only if it is not.
   */
  lemma WriteReplyExact(h: PoW.Hash, cap: Capacity, actions: seq<Action>, tid: nat)
    requires tid in Run(h, cap, actions).tasks
    requires Run(h, cap, actions).tasks[tid].req.Writes() && Run(h, cap, actions).tasks[tid].pc.Done?
    ensures var s := Run(h, cap, actions);
            var t, trail := s.tasks[tid], Trail(s.log, tid);
            && trail != [] && trail[0].Checked? && t.pc.reply == ExpectedReply(h, t.req, trail)
            && (trail[0].decision == RL.Admitted && Base64.Decode(t.req.solution).Ok? ==>
                  && |trail| >= 2
                  && var i := Nth(s.log, tid, 1);
                     var k := LastTouch(s.log[..i], t.req.challengeId);
                     if k >= 0 && s.log[k].Issued? then trail[1].Taken? && trail[1].challenge == s.log[k].challenge
                     else trail[1].Missed?)
  {
    hide Run;
    hide Replay;
    hide Shape;
    hide ExpectedReply;
    hide Base64.Decode;
    var s := Run(h, cap, actions);
    var t, trail := s.tasks[tid], Trail(s.log, tid);
    RunTracked(h, cap, actions, tid);
    ShapeOfReply(h, tid, t, trail);
    if trail[0].decision == RL.Admitted && Base64.Decode(t.req.solution).Ok? {
      var i := Nth(s.log, tid, 1);
      RunFollowsLog(h, cap, actions);
      assert Sound(cap, Replay(cap, s.log[..i]), s.log[i]);
      LiveChallenge(cap, s.log[..i], t.req.challengeId);
    }
  }
}
