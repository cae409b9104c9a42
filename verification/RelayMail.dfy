/** What every run of the relay guarantees about deliveries and rate limits, relay/src/ws.rs. */
module RelayMail {
  import opened Bytes
  import Base64
  import PoW = ProofOfWork
  import RL = RateLimiter
  import MB = Mailbox
  import opened RelayEngine
  import opened RelayWrites

  // ---------------------------------------------------------------- mailboxes over a run

  predicate AboutSlot(e: Event, box: Box, key: string) { e.Boxed? && e.box == box && e.event.recipient == key }

  function LastAbout(log: seq<Event>, box: Box, key: string): (k: int)
    ensures -1 <= k < |log|
    ensures k >= 0 ==> AboutSlot(log[k], box, key)
    ensures forall i :: k < i < |log| ==> !AboutSlot(log[i], box, key)
  {
    if log == [] then -1
    else if AboutSlot(log[|log| - 1], box, key) then |log| - 1
    else LastAbout(log[..|log| - 1], box, key)
  }

  lemma {:induction false} SlotFollowsLog(cap: Capacity, log: seq<Event>, box: Box, key: string)
    ensures var k := LastAbout(log, box, key);
            Get(Replay(cap, log).Slots(box), key)
            == if k >= 0 && log[k].event.Stored? then Some(MB.Entry(log[k].event.data, log[k].event.expiry)) else None
  {
    hide RL.Check;
    if log != [] { SlotFollowsLog(cap, log[..|log| - 1], box, key); }
  }

  /** What a pickup at time `now` must answer when the last event about its slot stands at position `k`. */
  function Answer(log: seq<Event>, k: int, box: Box, now: nat): Reply
    requires k < |log|
  {
    if k < 0 || !IsWrite(log[k]) then Error(NotFound)
    else if now > log[k].event.expiry then Error(Expired)
    else OkData(box, Base64.Encode(log[k].event.data))
  }

  /**
   In every run every pickup answers with the latest accepted write to its slot, unless that has expired or was picked
   up before; and that write was the payload of a publish or send request to the same slot.
   */
  lemma PickupYieldsLatestWrite(h: PoW.Hash, cap: Capacity, actions: seq<Action>, i: nat)
    requires i < |Run(h, cap, actions).log|
    requires Run(h, cap, actions).log[i].Boxed? && Run(h, cap, actions).log[i].event.PickedUp?
    ensures var s := Run(h, cap, actions);
            var e := s.log[i];
            var k := LastAbout(s.log[..i], e.box, e.event.recipient);
            && e.reply == Answer(s.log, k, e.box, e.event.now)
            && (k >= 0 && IsWrite(s.log[k]) ==>
                  && s.log[k].tid in s.tasks && s.tasks[s.log[k].tid].req.Writes()
                  && s.tasks[s.log[k].tid].req.Box() == e.box && s.tasks[s.log[k].tid].req.Key() == e.event.recipient
                  && Base64.Decode(s.tasks[s.log[k].tid].req.payload) == Base64.Ok(s.log[k].event.data))
            && (e.reply.OkData? ==> Base64.Decode(e.reply.text) == Base64.Ok(s.log[k].event.data))
  {
    hide Run;
    hide Replay;
    hide PoW.Verify;
    hide Base64.Decode;
    hide Base64.Encode;
    hide Base64.Strip;
    var s := Run(h, cap, actions);
    var e := s.log[i];
    RunFollowsLog(h, cap, actions);
    assert Sound(cap, Replay(cap, s.log[..i]), e);
    SlotFollowsLog(cap, s.log[..i], e.box, e.event.recipient);
    var k := LastAbout(s.log[..i], e.box, e.event.recipient);
    if k >= 0 && IsWrite(s.log[k]) {
      WriteShape(h, cap, actions, k);
      Base64.EncodeHasNoBlanks(s.log[k].event.data);
      Base64.DecodeOfStripped(s.log[k].event.data, Base64.Encode(s.log[k].event.data));
    }
  }

  lemma ShapeOfDoneRead(h: PoW.Hash, tid: nat, t: Task, trail: seq<Event>)
    requires Shape(h, tid, t, trail) && t.req.Reads() && t.pc.Done?
    ensures || (t.pc.reply == Error(RateLimitExceeded) && |trail| == 1 && trail[0].Checked?)
            || (|trail| == 2 && trail[1].Boxed? && trail[1].event.PickedUp? && trail[1].reply == t.pc.reply
                && trail[1].box == t.req.Box() && trail[1].event.recipient == t.req.Key())
  {
    hide PoW.Verify;
    hide Base64.Decode;
  }

  /** In every run a finished lookup or pickup was refused by the limiter or got the answer its slot's history demands. */
  lemma ReadReplyTellsTheTruth(h: PoW.Hash, cap: Capacity, actions: seq<Action>, tid: nat)
    requires tid in Run(h, cap, actions).tasks
    requires Run(h, cap, actions).tasks[tid].req.Reads() && Run(h, cap, actions).tasks[tid].pc.Done?
    ensures var s := Run(h, cap, actions);
            var t := s.tasks[tid];
            || (t.pc.reply == Error(RateLimitExceeded) && |Trail(s.log, tid)| == 1)
            || (&& |Trail(s.log, tid)| == 2
                && var i := Nth(s.log, tid, 1);
                   && s.log[i].Boxed? && s.log[i].event.PickedUp?
                   && t.pc.reply == Answer(s.log, LastAbout(s.log[..i], t.req.Box(), t.req.Key()), t.req.Box(), s.log[i].event.now))
  {
    hide Run;
    hide Shape;
    hide Base64.Decode;
    hide Base64.Encode;
    var s := Run(h, cap, actions);
    RunTracked(h, cap, actions, tid);
    ShapeOfDoneRead(h, tid, s.tasks[tid], Trail(s.log, tid));
    if |Trail(s.log, tid)| == 2 {
      PickupYieldsLatestWrite(h, cap, actions, Nth(s.log, tid, 1));
    }
  }

  /** Two requests meet in one slot if and only if they agree on the kind of mail and on the recipient. */
  lemma SlotsAreApart(a: Request, b: Request)
    requires !a.GetChallenge? && !b.GetChallenge?
    ensures a.Box() == b.Box() && a.Key() == b.Key() <==>
      (a.recipient == b.recipient && (a.SendEnvelope? || a.PickupEnvelope? <==> b.SendEnvelope? || b.PickupEnvelope?))
  {
    if a.Key() == b.Key() && a.Box() == Prekeys && b.Box() == Prekeys {
      assert ("prekey:" + a.recipient)[7..] == a.recipient && ("prekey:" + b.recipient)[7..] == b.recipient;
    }
  }

  /**
   In every run whoever picks up mail gets mail sent to the same recipient: an envelope that was sent, a bundle that was
   published, and the payload of a request that was told of its success.
   */
  lemma MailReachesItsRecipient(h: PoW.Hash, cap: Capacity, actions: seq<Action>, tid: nat) returns (from: nat)
    requires tid in Run(h, cap, actions).tasks && Run(h, cap, actions).tasks[tid].pc.Done?
    requires Run(h, cap, actions).tasks[tid].pc.reply.OkData?
    ensures from in Run(h, cap, actions).tasks && Run(h, cap, actions).tasks[from].req.Writes()
    ensures var s := Run(h, cap, actions);
            var got, sent := s.tasks[tid], s.tasks[from];
            && (got.req.PickupEnvelope? || got.req.LookupPrekey?)
            && (got.req.PickupEnvelope? ==> sent.req.SendEnvelope? && got.pc.reply.box == Envelopes)
            && (got.req.LookupPrekey? ==> sent.req.PublishPrekey? && got.pc.reply.box == Prekeys)
            && sent.req.recipient == got.req.recipient && sent.pc == Done(OkSimple)
            && Base64.Decode(got.pc.reply.text).Ok? && Base64.Decode(got.pc.reply.text) == Base64.Decode(sent.req.payload)
  {
    hide Run;
    hide Shape;
    hide PoW.Verify;
    hide Base64.Decode;
    hide Base64.Encode;
    var s := Run(h, cap, actions);
    RunTracked(h, cap, actions, tid);
    ShapeOfData(h, tid, s.tasks[tid], Trail(s.log, tid));
    ReadReplyTellsTheTruth(h, cap, actions, tid);
    var i := Nth(s.log, tid, 1);
    PickupYieldsLatestWrite(h, cap, actions, i);
    var k := LastAbout(s.log[..i], s.tasks[tid].req.Box(), s.tasks[tid].req.Key());
    WriteShape(h, cap, actions, k);
    from := s.log[k].tid;
    SlotsAreApart(s.tasks[tid].req, s.tasks[from].req);
  }

  /** Only lookups and pickups are answered with data, and then by the one mailbox event they caused. */
  lemma ShapeOfData(h: PoW.Hash, tid: nat, t: Task, trail: seq<Event>)
    requires Shape(h, tid, t, trail) && t.pc.Done? && t.pc.reply.OkData?
    ensures t.req.Reads() && |trail| == 2 && trail[1].Boxed? && trail[1].event.PickedUp? && trail[1].reply == t.pc.reply
    ensures trail[1].box == t.req.Box() && trail[1].event.recipient == t.req.Key()
  {
    hide PoW.Verify;
    hide Base64.Decode;
  }

  lemma DeliveriesArePickups(h: PoW.Hash, cap: Capacity, actions: seq<Action>, i: nat)
    requires i < |Run(h, cap, actions).log|
    requires Run(h, cap, actions).log[i].Boxed? && Run(h, cap, actions).log[i].reply.OkData?
    ensures Run(h, cap, actions).log[i].event.PickedUp?
  {
    hide Run;
    hide Replay;
    RunFollowsLog(h, cap, actions);
    var log := Run(h, cap, actions).log;
    assert Sound(cap, Replay(cap, log[..i]), log[i]);
  }

  /** Two deliveries never come from the same write. */
  lemma WriteDeliveredOnce(h: PoW.Hash, cap: Capacity, actions: seq<Action>, i: nat, j: nat)
    requires i < j < |Run(h, cap, actions).log|
    requires Run(h, cap, actions).log[i].Boxed? && Run(h, cap, actions).log[i].reply.OkData?
    requires Run(h, cap, actions).log[j].Boxed? && Run(h, cap, actions).log[j].reply.OkData?
    ensures var log := Run(h, cap, actions).log;
            LastAbout(log[..i], log[i].box, log[i].event.recipient) != LastAbout(log[..j], log[j].box, log[j].event.recipient)
  {
    hide Run;
    hide Base64.Decode;
    DeliveriesArePickups(h, cap, actions, i);
    DeliveriesArePickups(h, cap, actions, j);
    PickupYieldsLatestWrite(h, cap, actions, i);
    PickupYieldsLatestWrite(h, cap, actions, j);
  }

  function BoxLog(log: seq<Event>, box: Box): seq<MB.Event> {
    if log == [] then []
    else
      var e := log[|log| - 1];
      BoxLog(log[..|log| - 1], box) + if e.Boxed? && e.box == box then [e.event] else []
  }

  lemma ApplyToBox(cap: Capacity, sh: Shared, e: Event, box: Box)
    ensures ApplyEvent(cap, sh, e).Slots(box)
         == if e.Boxed? && e.box == box then MB.Apply(sh.Slots(box), e.event) else sh.Slots(box)
  {}

  lemma {:induction false} BoxFollowsLog(cap: Capacity, log: seq<Event>, box: Box)
    ensures Replay(cap, log).Slots(box) == MB.Run(BoxLog(log, box))
  {
    if log == [] { return; }
    hide ApplyEvent;
    hide MB.Run;
    var init, e := log[..|log| - 1], log[|log| - 1];
    BoxFollowsLog(cap, init, box);
    ApplyToBox(cap, Replay(cap, init), e, box);
    if e.Boxed? && e.box == box {
      MB.RunSnoc(BoxLog(init, box), e.event);
    } else {
      assert BoxLog(log, box) == BoxLog(init, box);
    }
  }

  /** Over every run, per mailbox and recipient: stores are delivered, overwritten, expired or still held. */
  lemma RunConservesMail(h: PoW.Hash, cap: Capacity, actions: seq<Action>, box: Box, key: string)
    ensures var s := Run(h, cap, actions);
            var t := MB.TallyOf(BoxLog(s.log, box), key);
            t.stores == t.delivered + t.overwritten + t.expired + t.purged + if key in s.shared.Slots(box) then 1 else 0
  {
    hide Run;
    hide Replay;
    var s := Run(h, cap, actions);
    RunFollowsLog(h, cap, actions);
    BoxFollowsLog(cap, s.log, box);
    MB.Conservation(BoxLog(s.log, box), key);
  }

  // ---------------------------------------------------------------- the limiter over a run

  function Calls(log: seq<Event>): seq<RL.Call> {
    if log == [] then []
    else Calls(log[..|log| - 1]) + if log[|log| - 1].Checked? then [log[|log| - 1].call] else []
  }

  function Decisions(log: seq<Event>): seq<RL.Decision> {
    if log == [] then []
    else Decisions(log[..|log| - 1]) + if log[|log| - 1].Checked? then [log[|log| - 1].decision] else []
  }

  lemma SoundInit(cap: Capacity, log: seq<Event>)
    requires SoundLog(cap, log) && log != []
    ensures SoundLog(cap, log[..|log| - 1]) && Sound(cap, Replay(cap, log[..|log| - 1]), log[|log| - 1])
  {
    hide Sound;
    hide Replay;
    var init := log[..|log| - 1];
    forall i | 0 <= i < |init| ensures Sound(cap, Replay(cap, init[..i]), init[i]) {
      assert init[..i] == log[..i];
    }
  }

  lemma {:induction false} LimiterFollowsLog(cap: Capacity, log: seq<Event>)
    requires SoundLog(cap, log)
    ensures Decisions(log) == RL.RunAll(cap, WINDOW, map[], Calls(log))
    ensures Replay(cap, log).buckets == RL.BucketsAfter(cap, WINDOW, map[], Calls(log))
  {
    if log == [] { return; }
    hide RL.Check;
    hide RL.RunAll;
    hide RL.BucketsAfter;
    hide SoundLog;
    var init, e := log[..|log| - 1], log[|log| - 1];
    SoundInit(cap, log);
    LimiterFollowsLog(cap, init);
    if e.Checked? {
      RL.RunAllSnoc(cap, WINDOW, map[], Calls(init), e.call);
    } else {
      assert Calls(log) == Calls(init) && Decisions(log) == Decisions(init);
    }
  }

  function StampsOf(log: seq<Event>, id: RL.Identity): seq<nat> { RL.OwnTimes(Calls(log), id) }

  /** The limit as an identity sees it: how many of its requests stamped in `[lo, hi)` may be admitted. */
  ghost predicate KeepsLimit(cap: Capacity, log: seq<Event>, id: RL.Identity, lo: nat, hi: nat)
    requires lo < hi
  {
    && |Decisions(log)| == |Calls(log)|
    && var own := RL.OwnDecisions(Calls(log), Decisions(log), id);
       && |own| == |StampsOf(log, id)|
       && RL.CountAdmitted(StampsOf(log, id), own, lo, hi) <= RL.MostAdmitted(cap, 60, hi - lo)
  }

  /** In every run one identity's decisions are a replay of its own calls. */
  lemma OwnCallsDecide(h: PoW.Hash, cap: Capacity, actions: seq<Action>, id: RL.Identity)
    ensures var log := Run(h, cap, actions).log;
            && |Decisions(log)| == |Calls(log)|
            && RL.OwnDecisions(Calls(log), Decisions(log), id) == RL.Replay(cap, WINDOW, None, StampsOf(log, id))
  {
    hide Run;
    hide RL.Check;
    hide RL.RunAll;
    var log := Run(h, cap, actions).log;
    RunFollowsLog(h, cap, actions);
    LimiterFollowsLog(cap, log);
    RL.Independence(cap, WINDOW, map[], Calls(log), id);
  }

  /** In every run the limit holds for an identity whose stamps are timely, in particular while they are in order. */
  lemma RunRespectsLimit(h: PoW.Hash, cap: Capacity, actions: seq<Action>, id: RL.Identity, lo: nat, hi: nat)
    requires lo < hi
    ensures var log := Run(h, cap, actions).log;
            && (RL.NonDecreasing(StampsOf(log, id)) || cap == 1 ==> RL.Timely(cap, WINDOW, None, StampsOf(log, id)))
            && (RL.Timely(cap, WINDOW, None, StampsOf(log, id)) ==> KeepsLimit(cap, log, id, lo, hi))
  {
    hide Run;
    hide RL.Timely;
    hide RL.Replay;
    hide StampsOf;
    var log := Run(h, cap, actions).log;
    OwnCallsDecide(h, cap, actions, id);
    var times := StampsOf(log, id);
    if RL.NonDecreasing(times) { RL.OrderedIsTimely(cap, WINDOW, None, times); }
    if cap == 1 { RL.SingleIsTimely(WINDOW, None, times); }
    if RL.Timely(cap, WINDOW, None, times) { RL.SlidingBound(cap, WINDOW, times, lo, hi); }
  }

  // ---------------------------------------------------------------- a run that exceeds the limit

  lemma RunSnoc(h: PoW.Hash, cap: Capacity, actions: seq<Action>, a: Action)
    ensures Run(h, cap, actions + [a]) == Act(h, cap, Run(h, cap, actions), a)
  {
    assert (actions + [a])[..|actions|] == actions;
  }

  const Knock: Request := PickupEnvelope("r")

  lemma ArriveStep(h: PoW.Hash, cap: Capacity, s: State, tid: nat)
    requires tid !in s.tasks
    ensures var t := Act(h, cap, s, Arrive(tid, Knock));
            t == s.(tasks := s.tasks[tid := Task(Knock, s.wall, AtRateCheck)])
  {
  }

  /** The first step of a request adds its stamp to those of its identity. */
  lemma CheckStep(h: PoW.Hash, cap: Capacity, s: State, tid: nat)
    requires tid in s.tasks && s.tasks[tid].req == Knock && s.tasks[tid].pc == AtRateCheck
    ensures var t := Act(h, cap, s, Advance(tid, []));
            && t.wall == s.wall && t.tasks.Keys == s.tasks.Keys
            && (forall k :: k in s.tasks && k != tid ==> t.tasks[k] == s.tasks[k])
            && StampsOf(t.log, "r") == StampsOf(s.log, "r") + [s.tasks[tid].now]
  {
    hide RL.Check;
    var call := RL.Call("r", s.tasks[tid].now);
    var t := Act(h, cap, s, Advance(tid, []));
    var e := t.log[|s.log|];
    assert t.log == s.log + [e] && e.Checked? && e.call == call;
    assert t.log[..|s.log|] == s.log;
    assert Calls(t.log) == Calls(s.log) + [call];
    RL.OwnTimesSnoc(Calls(s.log), call, "r");
  }

  /** `n` requests that arrive and are checked at time 0. */
  function Prompt(n: nat): seq<Action> {
    if n == 0 then [] else Prompt(n - 1) + [Arrive(n - 1, Knock)] + [Advance(n - 1, [])]
  }

  ghost predicate Prompted(s: State, n: nat) {
    s.wall == 0 && (forall k :: k in s.tasks ==> k < n) && StampsOf(s.log, "r") == RL.Burst(0, n)
  }

  lemma PromptStep(h: PoW.Hash, cap: Capacity, s: State, n: nat)
    requires Prompted(s, n)
    ensures Prompted(Act(h, cap, Act(h, cap, s, Arrive(n, Knock)), Advance(n, [])), n + 1)
  {
    hide Act;
    hide StampsOf;
    hide RL.Burst;
    ArriveStep(h, cap, s, n);
    CheckStep(h, cap, Act(h, cap, s, Arrive(n, Knock)), n);
    RL.BurstSnoc(0, n);
  }

  lemma {:induction false} PromptRun(h: PoW.Hash, cap: Capacity, n: nat)
    ensures Prompted(Run(h, cap, Prompt(n)), n)
  {
    if n == 0 { return; }
    PromptRun(h, cap, n - 1);
    hide Run;
    hide Act;
    hide Prompted;
    RunSnoc(h, cap, Prompt(n - 1), Arrive(n - 1, Knock));
    RunSnoc(h, cap, Prompt(n - 1) + [Arrive(n - 1, Knock)], Advance(n - 1, []));
    PromptStep(h, cap, Run(h, cap, Prompt(n - 1)), n - 1);
  }

  /** After a full budget at time 0 a request is stamped, waits while another opens the next window, and is checked then. */
  function Overtaken(cap: Capacity): seq<Action> {
    Prompt(cap) + [Arrive(cap, Knock)] + [Tick(WINDOW, WINDOW)] + [Arrive(cap + 1, Knock)]
    + [Advance(cap + 1, [])] + [Advance(cap, [])]
  }

  lemma OvertakenStamps(h: PoW.Hash, cap: Capacity)
    ensures StampsOf(Run(h, cap, Overtaken(cap)).log, "r") == RL.LateReturn(cap, WINDOW)
  {
    var a0 := Prompt(cap);
    var a1 := a0 + [Arrive(cap, Knock)];
    var a2 := a1 + [Tick(WINDOW, WINDOW)];
    var a3 := a2 + [Arrive(cap + 1, Knock)];
    var a4 := a3 + [Advance(cap + 1, [])];
    RunSnoc(h, cap, a0, Arrive(cap, Knock));
    RunSnoc(h, cap, a1, Tick(WINDOW, WINDOW));
    RunSnoc(h, cap, a2, Arrive(cap + 1, Knock));
    RunSnoc(h, cap, a3, Advance(cap + 1, []));
    RunSnoc(h, cap, a4, Advance(cap, []));
    PromptRun(h, cap, cap);
    hide Run;
    hide Prompt;
    hide Step;
    hide StampsOf;
    hide RL.Burst;
    var s0 := Run(h, cap, a0);
    ArriveStep(h, cap, s0, cap);
    var s2 := Run(h, cap, a2);
    assert s2.wall == WINDOW && s2.log == s0.log && s2.tasks[cap] == Task(Knock, 0, AtRateCheck);
    ArriveStep(h, cap, s2, cap + 1);
    hide Act;
    var s3 := Run(h, cap, a3);
    CheckStep(h, cap, s3, cap + 1);
    CheckStep(h, cap, Run(h, cap, a4), cap);
    assert RL.Burst(0, cap) + [WINDOW] + [0] == RL.LateReturn(cap, WINDOW);
  }

  /**
   Requests are stamped before they queue for the limiter's lock, so a stamp may be checked after a later one has opened
   a new window. The limit holds in all runs of the relay exactly if its capacity is one request a minute.
   */
  lemma EveryRunKeepsLimitIff(h: PoW.Hash, cap: Capacity)
    ensures (forall actions, id, lo: nat, hi: nat | lo < hi :: KeepsLimit(cap, Run(h, cap, actions).log, id, lo, hi)) <==> cap == 1
  {
    hide Run;
    hide StampsOf;
    hide RL.Replay;
    if cap == 1 {
      forall actions, id, lo: nat, hi: nat | lo < hi ensures KeepsLimit(cap, Run(h, cap, actions).log, id, lo, hi) {
        RunRespectsLimit(h, cap, actions, id, lo, hi);
      }
    } else {
      OvertakenStamps(h, cap);
      OwnCallsDecide(h, cap, Overtaken(cap), "r");
      RL.LateReturnExceeds(cap, WINDOW);
      assert !KeepsLimit(cap, Run(h, cap, Overtaken(cap)).log, "r", 0, 1);
    }
  }
}
