/** When things happen in a run of the relay, relay/src/ws.rs: stamps, draws, expiry and pickup times. */
module RelayTimes {
  import opened Bytes
  import Base64
  import PoW = ProofOfWork
  import RL = RateLimiter
  import MB = Mailbox
  import opened RelayEngine
  import opened RelayWrites
  import opened RelayMail

  // ---------------------------------------------------------------- the step behind an event

  /** Action `n` is the step that logged event `i`. */
  ghost predicate LoggedBy(h: PoW.Hash, cap: Capacity, actions: seq<Action>, n: nat, i: nat) {
    && n < |actions| && i < |Run(h, cap, actions).log|
    && |Run(h, cap, actions[..n]).log| == i && |Run(h, cap, actions[..n + 1]).log| == i + 1
  }

  /** What an event owes to the state it happened in. */
  ghost predicate Timed(a: Action, s: State, e: Event) {
    && a.Advance? && a.tid == e.tid && a.tid in s.tasks
    && (e.Checked? ==> e.call == RL.Call(s.tasks[a.tid].req.recipient, s.tasks[a.tid].now))
    && (e.Issued? ==> e.challenge.nonce == a.nonce)
    && (e.Boxed? && e.event.PickedUp? ==> e.event.now == s.clock)
    && (e.Boxed? && e.event.Stored? ==> s.tasks[a.tid].pc == AtStore(e.event.data, e.event.expiry))
  }

  lemma StepIsTimed(h: PoW.Hash, cap: Capacity, s: State, a: Action, e: Event)
    requires a.Advance? && a.tid in s.tasks
    requires e in Step(h, cap, s.shared, a.tid, s.tasks[a.tid], s.clock, a.nonce).events
    ensures Timed(a, s, e)
  {
    hide RL.Check;
    hide PoW.Verify;
    hide Base64.Decode;
  }

  /**
   Every event was logged by one step of its request: a challenge holds the nonce drawn for that step, and a pickup is
   judged by the clock of that step.
   */
  lemma {:induction false} MomentOf(h: PoW.Hash, cap: Capacity, actions: seq<Action>, i: nat) returns (n: nat)
    requires i < |Run(h, cap, actions).log|
    ensures LoggedBy(h, cap, actions, n, i) && Timed(actions[n], Run(h, cap, actions[..n]), Run(h, cap, actions).log[i])
  {
    hide Step;
    hide Timed;
    var init := actions[..|actions| - 1];
    var s, a := Run(h, cap, init), actions[|actions| - 1];
    assert actions[..|actions|] == actions;
    if i < |s.log| {
      n := MomentOf(h, cap, init, i);
      assert actions[..n] == init[..n] && actions[..n + 1] == init[..n + 1];
    } else {
      n := |actions| - 1;
      StepEvents(h, cap, s.shared, a.tid, s.tasks[a.tid], s.clock, a.nonce);
      var o := Step(h, cap, s.shared, a.tid, s.tasks[a.tid], s.clock, a.nonce);
      StepIsTimed(h, cap, s, a, o.events[0]);
    }
  }

  /** A request keeps what it asked for and the stamp of its arrival, which is the wall clock of that moment. */
  lemma {:induction false} StampIsArrival(h: PoW.Hash, cap: Capacity, actions: seq<Action>, tid: nat) returns (n: nat)
    requires tid in Run(h, cap, actions).tasks
    ensures n < |actions| && actions[n] == Arrive(tid, Run(h, cap, actions).tasks[tid].req)
    ensures tid !in Run(h, cap, actions[..n]).tasks
    ensures Run(h, cap, actions).tasks[tid].now == Run(h, cap, actions[..n]).wall
  {
    hide Step;
    var init := actions[..|actions| - 1];
    var s := Run(h, cap, init);
    if tid in s.tasks {
      n := StampIsArrival(h, cap, init, tid);
      assert actions[..n] == init[..n];
    } else {
      n := |actions| - 1;
    }
  }

  lemma {:induction false} RequestStays(h: PoW.Hash, cap: Capacity, actions: seq<Action>, n: nat, tid: nat)
    requires n <= |actions| && tid in Run(h, cap, actions[..n]).tasks
    ensures tid in Run(h, cap, actions).tasks
    ensures Run(h, cap, actions).tasks[tid].req == Run(h, cap, actions[..n]).tasks[tid].req
  {
    hide Step;
    if n == |actions| {
      assert actions[..n] == actions;
    } else {
      var init := actions[..|actions| - 1];
      assert actions[..n] == init[..n];
      RequestStays(h, cap, init, n, tid);
    }
  }

  // ---------------------------------------------------------------- how long mail keeps

  /** One day for a published bundle, seven days for an envelope, in seconds. */
  function KeptFor(req: Request): nat
    requires req.Writes()
  {
    match req case PublishPrekey(_, _, _, _) => 86400 case SendEnvelope(_, _, _, _) => 604800
  }

  /** Action `m` is the step in which request `tid` passed verification, from which its mail keeps until `expiry`. */
  ghost predicate VerifiedAt(h: PoW.Hash, cap: Capacity, actions: seq<Action>, m: nat, tid: nat, expiry: nat) {
    && m < |actions| && actions[m].Advance? && actions[m].tid == tid
    && var s := Run(h, cap, actions[..m]);
       && tid in s.tasks && s.tasks[tid].req.Writes() && s.tasks[tid].pc.AtVerify?
       && expiry == s.clock + KeptFor(s.tasks[tid].req)
  }

  lemma VerifiedStays(h: PoW.Hash, cap: Capacity, actions: seq<Action>, n: nat, m: nat, tid: nat, expiry: nat)
    requires n <= |actions| && VerifiedAt(h, cap, actions[..n], m, tid, expiry)
    ensures VerifiedAt(h, cap, actions, m, tid, expiry)
  {
    hide Run;
    assert actions[..n][..m] == actions[..m];
  }

  lemma ReadyToStore(h: PoW.Hash, cap: Capacity, sh: Shared, tid: nat, t: Task, clock: nat, nonce: seq<byte>)
    requires Step(h, cap, sh, tid, t, clock, nonce).pc.AtStore? && !t.pc.AtStore?
    ensures t.pc.AtVerify? && t.req.Writes()
    ensures Step(h, cap, sh, tid, t, clock, nonce).pc.expiry == clock + KeptFor(t.req)
  {
    hide RL.Check;
    hide PoW.Verify;
    hide Base64.Decode;
  }

  lemma StoreStepEnds(h: PoW.Hash, cap: Capacity, sh: Shared, tid: nat, t: Task, clock: nat, nonce: seq<byte>)
    requires t.pc.AtStore?
    ensures Step(h, cap, sh, tid, t, clock, nonce).pc.Done?
  {
  }

  lemma {:induction false} ReadyWasVerified(h: PoW.Hash, cap: Capacity, actions: seq<Action>, tid: nat) returns (m: nat)
    requires tid in Run(h, cap, actions).tasks && Run(h, cap, actions).tasks[tid].pc.AtStore?
    ensures VerifiedAt(h, cap, actions, m, tid, Run(h, cap, actions).tasks[tid].pc.expiry)
  {
    hide Step;
    var init := actions[..|actions| - 1];
    var s, a := Run(h, cap, init), actions[|actions| - 1];
    if a == Advance(tid, if a.Advance? then a.nonce else []) {
      if s.tasks[tid].pc.AtStore? {
        StoreStepEnds(h, cap, s.shared, tid, s.tasks[tid], s.clock, a.nonce);
      } else {
        ReadyToStore(h, cap, s.shared, tid, s.tasks[tid], s.clock, a.nonce);
      }
      m := |actions| - 1;
    } else {
      m := ReadyWasVerified(h, cap, init, tid);
      VerifiedStays(h, cap, actions, |actions| - 1, m, tid, s.tasks[tid].pc.expiry);
    }
  }

  /** In every run mail expires a day, or seven days, after the step in which its request passed verification. */
  lemma WriteExpires(h: PoW.Hash, cap: Capacity, actions: seq<Action>, i: nat) returns (m: nat)
    requires i < |Run(h, cap, actions).log| && IsWrite(Run(h, cap, actions).log[i])
    ensures var e := Run(h, cap, actions).log[i]; VerifiedAt(h, cap, actions, m, e.tid, e.event.expiry)
  {
    hide Run;
    var e := Run(h, cap, actions).log[i];
    var n := MomentOf(h, cap, actions, i);
    m := ReadyWasVerified(h, cap, actions[..n], e.tid);
    VerifiedStays(h, cap, actions, n, m, e.tid, e.event.expiry);
  }

  /**
   In every run: mail nobody has touched since is handed to the next pickup of its slot, byte for byte, if and only if
   no more than a day, or seven days, have passed between its verification and the pickup.
   */
  lemma MailKeeps(h: PoW.Hash, cap: Capacity, actions: seq<Action>, k: nat, i: nat) returns (m: nat, n: nat)
    requires k < i < |Run(h, cap, actions).log|
    requires var log := Run(h, cap, actions).log;
             && IsWrite(log[k]) && log[i].Boxed? && log[i].event.PickedUp? && AboutSlot(log[k], log[i].box, log[i].event.recipient)
             && forall j :: k < j < i ==> !AboutSlot(log[j], log[i].box, log[i].event.recipient)
    ensures var s := Run(h, cap, actions);
            && s.log[k].tid in s.tasks && s.tasks[s.log[k].tid].req.Writes()
            && LoggedBy(h, cap, actions, n, i) && VerifiedAt(h, cap, actions, m, s.log[k].tid, s.log[k].event.expiry)
            && var sent := s.tasks[s.log[k].tid].req;
               if Run(h, cap, actions[..n]).clock <= Run(h, cap, actions[..m]).clock + KeptFor(sent)
               then s.log[i].reply.OkData? && Base64.Decode(s.log[i].reply.text) == Base64.Decode(sent.payload)
               else s.log[i].reply == Error(Expired)
  {
    hide Run;
    hide Base64.Decode;
    hide Base64.Encode;
    var s := Run(h, cap, actions);
    n := MomentOf(h, cap, actions, i);
    m := WriteExpires(h, cap, actions, k);
    RequestStays(h, cap, actions, m, s.log[k].tid);
    assert LastAbout(s.log[..i], s.log[i].box, s.log[i].event.recipient) == k;
    PickupYieldsLatestWrite(h, cap, actions, i);
  }
}
