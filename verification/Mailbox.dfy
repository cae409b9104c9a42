/** The blind store-and-forward mailbox, relay/src/store.rs: one slot per recipient, overwritten by each store. */
module Mailbox {
  import opened Bytes

  datatype Entry = Entry(data: seq<byte>, expiry: nat)

  datatype PickupResult = Delivered(data: seq<byte>) | Expired | NotFound

  type Slots = map<string, Entry>

  /** What a pickup finds in a slot; the expiry instant itself still counts as live. */
  function PickupOf(slot: Option<Entry>, now: nat): PickupResult {
    if slot == None then NotFound
    else if now > slot.value.expiry then Expired
    else Delivered(slot.value.data)
  }

  class RelayStore {
    var slots: Slots

    constructor ()
      ensures slots == map[]
    {
      slots := map[];
    }

    method Store(recipient: string, envelope: seq<byte>, ttl: nat, now: nat)
      modifies this
      ensures slots == old(slots)[recipient := Entry(envelope, now + ttl)]
    {
      var expiry := now + ttl;
      slots := slots[recipient := Entry(envelope, expiry)];
    }

    method Pickup(recipient: string, now: nat) returns (r: PickupResult)
      modifies this
      ensures slots == old(slots) - {recipient}
      ensures r == PickupOf(old(Get(slots, recipient)), now)
    {
      if recipient !in slots {
        r := NotFound;
      } else if now > slots[recipient].expiry {
        slots := slots - {recipient};
        r := Expired;
      } else {
        var data := slots[recipient].data;
        slots := slots - {recipient};
        r := Delivered(data);
      }
    }

    method Purge(recipient: string)
      modifies this
      ensures slots == old(slots) - {recipient}
    {
      slots := slots - {recipient};
    }

    /** After any history: the recipients whose latest event is a store. An expired store counts until it is picked up. */
    method Count() returns (n: nat)
      ensures n == |slots|
      ensures forall events :: slots == Run(events) ==> n == |Holders(events)|
    {
      forall events | slots == Run(events) ensures |slots| == |Holders(events)| { HoldersAreKeys(events); }
      n := |slots|;
    }
  }

  // ---------------------------------------------------------------- runs

  datatype Event =
    | Stored(recipient: string, data: seq<byte>, expiry: nat)
    | PickedUp(recipient: string, now: nat)
    | Purged(recipient: string)

  function Apply(m: Slots, e: Event): Slots {
    match e
    case Stored(r, data, expiry) => m[r := Entry(data, expiry)]
    case PickedUp(r, _) => m - {r}
    case Purged(r) => m - {r}
  }

  function Run(events: seq<Event>): Slots {
    if events == [] then map[] else Apply(Run(events[..|events| - 1]), events[|events| - 1])
  }

  lemma RunSnoc(events: seq<Event>, e: Event)
    ensures Run(events + [e]) == Apply(Run(events), e)
  {
    assert (events + [e])[..|events|] == events;
  }

  /** The position of the last event about `r`, or -1. Other recipients' events are passed over. */
  function LastAbout(events: seq<Event>, r: string): (k: int)
    ensures -1 <= k < |events|
    ensures k >= 0 ==> events[k].recipient == r
    ensures forall i :: k < i < |events| ==> events[i].recipient != r
  {
    if events == [] then -1
    else if events[|events| - 1].recipient == r then |events| - 1
    else LastAbout(events[..|events| - 1], r)
  }

  /** The store a slot must hold, read off the history alone. */
  function LatestStore(events: seq<Event>, r: string): Option<Entry> {
    var k := LastAbout(events, r);
    if k >= 0 && events[k].Stored? then Some(Entry(events[k].data, events[k].expiry)) else None
  }

  /** After any history a slot holds the latest store to its recipient, unless that was since removed. */
  lemma {:induction false} SlotIsLatestStore(events: seq<Event>, r: string)
    ensures Get(Run(events), r) == LatestStore(events, r)
  {
    if events != [] {
      var init := events[..|events| - 1];
      SlotIsLatestStore(init, r);
    }
  }

  /** The recipients whose latest event is a store. */
  function Holders(events: seq<Event>): set<string> {
    set i | 0 <= i < |events| && events[i].Stored? && LastAbout(events, events[i].recipient) == i :: events[i].recipient
  }

  lemma HoldersAreKeys(events: seq<Event>)
    ensures Run(events).Keys == Holders(events) && |Run(events)| == |Holders(events)|
  {
    hide Run;
    forall r ensures r in Run(events) <==> r in Holders(events) {
      SlotIsLatestStore(events, r);
      var k := LastAbout(events, r);
      if k >= 0 && events[k].Stored? { assert events[k].recipient in Holders(events); }
    }
    assert |Run(events)| == |Run(events).Keys|;
  }

  /** The outcome of the pickup at position `i` of a history. */
  function ResultAt(events: seq<Event>, i: nat): PickupResult
    requires i < |events| && events[i].PickedUp?
  {
    PickupOf(Get(Run(events[..i]), events[i].recipient), events[i].now)
  }

  /** The position of the store that the pickup at `i` delivers. */
  function SourceOf(events: seq<Event>, i: nat): int
    requires i < |events|
  {
    LastAbout(events[..i], events[i].recipient)
  }

  /**
   Every pickup yields, byte for byte, the latest store to its recipient if that has not expired, `Expired` if it has,
   and `NotFound` if the last event about the recipient was no store.
   */
  lemma PickupYieldsLatest(events: seq<Event>, i: nat)
    requires i < |events| && events[i].PickedUp?
    ensures var k := SourceOf(events, i);
            && ResultAt(events, i) == (if k < 0 || !events[k].Stored? then NotFound
                                       else if events[i].now > events[k].expiry then Expired
                                       else Delivered(events[k].data))
            && k < i && (k >= 0 ==> events[k].recipient == events[i].recipient)
            && forall j :: k < j < i ==> events[j].recipient != events[i].recipient
  {
    SlotIsLatestStore(events[..i], events[i].recipient);
  }

  /** No store is delivered twice. */
  lemma DeliveredOnce(events: seq<Event>, i: nat, j: nat)
    requires i < j < |events|
    requires events[i].PickedUp? && ResultAt(events, i).Delivered?
    requires events[j].PickedUp? && ResultAt(events, j).Delivered?
    ensures SourceOf(events, i) != SourceOf(events, j)
  {
    PickupYieldsLatest(events, i);
    PickupYieldsLatest(events, j);
  }

  /** Dropping every event about other recipients changes nothing for `r`. */
  function Own(events: seq<Event>, r: string): seq<Event> {
    if events == [] then []
    else Own(events[..|events| - 1], r) + if events[|events| - 1].recipient == r then [events[|events| - 1]] else []
  }

  lemma {:induction false} OthersDoNotMatter(events: seq<Event>, r: string)
    ensures Get(Run(events), r) == Get(Run(Own(events, r)), r)
  {
    if events != [] {
      var init, e := events[..|events| - 1], events[|events| - 1];
      OthersDoNotMatter(init, r);
      var own := Own(events, r);
      if e.recipient == r {
        assert own[..|own| - 1] == Own(init, r);
      } else {
        assert own == Own(init, r);
      }
    }
  }

  // ---------------------------------------------------------------- conservation

  datatype Tally = Tally(stores: nat, delivered: nat, overwritten: nat, expired: nat, purged: nat)

  /** What became of the stores to `r`, event by event. */
  function TallyOf(events: seq<Event>, r: string): Tally {
    if events == [] then Tally(0, 0, 0, 0, 0)
    else
      var init, e := events[..|events| - 1], events[|events| - 1];
      var t, slot := TallyOf(init, r), Get(Run(init), r);
      if e.recipient != r then t
      else match e
        case Stored(_, _, _) =>
          t.(stores := t.stores + 1, overwritten := t.overwritten + if slot.Some? then 1 else 0)
        case PickedUp(_, now) =>
          t.(delivered := t.delivered + if PickupOf(slot, now).Delivered? then 1 else 0,
             expired := t.expired + if PickupOf(slot, now).Expired? then 1 else 0)
        case Purged(_) => t.(purged := t.purged + if slot.Some? then 1 else 0)
  }

  /** Every store is delivered, overwritten, expired, purged or still held, and only one of these. */
  lemma {:induction false} Conservation(events: seq<Event>, r: string)
    ensures var t := TallyOf(events, r);
            t.stores == t.delivered + t.overwritten + t.expired + t.purged + if r in Run(events) then 1 else 0
  {
    if events != [] { Conservation(events[..|events| - 1], r); }
  }
}
