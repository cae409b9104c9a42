/** The replenishable pool of one-time prekeys, core/crypto/src/prekey.rs. */
module PreKeyPool {
  import opened Bytes
  import opened Order

  const U32_MAX: nat := 0xFFFF_FFFF

  /** A record is an id and a key pair; `keys(id)` stands for the pair drawn when that id is minted. */
  datatype Record = Record(id: nat, pair: int)

  function SaturatingIncrement(n: nat): nat { if n + 1 > U32_MAX then U32_MAX else n + 1 }

  function Max(a: nat, b: nat): nat { if a > b then a else b }

  function Generate(start: nat, count: nat, keys: int -> int): (rs: seq<Record>)
    ensures |rs| == count
    ensures forall i :: 0 <= i < count ==> rs[i] == Record(start + i, keys(start + i))
  {
    seq(count, i requires 0 <= i < count => Record(start + i, keys(start + i)))
  }

  datatype TakeResult = Took(record: Record) | AlreadyConsumed | NeverThere

  /** `OneTimePreKeyPool`: insertion by id, later records replacing earlier ones. */
  function ById(rs: seq<Record>): map<nat, Record> {
    if rs == [] then map[] else ById(rs[..|rs| - 1])[rs[|rs| - 1].id := rs[|rs| - 1]]
  }

  class OneTimePreKeyPool {
    var available: map<nat, Record>
    var consumed: set<nat>

    constructor (records: seq<Record>)
      ensures available == ById(records) && consumed == {}
    {
      var m: map<nat, Record> := map[];
      for i := 0 to |records|
        invariant m == ById(records[..i])
      {
        assert records[..i + 1][..i] == records[..i];
        m := m[records[i].id := records[i]];
      }
      assert records[..|records|] == records;
      available := m;
      consumed := {};
    }

    function Value(): Stock
      reads this
    {
      Stock(available, consumed)
    }

    method Take(id: nat) returns (r: TakeResult)
      modifies this
      ensures (Value(), r) == TakeFrom(old(Value()), id)
    {
      if id in available {
        r := Took(available[id]);
        available := available - {id};
        consumed := consumed + {id};
      } else if id in consumed {
        r := AlreadyConsumed;
      } else {
        r := NeverThere;
      }
    }
  }

  datatype Stock = Stock(available: map<nat, Record>, consumed: set<nat>)

  function TakeFrom(s: Stock, id: nat): (Stock, TakeResult) {
    if id in s.available then (Stock(s.available - {id}, s.consumed + {id}), Took(s.available[id]))
    else (s, if id in s.consumed then AlreadyConsumed else NeverThere)
  }

  function AfterTakes(records: seq<Record>, ids: seq<nat>): Stock {
    if ids == [] then Stock(ById(records), {})
    else TakeFrom(AfterTakes(records, ids[..|ids| - 1]), ids[|ids| - 1]).0
  }

  lemma {:induction false} StockAfterTakes(records: seq<Record>, ids: seq<nat>)
    ensures var s := AfterTakes(records, ids);
            && (forall k :: k in s.available <==> k in ById(records) && k !in ids)
            && (forall k :: k in s.available ==> s.available[k] == ById(records)[k])
            && (forall k :: k in s.consumed <==> k in ById(records) && k in ids)
  {
    if ids != [] {
      StockAfterTakes(records, ids[..|ids| - 1]);
      assert ids == ids[..|ids| - 1] + [ids[|ids| - 1]];
    }
  }

  /** In every sequence of takes a record is handed out at its first take, and a repeated take is told from a vain one. */
  lemma EachTakenOnce(records: seq<Record>, ids: seq<nat>, id: nat)
    ensures TakeFrom(AfterTakes(records, ids), id).1 ==
      if id !in ById(records) then NeverThere
      else if id in ids then AlreadyConsumed
      else Took(ById(records)[id])
  {
    StockAfterTakes(records, ids);
  }

  // ---------------------------------------------------------------- the pool as a value

  datatype Pool = Pool(available: map<nat, Record>, issued: set<nat>, nextId: nat)

  /** `take_one_time`, given the least available id. */
  function TakeId(p: Pool, id: nat): (Pool, Option<Record>)
    requires id in p.available
  {
    (p.(available := p.available - {id}, issued := p.issued + {id}), Some(p.available[id]))
  }

  function Needed(p: Pool, target: nat): nat {
    if target > |p.available| then target - |p.available| else 0
  }

  /** Freshly minted records, by id. */
  function Minted(first: nat, count: nat, keys: int -> int): map<nat, Record> {
    map k | first <= k < first + count :: Record(k, keys(k))
  }

  function Ids(first: nat, count: nat): set<nat> {
    if count == 0 then {} else Ids(first, count - 1) + {first + count - 1}
  }

  function Mint(p: Pool, n: nat, keys: int -> int): Pool {
    Pool(p.available + Minted(p.nextId, n, keys), p.issued + Ids(p.nextId, n), p.nextId + n)
  }

  /** `with_low_watermark`: a watermark of zero counts as one. */
  function Initial(low: nat, keys: int -> int): Pool {
    var count := if low == 0 then 1 else low;
    Pool(Minted(1, count, keys), {}, count + 1)
  }

  /** `replenish_to_target`. */
  function Replenish(p: Pool, target: nat, keys: int -> int): Pool {
    if Needed(p, target) == 0 then p else Mint(p, Needed(p, target), keys)
  }

  // ---------------------------------------------------------------- the pool object

  /** Collecting the ids, sorting them and taking the first: the least id, or none. */
  method FirstSorted(ids: set<nat>) returns (id: Option<nat>)
    ensures ids == {} <==> id == None
    ensures id.Some? ==> IsLeast(id.value, ids)
  {
    id := None;
    var rest := ids;
    while rest != {}
      invariant rest <= ids
      invariant id == None ==> rest == ids
      invariant id.Some? ==> id.value in ids && forall k :: k in ids && k !in rest ==> id.value <= k
      decreases |rest|
    {
      var k :| k in rest;
      if id == None || k < id.value { id := Some(k); }
      rest := rest - {k};
    }
  }

  lemma MintedStep(first: nat, count: nat, keys: int -> int)
    ensures Minted(first, count + 1, keys) == Minted(first, count, keys)[first + count := Record(first + count, keys(first + count))]
  {}

  lemma {:induction false} ByIdOfMinted(rs: seq<Record>, first: nat, keys: int -> int)
    requires forall i :: 0 <= i < |rs| ==> rs[i] == Record(first + i, keys(first + i))
    ensures ById(rs) == Minted(first, |rs|, keys)
  {
    if rs != [] { ByIdOfMinted(rs[..|rs| - 1], first, keys); }
  }

  lemma {:induction false} ByIdAppend(a: seq<Record>, b: seq<Record>)
    ensures ById(a + b) == ById(a) + ById(b)
  {
    if b == [] {
      assert a + b == a;
    } else {
      ByIdAppend(a, b[..|b| - 1]);
      assert (a + b)[..|a + b| - 1] == a + b[..|b| - 1];
    }
  }

  class ReplenishablePool {
    var inner: OneTimePreKeyPool
    const capacity: nat
    const lowWatermark: nat
    var nextId: nat
    var issued: set<nat>

    ghost function Value(): Pool
      reads this, inner
    {
      Pool(inner.available, issued, nextId)
    }

    /** Records are filed under their own ids. */
    ghost predicate Valid()
      reads this, inner
    {
      forall k :: k in inner.available ==> inner.available[k].id == k
    }

    constructor WithLowWatermark(low: nat, keys: int -> int)
      requires low < U32_MAX
      ensures Valid() && fresh(inner)
      ensures Value() == Initial(low, keys) && capacity == lowWatermark == |Value().available|
    {
      var count := if low == 0 then 1 else low;
      var records := Generate(1, count, keys);
      ByIdOfMinted(records, 1, keys);
      MintedSize(1, count, keys);
      inner := new OneTimePreKeyPool(records);
      capacity, lowWatermark := count, count;
      nextId := count + 1;
      issued := {};
    }

    method TakeOneTime() returns (record: Option<Record>)
      requires Valid()
      modifies this, inner
      ensures Valid() && inner == old(inner)
      ensures old(inner.available) == map[] ==> record == None && Value() == old(Value())
      ensures old(inner.available) != map[] ==>
                exists id :: IsLeast(id, old(inner.available).Keys) && (Value(), record) == TakeId(old(Value()), id)
    {
      var id := FirstSorted(inner.available.Keys);
      if id == None { return None; }
      var taken := inner.Take(id.value);
      issued := issued + {id.value};
      record := Some(taken.record);
      assert IsLeast(id.value, old(inner.available).Keys);
    }

    /** The inner pool is rebuilt from all records, so its record of what was consumed starts empty again. */
    method ReplenishToTarget(target: nat, keys: int -> int)
      requires Valid() && nextId + Needed(Value(), target) <= U32_MAX
      modifies this
      ensures Valid() && Value() == Replenish(old(Value()), target, keys)
      ensures inner == old(inner) || (fresh(inner) && inner.consumed == {})
    {
      var needed := if target > |inner.available| then target - |inner.available| else 0;
      if needed == 0 { return; }
      var newRecords := Generate(nextId, needed, keys);
      ghost var first := nextId;
      Reserve(newRecords, first, keys);
      var allRecords := Values();
      ByIdOfMinted(newRecords, first, keys);
      ByIdAppend(allRecords, newRecords);
      inner := new OneTimePreKeyPool(allRecords + newRecords);
    }

    /** Each new id is marked as issued and `next_id` moves past it. */
    method Reserve(records: seq<Record>, ghost first: nat, ghost keys: int -> int)
      requires first == nextId && first + |records| <= U32_MAX
      requires forall i :: 0 <= i < |records| ==> records[i] == Record(first + i, keys(first + i))
      modifies this`nextId, this`issued
      ensures nextId == first + |records| && issued == old(issued) + Ids(first, |records|)
    {
      for i := 0 to |records|
        invariant nextId == first + i
        invariant issued == old(issued) + Ids(first, i)
      {
        var id := records[i].id;
        assert Ids(first, i + 1) == Ids(first, i) + {first + i};
        issued := issued + {id};
        nextId := Max(SaturatingIncrement(nextId), id + 1);
      }
    }

    /** The available records in some order. */
    method Values() returns (records: seq<Record>)
      requires Valid()
      ensures ById(records) == inner.available
    {
      records := [];
      var rest := inner.available.Keys;
      while rest != {}
        invariant rest <= inner.available.Keys
        invariant ById(records) == inner.available - rest
        decreases |rest|
      {
        var k :| k in rest;
        records := records + [inner.available[k]];
        assert records[..|records| - 1] + [inner.available[k]] == records;
        rest := rest - {k};
      }
    }
  }

  // ---------------------------------------------------------------- two counters

  datatype Op = Take | Refill(target: nat)

  /** Ids 1 to `first` were there from the start. */
  datatype Counters = Counters(first: nat, minted: nat, taken: nat, outs: seq<Option<nat>>)

  /** The whole behaviour of the pool, by counting: ids 1 to `minted` exist, ids 1 to `taken` are gone. */
  function Count(c: Counters, op: Op): (d: Counters)
    requires c.taken <= c.minted && c.first <= c.minted
    ensures d.taken <= d.minted && d.first <= d.minted
  {
    match op
    case Take =>
      if c.taken == c.minted then c.(outs := c.outs + [None])
      else c.(taken := c.taken + 1, outs := c.outs + [Some(c.taken + 1)])
    case Refill(t) => c.(minted := if t > c.minted - c.taken then c.taken + t else c.minted)
  }

  function RunCounters(low: nat, ops: seq<Op>): (c: Counters)
    ensures c.taken <= c.minted && c.first <= c.minted
  {
    if ops == [] then Counters(if low == 0 then 1 else low, if low == 0 then 1 else low, 0, [])
    else Count(RunCounters(low, ops[..|ops| - 1]), ops[|ops| - 1])
  }

  ghost function LeastOf(s: set<nat>): (m: nat)
    requires s != {}
    ensures IsLeast(m, s)
  {
    LeastExists(s);
    var m :| IsLeast(m, s);
    m
  }

  datatype PoolRun = PoolRun(pool: Pool, outs: seq<Option<Record>>)

  ghost function Operate(r: PoolRun, keys: int -> int, op: Op): PoolRun {
    match op
    case Take =>
      if r.pool.available == map[] then r.(outs := r.outs + [None])
      else
        var t := TakeId(r.pool, LeastOf(r.pool.available.Keys));
        PoolRun(t.0, r.outs + [t.1])
    case Refill(target) => r.(pool := Replenish(r.pool, target, keys))
  }

  /** The run of the pool itself. */
  ghost function RunPool(low: nat, keys: int -> int, ops: seq<Op>): PoolRun {
    if ops == [] then PoolRun(Initial(low, keys), [])
    else Operate(RunPool(low, keys, ops[..|ops| - 1]), keys, ops[|ops| - 1])
  }

  function RecordOf(id: Option<nat>, keys: int -> int): Option<Record> {
    if id == None then None else Some(Record(id.value, keys(id.value)))
  }

  lemma {:induction false} MintedSize(first: nat, count: nat, keys: int -> int)
    ensures |Minted(first, count, keys)| == count
  {
    if count == 0 {
      assert Minted(first, 0, keys) == map[];
    } else {
      MintedSize(first, count - 1, keys);
      MintedStep(first, count - 1, keys);
    }
  }

  /** Taking from a contiguous range removes its first id. */
  lemma TakeFromRange(first: nat, count: nat, keys: int -> int)
    requires count > 0
    ensures var m := Minted(first, count, keys);
            && m != map[] && first in m && m[first] == Record(first, keys(first))
            && LeastOf(m.Keys) == first && m - {first} == Minted(first + 1, count - 1, keys)
  {
    assert first in Minted(first, count, keys);
  }

  lemma JoinRanges(first: nat, a: nat, b: nat, keys: int -> int)
    ensures Minted(first, a, keys) + Minted(first + a, b, keys) == Minted(first, a + b, keys)
  {}

  ghost predicate Refines(r: PoolRun, c: Counters, keys: int -> int)
    requires c.taken <= c.minted
  {
    && r.pool.available == Minted(c.taken + 1, c.minted - c.taken, keys) && r.pool.nextId == c.minted + 1
    && |r.pool.available| == c.minted - c.taken
    && (forall k :: k in r.pool.issued <==> 1 <= k <= c.taken || c.first < k <= c.minted)
    && |r.outs| == |c.outs| && forall i :: 0 <= i < |c.outs| ==> r.outs[i] == RecordOf(c.outs[i], keys)
  }

  lemma TakeRefines(r: PoolRun, c: Counters, keys: int -> int)
    requires c.taken <= c.minted && c.first <= c.minted && Refines(r, c, keys)
    ensures Refines(Operate(r, keys, Take), Count(c, Take), keys)
  {
    hide Minted;
    if c.taken < c.minted {
      TakeFromRange(c.taken + 1, c.minted - c.taken, keys);
      MintedSize(c.taken + 2, c.minted - c.taken - 1, keys);
    }
  }

  lemma MintRange(p: Pool, first: nat, count: nat, n: nat, keys: int -> int)
    requires p.available == Minted(first, count, keys) && p.nextId == first + count
    ensures Mint(p, n, keys).available == Minted(first, count + n, keys)
  {
    hide Minted;
    hide Ids;
    JoinRanges(first, count, n, keys);
  }

  lemma RefillRefines(r: PoolRun, c: Counters, keys: int -> int, t: nat)
    requires c.taken <= c.minted && c.first <= c.minted && Refines(r, c, keys)
    ensures Refines(Operate(r, keys, Refill(t)), Count(c, Refill(t)), keys)
  {
    hide Minted;
    hide Mint;
    var n := Needed(r.pool, t);
    MintRange(r.pool, c.taken + 1, c.minted - c.taken, n, keys);
    MintedSize(c.taken + 1, c.minted - c.taken + n, keys);
    MintNext(r.pool, n, keys);
  }

  lemma {:induction false} IdsAre(first: nat, count: nat)
    ensures forall k :: k in Ids(first, count) <==> first <= k < first + count
  {
    if count > 0 { IdsAre(first, count - 1); }
  }

  lemma MintNext(p: Pool, n: nat, keys: int -> int)
    ensures Mint(p, n, keys).nextId == p.nextId + n
    ensures forall k :: k in Mint(p, n, keys).issued <==> k in p.issued || p.nextId <= k < p.nextId + n
  {
    IdsAre(p.nextId, n);
  }

  /** Over every run the maps, sets and sort amount to the two counters, outputs included. */
  lemma {:induction false} PoolIsTwoCounters(low: nat, keys: int -> int, ops: seq<Op>)
    ensures Refines(RunPool(low, keys, ops), RunCounters(low, ops), keys)
  {
    if ops == [] {
      MintedSize(1, if low == 0 then 1 else low, keys);
      return;
    }
    hide Refines;
    hide Operate;
    hide Count;
    var init := ops[..|ops| - 1];
    PoolIsTwoCounters(low, keys, init);
    match ops[|ops| - 1]
    case Take => TakeRefines(RunPool(low, keys, init), RunCounters(low, init), keys);
    case Refill(t) => RefillRefines(RunPool(low, keys, init), RunCounters(low, init), keys, t);
  }

  function Successes<T>(outs: seq<Option<T>>): seq<T> {
    if outs == [] then []
    else Successes(outs[..|outs| - 1]) + if outs[|outs| - 1].None? then [] else [outs[|outs| - 1].value]
  }

  lemma {:induction false} CountersAreSequential(low: nat, ops: seq<Op>)
    ensures var c := RunCounters(low, ops);
            |Successes(c.outs)| == c.taken && forall k :: 0 <= k < c.taken ==> Successes(c.outs)[k] == k + 1
  {
    if ops != [] {
      CountersAreSequential(low, ops[..|ops| - 1]);
      var b, c := RunCounters(low, ops[..|ops| - 1]), RunCounters(low, ops);
      if ops[|ops| - 1].Take? { assert c.outs[..|c.outs| - 1] == b.outs; }
    }
  }

  lemma {:induction false} SuccessesOfRecords(ids: seq<Option<nat>>, outs: seq<Option<Record>>, keys: int -> int)
    requires |ids| == |outs| && forall i :: 0 <= i < |ids| ==> outs[i] == RecordOf(ids[i], keys)
    ensures |Successes(outs)| == |Successes(ids)|
    ensures forall k :: 0 <= k < |Successes(ids)| ==> Successes(outs)[k] == Record(Successes(ids)[k], keys(Successes(ids)[k]))
  {
    if ids != [] { SuccessesOfRecords(ids[..|ids| - 1], outs[..|outs| - 1], keys); }
  }

  /**
   Over every run the `k`-th record handed out is the one minted as id `k`: none is skipped and none is handed out
   twice. What was handed out and what remains is all that was minted.
   */
  lemma TakesAreSequential(low: nat, keys: int -> int, ops: seq<Op>)
    ensures var r := RunPool(low, keys, ops);
            var taken := Successes(r.outs);
            && (forall k :: 0 <= k < |taken| ==> taken[k] == Record(k + 1, keys(k + 1)))
            && (forall id :: id in r.pool.available <==> |taken| < id < r.pool.nextId)
            && |taken| + |r.pool.available| == r.pool.nextId - 1
  {
    hide RunPool;
    hide RunCounters;
    PoolIsTwoCounters(low, keys, ops);
    CountersAreSequential(low, ops);
    SuccessesOfRecords(RunCounters(low, ops).outs, RunPool(low, keys, ops).outs, keys);
  }

  /** Refilling to `t` leaves the larger of `t` and what was there, with every untaken record as it was. */
  lemma RefillTopsUp(low: nat, keys: int -> int, ops: seq<Op>, t: nat)
    ensures var p, q := RunPool(low, keys, ops).pool, RunPool(low, keys, ops + [Refill(t)]).pool;
            && |q.available| == (if t > |p.available| then t else |p.available|)
            && forall k :: k in p.available ==> k in q.available && q.available[k] == p.available[k]
  {
    hide RunPool;
    hide RunCounters;
    PoolIsTwoCounters(low, keys, ops);
    PoolIsTwoCounters(low, keys, ops + [Refill(t)]);
    CountersAfterRefill(low, ops, t);
  }

  lemma CountersAfterRefill(low: nat, ops: seq<Op>, t: nat)
    ensures var b, c := RunCounters(low, ops), RunCounters(low, ops + [Refill(t)]);
            c == b.(minted := if t > b.minted - b.taken then b.taken + t else b.minted)
  {
    assert (ops + [Refill(t)])[..|ops|] == ops;
  }
}
