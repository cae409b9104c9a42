/** The per-identity fixed-window rate limiter, relay/src/ratelimit/mod.rs. Times are whole seconds. */
module RateLimiter {
  import opened Bytes

  type Identity = string

  datatype Bucket = Bucket(tokens: nat, start: nat)

  datatype Decision = Admitted | Exceeded(needed: nat, available: nat, retryAfter: nat)

  function Elapsed(now: nat, start: nat): nat {
    if now >= start then now - start else 0
  }

  /** One call against one identity's bucket, if it has one. */
  function Check(cap: nat, w: nat, b: Option<Bucket>, now: nat): (r: (Bucket, Decision))
    requires cap >= 1 && w >= 1
  {
    var found := if b.Some? then b.value else Bucket(cap, now);
    var current := if Elapsed(now, found.start) >= w then Bucket(cap, now) else found;
    if current.tokens == 0 then (current, Exceeded(1, 0, w - Elapsed(now, current.start)))
    else (Bucket(current.tokens - 1, current.start), Admitted)
  }

  class Limiter {
    const capacity: nat
    const window: nat
    var buckets: map<Identity, Bucket>

    ghost predicate Valid() { capacity >= 1 }

    constructor (capacity: nat, window: nat)
      ensures Valid() && buckets == map[] && this.window == window
      ensures this.capacity == if capacity == 0 then 1 else capacity
    {
      this.capacity := if capacity == 0 then 1 else capacity;
      this.window := window;
      buckets := map[];
    }

    method CheckCall(identity: Identity, now: nat) returns (d: Decision)
      requires Valid()
      modifies this
      ensures var r := Check(capacity, if window == 0 then 1 else window, old(Get(buckets, identity)), now);
              buckets == old(buckets)[identity := r.0] && d == r.1
    {
      var windowSecs := if window == 0 then 1 else window;
      if identity !in buckets {
        buckets := buckets[identity := Bucket(capacity, now)];
      }
      if Elapsed(now, buckets[identity].start) >= windowSecs {
        buckets := buckets[identity := Bucket(capacity, now)];
      }
      if buckets[identity].tokens == 0 {
        return Exceeded(1, 0, windowSecs - Elapsed(now, buckets[identity].start));
      }
      buckets := buckets[identity := buckets[identity].(tokens := buckets[identity].tokens - 1)];
      return Admitted;
    }
  }

  // ---------------------------------------------------------------- independence

  datatype Call = Call(identity: Identity, now: nat)

  /** The decisions of a whole limiter over a trace of calls by any identities. */
  function RunAll(cap: nat, w: nat, m: map<Identity, Bucket>, trace: seq<Call>): (ds: seq<Decision>)
    requires cap >= 1 && w >= 1
    ensures |ds| == |trace|
    decreases |trace|
  {
    if trace == [] then []
    else
      var r := Check(cap, w, Get(m, trace[0].identity), trace[0].now);
      [r.1] + RunAll(cap, w, m[trace[0].identity := r.0], trace[1..])
  }

  /** The buckets after a trace. */
  function BucketsAfter(cap: nat, w: nat, m: map<Identity, Bucket>, trace: seq<Call>): map<Identity, Bucket>
    requires cap >= 1 && w >= 1
    decreases |trace|
  {
    if trace == [] then m
    else
      var r := Check(cap, w, Get(m, trace[0].identity), trace[0].now);
      BucketsAfter(cap, w, m[trace[0].identity := r.0], trace[1..])
  }

  lemma {:induction false} RunAllSnoc(cap: nat, w: nat, m: map<Identity, Bucket>, trace: seq<Call>, c: Call)
    requires cap >= 1 && w >= 1
    ensures var m' := BucketsAfter(cap, w, m, trace);
            var r := Check(cap, w, Get(m', c.identity), c.now);
            && BucketsAfter(cap, w, m, trace + [c]) == m'[c.identity := r.0]
            && RunAll(cap, w, m, trace + [c]) == RunAll(cap, w, m, trace) + [r.1]
    decreases |trace|
  {
    hide Check;
    if trace == [] {
      assert trace + [c] == [c] && [c][1..] == [];
    } else {
      var r := Check(cap, w, Get(m, trace[0].identity), trace[0].now);
      RunAllSnoc(cap, w, m[trace[0].identity := r.0], trace[1..], c);
      assert (trace + [c])[1..] == trace[1..] + [c];
    }
  }

  /** The decisions for one identity that is alone with its own calls. */
  function Replay(cap: nat, w: nat, b: Option<Bucket>, times: seq<nat>): (ds: seq<Decision>)
    requires cap >= 1 && w >= 1
    ensures |ds| == |times|
    decreases |times|
  {
    if times == [] then []
    else
      var r := Check(cap, w, b, times[0]);
      [r.1] + Replay(cap, w, Some(r.0), times[1..])
  }

  function OwnTimes(trace: seq<Call>, id: Identity): seq<nat> {
    if trace == [] then []
    else (if trace[0].identity == id then [trace[0].now] else []) + OwnTimes(trace[1..], id)
  }

  lemma {:induction false} OwnTimesSnoc(trace: seq<Call>, c: Call, id: Identity)
    ensures OwnTimes(trace + [c], id) == OwnTimes(trace, id) + if c.identity == id then [c.now] else []
  {
    if trace == [] {
      assert trace + [c] == [c] && [c][1..] == [];
    } else {
      OwnTimesSnoc(trace[1..], c, id);
      assert (trace + [c])[1..] == trace[1..] + [c];
    }
  }

  function OwnDecisions(trace: seq<Call>, ds: seq<Decision>, id: Identity): seq<Decision>
    requires |trace| == |ds|
  {
    if trace == [] then []
    else (if trace[0].identity == id then [ds[0]] else []) + OwnDecisions(trace[1..], ds[1..], id)
  }

  /** What an identity is told depends on its own calls alone. */
  lemma {:induction false} Independence(cap: nat, w: nat, m: map<Identity, Bucket>, trace: seq<Call>, id: Identity)
    requires cap >= 1 && w >= 1
    ensures OwnDecisions(trace, RunAll(cap, w, m, trace), id) == Replay(cap, w, Get(m, id), OwnTimes(trace, id))
    decreases |trace|
  {
    hide Check;
    if trace != [] {
      var c, rest := trace[0], trace[1..];
      var r := Check(cap, w, Get(m, c.identity), c.now);
      var m' := m[c.identity := r.0];
      Independence(cap, w, m', rest, id);
      assert RunAll(cap, w, m, trace)[1..] == RunAll(cap, w, m', rest);
      if c.identity == id {
        assert OwnTimes(trace, id)[1..] == OwnTimes(rest, id);
        assert Get(m', id) == Some(r.0);
      } else {
        assert Get(m', id) == Get(m, id);
        assert OwnTimes(trace, id) == OwnTimes(rest, id);
      }
    }
  }

  // ---------------------------------------------------------------- decisions without buckets

  function StateFrom(cap: nat, w: nat, b: Option<Bucket>, times: seq<nat>): Option<Bucket>
    requires cap >= 1 && w >= 1
  {
    if times == [] then b
    else Some(Check(cap, w, StateFrom(cap, w, b, times[..|times| - 1]), times[|times| - 1]).0)
  }

  lemma {:induction false} StateShift(cap: nat, w: nat, b: Option<Bucket>, times: seq<nat>)
    requires cap >= 1 && w >= 1 && times != []
    ensures StateFrom(cap, w, b, times) == StateFrom(cap, w, Some(Check(cap, w, b, times[0]).0), times[1..])
  {
    hide Check;
    var init := times[..|times| - 1];
    if init == [] {
      assert times[1..] == [];
    } else {
      StateShift(cap, w, b, init);
      assert init[1..] == times[1..][..|times| - 2];
    }
  }

  lemma {:induction false} ReplayAt(cap: nat, w: nat, b: Option<Bucket>, times: seq<nat>, i: nat)
    requires cap >= 1 && w >= 1 && i < |times|
    ensures Replay(cap, w, b, times)[i] == Check(cap, w, StateFrom(cap, w, b, times[..i]), times[i]).1
    decreases i
  {
    hide Check;
    if i > 0 {
      var c := Some(Check(cap, w, b, times[0]).0);
      ReplayAt(cap, w, c, times[1..], i - 1);
      StateShift(cap, w, b, times[..i]);
      assert times[..i][1..] == times[1..][..i - 1];
    }
  }

  /** The call that opened the window of call `i`: the first one, or one stamped a whole window after the opener before. */
  function Opener(w: nat, times: seq<nat>, i: nat): (o: nat)
    requires i < |times|
    ensures o <= i
  {
    if i == 0 then 0
    else
      var o := Opener(w, times, i - 1);
      if times[i] >= times[o] + w then i else o
  }

  lemma {:induction false} BucketByOpener(cap: nat, w: nat, times: seq<nat>, i: nat)
    requires cap >= 1 && w >= 1 && i < |times|
    ensures var o := Opener(w, times, i);
            StateFrom(cap, w, None, times[..i + 1])
            == Some(Bucket(if i + 1 - o < cap then cap - (i + 1 - o) else 0, times[o]))
  {
    assert times[..i + 1][..i] == times[..i];
    if i > 0 { BucketByOpener(cap, w, times, i - 1); }
  }

  /**
   The limiter in terms of the calls alone: a call is admitted if and only if it is among the first `cap` calls from the
   one that opened its window; any other is told how much of that window is left.
   */
  lemma DecisionByOpener(cap: nat, w: nat, times: seq<nat>, i: nat)
    requires cap >= 1 && w >= 1 && i < |times|
    ensures var o := Opener(w, times, i);
            Replay(cap, w, None, times)[i]
            == if i - o < cap then Admitted
               else Exceeded(1, 0, if times[i] >= times[o] then times[o] + w - times[i] else w)
  {
    ReplayAt(cap, w, None, times, i);
    if i > 0 { BucketByOpener(cap, w, times, i - 1); }
  }

  // ---------------------------------------------------------------- windows

  /** The bucket after a prefix of an identity's calls. */
  function After(cap: nat, w: nat, b: Bucket, times: seq<nat>): Bucket
    requires cap >= 1 && w >= 1
    decreases |times|
  {
    if times == [] then b else After(cap, w, Check(cap, w, Some(b), times[0]).0, times[1..])
  }

  /** Window starts are at least a window apart, for any times at all, even unordered ones. */
  lemma {:induction false} WindowStartsApart(cap: nat, w: nat, b: Bucket, times: seq<nat>)
    requires cap >= 1 && w >= 1
    ensures var e := After(cap, w, b, times); e.start == b.start || e.start >= b.start + w
    decreases |times|
  {
    if times != [] {
      WindowStartsApart(cap, w, Check(cap, w, Some(b), times[0]).0, times[1..]);
    }
  }

  predicate NonDecreasing(times: seq<nat>) {
    forall i, j :: 0 <= i < j < |times| ==> times[i] <= times[j]
  }

  /** How many calls with `lo <= time < hi` were admitted. */
  function AdmittedIn(cap: nat, w: nat, b: Option<Bucket>, times: seq<nat>, lo: nat, hi: nat): nat
    requires cap >= 1 && w >= 1
    decreases |times|
  {
    if times == [] then 0
    else
      var r := Check(cap, w, b, times[0]);
      (if r.1 == Admitted && lo <= times[0] < hi then 1 else 0)
      + AdmittedIn(cap, w, Some(r.0), times[1..], lo, hi)
  }

  function CountAdmitted(times: seq<nat>, ds: seq<Decision>, lo: nat, hi: nat): nat
    requires |times| == |ds|
  {
    if times == [] then 0
    else (if ds[0] == Admitted && lo <= times[0] < hi then 1 else 0) + CountAdmitted(times[1..], ds[1..], lo, hi)
  }

  lemma {:induction false} AdmittedInCounts(cap: nat, w: nat, b: Option<Bucket>, times: seq<nat>, lo: nat, hi: nat)
    requires cap >= 1 && w >= 1
    ensures CountAdmitted(times, Replay(cap, w, b, times), lo, hi) == AdmittedIn(cap, w, b, times, lo, hi)
    decreases |times|
  {
    hide Check;
    if times != [] {
      var r := Check(cap, w, b, times[0]);
      AdmittedInCounts(cap, w, Some(r.0), times[1..], lo, hi);
      assert Replay(cap, w, b, times)[1..] == Replay(cap, w, Some(r.0), times[1..]);
    }
  }

  // ---------------------------------------------------------------- the sliding-interval bound

  /** A full budget for each whole window in `n` seconds. */
  function Budget(cap: nat, n: nat, w: nat): nat
    requires w >= 1
  {
    if n < w then 0 else cap + Budget(cap, n - w, w)
  }

  lemma {:induction false} BudgetClosedForm(cap: nat, n: nat, w: nat)
    requires w >= 1
    ensures Budget(cap, n, w) == cap * (n / w)
  {
    if n >= w {
      BudgetClosedForm(cap, n - w, w);
      QuotientStep(n, w);
      assert cap * (1 + (n - w) / w) == cap + cap * ((n - w) / w);
    }
  }

  lemma QuotientStep(n: nat, w: nat)
    requires 1 <= w <= n
    ensures n / w == 1 + (n - w) / w && n % w == (n - w) % w
  {
    var q, r := (n - w) / w, (n - w) % w;
    assert n == (q + 1) * w + r by { OneMoreTimes(w, q); }
    assert n == n / w * w + n % w;
    UniqueQuotient(n / w, n % w, q + 1, r, w);
  }

  lemma UniqueQuotient(p: nat, r: nat, q: nat, t: nat, w: nat)
    requires p * w + r == q * w + t && r < w && t < w
    ensures p == q && r == t
  {
    if p < q { Apart(p, q, w); } else if q < p { Apart(q, p, w); }
  }

  lemma Apart(p: nat, q: nat, w: nat)
    requires p < q
    ensures p * w + w <= q * w
  {
    assert q * w == p * w + (q - p) * w;
    assert (q - p - 1) * w >= 0;
  }

  /** The most admissions any interval of `len` seconds can see. */
  function MostAdmitted(cap: nat, w: nat, len: nat): nat
    requires cap >= 1 && w >= 1 && len >= 1
  {
    cap + Budget(cap, len - 1, w) + if (len - 1) % w == 0 then 0 else cap - 1
  }

  predicate AllFrom(times: seq<nat>, t: nat) { forall i :: 0 <= i < |times| ==> t <= times[i] }

  /** No call that is stamped before the start of the bucket it lands in finds a token there. */
  predicate Timely(cap: nat, w: nat, b: Option<Bucket>, times: seq<nat>)
    requires cap >= 1 && w >= 1
    decreases |times|
  {
    times == [] ||
    (&& (b.Some? && times[0] < b.value.start ==> b.value.tokens == 0)
     && Timely(cap, w, Some(Check(cap, w, b, times[0]).0), times[1..]))
  }

  lemma {:induction false} NothingAfter(cap: nat, w: nat, b: Bucket, times: seq<nat>, lo: nat, hi: nat)
    requires cap >= 1 && w >= 1 && b.start >= hi && Timely(cap, w, Some(b), times)
    ensures AdmittedIn(cap, w, Some(b), times, lo, hi) == 0
    decreases |times|
  {
    if times != [] { NothingAfter(cap, w, Check(cap, w, Some(b), times[0]).0, times[1..], lo, hi); }
  }

  lemma {:induction false} BudgetMonotone(cap: nat, a: nat, b: nat, w: nat)
    requires w >= 1 && a <= b
    ensures Budget(cap, a, w) <= Budget(cap, b, w)
  {
    if a >= w { BudgetMonotone(cap, a - w, b - w, w); }
  }

  /** From a bucket on, at most its own tokens plus a full budget for every later window that fits before `hi`. */
  lemma {:induction false} FromBucket(cap: nat, w: nat, b: Bucket, times: seq<nat>, lo: nat, hi: nat)
    requires cap >= 1 && w >= 1 && b.tokens <= cap && b.start < hi && Timely(cap, w, Some(b), times)
    ensures AdmittedIn(cap, w, Some(b), times, lo, hi) <= b.tokens + Budget(cap, hi - 1 - b.start, w)
    decreases |times|
  {
    if times == [] { return; }
    var t, rest := times[0], times[1..];
    var c := Check(cap, w, Some(b), t).0;
    if t < b.start + w {
      FromBucket(cap, w, c, rest, lo, hi);
    } else if t >= hi {
      NothingAfter(cap, w, c, rest, lo, hi);
    } else {
      FromBucket(cap, w, c, rest, lo, hi);
      BudgetMonotone(cap, hi - 1 - t, hi - 1 - b.start - w, w);
    }
  }

  lemma {:induction false} PartialWindow(cap: nat, n: nat, gap: nat, w: nat)
    requires w >= 1 && gap < w
    ensures Budget(cap, n + gap, w) <= Budget(cap, n, w) + (if n % w == 0 then 0 else cap)
  {
    if n >= w {
      PartialWindow(cap, n - w, gap, w);
      QuotientStep(n, w);
    }
  }

  lemma {:induction false} SlidingFrom(cap: nat, w: nat, b: Option<Bucket>, times: seq<nat>, lo: nat, hi: nat)
    requires cap >= 1 && w >= 1 && lo < hi && Timely(cap, w, b, times)
    requires b.Some? ==> b.value.tokens < cap && b.value.start < lo
    ensures AdmittedIn(cap, w, b, times, lo, hi) <= MostAdmitted(cap, w, hi - lo)
    decreases |times|
  {
    if times == [] { return; }
    hide Budget;
    var t, rest := times[0], times[1..];
    var c := Check(cap, w, b, t).0;
    if t < lo {
      SlidingFrom(cap, w, Some(c), rest, lo, hi);
    } else if b.Some? && t - b.value.start < w {
      if t >= hi {
        SlidingFrom(cap, w, Some(c), rest, lo, hi);
      } else {
        // The first admission falls in a window opened earlier, so one token of it is already spent.
        FromBucket(cap, w, b.value, times, lo, hi);
        PartialWindow(cap, hi - lo - 1, lo - b.value.start, w);
        assert hi - 1 - b.value.start == hi - lo - 1 + (lo - b.value.start);
      }
    } else if t >= hi {
      NothingAfter(cap, w, c, rest, lo, hi);
    } else {
      FromBucket(cap, w, c, rest, lo, hi);
      BudgetMonotone(cap, hi - 1 - t, hi - lo - 1, w);
    }
  }

  /** While calls are timely, no interval admits more than `MostAdmitted`. */
  lemma SlidingBound(cap: nat, w: nat, times: seq<nat>, lo: nat, hi: nat)
    requires cap >= 1 && w >= 1 && lo < hi && Timely(cap, w, None, times)
    ensures CountAdmitted(times, Replay(cap, w, None, times), lo, hi) <= MostAdmitted(cap, w, hi - lo)
    ensures CountAdmitted(times, Replay(cap, w, None, times), lo, hi) <= cap * ((hi - lo + w - 1) / w + 1)
  {
    hide Timely;
    SlidingFrom(cap, w, None, times, lo, hi);
    AdmittedInCounts(cap, w, None, times, lo, hi);
    CoarseBound(cap, w, hi - lo);
  }

  /** Calls whose times do not go back, as the source asks of its callers, are timely. */
  lemma {:induction false} OrderedIsTimely(cap: nat, w: nat, b: Option<Bucket>, times: seq<nat>)
    requires cap >= 1 && w >= 1 && NonDecreasing(times) && (b.Some? ==> AllFrom(times, b.value.start))
    ensures Timely(cap, w, b, times)
    decreases |times|
  {
    if times != [] { OrderedIsTimely(cap, w, Some(Check(cap, w, b, times[0]).0), times[1..]); }
  }

  /** With a capacity of one any calls are timely: the call that opens a window takes its only token. */
  lemma {:induction false} SingleIsTimely(w: nat, b: Option<Bucket>, times: seq<nat>)
    requires w >= 1 && (b.Some? ==> b.value.tokens == 0)
    ensures Timely(1, w, b, times)
    decreases |times|
  {
    if times != [] { SingleIsTimely(w, Some(Check(1, w, b, times[0]).0), times[1..]); }
  }

  lemma CoarseBound(cap: nat, w: nat, len: nat)
    requires cap >= 1 && w >= 1 && len >= 1
    ensures MostAdmitted(cap, w, len) <= cap * ((len + w - 1) / w + 1)
  {
    var n := len + w - 1;
    BudgetClosedForm(cap, n, w);
    assert Budget(cap, n, w) == cap + Budget(cap, len - 1, w);
    OneMoreTimes(cap, n / w);
  }

  lemma OneMoreTimes(cap: nat, x: nat)
    ensures cap * (x + 1) == cap * x + cap
  {}

  // ---------------------------------------------------------------- the bound is attained

  function Burst(t: nat, n: nat): seq<nat> {
    if n == 0 then [] else [t] + Burst(t, n - 1)
  }

  lemma {:induction false} BurstSnoc(t: nat, n: nat)
    ensures Burst(t, n) + [t] == Burst(t, n + 1)
  {
    if n > 0 { BurstSnoc(t, n - 1); }
  }

  /** A full budget at `t` and again after every whole window within the next `n` seconds. */
  function Bursts(cap: nat, w: nat, t: nat, n: nat): seq<nat>
    requires w >= 1
    decreases n
  {
    Burst(t, cap) + if n < w then [] else Bursts(cap, w, t + w, n - w)
  }

  lemma AdmitOne(cap: nat, w: nat, b: Bucket, times: seq<nat>, lo: nat, hi: nat)
    requires cap >= 1 && times != [] && b.tokens >= 1 && b.start <= times[0] < b.start + w && lo <= times[0] < hi
    ensures AdmittedIn(cap, w, Some(b), times, lo, hi)
         == 1 + AdmittedIn(cap, w, Some(Bucket(b.tokens - 1, b.start)), times[1..], lo, hi)
  {
  }

  lemma AdmitFirst(cap: nat, w: nat, b: Option<Bucket>, times: seq<nat>, lo: nat, hi: nat)
    requires cap >= 1 && w >= 1 && times != [] && lo <= times[0] < hi
    requires b.Some? ==> b.value.start + w <= times[0]
    ensures AdmittedIn(cap, w, b, times, lo, hi)
         == 1 + AdmittedIn(cap, w, Some(Bucket(cap - 1, times[0])), times[1..], lo, hi)
  {
  }

  lemma BurstSplit(t: nat, n: nat, rest: seq<nat>)
    ensures n == 0 ==> Burst(t, n) + rest == rest
    ensures n > 0 ==> Burst(t, n) + rest == [t] + (Burst(t, n - 1) + rest)
  {
  }

  lemma {:induction false} BurstAdmitted(cap: nat, w: nat, b: Bucket, t: nat, n: nat, rest: seq<nat>, lo: nat, hi: nat)
    requires cap >= 1 && n <= b.tokens && b.start <= t < b.start + w && lo <= t < hi
    ensures AdmittedIn(cap, w, Some(b), Burst(t, n) + rest, lo, hi)
         == n + AdmittedIn(cap, w, Some(Bucket(b.tokens - n, b.start)), rest, lo, hi)
    decreases n
  {
    hide AdmittedIn;
    hide Burst;
    BurstSplit(t, n, rest);
    if n > 0 {
      BurstAdmitted(cap, w, Bucket(b.tokens - 1, b.start), t, n - 1, rest, lo, hi);
      var later := Burst(t, n - 1) + rest;
      AdmitOne(cap, w, b, [t] + later, lo, hi);
      assert ([t] + later)[1..] == later;
    }
  }

  lemma FreshWindow(cap: nat, w: nat, b: Option<Bucket>, t: nat, rest: seq<nat>, lo: nat, hi: nat)
    requires cap >= 1 && w >= 1 && lo <= t < hi
    requires b.Some? ==> b.value.start + w <= t
    ensures AdmittedIn(cap, w, b, Burst(t, cap) + rest, lo, hi)
         == cap + AdmittedIn(cap, w, Some(Bucket(0, t)), rest, lo, hi)
  {
    hide AdmittedIn;
    hide Burst;
    BurstSplit(t, cap, rest);
    var later := Burst(t, cap - 1) + rest;
    AdmitFirst(cap, w, b, [t] + later, lo, hi);
    assert ([t] + later)[1..] == later;
    BurstAdmitted(cap, w, Bucket(cap - 1, t), t, cap - 1, rest, lo, hi);
  }

  /** A full budget at time 0, one call that opens the next window, and one more that was stamped at time 0. */
  function LateReturn(cap: nat, w: nat): seq<nat> { Burst(0, cap) + [w, 0] }

  /** Untimely calls exceed the bound, whatever the window, as soon as a window has a second token. */
  lemma LateReturnExceeds(cap: nat, w: nat)
    requires cap >= 2 && w >= 1
    ensures CountAdmitted(LateReturn(cap, w), Replay(cap, w, None, LateReturn(cap, w)), 0, 1) > MostAdmitted(cap, w, 1)
  {
    AdmittedInCounts(cap, w, None, LateReturn(cap, w), 0, 1);
    FreshWindow(cap, w, None, 0, [w, 0], 0, 1);
    hide Burst;
    assert [w, 0][1..] == [0] && [0][1..] == [];
    assert AdmittedIn(cap, w, Some(Bucket(0, 0)), [w, 0], 0, 1) == AdmittedIn(cap, w, Some(Bucket(cap - 1, w)), [0], 0, 1);
  }

  /** The bound holds for all calls whatever their stamps exactly when the capacity is one. */
  lemma AnyTimesBoundIff(cap: nat, w: nat)
    requires cap >= 1 && w >= 1
    ensures (forall times, lo: nat, hi: nat | lo < hi ::
               CountAdmitted(times, Replay(cap, w, None, times), lo, hi) <= MostAdmitted(cap, w, hi - lo))
       <==> cap == 1
  {
    hide *;
    if cap == 1 {
      forall times, lo: nat, hi: nat | lo < hi
        ensures CountAdmitted(times, Replay(cap, w, None, times), lo, hi) <= MostAdmitted(cap, w, hi - lo)
      {
        SingleIsTimely(w, None, times);
        SlidingBound(cap, w, times, lo, hi);
      }
    } else {
      LateReturnExceeds(cap, w);
    }
  }

  lemma {:induction false} BurstsAdmitted(cap: nat, w: nat, b: Option<Bucket>, t: nat, n: nat, lo: nat, hi: nat)
    requires cap >= 1 && w >= 1 && lo <= t && t + n < hi
    requires b.Some? ==> b.value.start + w <= t
    ensures AdmittedIn(cap, w, b, Bursts(cap, w, t, n), lo, hi) == cap + Budget(cap, n, w)
    decreases n
  {
    var rest := if n < w then [] else Bursts(cap, w, t + w, n - w);
    if n >= w { BurstsAdmitted(cap, w, Some(Bucket(0, t)), t + w, n - w, lo, hi); }
    FreshWindow(cap, w, b, t, rest, lo, hi);
  }

  lemma {:induction false} BurstOrdered(t: nat, n: nat)
    ensures forall x :: x in Burst(t, n) ==> x == t
  {
    if n > 0 { BurstOrdered(t, n - 1); }
  }

  lemma {:induction false} BurstsOrdered(cap: nat, w: nat, t: nat, n: nat)
    requires w >= 1
    ensures NonDecreasing(Bursts(cap, w, t, n)) && AllFrom(Bursts(cap, w, t, n), t)
    decreases n
  {
    BurstOrdered(t, cap);
    if n >= w { BurstsOrdered(cap, w, t + w, n - w); }
    var head := Burst(t, cap);
    forall i | 0 <= i < |head| ensures head[i] == t { assert head[i] in head; }
  }

  lemma {:induction false} BudgetOfMultiple(cap: nat, n: nat, w: nat)
    requires w >= 1
    ensures n % w <= n && Budget(cap, n - n % w, w) == Budget(cap, n, w)
  {
    if n >= w {
      QuotientStep(n, w);
      BudgetOfMultiple(cap, n - w, w);
    }
  }

  /** A call at time 0 opens a window; the rest of its budget is spent just before it closes, then full budgets follow. */
  lemma LateStart(cap: nat, w: nat, len: nat, r: nat) returns (times: seq<nat>)
    requires cap >= 1 && w >= 1 && len >= 1 && r == (len - 1) % w && r > 0
    ensures NonDecreasing(times)
    ensures AdmittedIn(cap, w, None, times, w - r, w - r + len) == cap - 1 + (cap + Budget(cap, len - 1, w))
  {
    BudgetOfMultiple(cap, len - 1, w);
    var lo, n := w - r, len - 1 - r;
    LateBursts(cap, w, lo, n);
    BurstsAdmitted(cap, w, Some(Bucket(0, 0)), w, n, lo, lo + len);
    var late := Bursts(cap, w, w, n);
    BurstAdmitted(cap, w, Bucket(cap - 1, 0), lo, cap - 1, late, lo, lo + len);
    hide Budget;
    hide Bursts;
    hide Burst;
    var later := Burst(lo, cap - 1) + late;
    times := [0] + later;
    OutsideFirst(cap, w, times, lo, lo + len);
    assert times[1..] == later;
  }

  lemma OutsideFirst(cap: nat, w: nat, times: seq<nat>, lo: nat, hi: nat)
    requires cap >= 1 && w >= 1 && times != [] && times[0] < lo
    ensures AdmittedIn(cap, w, None, times, lo, hi) == AdmittedIn(cap, w, Some(Bucket(cap - 1, times[0])), times[1..], lo, hi)
  {
  }

  /** For every configuration and interval length some ordered trace reaches the bound exactly. */
  lemma BoundAttained(cap: nat, w: nat, len: nat) returns (times: seq<nat>, lo: nat)
    requires cap >= 1 && w >= 1 && len >= 1
    ensures NonDecreasing(times)
    ensures CountAdmitted(times, Replay(cap, w, None, times), lo, lo + len) == MostAdmitted(cap, w, len)
  {
    hide Budget;
    hide AdmittedIn;
    hide CountAdmitted;
    hide Replay;
    hide Bursts;
    hide NonDecreasing;
    var r := (len - 1) % w;
    if r == 0 {
      lo := 0;
      times := Bursts(cap, w, 0, len - 1);
      BurstsAdmitted(cap, w, None, 0, len - 1, 0, len);
      BurstsOrdered(cap, w, 0, len - 1);
    } else {
      lo := w - r;
      times := LateStart(cap, w, len, r);
    }
    AdmittedInCounts(cap, w, None, times, lo, lo + len);
  }

  lemma LateBursts(cap: nat, w: nat, lo: nat, n: nat)
    requires cap >= 1 && lo < w
    ensures NonDecreasing([0] + (Burst(lo, cap - 1) + Bursts(cap, w, w, n)))
  {
    hide Bursts;
    BurstsOrdered(cap, w, w, n);
    BurstOrdered(lo, cap - 1);
    var head := Burst(lo, cap - 1);
    forall i | 0 <= i < |head| ensures head[i] == lo { assert head[i] in head; }
  }

  // ---------------------------------------------------------------- retry_after

  lemma {:induction false} SpentBucket(cap: nat, w: nat, s: nat, waits: seq<nat>, next: nat)
    requires cap >= 1 && w >= 1 && next >= s + w
    requires forall i :: 0 <= i < |waits| ==> s <= waits[i] < s + w
    ensures var ds := Replay(cap, w, Some(Bucket(0, s)), waits + [next]);
            && (forall i :: 0 <= i < |waits| ==> ds[i] == Exceeded(1, 0, s + w - waits[i]))
            && ds[|waits|] == Admitted
    decreases |waits|
  {
    if waits != [] {
      SpentBucket(cap, w, s, waits[1..], next);
      assert (waits + [next])[1..] == waits[1..] + [next];
    }
  }

  /** After a refusal at `t` every call before `t + retryAfter` is refused and the first one from then on admitted. */
  lemma RetryAfterExact(cap: nat, w: nat, b: Option<Bucket>, t: nat, waits: seq<nat>, next: nat)
    requires cap >= 1 && w >= 1 && (b.Some? ==> b.value.start <= t)
    requires Check(cap, w, b, t).1.Exceeded?
    requires var until := t + Check(cap, w, b, t).1.retryAfter;
             next >= until && forall i :: 0 <= i < |waits| ==> t <= waits[i] < until
    ensures var until := t + Check(cap, w, b, t).1.retryAfter;
            var ds := Replay(cap, w, Some(Check(cap, w, b, t).0), waits + [next]);
            && until > t
            && (forall i :: 0 <= i < |waits| ==> ds[i] == Exceeded(1, 0, until - waits[i]))
            && ds[|waits|] == Admitted
  {
    SpentBucket(cap, w, Check(cap, w, b, t).0.start, waits, next);
  }
}
