// The token bucket that limits failed authentications
// (relay/server/src/tokenBucket.ts), over real numbers.
module TokenBucketSpec {
  import opened Options

  datatype Limits = Limits(capacity: real, refillPerMs: real, blockMs: real)

  datatype Bucket = Bucket(tokens: real, lastRefillMs: real, blockedUntilMs: real)

  function Min(x: real, y: real): (r: real) {
    if x <= y then x else y
  }

  /** A bucket whose block has run out is full again; otherwise it gains tokens with time. */
  function Refilled(l: Limits, b: Bucket, now: real): (r: Bucket) {
    var c := if b.blockedUntilMs != 0.0 && b.blockedUntilMs <= now then Bucket(l.capacity, now, 0.0) else b;
    var elapsed := now - c.lastRefillMs;
    if elapsed > 0.0 then
      c.(tokens := Min(l.capacity, c.tokens + elapsed * l.refillPerMs), lastRefillMs := now)
    else c
  }

  /** The bucket after one attempt, and whether the attempt passes. */
  function Consume(l: Limits, bucket: Option<Bucket>, now: real): (r: (Bucket, bool)) {
    if bucket.None? then (Bucket(l.capacity - 1.0, now, 0.0), true)
    else if bucket.value.blockedUntilMs > now then (bucket.value, false)
    else
      var b := Refilled(l, bucket.value, now);
      if b.tokens < 1.0 then (b.(blockedUntilMs := now + l.blockMs), false)
      else (b.(tokens := b.tokens - 1.0), true)
  }

  datatype Call = Attempt(key: string, now: real) | Probe(key: string, now: real) | Reset(key: string, now: real)

  type Buckets = map<string, Bucket>

  function Lookup(m: Buckets, key: string): (b: Option<Bucket>) {
    if key in m then Some(m[key]) else None
  }

  function Apply(l: Limits, m: Buckets, call: Call): (r: Buckets) {
    match call
    case Attempt(key, now) => m[key := Consume(l, Lookup(m, key), now).0]
    case Probe(key, now) => m
    case Reset(key, now) => m - {key}
  }

  function Run(l: Limits, calls: seq<Call>): (m: Buckets) {
    if calls == [] then map[] else Apply(l, Run(l, calls[..|calls| - 1]), calls[|calls| - 1])
  }

  predicate Passes(l: Limits, calls: seq<Call>, key: string, i: nat)
    requires i < |calls|
  {
    calls[i].Attempt? && calls[i].key == key && Consume(l, Lookup(Run(l, calls[..i]), key), calls[i].now).1
  }

  /** How many attempts on a key pass from call number `start` on. */
  function Passed(l: Limits, calls: seq<Call>, key: string, start: nat): (n: nat)
    requires start <= |calls|
    decreases |calls|
  {
    if start == |calls| then 0
    else Passed(l, calls[..|calls| - 1], key, start) + (if Passes(l, calls, key, |calls| - 1) then 1 else 0)
  }

  /** Time does not run backwards, and is not negative. */
  predicate MonotoneClock(calls: seq<Call>) {
    && (forall i :: 0 <= i < |calls| ==> calls[i].now >= 0.0)
    && (forall i, j :: 0 <= i < j < |calls| ==> calls[i].now <= calls[j].now)
  }

  predicate Sensible(l: Limits) {
    l.capacity >= 1.0 && l.refillPerMs >= 0.0 && l.blockMs > 0.0
  }

  // ---- What every bucket keeps ----

  predicate GoodBucket(l: Limits, b: Bucket, now: real) {
    0.0 <= b.tokens <= l.capacity && b.lastRefillMs <= now && b.blockedUntilMs >= 0.0
  }

  lemma RefilledIsGood(l: Limits, b: Bucket, now: real)
    requires Sensible(l) && GoodBucket(l, b, now) && b.blockedUntilMs <= now
    ensures GoodBucket(l, Refilled(l, b, now), now) && Refilled(l, b, now).lastRefillMs == now
    ensures Refilled(l, b, now).blockedUntilMs == 0.0
  {
  }

  lemma ConsumeIsGood(l: Limits, b: Option<Bucket>, now: real)
    requires Sensible(l) && now >= 0.0 && (b.Some? ==> GoodBucket(l, b.value, now))
    ensures GoodBucket(l, Consume(l, b, now).0, now)
  {
    if b.Some? && b.value.blockedUntilMs <= now {
      RefilledIsGood(l, b.value, now);
    }
  }

  /** In every run with a monotone clock, the tokens of every bucket stay between 0 and the capacity. */
  lemma {:induction false} TokensInRange(l: Limits, calls: seq<Call>, now: real)
    requires Sensible(l) && MonotoneClock(calls) && (calls != [] ==> calls[|calls| - 1].now <= now)
    ensures forall key :: key in Run(l, calls) ==> GoodBucket(l, Run(l, calls)[key], now)
  {
    if calls != [] {
      var front, call := calls[..|calls| - 1], calls[|calls| - 1];
      TokensInRange(l, front, call.now);
      if call.Attempt? {
        ConsumeIsGood(l, Lookup(Run(l, front), call.key), call.now);
      }
    }
  }

  // ---- The rate over a window ----

  /** What one key has used since `start`: `blocks` blocks began and ran out
      within the window, and each gave back at most a full bucket. */
  predicate Budget(l: Limits, b: Bucket, start: real, now: real, used: nat, blocks: nat) {
    && GoodBucket(l, b, now) && blocks as real * l.blockMs <= now - start
    && ((used == 0 && blocks == 0)
        || (b.blockedUntilMs == 0.0 && start <= b.lastRefillMs
            && used as real + b.tokens <= Allowance(l, blocks, b.lastRefillMs - start))
        || (b.blockedUntilMs != 0.0 && (blocks + 1) as real * l.blockMs <= b.blockedUntilMs - start
            && used as real + b.tokens <= Allowance(l, blocks, now - start)))
  }

  function Allowance(l: Limits, blocks: nat, time: real): (r: real) {
    l.capacity * (1 + blocks) as real + l.refillPerMs * time
  }

  lemma AllowanceGrows(l: Limits, blocks: nat, time: real, more: real)
    requires Sensible(l) && 0.0 <= time && time <= more
    ensures Allowance(l, blocks, time) + l.refillPerMs * (more - time) == Allowance(l, blocks, more)
    ensures Allowance(l, blocks, time) <= Allowance(l, blocks, more)
    ensures Allowance(l, blocks + 1, time) == Allowance(l, blocks, time) + l.capacity
    ensures Allowance(l, 0, time) >= l.capacity
  {
    assert l.refillPerMs * time + l.refillPerMs * (more - time) == l.refillPerMs * more;
    assert l.capacity * (2 + blocks) as real == l.capacity * (1 + blocks) as real + l.capacity;
  }

  lemma BudgetWaits(l: Limits, b: Bucket, start: real, now: real, later: real, used: nat, blocks: nat)
    requires Sensible(l) && start <= now <= later && Budget(l, b, start, now, used, blocks)
    ensures Budget(l, b, start, later, used, blocks)
  {
    AllowanceGrows(l, blocks, now - start, later - start);
  }

  /** What refilling leaves: the window has paid for what was used and for the tokens that are there. */
  predicate PaidFor(l: Limits, b: Bucket, start: real, now: real, used: nat, blocks: nat) {
    && GoodBucket(l, b, now) && b.blockedUntilMs == 0.0 && b.lastRefillMs == now
    && blocks as real * l.blockMs <= now - start
    && used as real + b.tokens <= Allowance(l, blocks, now - start)
  }

  lemma RefillFromTime(l: Limits, b: Bucket, start: real, now: real, used: nat, blocks: nat)
    requires Sensible(l) && 0.0 <= start <= now && Budget(l, b, start, now, used, blocks)
    requires b.blockedUntilMs == 0.0
    ensures PaidFor(l, Refilled(l, b, now), start, now, used, blocks)
  {
    RefilledIsGood(l, b, now);
    if used == 0 && blocks == 0 {
      AllowanceGrows(l, 0, now - start, now - start);
    } else {
      AllowanceGrows(l, blocks, b.lastRefillMs - start, now - start);
      assert (now - b.lastRefillMs) * l.refillPerMs == l.refillPerMs * (now - b.lastRefillMs);
    }
  }

  lemma RefillFromBlock(l: Limits, b: Bucket, start: real, now: real, used: nat, blocks: nat) returns (more: nat)
    requires Sensible(l) && start <= now && Budget(l, b, start, now, used, blocks)
    requires 0.0 < b.blockedUntilMs <= now
    ensures PaidFor(l, Refilled(l, b, now), start, now, used, more)
  {
    RefilledIsGood(l, b, now);
    AllowanceGrows(l, blocks, now - start, now - start);
    more := if used == 0 && blocks == 0 then 0 else blocks + 1;
  }

  lemma SpendInBudget(l: Limits, b: Bucket, start: real, now: real, used: nat, blocks: nat)
    requires Sensible(l) && 0.0 <= start <= now && PaidFor(l, b, start, now, used, blocks)
    ensures if b.tokens < 1.0 then Budget(l, b.(blockedUntilMs := now + l.blockMs), start, now, used, blocks)
            else Budget(l, b.(tokens := b.tokens - 1.0), start, now, used + 1, blocks)
  {
    assert (blocks + 1) as real * l.blockMs == blocks as real * l.blockMs + l.blockMs;
  }

  /** One attempt stays within the budget. */
  lemma AttemptInBudget(l: Limits, b: Bucket, start: real, now: real, used: nat, blocks: nat) returns (more: nat)
    requires Sensible(l) && 0.0 <= start <= now && Budget(l, b, start, now, used, blocks)
    ensures var (after, passed) := Consume(l, Some(b), now);
            Budget(l, after, start, now, if passed then used + 1 else used, more)
  {
    if b.blockedUntilMs > now {
      more := blocks;
    } else {
      if b.blockedUntilMs == 0.0 {
        RefillFromTime(l, b, start, now, used, blocks);
        more := blocks;
      } else {
        more := RefillFromBlock(l, b, start, now, used, blocks);
      }
      SpendInBudget(l, Refilled(l, b, now), start, now, used, more);
    }
  }

  lemma FirstInBudget(l: Limits, start: real, now: real)
    requires Sensible(l) && 0.0 <= start <= now
    ensures Budget(l, Consume(l, None, now).0, start, now, 1, 0)
  {
    AllowanceGrows(l, 0, now - start, now - start);
  }

  /** Calls from number `start` on happen at `from` or later, the others before. */
  predicate WindowFrom(calls: seq<Call>, start: nat, from: real) {
    && start <= |calls| && from >= 0.0
    && (forall i :: 0 <= i < start ==> calls[i].now <= from)
    && (forall i :: start <= i < |calls| ==> from <= calls[i].now)
  }

  predicate NoReset(calls: seq<Call>, key: string, start: nat) {
    forall i :: start <= i < |calls| ==> calls[i] != Reset(key, calls[i].now)
  }

  predicate Accounted(l: Limits, calls: seq<Call>, key: string, start: nat, from: real, to: real, blocks: nat)
    requires start <= |calls|
  {
    if key in Run(l, calls) then Budget(l, Run(l, calls)[key], from, to, Passed(l, calls, key, start), blocks)
    else Passed(l, calls, key, start) == 0 && blocks == 0
  }

  lemma StepAccounted(l: Limits, calls: seq<Call>, call: Call, key: string, start: nat, from: real, blocks: nat)
    returns (more: nat)
    requires Sensible(l) && 0.0 <= from <= call.now && start <= |calls| && call != Reset(key, call.now)
    requires Accounted(l, calls, key, start, from, call.now, blocks)
    ensures Accounted(l, calls + [call], key, start, from, call.now, more)
  {
    more := blocks;
    assert (calls + [call])[..|calls|] == calls;
    var m := Run(l, calls);
    if call.Attempt? && call.key == key {
      if key in m {
        more := AttemptInBudget(l, m[key], from, call.now, Passed(l, calls, key, start), blocks);
      } else {
        FirstInBudget(l, from, call.now);
      }
    }
  }

  lemma AccountedWaits(l: Limits, calls: seq<Call>, key: string, start: nat, from: real, to: real, later: real, blocks: nat)
    requires Sensible(l) && from <= to <= later && start <= |calls|
    requires Accounted(l, calls, key, start, from, to, blocks)
    ensures Accounted(l, calls, key, start, from, later, blocks)
  {
    if key in Run(l, calls) {
      BudgetWaits(l, Run(l, calls)[key], from, to, later, Passed(l, calls, key, start), blocks);
    }
  }

  lemma {:induction false} RunIsAccounted(l: Limits, calls: seq<Call>, key: string, start: nat, from: real, to: real)
    returns (blocks: nat)
    requires Sensible(l) && MonotoneClock(calls) && WindowFrom(calls, start, from) && NoReset(calls, key, start)
    requires from <= to && (calls != [] ==> calls[|calls| - 1].now <= to)
    ensures Accounted(l, calls, key, start, from, to, blocks)
    decreases |calls|
  {
    if start == |calls| {
      TokensInRange(l, calls, from);
      blocks := 0;
      if key in Run(l, calls) {
        assert Budget(l, Run(l, calls)[key], from, from, 0, 0);
      }
      AccountedWaits(l, calls, key, start, from, from, to, 0);
    } else {
      var front, call := calls[..|calls| - 1], calls[|calls| - 1];
      var before := RunIsAccounted(l, front, key, start, from, call.now);
      assert calls == front + [call];
      blocks := StepAccounted(l, front, call, key, start, from, before);
      AccountedWaits(l, calls, key, start, from, call.now, to, blocks);
    }
  }

  lemma QuotientBound(blocks: nat, blockMs: real, time: real)
    requires blockMs > 0.0 && blocks as real * blockMs <= time
    ensures blocks <= (time / blockMs).Floor
  {
    var q := time / blockMs;
    assert q * blockMs == time;
    if q < blocks as real {
      ProductPositive(blocks as real - q, blockMs);
    }
  }

  lemma ProductPositive(x: real, y: real)
    requires x > 0.0 && y > 0.0
    ensures x * y > 0.0
  {
  }

  lemma ProductGrows(x: real, y: real, z: real)
    requires x >= 0.0 && y <= z
    ensures x * y <= x * z
  {
  }

  lemma UsedIsAllowed(l: Limits, b: Bucket, start: real, now: real, used: nat, blocks: nat)
    requires Sensible(l) && start <= now && Budget(l, b, start, now, used, blocks)
    ensures used as real <= Allowance(l, blocks, now - start)
  {
    AllowanceGrows(l, 0, now - start, now - start);
    if b.blockedUntilMs == 0.0 && start <= b.lastRefillMs {
      AllowanceGrows(l, blocks, b.lastRefillMs - start, now - start);
    }
  }

  lemma AllowanceByTime(l: Limits, blocks: nat, time: real)
    requires Sensible(l) && time >= 0.0 && blocks as real * l.blockMs <= time
    ensures Allowance(l, blocks, time) <= Bound(l, time)
  {
    QuotientBound(blocks, l.blockMs, time);
    ProductGrows(l.capacity, (1 + blocks) as real, (1 + (time / l.blockMs).Floor) as real);
  }

  /** A full bucket for the start, another for each block time, and what the refill rate gives. */
  function Bound(l: Limits, time: real): (r: real)
    requires l.blockMs > 0.0
  {
    l.capacity * (1 + (time / l.blockMs).Floor) as real + l.refillPerMs * time
  }

  lemma RunIsAllowed(l: Limits, calls: seq<Call>, key: string, start: nat, from: real, to: real) returns (blocks: nat)
    requires Sensible(l) && MonotoneClock(calls) && WindowFrom(calls, start, from) && NoReset(calls, key, start)
    requires from <= to && (calls != [] ==> calls[|calls| - 1].now <= to)
    ensures blocks as real * l.blockMs <= to - from
    ensures Passed(l, calls, key, start) as real <= Allowance(l, blocks, to - from)
  {
    blocks := RunIsAccounted(l, calls, key, start, from, to);
    AllowanceGrows(l, 0, to - from, to - from);
    if key in Run(l, calls) {
      UsedIsAllowed(l, Run(l, calls)[key], from, to, Passed(l, calls, key, start), blocks);
    }
  }

  /** In any window of any run in which a key is not reset, the attempts on it
      that pass stay within the bound for the length of the window. */
  lemma RateBound(l: Limits, calls: seq<Call>, key: string, start: nat, from: real, to: real)
    requires Sensible(l) && MonotoneClock(calls) && WindowFrom(calls, start, from) && NoReset(calls, key, start)
    requires from <= to && (calls != [] ==> calls[|calls| - 1].now <= to)
    ensures Passed(l, calls, key, start) as real <= Bound(l, to - from)
  {
    var blocks := RunIsAllowed(l, calls, key, start, from, to);
    AllowanceByTime(l, blocks, to - from);
  }

  lemma OneAttempt(l: Limits, key: string, now: real)
    ensures var calls := [Attempt(key, now)];
            Passed(l, calls, key, 0) == 1 && Run(l, calls) == map[key := Bucket(l.capacity - 1.0, now, 0.0)]
  {
    var calls := [Attempt(key, now)];
    assert calls[..0] == [] && Run(l, []) == map[];
    assert Lookup(map[], key) == None;
    assert Run(l, calls) == Apply(l, Run(l, []), calls[0]);
    assert Passes(l, calls, key, 0);
    assert Passed(l, calls[..0], key, 0) == 0;
  }

  /** The bound needs a capacity of at least one: with less, and only then, one
      attempt at one moment is already over it, and leaves a negative bucket. */
  lemma CapacityBelowOne(l: Limits, key: string, now: real)
    requires l.blockMs > 0.0
    ensures var calls := [Attempt(key, now)];
            && (Passed(l, calls, key, 0) as real > Bound(l, 0.0) <==> l.capacity < 1.0)
            && (Run(l, calls)[key].tokens < 0.0 <==> l.capacity < 1.0)
  {
    OneAttempt(l, key, now);
    assert 0.0 / l.blockMs == 0.0;
  }

  /** Once an attempt empties a bucket, all attempts on the key fail for the block time. */
  lemma BlockHolds(l: Limits, b: Bucket, now: real, later: real)
    requires l.blockMs > 0.0 && b.blockedUntilMs <= now && Refilled(l, b, now).tokens < 1.0
    ensures var after := Consume(l, Some(b), now).0;
            later < now + l.blockMs ==> Consume(l, Some(after), later) == (after, false)
  {
  }
}
