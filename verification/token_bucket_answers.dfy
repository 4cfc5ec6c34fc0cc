// When an attempt on a token bucket fails, told by the calls alone
// (consume in relay/server/src/tokenBucket.ts).
module TokenBucketAnswers {
  import opened Options
  import opened TokenBucketSpec

  // ---- What the calls say ----

  /** From call number `start` on, the key is not reset and no attempt on it is refused. */
  predicate Undisturbed(l: Limits, calls: seq<Call>, key: string, start: nat) {
    forall k :: start <= k < |calls| ==> calls[k].key != key || calls[k].Probe? || Passes(l, calls, key, k)
  }

  /** More than a full bucket and the refill could pay for, and leave one token. */
  predicate TooMany(l: Limits, passed: nat, from: real, now: real) {
    passed as real > l.capacity - 1.0 + l.refillPerMs * (now - from)
  }

  /** Since call number `start`, too many attempts passed. */
  predicate OverdrawnSince(l: Limits, calls: seq<Call>, key: string, now: real, start: nat) {
    && start < |calls| && Undisturbed(l, calls, key, start)
    && TooMany(l, Passed(l, calls, key, start), calls[start].now, now)
  }

  ghost predicate Overdrawn(l: Limits, calls: seq<Call>, key: string, now: real) {
    exists start: nat :: OverdrawnSince(l, calls, key, now, start)
  }

  /** Call number `j` was an attempt on an overdrawn key, which has not been reset since. */
  ghost predicate OverdrawnAt(l: Limits, calls: seq<Call>, key: string, j: nat) {
    && j < |calls| && calls[j].Attempt? && calls[j].key == key && Overdrawn(l, calls[..j], key, calls[j].now)
    && forall k :: j < k < |calls| ==> calls[k] != Reset(key, calls[k].now)
  }

  /** Less than the block time ago, an attempt on the key was overdrawn. */
  ghost predicate WithinBlock(l: Limits, calls: seq<Call>, key: string, now: real) {
    exists j: nat :: OverdrawnAt(l, calls, key, j) && now < calls[j].now + l.blockMs
  }

  predicate ClockReads(calls: seq<Call>, now: real) {
    MonotoneClock(calls) && now >= 0.0 && (calls != [] ==> calls[|calls| - 1].now <= now)
  }

  // ---- One more call ----

  lemma ClockBefore(front: seq<Call>, call: Call)
    requires MonotoneClock(front + [call])
    ensures ClockReads(front, call.now)
  {
    var calls := front + [call];
    assert calls[|front|] == call;
    forall i | 0 <= i < |front|
      ensures calls[i] == front[i] && front[i].now <= call.now
    {
    }
  }

  lemma OneMoreCall(l: Limits, front: seq<Call>, call: Call, key: string, start: nat)
    requires start <= |front|
    ensures var calls := front + [call];
            && Run(l, calls) == Apply(l, Run(l, front), call)
            && (Passes(l, calls, key, |front|) <==>
                  call.Attempt? && call.key == key && Consume(l, Lookup(Run(l, front), key), call.now).1)
            && Passed(l, calls, key, start) == Passed(l, front, key, start) + (if Passes(l, calls, key, |front|) then 1 else 0)
  {
    assert (front + [call])[..|front|] == front;
  }

  lemma UndisturbedBefore(l: Limits, front: seq<Call>, call: Call, key: string, start: nat)
    ensures Undisturbed(l, front + [call], key, start) <==>
            && Undisturbed(l, front, key, start)
            && (start <= |front| ==> call.key != key || call.Probe? || Passes(l, front + [call], key, |front|))
  {
    var calls := front + [call];
    forall k | 0 <= k < |front|
      ensures calls[k] == front[k] && (Passes(l, calls, key, k) <==> Passes(l, front, key, k))
    {
      assert calls[..k] == front[..k];
    }
    assert calls[|front|] == call;
  }

  lemma Spread(rate: real, x: real, y: real)
    ensures rate * x + rate * y == rate * (x + y)
  {
  }

  lemma Scaled(rate: real, x: real)
    requires rate >= 0.0 && x >= 0.0
    ensures rate * x >= 0.0
  {
  }

  /** An attempt that passes keeps a window undisturbed and counts in it. */
  lemma PassCounts(l: Limits, calls: seq<Call>, key: string, now: real, start: nat)
    requires start <= |calls| && Undisturbed(l, calls, key, start) && Consume(l, Lookup(Run(l, calls), key), now).1
    ensures var more := calls + [Attempt(key, now)];
            Undisturbed(l, more, key, start) && Passed(l, more, key, start) == Passed(l, calls, key, start) + 1
  {
    OneMoreCall(l, calls, Attempt(key, now), key, start);
    UndisturbedBefore(l, calls, Attempt(key, now), key, start);
  }

  /** A call that is no attempt on the key and no reset of it changes no window. */
  lemma OtherCounts(l: Limits, calls: seq<Call>, call: Call, key: string, start: nat)
    requires start <= |calls| && (call.key != key || call.Probe?)
    ensures var more := calls + [call];
            && (Undisturbed(l, calls, key, start) ==> Undisturbed(l, more, key, start))
            && Passed(l, more, key, start) == Passed(l, calls, key, start)
            && Lookup(Run(l, more), key) == Lookup(Run(l, calls), key)
  {
    OneMoreCall(l, calls, call, key, start);
    UndisturbedBefore(l, calls, call, key, start);
  }

  // ---- An overdrawn key is refused ----

  predicate Afforded(l: Limits, b: Bucket, passed: nat, from: real) {
    && b.blockedUntilMs == 0.0 && from <= b.lastRefillMs
    && b.tokens + passed as real <= l.capacity + l.refillPerMs * (b.lastRefillMs - from)
  }

  /** What passed in an undisturbed window was paid for by a full bucket and the refill. */
  predicate Paid(l: Limits, calls: seq<Call>, key: string, start: nat, from: real)
    requires start <= |calls|
  {
    var m, passed := Run(l, calls), Passed(l, calls, key, start);
    passed == 0
    || (key in m && Afforded(l, m[key], passed, from))
  }

  lemma PassIsPaid(l: Limits, b: Option<Bucket>, passed: nat, from: real, now: real)
    requires Sensible(l) && 0.0 <= from <= now && (b.Some? ==> GoodBucket(l, b.value, now))
    requires passed == 0 || (b.Some? && Afforded(l, b.value, passed, from))
    requires Consume(l, b, now).1
    ensures Afforded(l, Consume(l, b, now).0, passed + 1, from)
  {
    Scaled(l.refillPerMs, now - from);
    if b.Some? {
      RefilledIsGood(l, b.value, now);
      if passed > 0 {
        Spread(l.refillPerMs, b.value.lastRefillMs - from, now - b.value.lastRefillMs);
        assert (now - b.value.lastRefillMs) * l.refillPerMs == l.refillPerMs * (now - b.value.lastRefillMs);
      }
    }
  }

  lemma PaidByOneMore(l: Limits, calls: seq<Call>, call: Call, key: string, start: nat, from: real, b: Bucket)
    requires start <= |calls| && key in Run(l, calls + [call]) && Run(l, calls + [call])[key] == b
    requires Afforded(l, b, Passed(l, calls + [call], key, start), from)
    ensures Paid(l, calls + [call], key, start, from)
  {
  }

  lemma AttemptRuns(l: Limits, calls: seq<Call>, key: string, now: real, start: nat)
    requires start <= |calls| && Consume(l, Lookup(Run(l, calls), key), now).1
    ensures var grown := calls + [Attempt(key, now)];
            && Passed(l, grown, key, start) == Passed(l, calls, key, start) + 1
            && key in Run(l, grown) && Run(l, grown)[key] == Consume(l, Lookup(Run(l, calls), key), now).0
  {
    OneMoreCall(l, calls, Attempt(key, now), key, start);
  }

  lemma AttemptIsPaid(l: Limits, calls: seq<Call>, key: string, now: real, start: nat, from: real)
    requires Sensible(l) && ClockReads(calls, now) && start <= |calls| && 0.0 <= from <= now
    requires Undisturbed(l, calls, key, start) && Paid(l, calls, key, start, from)
    requires Consume(l, Lookup(Run(l, calls), key), now).1
    ensures Paid(l, calls + [Attempt(key, now)], key, start, from)
  {
    AttemptRuns(l, calls, key, now, start);
    TokensInRange(l, calls, now);
    var b := Consume(l, Lookup(Run(l, calls), key), now).0;
    PassIsPaid(l, Lookup(Run(l, calls), key), Passed(l, calls, key, start), from, now);
    PaidByOneMore(l, calls, Attempt(key, now), key, start, from, b);
  }

  lemma {:induction false} WindowIsPaid(l: Limits, calls: seq<Call>, key: string, start: nat, from: real)
    requires Sensible(l) && MonotoneClock(calls) && WindowFrom(calls, start, from) && Undisturbed(l, calls, key, start)
    ensures Paid(l, calls, key, start, from)
    decreases |calls|
  {
    if start < |calls| {
      var front, call := calls[..|calls| - 1], calls[|calls| - 1];
      assert calls == front + [call];
      UndisturbedBefore(l, front, call, key, start);
      WindowIsPaid(l, front, key, start, from);
      if call.key == key && !call.Probe? {
        OneMoreCall(l, front, call, key, start);
        AttemptIsPaid(l, front, key, call.now, start, from);
      } else {
        OtherCounts(l, front, call, key, start);
      }
    }
  }

  /** Refilling an overdrawn bucket leaves less than one token. */
  lemma TooFewTokens(l: Limits, b: Bucket, passed: nat, from: real, now: real)
    requires Sensible(l) && b.lastRefillMs <= now && Afforded(l, b, passed, from) && TooMany(l, passed, from, now)
    ensures Refilled(l, b, now).tokens < 1.0 && Refilled(l, b, now).blockedUntilMs == 0.0
  {
    var gained := l.refillPerMs * (now - b.lastRefillMs);
    Spread(l.refillPerMs, b.lastRefillMs - from, now - b.lastRefillMs);
    assert b.tokens + gained < 1.0;
    assert (now - b.lastRefillMs) * l.refillPerMs == gained;
    if now - b.lastRefillMs > 0.0 {
      assert Refilled(l, b, now).tokens <= b.tokens + gained;
    } else {
      assert gained == 0.0 && Refilled(l, b, now) == b;
    }
  }

  /** An overdrawn key is not blocked yet, and the attempt blocks it. */
  lemma OverdrawnIsRefused(l: Limits, calls: seq<Call>, key: string, now: real)
    requires Sensible(l) && ClockReads(calls, now) && Overdrawn(l, calls, key, now)
    ensures key in Run(l, calls)
    ensures var (after, passed) := Consume(l, Lookup(Run(l, calls), key), now);
            !passed && after.blockedUntilMs == now + l.blockMs
  {
    var start: nat :| OverdrawnSince(l, calls, key, now, start);
    var from := calls[start].now;
    Scaled(l.refillPerMs, now - from);
    WindowIsPaid(l, calls, key, start, from);
    TokensInRange(l, calls, now);
    TooFewTokens(l, Run(l, calls)[key], Passed(l, calls, key, start), from, now);
  }

  /** The block that an overdrawn attempt begins lasts for the block time, unless the key is reset. */
  lemma {:induction false} BlockLasts(l: Limits, calls: seq<Call>, key: string, j: nat, now: real)
    requires Sensible(l) && ClockReads(calls, now) && OverdrawnAt(l, calls, key, j) && now < calls[j].now + l.blockMs
    ensures key in Run(l, calls) && Run(l, calls)[key].blockedUntilMs == calls[j].now + l.blockMs
    decreases |calls|
  {
    var front, call := calls[..|calls| - 1], calls[|calls| - 1];
    assert calls == front + [call];
    ClockBefore(front, call);
    OneMoreCall(l, front, call, key, 0);
    if j == |front| {
      OverdrawnIsRefused(l, front, key, call.now);
    } else {
      assert front[..j] == calls[..j];
      BlockLasts(l, front, key, j, call.now);
    }
  }

  // ---- Nothing else is refused ----

  predicate Drained(l: Limits, b: Bucket, passed: nat, from: real) {
    b.tokens == l.capacity + l.refillPerMs * (b.lastRefillMs - from) - passed as real
  }

  /** Since call number `start` found the bucket full, its tokens are what the refill gave and the passed attempts left. */
  predicate SinceFull(l: Limits, calls: seq<Call>, key: string, b: Bucket, start: nat) {
    && start < |calls| && Undisturbed(l, calls, key, start)
    && Drained(l, b, Passed(l, calls, key, start), calls[start].now)
  }

  ghost predicate Explained(l: Limits, calls: seq<Call>, key: string, b: Bucket) {
    if b.blockedUntilMs == 0.0 then exists start: nat :: SinceFull(l, calls, key, b, start)
    else exists j: nat :: OverdrawnAt(l, calls, key, j) && b.blockedUntilMs == calls[j].now + l.blockMs
  }

  lemma OtherCallsKeep(l: Limits, calls: seq<Call>, call: Call, key: string, b: Bucket)
    requires Explained(l, calls, key, b) && (call.key != key || call.Probe?)
    ensures Explained(l, calls + [call], key, b)
  {
    if b.blockedUntilMs == 0.0 {
      var start: nat :| SinceFull(l, calls, key, b, start);
      OtherCounts(l, calls, call, key, start);
      assert SinceFull(l, calls + [call], key, b, start);
    } else {
      var j: nat :| OverdrawnAt(l, calls, key, j) && b.blockedUntilMs == calls[j].now + l.blockMs;
      OverdrawnStays(l, calls, call, key, j);
    }
  }

  lemma OverdrawnStays(l: Limits, calls: seq<Call>, call: Call, key: string, j: nat)
    requires OverdrawnAt(l, calls, key, j) && call != Reset(key, call.now)
    ensures OverdrawnAt(l, calls + [call], key, j)
  {
    assert (calls + [call])[..j] == calls[..j];
  }

  /** The attempt that finds the bucket full begins a new window. */
  lemma FullBegins(l: Limits, calls: seq<Call>, key: string, now: real, b: Bucket)
    requires Consume(l, Lookup(Run(l, calls), key), now) == (b, true)
    requires b.tokens == l.capacity - 1.0 && b.lastRefillMs == now
    ensures SinceFull(l, calls + [Attempt(key, now)], key, b, |calls|)
  {
    var call := Attempt(key, now);
    PassCounts(l, calls, key, now, |calls|);
    assert (calls + [call])[|calls|] == call;
  }

  lemma DrainedGoesOn(l: Limits, b: Bucket, after: Bucket, passed: nat, from: real)
    requires Drained(l, b, passed, from)
    requires after.tokens == b.tokens + l.refillPerMs * (after.lastRefillMs - b.lastRefillMs) - 1.0
    ensures Drained(l, after, passed + 1, from)
  {
    Spread(l.refillPerMs, b.lastRefillMs - from, after.lastRefillMs - b.lastRefillMs);
  }

  lemma DrainedIsTooMany(l: Limits, b: Bucket, passed: nat, from: real, now: real)
    requires Drained(l, b, passed, from) && b.tokens + l.refillPerMs * (now - b.lastRefillMs) < 1.0
    ensures TooMany(l, passed, from, now)
  {
    Spread(l.refillPerMs, b.lastRefillMs - from, now - b.lastRefillMs);
  }

  /** A bucket that is not full goes on with its window. */
  lemma WindowGoesOn(l: Limits, calls: seq<Call>, key: string, now: real, start: nat, b: Bucket, after: Bucket)
    requires Lookup(Run(l, calls), key) == Some(b) && SinceFull(l, calls, key, b, start)
    requires Consume(l, Some(b), now) == (after, true) && after.lastRefillMs == now
    requires after.tokens == b.tokens + l.refillPerMs * (now - b.lastRefillMs) - 1.0
    ensures SinceFull(l, calls + [Attempt(key, now)], key, after, start)
  {
    PassCounts(l, calls, key, now, start);
    DrainedGoesOn(l, b, after, Passed(l, calls, key, start), calls[start].now);
  }

  /** Of an attempt that is not within a block: what it finds is full, or paid for since it was. */
  lemma RefillIsFullOrGoesOn(l: Limits, b: Bucket, now: real)
    requires Sensible(l) && GoodBucket(l, b, now) && b.blockedUntilMs <= now
    ensures var c := Refilled(l, b, now);
            || c == Bucket(l.capacity, now, 0.0)
            || (b.blockedUntilMs == 0.0 && c == Bucket(b.tokens + l.refillPerMs * (now - b.lastRefillMs), now, 0.0))
  {
    RefilledIsGood(l, b, now);
    assert (now - b.lastRefillMs) * l.refillPerMs == l.refillPerMs * (now - b.lastRefillMs);
  }

  /** A refusal outside a block means that the key is overdrawn. */
  lemma RefusedIsOverdrawn(l: Limits, calls: seq<Call>, key: string, now: real, b: Bucket)
    requires Sensible(l) && ClockReads(calls, now) && Lookup(Run(l, calls), key) == Some(b)
    requires Explained(l, calls, key, b) && b.blockedUntilMs <= now && !Consume(l, Some(b), now).1
    ensures Overdrawn(l, calls, key, now)
  {
    TokensInRange(l, calls, now);
    RefillIsFullOrGoesOn(l, b, now);
    var start: nat :| SinceFull(l, calls, key, b, start);
    DrainedIsTooMany(l, b, Passed(l, calls, key, start), calls[start].now, now);
    assert OverdrawnSince(l, calls, key, now, start);
  }

  lemma PassIsExplained(l: Limits, calls: seq<Call>, key: string, now: real, b: Bucket, after: Bucket)
    requires Sensible(l) && ClockReads(calls, now) && Lookup(Run(l, calls), key) == Some(b)
    requires Explained(l, calls, key, b) && b.blockedUntilMs <= now && Consume(l, Some(b), now) == (after, true)
    ensures Explained(l, calls + [Attempt(key, now)], key, after)
  {
    TokensInRange(l, calls, now);
    RefillIsFullOrGoesOn(l, b, now);
    if after.tokens == l.capacity - 1.0 {
      FullBegins(l, calls, key, now, after);
    } else {
      var start: nat :| SinceFull(l, calls, key, b, start);
      WindowGoesOn(l, calls, key, now, start, b, after);
    }
  }

  lemma RefusalIsExplained(l: Limits, calls: seq<Call>, key: string, now: real)
    requires Sensible(l) && ClockReads(calls, now) && Overdrawn(l, calls, key, now)
    ensures Explained(l, calls + [Attempt(key, now)], key, Consume(l, Lookup(Run(l, calls), key), now).0)
  {
    OverdrawnIsRefused(l, calls, key, now);
    assert (calls + [Attempt(key, now)])[..|calls|] == calls;
    assert OverdrawnAt(l, calls + [Attempt(key, now)], key, |calls|);
  }

  lemma AttemptIsExplained(l: Limits, calls: seq<Call>, key: string, now: real)
    requires Sensible(l) && ClockReads(calls, now)
    requires key in Run(l, calls) ==> Explained(l, calls, key, Run(l, calls)[key])
    ensures Explained(l, calls + [Attempt(key, now)], key, Consume(l, Lookup(Run(l, calls), key), now).0)
  {
    var call, m := Attempt(key, now), Run(l, calls);
    var (after, passed) := Consume(l, Lookup(m, key), now);
    if key !in m {
      FullBegins(l, calls, key, now, after);
    } else if m[key].blockedUntilMs > now {
      var j: nat :| OverdrawnAt(l, calls, key, j) && m[key].blockedUntilMs == calls[j].now + l.blockMs;
      OverdrawnStays(l, calls, call, key, j);
    } else if passed {
      PassIsExplained(l, calls, key, now, m[key], after);
    } else {
      RefusedIsOverdrawn(l, calls, key, now, m[key]);
      RefusalIsExplained(l, calls, key, now);
    }
  }

  lemma {:induction false} AlwaysExplained(l: Limits, calls: seq<Call>, key: string)
    requires Sensible(l) && MonotoneClock(calls) && key in Run(l, calls)
    ensures Explained(l, calls, key, Run(l, calls)[key])
    decreases |calls|
  {
    var front, call := calls[..|calls| - 1], calls[|calls| - 1];
    assert calls == front + [call];
    ClockBefore(front, call);
    if key in Run(l, front) {
      AlwaysExplained(l, front, key);
    }
    if call.Attempt? && call.key == key {
      AttemptIsExplained(l, front, key, call.now);
    } else {
      OtherCallsKeep(l, front, call, key, Run(l, front)[key]);
    }
  }

  // ---- The answer ----

  /** Every answer, exactly: after any calls with a monotone clock, an attempt
      fails if and only if the key is overdrawn, or was overdrawn at an attempt
      less than the block time ago and has not been reset since. */
  lemma AttemptFailsExactly(l: Limits, calls: seq<Call>, key: string, now: real)
    requires Sensible(l) && ClockReads(calls, now)
    ensures !Consume(l, Lookup(Run(l, calls), key), now).1 <==>
            Overdrawn(l, calls, key, now) || WithinBlock(l, calls, key, now)
  {
    if Overdrawn(l, calls, key, now) {
      OverdrawnIsRefused(l, calls, key, now);
    } else if WithinBlock(l, calls, key, now) {
      var j: nat :| OverdrawnAt(l, calls, key, j) && now < calls[j].now + l.blockMs;
      BlockLasts(l, calls, key, j, now);
    } else if key in Run(l, calls) {
      AlwaysExplained(l, calls, key);
      var b := Run(l, calls)[key];
      if b.blockedUntilMs > now {
        assert false;
      } else if !Consume(l, Some(b), now).1 {
        RefusedIsOverdrawn(l, calls, key, now, b);
        assert false;
      }
    }
  }

  // ---- A key at rest ----

  /** The last attempt on the key was call number `last`. */
  predicate LastAttempt(calls: seq<Call>, key: string, last: nat) {
    && last < |calls| && calls[last].Attempt? && calls[last].key == key
    && forall k :: last < k < |calls| ==> calls[k].key != key || !calls[k].Attempt?
  }

  lemma {:induction false} PassedUpToLast(l: Limits, calls: seq<Call>, key: string, start: nat, last: nat)
    requires start <= last && LastAttempt(calls, key, last) && Undisturbed(l, calls, key, start)
    ensures Undisturbed(l, calls[..last], key, start)
    ensures Consume(l, Lookup(Run(l, calls[..last]), key), calls[last].now).1
    ensures Passed(l, calls, key, start) == Passed(l, calls[..last], key, start) + 1
    decreases |calls|
  {
    var front, call := calls[..|calls| - 1], calls[|calls| - 1];
    assert calls == front + [call];
    OneMoreCall(l, front, call, key, start);
    UndisturbedBefore(l, front, call, key, start);
    if last < |front| {
      assert front[..last] == calls[..last];
      PassedUpToLast(l, front, key, start, last);
    } else {
      assert front == calls[..last];
    }
  }

  lemma {:induction false} NothingAfterLast(l: Limits, calls: seq<Call>, key: string, start: nat, last: nat)
    requires last < start <= |calls| && LastAttempt(calls, key, last)
    ensures Passed(l, calls, key, start) == 0
    decreases |calls|
  {
    if start < |calls| {
      assert calls == calls[..|calls| - 1] + [calls[|calls| - 1]];
      OneMoreCall(l, calls[..|calls| - 1], calls[|calls| - 1], key, start);
      NothingAfterLast(l, calls[..|calls| - 1], key, start, last);
    }
  }

  /** Too many now, with one token regained since the last attempt, was too many for that attempt already. */
  lemma TooManyBefore(l: Limits, passed: nat, from: real, last: real, now: real)
    requires l.refillPerMs * (now - last) >= 1.0
    ensures TooMany(l, passed + 1, from, now) ==> TooMany(l, passed, from, last)
  {
    Spread(l.refillPerMs, last - from, now - last);
  }

  lemma NoneIsNotTooMany(l: Limits, from: real, now: real)
    requires Sensible(l) && from <= now
    ensures !TooMany(l, 0, from, now)
  {
    Scaled(l.refillPerMs, now - from);
  }

  /** A window that begins after the last attempt, or with it, is not overdrawn. */
  lemma LateWindow(l: Limits, calls: seq<Call>, key: string, now: real, last: nat, start: nat)
    requires Sensible(l) && ClockReads(calls, now) && LastAttempt(calls, key, last) && last <= start < |calls|
    requires l.refillPerMs * (now - calls[last].now) >= 1.0
    ensures !OverdrawnSince(l, calls, key, now, start)
  {
    NoneIsNotTooMany(l, calls[start].now, now);
    NoneIsNotTooMany(l, calls[last].now, calls[last].now);
    TooManyBefore(l, 0, calls[last].now, calls[last].now, now);
    if OverdrawnSince(l, calls, key, now, start) {
      if last < start {
        NothingAfterLast(l, calls, key, start, last);
        assert false;
      } else {
        PassedUpToLast(l, calls, key, start, last);
        assert false;
      }
    }
  }

  /** Nor is one that begins before it, for then that attempt would have been refused. */
  lemma EarlyWindow(l: Limits, calls: seq<Call>, key: string, now: real, last: nat, start: nat)
    requires Sensible(l) && ClockReads(calls, now) && LastAttempt(calls, key, last) && start < last
    requires l.refillPerMs * (now - calls[last].now) >= 1.0
    ensures !OverdrawnSince(l, calls, key, now, start)
  {
    if OverdrawnSince(l, calls, key, now, start) {
      PassedUpToLast(l, calls, key, start, last);
      TooManyBefore(l, Passed(l, calls[..last], key, start), calls[start].now, calls[last].now, now);
      assert OverdrawnSince(l, calls[..last], key, calls[last].now, start);
      OverdrawnIsRefused(l, calls[..last], key, calls[last].now);
      assert false;
    }
  }

  /** A key that is not within a block and has regained a token since its last attempt lets the next one pass. */
  lemma RestedKeyPasses(l: Limits, calls: seq<Call>, key: string, now: real, last: nat)
    requires Sensible(l) && ClockReads(calls, now) && LastAttempt(calls, key, last)
    requires l.refillPerMs * (now - calls[last].now) >= 1.0 && !WithinBlock(l, calls, key, now)
    ensures Consume(l, Lookup(Run(l, calls), key), now).1
  {
    forall start: nat
      ensures !OverdrawnSince(l, calls, key, now, start)
    {
      if last <= start < |calls| {
        LateWindow(l, calls, key, now, last, start);
      } else if start < last {
        EarlyWindow(l, calls, key, now, last, start);
      }
    }
    AttemptFailsExactly(l, calls, key, now);
  }

  // ---- One key at a time ----

  function CallsOn(calls: seq<Call>, key: string): (r: seq<Call>) {
    if calls == [] then []
    else
      var last := calls[|calls| - 1];
      CallsOn(calls[..|calls| - 1], key) + (if last.key == key then [last] else [])
  }

  /** What becomes of a key depends on the calls on that key alone. */
  lemma {:induction false} KeysAreIndependent(l: Limits, calls: seq<Call>, key: string)
    ensures Lookup(Run(l, calls), key) == Lookup(Run(l, CallsOn(calls, key)), key)
  {
    if calls != [] {
      var front, last := calls[..|calls| - 1], calls[|calls| - 1];
      KeysAreIndependent(l, front, key);
      var kept := CallsOn(front, key);
      if last.key == key {
        assert (kept + [last])[..|kept|] == kept;
        assert Run(l, kept + [last]) == Apply(l, Run(l, kept), last);
      } else {
        assert kept + [] == kept;
      }
    }
  }

  /** A reset forgets everything: the next attempt passes, and later ones fare as on a key never used. */
  lemma {:induction false} ResetStartsAfresh(l: Limits, front: seq<Call>, key: string, at: real, later: seq<Call>)
    ensures Lookup(Run(l, front + [Reset(key, at)] + later), key) == Lookup(Run(l, later), key)
    ensures later != [] && later[0].Attempt? && later[0].key == key ==>
              Passes(l, front + [Reset(key, at)] + later, key, |front| + 1)
    decreases |later|
  {
    var calls := front + [Reset(key, at)] + later;
    var reset := front + [Reset(key, at)];
    assert reset[..|front|] == front;
    if later == [] {
      assert calls == reset;
    } else {
      var before := later[..|later| - 1];
      ResetStartsAfresh(l, front, key, at, before);
      assert calls[..|calls| - 1] == reset + before;
      assert calls[..|front| + 1] == reset && calls[|front| + 1] == later[0];
      assert key !in Run(l, reset);
    }
  }
}
