// TokenBucketLimiter (relay/server/src/tokenBucket.ts). The clock is a parameter.
module TokenBuckets {
  import opened Options
  import Spec = TokenBucketSpec

  class TokenBucketLimiter {
    const capacity: real
    const refillPerMs: real
    const blockMs: real
    var buckets: Spec.Buckets

    function Limits(): Spec.Limits {
      Spec.Limits(capacity, refillPerMs, blockMs)
    }

    constructor (capacity: real, refillPerSecond: real, blockMs: real)
      ensures Limits() == Spec.Limits(capacity, refillPerSecond / 1000.0, blockMs) && buckets == map[]
    {
      this.capacity, this.refillPerMs, this.blockMs := capacity, refillPerSecond / 1000.0, blockMs;
      buckets := map[];
    }

    method Consume(key: string, now: real) returns (passed: bool)
      modifies this
      ensures buckets == Spec.Apply(Limits(), old(buckets), Spec.Attempt(key, now))
      ensures passed == Spec.Consume(Limits(), Spec.Lookup(old(buckets), key), now).1
    {
      if key !in buckets {
        buckets := buckets[key := Spec.Bucket(capacity - 1.0, now, 0.0)];
        return true;
      }
      var bucket := buckets[key];
      if bucket.blockedUntilMs > now {
        assert buckets == buckets[key := bucket];
        return false;
      }
      if bucket.blockedUntilMs != 0.0 && bucket.blockedUntilMs <= now {
        bucket := Spec.Bucket(capacity, now, 0.0);
      }
      var elapsed := now - bucket.lastRefillMs;
      if elapsed > 0.0 {
        bucket := bucket.(tokens := Spec.Min(capacity, bucket.tokens + elapsed * refillPerMs));
        bucket := bucket.(lastRefillMs := now);
      }
      if bucket.tokens < 1.0 {
        bucket := bucket.(blockedUntilMs := now + blockMs);
        buckets := buckets[key := bucket];
        return false;
      }
      bucket := bucket.(tokens := bucket.tokens - 1.0);
      buckets := buckets[key := bucket];
      return true;
    }

    /** A blocked key is one on which an attempt would fail without changing its bucket. */
    method IsBlocked(key: string, now: real) returns (blocked: bool)
      ensures blocked == (key in buckets && buckets[key].blockedUntilMs > now)
      ensures blocked ==> key in buckets && Spec.Consume(Limits(), Some(buckets[key]), now) == (buckets[key], false)
    {
      if key !in buckets {
        return false;
      }
      return buckets[key].blockedUntilMs > now;
    }

    method Reset(key: string, ghost now: real)
      modifies this
      ensures buckets == Spec.Apply(Limits(), old(buckets), Spec.Reset(key, now))
    {
      buckets := buckets - {key};
    }
  }
}
