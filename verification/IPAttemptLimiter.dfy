/** The password-enrollment limiter, by source IP alone: internal/application/passwords/limiter.go. */
module IPAttemptLimiters {
  import opened AttemptBuckets
  import opened AttemptRuns

  class IPAttemptLimiter {
    const limit: int
    const window: Time
    var buckets: Buckets
    var nextCleanup: Time
    ghost var unreserved: Unreserved

    function Settings(): Config {
      Config([limit], window)
    }

    function View(): State
      reads this
    {
      State([buckets], nextCleanup)
    }

    ghost predicate Valid()
      reads this
    {
      limit >= 1 && WithinBudget(buckets, unreserved, limit)
    }

    constructor (limit: int, window: Time)
      requires limit >= 1
      ensures Valid() && View() == Init(1) && Settings() == Config([limit], window)
    {
      this.limit, this.window, buckets, nextCleanup, unreserved := limit, window, map[], 0, map[];
    }

    method CleanupExpired(now: Time)
      requires Valid()
      modifies this`buckets, this`nextCleanup
      ensures Valid() && View() == Cleaned(Settings(), old(View()), now)
    {
      if nextCleanup != 0 && now < nextCleanup {
        return;
      }
      buckets := SweepMap(buckets, now, window);
      nextCleanup := now + window;
    }

    method Allow(sourceIP: string, now: Time) returns (allowed: bool)
      requires Valid()
      modifies this
      ensures Valid()
      ensures allowed == Permits(Settings(), Cleaned(Settings(), old(View()), now), [sourceIP], now)
      ensures View() == if allowed then Reserved(Settings(), Cleaned(Settings(), old(View()), now), [sourceIP], now)
                        else Cleaned(Settings(), old(View()), now)
    {
      hide Cleaned, WithinBudget, ReserveBucket, BucketAllows, Get;
      CleanupExpired(now);
      var bucket := Get(buckets, sourceIP);
      assert BucketAt(View(), [sourceIP], 0) == bucket;
      if !BucketAllows(bucket, limit, now, window) {
        return false;
      }
      ReserveKeepsBudget(buckets, unreserved, limit, sourceIP, now, window);
      buckets := buckets[sourceIP := ReserveBucket(bucket, now, window)];
      unreserved := UnreservedAfterReserve(unreserved, bucket, sourceIP, now, window);
      return true;
    }

    method RecordFailure(sourceIP: string, now: Time)
      requires Valid()
      modifies this
      ensures Valid() && View() == Failed(Settings(), Cleaned(Settings(), old(View()), now), [sourceIP], now)
    {
      hide Cleaned, WithinBudget, CompleteFailedAttempt, Get;
      CleanupExpired(now);
      var bucket := Get(buckets, sourceIP);
      FailureKeepsBudget(buckets, unreserved, limit, sourceIP, now, window);
      buckets := buckets[sourceIP := CompleteFailedAttempt(bucket, now, window)];
      unreserved := UnreservedAfterFailure(unreserved, bucket, sourceIP, now, window);
    }

    /** Unlike the login limiter's, a success forgets every failure of the address. */
    method RecordSuccess(sourceIP: string)
      requires Valid()
      modifies this`buckets
      ensures Valid() && View() == Settled(old(View()), [sourceIP], [true])
    {
      buckets := buckets - {sourceIP};
    }

    method Cancel(sourceIP: string)
      requires Valid()
      modifies this`buckets
      ensures Valid() && View() == Settled(old(View()), [sourceIP], [false])
    {
      ReleaseKeepsBudget(buckets, unreserved, limit, sourceIP);
      buckets := ReleaseReservation(buckets, sourceIP);
    }
  }
}
