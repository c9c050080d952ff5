/** The fixed-window buckets that both attempt limiters keep in maps:
    internal/application/authentication/limiter.go:147-251 and
    internal/application/passwords/limiter.go:108-173 (the same functions for one map).

    Time is in nanoseconds after Go's zero time, which is 0.
 */
module AttemptBuckets {

  type Time = int
  datatype Bucket = Bucket(failures: int, pending: int, startedAt: Time)
  type Buckets = map<string, Bucket>

  /** A missing map entry reads as the zero value. */
  function Get(buckets: Buckets, key: string): Bucket {
    if key in buckets then buckets[key] else Bucket(0, 0, 0)
  }

  predicate Over(b: Bucket, now: Time, window: Time) {
    b.startedAt == 0 || now >= b.startedAt + window
  }

  predicate BucketAllows(b: Bucket, limit: int, now: Time, window: Time) {
    Over(b, now, window) || b.failures + b.pending < limit
  }

  function ReserveBucket(b: Bucket, now: Time, window: Time): Bucket {
    if Over(b, now, window) then Bucket(0, 1, now) else b.(pending := b.pending + 1)
  }

  function CompleteFailedAttempt(b: Bucket, now: Time, window: Time): Bucket {
    if Over(b, now, window) then Bucket(1, 0, now)
    else Bucket(b.failures + 1, if b.pending > 0 then b.pending - 1 else b.pending, b.startedAt)
  }

  function ReleaseReservation(buckets: Buckets, key: string): Buckets {
    if key !in buckets then buckets
    else
      var b := buckets[key];
      var released := b.(pending := if b.pending > 0 then b.pending - 1 else b.pending);
      if released.failures == 0 && released.pending == 0 then buckets - {key} else buckets[key := released]
  }

  function Sweep(buckets: Buckets, now: Time, window: Time): Buckets {
    map key | key in buckets && now < buckets[key].startedAt + window :: buckets[key]
  }

  /** cleanupExpired's loop over one map. */
  method SweepMap(buckets: Buckets, now: Time, window: Time) returns (kept: Buckets)
    ensures kept == Sweep(buckets, now, window)
  {
    kept := buckets;
    var keys := buckets.Keys;
    while keys != {}
      invariant keys <= buckets.Keys
      invariant forall key :: key in kept <==> key in buckets && (key in keys || now < buckets[key].startedAt + window)
      invariant forall key | key in kept :: kept[key] == buckets[key]
      decreases keys
    {
      var key :| key in keys;
      if now >= kept[key].startedAt + window {
        kept := kept - {key};
      }
      keys := keys - {key};
    }
  }

  // ----- a swept map stands for one that is never swept -----

  /** The swept map lacks only buckets whose window was over at the last sweep. */
  ghost predicate Pruned(swept: Buckets, full: Buckets, lastSweep: Time, window: Time) {
    && (forall key | key in swept :: key in full && full[key] == swept[key])
    && (forall key | key in full && key !in swept :: full[key].startedAt + window <= lastSweep)
  }

  /** From the last sweep on, a missing bucket and one whose window is over are the same to every
      decision. */
  lemma PrunedDecides(swept: Buckets, full: Buckets, lastSweep: Time, window: Time, key: string, now: Time)
    requires Pruned(swept, full, lastSweep, window) && now >= lastSweep
    ensures forall limit :: BucketAllows(Get(swept, key), limit, now, window) ==
              BucketAllows(Get(full, key), limit, now, window)
    ensures ReserveBucket(Get(swept, key), now, window) == ReserveBucket(Get(full, key), now, window)
    ensures CompleteFailedAttempt(Get(swept, key), now, window) == CompleteFailedAttempt(Get(full, key), now, window)
  {
  }

  lemma PrunedReserves(swept: Buckets, full: Buckets, lastSweep: Time, window: Time, key: string, now: Time)
    requires Pruned(swept, full, lastSweep, window) && now >= lastSweep
    ensures Pruned(swept[key := ReserveBucket(Get(swept, key), now, window)],
                   full[key := ReserveBucket(Get(full, key), now, window)], lastSweep, window)
  {
  }

  lemma PrunedFails(swept: Buckets, full: Buckets, lastSweep: Time, window: Time, key: string, now: Time)
    requires Pruned(swept, full, lastSweep, window) && now >= lastSweep
    ensures Pruned(swept[key := CompleteFailedAttempt(Get(swept, key), now, window)],
                   full[key := CompleteFailedAttempt(Get(full, key), now, window)], lastSweep, window)
  {
  }

  lemma PrunedReleases(swept: Buckets, full: Buckets, lastSweep: Time, window: Time, key: string)
    requires Pruned(swept, full, lastSweep, window)
    ensures Pruned(swept - {key}, full - {key}, lastSweep, window)
    ensures Pruned(ReleaseReservation(swept, key), ReleaseReservation(full, key), lastSweep, window)
  {
  }

  lemma SweepPrunes(swept: Buckets, full: Buckets, lastSweep: Time, window: Time, now: Time)
    requires Pruned(swept, full, lastSweep, window) && now >= lastSweep
    ensures Pruned(Sweep(swept, now, window), full, now, window)
  {
  }

  /** Only then: an operation at an earlier time tells a dropped bucket from one that was kept. */
  lemma DroppedExactlyWhenOver(b: Bucket, now: Time, window: Time)
    requires b.failures >= 0 && b.pending >= 0 && b.failures + b.pending >= 1
    ensures Over(b, now, window) <==>
            && (forall limit | limit >= 1 :: BucketAllows(b, limit, now, window) ==
                 BucketAllows(Get(map[], ""), limit, now, window))
            && ReserveBucket(b, now, window) == ReserveBucket(Get(map[], ""), now, window)
            && CompleteFailedAttempt(b, now, window) == CompleteFailedAttempt(Get(map[], ""), now, window)
  {
    assert !Over(b, now, window) ==> BucketAllows(b, 1, now, window) != BucketAllows(Get(map[], ""), 1, now, window);
  }

  predicate AnswersAlike(a: Bucket, b: Bucket, limit: int, now: Time, window: Time) {
    && BucketAllows(a, limit, now, window) == BucketAllows(b, limit, now, window)
    && ReserveBucket(a, now, window) == ReserveBucket(b, now, window)
    && CompleteFailedAttempt(a, now, window) == CompleteFailedAttempt(b, now, window)
  }

  /** No Allow or RecordFailure at `now` depends on whether the map was swept at `sweptAt`. */
  ghost predicate SweepUnnoticed(sweptAt: Time, now: Time, window: Time) {
    forall buckets: Buckets, key, limit | limit >= 1 ::
      AnswersAlike(Get(Sweep(buckets, sweptAt, window), key), Get(buckets, key), limit, now, window)
  }

  /** A sweep goes unnoticed exactly by the times that are not before it. */
  lemma SweepUnnoticedExactly(sweptAt: Time, now: Time, window: Time)
    requires window > 0 && sweptAt > window
    ensures SweepUnnoticed(sweptAt, now, window) <==> now >= sweptAt
  {
    if now < sweptAt {
      var b := Bucket(1, 0, sweptAt - window);
      var buckets: Buckets := map["" := b];
      assert Get(Sweep(buckets, sweptAt, window), "") == Bucket(0, 0, 0);
      assert Get(buckets, "") == b;
      assert !AnswersAlike(Bucket(0, 0, 0), b, 1, now, window);
    }
  }

  // ----- the age of what is stored -----

  ghost predicate StartedAfter(buckets: Buckets, t: Time) {
    forall key | key in buckets :: buckets[key].startedAt > t
  }

  /** Every operation at `now` keeps stored buckets younger than any bound before `now`. */
  lemma StartedAfterKept(buckets: Buckets, t: Time, key: string, now: Time, window: Time)
    requires StartedAfter(buckets, t) && now > t
    ensures StartedAfter(buckets[key := ReserveBucket(Get(buckets, key), now, window)], t)
    ensures StartedAfter(buckets[key := CompleteFailedAttempt(Get(buckets, key), now, window)], t)
  {
  }

  lemma StartedAfterReleased(buckets: Buckets, t: Time, key: string)
    requires StartedAfter(buckets, t)
    ensures StartedAfter(buckets - {key}, t) && StartedAfter(ReleaseReservation(buckets, key), t)
  {
  }

  // ----- the budget of a bucket -----

  /** For each bucket, how many RecordFailure calls have found it running with no reservation left. */
  type Unreserved = map<string, nat>

  function Extra(unreserved: Unreserved, key: string): nat {
    if key in unreserved then unreserved[key] else 0
  }

  function UnreservedAfterReserve(unreserved: Unreserved, b: Bucket, key: string, now: Time, window: Time): Unreserved {
    if Over(b, now, window) then unreserved[key := 0] else unreserved
  }

  function UnreservedAfterFailure(unreserved: Unreserved, b: Bucket, key: string, now: Time, window: Time): Unreserved {
    if Over(b, now, window) then unreserved[key := 0]
    else if b.pending <= 0 then unreserved[key := Extra(unreserved, key) + 1]
    else unreserved
  }

  ghost predicate WithinBudget(buckets: Buckets, unreserved: Unreserved, limit: int) {
    forall key | key in buckets ::
      && buckets[key].failures >= 0 && buckets[key].pending >= 0
      && buckets[key].failures + buckets[key].pending <= limit + Extra(unreserved, key)
  }

  lemma ReserveKeepsBudget(buckets: Buckets, unreserved: Unreserved, limit: int, key: string, now: Time, window: Time)
    requires limit >= 1 && WithinBudget(buckets, unreserved, limit) &&
               BucketAllows(Get(buckets, key), limit, now, window)
    ensures WithinBudget(buckets[key := ReserveBucket(Get(buckets, key), now, window)],
                         UnreservedAfterReserve(unreserved, Get(buckets, key), key, now, window), limit)
  {
  }

  lemma FailureKeepsBudget(buckets: Buckets, unreserved: Unreserved, limit: int, key: string, now: Time, window: Time)
    requires limit >= 1 && WithinBudget(buckets, unreserved, limit)
    ensures WithinBudget(buckets[key := CompleteFailedAttempt(Get(buckets, key), now, window)],
                         UnreservedAfterFailure(unreserved, Get(buckets, key), key, now, window), limit)
  {
  }

  lemma ReleaseKeepsBudget(buckets: Buckets, unreserved: Unreserved, limit: int, key: string)
    requires WithinBudget(buckets, unreserved, limit)
    ensures WithinBudget(ReleaseReservation(buckets, key), unreserved, limit)
  {
  }
}
