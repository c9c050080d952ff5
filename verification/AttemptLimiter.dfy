/** The login limiter, by username and by source IP: internal/application/authentication/limiter.go. */
module AttemptLimiters {
  import opened AttemptBuckets
  import opened AttemptRuns

  class AttemptLimiter {
    const usernameLimit: int
    const ipLimit: int
    const window: Time
    const keyOf: string -> string   // limiterUsernameKey
    var usernames: Buckets
    var ipAddresses: Buckets
    var nextCleanup: Time
    ghost var usernamesUnreserved: Unreserved
    ghost var ipsUnreserved: Unreserved

    function Settings(): Config {
      Config([usernameLimit, ipLimit], window)
    }

    function View(): State
      reads this
    {
      State([usernames, ipAddresses], nextCleanup)
    }

    function KeysOf(username: string, sourceIP: string): Keys {
      [keyOf(username), sourceIP]
    }

    /** Per bucket, failures and reservations together stay within the limit, but for the failures
        that were recorded with no reservation left. */
    ghost predicate Valid()
      reads this
    {
      && usernameLimit >= 1 && ipLimit >= 1
      && WithinBudget(usernames, usernamesUnreserved, usernameLimit)
      && WithinBudget(ipAddresses, ipsUnreserved, ipLimit)
    }

    constructor (usernameLimit: int, ipLimit: int, window: Time, keyOf: string -> string)
      requires usernameLimit >= 1 && ipLimit >= 1
      ensures Valid() && View() == Init(2) && Settings() == Config([usernameLimit, ipLimit], window) &&
                this.keyOf == keyOf
    {
      this.usernameLimit, this.ipLimit, this.window, this.keyOf := usernameLimit, ipLimit, window, keyOf;
      usernames, ipAddresses, nextCleanup := map[], map[], 0;
      usernamesUnreserved, ipsUnreserved := map[], map[];
    }

    method CleanupExpired(now: Time)
      requires Valid()
      modifies this`usernames, this`ipAddresses, this`nextCleanup
      ensures Valid() && View() == Cleaned(Settings(), old(View()), now)
    {
      if nextCleanup != 0 && now < nextCleanup {
        return;
      }
      usernames := SweepMap(usernames, now, window);
      ipAddresses := SweepMap(ipAddresses, now, window);
      nextCleanup := now + window;
    }

    /** Reserves in both maps or in neither. */
    method Allow(username: string, sourceIP: string, now: Time) returns (allowed: bool)
      requires Valid()
      modifies this
      ensures Valid()
      ensures allowed == Permits(Settings(), Cleaned(Settings(), old(View()), now), KeysOf(username, sourceIP), now)
      ensures View() == if allowed then Reserved(Settings(), Cleaned(Settings(), old(View()), now),
                KeysOf(username, sourceIP), now)
                        else Cleaned(Settings(), old(View()), now)
    {
      hide Cleaned, WithinBudget, ReserveBucket, BucketAllows, Get;
      CleanupExpired(now);
      var usernameKey := keyOf(username);
      var usernameBucket := Get(usernames, usernameKey);
      var ipBucket := Get(ipAddresses, sourceIP);
      PermitsBoth(Settings(), View(), KeysOf(username, sourceIP), now);
      if !BucketAllows(usernameBucket, usernameLimit, now, window) || !BucketAllows(ipBucket, ipLimit, now, window) {
        return false;
      }
      ReserveKeepsBudget(usernames, usernamesUnreserved, usernameLimit, usernameKey, now, window);
      ReserveKeepsBudget(ipAddresses, ipsUnreserved, ipLimit, sourceIP, now, window);
      usernames := usernames[usernameKey := ReserveBucket(usernameBucket, now, window)];
      ipAddresses := ipAddresses[sourceIP := ReserveBucket(ipBucket, now, window)];
      usernamesUnreserved := UnreservedAfterReserve(usernamesUnreserved, usernameBucket, usernameKey, now, window);
      ipsUnreserved := UnreservedAfterReserve(ipsUnreserved, ipBucket, sourceIP, now, window);
      return true;
    }

    method RecordFailure(username: string, sourceIP: string, now: Time)
      requires Valid()
      modifies this
      ensures Valid() && View() == Failed(Settings(), Cleaned(Settings(), old(View()), now),
                KeysOf(username, sourceIP), now)
    {
      hide Cleaned, WithinBudget, CompleteFailedAttempt, Get;
      CleanupExpired(now);
      var usernameKey := keyOf(username);
      var usernameBucket := Get(usernames, usernameKey);
      var ipBucket := Get(ipAddresses, sourceIP);
      FailureKeepsBudget(usernames, usernamesUnreserved, usernameLimit, usernameKey, now, window);
      FailureKeepsBudget(ipAddresses, ipsUnreserved, ipLimit, sourceIP, now, window);
      usernames := usernames[usernameKey := CompleteFailedAttempt(usernameBucket, now, window)];
      ipAddresses := ipAddresses[sourceIP := CompleteFailedAttempt(ipBucket, now, window)];
      usernamesUnreserved := UnreservedAfterFailure(usernamesUnreserved, usernameBucket, usernameKey, now, window);
      ipsUnreserved := UnreservedAfterFailure(ipsUnreserved, ipBucket, sourceIP, now, window);
    }

    /** Forgets the user's failures, and releases the address's reservation only. */
    method RecordSuccess(username: string, sourceIP: string)
      requires Valid()
      modifies this`usernames, this`ipAddresses
      ensures Valid() && View() == Settled(old(View()), KeysOf(username, sourceIP), [true, false])
    {
      ReleaseKeepsBudget(ipAddresses, ipsUnreserved, ipLimit, sourceIP);
      usernames := usernames - {keyOf(username)};
      ipAddresses := ReleaseReservation(ipAddresses, sourceIP);
    }

    method Cancel(username: string, sourceIP: string)
      requires Valid()
      modifies this`usernames, this`ipAddresses
      ensures Valid() && View() == Settled(old(View()), KeysOf(username, sourceIP), [false, false])
    {
      ReleaseKeepsBudget(usernames, usernamesUnreserved, usernameLimit, keyOf(username));
      ReleaseKeepsBudget(ipAddresses, ipsUnreserved, ipLimit, sourceIP);
      usernames := ReleaseReservation(usernames, keyOf(username));
      ipAddresses := ReleaseReservation(ipAddresses, sourceIP);
    }
  }

  lemma PermitsBoth(c: Config, s: State, keys: Keys, now: Time)
    requires |c.limits| == |s.maps| == |keys| == 2
    ensures Permits(c, s, keys, now) <==>
              BucketAllows(Get(s.maps[0], keys[0]), c.limits[0], now, c.window) &&
                BucketAllows(Get(s.maps[1], keys[1]), c.limits[1], now, c.window)
  {
    assert BucketAt(s, keys, 0) == Get(s.maps[0], keys[0]) && BucketAt(s, keys, 1) == Get(s.maps[1], keys[1]);
  }
}
