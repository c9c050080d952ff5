/** A failure that is recorded with a time before the last sweep, as the handlers can make it
    (internal/api/password_enrollment.go:129-161, internal/api/authentication.go:167-209): when exactly
    it lets the sweep show later on. */
module LateFailures {
  import opened AttemptBuckets
  import opened AttemptRuns

  // ----- buckets that decide alike from a time on -----

  predicate AlikeAt(swept: Buckets, full: Buckets, key: string, since: Time, window: Time) {
    var a, b := Get(swept, key), Get(full, key);
    a == b || (Over(a, since, window) && Over(b, since, window))
  }

  ghost predicate Alike(swept: Buckets, full: Buckets, since: Time, window: Time) {
    forall key :: AlikeAt(swept, full, key, since, window)
  }

  lemma AlikeDecides(swept: Buckets, full: Buckets, since: Time, window: Time, key: string, now: Time)
    requires Alike(swept, full, since, window) && now >= since
    ensures forall limit :: BucketAllows(Get(swept, key), limit, now, window) ==
              BucketAllows(Get(full, key), limit, now, window)
    ensures ReserveBucket(Get(swept, key), now, window) == ReserveBucket(Get(full, key), now, window)
    ensures CompleteFailedAttempt(Get(swept, key), now, window) == CompleteFailedAttempt(Get(full, key), now, window)
  {
    assert AlikeAt(swept, full, key, since, window);
  }

  lemma AlikeUpdated(swept: Buckets, full: Buckets, since: Time, window: Time, key: string, b: Bucket)
    requires Alike(swept, full, since, window)
    ensures Alike(swept[key := b], full[key := b], since, window)
  {
    var swept', full' := swept[key := b], full[key := b];
    forall k
      ensures AlikeAt(swept', full', k, since, window)
    {
      assert AlikeAt(swept, full, k, since, window);
    }
  }

  lemma AlikeSettled(swept: Buckets, full: Buckets, since: Time, window: Time, key: string, forget: bool)
    requires Alike(swept, full, since, window)
    ensures Alike(SettledMap(swept, key, forget), SettledMap(full, key, forget), since, window)
  {
    forall k
      ensures AlikeAt(SettledMap(swept, key, forget), SettledMap(full, key, forget), k, since, window)
    {
      assert AlikeAt(swept, full, k, since, window);
    }
  }

  lemma AlikeSwept(swept: Buckets, full: Buckets, since: Time, window: Time, now: Time)
    requires Alike(swept, full, since, window) && now >= since
    ensures Alike(Sweep(swept, now, window), full, now, window)
  {
    forall k
      ensures AlikeAt(Sweep(swept, now, window), full, k, now, window)
    {
      assert AlikeAt(swept, full, k, since, window);
    }
  }

  ghost predicate StatesAlike(c: Config, swept: State, full: State) {
    && swept.nextCleanup != 0 && |swept.maps| == |full.maps|
    && forall i | 0 <= i < |swept.maps| :: Alike(swept.maps[i], full.maps[i], swept.nextCleanup - c.window, c.window)
  }

  lemma CleanedAlike(c: Config, swept: State, full: State, now: Time)
    requires c.window > 0 && StatesAlike(c, swept, full) && now > 0 && now >= swept.nextCleanup - c.window
    ensures var s := Cleaned(c, swept, now); StatesAlike(c, s, full) && now >= s.nextCleanup - c.window
  {
    hide Alike, Sweep;
    if SweepDue(swept, now) {
      forall i | 0 <= i < |swept.maps|
        ensures Alike(Sweep(swept.maps[i], now, c.window), full.maps[i], now, c.window)
      {
        AlikeSwept(swept.maps[i], full.maps[i], swept.nextCleanup - c.window, c.window, now);
      }
    }
  }

  lemma ChargeAlike(c: Config, swept: State, full: State, keys: Keys, now: Time)
    requires StatesAlike(c, swept, full) && now >= swept.nextCleanup - c.window
    ensures Permits(c, swept, keys, now) == Permits(c, full, keys, now)
    ensures StatesAlike(c, Reserved(c, swept, keys, now), Reserved(c, full, keys, now))
    ensures StatesAlike(c, Failed(c, swept, keys, now), Failed(c, full, keys, now))
  {
    hide Alike, Get, BucketAllows, ReserveBucket, CompleteFailedAttempt;
    var since := swept.nextCleanup - c.window;
    forall i | 0 <= i < |swept.maps|
      ensures BucketAllows(BucketAt(swept, keys, i), LimitAt(c, i), now, c.window) ==
                BucketAllows(BucketAt(full, keys, i), LimitAt(c, i), now, c.window)
      ensures Alike(Reserved(c, swept, keys, now).maps[i], Reserved(c, full, keys, now).maps[i], since, c.window)
      ensures Alike(Failed(c, swept, keys, now).maps[i], Failed(c, full, keys, now).maps[i], since, c.window)
    {
      var key := KeyAt(keys, i);
      AlikeDecides(swept.maps[i], full.maps[i], since, c.window, key, now);
      AlikeUpdated(swept.maps[i], full.maps[i], since, c.window, key,
        ReserveBucket(Get(swept.maps[i], key), now, c.window));
      AlikeUpdated(swept.maps[i], full.maps[i], since, c.window, key,
        CompleteFailedAttempt(Get(swept.maps[i], key), now, c.window));
    }
  }

  lemma SettledAlike(c: Config, swept: State, full: State, keys: Keys, forgets: seq<bool>)
    requires StatesAlike(c, swept, full)
    ensures StatesAlike(c, Settled(swept, keys, forgets), Settled(full, keys, forgets))
  {
    hide Alike, SettledMap;
    forall i | 0 <= i < |swept.maps|
      ensures Alike(Settled(swept, keys, forgets).maps[i], Settled(full, keys, forgets).maps[i],
                swept.nextCleanup - c.window, c.window)
    {
      AlikeSettled(swept.maps[i], full.maps[i], swept.nextCleanup - c.window, c.window, KeyAt(keys, i),
        i < |forgets| && forgets[i]);
    }
  }

  lemma StepAlike(c: Config, swept: History, full: History, e: Event)
    requires c.window > 0 && StatesAlike(c, swept.state, full.state) && swept.answers == full.answers
    requires NotBeforeSweep(c, swept.state, e)
    ensures var swept', full' := Step(c, true, swept, e), Step(c, false, full, e);
            StatesAlike(c, swept'.state, full'.state) && swept'.answers == full'.answers
  {
    hide Alike, Cleaned, Permits, Reserved, Failed, Settled;
    if Timed(e) {
      CleanedAlike(c, swept.state, full.state, e.now);
      ChargeAlike(c, Cleaned(c, swept.state, e.now), full.state, e.keys, e.now);
    } else {
      SettledAlike(c, swept.state, full.state, e.keys, e.forgets);
    }
  }

  // ----- continuations -----

  ghost predicate InOrderAfter(c: Config, before: seq<Event>, more: seq<Event>) {
    forall i | 0 <= i < |more| :: NotBeforeSweep(c, Run(c, true, before + more[..i]).state, more[i])
  }

  /** No continuation whose times are in order again can tell the two limiters apart. */
  ghost predicate Unnoticed(c: Config, before: seq<Event>) {
    forall more | InOrderAfter(c, before, more) ::
      Run(c, true, before + more).answers == Run(c, false, before + more).answers
  }

  lemma {:induction false} AlikeStaysUnnoticed(c: Config, before: seq<Event>, more: seq<Event>)
    requires c.window > 0 && InOrderAfter(c, before, more)
    requires StatesAlike(c, Run(c, true, before).state, Run(c, false, before).state)
    requires Run(c, true, before).answers == Run(c, false, before).answers
    ensures StatesAlike(c, Run(c, true, before + more).state, Run(c, false, before + more).state)
    ensures Run(c, true, before + more).answers == Run(c, false, before + more).answers
  {
    hide StatesAlike, Step, Run;
    if more == [] {
      assert before + more == before;
    } else {
      var less, e := more[..|more| - 1], more[|more| - 1];
      assert before + more == before + less + [e];
      assert forall i | 0 <= i < |less| :: less[..i] == more[..i];
      AlikeStaysUnnoticed(c, before, less);
      RunSnoc(c, true, before + less, e);
      RunSnoc(c, false, before + less, e);
      StepAlike(c, Run(c, true, before + less), Run(c, false, before + less), e);
    }
  }

  // ----- the late failure -----

  /** In one map: the key is stored there, or its window was over anyway, or what the failure starts is
      over by the last sweep. */
  predicate HiddenIn(swept: Buckets, full: Buckets, key: string, now: Time, window: Time, lastSweep: Time) {
    key in swept || Over(Get(full, key), now, window) || now + window <= lastSweep
  }

  predicate HiddenEverywhere(c: Config, swept: State, full: State, keys: Keys, now: Time)
    requires |swept.maps| == |full.maps|
  {
    forall i | 0 <= i < |swept.maps| ::
      HiddenIn(swept.maps[i], full.maps[i], KeyAt(keys, i), now, c.window, swept.nextCleanup - c.window)
  }

  lemma FailedMapAlike(swept: Buckets, full: Buckets, lastSweep: Time, window: Time, key: string, now: Time)
    requires Pruned(swept, full, lastSweep, window) && HiddenIn(swept, full, key, now, window, lastSweep)
    ensures Alike(swept[key := CompleteFailedAttempt(Get(swept, key), now, window)],
                  full[key := CompleteFailedAttempt(Get(full, key), now, window)], lastSweep, window)
  {
  }

  /** After an in-order run. */
  lemma LateFailureHidden(c: Config, events: seq<Event>, keys: Keys, now: Time)
    requires c.window > 0 && InOrder(c, events)
    requires var next := Run(c, true, events).state.nextCleanup; next != 0 && now < next - c.window
    requires |Run(c, true, events).state.maps| == |Run(c, false, events).state.maps|
    requires HiddenEverywhere(c, Run(c, true, events).state, Run(c, false, events).state, keys, now)
    ensures Unnoticed(c, events + [Failure(keys, now)])
  {
    hide Alike, Pruned, InOrder, Run, HiddenIn, Get, CompleteFailedAttempt;
    var late := Failure(keys, now);
    var swept, full := Run(c, true, events), Run(c, false, events);
    SweepingIsInvisible(c, events);
    RunSnoc(c, true, events, late);
    RunSnoc(c, false, events, late);
    forall i | 0 <= i < |swept.state.maps|
      ensures Alike(Failed(c, swept.state, keys, now).maps[i], Failed(c, full.state, keys, now).maps[i],
                swept.state.nextCleanup - c.window, c.window)
    {
      FailedMapAlike(swept.state.maps[i], full.state.maps[i], swept.state.nextCleanup - c.window, c.window,
        KeyAt(keys, i), now);
    }
    forall more | InOrderAfter(c, events + [late], more)
      ensures Run(c, true, events + [late] + more).answers == Run(c, false, events + [late] + more).answers
    {
      AlikeStaysUnnoticed(c, events + [late], more);
    }
  }

  // ----- the other direction: a continuation that shows it -----

  /** `n` failures at one time, none of them with a sweep. */
  function FailTimes(c: Config, s: State, keys: Keys, now: Time, n: nat): State {
    if n == 0 then s else Failed(c, FailTimes(c, s, keys, now, n - 1), keys, now)
  }

  function Repeated(keys: Keys, now: Time, n: nat): seq<Event> {
    if n == 0 then [] else Repeated(keys, now, n - 1) + [Failure(keys, now)]
  }

  lemma {:induction false} FailTimesShape(c: Config, s: State, keys: Keys, now: Time, n: nat)
    ensures var t := FailTimes(c, s, keys, now, n);
            && t.nextCleanup == s.nextCleanup && |t.maps| == |s.maps|
            && forall i, k | 0 <= i < |s.maps| && k != KeyAt(keys, i) :: k in t.maps[i] <==> k in s.maps[i]
  {
    if n > 0 {
      FailTimesShape(c, s, keys, now, n - 1);
    }
  }

  lemma {:induction false} RunRepeated(c: Config, sweeping: bool, before: seq<Event>, keys: Keys, now: Time, n: nat)
    requires sweeping ==> Run(c, true, before).state.nextCleanup != 0 && now < Run(c, true, before).state.nextCleanup
    ensures var h := Run(c, sweeping, before);
            Run(c, sweeping, before + Repeated(keys, now, n)) == History(FailTimes(c, h.state, keys, now, n), h.answers)
  {
    hide Run, Failed;
    var h := Run(c, sweeping, before);
    if n == 0 {
      assert before + [] == before;
    } else {
      RunRepeated(c, sweeping, before, keys, now, n - 1);
      assert before + Repeated(keys, now, n) == before + Repeated(keys, now, n - 1) + [Failure(keys, now)];
      RunSnoc(c, sweeping, before + Repeated(keys, now, n - 1), Failure(keys, now));
      FailTimesShape(c, h.state, keys, now, n - 1);
    }
  }

  /** A running bucket goes on counting; one that is over starts again. */
  lemma {:induction false} RepeatedInMap(c: Config, s: State, keys: Keys, now: Time, n: nat, i: nat)
    requires i < |s.maps| && now > 0 && c.window > 0
    ensures var b, after := BucketAt(s, keys, i), BucketAt(FailTimes(c, s, keys, now, n), keys, i);
            && (!Over(b, now, c.window) && b.pending == 0 ==>
                  after == Bucket(b.failures + n, 0, b.startedAt))
            && (Over(b, now, c.window) ==> after == if n == 0 then b else Bucket(n, 0, now))
  {
    if n > 0 {
      RepeatedInMap(c, s, keys, now, n - 1, i);
      FailTimesShape(c, s, keys, now, n - 1);
    }
  }

  lemma {:induction false} RepeatedAt(keys: Keys, now: Time, n: nat)
    ensures |Repeated(keys, now, n)| == n && forall i | 0 <= i < n :: Repeated(keys, now, n)[i] == Failure(keys, now)
    ensures forall i | 0 <= i <= n :: Repeated(keys, now, n)[..i] == Repeated(keys, now, i)
  {
    if n > 0 {
      RepeatedAt(keys, now, n - 1);
      forall i | 0 <= i <= n
        ensures Repeated(keys, now, n)[..i] == Repeated(keys, now, i)
      {
        if i < n {
          assert Repeated(keys, now, n)[..i] == Repeated(keys, now, n - 1)[..i];
        }
      }
    }
  }

  function Only(i: nat, key: string, other: string, n: nat): Keys {
    seq(n, j => if j == i then key else other)
  }

  lemma {:induction false} LongestKey(m: set<string>) returns (n: nat)
    ensures forall key | key in m :: |key| <= n
  {
    n := 0;
    if m != {} {
      var key :| key in m;
      n := LongestKey(m - {key});
      n := if |key| > n then |key| else n;
    }
  }

  lemma {:induction false} LongestKeyOf(maps: seq<Buckets>) returns (n: nat)
    ensures forall i, key | 0 <= i < |maps| && key in maps[i] :: |key| <= n
  {
    n := 0;
    if maps != [] {
      n := LongestKeyOf(maps[1..]);
      var first := LongestKey(maps[0].Keys);
      var most := if first > n then first else n;
      forall i, key | 0 <= i < |maps| && key in maps[i]
        ensures |key| <= most
      {
        assert i > 0 ==> maps[i] == maps[1..][i - 1];
      }
      n := most;
    }
  }

  function Long(n: nat): string {
    seq(n, i => 'a')
  }

  lemma {:induction false} SweptAtAPositiveTime(c: Config, events: seq<Event>)
    requires c.window > 0 && InOrder(c, events)
    ensures var next := Run(c, true, events).state.nextCleanup; next == 0 || next - c.window > 0
    decreases |events|
  {
    hide Step, InOrder;
    if events != [] {
      var before := events[..|events| - 1];
      InOrderBefore(c, events);
      SweptAtAPositiveTime(c, before);
      KeepsNextCleanup(c, Run(c, true, before), events[|events| - 1]);
    }
  }

  /** The failures that fill a bucket up to the limit. */
  function Filling(limit: int): nat {
    if limit >= 1 then limit - 1 else 0
  }

  /** The late failure's own bucket is still running: with it the limit is reached. */
  lemma SweptRefuses(c: Config, s: State, i: nat, key: string, others: string, unseen: string, at: Time)
    requires c.window > 0 && at > 0 && i < |s.maps|
    requires var b := Get(s.maps[i], key); !Over(b, at, c.window) && b.pending == 0 && b.failures == 1
    ensures var n, k := |s.maps|, Filling(LimitAt(c, i));
            !Permits(c, FailTimes(c, s, Only(i, key, others, n), at, k), Only(i, key, unseen, n), at)
  {
    var n, k := |s.maps|, Filling(LimitAt(c, i));
    var keys := Only(i, key, others, n);
    var t := FailTimes(c, s, keys, at, k);
    RepeatedInMap(c, s, keys, at, k, i);
    FailTimesShape(c, s, keys, at, k);
    assert BucketAt(t, Only(i, key, unseen, n), i) == BucketAt(t, keys, i);
    assert !BucketAllows(BucketAt(t, Only(i, key, unseen, n), i), LimitAt(c, i), at, c.window);
  }

  /** Without it they stay one below, and unseen keys are let in everywhere else. */
  lemma FullLetsIn(c: Config, s: State, i: nat, key: string, others: string, unseen: string, at: Time)
    requires c.window > 0 && at > 0 && i < |s.maps| && unseen != others
    requires Over(Get(s.maps[i], key), at, c.window) && forall j | 0 <= j < |s.maps| :: unseen !in s.maps[j]
    ensures var n, k := |s.maps|, Filling(LimitAt(c, i));
            Permits(c, FailTimes(c, s, Only(i, key, others, n), at, k), Only(i, key, unseen, n), at)
  {
    var n, k := |s.maps|, Filling(LimitAt(c, i));
    var keys, last := Only(i, key, others, n), Only(i, key, unseen, n);
    var t := FailTimes(c, s, keys, at, k);
    RepeatedInMap(c, s, keys, at, k, i);
    FailTimesShape(c, s, keys, at, k);
    forall j | 0 <= j < |t.maps|
      ensures BucketAllows(BucketAt(t, last, j), LimitAt(c, j), at, c.window)
    {
      if j == i {
        assert BucketAt(t, last, i) == BucketAt(t, keys, i);
      } else {
        assert KeyAt(last, j) == unseen && KeyAt(keys, j) == others;
        assert unseen !in t.maps[j];
      }
    }
  }

  lemma AnswerAfterFailures(c: Config, sweeping: bool, before: seq<Event>, keys: Keys, last: Keys, at: Time, n: nat)
    requires sweeping ==> Run(c, true, before).state.nextCleanup != 0 && at < Run(c, true, before).state.nextCleanup
    ensures var h := Run(c, sweeping, before);
            Run(c, sweeping, before + (Repeated(keys, at, n) + [Allow(last, at)])).answers
            == h.answers + [Permits(c, FailTimes(c, h.state, keys, at, n), last, at)]
  {
    hide Run, Permits, Failed, Reserved;
    var h := Run(c, sweeping, before);
    RunRepeated(c, sweeping, before, keys, at, n);
    FailTimesShape(c, h.state, keys, at, n);
    assert before + (Repeated(keys, at, n) + [Allow(last, at)]) == before + Repeated(keys, at, n) + [Allow(last, at)];
    RunSnoc(c, sweeping, before + Repeated(keys, at, n), Allow(last, at));
  }

  lemma FailuresInOrder(c: Config, before: seq<Event>, keys: Keys, last: Keys, at: Time, n: nat)
    requires var next := Run(c, true, before).state.nextCleanup; next != 0 && next - c.window <= at < next && at > 0
    ensures InOrderAfter(c, before, Repeated(keys, at, n) + [Allow(last, at)])
  {
    hide Run, Failed;
    var more := Repeated(keys, at, n) + [Allow(last, at)];
    RepeatedAt(keys, at, n);
    forall i | 0 <= i < |more|
      ensures NotBeforeSweep(c, Run(c, true, before + more[..i]).state, more[i])
    {
      assert more[..i] == Repeated(keys, at, n)[..i];
      RunRepeated(c, true, before, keys, at, i);
      FailTimesShape(c, Run(c, true, before).state, keys, at, i);
    }
  }

  lemma TellsApart(c: Config, before: seq<Event>, i: nat, key: string)
    requires c.window > 0
    requires var swept, full := Run(c, true, before), Run(c, false, before);
             && swept.answers == full.answers && i < |swept.state.maps| == |full.state.maps|
             && swept.state.nextCleanup != 0 && swept.state.nextCleanup - c.window > 0
             && var at := swept.state.nextCleanup - c.window;
                && key in swept.state.maps[i] && !Over(swept.state.maps[i][key], at, c.window)
                && swept.state.maps[i][key].pending == 0 && swept.state.maps[i][key].failures == 1
                && key in full.state.maps[i] && Over(full.state.maps[i][key], at, c.window)
    ensures !Unnoticed(c, before)
  {
    hide Run, Permits, InOrderAfter, FailTimes, Repeated;
    var s, f := Run(c, true, before).state, Run(c, false, before).state;
    var at, n := s.nextCleanup - c.window, |s.maps|;
    var longest := LongestKeyOf(f.maps);
    var others, unseen := Long(longest + 1), Long(longest + 2);
    assert |others| != |unseen| && forall j | 0 <= j < n :: unseen !in f.maps[j];
    var k := Filling(LimitAt(c, i));
    var keys, last := Only(i, key, others, n), Only(i, key, unseen, n);
    SweptRefuses(c, s, i, key, others, unseen, at);
    FullLetsIn(c, f, i, key, others, unseen, at);
    AnswerAfterFailures(c, true, before, keys, last, at, k);
    AnswerAfterFailures(c, false, before, keys, last, at, k);
    FailuresInOrder(c, before, keys, last, at, k);
    var more := Repeated(keys, at, k) + [Allow(last, at)];
    assert Run(c, true, before + more).answers[|Run(c, true, before).answers|]
        != Run(c, false, before + more).answers[|Run(c, true, before).answers|];
  }

  lemma LateFailureShows(c: Config, events: seq<Event>, keys: Keys, now: Time, i: nat)
    requires c.window > 0 && InOrder(c, events)
    requires var next := Run(c, true, events).state.nextCleanup; next != 0 && 0 < now < next - c.window
    requires var swept, full := Run(c, true, events).state, Run(c, false, events).state;
             && i < |swept.maps| == |full.maps|
             && !HiddenIn(swept.maps[i], full.maps[i], KeyAt(keys, i), now, c.window, swept.nextCleanup - c.window)
    ensures !Unnoticed(c, events + [Failure(keys, now)])
  {
    hide Run, InOrder, Unnoticed;
    var late := Failure(keys, now);
    var swept, full := Run(c, true, events), Run(c, false, events);
    SweepingIsInvisible(c, events);
    SweptAtAPositiveTime(c, events);
    RunSnoc(c, true, events, late);
    RunSnoc(c, false, events, late);
    assert MapStandsFor(c, swept.state.maps[i], full.state.maps[i], swept.state.nextCleanup);
    TellsApart(c, events + [late], i, KeyAt(keys, i));
  }

  /** A late failure, after a run in order, stays unnoticed in every continuation in order if and only
      if in each map its key is stored, or the key's window was over at the failure's time, or the
      window that the failure starts is over by the last sweep. */
  lemma LateFailureExactly(c: Config, events: seq<Event>, keys: Keys, now: Time)
    requires c.window > 0 && InOrder(c, events)
    requires var next := Run(c, true, events).state.nextCleanup; next != 0 && 0 < now < next - c.window
    ensures |Run(c, true, events).state.maps| == |Run(c, false, events).state.maps|
    ensures Unnoticed(c, events + [Failure(keys, now)]) <==>
              HiddenEverywhere(c, Run(c, true, events).state, Run(c, false, events).state, keys, now)
  {
    hide Run, InOrder, Unnoticed, HiddenIn, MapStandsFor;
    SweepingIsInvisible(c, events);
    var swept, full := Run(c, true, events).state, Run(c, false, events).state;
    if HiddenEverywhere(c, swept, full, keys, now) {
      LateFailureHidden(c, events, keys, now);
    } else {
      var i :| 0 <= i < |swept.maps|
        && !HiddenIn(swept.maps[i], full.maps[i], KeyAt(keys, i), now, c.window, swept.nextCleanup - c.window);
      LateFailureShows(c, events, keys, now, i);
    }
  }
}
