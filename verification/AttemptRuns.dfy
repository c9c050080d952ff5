/** What a limiter over one or more bucket maps does in the course of a run, and why sweeping them is
    invisible: internal/application/authentication/limiter.go (usernames and addresses) and
    internal/application/passwords/limiter.go (addresses only).
 */
module AttemptRuns {
  import opened AttemptBuckets

  /** The limit of each map. */
  datatype Config = Config(limits: seq<int>, window: Time)

  datatype State = State(maps: seq<Buckets>, nextCleanup: Time)

  /** An attempt has one key in each map. */
  type Keys = seq<string>

  function KeyAt(keys: Keys, i: nat): string {
    if i < |keys| then keys[i] else ""
  }

  function LimitAt(c: Config, i: nat): int {
    if i < |c.limits| then c.limits[i] else 0
  }

  function BucketAt(s: State, keys: Keys, i: nat): Bucket {
    if i < |s.maps| then Get(s.maps[i], KeyAt(keys, i)) else Bucket(0, 0, 0)
  }

  function Init(n: nat): State {
    State(seq(n, i => map[]), 0)
  }

  // ----- the operations on values -----

  predicate SweepDue(s: State, now: Time) {
    s.nextCleanup == 0 || now >= s.nextCleanup
  }

  function Cleaned(c: Config, s: State, now: Time): State {
    if SweepDue(s, now)
    then State(seq(|s.maps|, i requires 0 <= i < |s.maps| => Sweep(s.maps[i], now, c.window)), now + c.window)
    else s
  }

  predicate Permits(c: Config, s: State, keys: Keys, now: Time) {
    forall i | 0 <= i < |s.maps| :: BucketAllows(BucketAt(s, keys, i), LimitAt(c, i), now, c.window)
  }

  function Reserved(c: Config, s: State, keys: Keys, now: Time): State {
    s.(maps := seq(|s.maps|, i requires 0 <= i < |s.maps| => 
      s.maps[i][KeyAt(keys, i) := ReserveBucket(BucketAt(s, keys, i), now, c.window)]))
  }

  function Failed(c: Config, s: State, keys: Keys, now: Time): State {
    s.(maps := seq(|s.maps|, i requires 0 <= i < |s.maps| => 
      s.maps[i][KeyAt(keys, i) := CompleteFailedAttempt(BucketAt(s, keys, i), now, c.window)]))
  }

  /** A success or a cancellation: a map forgets the key's bucket or releases one reservation. */
  function Settled(s: State, keys: Keys, forgets: seq<bool>): State {
    s.(maps := seq(|s.maps|, i requires 0 <= i < |s.maps| => 
      SettledMap(s.maps[i], KeyAt(keys, i), i < |forgets| && forgets[i])))
  }

  function SettledMap(buckets: Buckets, key: string, forget: bool): Buckets {
    if forget then buckets - {key} else ReleaseReservation(buckets, key)
  }

  // ----- runs, with and without sweeping -----

  datatype Event =
    | Allow(keys: Keys, now: Time)
    | Failure(keys: Keys, now: Time)
    | Settle(keys: Keys, forgets: seq<bool>)

  datatype History = History(state: State, answers: seq<bool>)

  function Step(c: Config, sweeping: bool, h: History, e: Event): History {
    match e
    case Allow(keys, now) =>
      var s := if sweeping then Cleaned(c, h.state, now) else h.state;
      var allowed := Permits(c, s, keys, now);
      History(if allowed then Reserved(c, s, keys, now) else s, h.answers + [allowed])
    case Failure(keys, now) =>
      h.(state := Failed(c, if sweeping then Cleaned(c, h.state, now) else h.state, keys, now))
    case Settle(keys, forgets) => h.(state := Settled(h.state, keys, forgets))
  }

  function Run(c: Config, sweeping: bool, events: seq<Event>): History {
    if events == [] then History(Init(|c.limits|), [])
    else Step(c, sweeping, Run(c, sweeping, events[..|events| - 1]), events[|events| - 1])
  }

  lemma RunSnoc(c: Config, sweeping: bool, events: seq<Event>, e: Event)
    ensures Run(c, sweeping, events + [e]) == Step(c, sweeping, Run(c, sweeping, events), e)
  {
    assert (events + [e])[..|events|] == events;
  }

  predicate Timed(e: Event) {
    e.Allow? || e.Failure?
  }

  /** The time is a proper one and not before the last sweep. */
  predicate NotBeforeSweep(c: Config, s: State, e: Event) {
    Timed(e) ==> e.now > 0 && (s.nextCleanup != 0 ==> e.now >= s.nextCleanup - c.window)
  }

  ghost predicate InOrder(c: Config, events: seq<Event>) {
    forall i | 0 <= i < |events| :: NotBeforeSweep(c, Run(c, true, events[..i]).state, events[i])
  }

  lemma InOrderBefore(c: Config, events: seq<Event>)
    requires InOrder(c, events) && events != []
    ensures InOrder(c, events[..|events| - 1])
    ensures NotBeforeSweep(c, Run(c, true, events[..|events| - 1]).state, events[|events| - 1])
  {
    var before := events[..|events| - 1];
    forall i | 0 <= i < |before|
      ensures NotBeforeSweep(c, Run(c, true, before[..i]).state, before[i])
    {
      assert before[..i] == events[..i];
    }
  }

  // ----- sweeping is invisible -----

  /** A swept map stands for one that is never swept; before the first sweep both are empty. */
  ghost predicate MapStandsFor(c: Config, swept: Buckets, full: Buckets, nextCleanup: Time) {
    if nextCleanup == 0 then swept == full == map[] else Pruned(swept, full, nextCleanup - c.window, c.window)
  }

  ghost predicate StandsFor(c: Config, swept: State, full: State) {
    && swept.nextCleanup >= 0 && |swept.maps| == |full.maps|
    && forall i | 0 <= i < |swept.maps| :: MapStandsFor(c, swept.maps[i], full.maps[i], swept.nextCleanup)
  }

  lemma CleanedMapStandsFor(c: Config, swept: Buckets, full: Buckets, nextCleanup: Time, now: Time)
    requires c.window > 0 && MapStandsFor(c, swept, full, nextCleanup) && now > 0
    requires nextCleanup != 0 ==> now >= nextCleanup - c.window
    ensures MapStandsFor(c, Sweep(swept, now, c.window), full, now + c.window)
  {
    if nextCleanup != 0 {
      SweepPrunes(swept, full, nextCleanup - c.window, c.window, now);
    }
  }

  lemma CleanedStandsFor(c: Config, swept: State, full: State, now: Time)
    requires c.window > 0 && StandsFor(c, swept, full) && now > 0
    requires swept.nextCleanup != 0 ==> now >= swept.nextCleanup - c.window
    ensures var s := Cleaned(c, swept, now);
            StandsFor(c, s, full) && s.nextCleanup != 0 &&
            now >= s.nextCleanup - c.window
  {
    hide MapStandsFor, Sweep;
    if SweepDue(swept, now) {
      forall i | 0 <= i < |swept.maps|
        ensures MapStandsFor(c, Sweep(swept.maps[i], now, c.window), full.maps[i], now + c.window)
      {
        CleanedMapStandsFor(c, swept.maps[i], full.maps[i], swept.nextCleanup, now);
      }
    }
  }

  lemma PermitsAlike(c: Config, swept: State, full: State, keys: Keys, now: Time)
    requires StandsFor(c, swept, full) && swept.nextCleanup != 0 && now >= swept.nextCleanup - c.window
    ensures Permits(c, swept, keys, now) == Permits(c, full, keys, now)
  {
    hide Pruned, Get, BucketAllows;
    forall i | 0 <= i < |swept.maps|
      ensures BucketAllows(BucketAt(swept, keys, i), LimitAt(c, i), now, c.window) ==
                BucketAllows(BucketAt(full, keys, i), LimitAt(c, i), now, c.window)
    {
      PrunedDecides(swept.maps[i], full.maps[i], swept.nextCleanup - c.window, c.window, KeyAt(keys, i), now);
    }
  }

  lemma ChargeStandsFor(c: Config, swept: State, full: State, keys: Keys, now: Time)
    requires StandsFor(c, swept, full) && swept.nextCleanup != 0 && now >= swept.nextCleanup - c.window
    ensures StandsFor(c, Reserved(c, swept, keys, now), Reserved(c, full, keys, now))
    ensures StandsFor(c, Failed(c, swept, keys, now), Failed(c, full, keys, now))
  {
    hide Pruned, Get, ReserveBucket, CompleteFailedAttempt;
    forall i | 0 <= i < |swept.maps|
      ensures MapStandsFor(c, Reserved(c, swept, keys, now).maps[i], Reserved(c, full, keys, now).maps[i],
                swept.nextCleanup)
      ensures MapStandsFor(c, Failed(c, swept, keys, now).maps[i], Failed(c, full, keys, now).maps[i],
                swept.nextCleanup)
    {
      PrunedReserves(swept.maps[i], full.maps[i], swept.nextCleanup - c.window, c.window, KeyAt(keys, i), now);
      PrunedFails(swept.maps[i], full.maps[i], swept.nextCleanup - c.window, c.window, KeyAt(keys, i), now);
    }
  }

  lemma SettledStandsFor(c: Config, swept: State, full: State, keys: Keys, forgets: seq<bool>)
    requires StandsFor(c, swept, full)
    ensures StandsFor(c, Settled(swept, keys, forgets), Settled(full, keys, forgets))
  {
    hide Pruned;
    forall i | 0 <= i < |swept.maps|
      ensures MapStandsFor(c, Settled(swept, keys, forgets).maps[i], Settled(full, keys, forgets).maps[i],
                swept.nextCleanup)
    {
      if swept.nextCleanup != 0 {
        PrunedReleases(swept.maps[i], full.maps[i], swept.nextCleanup - c.window, c.window, KeyAt(keys, i));
      }
    }
  }

  lemma StepStandsFor(c: Config, swept: History, full: History, e: Event)
    requires c.window > 0 && StandsFor(c, swept.state, full.state) && swept.answers == full.answers
    requires NotBeforeSweep(c, swept.state, e)
    ensures var swept', full' := Step(c, true, swept, e), Step(c, false, full, e);
            StandsFor(c, swept'.state, full'.state) && swept'.answers == full'.answers
  {
    hide StandsFor, Cleaned, Permits, Reserved, Failed, Settled;
    if Timed(e) {
      CleanedStandsFor(c, swept.state, full.state, e.now);
      PermitsAlike(c, Cleaned(c, swept.state, e.now), full.state, e.keys, e.now);
      ChargeStandsFor(c, Cleaned(c, swept.state, e.now), full.state, e.keys, e.now);
    } else {
      SettledStandsFor(c, swept.state, full.state, e.keys, e.forgets);
    }
  }

  /** As long as no time is before the last sweep, sweeping changes no answer of Allow. */
  lemma {:induction false} SweepingIsInvisible(c: Config, events: seq<Event>)
    requires c.window > 0 && InOrder(c, events)
    ensures Run(c, true, events).answers == Run(c, false, events).answers
    ensures StandsFor(c, Run(c, true, events).state, Run(c, false, events).state)
  {
    hide InOrder, Step;
    if events != [] {
      var before := events[..|events| - 1];
      InOrderBefore(c, events);
      SweepingIsInvisible(c, before);
      StepStandsFor(c, Run(c, true, before), Run(c, false, before), events[|events| - 1]);
    }
  }

  // ----- a clock that does not go back -----

  ghost predicate Nondecreasing(events: seq<Event>) {
    && (forall i | 0 <= i < |events| && Timed(events[i]) :: events[i].now > 0)
    && (forall i, j | 0 <= i < j < |events| && Timed(events[i]) && Timed(events[j]) :: events[i].now <= events[j].now)
  }

  /** The last sweep was at the time of some event of the run. */
  lemma {:induction false} SweptAtAnEvent(c: Config, events: seq<Event>)
    requires c.window > 0 && Nondecreasing(events)
    ensures var next := Run(c, true, events).state.nextCleanup;
            next == 0 || exists i | 0 <= i < |events| :: Timed(events[i]) && next == events[i].now + c.window
  {
    hide Permits, Reserved, Failed, Settled;
    if events != [] {
      var n, before := |events| - 1, events[..|events| - 1];
      SweptAtAnEvent(c, before);
      var next := Run(c, true, events).state.nextCleanup;
      if next == Run(c, true, before).state.nextCleanup {
        if i :| 0 <= i < n && Timed(before[i]) && next == before[i].now + c.window {
          assert events[i] == before[i];
        }
      } else {
        KeepsNextCleanup(c, Run(c, true, before), events[n]);
        assert Timed(events[n]) && next == events[n].now + c.window;
      }
    }
  }

  lemma KeepsNextCleanup(c: Config, h: History, e: Event)
    ensures var next := Step(c, true, h, e).state.nextCleanup;
            next == h.state.nextCleanup || (Timed(e) && next == e.now + c.window)
  {
    hide Permits;
  }

  lemma NondecreasingInOrder(c: Config, events: seq<Event>)
    requires c.window > 0 && Nondecreasing(events)
    ensures InOrder(c, events)
  {
    forall i | 0 <= i < |events|
      ensures NotBeforeSweep(c, Run(c, true, events[..i]).state, events[i])
    {
      SweptAtAnEvent(c, events[..i]);
    }
  }

  /** Nothing is stored before the first sweep; then every stored bucket started less than one window
      before the last sweep. */
  ghost predicate RecentMap(c: Config, buckets: Buckets, nextCleanup: Time) {
    if nextCleanup == 0 then buckets == map[] else StartedAfter(buckets, nextCleanup - 2 * c.window)
  }

  ghost predicate Recent(c: Config, s: State) {
    forall i | 0 <= i < |s.maps| :: RecentMap(c, s.maps[i], s.nextCleanup)
  }

  lemma CleanedRecent(c: Config, s: State, now: Time)
    requires c.window > 0 && Recent(c, s) && now > 0 && (s.nextCleanup != 0 ==> now >= s.nextCleanup - c.window)
    ensures var s' := Cleaned(c, s, now);
            Recent(c, s') && s'.nextCleanup != 0 && s'.nextCleanup - c.window <= now < s'.nextCleanup
  {
  }

  lemma ChargeRecent(c: Config, s: State, keys: Keys, now: Time)
    requires Recent(c, s) && s.nextCleanup != 0 && now > s.nextCleanup - 2 * c.window
    ensures Recent(c, Reserved(c, s, keys, now)) && Recent(c, Failed(c, s, keys, now))
  {
    hide StartedAfter, Get, ReserveBucket, CompleteFailedAttempt;
    forall i | 0 <= i < |s.maps|
      ensures RecentMap(c, Reserved(c, s, keys, now).maps[i], s.nextCleanup) &&
                RecentMap(c, Failed(c, s, keys, now).maps[i], s.nextCleanup)
    {
      StartedAfterKept(s.maps[i], s.nextCleanup - 2 * c.window, KeyAt(keys, i), now, c.window);
    }
  }

  lemma SettledRecent(c: Config, s: State, keys: Keys, forgets: seq<bool>)
    requires Recent(c, s)
    ensures Recent(c, Settled(s, keys, forgets))
  {
    hide StartedAfter;
    forall i | 0 <= i < |s.maps|
      ensures RecentMap(c, Settled(s, keys, forgets).maps[i], s.nextCleanup)
    {
      if s.nextCleanup != 0 {
        StartedAfterReleased(s.maps[i], s.nextCleanup - 2 * c.window, KeyAt(keys, i));
      }
    }
  }

  lemma StepRecent(c: Config, h: History, e: Event)
    requires c.window > 0 && Recent(c, h.state) && NotBeforeSweep(c, h.state, e)
    ensures var s := Step(c, true, h, e).state;
            Recent(c, s) && (Timed(e) ==> s.nextCleanup != 0 && e.now < s.nextCleanup)
  {
    hide Recent, Cleaned, Permits;
    if Timed(e) {
      CleanedRecent(c, h.state, e.now);
      ChargeRecent(c, Cleaned(c, h.state, e.now), e.keys, e.now);
    } else {
      SettledRecent(c, h.state, e.keys, e.forgets);
    }
  }

  lemma {:induction false} RunRecent(c: Config, events: seq<Event>)
    requires c.window > 0 && InOrder(c, events)
    ensures var s := Run(c, true, events).state;
            Recent(c, s) && (events != [] && Timed(events[|events| - 1]) ==>
              s.nextCleanup != 0 && events[|events| - 1].now < s.nextCleanup)
  {
    hide Step, InOrder;
    if events != [] {
      InOrderBefore(c, events);
      RunRecent(c, events[..|events| - 1]);
      StepRecent(c, Run(c, true, events[..|events| - 1]), events[|events| - 1]);
    }
  }

  /** After any Allow or RecordFailure at `now`, every stored bucket started less than two windows
      before. */
  lemma StoredBucketsAreRecent(c: Config, events: seq<Event>, i: nat)
    requires c.window > 0 && InOrder(c, events) && events != [] && Timed(events[|events| - 1])
    requires i < |Run(c, true, events).state.maps|
    ensures StartedAfter(Run(c, true, events).state.maps[i], events[|events| - 1].now - 2 * c.window)
  {
    hide Run, InOrder;
    RunRecent(c, events);
    assert RecentMap(c, Run(c, true, events).state.maps[i], Run(c, true, events).state.nextCleanup);
  }

  // ----- what the counters count -----

  /** The state that the last event of a run meets. */
  function Met(c: Config, events: seq<Event>): State
    requires events != []
  {
    var e, s := events[|events| - 1], Run(c, true, events[..|events| - 1]).state;
    if Timed(e) then Cleaned(c, s, e.now) else s
  }

  predicate LetIn(c: Config, events: seq<Event>)
    requires events != []
  {
    var e := events[|events| - 1];
    e.Allow? && Permits(c, Met(c, events), e.keys, e.now)
  }

  /** Since the current window of the key in map i began: the attempts let in, less those released
      again, and the failures that had no reservation. */
  function Charged(c: Config, events: seq<Event>, i: nat, key: string): int {
    if events == [] then 0
    else
      var e, before := events[|events| - 1], Charged(c, events[..|events| - 1], i, key);
      if KeyAt(e.keys, i) != key then before
      else
        var b := BucketAt(Met(c, events), e.keys, i);
        match e
        case Allow(_, now) => if !LetIn(c, events) then before else if Over(b, now, c.window) then 1 else before + 1
        case Failure(_, now) => if Over(b, now, c.window) then 1 else if b.pending > 0 then before else before + 1
        case Settle(_, forgets) => if i < |forgets| && forgets[i] then 0 else if b.pending > 0 then before - 1
          else before
  }

  ghost predicate Counts(buckets: Buckets, key: string, charged: int) {
    key in buckets ==> buckets[key].pending >= 0 && buckets[key].failures + buckets[key].pending == charged
  }

  /** One event on one map. */
  function MapAfter(c: Config, s: State, e: Event, i: nat): Buckets
    requires i < |s.maps|
  {
    var m, key, b := s.maps[i], KeyAt(e.keys, i), BucketAt(s, e.keys, i);
    match e
    case Allow(keys, now) => if Permits(c, s, keys, now) then m[key := ReserveBucket(b, now, c.window)] else m
    case Failure(_, now) => m[key := CompleteFailedAttempt(b, now, c.window)]
    case Settle(_, forgets) => SettledMap(m, key, i < |forgets| && forgets[i])
  }

  lemma LastStep(c: Config, events: seq<Event>, i: nat)
    requires events != [] && i < |Met(c, events).maps|
    ensures var s := Run(c, true, events).state;
            i < |s.maps| &&
            s.maps[i] == MapAfter(c, Met(c, events), events[|events| - 1], i)
  {
    hide Permits, BucketAt, ReserveBucket, CompleteFailedAttempt, SettledMap, Cleaned;
  }

  lemma {:induction false} MapsStay(c: Config, events: seq<Event>)
    ensures |Run(c, true, events).state.maps| == |c.limits|
  {
    hide Permits;
    if events != [] {
      MapsStay(c, events[..|events| - 1]);
    }
  }

  lemma CleanedCounts(c: Config, s: State, now: Time, i: nat, key: string, charged: int)
    requires i < |s.maps| && Counts(s.maps[i], key, charged)
    ensures |Cleaned(c, s, now).maps| == |s.maps| && Counts(Cleaned(c, s, now).maps[i], key, charged)
  {
  }

  lemma EventCounts(c: Config, events: seq<Event>, i: nat, key: string)
    requires events != [] && i < |Met(c, events).maps|
    requires Counts(Met(c, events).maps[i], key, Charged(c, events[..|events| - 1], i, key))
    ensures Counts(MapAfter(c, Met(c, events), events[|events| - 1], i), key, Charged(c, events, i, key))
    ensures LetIn(c, events) && KeyAt(events[|events| - 1].keys, i) == key && LimitAt(c, i) >= 1 ==>
              Charged(c, events, i, key) <= LimitAt(c, i)
  {
    hide Met;
  }

  /** A stored bucket counts exactly that; and at no point have more than the limit been let in and
      not released. */
  lemma {:induction false} CountersCount(c: Config, events: seq<Event>, i: nat, key: string)
    requires i < |c.limits|
    ensures i < |Run(c, true, events).state.maps|
    ensures Counts(Run(c, true, events).state.maps[i], key, Charged(c, events, i, key))
    ensures events != [] && LetIn(c, events) && KeyAt(events[|events| - 1].keys, i) == key && LimitAt(c, i) >= 1 ==>
              Charged(c, events, i, key) <= LimitAt(c, i)
  {
    MapsStay(c, events);
    if events != [] {
      var before, e := events[..|events| - 1], events[|events| - 1];
      MapsStay(c, before);
      CountersCount(c, before, i, key);
      if Timed(e) {
        CleanedCounts(c, Run(c, true, before).state, e.now, i, key, Charged(c, before, i, key));
      }
      LastStep(c, events, i);
      EventCounts(c, events, i, key);
    }
  }

  // ----- a late failure -----

  /** One map, a limit of 2 and a window of 10. The enrollment handler reads the clock once, before
      Allow, and hands the same time to RecordFailure when the attempt has failed, possibly after later
      calls of other requests (internal/api/password_enrollment.go:129-161): here the attempt let in at
      5 fails after a sweep at 11. */
  const LATE_CONFIG := Config([2], 10)
  const LATE_EVENTS := [
    Allow(["a"], 1), Failure(["a"], 1), Allow(["a"], 5), Allow(["b"], 11), Failure(["a"], 5), Allow(["a"], 12),
      Allow(["a"], 13)]

  lemma LateRun(sweeping: bool, h: seq<History>)
    requires |h| == |LATE_EVENTS| + 1 && h[0] == History(State([map[]], 0), [])
    requires forall i | 0 <= i < |LATE_EVENTS| :: h[i + 1] == Step(LATE_CONFIG, sweeping, h[i], LATE_EVENTS[i])
    ensures Run(LATE_CONFIG, sweeping, LATE_EVENTS) == h[|LATE_EVENTS|]
  {
    hide Step;
    assert LATE_EVENTS[..|LATE_EVENTS|] == LATE_EVENTS;
    for i := 0 to |LATE_EVENTS|
      invariant Run(LATE_CONFIG, sweeping, LATE_EVENTS[..i]) == h[i]
    {
      assert LATE_EVENTS[..i] + [LATE_EVENTS[i]] == LATE_EVENTS[..i + 1];
      RunSnoc(LATE_CONFIG, sweeping, LATE_EVENTS[..i], LATE_EVENTS[i]);
    }
  }

  /** Such a late failure makes the sweep show: the last attempt is refused with it and let in
      without. */
  lemma LateFailureShowsTheSweep()
    ensures Run(LATE_CONFIG, true, LATE_EVENTS).answers == [true, true, true, true, false]
    ensures Run(LATE_CONFIG, false, LATE_EVENTS).answers == [true, true, true, true, true]
  {
    hide *;
    LateRunSwept();
    LateRunUnswept();
  }

  /** A step of a limiter with one map. */
  lemma OneMapStep(sweeping: bool, m: Buckets, nextCleanup: Time, answers: seq<bool>, key: string, now: Time)
    ensures var due := sweeping && (nextCleanup == 0 || now >= nextCleanup);
            var m', next' := if due then Sweep(m, now, 10) else m, if due then now + 10 else nextCleanup;
            var h, b := History(State([m], nextCleanup), answers), Get(m', key);
            && Step(LATE_CONFIG, sweeping, h, Failure([key], now)) ==
                 History(State([m'[key := CompleteFailedAttempt(b, now, 10)]], next'), answers)
            && Step(LATE_CONFIG, sweeping, h, Allow([key], now)) ==
                 if BucketAllows(b, 2, now, 10) then
                   History(State([m'[key := ReserveBucket(b, now, 10)]], next'), answers + [true])
                 else History(State([m'], next'), answers + [false])
  {
    hide Sweep, Get, BucketAllows, ReserveBucket, CompleteFailedAttempt;
    var s := State([m], nextCleanup);
    var s' := if sweeping then Cleaned(LATE_CONFIG, s, now) else s;
    assert Cleaned(LATE_CONFIG, s, now).maps == [if SweepDue(s, now) then Sweep(m, now, 10) else m];
    assert BucketAt(s', [key], 0) == Get(s'.maps[0], key);
    assert Permits(LATE_CONFIG, s', [key], now) <==> BucketAllows(BucketAt(s', [key], 0), 2, now, 10);
    assert Reserved(LATE_CONFIG, s', [key], now).maps ==
      [s'.maps[0][key := ReserveBucket(BucketAt(s', [key], 0), now, 10)]];
    assert Failed(LATE_CONFIG, s', [key], now).maps ==
      [s'.maps[0][key := CompleteFailedAttempt(BucketAt(s', [key], 0), now, 10)]];
  }

  /** The same with the resulting map written out. */
  lemma OneMapAllow(sweeping: bool, m: Buckets, nextCleanup: Time, answers: seq<bool>, key: string, now: Time,
        kept: Buckets, after: Buckets)
    requires kept == if sweeping && (nextCleanup == 0 || now >= nextCleanup) then Sweep(m, now, 10) else m
    requires after == if BucketAllows(Get(kept, key), 2, now, 10) then
               kept[key := ReserveBucket(Get(kept, key), now, 10)] else kept
    ensures Step(LATE_CONFIG, sweeping, History(State([m], nextCleanup), answers), Allow([key], now)) ==
              History(State([after], if sweeping && (nextCleanup == 0 || now >= nextCleanup) then now + 10
                else nextCleanup),
                      answers + [BucketAllows(Get(kept, key), 2, now, 10)])
  {
    hide Step, Sweep;
    OneMapStep(sweeping, m, nextCleanup, answers, key, now);
  }

  lemma OneMapFailure(sweeping: bool, m: Buckets, nextCleanup: Time, answers: seq<bool>, key: string, now: Time,
        after: Buckets)
    requires !sweeping || (nextCleanup != 0 && now < nextCleanup)
    requires after == m[key := CompleteFailedAttempt(Get(m, key), now, 10)]
    ensures Step(LATE_CONFIG, sweeping, History(State([m], nextCleanup), answers), Failure([key], now)) ==
              History(State([after], nextCleanup), answers)
  {
    hide Step, Sweep;
    OneMapStep(sweeping, m, nextCleanup, answers, key, now);
  }

  lemma LateRunSwept()
    ensures Run(LATE_CONFIG, true, LATE_EVENTS).answers == [true, true, true, true, false]
  {
    hide Step, Run;
    var m0: Buckets := map[];
    var m1, m2, m3 := map["a" := Bucket(0, 1, 1)], map["a" := Bucket(1, 0, 1)], map["a" := Bucket(1, 1, 1)];
    var m4 := map["b" := Bucket(0, 1, 11)];
    var m5, m6 := map["a" := Bucket(1, 0, 5), "b" := Bucket(0, 1, 11)],
      map["a" := Bucket(1, 1, 5), "b" := Bucket(0, 1, 11)];
    OneMapAllow(true, m0, 0, [], "a", 1, m0, m1);
    OneMapFailure(true, m1, 11, [true], "a", 1, m2);
    OneMapAllow(true, m2, 11, [true], "a", 5, m2, m3);
    OneMapAllow(true, m3, 11, [true, true], "b", 11, m0, m4);
    OneMapFailure(true, m4, 21, [true, true, true], "a", 5, m5);
    OneMapAllow(true, m5, 21, [true, true, true], "a", 12, m5, m6);
    OneMapAllow(true, m6, 21, [true, true, true, true], "a", 13, m6, m6);
    LateRun(true, [
      History(State([m0], 0), []),
      History(State([m1], 11), [true]),
      History(State([m2], 11), [true]),
      History(State([m3], 11), [true, true]),
      History(State([m4], 21), [true, true, true]),
      History(State([m5], 21), [true, true, true]),
      History(State([m6], 21), [true, true, true, true]),
      History(State([m6], 21), [true, true, true, true, false])]);
  }

  lemma LateRunUnswept()
    ensures Run(LATE_CONFIG, false, LATE_EVENTS).answers == [true, true, true, true, true]
  {
    hide Step, Run;
    var m0: Buckets := map[];
    var m1, m2, m3 := map["a" := Bucket(0, 1, 1)], map["a" := Bucket(1, 0, 1)], map["a" := Bucket(1, 1, 1)];
    var m4, m5 := map["a" := Bucket(1, 1, 1), "b" := Bucket(0, 1, 11)],
      map["a" := Bucket(2, 0, 1), "b" := Bucket(0, 1, 11)];
    var m6, m7 := map["a" := Bucket(0, 1, 12), "b" := Bucket(0, 1, 11)],
      map["a" := Bucket(0, 2, 12), "b" := Bucket(0, 1, 11)];
    OneMapAllow(false, m0, 0, [], "a", 1, m0, m1);
    OneMapFailure(false, m1, 0, [true], "a", 1, m2);
    OneMapAllow(false, m2, 0, [true], "a", 5, m2, m3);
    OneMapAllow(false, m3, 0, [true, true], "b", 11, m3, m4);
    OneMapFailure(false, m4, 0, [true, true, true], "a", 5, m5);
    OneMapAllow(false, m5, 0, [true, true, true], "a", 12, m5, m6);
    OneMapAllow(false, m6, 0, [true, true, true, true], "a", 13, m6, m7);
    LateRun(false, [
      History(State([m0], 0), []),
      History(State([m1], 0), [true]),
      History(State([m2], 0), [true]),
      History(State([m3], 0), [true, true]),
      History(State([m4], 0), [true, true, true]),
      History(State([m5], 0), [true, true, true]),
      History(State([m6], 0), [true, true, true, true]),
      History(State([m7], 0), [true, true, true, true, true])]);
  }
}
