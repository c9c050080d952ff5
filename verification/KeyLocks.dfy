/** The reference-counted read/write locks of internal/storage/filesystem/key_locks.go.

    An *acquisition* is one call of acquireRead or acquireWrite together with the release
    function it returned.  It takes four atomic steps: `reference` (under the registry mutex),
    RLock or Lock, RUnlock or Unlock, and `unreference` (again under the registry mutex).
    Any number of acquisitions interleave in any order.
 */
module KeyLocks {

  type Key = string
  type Handle = nat
  type LockId = nat

  datatype Mode = Read | Write

  // ----- the registry: the map of lock objects and their reference counts -----

  /** What the registry mutex protects: the map from keys to lock objects, and the count kept
      in every lock object made so far. */
  datatype Registry = Registry(locks: map<Key, LockId>, references: map<LockId, int>)

  /** `reference`: the lock object of the key, `candidate` being the one made if there is none. */
  function Referenced(r: Registry, key: Key, candidate: LockId): LockId {
    if key in r.locks then r.locks[key] else candidate
  }

  function AfterReference(r: Registry, key: Key, candidate: LockId): Registry {
    var l := Referenced(r, key, candidate);
    var count := if key in r.locks && l in r.references then r.references[l] else 0;
    Registry(r.locks[key := l], r.references[l := count + 1])
  }

  /** `unreference`: the map entry of the key goes when the count of this lock object reaches zero. */
  function AfterUnreference(r: Registry, key: Key, l: LockId): Registry
    requires l in r.references
  {
    var count := r.references[l] - 1;
    Registry(if count == 0 then r.locks - {key} else r.locks, r.references[l := count])
  }

  // ----- the step system -----

  /** A sync.RWMutex: the writer bit and the number of readers inside. */
  datatype RWMutex = RWMutex(writing: bool, readers: int)

  datatype Acquisition =
    | Waiting(key: Key, lock: LockId, mode: Mode)
    | Holding(key: Key, lock: LockId, mode: Mode)
    | Released(key: Key, lock: LockId, mode: Mode)

  datatype State = State(
    registry: Registry,
    mutexes: map<LockId, RWMutex>,
    acquisitions: map<Handle, Acquisition>)

  const Init := State(Registry(map[], map[]), map[], map[])

  /** The atomic steps.  `candidate` is the identity of the lock object that `reference` makes
      when the key has none. */
  datatype Action =
    | Reference(h: Handle, key: Key, mode: Mode, candidate: LockId)
    | Acquire(h: Handle)
    | Release(h: Handle)
    | Unreference(h: Handle)

  predicate MayReference(s: State, h: Handle, candidate: LockId) {
    h !in s.acquisitions && candidate !in s.mutexes && candidate !in s.registry.references
  }

  /** RWMutex.RLock waits for the writer, Lock waits for the writer and all readers.  That a
      waiting writer also holds up new readers only removes interleavings. */
  predicate MayAcquire(s: State, h: Handle) {
    && h in s.acquisitions && s.acquisitions[h].Waiting?
    && var l := s.acquisitions[h].lock;
       l in s.mutexes && !s.mutexes[l].writing && (s.acquisitions[h].mode.Write? ==> s.mutexes[l].readers == 0)
  }

  predicate MayRelease(s: State, h: Handle) {
    h in s.acquisitions && s.acquisitions[h].Holding? && s.acquisitions[h].lock in s.mutexes
  }

  predicate MayUnreference(s: State, h: Handle) {
    h in s.acquisitions && s.acquisitions[h].Released? && s.acquisitions[h].lock in s.registry.references
  }

  function ReferenceStep(s: State, h: Handle, key: Key, mode: Mode, candidate: LockId): State {
    var l := Referenced(s.registry, key, candidate);
    State(AfterReference(s.registry, key, candidate),
          if key in s.registry.locks then s.mutexes else s.mutexes[l := RWMutex(false, 0)],
          s.acquisitions[h := Waiting(key, l, mode)])
  }

  function AcquireStep(s: State, h: Handle): State
    requires MayAcquire(s, h)
  {
    var Waiting(key, l, mode) := s.acquisitions[h];
    var m := s.mutexes[l];
    s.(mutexes := s.mutexes[l := if mode.Write? then m.(writing := true) else m.(readers := m.readers + 1)],
       acquisitions := s.acquisitions[h := Holding(key, l, mode)])
  }

  function ReleaseStep(s: State, h: Handle): State
    requires MayRelease(s, h)
  {
    var Holding(key, l, mode) := s.acquisitions[h];
    var m := s.mutexes[l];
    s.(mutexes := s.mutexes[l := if mode.Write? then m.(writing := false) else m.(readers := m.readers - 1)],
       acquisitions := s.acquisitions[h := Released(key, l, mode)])
  }

  function UnreferenceStep(s: State, h: Handle): State
    requires MayUnreference(s, h)
  {
    var Released(key, l, mode) := s.acquisitions[h];
    s.(registry := AfterUnreference(s.registry, key, l), acquisitions := s.acquisitions - {h})
  }

  predicate Enabled(s: State, a: Action) {
    match a
    case Reference(h, key, mode, candidate) => MayReference(s, h, candidate)
    case Acquire(h) => MayAcquire(s, h)
    case Release(h) => MayRelease(s, h)
    case Unreference(h) => MayUnreference(s, h)
  }

  function Apply(s: State, a: Action): State
    requires Enabled(s, a)
  {
    match a
    case Reference(h, key, mode, candidate) => ReferenceStep(s, h, key, mode, candidate)
    case Acquire(h) => AcquireStep(s, h)
    case Release(h) => ReleaseStep(s, h)
    case Unreference(h) => UnreferenceStep(s, h)
  }

  /** The state after a sequence of steps from the empty registry, if each was possible. */
  datatype Reached = Stuck | At(state: State)

  function Run(actions: seq<Action>): Reached {
    if actions == [] then At(Init)
    else match Run(actions[..|actions| - 1])
      case Stuck => Stuck
      case At(s) =>
        var a := actions[|actions| - 1];
        if Enabled(s, a) then At(Apply(s, a)) else Stuck
  }

  // ----- the invariant -----

  /** The acquisitions between `reference` and `unreference` of a lock object. */
  function Users(s: State, l: LockId): set<Handle> {
    set h | h in s.acquisitions && s.acquisitions[h].lock == l
  }

  /** The acquisitions that reference a key, whatever lock object they use. */
  function KeyUsers(s: State, key: Key): set<Handle> {
    set h | h in s.acquisitions && s.acquisitions[h].key == key
  }

  /** The acquisitions between RLock and RUnlock, or Lock and Unlock. */
  function Holders(s: State, l: LockId, mode: Mode): set<Handle> {
    set h | h in s.acquisitions && s.acquisitions[h].Holding? && s.acquisitions[h].lock == l &&
      s.acquisitions[h].mode == mode
  }

  /** The count of a lock object is the number of its users. */
  ghost predicate CountsUsers(s: State, l: LockId) {
    l in s.registry.references && s.registry.references[l] == |Users(s, l)|
  }

  /** A mutex admits its readers, or one writer alone. */
  ghost predicate AdmitsHolders(s: State, l: LockId) {
    && l in s.mutexes
    && s.mutexes[l].readers == |Holders(s, l, Read)|
    && |Holders(s, l, Write)| == (if s.mutexes[l].writing then 1 else 0)
    && (s.mutexes[l].writing ==> s.mutexes[l].readers == 0)
  }

  /** Acquisitions of one key use the lock object the map has for that key. */
  ghost predicate UsesMapped(s: State, h: Handle)
    requires h in s.acquisitions
  {
    var a := s.acquisitions[h];
    a.key in s.registry.locks && s.registry.locks[a.key] == a.lock
  }

  ghost predicate MapsKeysApart(s: State) {
    forall k, k' | k in s.registry.locks && k' in s.registry.locks && s.registry.locks[k] == s.registry.locks[k'] ::
      k == k'
  }

  ghost predicate LocksExact(s: State) {
    && (forall l :: l in s.mutexes <==> l in s.registry.references)
    && (forall l | l in s.mutexes :: CountsUsers(s, l) && AdmitsHolders(s, l))
  }

  /** The map has exactly the lock objects in use, one for each key. */
  ghost predicate MapExact(s: State) {
    && (forall h | h in s.acquisitions :: UsesMapped(s, h))
    && (forall k | k in s.registry.locks :: s.registry.locks[k] in s.registry.references &&
         s.registry.references[s.registry.locks[k]] >= 1)
    && MapsKeysApart(s)
  }

  ghost predicate Inv(s: State) {
    LocksExact(s) && MapExact(s)
  }

  // ----- every step keeps the invariant -----

  /** A lock object whose users and holders stay keeps what the invariant says of it. */
  lemma UntouchedLock(s: State, s': State, l: LockId)
    requires CountsUsers(s, l) && AdmitsHolders(s, l)
    requires l in s'.mutexes && s'.mutexes[l] == s.mutexes[l]
    requires l in s'.registry.references && s'.registry.references[l] == s.registry.references[l]
    requires forall h | h in s'.acquisitions && s'.acquisitions[h].lock == l ::
               h in s.acquisitions && s.acquisitions[h] == s'.acquisitions[h]
    requires forall h | h in s.acquisitions && s.acquisitions[h].lock == l ::
               h in s'.acquisitions && s.acquisitions[h] == s'.acquisitions[h]
    ensures CountsUsers(s', l) && AdmitsHolders(s', l)
  {
    assert Users(s', l) == Users(s, l);
    assert Holders(s', l, Read) == Holders(s, l, Read);
    assert Holders(s', l, Write) == Holders(s, l, Write);
  }

  /** A step that deals with one lock object only needs to be checked there. */
  lemma OtherLocksUntouched(s: State, s': State, l0: LockId)
    requires LocksExact(s)
    requires forall l :: (l in s'.mutexes <==> l in s.mutexes || l == l0) &&
               (l in s'.registry.references <==> l in s.mutexes || l == l0)
    requires forall l | l in s.mutexes && l != l0 ::
               s'.mutexes[l] == s.mutexes[l] && s'.registry.references[l] == s.registry.references[l]
    requires forall h | h in s'.acquisitions && s'.acquisitions[h].lock != l0 ::
               h in s.acquisitions && s.acquisitions[h] == s'.acquisitions[h]
    requires forall h | h in s.acquisitions && s.acquisitions[h].lock != l0 ::
               h in s'.acquisitions && s.acquisitions[h] == s'.acquisitions[h]
    requires CountsUsers(s', l0) && AdmitsHolders(s', l0)
    ensures LocksExact(s')
  {
    forall l | l in s'.mutexes && l != l0
      ensures CountsUsers(s', l) && AdmitsHolders(s', l)
    {
      UntouchedLock(s, s', l);
    }
  }

  lemma UsersGain(s: State, s': State, l: LockId, h: Handle)
    requires h !in s.acquisitions && h in s'.acquisitions && s'.acquisitions == s.acquisitions[h := s'.acquisitions[h]]
    requires s'.acquisitions[h].lock == l && !s'.acquisitions[h].Holding?
    ensures Users(s', l) == Users(s, l) + {h}
    ensures |Users(s', l)| == |Users(s, l)| + 1
    ensures Holders(s', l, Read) == Holders(s, l, Read) && Holders(s', l, Write) == Holders(s, l, Write)
  {
    assert h !in Users(s, l);
    assert Users(s', l) == Users(s, l) + {h};
  }

  lemma UsersLose(s: State, s': State, l: LockId, h: Handle)
    requires h in s.acquisitions && s'.acquisitions == s.acquisitions - {h}
    requires s.acquisitions[h].lock == l && !s.acquisitions[h].Holding?
    ensures Users(s', l) == Users(s, l) - {h}
    ensures |Users(s', l)| == |Users(s, l)| - 1
    ensures Holders(s', l, Read) == Holders(s, l, Read) && Holders(s', l, Write) == Holders(s, l, Write)
  {
    assert h in Users(s, l);
    assert Users(s', l) == Users(s, l) - {h};
  }

  /** Moving one acquisition in or out of its holding phase changes one set of holders by it. */
  lemma HoldersChange(s: State, s': State, h: Handle, b: Acquisition)
    requires h in s.acquisitions && s'.acquisitions == s.acquisitions[h := b]
    requires var a := s.acquisitions[h]; b.lock == a.lock && b.mode == a.mode && b.Holding? != a.Holding?
    ensures Users(s', b.lock) == Users(s, b.lock)
    ensures |Holders(s', b.lock, b.mode)| == |Holders(s, b.lock, b.mode)| + (if b.Holding? then 1 else -1)
    ensures forall m | m != b.mode :: Holders(s', b.lock, m) == Holders(s, b.lock, m)
  {
    assert Users(s', b.lock) == Users(s, b.lock);
    if b.Holding? {
      assert h !in Holders(s, b.lock, b.mode);
      assert Holders(s', b.lock, b.mode) == Holders(s, b.lock, b.mode) + {h};
    } else {
      assert h in Holders(s, b.lock, b.mode);
      assert Holders(s', b.lock, b.mode) == Holders(s, b.lock, b.mode) - {h};
    }
  }

  /** Of a lock object nobody uses yet. */
  lemma UnusedLock(s: State, l: LockId)
    requires MapExact(s) && l !in s.registry.references
    ensures Users(s, l) == {} && Holders(s, l, Read) == {} && Holders(s, l, Write) == {}
  {
    forall h | h in s.acquisitions
      ensures s.acquisitions[h].lock != l
    {
      assert UsesMapped(s, h);
    }
  }

  lemma ReferenceKeepsLock(s: State, h: Handle, key: Key, mode: Mode, candidate: LockId)
    requires Inv(s) && MayReference(s, h, candidate)
    ensures var s', l := ReferenceStep(s, h, key, mode, candidate), Referenced(s.registry, key, candidate);
            CountsUsers(s', l) && AdmitsHolders(s', l)
  {
    var s' := ReferenceStep(s, h, key, mode, candidate);
    var l := Referenced(s.registry, key, candidate);
    UsersGain(s, s', l, h);
    if key in s.registry.locks {
      assert CountsUsers(s, l) && AdmitsHolders(s, l);
    } else {
      UnusedLock(s, l);
    }
  }

  lemma ReferenceKeepsLocks(s: State, h: Handle, key: Key, mode: Mode, candidate: LockId)
    requires Inv(s) && MayReference(s, h, candidate)
    ensures LocksExact(ReferenceStep(s, h, key, mode, candidate))
  {
    var s' := ReferenceStep(s, h, key, mode, candidate);
    var l := Referenced(s.registry, key, candidate);
    ReferenceKeepsLock(s, h, key, mode, candidate);
    OtherLocksUntouched(s, s', l);
  }

  lemma ReferenceKeepsMap(s: State, h: Handle, key: Key, mode: Mode, candidate: LockId)
    requires MapExact(s) && MayReference(s, h, candidate)
    ensures MapExact(ReferenceStep(s, h, key, mode, candidate))
  {
    var s' := ReferenceStep(s, h, key, mode, candidate);
    forall g | g in s'.acquisitions
      ensures UsesMapped(s', g)
    {
      assert g != h ==> UsesMapped(s, g);
    }
  }

  /** RLock, Lock, RUnlock and Unlock touch neither the registry nor the other lock objects. */
  lemma MutexStepKeepsInv(s: State, s': State, h: Handle, b: Acquisition)
    requires Inv(s) && h in s.acquisitions && s'.acquisitions == s.acquisitions[h := b]
    requires var a := s.acquisitions[h]; b.key == a.key && b.lock == a.lock
    requires s'.registry == s.registry && forall l :: l in s'.mutexes <==> l in s.mutexes
    requires forall l | l in s.mutexes && l != b.lock :: s'.mutexes[l] == s.mutexes[l]
    requires CountsUsers(s', b.lock) && AdmitsHolders(s', b.lock)
    ensures Inv(s')
  {
    OtherLocksUntouched(s, s', b.lock);
    forall g | g in s'.acquisitions
      ensures UsesMapped(s', g)
    {
      assert UsesMapped(s, g);
    }
  }

  lemma AcquireKeepsInv(s: State, h: Handle)
    requires Inv(s) && MayAcquire(s, h)
    ensures Inv(AcquireStep(s, h))
  {
    var s' := AcquireStep(s, h);
    var Waiting(key, l, mode) := s.acquisitions[h];
    assert CountsUsers(s, l) && AdmitsHolders(s, l);
    HoldersChange(s, s', h, Holding(key, l, mode));
    MutexStepKeepsInv(s, s', h, Holding(key, l, mode));
  }

  lemma ReleaseKeepsInv(s: State, h: Handle)
    requires Inv(s) && MayRelease(s, h)
    ensures Inv(ReleaseStep(s, h))
  {
    var s' := ReleaseStep(s, h);
    var Holding(key, l, mode) := s.acquisitions[h];
    assert CountsUsers(s, l) && AdmitsHolders(s, l);
    HoldersChange(s, s', h, Released(key, l, mode));
    MutexStepKeepsInv(s, s', h, Released(key, l, mode));
  }

  lemma UnreferenceKeepsLock(s: State, h: Handle)
    requires Inv(s) && MayUnreference(s, h)
    ensures var s', l := UnreferenceStep(s, h), s.acquisitions[h].lock;
            && CountsUsers(s', l) && AdmitsHolders(s', l)
            && s'.registry.references[l] == |Users(s, l) - {h}|
  {
    var s' := UnreferenceStep(s, h);
    var l := s.acquisitions[h].lock;
    UsersLose(s, s', l, h);
    assert CountsUsers(s, l) && AdmitsHolders(s, l);
  }

  lemma UnreferenceKeepsLocks(s: State, h: Handle)
    requires LocksExact(s) && MapExact(s) && MayUnreference(s, h)
    ensures LocksExact(UnreferenceStep(s, h))
  {
    var s' := UnreferenceStep(s, h);
    var l := s.acquisitions[h].lock;
    UnreferenceKeepsLock(s, h);
    OtherLocksUntouched(s, s', l);
  }

  lemma UnreferenceKeepsMap(s: State, h: Handle)
    requires MapExact(s) && MayUnreference(s, h)
    requires UnreferenceStep(s, h).registry.references[s.acquisitions[h].lock] ==
               |Users(s, s.acquisitions[h].lock) - {h}|
    ensures MapExact(UnreferenceStep(s, h))
  {
    var s' := UnreferenceStep(s, h);
    var Released(key, l, mode) := s.acquisitions[h];
    assert UsesMapped(s, h);
    forall g | g in s'.acquisitions
      ensures UsesMapped(s', g)
    {
      assert UsesMapped(s, g);
      if s.acquisitions[g].key == key {
        assert g in Users(s, l) - {h};
      }
    }
  }

  lemma ReferenceKeepsInv(s: State, h: Handle, key: Key, mode: Mode, candidate: LockId)
    requires Inv(s) && MayReference(s, h, candidate)
    ensures Inv(ReferenceStep(s, h, key, mode, candidate))
  {
    ReferenceKeepsLocks(s, h, key, mode, candidate);
    ReferenceKeepsMap(s, h, key, mode, candidate);
  }

  lemma UnreferenceKeepsInv(s: State, h: Handle)
    requires Inv(s) && MayUnreference(s, h)
    ensures Inv(UnreferenceStep(s, h))
  {
    UnreferenceKeepsLocks(s, h);
    UnreferenceKeepsLock(s, h);
    UnreferenceKeepsMap(s, h);
  }

  lemma InitInv()
    ensures Inv(Init)
  {
  }

  lemma {:induction false} ReachableInv(actions: seq<Action>)
    ensures Run(actions).At? ==> Inv(Run(actions).state)
  {
    if actions == [] {
    } else {
      ReachableInv(actions[..|actions| - 1]);
      if Run(actions).At? {
        StepKeepsInv(Run(actions[..|actions| - 1]).state, actions[|actions| - 1]);
      }
    }
  }

  lemma StepKeepsInv(s: State, a: Action)
    requires Inv(s) && Enabled(s, a)
    ensures Inv(Apply(s, a))
  {
    match a
    case Reference(h, key, mode, candidate) => ReferenceKeepsInv(s, h, key, mode, candidate);
    case Acquire(h) => AcquireKeepsInv(s, h);
    case Release(h) => ReleaseKeepsInv(s, h);
    case Unreference(h) => UnreferenceKeepsInv(s, h);
  }

  // ----- what the invariant says about keys -----

  /** Everyone who references a key shares one lock object; its count is their number; and the
      key is in the map exactly while there is somebody. */
  lemma OneLockPerKey(actions: seq<Action>, key: Key)
    requires Run(actions).At?
    ensures var s := Run(actions).state;
            && (key in s.registry.locks <==> KeyUsers(s, key) != {})
            && (forall h | h in KeyUsers(s, key) ::
                  && key in s.registry.locks
                  && s.acquisitions[h].lock == s.registry.locks[key]
                  && s.acquisitions[h].lock in s.registry.references
                  && s.registry.references[s.acquisitions[h].lock] == |KeyUsers(s, key)|)
  {
    ReachableInv(actions);
    var s := Run(actions).state;
    assert forall h | h in KeyUsers(s, key) :: UsesMapped(s, h);
    if key in s.registry.locks {
      var l := s.registry.locks[key];
      assert forall h | h in Users(s, l) :: UsesMapped(s, h);
      assert Users(s, l) == KeyUsers(s, key);
      assert CountsUsers(s, l);
    }
  }

  lemma WriterAlone(s: State, l: LockId, g: Handle, h: Handle)
    requires AdmitsHolders(s, l) && g in Holders(s, l, Write)
    requires h in Holders(s, l, Write) || h in Holders(s, l, Read)
    ensures g == h
  {
    assert |Holders(s, l, Write) - {g}| == 0;
    assert |Holders(s, l, Read)| == 0;
  }

  /** Two acquisitions that hold the same key are both readers. */
  lemma ExclusiveHolding(s: State, g: Handle, h: Handle)
    requires Inv(s) && g != h && g in s.acquisitions && h in s.acquisitions
    requires s.acquisitions[g].Holding? && s.acquisitions[h].Holding? && s.acquisitions[g].key == s.acquisitions[h].key
    ensures s.acquisitions[g].mode.Read? && s.acquisitions[h].mode.Read?
  {
    assert UsesMapped(s, g) && UsesMapped(s, h);
    var l := s.acquisitions[g].lock;
    assert AdmitsHolders(s, l);
    if s.acquisitions[g].mode.Write? {
      WriterAlone(s, l, g, h);
    } else if s.acquisitions[h].mode.Write? {
      WriterAlone(s, l, h, g);
    }
  }

  /** In every run, per key: one writer alone, or readers only, although the lock objects of the
      key are deleted and made again. */
  lemma OneWriterOrReaders(actions: seq<Action>, g: Handle, h: Handle)
    requires Run(actions).At?
    requires var held := Run(actions).state.acquisitions;
             && g != h && g in held && h in held
             && held[g].Holding? && held[h].Holding? && held[g].key == held[h].key
    ensures var held := Run(actions).state.acquisitions;
            held[g].mode.Read? && held[h].mode.Read?
  {
    ReachableInv(actions);
    ExclusiveHolding(Run(actions).state, g, h);
  }

  /** RUnlock and Unlock are never applied to a mutex that is not locked that way, and
      `unreference` never takes a count below zero: no release step panics. */
  lemma ReleaseNeverPanics(actions: seq<Action>, h: Handle)
    requires Run(actions).At? && h in Run(actions).state.acquisitions
    ensures var s := Run(actions).state;
            var a := s.acquisitions[h];
            && (a.Holding? ==>
                   MayRelease(s, h) &&
                   (if a.mode.Write? then s.mutexes[a.lock].writing else s.mutexes[a.lock].readers > 0))
            && (a.Released? ==> MayUnreference(s, h) && s.registry.references[a.lock] > 0)
  {
    ReachableInv(actions);
    var s := Run(actions).state;
    var a := s.acquisitions[h];
    assert UsesMapped(s, h) && CountsUsers(s, a.lock) && AdmitsHolders(s, a.lock);
    assert h in Users(s, a.lock);
    assert a.Holding? ==> h in Holders(s, a.lock, a.mode);
  }

  // ----- the registry as the class it is -----

  /** A reader waits for the writer, a writer for everybody. */
  predicate Available(acquisitions: map<Handle, Acquisition>, key: Key, mode: Mode) {
    forall h | h in acquisitions && acquisitions[h].Holding? && acquisitions[h].key == key ::
      mode.Read? && acquisitions[h].mode.Read?
  }

  lemma WriterExcludes(acquisitions: map<Handle, Acquisition>, h: Handle, mode: Mode)
    requires h in acquisitions && acquisitions[h].Holding? && acquisitions[h].mode.Write?
    ensures !Available(acquisitions, acquisitions[h].key, mode)
  {
  }

  /** The mutex of a key is locked as its holders have it locked. */
  lemma LockedByHolders(s: State, key: Key)
    requires Inv(s) && key in s.registry.locks
    ensures var l := s.registry.locks[key];
            && l in s.mutexes && s.mutexes[l].readers >= 0
            && (forall g | g in s.acquisitions && s.acquisitions[g].Holding? && s.acquisitions[g].key == key ::
                  if s.acquisitions[g].mode.Write? then s.mutexes[l].writing else s.mutexes[l].readers > 0)
  {
    var l := s.registry.locks[key];
    assert AdmitsHolders(s, l);
    forall g | g in s.acquisitions && s.acquisitions[g].Holding? && s.acquisitions[g].key == key
      ensures if s.acquisitions[g].mode.Write? then s.mutexes[l].writing else s.mutexes[l].readers > 0
    {
      assert UsesMapped(s, g);
      assert g in Holders(s, l, s.acquisitions[g].mode);
    }
  }

  lemma HolderOf(s: State, key: Key, mode: Mode)
    requires Inv(s) && key in s.registry.locks && s.registry.locks[key] in s.mutexes
    requires var m := s.mutexes[s.registry.locks[key]]; if mode.Write? then m.writing else m.readers > 0
    ensures exists g | g in s.acquisitions ::
              s.acquisitions[g].Holding? && s.acquisitions[g].key == key && s.acquisitions[g].mode == mode
  {
    var l := s.registry.locks[key];
    assert AdmitsHolders(s, l);
    var g :| g in Holders(s, l, mode);
    assert UsesMapped(s, g);
  }

  lemma NobodyUnmapped(s: State, key: Key)
    requires Inv(s) && key !in s.registry.locks
    ensures forall g | g in s.acquisitions :: s.acquisitions[g].key != key
  {
    assert forall g | g in s.acquisitions :: UsesMapped(s, g);
  }

  /** What the mutex of a key admits next is what its holders leave room for. */
  lemma AvailableExactly(s: State, h: Handle, key: Key, mode: Mode, candidate: LockId)
    requires Inv(s) && MayReference(s, h, candidate)
    ensures MayAcquire(ReferenceStep(s, h, key, mode, candidate), h) <==> Available(s.acquisitions, key, mode)
  {
    hide Inv;
    if key in s.registry.locks {
      LockedByHolders(s, key);
      var m := s.mutexes[s.registry.locks[key]];
      if m.writing {
        HolderOf(s, key, Write);
      } else if m.readers > 0 {
        HolderOf(s, key, Read);
      }
    } else {
      NobodyUnmapped(s, key);
    }
  }

  /** Whoever holds a lock can leave it in two steps. */
  lemma HolderMayLeave(s: State, h: Handle)
    requires Inv(s) && h in s.acquisitions && s.acquisitions[h].Holding?
    ensures MayRelease(s, h) && MayUnreference(ReleaseStep(s, h), h)
  {
    assert UsesMapped(s, h);
  }

  class ReferencedKeyLock {
    ghost const id: LockId
    // its sync.RWMutex
    var writing: bool
    var readers: int
    var references: int

    constructor (ghost id: LockId)
      ensures this.id == id && !writing && readers == 0 && references == 0
    {
      this.id, writing, readers, references := id, false, 0, 0;
    }
  }

  class KeyLockRegistry {
    var locks: map<Key, ReferencedKeyLock>
    ghost var made: seq<ReferencedKeyLock>
    ghost var next: Handle
    ghost var state: State   // where the step system is

    /** A lock object is as the step system has it. */
    ghost predicate Agrees(keyLock: ReferencedKeyLock)
      reads this, keyLock
    {
      && keyLock.id in state.mutexes && state.mutexes[keyLock.id] == RWMutex(keyLock.writing, keyLock.readers)
      && keyLock.id in state.registry.references && state.registry.references[keyLock.id] == keyLock.references
    }

    ghost predicate Mapped(key: Key)
      reads this
    {
      && (key in locks <==> key in state.registry.locks)
      && (key in locks ==> locks[key] in made && locks[key].id == state.registry.locks[key])
    }

    /** The objects are what the step system says they are. */
    ghost predicate Tied()
      reads this, made
    {
      && (forall i | 0 <= i < |made| :: made[i].id == i && Agrees(made[i]))
      && (forall l | l in state.mutexes || l in state.registry.references :: l < |made|)
      && (forall key :: Mapped(key))
      && (forall h | h in state.acquisitions :: h < next)
    }

    ghost predicate Valid()
      reads this, made
    {
      Tied() && Inv(state)
    }

    /** Lock objects and handles are only ever added. */
    twostate predicate Grew()
      reads this
    {
      && old(next) <= next
      && (forall l | l in old(made) :: l in made)
      && (forall l | l in made :: l in old(made) || fresh(l))
    }

    constructor ()
      ensures Valid() && made == [] && state == Init
    {
      locks, made, next, state := map[], [], 0, Init;
    }

    method Reference(key: Key, ghost mode: Mode) returns (keyLock: ReferencedKeyLock, ghost h: Handle)
      requires Tied()
      modifies this, made
      ensures Tied() && h == old(next) && next == h + 1
      ensures made == old(made) || (made == old(made) + [keyLock] && fresh(keyLock))
      ensures MayReference(old(state), h, |old(made)|)
      ensures state == ReferenceStep(old(state), h, key, mode, |old(made)|)
      ensures keyLock in made && state.acquisitions[h] == Waiting(key, keyLock.id, mode)
    {
      assert Mapped(key);
      if key in locks {
        keyLock := locks[key];
        assert Agrees(keyLock);
      } else {
        keyLock := new ReferencedKeyLock(|made|);
        locks := locks[key := keyLock];
        made := made + [keyLock];
      }
      keyLock.references := keyLock.references + 1;
      h, next, state := next, next + 1, ReferenceStep(state, next, key, mode, |old(made)|);
      assert Agrees(keyLock);
      assert forall i | 0 <= i < |old(made)| && made[i] != keyLock :: old(Agrees(made[i])) && Agrees(made[i]);
      forall k
        ensures Mapped(k)
      {
        assert old(Mapped(k));
      }
    }

    method Unreference(key: Key, keyLock: ReferencedKeyLock, ghost h: Handle)
      requires Tied() && keyLock in made
      requires h in state.acquisitions && state.acquisitions[h] == Released(key, keyLock.id, state.acquisitions[h].mode)
      modifies this, keyLock
      ensures Tied() && made == old(made) && next == old(next)
      ensures MayUnreference(old(state), h) && state == UnreferenceStep(old(state), h)
    {
      assert Agrees(keyLock);
      keyLock.references := keyLock.references - 1;
      if keyLock.references == 0 {
        locks := locks - {key};
      }
      state := UnreferenceStep(state, h);
      assert Agrees(keyLock);
      assert forall i | 0 <= i < |made| && made[i] != keyLock :: old(Agrees(made[i])) && Agrees(made[i]);
      forall k
        ensures Mapped(k)
      {
        assert old(Mapped(k));
      }
    }

    /** RLock or Lock, when it does not have to wait any longer. */
    method Lock(keyLock: ReferencedKeyLock, mode: Mode, ghost h: Handle)
      requires Tied() && keyLock in made && MayAcquire(state, h)
      requires state.acquisitions[h].lock == keyLock.id && state.acquisitions[h].mode == mode
      modifies this`state, keyLock
      ensures Tied() && MayAcquire(old(state), h) && state == AcquireStep(old(state), h)
    {
      assert Agrees(keyLock);
      if mode.Write? {
        keyLock.writing := true;
      } else {
        keyLock.readers := keyLock.readers + 1;
      }
      state := AcquireStep(state, h);
      forall k
        ensures Mapped(k)
      {
        assert old(Mapped(k));
      }
    }

    /** RUnlock or Unlock. */
    method Unlock(keyLock: ReferencedKeyLock, mode: Mode, ghost h: Handle)
      requires Tied() && keyLock in made && MayRelease(state, h)
      requires state.acquisitions[h].lock == keyLock.id && state.acquisitions[h].mode == mode
      modifies this`state, keyLock
      ensures Tied() && MayRelease(old(state), h) && state == ReleaseStep(old(state), h)
    {
      assert Agrees(keyLock);
      if mode.Write? {
        keyLock.writing := false;
      } else {
        keyLock.readers := keyLock.readers - 1;
      }
      state := ReleaseStep(state, h);
      forall k
        ensures Mapped(k)
      {
        assert old(Mapped(k));
      }
    }

    /** acquireRead and acquireWrite: a call that returns has the lock. */
    method Acquire(key: Key, mode: Mode) returns (keyLock: ReferencedKeyLock, ghost h: Handle)
      requires Valid() && Available(state.acquisitions, key, mode)
      modifies this, made
      ensures Valid() && Grew() && keyLock in made
      ensures h !in old(state.acquisitions)
      ensures state.acquisitions == old(state.acquisitions)[h := Holding(key, keyLock.id, mode)]
      ensures old(next) <= h < next
    {
      hide Inv, Available, LocksExact, MapExact;
      AvailableExactly(state, next, key, mode, |made|);
      ReferenceKeepsInv(state, next, key, mode, |made|);
      keyLock, h := Reference(key, mode);
      AcquireKeepsInv(state, h);
      Lock(keyLock, mode, h);
    }

    /** The release function that acquireRead or acquireWrite returned. */
    method Release(key: Key, keyLock: ReferencedKeyLock, mode: Mode, ghost h: Handle)
      requires Valid() && keyLock in made
      requires h in state.acquisitions && state.acquisitions[h] == Holding(key, keyLock.id, mode)
      modifies this, keyLock
      ensures Valid() && Grew() && made == old(made)
      ensures state.acquisitions == old(state.acquisitions) - {h}
    {
      hide Inv, LocksExact, MapExact;
      assert Agrees(keyLock);
      ReleaseKeepsInv(state, h);
      Unlock(keyLock, mode, h);
      assert Agrees(keyLock);
      UnreferenceKeepsInv(state, h);
      Unreference(key, keyLock, h);
    }
  }
}
