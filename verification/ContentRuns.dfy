/** The sequential services are runs of ContentSaga: what an upload or a deletion does by itself, with
    any result, is what one operation does there, step by step, lock steps included, from every
    reachable state in which the lock of the medium is free. */
module ContentRuns {
  import L = KeyLocks
  import S = ContentServices
  import opened ContentSaga
  import opened Identities
  import opened MediaStores
  import opened StorageKeys

  lemma RunSnoc(actions: seq<Action>, a: Action)
    requires Run(actions).At? && Enabled(Run(actions).state, a)
    ensures Run(actions + [a]) == At(Apply(Run(actions).state, a))
  {
    hide Enabled, Apply;
    assert (actions + [a])[..|actions|] == actions;
  }

  type Holdings = map<L.Handle, L.Acquisition>

  function HeldIn(actions: seq<Action>): Holdings
    requires Run(actions).At?
  {
    Run(actions).state.locks.acquisitions
  }

  /** Acquiring the lock of the medium would not have to wait. */
  predicate Free(held: Holdings, m: MediaId, mode: L.Mode) {
    L.Available(held, StorageKeyForMedia(m), mode)
  }

  /** The operation has come to hold the lock of the medium, and nothing else has changed. */
  predicate Entered(held: Holdings, held': Holdings, op: Op, m: MediaId, mode: L.Mode) {
    && op !in held && op in held' && held' == held[op := held'[op]]
    && held'[op] == L.Holding(StorageKeyForMedia(m), held'[op].lock, mode)
  }

  lemma LocksInv(actions: seq<Action>)
    requires Run(actions).At?
    ensures L.Inv(Run(actions).state.locks)
  {
    ReachableInv(actions);
  }

  lemma LockAlone(locks: L.State, op: Op, key: string, mode: L.Mode) returns (candidate: L.LockId)
    requires L.Inv(locks) && op !in locks.acquisitions && L.Available(locks.acquisitions, key, mode)
    ensures L.MayReference(locks, op, candidate)
    ensures var waiting := L.ReferenceStep(locks, op, key, mode, candidate);
            && L.MayAcquire(waiting, op)
            && var held, held' := locks.acquisitions, L.AcquireStep(waiting, op).acquisitions;
               op in held' && held' == held[op := held'[op]] && held'[op] == L.Holding(key, held'[op].lock, mode)
  {
    hide L.Inv, L.Available, L.AfterReference;
    candidate := Unused(locks.mutexes.Keys + locks.registry.references.Keys);
    L.AvailableExactly(locks, op, key, mode, candidate);
  }

  lemma EnterAlone(actions: seq<Action>, op: Op) returns (more: seq<Action>)
    requires Run(actions).At?
    requires var s := Run(actions).state;
             op in s.ops && s.ops[op].WantsLock() && op !in HeldIn(actions) &&
               Free(HeldIn(actions), s.ops[op].media, s.ops[op].mode)
    ensures actions <= more && Run(more).At?
    ensures var s, s' := Run(actions).state, Run(more).state;
            && s'.stores == s.stores && s'.ops == s.ops[op := s.ops[op].(lock := Held)]
            && Entered(HeldIn(actions), HeldIn(more), op, s.ops[op].media, s.ops[op].mode)
  {
    hide Run, StorageKeyForMedia, L.ReferenceStep, L.AcquireStep, L.Inv, L.Available;
    var s := Run(actions).state;
    LocksInv(actions);
    var candidate := LockAlone(s.locks, op, StorageKeyForMedia(s.ops[op].media), s.ops[op].mode);
    RunSnoc(actions, TakeReference(op, candidate));
    RunSnoc(actions + [TakeReference(op, candidate)], GetLock(op));
    more := actions + [TakeReference(op, candidate)] + [GetLock(op)];
  }

  lemma LeaveAlone(actions: seq<Action>, op: Op) returns (more: seq<Action>)
    requires Run(actions).At?
    requires var s := Run(actions).state;
             op in s.ops && s.ops[op].lock.Leaving? && op in HeldIn(actions) && HeldIn(actions)[op].Holding?
    ensures actions <= more && Run(more).At?
    ensures var s, s' := Run(actions).state, Run(more).state;
            && s'.stores == s.stores && s'.ops == s.ops[op := s.ops[op].(lock := NoLock)]
            && HeldIn(more) == HeldIn(actions) - {op}
  {
    hide Run, Free, Entered, StorageKeyForMedia, L.Inv, L.AfterUnreference;
    var s := Run(actions).state;
    LocksInv(actions);
    L.HolderMayLeave(s.locks, op);
    RunSnoc(actions, Unlock(op));
    RunSnoc(actions + [Unlock(op)], DropReference(op));
    more := actions + [Unlock(op)] + [DropReference(op)];
  }

  lemma WorkAlone(actions: seq<Action>, op: Op, ok: bool) returns (more: seq<Action>)
    requires Run(actions).At? && op in Run(actions).state.ops && Run(actions).state.ops[op].CanWork()
    ensures actions <= more && Run(more).At?
    ensures var s, s' := Run(actions).state, Run(more).state;
            var w := Work(s.stores, op, s.ops[op], ok);
            s'.stores == w.stores && s'.ops == s.ops[op := w.process] && s'.locks == s.locks
  {
    hide Run, Free, Entered, Work;
    RunSnoc(actions, DoWork(op, ok));
    more := actions + [DoWork(op, ok)];
  }

  // ----- uploads -----

  function UploadEnd(r: S.UploadResult): Outcome {
    match r
    case Uploaded => Uploaded
    case NothingStored => NothingStored
    case Compensated => Compensated
    case CompensationFailed => CompensationFailed
  }

  /** The state before an operation starts by itself. */
  predicate MayStart(actions: seq<Action>, op: Op, m: MediaId, mode: L.Mode) {
    Run(actions).At? && op !in Run(actions).state.ops && op !in HeldIn(actions) && Free(HeldIn(actions), m, mode)
  }

  /** Put by itself: publishes and leaves the lock. */
  lemma PutAlone(actions: seq<Action>, op: Op, m: MediaId, bytes: Bytes) returns (more: seq<Action>)
    requires MayStart(actions, op, m, L.Write) && ValidMediaId(m) && bytes != [] &&
               m !in Run(actions).state.stores.published
    ensures actions <= more && Run(more).At?
    ensures var s, s' := Run(actions).state, Run(more).state;
            && s'.stores == Publish(s.stores, op, m, bytes)
            && s'.ops == s.ops[op := Process(m, L.Write, Stored(bytes), NoLock)]
            && HeldIn(more) == HeldIn(actions)
  {
    hide Run, Free, ValidMediaId, StorageKeyForMedia;
    RunSnoc(actions, BeginUpload(op, m, bytes));
    more := EnterAlone(actions + [BeginUpload(op, m, bytes)], op);
    more := WorkAlone(more, op, true);
    more := LeaveAlone(more, op);
    assert HeldIn(more) == HeldIn(actions);
  }

  lemma CompensateAlone(actions: seq<Action>, op: Op, m: MediaId, bytes: Bytes, ok: bool) returns (more: seq<Action>)
    requires Run(actions).At?
    requires var s := Run(actions).state;
             && op in s.ops && s.ops[op] == Process(m, L.Write, Stored(bytes), NoLock) && op !in HeldIn(actions)
             && Free(HeldIn(actions), m, L.Write) && m in s.stores.published
    ensures actions <= more && Run(more).At?
    ensures var s, s' := Run(actions).state, Run(more).state;
            && s'.stores == (if ok then Unpublish(s.stores, m) else s.stores)
            && s'.ops == s.ops[op := Process(m, L.Write, Over(if ok then Compensated else CompensationFailed), NoLock)]
            && HeldIn(more) == HeldIn(actions)
  {
    hide Run, Free, StorageKeyForMedia;
    more := WorkAlone(actions, op, false);
    more := EnterAlone(more, op);
    more := WorkAlone(more, op, ok);
    more := LeaveAlone(more, op);
    assert HeldIn(more) == HeldIn(actions);
  }

  lemma UploadIsARun(actions: seq<Action>, op: Op, m: MediaId, bytes: Bytes, r: S.UploadResult, st': Stores)
    returns (more: seq<Action>)
    requires MayStart(actions, op, m, L.Write) && S.UploadEffect(Run(actions).state.stores, op, m, bytes, r, st')
    ensures actions <= more && Run(more).At?
    ensures var s, s' := Run(actions).state, Run(more).state;
            && s'.stores == st' && s'.ops == s.ops[op := Process(m, L.Write, Over(UploadEnd(r)), NoLock)]
            && HeldIn(more) == HeldIn(actions)
  {
    hide Run, Free, Entered, ValidMediaId, StorageKeyForMedia;
    if r.NothingStored? {
      RunSnoc(actions, BeginUpload(op, m, bytes));
      more := WorkAlone(actions + [BeginUpload(op, m, bytes)], op, false);
    } else {
      more := PutAlone(actions, op, m, bytes);
      if r.Uploaded? {
        more := WorkAlone(more, op, true);
      } else {
        more := CompensateAlone(more, op, m, bytes, r.Compensated?);
        assert r.Compensated? ==> Unpublish(Publish(Run(actions).state.stores, op, m, bytes), m) == st' by {
          PublishedAndRemoved(Run(actions).state.stores, op, m, bytes);
        }
      }
    }
  }

  lemma PublishedAndRemoved(st: Stores, op: Op, m: MediaId, bytes: Bytes)
    requires m !in st.published
    ensures Unpublish(Publish(st, op, m, bytes), m) == st
  {
    assert st.published[m := File(op, bytes)] - {m} == st.published;
  }

  // ----- deletions -----

  function DeleteEnd(r: S.DeleteResult, m: MediaId, st: Stores): Process
    requires r.RollbackFailed? || r.CommitFailed? ==> m in st.published
  {
    match r
    case Refused => Process(m, L.Write, Over(Refused), NoLock)
    case MetadataDeleted => Process(m, L.Write, Over(MetadataDeleted), NoLock)
    case StagingFailed => Process(m, L.Write, Over(StagingFailed), NoLock)
    case RolledBack => Process(m, L.Write, Over(RolledBack), NoLock)
    case Deleted => Process(m, L.Write, Over(Deleted), NoLock)
    case RollbackFailed => Process(m, L.Write, Hidden(st.published[m], RollbackFailed), Held)
    case CommitFailed => Process(m, L.Write, Hidden(st.published[m], CommitFailed), Held)
  }

  /** Up to the lock: the item and its location have been found. */
  lemma FindAlone(actions: seq<Action>, op: Op, m: MediaId) returns (more: seq<Action>)
    requires MayStart(actions, op, m, L.Write) && m in Run(actions).state.stores.items &&
               m in Run(actions).state.stores.locations
    ensures actions <= more && Run(more).At?
    ensures var s, s' := Run(actions).state, Run(more).state;
            && s'.stores == s.stores && s'.ops == s.ops[op := Process(m, L.Write, Staging, Held)]
            && Entered(HeldIn(actions), HeldIn(more), op, m, L.Write)
  {
    hide Run, Free, Entered, StorageKeyForMedia;
    RunSnoc(actions, BeginDelete(op, m));
    more := WorkAlone(actions + [BeginDelete(op, m)], op, true);
    more := WorkAlone(more, op, true);
    more := EnterAlone(more, op);
  }

  /** From the lock on, with the result of the row deletion and of what follows it. */
  lemma StagedAlone(actions: seq<Action>, op: Op, m: MediaId, rows: bool, last: bool) returns (more: seq<Action>)
    requires Run(actions).At?
    requires var s := Run(actions).state;
             && op in s.ops && s.ops[op] == Process(m, L.Write, Staging, Held)
             && op in HeldIn(actions) && HeldIn(actions)[op].Holding?
             && m in s.stores.published && m !in s.stores.staged && m in s.stores.locations
    ensures actions <= more && Run(more).At?
    ensures var s, s' := Run(actions).state, Run(more).state;
            var r := if rows then (if last then S.Deleted else S.CommitFailed)
                     else if last then S.RolledBack else S.RollbackFailed;
            && s'.ops == s.ops[op := DeleteEnd(r, m, s.stores)]
            && HeldIn(more) == (if last then HeldIn(actions) - {op} else HeldIn(actions))
            && (m in s.stores.items ==> S.DeleteEffect(s.stores, op, m, r, s'.stores))
  {
    hide Run, Free, Entered, StorageKeyForMedia;
    var st := Run(actions).state.stores;
    more := WorkAlone(actions, op, true);
    more := WorkAlone(more, op, rows);
    more := WorkAlone(more, op, last);
    if last {
      more := LeaveAlone(more, op);
    }
    StagedAndBack(st, op, m);
  }

  lemma StagedAndBack(st: Stores, op: Op, m: MediaId)
    requires m in st.published && m !in st.staged
    ensures Restore(Stage(st, op, m), m) == st
    ensures Discard(DeleteRows(Stage(st, op, m), m), m) == DeleteRows(Unpublish(st, m), m)
  {
    assert (st.published - {m})[m := st.published[m]] == st.published;
    assert st.staged[m := HiddenFile(st.published[m], op)] - {m} == st.staged;
  }

  lemma DeleteIsARun(actions: seq<Action>, op: Op, m: MediaId, r: S.DeleteResult, st': Stores)
    returns (more: seq<Action>)
    requires MayStart(actions, op, m, L.Write) && S.DeleteEffect(Run(actions).state.stores, op, m, r, st')
    ensures actions <= more && Run(more).At?
    ensures var s, s' := Run(actions).state, Run(more).state;
            && s'.stores == st' && s'.ops == s.ops[op := DeleteEnd(r, m, s.stores)]
            && if r.RollbackFailed? || r.CommitFailed? then Entered(HeldIn(actions), HeldIn(more), op, m, L.Write)
               else HeldIn(more) == HeldIn(actions)
  {
    hide Run, Free, StorageKeyForMedia;
    if r.Refused? || r.MetadataDeleted? {
      RunSnoc(actions, BeginDelete(op, m));
      more := WorkAlone(actions + [BeginDelete(op, m)], op, r.MetadataDeleted?);
      if r.MetadataDeleted? {
        more := WorkAlone(more, op, true);
        more := WorkAlone(more, op, true);
      }
    } else {
      more := FindAlone(actions, op, m);
      if r.StagingFailed? {
        more := WorkAlone(more, op, false);
        more := LeaveAlone(more, op);
      } else {
        more := StagedAlone(more, op, m, r.Deleted? || r.CommitFailed?, r.Deleted? || r.RolledBack?);
      }
    }
  }

  // ----- readers -----

  /** Opening changes no store and takes the read lock, beside other readers if there are some. */
  lemma OpenIsARun(actions: seq<Action>, op: Op, m: MediaId) returns (more: seq<Action>)
    requires MayStart(actions, op, m, L.Read) && m in Run(actions).state.stores.locations &&
               m in Run(actions).state.stores.published
    ensures actions <= more && Run(more).At?
    ensures var s, s' := Run(actions).state, Run(more).state;
            && s'.stores == s.stores && s'.ops == s.ops[op := Process(m, L.Read, Reading(s.stores.published[m]), Held)]
            && Entered(HeldIn(actions), HeldIn(more), op, m, L.Read)
  {
    hide Run, Free, Entered, StorageKeyForMedia;
    RunSnoc(actions, BeginRead(op, m));
    more := WorkAlone(actions + [BeginRead(op, m)], op, true);
    more := EnterAlone(more, op);
    more := WorkAlone(more, op, true);
  }

  /** Closing changes no store and gives back this reader's lock alone, whatever has run since Open. */
  lemma CloseIsARun(actions: seq<Action>, op: Op) returns (more: seq<Action>)
    requires Run(actions).At? && op in Run(actions).state.ops
    requires var p := Run(actions).state.ops[op]; p.stage.Reading? && p.lock.Held?
    ensures actions <= more && Run(more).At?
    ensures var s, s' := Run(actions).state, Run(more).state;
            && s'.stores == s.stores
            && s'.ops == s.ops[op := Process(s.ops[op].media, s.ops[op].mode, Over(ReadEnded), NoLock)]
            && HeldIn(more) == HeldIn(actions) - {op}
  {
    hide Run, StorageKeyForMedia;
    more := WorkAlone(actions, op, true);
    HeldLock(actions, op);
    more := LeaveAlone(more, op);
  }

  lemma HeldLock(actions: seq<Action>, op: Op)
    requires Run(actions).At? && op in Run(actions).state.ops && Run(actions).state.ops[op].lock.Held?
    ensures op in HeldIn(actions) && HeldIn(actions)[op].Holding?
  {
    hide L.Inv, Inv;
    ReachableInv(actions);
  }
}
