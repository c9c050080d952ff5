/** Uploads, managed deletions and content reads, interleaved step by step over the keyed locks, the
    content files and the database rows: internal/application/media/upload.go,
    internal/application/media/managed_deletion.go and internal/storage/filesystem/content_store.go.

    Any number of operations run at once.  Every file or database step may also fail, in which case
    it changed nothing.  A crash may end everything at any point.
 */
module ContentSaga {
  import L = KeyLocks
  import opened MediaStores
  import opened StorageKeys

  datatype Outcome =
    | Uploaded | NothingStored | Compensated | CompensationFailed        // UploadItem
    | MetadataCreated                                                    // CreateItem
    | Refused | MetadataDeleted | StagingFailed | RolledBack | Deleted   // ManagedService.DeleteItem
    | ReadEnded                                                          // a reader closed or never opened

  /** How far a staged deletion is: the rows are next, are kept, or are gone; or its Rollback or
      Commit has failed, which ends the operation with the file hidden. */
  datatype Progress = RowsNext | RowsKept | RowsGone | RollbackFailed | CommitFailed

  datatype Task =
    // UploadItem: Put, the rows, the compensating Delete
    | Put(bytes: Bytes) | Stored(bytes: Bytes) | Compensation(bytes: Bytes)
    // ManagedService.DeleteItem: authorization, location, StageDelete, the rows, Rollback or Commit
    | Finding | Locating | MetadataOnly | Staging | Hidden(file: File, progress: Progress)
    // ContentReadService.Open and the reader it returns
    | Authorizing | Opening | Reading(seen: File)
    | Over(outcome: Outcome)
    // lost in a crash
    | Crashed

  /** Where an operation is with the lock of its medium: without it, waiting for it after
      `reference`, holding it, or in the release function. */
  datatype Phase = NoLock | Blocked | Held | Leaving

  datatype Process = Process(media: MediaId, mode: L.Mode, stage: Task, lock: Phase) {
    function To(next: Task, phase: Phase): Process {
      this.(stage := next, lock := phase)
    }

    function Claim(): Claim {
      match stage
      case Stored(b) => Pending(media, b)
      case Compensation(b) => Pending(media, b)
      case Hidden(f, progress) => Hiding(media, f, progress.RowsGone? || progress.CommitFailed?)
      case Reading(f) => Watching(media, f)
      case Over(outcome) =>
        if outcome.Uploaded? || outcome.MetadataCreated? then Settled(media)
        else if outcome.CompensationFailed? then Abandoned(media) else Nothing
      case Crashed => Dead
      case _ => Nothing
    }

    predicate Ended() {
      lock.NoLock? && stage.Over?
    }

    /** acquireWrite or acquireRead is next. */
    predicate WantsLock() {
      lock.NoLock? && ((stage.Put? && ValidMediaId(media)) || stage.Compensation? || stage.Staging? || stage.Opening?)
    }

    /** A file or database step is next.  Those inside the store are taken under the lock. */
    predicate CanWork() {
      || (lock.NoLock? && (stage.Put? || stage.Stored? || stage.Finding? || stage.Locating? || stage.MetadataOnly? ||
           stage.Authorizing?))
      || (lock.Held? && (stage.Put? || stage.Compensation? || stage.Staging? || stage.Opening? || stage.Reading?))
      || (lock.Held? && stage.Hidden? && (stage.progress.RowsNext? || stage.progress.RowsKept? ||
           stage.progress.RowsGone?))
    }

    predicate Uploads() {
      stage.Put? || stage.Stored? || stage.Compensation?
    }

    predicate Deletes() {
      stage.Finding? || stage.Locating? || stage.MetadataOnly? || stage.Staging? || stage.Hidden?
    }
  }

  // ----- the steps of one operation -----

  datatype Worked = Worked(stores: Stores, process: Process)

  /** The next step of UploadItem, when nothing goes wrong (`ok`) or when the step reports an error
      and changes nothing. */
  function UploadWork(st: Stores, op: Op, p: Process, ok: bool): Worked
    requires p.CanWork() && p.Uploads()
  {
    var m, b := p.media, p.stage.bytes;
    if p.stage.Put? then
      // refused before the lock: role, identifier, source, limit; then empty or too large content,
      // a temporary file that fails, a conflict, or the rename
      if p.lock.NoLock? then Worked(st, p.To(Over(NothingStored), NoLock))
      else if ok && b != [] && m !in st.published then Worked(Publish(st, op, m, b), p.To(Stored(b), Leaving))
      else Worked(st, p.To(Over(NothingStored), Leaving))
    else if p.stage.Stored? then
      // NewItem, NewLocation and the audit event, then one transaction
      if ok && m !in st.items then Worked(InsertManaged(st, op, m, b), p.To(Over(Uploaded), NoLock))
      else Worked(st, p.To(Compensation(b), NoLock))
    else
      if ok && m in st.published then Worked(Unpublish(st, m), p.To(Over(Compensated), Leaving))
      else Worked(st, p.To(Over(CompensationFailed), Leaving))
  }

  /** The next step of ManagedService.DeleteItem. */
  function DeleteWork(st: Stores, op: Op, p: Process, ok: bool): Worked
    requires p.CanWork() && p.Deletes()
  {
    var m := p.media;
    match p.stage
    case Finding =>
      Worked(st, p.To(if ok && m in st.items then Locating else Over(Refused), NoLock))
    case Locating =>
      Worked(st, p.To(if !ok then Over(Refused) else if m in st.locations then Staging else MetadataOnly, NoLock))
    case MetadataOnly =>
      // the location row references the item row, with deletion restricted
      if ok && m in st.items && m !in st.locations then Worked(DeleteRows(st, m), p.To(Over(MetadataDeleted), NoLock))
      else Worked(st, p.To(Over(Refused), NoLock))
    case Staging =>
      if ok && m in st.published && m !in st.staged then
        Worked(Stage(st, op, m), p.To(Hidden(st.published[m], RowsNext), Held))
      else Worked(st, p.To(Over(StagingFailed), Leaving))
    case Hidden(f, RowsNext) =>
      if ok && m in st.locations then Worked(DeleteRows(st, m), p.To(Hidden(f, RowsGone), Held))
      else Worked(st, p.To(Hidden(f, RowsKept), Held))
    case Hidden(f, RowsKept) =>
      if ok && m !in st.published && m in st.staged then Worked(Restore(st, m), p.To(Over(RolledBack), Leaving))
      else Worked(st, p.To(Hidden(f, RollbackFailed), Held))
    case Hidden(f, RowsGone) =>
      if ok && m in st.staged then Worked(Discard(st, m), p.To(Over(Deleted), Leaving))
      else Worked(st, p.To(Hidden(f, CommitFailed), Held))
  }

  /** The next step of ContentReadService.Open, or closing the reader. */
  function ReadWork(st: Stores, p: Process, ok: bool): Worked
    requires p.CanWork() && !p.Uploads() && !p.Deletes()
  {
    var m := p.media;
    if p.stage.Authorizing? then Worked(st, p.To(if ok && m in st.locations then Opening else Over(ReadEnded), NoLock))
    else if p.stage.Opening? && ok && m in st.published then Worked(st, p.To(Reading(st.published[m]), Held))
    else Worked(st, p.To(Over(ReadEnded), Leaving))
  }

  function Work(st: Stores, op: Op, p: Process, ok: bool): (r: Worked)
    requires p.CanWork()
    ensures r.process.media == p.media && r.process.mode == p.mode
    ensures if p.lock.Held? then r.process.lock.Held? || r.process.lock.Leaving? else r.process.lock.NoLock?
  {
    if p.Uploads() then UploadWork(st, op, p, ok) else if p.Deletes() then DeleteWork(st, op, p, ok)
      else ReadWork(st, p, ok)
  }

  // ----- the whole system -----

  type Ops = map<Op, Process>

  datatype State = State(locks: L.State, stores: Stores, ops: Ops)

  const Init := State(L.Init, Stores(map[], map[], map[], {}), map[])

  datatype Action =
    | BeginUpload(op: Op, media: MediaId, bytes: Bytes)
    | BeginDelete(op: Op, media: MediaId)
    | BeginRead(op: Op, media: MediaId)
    | CreateItem(op: Op, media: MediaId, metadata: Metadata)
    | UpdateItem(media: MediaId, metadata: Metadata)
    | TakeReference(op: Op, candidate: L.LockId)
    | GetLock(op: Op)
    | Unlock(op: Op)
    | DropReference(op: Op)
    | DoWork(op: Op, ok: bool)
    | Crash

  predicate Enabled(s: State, a: Action) {
    match a
    case BeginUpload(op, m, _) => op !in s.ops
    case BeginDelete(op, m) => op !in s.ops
    case BeginRead(op, m) => op !in s.ops
    case CreateItem(op, m, _) => op !in s.ops && m !in s.stores.items
    case UpdateItem(m, _) => m in s.stores.items
    case TakeReference(op, candidate) => op in s.ops && s.ops[op].WantsLock() && L.MayReference(s.locks, op, candidate)
    case GetLock(op) => op in s.ops && s.ops[op].lock.Blocked? && L.MayAcquire(s.locks, op)
    case Unlock(op) => op in s.ops && s.ops[op].lock.Leaving? && L.MayRelease(s.locks, op)
    case DropReference(op) => op in s.ops && s.ops[op].lock.Leaving? && L.MayUnreference(s.locks, op)
    case DoWork(op, _) => op in s.ops && s.ops[op].CanWork()
    case Crash => true
  }

  function AfterCrashed(p: Process): Process {
    if p.Ended() then p else p.To(Crashed, NoLock)
  }

  function Apply(s: State, a: Action): State
    requires Enabled(s, a)
  {
    match a
    case BeginUpload(op, m, b) => s.(ops := s.ops[op := Process(m, L.Write, Put(b), NoLock)])
    case BeginDelete(op, m) => s.(ops := s.ops[op := Process(m, L.Write, Finding, NoLock)])
    case BeginRead(op, m) => s.(ops := s.ops[op := Process(m, L.Read, Authorizing, NoLock)])
    case CreateItem(op, m, metadata) =>
      s.(stores := InsertMetadata(s.stores, op, m, metadata),
        ops := s.ops[op := Process(m, L.Write, Over(MetadataCreated), NoLock)])
    case UpdateItem(m, metadata) => s.(stores := UpdateMetadata(s.stores, m, metadata))
    case TakeReference(op, candidate) =>
      var p := s.ops[op];
      State(L.ReferenceStep(s.locks, op, StorageKeyForMedia(p.media), p.mode, candidate), s.stores,
        s.ops[op := p.(lock := Blocked)])
    case GetLock(op) => State(L.AcquireStep(s.locks, op), s.stores, s.ops[op := s.ops[op].(lock := Held)])
    case Unlock(op) => s.(locks := L.ReleaseStep(s.locks, op))
    case DropReference(op) => State(L.UnreferenceStep(s.locks, op), s.stores, s.ops[op := s.ops[op].(lock := NoLock)])
    case DoWork(op, ok) =>
      var Worked(st, p) := Work(s.stores, op, s.ops[op], ok);
      State(s.locks, st, s.ops[op := p])
    case Crash => State(L.Init, s.stores, map op | op in s.ops :: AfterCrashed(s.ops[op]))
  }

  datatype Reached = Stuck | At(state: State)

  function Run(actions: seq<Action>): Reached {
    if actions == [] then At(Init)
    else match Run(actions[..|actions| - 1])
      case Stuck => Stuck
      case At(s) =>
        var a := actions[|actions| - 1];
        if Enabled(s, a) then At(Apply(s, a)) else Stuck
  }

  // ----- the invariant -----

  function ClaimsOf(ops: Ops): Claims {
    map op | op in ops :: ops[op].Claim()
  }

  ghost predicate LockFits(locks: L.State, op: Op, p: Process) {
    if p.lock.NoLock? then op !in locks.acquisitions
    else
      && op in locks.acquisitions
      && var a := locks.acquisitions[op];
         && a.key == StorageKeyForMedia(p.media) && a.mode == p.mode
         && (p.lock.Blocked? <==> a.Waiting?) && (p.lock.Held? ==> a.Holding?)
  }

  ghost predicate LocksFit(locks: L.State, ops: Ops) {
    && (forall op | op in ops :: LockFits(locks, op, ops[op]))
    && (forall op | op in locks.acquisitions :: op in ops)
  }

  /** Only an operation that holds the medium's lock hides or watches its file, and all that change
      files hold it for writing. */
  predicate UnderLock(p: Process) {
    && (p.stage.Hidden? || p.stage.Reading? ==> p.lock.Held?)
    && (p.Uploads() || p.Deletes() ==> p.mode.Write?)
    && (p.stage == Over(Uploaded) || p.stage == Over(MetadataCreated) ==> p.lock.NoLock?)
  }

  ghost predicate ProcessesFit(locks: L.State, ops: Ops) {
    LocksFit(locks, ops) && forall op | op in ops :: UnderLock(ops[op])
  }

  ghost predicate SagaInv(s: State) {
    L.Inv(s.locks) && ProcessesFit(s.locks, s.ops) && Inv(s.stores, ClaimsOf(s.ops))
  }

  lemma HoldersDiffer(locks: L.State, ops: Ops, op: Op, o: Op)
    requires L.Inv(locks) && LocksFit(locks, ops) && op in ops && o in ops && o != op
    requires ops[op].lock.Held? && ops[o].lock.Held? && ops[op].media == ops[o].media
    ensures ops[op].mode.Read?
  {
    hide L.Inv, Inv;
    assert LockFits(locks, op, ops[op]) && LockFits(locks, o, ops[o]);
    L.ExclusiveHolding(locks, op, o);
  }

  lemma WriterIsAlone(locks: L.State, ops: Ops, op: Op)
    requires L.Inv(locks) && ProcessesFit(locks, ops) && op in ops && ops[op].lock.Held? && ops[op].mode.Write?
    ensures Alone(ClaimsOf(ops), op, ops[op].media)
  {
    hide L.Inv, Inv;
    forall o | o != op
      ensures var c := ClaimOf(ClaimsOf(ops), o); !((c.Hiding? || c.Watching?) && c.media == ops[op].media)
    {
      if o in ops && ops[o].lock.Held? && ops[o].media == ops[op].media {
        HoldersDiffer(locks, ops, op, o);
      }
      assert o in ops ==> UnderLock(ops[o]);
    }
  }

  lemma ClaimsOfUpdate(ops: Ops, op: Op, p: Process)
    ensures ClaimsOf(ops[op := p]) == ClaimsOf(ops)[op := p.Claim()]
  {
  }

  // ----- lock steps -----

  ghost predicate OthersKeepLocks(locks: L.State, locks': L.State, op: Op) {
    forall o | o != op ::
      (o in locks'.acquisitions <==> o in locks.acquisitions) &&
        (o in locks.acquisitions ==> locks'.acquisitions[o] == locks.acquisitions[o])
  }

  lemma StepFits(locks: L.State, ops: Ops, locks': L.State, op: Op, p: Process)
    requires ProcessesFit(locks, ops) && OthersKeepLocks(locks, locks', op) && LockFits(locks', op, p) && UnderLock(p)
    ensures ProcessesFit(locks', ops[op := p])
  {
    var ops' := ops[op := p];
    forall o | o in ops'
      ensures LockFits(locks', o, ops'[o]) && UnderLock(ops'[o])
    {
      assert o != op ==> LockFits(locks, o, ops[o]) && UnderLock(ops[o]);
    }
  }

  lemma SameClaims(st: Stores, ops: Ops, op: Op, phase: Phase)
    requires Inv(st, ClaimsOf(ops)) && op in ops
    ensures Inv(st, ClaimsOf(ops[op := ops[op].(lock := phase)]))
  {
    assert ClaimsOf(ops[op := ops[op].(lock := phase)]) == ClaimsOf(ops);
  }

  /** A lock step changes neither the stores nor what any operation claims. */
  lemma LockStepKeepsInv(s: State, locks': L.State, op: Op, phase: Phase)
    requires ProcessesFit(s.locks, s.ops) && Inv(s.stores, ClaimsOf(s.ops))
    requires op in s.ops && L.Inv(locks') && OthersKeepLocks(s.locks, locks', op)
    requires var p := s.ops[op].(lock := phase); LockFits(locks', op, p) && UnderLock(p)
    ensures SagaInv(State(locks', s.stores, s.ops[op := s.ops[op].(lock := phase)]))
  {
    hide L.Inv, Inv;
    StepFits(s.locks, s.ops, locks', op, s.ops[op].(lock := phase));
    SameClaims(s.stores, s.ops, op, phase);
  }

  lemma TakeReferenceKeepsInv(s: State, op: Op, candidate: L.LockId)
    requires SagaInv(s) && op in s.ops && s.ops[op].WantsLock() && L.MayReference(s.locks, op, candidate)
    ensures var p := s.ops[op];
            SagaInv(State(L.ReferenceStep(s.locks, op, StorageKeyForMedia(p.media), p.mode, candidate), s.stores,
              s.ops[op := p.(lock := Blocked)]))
  {
    hide L.Inv, Inv, ClaimsOf, StorageKeyForMedia;
    var p := s.ops[op];
    L.ReferenceKeepsInv(s.locks, op, StorageKeyForMedia(p.media), p.mode, candidate);
    LockStepKeepsInv(s, L.ReferenceStep(s.locks, op, StorageKeyForMedia(p.media), p.mode, candidate), op, Blocked);
  }

  lemma GetLockKeepsInv(s: State, op: Op)
    requires SagaInv(s) && op in s.ops && s.ops[op].lock.Blocked? && L.MayAcquire(s.locks, op)
    ensures SagaInv(State(L.AcquireStep(s.locks, op), s.stores, s.ops[op := s.ops[op].(lock := Held)]))
  {
    hide L.Inv, Inv, ClaimsOf, StorageKeyForMedia;
    assert LockFits(s.locks, op, s.ops[op]) && UnderLock(s.ops[op]);
    L.AcquireKeepsInv(s.locks, op);
    LockStepKeepsInv(s, L.AcquireStep(s.locks, op), op, Held);
  }

  lemma UnlockKeepsInv(s: State, op: Op)
    requires SagaInv(s) && op in s.ops && s.ops[op].lock.Leaving? && L.MayRelease(s.locks, op)
    ensures SagaInv(State(L.ReleaseStep(s.locks, op), s.stores, s.ops[op := s.ops[op].(lock := Leaving)]))
  {
    hide L.Inv, Inv, ClaimsOf, StorageKeyForMedia;
    assert LockFits(s.locks, op, s.ops[op]) && UnderLock(s.ops[op]);
    L.ReleaseKeepsInv(s.locks, op);
    LockStepKeepsInv(s, L.ReleaseStep(s.locks, op), op, Leaving);
  }

  lemma DropReferenceKeepsInv(s: State, op: Op)
    requires SagaInv(s) && op in s.ops && s.ops[op].lock.Leaving? && L.MayUnreference(s.locks, op)
    ensures SagaInv(State(L.UnreferenceStep(s.locks, op), s.stores, s.ops[op := s.ops[op].(lock := NoLock)]))
  {
    hide L.Inv, Inv, ClaimsOf, StorageKeyForMedia;
    assert LockFits(s.locks, op, s.ops[op]) && UnderLock(s.ops[op]);
    L.UnreferenceKeepsInv(s.locks, op);
    LockStepKeepsInv(s, L.UnreferenceStep(s.locks, op), op, NoLock);
  }

  // ----- file and database steps -----

  /** What an operation knows when it works: its own claim, and under the write lock that nobody
      else hides or watches the file. */
  ghost predicate Prepared(st: Stores, claims: Claims, op: Op, p: Process) {
    && Inv(st, claims) && op in claims && claims[op] == p.Claim() && p.CanWork()
    && (p.lock.Held? && p.mode.Write? ==> Alone(claims, op, p.media))
  }

  lemma UploadWorkKeepsStores(st: Stores, claims: Claims, op: Op, p: Process, ok: bool)
    requires Prepared(st, claims, op, p) && p.Uploads() && p.mode.Write?
    ensures var w := UploadWork(st, op, p, ok); Inv(w.stores, claims[op := w.process.Claim()])
  {
    assert claims[op := p.Claim()] == claims;
    if p.stage.Stored? {
      if ok && p.media !in st.items {
        InsertManagedKeepsInv(st, claims, op, p.media, p.stage.bytes);
      }
    } else if p.stage.Compensation? {
      UnpublishKeepsInv(st, claims, op, p.media, p.stage.bytes);
      AbandonKeepsInv(st, claims, op, p.media, p.stage.bytes);
    } else if p.lock.Held? && p.media !in st.published {
      PublishKeepsInv(st, claims, op, p.media, p.stage.bytes);
    }
  }

  lemma DeleteWorkKeepsStores(st: Stores, claims: Claims, op: Op, p: Process, ok: bool)
    requires Prepared(st, claims, op, p) && p.Deletes() && p.mode.Write?
    ensures var w := DeleteWork(st, op, p, ok); Inv(w.stores, claims[op := w.process.Claim()])
  {
    assert claims[op := p.Claim()] == claims;
    if p.stage.Hidden? {
      if p.stage.progress.RowsKept? {
        RestoreKeepsInv(st, claims, op, p.media, p.stage.file);
      } else if p.stage.progress.RowsGone? {
        DiscardKeepsInv(st, claims, op, p.media, p.stage.file);
      } else if p.media in st.locations {
        DeleteRowsKeepsInv(st, claims, op, p.media, p.stage.file);
      }
    } else if p.stage.MetadataOnly? && p.media !in st.locations {
      DeleteMetadataKeepsInv(st, claims, p.media);
    } else if p.stage.Staging? && p.media in st.published && p.media !in st.staged {
      StageKeepsInv(st, claims, op, p.media);
    }
  }

  lemma ReadWorkKeepsStores(st: Stores, claims: Claims, op: Op, p: Process, ok: bool)
    requires Prepared(st, claims, op, p) && !p.Uploads() && !p.Deletes()
    ensures var w := ReadWork(st, p, ok); Inv(w.stores, claims[op := w.process.Claim()])
  {
    assert claims[op := p.Claim()] == claims;
    if p.stage.Opening? && p.media in st.published {
      WatchKeepsInv(st, claims, op, p.media);
    } else if p.stage.Reading? {
      UnwatchKeepsInv(st, claims, op);
    }
  }

  lemma WorkUnderLock(st: Stores, op: Op, p: Process, ok: bool)
    requires p.CanWork() && UnderLock(p)
    ensures UnderLock(Work(st, op, p, ok).process)
  {
  }

  lemma WorkFits(s: State, op: Op, ok: bool)
    requires ProcessesFit(s.locks, s.ops) && op in s.ops && s.ops[op].CanWork()
    ensures ProcessesFit(s.locks, s.ops[op := Work(s.stores, op, s.ops[op], ok).process])
  {
    var p := s.ops[op];
    assert LockFits(s.locks, op, p) && UnderLock(p);
    WorkUnderLock(s.stores, op, p, ok);
    StepFits(s.locks, s.ops, s.locks, op, Work(s.stores, op, p, ok).process);
  }

  lemma WorkKeepsStores(s: State, op: Op, ok: bool)
    requires SagaInv(s) && op in s.ops && s.ops[op].CanWork()
    ensures var w := Work(s.stores, op, s.ops[op], ok); Inv(w.stores, ClaimsOf(s.ops)[op := w.process.Claim()])
  {
    hide L.Inv, Inv;
    var p := s.ops[op];
    assert UnderLock(p);
    if p.lock.Held? && p.mode.Write? {
      WriterIsAlone(s.locks, s.ops, op);
    }
    if p.Uploads() {
      UploadWorkKeepsStores(s.stores, ClaimsOf(s.ops), op, p, ok);
    } else if p.Deletes() {
      DeleteWorkKeepsStores(s.stores, ClaimsOf(s.ops), op, p, ok);
    } else {
      ReadWorkKeepsStores(s.stores, ClaimsOf(s.ops), op, p, ok);
    }
  }

  lemma WorkKeepsInv(s: State, op: Op, ok: bool)
    requires SagaInv(s) && op in s.ops && s.ops[op].CanWork()
    ensures var w := Work(s.stores, op, s.ops[op], ok); SagaInv(State(s.locks, w.stores, s.ops[op := w.process]))
  {
    hide L.Inv, Inv, ClaimsOf, StorageKeyForMedia;
    WorkFits(s, op, ok);
    WorkKeepsStores(s, op, ok);
    ClaimsOfUpdate(s.ops, op, Work(s.stores, op, s.ops[op], ok).process);
  }

  // ----- beginnings, metadata and crashes -----

  lemma BeginKeepsInv(s: State, op: Op, p: Process)
    requires SagaInv(s) && op !in s.ops && p.lock.NoLock? && p.Claim().Nothing? && UnderLock(p)
    ensures SagaInv(s.(ops := s.ops[op := p]))
  {
    hide L.Inv, Inv, StorageKeyForMedia;
    StepFits(s.locks, s.ops, s.locks, op, p);
    NewClaim(s.stores, ClaimsOf(s.ops), op);
    ClaimsOfUpdate(s.ops, op, p);
  }

  lemma NewClaim(st: Stores, claims: Claims, op: Op)
    requires Inv(st, claims) && op !in claims
    ensures Inv(st, claims[op := Nothing])
  {
    var claims' := claims[op := Nothing];
    assert forall o :: ClaimOf(claims', o) == ClaimOf(claims, o);
    forall m
      ensures Coherent(st, claims', m)
    {
      assert Coherent(st, claims, m);
      assert NobodyPending(claims, m) ==> NobodyPending(claims', m);
    }
  }

  lemma CreateItemKeepsInv(s: State, op: Op, m: MediaId, metadata: Metadata)
    requires SagaInv(s) && op !in s.ops && m !in s.stores.items
    ensures SagaInv(Apply(s, CreateItem(op, m, metadata)))
  {
    hide L.Inv, Inv, StorageKeyForMedia;
    var p := Process(m, L.Write, Over(MetadataCreated), NoLock);
    StepFits(s.locks, s.ops, s.locks, op, p);
    InsertMetadataKeepsInv(s.stores, ClaimsOf(s.ops), op, m, metadata);
    ClaimsOfUpdate(s.ops, op, p);
  }

  lemma UpdateItemKeepsInv(s: State, m: MediaId, metadata: Metadata)
    requires SagaInv(s) && m in s.stores.items
    ensures SagaInv(State(s.locks, UpdateMetadata(s.stores, m, metadata), s.ops))
  {
    hide L.Inv, Inv;
    UpdateMetadataKeepsInv(s.stores, ClaimsOf(s.ops), m, metadata);
  }

  lemma CrashClaims(ops: Ops)
    requires forall op | op in ops :: UnderLock(ops[op])
    ensures AfterCrash(ClaimsOf(ops), ClaimsOf(map op | op in ops :: AfterCrashed(ops[op])))
  {
  }

  lemma CrashFits(ops: Ops)
    ensures ProcessesFit(L.Init, map op | op in ops :: AfterCrashed(ops[op]))
  {
  }

  lemma CrashKeepsSagaInv(s: State)
    requires SagaInv(s)
    ensures SagaInv(State(L.Init, s.stores, map op | op in s.ops :: AfterCrashed(s.ops[op])))
  {
    hide L.Inv, Inv, ClaimsOf, AfterCrash, LocksFit;
    L.InitInv();
    CrashFits(s.ops);
    CrashClaims(s.ops);
    CrashKeepsInv(s.stores, ClaimsOf(s.ops), ClaimsOf(map op | op in s.ops :: AfterCrashed(s.ops[op])));
  }

  lemma StepKeepsInv(s: State, a: Action)
    requires SagaInv(s) && Enabled(s, a)
    ensures SagaInv(Apply(s, a))
  {
    hide SagaInv, L.Inv, Inv, ClaimsOf, StorageKeyForMedia, Work;
    match a
    case BeginUpload(op, m, b) => BeginKeepsInv(s, op, Process(m, L.Write, Put(b), NoLock));
    case BeginDelete(op, m) => BeginKeepsInv(s, op, Process(m, L.Write, Finding, NoLock));
    case BeginRead(op, m) => BeginKeepsInv(s, op, Process(m, L.Read, Authorizing, NoLock));
    case CreateItem(op, m, metadata) => CreateItemKeepsInv(s, op, m, metadata);
    case UpdateItem(m, metadata) => UpdateItemKeepsInv(s, m, metadata);
    case TakeReference(op, candidate) => TakeReferenceKeepsInv(s, op, candidate);
    case GetLock(op) => GetLockKeepsInv(s, op);
    case Unlock(op) =>
      UnlockKeepsInv(s, op);
      assert s.ops[op := s.ops[op].(lock := Leaving)] == s.ops;
    case DropReference(op) => DropReferenceKeepsInv(s, op);
    case DoWork(op, ok) => WorkKeepsInv(s, op, ok);
    case Crash => CrashKeepsSagaInv(s);
  }

  lemma {:induction false} ReachableInv(actions: seq<Action>)
    ensures Run(actions).At? ==> SagaInv(Run(actions).state)
  {
    if actions == [] {
      L.InitInv();
      assert forall m :: Coherent(Init.stores, ClaimsOf(Init.ops), m);
    } else {
      ReachableInv(actions[..|actions| - 1]);
      if Run(actions).At? {
        StepKeepsInv(Run(actions[..|actions| - 1]).state, actions[|actions| - 1]);
      }
    }
  }

  // ----- what holds in every reachable state, crashes included -----

  /** A location row never refers to bytes that are gone: the very bytes it was made for are there,
      published or hidden for deletion, and its size and checksum are theirs unless UpdateItem has
      replaced them. */
  lemma RowsNeverLoseTheirBytes(actions: seq<Action>, m: MediaId)
    requires Run(actions).At? && m in Run(actions).state.stores.locations
    ensures var st := Run(actions).state.stores;
            && m in st.items
            && ((m in st.published && BytesOfRow(st.items[m], st.published[m])) ||
                 (m in st.staged && BytesOfRow(st.items[m], st.staged[m].file)))
  {
    ReachableInv(actions);
    assert Coherent(Run(actions).state.stores, ClaimsOf(Run(actions).state.ops), m);
  }

  /** No file and no row of the operation exists, for any medium. */
  ghost predicate NoFileOf(st: Stores, op: Op) {
    && (forall m | m in st.published :: st.published[m].uploader != op)
    && (forall m | m in st.staged :: st.staged[m].file.uploader != op)
  }

  ghost predicate NoRowOf(st: Stores, op: Op) {
    forall m | m in st.items :: st.items[m].creator != op
  }

  /** An operation's files and rows are those that its claim allows. */
  lemma OnlyWhatIsClaimed(st: Stores, claims: Claims, op: Op)
    requires Inv(st, claims) && op in claims
    ensures forall m | m in st.published && st.published[m].uploader == op :: MayHaveFile(claims[op], m, st.published[m])
    ensures forall m | m in st.staged && st.staged[m].file.uploader == op :: MayHaveFile(claims[op], m, st.staged[m].file)
    ensures forall m | m in st.items && st.items[m].creator == op :: claims[op] == Settled(m)
  {
    forall m
      ensures m in st.published && st.published[m].uploader == op ==> MayHaveFile(claims[op], m, st.published[m])
      ensures m in st.staged && st.staged[m].file.uploader == op ==> MayHaveFile(claims[op], m, st.staged[m].file)
      ensures m in st.items && st.items[m].creator == op ==> claims[op] == Settled(m)
    {
      assert Coherent(st, claims, m);
    }
  }

  /** Once an upload has reported an error it has left neither row nor file, then and ever after,
      unless its compensating Delete failed; even then it has left no row. */
  lemma FailedUploadLeavesNothing(actions: seq<Action>, op: Op)
    requires Run(actions).At? && op in Run(actions).state.ops
    requires var t := Run(actions).state.ops[op].stage;
             t == Over(NothingStored) || t == Over(Compensated) ||
             t == Over(CompensationFailed)
    ensures NoRowOf(Run(actions).state.stores, op)
    ensures Run(actions).state.ops[op].stage != Over(CompensationFailed) ==> NoFileOf(Run(actions).state.stores, op)
  {
    hide L.Inv, ProcessesFit, Inv;
    ReachableInv(actions);
    var s := Run(actions).state;
    OnlyWhatIsClaimed(s.stores, ClaimsOf(s.ops), op);
  }

  /** The compensating Delete, once it has the lock, finds the file that this upload published, so
      it fails only when the removal itself does; and no row then loses its bytes. */
  lemma CompensationFindsItsFile(actions: seq<Action>, op: Op)
    requires Run(actions).At? && op in Run(actions).state.ops
    requires var p := Run(actions).state.ops[op]; p.stage.Compensation? && p.lock.Held?
    ensures var s := Run(actions).state;
            var p := s.ops[op];
            && p.media in s.stores.published && s.stores.published[p.media] == File(op, p.stage.bytes)
            && Work(s.stores, op, p, true) == Worked(Unpublish(s.stores, p.media), p.To(Over(Compensated), Leaving))
  {
    ReachableInv(actions);
    var s := Run(actions).state;
    assert UnderLock(s.ops[op]);
    WriterIsAlone(s.locks, s.ops, op);
    UnpublishKeepsInv(s.stores, ClaimsOf(s.ops), op, s.ops[op].media, s.ops[op].stage.bytes);
  }

  lemma OwnClaimHolds(st: Stores, ops: Ops, op: Op)
    requires Inv(st, ClaimsOf(ops)) && op in ops && About(ops[op].Claim(), ops[op].media)
    ensures ClaimHolds(st, ClaimsOf(ops), op, ops[op].Claim())
  {
    assert Coherent(st, ClaimsOf(ops), ops[op].media);
    assert ClaimOf(ClaimsOf(ops), op) == ops[op].Claim();
  }

  lemma NobodyElseHolds(locks: L.State, ops: Ops, op: Op)
    requires L.Inv(locks) && ProcessesFit(locks, ops) && op in ops && ops[op].lock.Held? && ops[op].mode.Write?
    ensures forall o | o in ops && o != op :: !(ops[o].lock.Held? && ops[o].media == ops[op].media)
  {
    hide L.Inv;
    forall o | o in ops && o != op
      ensures !(ops[o].lock.Held? && ops[o].media == ops[op].media)
    {
      if ops[o].lock.Held? && ops[o].media == ops[op].media {
        HoldersDiffer(locks, ops, op, o);
      }
    }
  }

  /** What an operation has staged stays hidden, unchanged, with its published name free and under
      the operation's write lock alone, until its Rollback or Commit succeeds. */
  lemma StagedStaysGuarded(actions: seq<Action>, op: Op)
    requires Run(actions).At? && op in Run(actions).state.ops && Run(actions).state.ops[op].stage.Hidden?
    ensures var s := Run(actions).state;
            var p := s.ops[op];
            && p.media in s.stores.staged && s.stores.staged[p.media] == HiddenFile(p.stage.file, op)
            && p.media !in s.stores.published
            && p.lock.Held? && p.mode.Write?
            && (forall o | o in s.ops && o != op :: !(s.ops[o].lock.Held? && s.ops[o].media == p.media))
  {
    ReachableInv(actions);
    hide Run, L.Inv, Inv, ClaimsOf;
    var s := Run(actions).state;
    assert UnderLock(s.ops[op]);
    OwnClaimHolds(s.stores, s.ops, op);
    NobodyElseHolds(s.locks, s.ops, op);
  }

  /** The file an operation hides is the one it staged. */
  lemma {:induction false} HiddenFileStays(actions: seq<Action>, n: nat, op: Op)
    requires n <= |actions| && Run(actions).At?
    requires Run(actions[..n]).At? && op in Run(actions[..n]).state.ops && Run(actions[..n]).state.ops[op].stage.Hidden?
    requires op in Run(actions).state.ops && Run(actions).state.ops[op].stage.Hidden?
    ensures Run(actions).state.ops[op].media == Run(actions[..n]).state.ops[op].media
    ensures Run(actions).state.ops[op].stage.file == Run(actions[..n]).state.ops[op].stage.file
    decreases |actions|
  {
    if n == |actions| {
      assert actions[..n] == actions;
    } else {
      var before := actions[..|actions| - 1];
      assert before[..n] == actions[..n];
      StaysHiddenOrDone(actions, n, op);
      StepToHidden(Run(before).state, actions[|actions| - 1], op);
      HiddenFileStays(before, n, op);
    }
  }

  predicate HiddenOrDone(p: Process) {
    p.stage.Hidden? || p.stage.Over? || p.stage.Crashed?
  }

  lemma {:induction false} StaysHiddenOrDone(actions: seq<Action>, n: nat, op: Op)
    requires n < |actions| && Run(actions).At?
    requires Run(actions[..n]).At? && op in Run(actions[..n]).state.ops && Run(actions[..n]).state.ops[op].stage.Hidden?
    ensures var before := Run(actions[..|actions| - 1]);
            before.At? && op in before.state.ops && HiddenOrDone(before.state.ops[op])
    decreases |actions|
  {
    var before := actions[..|actions| - 1];
    if n < |before| {
      assert before[..n] == actions[..n];
      StaysHiddenOrDone(before, n, op);
      StepFromHidden(Run(before[..|before| - 1]).state, before[|before| - 1], op);
    } else {
      assert before == actions[..n];
    }
  }

  lemma StepFromHidden(s: State, a: Action, op: Op)
    requires Enabled(s, a) && op in s.ops && HiddenOrDone(s.ops[op])
    ensures var s' := Apply(s, a); op in s'.ops && HiddenOrDone(s'.ops[op])
  {
  }

  lemma StepToHidden(s: State, a: Action, op: Op)
    requires Enabled(s, a) && op in s.ops && HiddenOrDone(s.ops[op])
    requires var s' := Apply(s, a); op in s'.ops && s'.ops[op].stage.Hidden?
    ensures s.ops[op].stage.Hidden?
    ensures var s' := Apply(s, a); s'.ops[op].media == s.ops[op].media && s'.ops[op].stage.file == s.ops[op].stage.file
  {
  }

  /** Between a successful StageDelete and its Rollback anything may have run.  The Rollback does not
      meet an occupied path, and puts back the same file that was published before StageDelete. */
  lemma RollbackRestores(actions: seq<Action>, n: nat, op: Op)
    requires n < |actions| && Run(actions).At? && Run(actions[..n]).At? && Run(actions[..n + 1]).At?
    requires var s := Run(actions[..n]).state; op in s.ops && s.ops[op].stage.Staging? && actions[n] == DoWork(op, true)
    requires Run(actions[..n + 1]).state.ops[op].stage.Hidden?
    requires var s := Run(actions).state;
             op in s.ops && s.ops[op].CanWork() && s.ops[op].stage.Hidden? &&
             s.ops[op].stage.progress.RowsKept?
    ensures var st0, s := Run(actions[..n]).state.stores, Run(actions).state;
            var m := s.ops[op].media;
            && m in st0.published && m !in s.stores.published && m in s.stores.staged
            && Work(s.stores, op, s.ops[op], true).process.stage == Over(RolledBack)
            && Work(s.stores, op, s.ops[op], true).stores ==
                 s.stores.(published := s.stores.published[m := st0.published[m]], staged := s.stores.staged - {m})
  {
    assert actions[..n + 1][..n] == actions[..n];
    HiddenFileStays(actions, n + 1, op);
    StagedStaysGuarded(actions, op);
  }

  // ----- the rows while a file is hidden -----

  /** The file is hidden and this deletion has not deleted the rows. */
  predicate RowsPending(p: Process) {
    p.stage.Hidden? && (p.stage.progress.RowsNext? || p.stage.progress.RowsKept?)
  }

  /** The rows of before are there; only UpdateItem may have replaced the metadata. */
  predicate RowsThere(before: Stores, after: Stores, m: MediaId, edited: bool) {
    m in before.locations && m in before.items ==>
      && m in after.locations && m in after.items && after.items[m].creator == before.items[m].creator
      && (!edited ==> after.items[m] == before.items[m])
  }

  predicate Edits(a: Action, m: MediaId) {
    a.UpdateItem? && a.media == m
  }

  lemma OtherWorkKeepsRows(st: Stores, o: Op, p: Process, ok: bool, m: MediaId)
    requires p.CanWork() && (p.media == m ==> !p.stage.Hidden?)
    ensures RowsThere(st, Work(st, o, p, ok).stores, m, false)
  {
  }

  lemma StepKeepsRows(s: State, a: Action, op: Op)
    requires SagaInv(s) && Enabled(s, a) && op in s.ops && RowsPending(s.ops[op])
    requires op in Apply(s, a).ops && RowsPending(Apply(s, a).ops[op])
    ensures RowsThere(s.stores, Apply(s, a).stores, s.ops[op].media, Edits(a, s.ops[op].media))
  {
    hide L.Inv, Inv, ClaimsOf, Work;
    var m := s.ops[op].media;
    if a.DoWork? {
      if a.op == op {
        OwnWorkKeepsRows(s.stores, op, s.ops[op], a.ok);
      } else {
        assert UnderLock(s.ops[op]) && UnderLock(s.ops[a.op]);
        NobodyElseHolds(s.locks, s.ops, op);
        OtherWorkKeepsRows(s.stores, a.op, s.ops[a.op], a.ok, m);
      }
    }
  }

  lemma OwnWorkKeepsRows(st: Stores, op: Op, p: Process, ok: bool)
    requires p.CanWork() && RowsPending(p) && RowsPending(Work(st, op, p, ok).process)
    ensures RowsThere(st, Work(st, op, p, ok).stores, p.media, false)
  {
  }

  lemma StepToPending(s: State, a: Action, op: Op)
    requires Enabled(s, a) && op in s.ops && s.ops[op].stage.Hidden?
    requires op in Apply(s, a).ops && RowsPending(Apply(s, a).ops[op])
    ensures RowsPending(s.ops[op]) && Apply(s, a).ops[op].media == s.ops[op].media
  {
  }

  predicate EditsIn(actions: seq<Action>, m: MediaId) {
    exists i :: 0 <= i < |actions| && Edits(actions[i], m)
  }

  /** As long as an operation hides a file without having deleted the rows, the rows stay. */
  lemma {:induction false} RowsStay(actions: seq<Action>, n: nat, op: Op)
    requires n <= |actions| && Run(actions).At?
    requires Run(actions[..n]).At? && op in Run(actions[..n]).state.ops && Run(actions[..n]).state.ops[op].stage.Hidden?
    requires op in Run(actions).state.ops && RowsPending(Run(actions).state.ops[op])
    ensures var m := Run(actions).state.ops[op].media;
            RowsThere(Run(actions[..n]).state.stores, Run(actions).state.stores, m, EditsIn(actions[n..], m))
    decreases |actions|
  {
    hide SagaInv, Apply, Enabled, Edits;
    if n == |actions| {
      assert actions[..n] == actions;
    } else {
      var before, a := actions[..|actions| - 1], actions[|actions| - 1];
      assert before[..n] == actions[..n];
      StaysHiddenOrDone(actions, n, op);
      var s := Run(before).state;
      StepToHidden(s, a, op);
      StepToPending(s, a, op);
      RowsStay(before, n, op);
      ReachableInv(before);
      StepKeepsRows(s, a, op);
      var m := s.ops[op].media;
      LaterEdits(actions[n..], m);
      assert actions[n..][..|actions[n..]| - 1] == before[n..];
    }
  }

  lemma LaterEdits(actions: seq<Action>, m: MediaId)
    requires actions != []
    ensures EditsIn(actions[..|actions| - 1], m) || Edits(actions[|actions| - 1], m) ==> EditsIn(actions, m)
  {
    hide Edits;
    var before := actions[..|actions| - 1];
    if i :| 0 <= i < |before| && Edits(before[i], m) {
      assert Edits(actions[i], m);
    }
  }

  lemma StagingKeepsRows(st: Stores, op: Op, p: Process)
    requires p.CanWork() && p.stage.Staging?
    ensures var st' := Work(st, op, p, true).stores; st'.items == st.items && st'.locations == st.locations
  {
  }

  /** A deletion whose row deletion failed: whatever ran since StageDelete, the Rollback that does not
      itself fail leaves the file published as it was before StageDelete, and the rows of that time are
      there, with the same metadata unless UpdateItem has replaced it. */
  lemma FailedDeletionLeavesBoth(actions: seq<Action>, n: nat, op: Op)
    requires n < |actions| && Run(actions).At? && Run(actions[..n]).At? && Run(actions[..n + 1]).At?
    requires var s := Run(actions[..n]).state; op in s.ops && s.ops[op].stage.Staging? && actions[n] == DoWork(op, true)
    requires Run(actions[..n + 1]).state.ops[op].stage.Hidden?
    requires var s := Run(actions).state;
             op in s.ops && s.ops[op].CanWork() && s.ops[op].stage.Hidden? &&
             s.ops[op].stage.progress.RowsKept?
    ensures var st0, s := Run(actions[..n]).state.stores, Run(actions).state;
            var m, w := s.ops[op].media, Work(s.stores, op, s.ops[op], true);
            && w.process.stage == Over(RolledBack)
            && m in st0.published && m in w.stores.published && w.stores.published[m] == st0.published[m] &&
                 m !in w.stores.staged
            && RowsThere(st0, w.stores, m, EditsIn(actions[n + 1..], m))
  {
    hide SagaInv;
    assert actions[..n + 1][..n] == actions[..n];
    RollbackRestores(actions, n, op);
    RowsStay(actions, n + 1, op);
    var s0 := Run(actions[..n]).state;
    StagingKeepsRows(s0.stores, op, s0.ops[op]);
    RollbackKeepsRows(Run(actions).state.stores, op, Run(actions).state.ops[op]);
  }

  lemma RollbackKeepsRows(st: Stores, op: Op, p: Process)
    requires p.CanWork() && p.stage.Hidden? && p.stage.progress.RowsKept?
    ensures var st' := Work(st, op, p, true).stores; st'.items == st.items && st'.locations == st.locations
  {
  }

  /** A deletion that reports success leaves no location row and no file under either name. */
  lemma DeletedMeansGone(actions: seq<Action>, op: Op)
    requires Run(actions).At? && op in Run(actions).state.ops
    requires var p := Run(actions).state.ops[op]; p.CanWork() && p.stage.Hidden?
    requires var s := Run(actions).state; Work(s.stores, op, s.ops[op], true).process.stage == Over(Deleted)
    ensures var s := Run(actions).state;
            var m, st := s.ops[op].media, Work(s.stores, op, s.ops[op], true).stores;
            m !in st.published && m !in st.staged && m !in st.locations
  {
    ReachableInv(actions);
    hide Run, L.Inv, Inv, ClaimsOf;
    OwnClaimHolds(Run(actions).state.stores, Run(actions).state.ops, op);
  }

  /** The bytes behind an open reader stay published and unchanged until it is closed. */
  lemma ReaderKeepsItsBytes(actions: seq<Action>, op: Op)
    requires Run(actions).At? && op in Run(actions).state.ops && Run(actions).state.ops[op].stage.Reading?
    ensures var s := Run(actions).state;
            var p := s.ops[op];
            p.media in s.stores.published && s.stores.published[p.media] == p.stage.seen
  {
    ReachableInv(actions);
    hide Run, L.Inv, Inv, ClaimsOf;
    OwnClaimHolds(Run(actions).state.stores, Run(actions).state.ops, op);
  }

  // ----- what holds without crashes -----

  lemma {:induction false} NobodyCrashed(actions: seq<Action>)
    requires Run(actions).At? && Crash !in actions
    ensures forall op | op in Run(actions).state.ops :: !Run(actions).state.ops[op].stage.Crashed?
  {
    if actions != [] {
      var before := actions[..|actions| - 1];
      NobodyCrashed(before);
      forall op | op in Run(actions).state.ops
        ensures !Run(actions).state.ops[op].stage.Crashed?
      {
        NoNewCrash(Run(before).state, actions[|actions| - 1], op);
      }
    }
  }

  lemma NoNewCrash(s: State, a: Action, op: Op)
    requires Enabled(s, a) && !a.Crash? && op in Apply(s, a).ops
    requires op in s.ops ==> !s.ops[op].stage.Crashed?
    ensures !Apply(s, a).ops[op].stage.Crashed?
  {
  }

  /** Without crashes each file has one name at a time, a hidden one belongs to a deletion that is
      still at work or stuck under its write lock, and a location row's file is the row's own. */
  lemma OneNameAtATime(actions: seq<Action>, m: MediaId)
    requires Run(actions).At? && Crash !in actions
    ensures var s := Run(actions).state;
            && (m in s.stores.staged ==>
                  var d := s.stores.staged[m].stager;
                  && m !in s.stores.published && d in s.ops
                  && s.ops[d].stage.Hidden? && s.ops[d].media == m && s.ops[d].lock.Held? && s.ops[d].mode.Write?)
            && (m in s.stores.locations ==>
                  && m in s.stores.items && (m in s.stores.staged || m in s.stores.published)
                  && BytesOfRow(s.stores.items[m], if m in s.stores.staged then s.stores.staged[m].file
                       else s.stores.published[m]))
  {
    ReachableInv(actions);
    NobodyCrashed(actions);
    var s := Run(actions).state;
    var claims := ClaimsOf(s.ops);
    assert Coherent(s.stores, claims, m);
    if m in s.stores.staged {
      var d := s.stores.staged[m].stager;
      assert ClaimOf(claims, d).Hiding? && d in s.ops;
      StagedStaysGuarded(actions, d);
    }
  }
}
