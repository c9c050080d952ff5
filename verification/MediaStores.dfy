/** The two stores that an upload and a managed deletion keep in step: the content files and the
    rows of the database, with the invariant that ties them together.

    Each medium has two file names below the content root, the published one and the hidden
    `.delete-` one (internal/storage/filesystem/content_store.go:297-346), and at most one item row
    and one location row.  Every function below is one atomic effect of an operation on them.

    Files and rows carry the operation that made them.  An operation's *claim* says what it relies
    on between its own steps, while others run.
 */
module MediaStores {

  type MediaId = string
  type Op = nat
  type Bytes = seq<bv8>

  /** SHA-256 taken as injective. */
  datatype Digest = Sha256(preimage: Bytes)
  datatype Metadata = Metadata(size: nat, checksum: Digest)

  function MetadataOf(bytes: Bytes): Metadata {
    Metadata(|bytes|, Sha256(bytes))
  }

  datatype File = File(uploader: Op, bytes: Bytes)
  datatype HiddenFile = HiddenFile(file: File, stager: Op)
  datatype Row = Row(creator: Op, metadata: Metadata, edited: bool)

  /** `locations` has the media with a location row.  Its storage key is the one derived from the
      media ID, the only key ever inserted. */
  datatype Stores = Stores(
    published: map<MediaId, File>,
    staged: map<MediaId, HiddenFile>,
    items: map<MediaId, Row>,
    locations: set<MediaId>)

  datatype Claim =
    | Nothing
    | Pending(media: MediaId, bytes: Bytes)                 // published, row not inserted yet
    | Hiding(media: MediaId, file: File, rowsGone: bool)    // staged for deletion
    | Watching(media: MediaId, file: File)                  // open for reading
    | Settled(media: MediaId)                               // has inserted its rows
    | Abandoned(media: MediaId)                             // could not remove what it published
    | Dead                                                  // lost in a crash

  type Claims = map<Op, Claim>

  function ClaimOf(claims: Claims, op: Op): Claim {
    if op in claims then claims[op] else Nothing
  }

  // ----- effects -----

  function Publish(st: Stores, op: Op, m: MediaId, bytes: Bytes): Stores {
    st.(published := st.published[m := File(op, bytes)])
  }

  function Unpublish(st: Stores, m: MediaId): Stores {
    st.(published := st.published - {m})
  }

  function InsertManaged(st: Stores, op: Op, m: MediaId, bytes: Bytes): Stores {
    st.(items := st.items[m := Row(op, MetadataOf(bytes), false)], locations := st.locations + {m})
  }

  function InsertMetadata(st: Stores, op: Op, m: MediaId, metadata: Metadata): Stores {
    st.(items := st.items[m := Row(op, metadata, false)])
  }

  function UpdateMetadata(st: Stores, m: MediaId, metadata: Metadata): Stores
    requires m in st.items
  {
    st.(items := st.items[m := st.items[m].(metadata := metadata, edited := true)])
  }

  function DeleteRows(st: Stores, m: MediaId): Stores {
    st.(items := st.items - {m}, locations := st.locations - {m})
  }

  function Stage(st: Stores, op: Op, m: MediaId): Stores
    requires m in st.published
  {
    st.(published := st.published - {m}, staged := st.staged[m := HiddenFile(st.published[m], op)])
  }

  function Restore(st: Stores, m: MediaId): Stores
    requires m in st.staged
  {
    st.(published := st.published[m := st.staged[m].file], staged := st.staged - {m})
  }

  function Discard(st: Stores, m: MediaId): Stores {
    st.(staged := st.staged - {m})
  }

  // ----- the invariant, medium by medium -----

  /** Where an uploader's file may be, by what the uploader is doing. */
  predicate MayHaveFile(c: Claim, m: MediaId, f: File) {
    match c
    case Pending(media, bytes) => media == m && f.bytes == bytes
    case Settled(media) => media == m
    case Abandoned(media) => media == m
    case Dead => true
    case _ => false
  }

  ghost predicate FilesTraced(st: Stores, claims: Claims, m: MediaId) {
    && (m in st.published ==> MayHaveFile(ClaimOf(claims, st.published[m].uploader), m, st.published[m]))
    && (m in st.staged ==>
          var h := st.staged[m];
          && MayHaveFile(ClaimOf(claims, h.file.uploader), m, h.file)
          && (ClaimOf(claims, h.stager).Dead? || (ClaimOf(claims, h.stager).Hiding? &&
               ClaimOf(claims, h.stager).media == m)))
  }

  ghost predicate RowsTraced(st: Stores, claims: Claims, m: MediaId) {
    && (m in st.items ==> ClaimOf(claims, st.items[m].creator) == Settled(m))
    && (m in st.locations ==> m in st.items)
  }

  /** The bytes a row was made for, unless UpdateItem has replaced its metadata since. */
  predicate BytesOfRow(r: Row, f: File) {
    f.uploader == r.creator && (!r.edited ==> r.metadata == MetadataOf(f.bytes))
  }

  /** A location row's own bytes exist, under one of the two names. */
  ghost predicate RowHasBytes(st: Stores, m: MediaId) {
    m in st.locations && m in st.items ==>
      || (m in st.published && BytesOfRow(st.items[m], st.published[m]))
      || (m in st.staged && BytesOfRow(st.items[m], st.staged[m].file))
  }

  ghost predicate NobodyPending(claims: Claims, m: MediaId) {
    forall op :: !(ClaimOf(claims, op).Pending? && ClaimOf(claims, op).media == m)
  }

  ghost predicate ClaimHolds(st: Stores, claims: Claims, op: Op, c: Claim) {
    match c
    case Pending(m, bytes) =>
      && (|| (m in st.published && st.published[m] == File(op, bytes))
          || (m in st.staged && st.staged[m].file == File(op, bytes) && !ClaimOf(claims, st.staged[m].stager).Dead?))
      // a row already there is one whose file a crash left hidden
      && (m in st.locations ==>
            && m in st.published && st.published[m] == File(op, bytes)
            && m in st.staged && ClaimOf(claims, st.staged[m].stager).Dead?)
      && (m in st.staged && st.staged[m].file.uploader == op ==> !ClaimOf(claims, st.staged[m].stager).Dead?)
    case Hiding(m, file, rowsGone) =>
      && m in st.staged && st.staged[m] == HiddenFile(file, op) && m !in st.published
      && (rowsGone ==> m !in st.locations && NobodyPending(claims, m))
    case Watching(m, file) =>
      m in st.published && st.published[m] == file
    case _ => true
  }

  predicate About(c: Claim, m: MediaId) {
    (c.Pending? || c.Hiding? || c.Watching?) && c.media == m
  }

  ghost predicate ClaimsHold(st: Stores, claims: Claims, m: MediaId) {
    forall op | About(ClaimOf(claims, op), m) :: ClaimHolds(st, claims, op, ClaimOf(claims, op))
  }

  ghost predicate Coherent(st: Stores, claims: Claims, m: MediaId) {
    FilesTraced(st, claims, m) && RowsTraced(st, claims, m) && RowHasBytes(st, m) && ClaimsHold(st, claims, m)
  }

  ghost predicate Inv(st: Stores, claims: Claims) {
    forall m :: Coherent(st, claims, m)
  }

  // ----- one operation's step concerns one medium -----

  predicate Concerns(c: Claim, m: MediaId) {
    c.Nothing? || (!c.Dead? && c.media == m)
  }

  ghost predicate SameAt(st: Stores, st': Stores, m: MediaId) {
    && (m in st'.published <==> m in st.published) && (m in st.published ==> st'.published[m] == st.published[m])
    && (m in st'.staged <==> m in st.staged) && (m in st.staged ==> st'.staged[m] == st.staged[m])
    && (m in st'.items <==> m in st.items) && (m in st.items ==> st'.items[m] == st.items[m])
    && (m in st'.locations <==> m in st.locations)
  }

  /** Operations change their claims on m only. */
  ghost predicate ClaimsMoveAt(claims: Claims, claims': Claims, m: MediaId) {
    forall op :: ClaimOf(claims', op) == ClaimOf(claims, op) ||
      (Concerns(ClaimOf(claims, op), m) && Concerns(ClaimOf(claims', op), m))
  }

  lemma OtherMedium(st: Stores, claims: Claims, st': Stores, claims': Claims, m: MediaId, x: MediaId)
    requires Coherent(st, claims, x) && x != m && SameAt(st, st', x) && ClaimsMoveAt(claims, claims', m)
    ensures Coherent(st', claims', x)
  {
    assert NobodyPending(claims, x) ==> NobodyPending(claims', x);
    forall op | About(ClaimOf(claims', op), x)
      ensures ClaimHolds(st', claims', op, ClaimOf(claims', op))
    {
      assert ClaimHolds(st, claims, op, ClaimOf(claims, op));
    }
  }

  lemma StepAt(st: Stores, claims: Claims, st': Stores, claims': Claims, m: MediaId)
    requires Inv(st, claims)
    requires forall x | x != m :: SameAt(st, st', x)
    requires ClaimsMoveAt(claims, claims', m) && Coherent(st', claims', m)
    ensures Inv(st', claims')
  {
    forall x
      ensures Coherent(st', claims', x)
    {
      if x != m {
        assert Coherent(st, claims, x);
        OtherMedium(st, claims, st', claims', m, x);
      }
    }
  }

  /** At most one upload is pending for a medium. */
  lemma OnePending(st: Stores, claims: Claims, m: MediaId, op: Op, o: Op)
    requires Coherent(st, claims, m)
    requires ClaimOf(claims, op).Pending? && ClaimOf(claims, op).media == m
    requires ClaimOf(claims, o).Pending? && ClaimOf(claims, o).media == m
    ensures o == op
  {
    assert ClaimHolds(st, claims, op, ClaimOf(claims, op));
    assert ClaimHolds(st, claims, o, ClaimOf(claims, o));
    if m in st.staged && !ClaimOf(claims, st.staged[m].stager).Dead? {
      var d := st.staged[m].stager;
      assert About(ClaimOf(claims, d), m);
      assert ClaimHolds(st, claims, d, ClaimOf(claims, d));
    }
  }

  // ----- each effect keeps the invariant -----

  /** No other operation hides or watches the medium: what holding its write lock gives. */
  ghost predicate Alone(claims: Claims, op: Op, m: MediaId) {
    forall o | o != op :: !((ClaimOf(claims, o).Hiding? || ClaimOf(claims, o).Watching?) &&
      ClaimOf(claims, o).media == m)
  }

  /** Nobody relies on a medium that is not published, except who has it hidden. */
  lemma NobodyAboutUnpublished(st: Stores, claims: Claims, op: Op, m: MediaId)
    requires Coherent(st, claims, m) && m !in st.published && Alone(claims, op, m)
    requires !ClaimOf(claims, op).Hiding?
    ensures forall o | o != op :: !About(ClaimOf(claims, o), m)
  {
    forall o | o != op
      ensures !About(ClaimOf(claims, o), m)
    {
      assert About(ClaimOf(claims, o), m) ==> ClaimHolds(st, claims, o, ClaimOf(claims, o));
    }
  }

  lemma PublishKeepsInv(st: Stores, claims: Claims, op: Op, m: MediaId, bytes: Bytes)
    requires Inv(st, claims) && ClaimOf(claims, op) == Nothing && m !in st.published && Alone(claims, op, m)
    ensures Inv(Publish(st, op, m, bytes), claims[op := Pending(m, bytes)])
  {
    var st', claims' := Publish(st, op, m, bytes), claims[op := Pending(m, bytes)];
    assert Coherent(st, claims, m);
    NobodyAboutUnpublished(st, claims, op, m);
    StepAt(st, claims, st', claims', m);
  }

  lemma InsertManagedKeepsInv(st: Stores, claims: Claims, op: Op, m: MediaId, bytes: Bytes)
    requires Inv(st, claims) && ClaimOf(claims, op) == Pending(m, bytes) && m !in st.items
    ensures Inv(InsertManaged(st, op, m, bytes), claims[op := Settled(m)])
  {
    var st', claims' := InsertManaged(st, op, m, bytes), claims[op := Settled(m)];
    assert Coherent(st, claims, m) && About(ClaimOf(claims, op), m);
    assert ClaimHolds(st, claims, op, ClaimOf(claims, op));
    forall o | About(ClaimOf(claims', o), m)
      ensures ClaimHolds(st', claims', o, ClaimOf(claims', o))
    {
      assert ClaimHolds(st, claims, o, ClaimOf(claims, o));
      if ClaimOf(claims, o).Pending? {
        OnePending(st, claims, m, op, o);
        assert false;
      }
    }
    StepAt(st, claims, st', claims', m);
  }

  /** The compensating removal finds the operation's own file, and no row loses its bytes. */
  lemma UnpublishKeepsInv(st: Stores, claims: Claims, op: Op, m: MediaId, bytes: Bytes)
    requires Inv(st, claims) && ClaimOf(claims, op) == Pending(m, bytes) && Alone(claims, op, m)
    ensures m in st.published && st.published[m] == File(op, bytes)
    ensures Inv(Unpublish(st, m), claims[op := Nothing])
  {
    var st', claims' := Unpublish(st, m), claims[op := Nothing];
    assert Coherent(st, claims, m) && About(ClaimOf(claims, op), m);
    assert ClaimHolds(st, claims, op, ClaimOf(claims, op));
    forall o | o != op
      ensures !About(ClaimOf(claims, o), m)
    {
      if ClaimOf(claims, o).Pending? && ClaimOf(claims, o).media == m {
        OnePending(st, claims, m, op, o);
      }
    }
    StepAt(st, claims, st', claims', m);
  }

  lemma AbandonKeepsInv(st: Stores, claims: Claims, op: Op, m: MediaId, bytes: Bytes)
    requires Inv(st, claims) && ClaimOf(claims, op) == Pending(m, bytes)
    ensures Inv(st, claims[op := Abandoned(m)])
  {
    var claims' := claims[op := Abandoned(m)];
    assert Coherent(st, claims, m);
    forall o | About(ClaimOf(claims', o), m)
      ensures ClaimHolds(st, claims', o, ClaimOf(claims', o))
    {
      assert ClaimHolds(st, claims, o, ClaimOf(claims, o));
    }
    StepAt(st, claims, st, claims', m);
  }

  lemma StageKeepsInv(st: Stores, claims: Claims, op: Op, m: MediaId)
    requires Inv(st, claims) && ClaimOf(claims, op) == Nothing && m in st.published && m !in st.staged &&
               Alone(claims, op, m)
    ensures Inv(Stage(st, op, m), claims[op := Hiding(m, st.published[m], false)])
  {
    var st', claims' := Stage(st, op, m), claims[op := Hiding(m, st.published[m], false)];
    assert Coherent(st, claims, m);
    forall o | About(ClaimOf(claims', o), m)
      ensures ClaimHolds(st', claims', o, ClaimOf(claims', o))
    {
      if o != op {
        assert ClaimHolds(st, claims, o, ClaimOf(claims, o));
      }
    }
    StepAt(st, claims, st', claims', m);
  }

  lemma DeleteRowsKeepsInv(st: Stores, claims: Claims, op: Op, m: MediaId, file: File)
    requires Inv(st, claims) && ClaimOf(claims, op) == Hiding(m, file, false) && m in st.locations
    ensures Inv(DeleteRows(st, m), claims[op := Hiding(m, file, true)])
  {
    var st', claims' := DeleteRows(st, m), claims[op := Hiding(m, file, true)];
    assert Coherent(st, claims, m) && About(ClaimOf(claims, op), m);
    assert ClaimHolds(st, claims, op, ClaimOf(claims, op));
    forall o
      ensures !(ClaimOf(claims', o).Pending? && ClaimOf(claims', o).media == m)
    {
      if ClaimOf(claims, o).Pending? && ClaimOf(claims, o).media == m {
        assert false;
      }
    }
    forall o | About(ClaimOf(claims', o), m)
      ensures ClaimHolds(st', claims', o, ClaimOf(claims', o))
    {
      if o != op {
        assert ClaimHolds(st, claims, o, ClaimOf(claims, o));
      }
    }
    StepAt(st, claims, st', claims', m);
  }

  /** Rolling back never meets an occupied path, and restores the bytes that were staged. */
  lemma RestoreKeepsInv(st: Stores, claims: Claims, op: Op, m: MediaId, file: File)
    requires Inv(st, claims) && ClaimOf(claims, op) == Hiding(m, file, false)
    ensures m !in st.published && m in st.staged && st.staged[m] == HiddenFile(file, op)
    ensures Inv(Restore(st, m), claims[op := Nothing])
  {
    assert Coherent(st, claims, m) && About(ClaimOf(claims, op), m);
    assert ClaimHolds(st, claims, op, ClaimOf(claims, op));
    var st', claims' := Restore(st, m), claims[op := Nothing];
    forall o | About(ClaimOf(claims', o), m)
      ensures ClaimHolds(st', claims', o, ClaimOf(claims', o))
    {
      assert ClaimHolds(st, claims, o, ClaimOf(claims, o));
    }
    StepAt(st, claims, st', claims', m);
  }

  lemma DiscardKeepsInv(st: Stores, claims: Claims, op: Op, m: MediaId, file: File)
    requires Inv(st, claims) && ClaimOf(claims, op) == Hiding(m, file, true)
    ensures m !in st.published && m in st.staged && st.staged[m] == HiddenFile(file, op)
    ensures Inv(Discard(st, m), claims[op := Nothing])
  {
    assert Coherent(st, claims, m) && About(ClaimOf(claims, op), m);
    assert ClaimHolds(st, claims, op, ClaimOf(claims, op));
    var st', claims' := Discard(st, m), claims[op := Nothing];
    forall o | About(ClaimOf(claims', o), m)
      ensures ClaimHolds(st', claims', o, ClaimOf(claims', o))
    {
      assert ClaimHolds(st, claims, o, ClaimOf(claims, o));
    }
    StepAt(st, claims, st', claims', m);
  }

  lemma WatchKeepsInv(st: Stores, claims: Claims, op: Op, m: MediaId)
    requires Inv(st, claims) && ClaimOf(claims, op) == Nothing && m in st.published
    ensures Inv(st, claims[op := Watching(m, st.published[m])])
  {
    var claims' := claims[op := Watching(m, st.published[m])];
    assert Coherent(st, claims, m);
    forall o | About(ClaimOf(claims', o), m)
      ensures ClaimHolds(st, claims', o, ClaimOf(claims', o))
    {
      assert o != op ==> ClaimHolds(st, claims, o, ClaimOf(claims, o));
    }
    StepAt(st, claims, st, claims', m);
  }

  lemma UnwatchKeepsInv(st: Stores, claims: Claims, op: Op)
    requires Inv(st, claims) && ClaimOf(claims, op).Watching?
    ensures Inv(st, claims[op := Nothing])
  {
    var claims', m := claims[op := Nothing], ClaimOf(claims, op).media;
    assert Coherent(st, claims, m);
    forall o | About(ClaimOf(claims', o), m)
      ensures ClaimHolds(st, claims', o, ClaimOf(claims', o))
    {
      assert ClaimHolds(st, claims, o, ClaimOf(claims, o));
    }
    StepAt(st, claims, st, claims', m);
  }

  lemma InsertMetadataKeepsInv(st: Stores, claims: Claims, op: Op, m: MediaId, metadata: Metadata)
    requires Inv(st, claims) && ClaimOf(claims, op) == Nothing && m !in st.items
    ensures Inv(InsertMetadata(st, op, m, metadata), claims[op := Settled(m)])
  {
    var st', claims' := InsertMetadata(st, op, m, metadata), claims[op := Settled(m)];
    assert Coherent(st, claims, m);
    assert forall o | o != op :: ClaimOf(claims', o) == ClaimOf(claims, o);
    forall o | About(ClaimOf(claims', o), m)
      ensures ClaimHolds(st', claims', o, ClaimOf(claims', o))
    {
      assert ClaimHolds(st, claims, o, ClaimOf(claims, o));
    }
    StepAt(st, claims, st', claims', m);
  }

  lemma UpdateMetadataKeepsInv(st: Stores, claims: Claims, m: MediaId, metadata: Metadata)
    requires Inv(st, claims) && m in st.items
    ensures Inv(UpdateMetadata(st, m, metadata), claims)
  {
    var st' := UpdateMetadata(st, m, metadata);
    assert Coherent(st, claims, m);
    forall o | About(ClaimOf(claims, o), m)
      ensures ClaimHolds(st', claims, o, ClaimOf(claims, o))
    {
      assert ClaimHolds(st, claims, o, ClaimOf(claims, o));
    }
    StepAt(st, claims, st', claims, m);
  }

  lemma DeleteMetadataKeepsInv(st: Stores, claims: Claims, m: MediaId)
    requires Inv(st, claims) && m !in st.locations
    ensures Inv(DeleteRows(st, m), claims)
  {
    var st' := DeleteRows(st, m);
    assert Coherent(st, claims, m);
    forall o | About(ClaimOf(claims, o), m)
      ensures ClaimHolds(st', claims, o, ClaimOf(claims, o))
    {
      assert ClaimHolds(st, claims, o, ClaimOf(claims, o));
    }
    StepAt(st, claims, st', claims, m);
  }

  /** A crash of the process: what ran is lost, finished operations and both stores stay. */
  ghost predicate AfterCrash(claims: Claims, claims': Claims) {
    forall op :: || (ClaimOf(claims', op).Dead? && !ClaimOf(claims, op).Settled?)
                 || (ClaimOf(claims', op) == ClaimOf(claims, op) &&
                      (ClaimOf(claims, op).Nothing? || ClaimOf(claims, op).Settled? || ClaimOf(claims, op).Abandoned?))
  }

  lemma CrashKeepsInv(st: Stores, claims: Claims, claims': Claims)
    requires Inv(st, claims) && AfterCrash(claims, claims')
    ensures Inv(st, claims')
  {
    forall m
      ensures Coherent(st, claims', m)
    {
      assert Coherent(st, claims, m);
    }
  }
}
