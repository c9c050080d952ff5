/** The upload and deletion services as the sequential code they are, over one content store and the
    rows of the database: internal/application/media/upload.go,
    internal/application/media/managed_deletion.go, and the handles that
    internal/storage/filesystem/content_store.go gives out.

    Here one operation runs by itself, over the lock registry; ContentSaga interleaves them, and
    ContentRuns shows that what each operation does here is a run there.
 */
module ContentServices {
  import BoundedCopy
  import Int64
  import L = KeyLocks
  import opened MediaStores
  import opened StorageKeys

  datatype UploadResult = Uploaded | NothingStored | Compensated | CompensationFailed
  datatype DeleteResult =
    | Refused | MetadataDeleted | StagingFailed | RolledBack | Deleted
    | RollbackFailed | CommitFailed

  /** What an upload by itself does to the stores, by the result it ends with. */
  predicate UploadEffect(st: Stores, op: Op, m: MediaId, bytes: Bytes, r: UploadResult, st': Stores) {
    if r.NothingStored? then st' == st
    else
      && ValidMediaId(m) && bytes != [] && m !in st.published
      && match r
         case Uploaded => m !in st.items && st' == InsertManaged(Publish(st, op, m, bytes), op, m, bytes)
         case Compensated => st' == st
         case CompensationFailed => st' == Publish(st, op, m, bytes)
  }

  /** What a deletion by itself does to the stores, by the result it ends with. */
  predicate DeleteEffect(st: Stores, op: Op, m: MediaId, r: DeleteResult, st': Stores) {
    if r.Refused? then st' == st
    else if r.MetadataDeleted? then m in st.items && m !in st.locations && st' == DeleteRows(st, m)
    else if r.StagingFailed? then m in st.items && m in st.locations && st' == st
    else
      && m in st.items && m in st.locations && m in st.published && m !in st.staged
      && match r
         case RolledBack => st' == st
         case RollbackFailed => st' == Stage(st, op, m)
         case CommitFailed => st' == DeleteRows(Stage(st, op, m), m)
         case Deleted => st' == DeleteRows(Unpublish(st, m), m)
  }

  datatype PutResult =
    | Stored(metadata: Metadata) | InvalidMedia | InvalidSizeLimit | Empty | TooLarge | Conflict | PutFailed
  datatype FinishResult = Finished | AlreadyFinished | FinishFailed
  datatype OpenResult = Opened(reader: LockedFile) | NotFound | OpenFailed
  datatype ReadableResult = Readable(content: LockedFile) | MediaNotFound | Inconsistent | AccessFailed
  datatype Whence = Start | Current | End
  datatype ReadStatus = More | EndOfFile | Closed | ReadFailed

  class Archive {
    const locks: L.KeyLockRegistry
    var published: map<MediaId, File>
    var staged: map<MediaId, HiddenFile>
    var items: map<MediaId, Row>
    var locations: set<MediaId>
    ghost var faults: nat   // file and database calls that have reported an error

    function View(): Stores
      reads this
    {
      Stores(published, staged, items, locations)
    }

    ghost predicate Valid()
      reads this, locks, locks.made
    {
      locks.Valid()
    }

    ghost function Held(): map<L.Handle, L.Acquisition>
      reads this, locks
    {
      locks.state.acquisitions
    }

    /** Nobody is in the way of acquiring the lock of the medium, so acquiring it returns. */
    ghost predicate Free(media: MediaId, mode: L.Mode)
      reads this, locks
    {
      L.Available(Held(), StorageKeyForMedia(media), mode)
    }

    constructor ()
      ensures Valid() && Held() == map[] && View() == Stores(map[], map[], map[], {})
      ensures fresh(locks) && locks.made == []
    {
      locks := new L.KeyLockRegistry();
      published, staged, items, locations, faults := map[], map[], map[], {}, 0;
    }

    /** Any file or database call may report an error instead of happening. */
    method Attempt() returns (ok: bool)
      modifies this`faults
      ensures faults == old(faults) + if ok then 0 else 1
    {
      ok := *;
      faults := faults + if ok then 0 else 1;
    }

    /** Streams the source into a temporary file and publishes it.  What is published is everything
        the source had; nothing is published of a source that does not fit. */
    method Put(context: BoundedCopy.Context, op: Op, media: MediaId, source: BoundedCopy.Source, maximumSize: int)
      returns (r: PutResult)
      requires Valid() && Free(media, L.Write) && maximumSize <= Int64.MAX
      requires !context.cancelled && !source.failed
      modifies this, locks, locks.made, context, source
      ensures Valid() && Held() == old(Held()) && locks.Grew()
      ensures var data := old(source.remaining);
              if r.Stored? then
                && ValidMediaId(media) && 0 < |data| <= maximumSize < Int64.MAX && media !in old(published)
                && r.metadata == MetadataOf(data) && View() == Publish(old(View()), op, media, data)
              else View() == old(View())
      ensures var data := old(source.remaining);
              && (r.InvalidMedia? <==> !ValidMediaId(media))
              && (r.InvalidSizeLimit? <==> ValidMediaId(media) && maximumSize <= 0)
              && (r.Empty? ==> data == [] || maximumSize == Int64.MAX)
              && (r.TooLarge? ==> |data| > maximumSize)
              && (r.Conflict? ==> media in old(published))
      ensures faults >= old(faults)
      ensures r.PutFailed? ==> faults > old(faults) || context.cancelled || source.failed
    {
      hide ValidMediaId, StorageKeyForMedia, L.Available, L.KeyLockRegistry.Valid;
      if !ValidMediaId(media) {
        return InvalidMedia;
      }
      if maximumSize <= 0 {
        return InvalidSizeLimit;
      }
      var cancelled := context.Done();
      if cancelled {
        return PutFailed;
      }
      var keyLock, h := locks.Acquire(StorageKeyForMedia(media), L.Write);
      label Locked:
      r := PutLocked(context, op, media, source, maximumSize);
      locks.Release(StorageKeyForMedia(media), keyLock, L.Write, h);
      assert Held() == old(Held());
    }

    /** What Put does while it holds the lock. */
    method PutLocked(context: BoundedCopy.Context, op: Op, media: MediaId, source: BoundedCopy.Source, maximumSize: int)
      returns (r: PutResult)
      requires 0 < maximumSize <= Int64.MAX && !context.cancelled && !source.failed
      modifies this`published, this`faults, context, source
      ensures !r.InvalidMedia? && !r.InvalidSizeLimit?
      ensures var data := old(source.remaining);
              if r.Stored? then
                && 0 < |data| <= maximumSize < Int64.MAX && media !in old(published)
                && r.metadata == MetadataOf(data) && View() == Publish(old(View()), op, media, data)
              else View() == old(View())
      ensures var data := old(source.remaining);
              && (r.Empty? ==> data == [] || maximumSize == Int64.MAX)
              && (r.TooLarge? ==> |data| > maximumSize)
              && (r.Conflict? ==> media in old(published))
      ensures faults >= old(faults)
      ensures r.PutFailed? ==> faults > old(faults) || context.cancelled || source.failed
    {
      var cancelled := context.Done();
      if cancelled {
        return PutFailed;
      }
      var created := Attempt();
      if !created {
        return PutFailed;
      }
      var temporary := new BoundedCopy.Sink();
      var copied, _ := BoundedCopy.CopyBounded(context, temporary, source, maximumSize);
      match copied {
        case Copied(written) =>
          if written == 0 {
            return Empty;
          }
        case TooLarge =>
          return TooLarge;
        case _ =>
          faults := faults + if copied.WriteFailed? || copied.ShortWrite? then 1 else 0;
          return PutFailed;
      }
      var flushed := Attempt();
      if !flushed {
        return PutFailed;
      }
      if media in published {
        return Conflict;
      }
      var renamed := Attempt();
      if !renamed {
        return PutFailed;
      }
      published := published[media := File(op, temporary.content)];
      return Stored(Metadata(copied.written, Sha256(temporary.content)));
    }

    /** Reports whether the file was there and has been removed. */
    method Delete(media: MediaId) returns (removed: bool)
      requires Valid() && Free(media, L.Write)
      modifies this, locks, locks.made
      ensures Valid() && Held() == old(Held()) && locks.Grew()
      ensures removed ==> media in old(published) && View() == Unpublish(old(View()), media)
      ensures !removed ==> View() == old(View())
      ensures faults >= old(faults)
      ensures faults == old(faults) ==> removed == (ValidMediaId(media) && media in old(published))
    {
      hide ValidMediaId, StorageKeyForMedia, L.Available, L.KeyLockRegistry.Valid;
      if !ValidMediaId(media) {
        return false;
      }
      var keyLock, h := locks.Acquire(StorageKeyForMedia(media), L.Write);
      var ok := Attempt();
      removed := ok && media in published;
      if removed {
        published := published - {media};
      }
      locks.Release(StorageKeyForMedia(media), keyLock, L.Write, h);
      assert Held() == old(Held());
    }

    /** Hides the file and keeps the lock, or releases the lock and reports an error. */
    method StageDelete(op: Op, media: MediaId) returns (deletion: StagedDeletion?)
      requires Valid() && Free(media, L.Write)
      modifies this, locks, locks.made
      ensures Valid() && locks.Grew()
      ensures deletion != null ==>
                && fresh(deletion) && deletion.Valid() && !deletion.finished
                && deletion.archive == this && deletion.media == media && deletion.handle !in old(Held())
                && Held() == old(Held())[deletion.handle := deletion.Holding()]
                && media in old(published) && media !in old(staged) && View() == Stage(old(View()), op, media)
      ensures deletion == null ==> View() == old(View()) && Held() == old(Held())
      ensures faults >= old(faults)
      ensures faults == old(faults) ==>
                (deletion != null <==> ValidMediaId(media) && media in old(published) && media !in old(staged))
    {
      hide ValidMediaId, StorageKeyForMedia, L.Available, L.KeyLockRegistry.Valid;
      if !ValidMediaId(media) {
        return null;
      }
      var keyLock, h := locks.Acquire(StorageKeyForMedia(media), L.Write);
      var ok := Attempt();
      if !ok || media !in published || media in staged {
        locks.Release(StorageKeyForMedia(media), keyLock, L.Write, h);
        assert Held() == old(Held());
        return null;
      }
      staged := staged[media := HiddenFile(published[media], op)];
      published := published - {media};
      deletion := new StagedDeletion(this, media, keyLock, h);
    }

    /** Opens the published file and keeps its read lock until the reader is closed. */
    method Open(media: MediaId) returns (r: OpenResult)
      requires Valid() && Free(media, L.Read)
      modifies this`faults, locks, locks.made
      ensures Valid() && locks.Grew() && View() == old(View())
      ensures r.Opened? ==>
                && media in published && fresh(r.reader) && r.reader.Valid() && !r.reader.closed
                && r.reader.archive == this && r.reader.media == media && r.reader.handle !in old(Held())
                && Held() == old(Held())[r.reader.handle := r.reader.Holding()]
                && r.reader.content == published[media].bytes && r.reader.position == 0
      ensures !r.Opened? ==> Held() == old(Held())
      ensures r.NotFound? ==> media !in published
      ensures faults >= old(faults)
      ensures r.OpenFailed? && ValidMediaId(media) ==> faults > old(faults)
    {
      hide ValidMediaId, StorageKeyForMedia, L.Available, L.KeyLockRegistry.Valid;
      if !ValidMediaId(media) {
        return OpenFailed;
      }
      var keyLock, h := locks.Acquire(StorageKeyForMedia(media), L.Read);
      var ok := Attempt();
      if !ok || media !in published {
        locks.Release(StorageKeyForMedia(media), keyLock, L.Read, h);
        assert Held() == old(Held());
        return if ok then NotFound else OpenFailed;
      }
      var reader := new LockedFile(this, media, published[media].bytes, keyLock, h);
      return Opened(reader);
    }

    /** ContentReadService.Open: a reader only of content that has the size its item says. */
    method OpenItem(media: MediaId) returns (r: ReadableResult)
      requires Valid() && Free(media, L.Read)
      modifies this`faults, locks, locks.made
      ensures Valid() && locks.Grew() && View() == old(View())
      ensures r.Readable? ==>
                && media in items && media in locations && media in published
                && fresh(r.content) && r.content.Valid() && !r.content.closed
                && r.content.archive == this && r.content.media == media && r.content.handle !in old(Held())
                && Held() == old(Held())[r.content.handle := r.content.Holding()]
                && r.content.content == published[media].bytes && r.content.position == 0
                && items[media].metadata.size == |r.content.content|
      ensures !r.Readable? ==> Held() == old(Held())
      ensures r.MediaNotFound? ==> media !in items || media !in locations || media !in published
      ensures r.Inconsistent? ==>
                && media in items && media in published
                && items[media].metadata.size != |published[media].bytes|
      ensures faults >= old(faults)
      ensures r.AccessFailed? && ValidMediaId(media) ==> faults > old(faults)
    {
      hide ValidMediaId, StorageKeyForMedia, L.Available, L.KeyLockRegistry.Valid;
      var authorized := Attempt();
      if !authorized {
        return AccessFailed;
      }
      if media !in items {
        return MediaNotFound;
      }
      var located := Attempt();
      if !located {
        return AccessFailed;
      }
      if media !in locations {
        return MediaNotFound;
      }
      var attempt := Open(media);
      match attempt {
        case NotFound => return MediaNotFound;
        case OpenFailed => return AccessFailed;
        case Opened(reader) =>
          if |reader.content| != items[media].metadata.size {
            var wasOpen := reader.Close();
            assert Held() == old(Held());
            return Inconsistent;
          }
          return Readable(reader);
      }
    }

    method CreateManaged(op: Op, media: MediaId, metadata: Metadata) returns (created: bool)
      modifies this`items, this`locations, this`faults
      ensures created ==>
                && media !in old(items) && items == old(items)[media := Row(op, metadata, false)]
                && locations == old(locations) + {media}
      ensures !created ==> View() == old(View())
      ensures faults >= old(faults) && (faults == old(faults) ==> created == (media !in old(items)))
    {
      var ok := Attempt();
      if !ok || media in items {
        return false;
      }
      items := items[media := Row(op, metadata, false)];
      locations := locations + {media};
      return true;
    }

    method DeleteManaged(media: MediaId) returns (deleted: bool)
      modifies this`items, this`locations, this`faults
      ensures deleted ==> media in old(locations) && View() == DeleteRows(old(View()), media)
      ensures !deleted ==> View() == old(View())
      ensures faults >= old(faults) && (faults == old(faults) ==> deleted == (media in old(locations)))
    {
      var ok := Attempt();
      if !ok || media !in locations {
        return false;
      }
      locations := locations - {media};
      items := items - {media};
      return true;
    }

    method DeleteMetadata(media: MediaId) returns (deleted: bool)
      modifies this`items, this`faults
      ensures deleted ==> media in old(items) && media !in old(locations) && View() == DeleteRows(old(View()), media)
      ensures !deleted ==> View() == old(View())
      ensures faults >= old(faults) && (faults == old(faults) ==>
                deleted == (media in old(items) && media !in old(locations)))
    {
      var ok := Attempt();
      if !ok || media !in items || media in locations {
        return false;
      }
      items := items - {media};
      assert locations - {media} == locations;
      return true;
    }

    /** An error leaves neither row nor file, unless the compensating Delete failed, which leaves the
        file and no row; without faults the outcome is determined. */
    method UploadItem(context: BoundedCopy.Context, op: Op, media: MediaId, source: BoundedCopy.Source,
          maximumSize: int)
      returns (r: UploadResult)
      requires Valid() && Free(media, L.Write) && maximumSize <= Int64.MAX
      requires !context.cancelled && !source.failed
      modifies this, locks, locks.made, context, source
      ensures Valid() && Held() == old(Held()) && locks.Grew()
      ensures UploadEffect(old(View()), op, media, old(source.remaining), r, View())
      ensures faults >= old(faults)
      ensures faults == old(faults) && !context.cancelled && !source.failed ==>
                var size := |old(source.remaining)|;
                r == if !ValidMediaId(media) || size == 0 || size > maximumSize || maximumSize == Int64.MAX
                        || media in old(published) then NothingStored
                     else if media in old(items) then Compensated else Uploaded
    {
      hide ValidMediaId, StorageKeyForMedia, L.Available, L.KeyLockRegistry.Valid;
      var stored := Put(context, op, media, source, maximumSize);
      if !stored.Stored? {
        return NothingStored;
      }
      var created := CreateManaged(op, media, stored.metadata);
      if created {
        return Uploaded;
      }
      assert fresh((set l | l in locks.made) - old(set l | l in locks.made));
      var removed := Delete(media);
      if !removed {
        return CompensationFailed;
      }
      assert published == old(published);
      return Compensated;
    }

    /** A deletion whose row delete fails leaves row and file as before, unless Rollback failed; one
        that succeeds leaves neither; one whose Commit failed leaves the hidden file alone.  After a
        failed Rollback or Commit nobody gets the lock of the medium any more. */
    method DeleteItem(op: Op, media: MediaId) returns (r: DeleteResult)
      requires Valid() && Free(media, L.Write)
      modifies this, locks, locks.made
      ensures Valid() && locks.Grew()
      ensures DeleteEffect(old(View()), op, media, r, View())
      ensures if r.RollbackFailed? || r.CommitFailed? then !Free(media, L.Read) else Held() == old(Held())
      ensures faults >= old(faults) && (faults == old(faults) ==>
                r == if media !in old(items) then Refused
                     else if media !in old(locations) then MetadataDeleted
                     else if !ValidMediaId(media) || media !in old(published) || media in old(staged) then
                       StagingFailed else Deleted)
    {
      hide ValidMediaId, StorageKeyForMedia, L.Available, L.KeyLockRegistry.Valid;
      var authorized := Attempt();
      if !authorized || media !in items {
        return Refused;
      }
      var located := Attempt();
      if !located {
        return Refused;
      }
      if media !in locations {
        var deleted := DeleteMetadata(media);
        return if deleted then MetadataDeleted else Refused;
      }
      var deletion := StageDelete(op, media);
      if deletion == null {
        return StagingFailed;
      }
      L.WriterExcludes(Held(), deletion.handle, L.Read);
      r := DeleteStaged(deletion);
      assert r.RolledBack? ==> published == old(published) && staged == old(staged);
      assert r.Deleted? ==> staged == old(staged);
      assert r.RolledBack? || r.Deleted? ==> Held() == old(Held());
    }

    /** The rows of a medium whose content is staged, and then Commit or Rollback. */
    method DeleteStaged(deletion: StagedDeletion) returns (r: DeleteResult)
      requires deletion.Valid() && !deletion.finished && deletion.archive == this
      modifies this, locks, deletion, deletion.keyLock
      ensures deletion.Valid() && locks.Grew()
      ensures deletion.finished <==> r.RolledBack? || r.Deleted?
      ensures Held() == if deletion.finished then old(Held()) - {deletion.handle} else old(Held())
      ensures var st, m := old(View()), deletion.media;
              match r
              case RolledBack => m in st.staged && m !in st.published && View() == Restore(st, m)
              case RollbackFailed => View() == st
              case Deleted => m in st.locations && m in st.staged && View() == Discard(DeleteRows(st, m), m)
              case CommitFailed => m in st.locations && View() == DeleteRows(st, m)
              case _ => false
      ensures faults >= old(faults)
      ensures faults == old(faults) && deletion.media in old(locations) && deletion.media in old(staged) ==> r.Deleted?
    {
      hide StorageKeyForMedia, L.KeyLockRegistry.Valid;
      var deleted := DeleteManaged(deletion.media);
      if !deleted {
        var rolledBack := deletion.Rollback();
        return if rolledBack.Finished? then RolledBack else RollbackFailed;
      }
      var committed := deletion.Commit();
      return if committed.Finished? then Deleted else CommitFailed;
    }
  }

  /** Holds the write lock of its medium until one Commit or Rollback succeeds. */
  class StagedDeletion {
    const archive: Archive
    const media: MediaId
    const keyLock: L.ReferencedKeyLock
    ghost const handle: L.Handle
    var finished: bool

    ghost function Holding(): L.Acquisition {
      L.Holding(StorageKeyForMedia(media), keyLock.id, L.Write)
    }

    /** The lock is still this deletion's until it has finished, and is no longer its own then. */
    ghost predicate Valid()
      reads this, archive, archive.locks, archive.locks.made
    {
      && archive.Valid() && keyLock in archive.locks.made && handle < archive.locks.next
      && if finished then handle !in archive.Held() else handle in archive.Held() && archive.Held()[handle] == Holding()
    }

    constructor (archive: Archive, media: MediaId, keyLock: L.ReferencedKeyLock, ghost handle: L.Handle)
      ensures !finished && this.archive == archive && this.media == media && this.keyLock == keyLock &&
                this.handle == handle
    {
      this.archive, this.media, this.keyLock, this.handle, finished := archive, media, keyLock, handle, false;
    }

    /** A failure changes nothing and keeps the lock, and a second call after success does nothing. */
    method Commit() returns (r: FinishResult)
      requires Valid()
      modifies this, archive`staged, archive`faults, archive.locks, keyLock
      ensures Valid() && archive.locks.Grew()
      ensures r.Finished? <==> !old(finished) && finished
      ensures r.AlreadyFinished? <==> old(finished)
      ensures r.Finished? ==>
                && media in old(archive.staged) && archive.View() == Discard(old(archive.View()), media)
                && handle in old(archive.Held()) && archive.Held() == old(archive.Held()) - {handle}
      ensures !r.Finished? ==>
                finished == old(finished) && archive.View() == old(archive.View()) &&
                  archive.Held() == old(archive.Held())
      ensures archive.faults >= old(archive.faults)
      ensures r.FinishFailed? && archive.faults == old(archive.faults) ==> media !in old(archive.staged)
    {
      hide StorageKeyForMedia, L.KeyLockRegistry.Valid;
      if finished {
        return AlreadyFinished;
      }
      var ok := archive.Attempt();
      if !ok || media !in archive.staged {
        return FinishFailed;
      }
      archive.staged := archive.staged - {media};
      finished := true;
      archive.locks.Release(StorageKeyForMedia(media), keyLock, L.Write, handle);
      return Finished;
    }

    /** As Commit, but puts the file back, on a free name only. */
    method Rollback() returns (r: FinishResult)
      requires Valid()
      modifies this, archive`published, archive`staged, archive`faults, archive.locks, keyLock
      ensures Valid() && archive.locks.Grew()
      ensures r.Finished? <==> !old(finished) && finished
      ensures r.AlreadyFinished? <==> old(finished)
      ensures r.Finished? ==>
                && media in old(archive.staged) && media !in old(archive.published)
                && archive.View() == Restore(old(archive.View()), media)
                && handle in old(archive.Held()) && archive.Held() == old(archive.Held()) - {handle}
      ensures !r.Finished? ==>
                finished == old(finished) && archive.View() == old(archive.View()) &&
                  archive.Held() == old(archive.Held())
      ensures archive.faults >= old(archive.faults)
      ensures r.FinishFailed? && archive.faults == old(archive.faults) ==>
                media in old(archive.published) || media !in old(archive.staged)
    {
      hide StorageKeyForMedia, L.KeyLockRegistry.Valid;
      if finished {
        return AlreadyFinished;
      }
      var ok := archive.Attempt();
      if !ok || media in archive.published || media !in archive.staged {
        return FinishFailed;
      }
      archive.published := archive.published[media := archive.staged[media].file];
      archive.staged := archive.staged - {media};
      finished := true;
      archive.locks.Release(StorageKeyForMedia(media), keyLock, L.Write, handle);
      return Finished;
    }
  }

  /** Holds the read lock of its medium until it is closed. */
  class LockedFile {
    const archive: Archive
    const media: MediaId
    const content: Bytes
    const keyLock: L.ReferencedKeyLock
    ghost const handle: L.Handle
    var position: nat
    var closed: bool

    ghost function Holding(): L.Acquisition {
      L.Holding(StorageKeyForMedia(media), keyLock.id, L.Read)
    }

    ghost predicate Valid()
      reads this, archive, archive.locks, archive.locks.made
    {
      && archive.Valid() && keyLock in archive.locks.made && handle < archive.locks.next
      && if closed then handle !in archive.Held() else handle in archive.Held() && archive.Held()[handle] == Holding()
    }

    constructor (archive: Archive, media: MediaId, content: Bytes, keyLock: L.ReferencedKeyLock, ghost handle: L.Handle)
      ensures !closed && position == 0 && this.content == content
      ensures this.archive == archive && this.media == media && this.keyLock == keyLock && this.handle == handle
    {
      this.archive, this.media, this.content, this.keyLock, this.handle := archive, media, content, keyLock, handle;
      position, closed := 0, false;
    }

    /** The rest of the content from the position on. */
    function Rest(): Bytes
      reads this
    {
      if position <= |content| then content[position..] else []
    }

    /** Moves the next bytes of the content into the buffer, at least one unless there are none or the
        buffer has no room. */
    method Read(buffer: array<bv8>) returns (n: nat, status: ReadStatus)
      requires Valid()
      modifies this`position, buffer
      ensures Valid() && n <= buffer.Length && buffer[n..] == old(buffer[n..])
      ensures status.Closed? <==> closed
      ensures old(Rest()) == buffer[..n] + Rest() && position == old(position) + n
      ensures status.EndOfFile? <==> !closed && buffer.Length > 0 && old(Rest()) == [] && !status.ReadFailed?
      ensures !status.More? ==> n == 0
      ensures status.More? && buffer.Length > 0 ==> n > 0
    {
      hide StorageKeyForMedia, L.KeyLockRegistry.Valid;
      if closed {
        return 0, Closed;
      }
      var failing: bool := *;
      if failing {
        return 0, ReadFailed;
      }
      if buffer.Length == 0 {
        return 0, More;
      }
      if position >= |content| {
        return 0, EndOfFile;
      }
      n :| 0 < n <= buffer.Length && n <= |content| - position;
      forall i | 0 <= i < n {
        buffer[i] := content[position + i];
      }
      assert buffer[..n] == content[position..position + n];
      position := position + n;
      status := More;
    }

    /** Sets the position by an offset from the start, the position or the end, if that is an int64
        and not negative. */
    method Seek(offset: int, whence: Whence) returns (ok: bool)
      requires Valid()
      modifies this`position
      ensures Valid()
      ensures var target := offset + if whence.Start? then 0 else if whence.Current? then old(position) else |content|;
              && (ok <==> !closed && 0 <= target && Int64.Fits(target))
              && position == if ok then target else old(position)
    {
      var target := offset + if whence.Start? then 0 else if whence.Current? then position else |content|;
      if closed || target < 0 || !Int64.Fits(target) {
        return false;
      }
      position := target;
      return true;
    }

    /** Closing again reports an error and releases nothing more. */
    method Close() returns (wasOpen: bool)
      requires Valid()
      modifies this`closed, archive.locks, keyLock
      ensures Valid() && closed && archive.locks.Grew()
      ensures wasOpen == !old(closed)
      ensures wasOpen ==> handle in old(archive.Held())
      ensures archive.Held() == old(archive.Held()) - (if wasOpen then {handle} else {})
    {
      hide StorageKeyForMedia, L.KeyLockRegistry.Valid;
      if closed {
        return false;
      }
      closed := true;
      archive.locks.Release(StorageKeyForMedia(media), keyLock, L.Read, handle);
      return true;
    }
  }
}
