/** The cursors of the directories on their way through the texts: what a page names as its next cursor
    is what comes back with the next request. */
module DirectoryCursors {
  import opened Options
  import opened StorageKeys
  import A = AuditDirectory
  import B = Base64
  import C = Cursors
  import M = MediaDirectory

  /** SHA-256 on fingerprints: 32 bytes, and all zero for the missing one only. */
  type MediaDigest = M.Fingerprint -> B.Bytes
  type AuditDigest = A.Fingerprint -> B.Bytes

  ghost predicate IsDigest<F(!new)>(digest: F -> B.Bytes, zero: F) {
    forall f :: |digest(f)| == C.HASH_LENGTH && (f != zero ==> exists i :: 0 <= i < C.HASH_LENGTH && digest(f)[i] != 0)
  }

  function MediaWire(digest: MediaDigest, c: M.Cursor): C.Cursor
    requires c.limit >= 0
  {
    C.Cursor(c.createdAt, c.id, digest(c.filterHash), c.limit)
  }

  function AuditWire(digest: AuditDigest, c: A.Cursor): C.Cursor
    requires c.limit >= 0
  {
    C.Cursor(c.occurredAt, c.id, digest(c.filterHash), c.limit)
  }

  /** A valid media cursor comes back as itself, and a text is another cursor's only if their
      fingerprints collide. */
  lemma MediaCursorReturns(digest: MediaDigest, c: M.Cursor, other: M.Cursor)
    requires IsDigest(digest, M.ZeroHash) && M.ValidCursor(c) && M.ValidCursor(other)
    requires digest(c.filterHash) == digest(other.filterHash) ==> c.filterHash == other.filterHash
    ensures C.EncodeCursor(C.Media, MediaWire(digest, c)).Some?
    ensures var returned := C.DecodeCursor(C.Media, C.EncodeCursor(C.Media, MediaWire(digest, c)).value);
            returned == Some(MediaWire(digest, other)) <==> other == c
  {
    hide C.EncodeCursor, C.DecodeCursor, ValidMediaId;
    C.CursorRoundTrip(C.Media, MediaWire(digest, c));
  }

  lemma AuditCursorReturns(digest: AuditDigest, c: A.Cursor, other: A.Cursor)
    requires IsDigest(digest, A.ZeroHash) && A.ValidCursor(c) && A.ValidCursor(other)
    requires digest(c.filterHash) == digest(other.filterHash) ==> c.filterHash == other.filterHash
    ensures C.EncodeCursor(C.Audit, AuditWire(digest, c)).Some?
    ensures var returned := C.DecodeCursor(C.Audit, C.EncodeCursor(C.Audit, AuditWire(digest, c)).value);
            returned == Some(AuditWire(digest, other)) <==> other == c
  {
    hide C.EncodeCursor, C.DecodeCursor, ValidMediaId;
    C.CursorRoundTrip(C.Audit, AuditWire(digest, c));
  }
}
