/** The storage key of a medium and back: internal/storage/filesystem/content_store.go:516-545. */
module StorageKeys {
  import opened Texts

  datatype MediaIdResult = InvalidStorageKey | MediaIdOf(mediaId: string)

  predicate LowerHex(c: char) {
    '0' <= c <= '9' || 'a' <= c <= 'f'
  }

  predicate HyphenAt(i: int) {
    i == 8 || i == 13 || i == 18 || i == 23
  }

  /** validateMediaID: a UUID that is not nil and is written in its canonical lower-case form. */
  predicate ValidMediaId(id: string) {
    && |id| == 36
    && (forall i | 0 <= i < 36 :: if HyphenAt(i) then id[i] == '-' else LowerHex(id[i]))
    && (exists i | 0 <= i < 36 :: id[i] != '0' && id[i] != '-')
  }

  /** path.Join of the first two characters and the ID; in a valid ID it has nothing to clean. */
  function StorageKeyForMedia(id: string): string {
    (if |id| >= 2 then id[..2] else id) + "/" + id
  }

  function MediaIdFromStorageKey(key: string): MediaIdResult {
    if (|key| > 0 && key[0] == '/') || '\\' in key then InvalidStorageKey
    else
      var parts := Split(key, '/');
      if |parts| != 2 || parts[0] == "" || parts[1] == "" then InvalidStorageKey
      else if !ValidMediaId(parts[1]) || parts[0] != parts[1][..2] then InvalidStorageKey
      else if StorageKeyForMedia(parts[1]) != key then InvalidStorageKey
      else MediaIdOf(parts[1])
  }

  lemma StorageKeyInjective(a: string, b: string)
    requires ValidMediaId(a) && ValidMediaId(b) && StorageKeyForMedia(a) == StorageKeyForMedia(b)
    ensures a == b
  {
    var ka, kb := StorageKeyForMedia(a), StorageKeyForMedia(b);
    assert |a| == |b|;
    assert ka[|ka| - |a|..] == a && kb[|kb| - |b|..] == b;
  }

  /** The accepted keys are exactly the keys of valid media IDs, and each leads back to its ID. */
  lemma StorageKeyRoundTrip(key: string, id: string)
    ensures MediaIdFromStorageKey(key) == MediaIdOf(id) <==> ValidMediaId(id) && key == StorageKeyForMedia(id)
  {
    if ValidMediaId(id) && key == StorageKeyForMedia(id) {
      assert forall i | 0 <= i < 36 :: id[i] != '/' && id[i] != '\\';
      assert Join([id[..2], id], '/') == key by {
        assert [id[..2], id][1..] == [id];
      }
      SplitJoin([id[..2], id], '/');
      assert key[0] == id[0];
      assert forall i | 0 <= i < |key| :: key[i] == '/' || key[i] in id;
    }
  }
}
