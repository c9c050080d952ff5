/** Permission masks, grants and the access decision: internal/media/permission.go,
    internal/media/policy.go, internal/storage/sqlite/media_grant_repository.go and authorizeItem in
    internal/application/media/service.go:316-353. */
module Permissions {
  import opened StorageKeys

  // ----- masks -----

  type Mask = bv8

  const DISCOVER: Mask := 1
  const READ: Mask := 2
  const DOWNLOAD: Mask := 4
  const UPDATE: Mask := 8
  const DELETE: Mask := 16
  const SHARE: Mask := 32
  const ALL: Mask := 63

  predicate ValidPermission(p: Mask) {
    p == DISCOVER || p == READ || p == DOWNLOAD || p == UPDATE || p == DELETE || p == SHARE
  }

  predicate ValidSet(s: Mask) {
    s != 0 && s & !ALL == 0
  }

  predicate Has(s: Mask, p: Mask) {
    ValidSet(s) && ValidPermission(p) && s & p != 0
  }

  datatype SetResult = InvalidSet | Set(mask: Mask)

  lemma AddBit(s: Mask, bit: Mask, p: Mask)
    requires s & !ALL == 0 && ValidPermission(bit) && ValidPermission(p)
    ensures (s | bit) & !ALL == 0 && s | bit != 0
    ensures (s | bit) & p != 0 <==> s & p != 0 || p == bit
  {
  }

  /** A set is made of at least one valid permission, none of them twice, and has exactly those. */
  method NewPermissionSet(requested: seq<Mask>) returns (r: SetResult)
    ensures r.Set? <==>
            && requested != []
            && (forall p | p in requested :: ValidPermission(p))
            && (forall i, j | 0 <= i < j < |requested| :: requested[i] != requested[j])
    ensures r.Set? ==> ValidSet(r.mask) && forall p: Mask :: Has(r.mask, p) <==> p in requested
  {
    var permissions: Mask := 0;
    for i := 0 to |requested|
      invariant permissions & !ALL == 0 && (i > 0 <==> permissions != 0)
      invariant forall p | p in requested[..i] :: ValidPermission(p)
      invariant forall p: Mask | ValidPermission(p) :: permissions & p != 0 <==> p in requested[..i]
      invariant forall j, k | 0 <= j < k < i :: requested[j] != requested[k]
    {
      var permission := requested[i];
      if !ValidPermission(permission) {
        return InvalidSet;
      }
      if permissions & permission != 0 {
        assert permission in requested[..i];
        return InvalidSet;
      }
      forall p: Mask | ValidPermission(p)
        ensures (permissions | permission) & p != 0 <==> p in requested[..i + 1]
      {
        AddBit(permissions, permission, p);
        assert requested[..i + 1] == requested[..i] + [permission];
      }
      AddBit(permissions, permission, permission);
      permissions := permissions | permission;
    }
    assert requested[..|requested|] == requested;
    if !ValidSet(permissions) {
      return InvalidSet;
    }
    return Set(permissions);
  }

  const ORDERED: seq<Mask> := [DISCOVER, READ, DOWNLOAD, UPDATE, DELETE, SHARE]

  /** The permissions of a set in the stable order, none for an invalid set. */
  method Values(s: Mask) returns (values: seq<Mask>)
    ensures forall p: Mask :: p in values <==> Has(s, p)
    ensures forall i, j | 0 <= i < j < |values| :: values[i] < values[j]
  {
    if !ValidSet(s) {
      return [];
    }
    values := [];
    for i := 0 to |ORDERED|
      invariant forall p: Mask :: p in values <==> Has(s, p) && p in ORDERED[..i]
      invariant forall j, k | 0 <= j < k < |values| :: values[j] < values[k]
      invariant i < |ORDERED| ==> forall j | 0 <= j < |values| :: values[j] < ORDERED[i]
    {
      assert ORDERED[..i + 1] == ORDERED[..i] + [ORDERED[i]];
      if Has(s, ORDERED[i]) {
        values := values + [ORDERED[i]];
      }
    }
    assert ORDERED[..|ORDERED|] == ORDERED;
  }

  // ----- grants and the decision -----

  datatype User = User(id: string, active: bool)
  datatype Item = Item(id: string, ownerId: string)
  datatype Grant = Grant(mediaId: string, userId: string, permissions: Mask)

  /** identity.ValidateUserID and the owner check make the same demand as for media IDs. */
  predicate ValidUserId(id: string) {
    ValidMediaId(id)
  }

  predicate ValidGrant(g: Grant) {
    ValidMediaId(g.mediaId) && ValidUserId(g.userId) && ValidSet(g.permissions)
  }

  predicate Gives(g: Grant, user: User, item: Item, p: Mask) {
    g.mediaId == item.id && g.userId == user.id && Has(g.permissions, p)
  }

  datatype Decision = Refused | Allowed | Malformed

  predicate AllGrantsValid(grants: seq<Grant>) {
    forall g | g in grants :: ValidGrant(g)
  }

  ghost function Decided(user: User, item: Item, p: Mask, grants: seq<Grant>): Decision {
    if !ValidPermission(p) then Malformed
    else if !user.active then Refused
    else if !ValidUserId(user.id) || !ValidMediaId(item.id) || !ValidUserId(item.ownerId) then Malformed
    else if user.id == item.ownerId then Allowed
    else if !AllGrantsValid(grants) then Malformed
    else if exists g :: g in grants && Gives(g, user, item, p) then Allowed
    else Refused
  }

  method Authorize(user: User, item: Item, p: Mask, grants: seq<Grant>) returns (d: Decision)
    ensures d == Decided(user, item, p, grants)
  {
    if !ValidPermission(p) {
      return Malformed;
    }
    if !user.active {
      return Refused;
    }
    if !ValidUserId(user.id) || !ValidMediaId(item.id) || !ValidUserId(item.ownerId) {
      return Malformed;
    }
    if user.id == item.ownerId {
      return Allowed;
    }
    var allowed := false;
    for i := 0 to |grants|
      invariant AllGrantsValid(grants[..i])
      invariant allowed <==> exists g :: g in grants[..i] && Gives(g, user, item, p)
    {
      assert grants[..i + 1] == grants[..i] + [grants[i]];
      if !ValidGrant(grants[i]) {
        return Malformed;
      }
      if Gives(grants[i], user, item, p) {
        allowed := true;
      }
    }
    assert grants[..|grants|] == grants;
    d := if allowed then Allowed else Refused;
  }

  // ----- the stored grants -----

  /** One 64-bit number per medium and grantee. */
  type GrantRows = map<(string, string), bv64>

  datatype Found = NoGrant | Corrupt | Stored(grant: Grant)

  /** validateStoredGrant: outside 0..255 is refused before the conversion to eight bits. */
  function ValidateStoredGrant(mediaId: string, userId: string, permissions: bv64): Found {
    if permissions & !255 != 0 then Corrupt
    else
      var grant := Grant(mediaId, userId, (permissions & 255) as bv8);
      if ValidGrant(grant) then Stored(grant) else Corrupt
  }

  function FindIn(rows: GrantRows, mediaId: string, userId: string): Found {
    if (mediaId, userId) !in rows then NoGrant else ValidateStoredGrant(mediaId, userId, rows[(mediaId, userId)])
  }

  ghost predicate SavedGrantsValid(rows: GrantRows) {
    forall key | key in rows :: ValidateStoredGrant(key.0, key.1, rows[key]).Stored?
  }

  class MediaGrantRepository {
    var rows: GrantRows

    ghost predicate Valid()
      reads this
    {
      SavedGrantsValid(rows)
    }

    constructor ()
      ensures Valid() && rows == map[]
    {
      rows := map[];
    }

    /** Inserts a grant or replaces the whole mask of the one there is. */
    method Save(grant: Grant) returns (saved: bool)
      requires Valid()
      modifies this
      ensures Valid() && saved == ValidGrant(grant)
      ensures saved ==>
                && FindIn(rows, grant.mediaId, grant.userId) == Stored(grant)
                && forall key | key != (grant.mediaId, grant.userId) :: key in rows <==> key in old(rows)
      ensures saved ==> forall key | key in rows && key != (grant.mediaId, grant.userId) :: rows[key] == old(rows)[key]
      ensures !saved ==> rows == old(rows)
    {
      if !ValidGrant(grant) {
        return false;
      }
      MaskRoundTrip(grant.permissions);
      rows := rows[(grant.mediaId, grant.userId) := grant.permissions as bv64];
      return true;
    }

    method Delete(mediaId: string, userId: string) returns (deleted: bool)
      requires Valid()
      modifies this
      ensures Valid() && deleted == ((mediaId, userId) in old(rows))
      ensures rows == old(rows) - {(mediaId, userId)}
    {
      deleted := (mediaId, userId) in rows;
      rows := rows - {(mediaId, userId)};
    }
  }

  lemma MaskRoundTrip(m: Mask)
    ensures (m as bv64) & !255 == 0 && ((m as bv64) & 255) as bv8 == m
  {
  }

  // ----- who sees an item -----

  /** The visibility condition of the directory's SELECT (media_repository.go:177-191). */
  predicate DirectoryShows(rows: GrantRows, actorId: string, item: Item) {
    item.ownerId == actorId || ((item.id, actorId) in rows && rows[(item.id, actorId)] & 1 != 0)
  }

  datatype Lookup = Granted | Hidden | Broken

  /** authorizeItem, once the item has been found. */
  ghost function AuthorizeItem(rows: GrantRows, actor: User, item: Item, p: Mask): Lookup {
    var found := if actor.id == item.ownerId then NoGrant else FindIn(rows, item.id, actor.id);
    if found.Corrupt? then Broken
    else
      match Decided(actor, item, p, if found.Stored? then [found.grant] else [])
      case Allowed => Granted
      case Refused => Hidden
      case Malformed => Broken
  }

  lemma LowBit(permissions: bv64)
    requires permissions & !255 == 0
    ensures permissions & 1 != 0 <==> ((permissions & 255) as bv8) & DISCOVER != 0
  {
  }

  /** The directory shows an active actor exactly the items that ItemByID would return to it. */
  lemma DirectoryAgreesWithItemByID(rows: GrantRows, actor: User, item: Item)
    requires SavedGrantsValid(rows)
    requires actor.active && ValidUserId(actor.id) && ValidMediaId(item.id) && ValidUserId(item.ownerId)
    ensures DirectoryShows(rows, actor.id, item) <==> AuthorizeItem(rows, actor, item, DISCOVER) == Granted
    ensures AuthorizeItem(rows, actor, item, DISCOVER) != Broken
  {
    hide ValidMediaId;
    if actor.id != item.ownerId && (item.id, actor.id) in rows {
      var found := ValidateStoredGrant(item.id, actor.id, rows[(item.id, actor.id)]);
      LowBit(rows[(item.id, actor.id)]);
      assert found.grant in [found.grant];
      assert Gives(found.grant, actor, item, DISCOVER) <==> DirectoryShows(rows, actor.id, item);
    }
  }

  /** The CHECK of the table (migrations/007_create_media.sql:103) is what validateStoredGrant asks of
      the number. */
  predicate InTable(permissions: bv64) {
    1 <= permissions <= 63
  }

  lemma TableHoldsValidGrants(mediaId: string, userId: string, permissions: bv64)
    requires ValidMediaId(mediaId) && ValidUserId(userId)
    ensures ValidateStoredGrant(mediaId, userId, permissions).Stored? <==> InTable(permissions)
  {
    hide ValidMediaId;
    MaskInTable(permissions);
  }

  lemma MaskInTable(permissions: bv64)
    ensures permissions & !255 == 0 && ValidSet((permissions & 255) as bv8) <==> InTable(permissions)
  {
  }

  /** Whatever numbers the rows hold, the two agree about an item if and only if the actor owns it, or
      has no grant, or the directory's bit is clear, or the number is one that the table admits. */
  lemma VisibilityAgreesExactly(rows: GrantRows, actor: User, item: Item)
    requires actor.active && ValidUserId(actor.id) && ValidMediaId(item.id) && ValidUserId(item.ownerId)
    ensures (DirectoryShows(rows, actor.id, item) <==> AuthorizeItem(rows, actor, item, DISCOVER) == Granted) <==>
              || actor.id == item.ownerId || (item.id, actor.id) !in rows
              || rows[(item.id, actor.id)] & 1 == 0 || InTable(rows[(item.id, actor.id)])
  {
    hide ValidMediaId, InTable, ValidSet;
    if actor.id != item.ownerId && (item.id, actor.id) in rows {
      var permissions := rows[(item.id, actor.id)];
      var found := ValidateStoredGrant(item.id, actor.id, permissions);
      TableHoldsValidGrants(item.id, actor.id, permissions);
      if found.Stored? {
        LowBit(permissions);
        assert found.grant in [found.grant];
        assert Gives(found.grant, actor, item, DISCOVER) <==> permissions & 1 != 0;
      }
    }
  }
}
