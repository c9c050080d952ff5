/** The user directory: internal/application/users/pagination.go and ListUsers in
    internal/storage/sqlite/user_repository.go:515-590. It has no filter, lists the oldest account
    first, and its cursor is bound to nothing. */
module UserDirectory {
  import opened Options
  import opened Timestamps
  import opened Keysets
  import opened StorageKeys
  import L = Listings

  const DEFAULT_LIMIT := 50
  const MAXIMUM_LIMIT := 100

  datatype Profile = Profile(username: string, displayName: string, role: string, active: bool)
  type Users = map<string, L.Stored<Profile>>

  datatype Input = Input(limit: int, cursor: Option<L.Position>)
  datatype Error = InvalidLimit | InvalidCursor
  datatype Result = Failed(error: Error) | Success(page: L.Slice<Profile>)

  predicate ValidCursor(c: L.Position) {
    c.created != ZERO_TIME && ValidMediaId(c.id)
  }

  function EffectiveLimit(limit: int): int {
    if limit == 0 then DEFAULT_LIMIT else limit
  }

  function Everyone(): L.Stored<Profile> -> bool {
    (user: L.Stored<Profile>) => true
  }

  function ListUsers(users: Users, input: Input): Result {
    var limit := EffectiveLimit(input.limit);
    if limit < 1 || limit > MAXIMUM_LIMIT then Failed(InvalidLimit)
    else if input.cursor.Some? && !ValidCursor(input.cursor.value) then Failed(InvalidCursor)
    else
      var rows := L.Select(users, Everyone(), false, input.cursor, limit + 1);
      if |rows| <= limit then Success(L.Slice(rows, None))
      else
        var last := rows[limit - 1];
        var next := L.Position(last.stored.created, last.id);
        if !ValidCursor(next) then Failed(InvalidCursor) else Success(L.Slice(rows[..limit], Some(next)))
  }

  ghost predicate ValidUsers(users: Users) {
    forall id | id in users :: ValidMediaId(id) && users[id].created != ZERO_TIME
  }

  lemma ListUsersReturnsASlice(users: Users, input: Input)
    requires ValidUsers(users)
    requires 1 <= EffectiveLimit(input.limit) <= MAXIMUM_LIMIT &&
               (input.cursor.Some? ==> ValidCursor(input.cursor.value))
    ensures ListUsers(users, input) == Success(L.SliceOf(users, Everyone(), false, input.cursor,
              EffectiveLimit(input.limit)))
    ensures ListUsers(users, input).page.next.Some? ==> ValidCursor(ListUsers(users, input).page.next.value)
  {
    hide L.Select, ValidMediaId, Everyone, L.KeysOf, Query;
    var limit := EffectiveLimit(input.limit);
    var rows := L.Select(users, Everyone(), false, input.cursor, limit + 1);
    L.SelectKeys(users, Everyone(), false, input.cursor, limit + 1);
    if |rows| > limit {
      assert rows[limit - 1] in rows;
    }
  }

  ghost predicate RunAt(tables: seq<Users>, limit: int, pages: seq<L.Slice<Profile>>, i: nat)
    requires i < |pages| == |tables|
  {
    && ValidUsers(tables[i]) && (i > 0 ==> pages[i - 1].next.Some?)
    && ListUsers(tables[i], Input(limit, L.PositionBefore(pages, i))) == Success(pages[i])
  }

  ghost predicate Run(tables: seq<Users>, limit: int, pages: seq<L.Slice<Profile>>) {
    |tables| == |pages| && forall i | 0 <= i < |pages| :: RunAt(tables, limit, pages, i)
  }

  lemma RunOfSlices(tables: seq<Users>, limit: int, pages: seq<L.Slice<Profile>>)
    requires 1 <= EffectiveLimit(limit) <= MAXIMUM_LIMIT && Run(tables, limit, pages)
    ensures L.Run(tables, Everyone(), false, EffectiveLimit(limit), pages)
  {
    hide ListUsers, L.SliceOf, ValidMediaId, Everyone;
    forall i | 0 <= i < |pages|
      ensures L.RunAt(tables, Everyone(), false, EffectiveLimit(limit), pages, i)
    {
      PageIsASlice(tables, limit, pages, i);
    }
  }

  lemma {:induction false} PageIsASlice(tables: seq<Users>, limit: int, pages: seq<L.Slice<Profile>>, i: nat)
    requires 1 <= EffectiveLimit(limit) <= MAXIMUM_LIMIT && Run(tables, limit, pages) && i < |pages|
    ensures L.RunAt(tables, Everyone(), false, EffectiveLimit(limit), pages, i)
    ensures pages[i].next.Some? ==> ValidCursor(pages[i].next.value)
  {
    hide ListUsers, L.SliceOf, ValidMediaId, Everyone;
    assert RunAt(tables, limit, pages, i);
    if i > 0 {
      PageIsASlice(tables, limit, pages, i - 1);
    }
    ListUsersReturnsASlice(tables[i], Input(limit, L.PositionBefore(pages, i)));
  }

  /** Accounts may be created, edited and deleted between pages: one that stays is listed exactly
      once, oldest first. */
  lemma StayingUsersAreListedOnce(tables: seq<Users>, limit: int, pages: seq<L.Slice<Profile>>, id: string,
        created: Instant)
    requires 1 <= EffectiveLimit(limit) <= MAXIMUM_LIMIT && Run(tables, limit, pages) && L.RunEnded(pages)
    requires forall i | 0 <= i < |tables| :: id in tables[i] && tables[i][id].created == created
    ensures exists i :: 0 <= i < |L.AllRows(pages)| && L.AllRows(pages)[i].id == id &&
              L.AllRows(pages)[i].stored.created == created
    ensures forall i, j | 0 <= i < j < |L.AllRows(pages)| ::
              Before(false, L.RowKey(L.AllRows(pages)[i]), L.RowKey(L.AllRows(pages)[j]))
  {
    hide Run, L.Run, L.RowKey, Before;
    RunOfSlices(tables, limit, pages);
    L.RowsMissNothing(tables, Everyone(), false, EffectiveLimit(limit), pages, id, created);
    L.RowsDoNotRepeat(tables, Everyone(), false, EffectiveLimit(limit), pages);
  }
}
