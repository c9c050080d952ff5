/** Keyset pages of a table of rows with a creation time: what the audit and the user listing share.
    Rows may be inserted, deleted and changed between pages, but never their ID and time. */
module Listings {
  import opened Options
  import opened Timestamps
  import opened Keysets

  datatype Stored<R> = Stored(created: Instant, body: R)
  type Table<R> = map<string, Stored<R>>

  datatype Row<R> = Row(id: string, stored: Stored<R>)
  datatype Position = Position(created: Instant, id: string)
  datatype Slice<R> = Slice(rows: seq<Row<R>>, next: Option<Position>)

  function KeyAt(p: Position): Key {
    Key(Format(p.created), p.id)
  }

  function RowKey<R>(row: Row<R>): Key {
    KeyAt(Position(row.stored.created, row.id))
  }

  function CursorKey(cursor: Option<Position>): Option<Key> {
    if cursor.None? then None else Some(KeyAt(cursor.value))
  }

  function WantedKeys<R>(table: Table<R>, wanted: Stored<R> -> bool): set<Key> {
    set id | id in table && wanted(table[id]) :: RowKey(Row(id, table[id]))
  }

  function Load<R>(table: Table<R>, keys: seq<Key>): (rows: seq<Row<R>>)
    requires forall k | k in keys :: k.id in table
    ensures |rows| == |keys|
    ensures forall i | 0 <= i < |keys| :: rows[i] == Row(keys[i].id, table[keys[i].id])
  {
    if keys == [] then [] else [Row(keys[0].id, table[keys[0].id])] + Load(table, keys[1..])
  }

  lemma WantedKeysAreStored<R>(table: Table<R>, wanted: Stored<R> -> bool, desc: bool, cursor: Option<Key>, limit: nat)
    ensures forall k | k in Query(WantedKeys(table, wanted), desc, cursor, limit) ::
              k.id in table && wanted(table[k.id]) && RowKey(Row(k.id, table[k.id])) == k
  {
    hide Query, Format;
    QueryFrom(WantedKeys(table, wanted), desc, cursor, limit);
  }

  /** The wanted rows after the cursor, in order, at most `limit` of them. */
  function Select<R>(table: Table<R>, wanted: Stored<R> -> bool, desc: bool, cursor: Option<Position>,
        limit: nat): seq<Row<R>>
  {
    WantedKeysAreStored(table, wanted, desc, CursorKey(cursor), limit);
    Load(table, Query(WantedKeys(table, wanted), desc, CursorKey(cursor), limit))
  }

  /** The page made of limit + 1 rows. */
  function Sliced<R>(rows: seq<Row<R>>, limit: nat): Slice<R>
    requires limit >= 1
  {
    if |rows| <= limit then Slice(rows, None)
    else Slice(rows[..limit], Some(Position(rows[limit - 1].stored.created, rows[limit - 1].id)))
  }

  function SliceOf<R>(table: Table<R>, wanted: Stored<R> -> bool, desc: bool, cursor: Option<Position>,
        limit: nat): Slice<R>
    requires limit >= 1
  {
    Sliced(Select(table, wanted, desc, cursor, limit + 1), limit)
  }

  // ----- slices are keyset pages -----

  function KeysOf<R>(rows: seq<Row<R>>): seq<Key> {
    seq(|rows|, i requires 0 <= i < |rows| => RowKey(rows[i]))
  }

  function KeysPage<R>(slice: Slice<R>): Page {
    Page(KeysOf(slice.rows), CursorKey(slice.next))
  }

  lemma SelectKeys<R>(table: Table<R>, wanted: Stored<R> -> bool, desc: bool, cursor: Option<Position>, limit: nat)
    ensures KeysOf(Select(table, wanted, desc, cursor, limit)) ==
              Query(WantedKeys(table, wanted), desc, CursorKey(cursor), limit)
    ensures forall r | r in Select(table, wanted, desc, cursor, limit) ::
              r.id in table && table[r.id] == r.stored && wanted(r.stored)
  {
    hide Query, Format, KeyAt, WantedKeys;
    WantedKeysAreStored(table, wanted, desc, CursorKey(cursor), limit);
    var rows, keys := Select(table, wanted, desc, cursor, limit),
      Query(WantedKeys(table, wanted), desc, CursorKey(cursor), limit);
    forall i | 0 <= i < |keys|
      ensures RowKey(rows[i]) == keys[i] && rows[i].id in table && table[rows[i].id] == rows[i].stored &&
                wanted(rows[i].stored)
    {
      assert keys[i] in keys;
    }
  }

  lemma SliceIsAPage<R>(table: Table<R>, wanted: Stored<R> -> bool, desc: bool, cursor: Option<Position>, limit: nat)
    requires limit >= 1
    ensures KeysPage(SliceOf(table, wanted, desc, cursor, limit)) ==
              PageOf(WantedKeys(table, wanted), desc, CursorKey(cursor), limit)
    ensures forall r | r in SliceOf(table, wanted, desc, cursor, limit).rows ::
              r.id in table && table[r.id] == r.stored && wanted(r.stored)
  {
    hide Query, Format, KeyAt, WantedKeys, Select;
    SelectKeys(table, wanted, desc, cursor, limit + 1);
  }

  // ----- following the next position -----

  function PositionBefore<R>(slices: seq<Slice<R>>, i: nat): Option<Position>
    requires i <= |slices|
  {
    if i == 0 then None else slices[i - 1].next
  }

  /** Slice i is the page of table i at the position that slice i - 1 named. */
  ghost predicate RunAt<R(!new)>(tables: seq<Table<R>>, wanted: Stored<R> -> bool, desc: bool, limit: nat,
        slices: seq<Slice<R>>, i: nat)
    requires limit >= 1 && i < |slices| == |tables|
  {
    (i > 0 ==> slices[i - 1].next.Some?) && slices[i] == SliceOf(tables[i], wanted, desc, PositionBefore(slices, i),
      limit)
  }

  ghost predicate Run<R(!new)>(tables: seq<Table<R>>, wanted: Stored<R> -> bool, desc: bool, limit: nat,
        slices: seq<Slice<R>>)
    requires limit >= 1
  {
    |tables| == |slices| && forall i | 0 <= i < |slices| :: RunAt(tables, wanted, desc, limit, slices, i)
  }

  predicate RunEnded<R>(slices: seq<Slice<R>>) {
    slices != [] && slices[|slices| - 1].next.None?
  }

  function AllRows<R>(slices: seq<Slice<R>>): seq<Row<R>> {
    if slices == [] then [] else AllRows(slices[..|slices| - 1]) + slices[|slices| - 1].rows
  }

  lemma RunPrefix<R(!new)>(tables: seq<Table<R>>, wanted: Stored<R> -> bool, desc: bool, limit: nat,
        slices: seq<Slice<R>>)
    requires limit >= 1 && Run(tables, wanted, desc, limit, slices) && slices != []
    ensures Run(tables[..|slices| - 1], wanted, desc, limit, slices[..|slices| - 1])
  {
    hide SliceOf;
    var n := |slices| - 1;
    forall i | 0 <= i < n
      ensures RunAt(tables[..n], wanted, desc, limit, slices[..n], i)
    {
      assert RunAt(tables, wanted, desc, limit, slices, i);
    }
  }

  lemma {:induction false} AllRowsAreListed<R>(slices: seq<Slice<R>>, keyPages: seq<Page>)
    requires |keyPages| == |slices| && forall i | 0 <= i < |slices| :: keyPages[i] == KeysPage(slices[i])
    ensures KeysOf(AllRows(slices)) == Listed(keyPages)
    decreases |slices|
  {
    hide RowKey, CursorKey;
    if slices != [] {
      var n := |slices| - 1;
      AllRowsAreListed(slices[..n], keyPages[..n]);
      assert keyPages[n].keys == KeysOf(slices[n].rows);
    }
  }

  lemma {:induction false} RunOfKeys<R(!new)>(tables: seq<Table<R>>, wanted: Stored<R> -> bool, desc: bool, limit: nat,
        slices: seq<Slice<R>>)
      returns (keyTables: seq<set<Key>>, keyPages: seq<Page>)
    requires limit >= 1 && Run(tables, wanted, desc, limit, slices)
    ensures |keyTables| == |keyPages| == |slices| && Followed(desc, limit, keyTables, keyPages)
    ensures forall i | 0 <= i < |slices| :: keyTables[i] == WantedKeys(tables[i], wanted) &&
              keyPages[i] == KeysPage(slices[i])
    decreases |slices|
  {
    hide PageOf, Followed, SliceOf, WantedKeys, KeyAt, KeysOf;
    if slices == [] {
      keyTables, keyPages := [], [];
      FollowedNone(desc, limit);
    } else {
      var n := |slices| - 1;
      RunPrefix(tables, wanted, desc, limit, slices);
      keyTables, keyPages := RunOfKeys(tables[..n], wanted, desc, limit, slices[..n]);
      assert RunAt(tables, wanted, desc, limit, slices, n);
      SliceIsAPage(tables[n], wanted, desc, PositionBefore(slices, n), limit);
      FollowedExtended(desc, limit, keyTables, keyPages, WantedKeys(tables[n], wanted), KeysPage(slices[n]));
      keyTables, keyPages := keyTables + [WantedKeys(tables[n], wanted)], keyPages + [KeysPage(slices[n])];
    }
  }

  lemma {:induction false} RowOfAPage<R(!new)>(tables: seq<Table<R>>, wanted: Stored<R> -> bool, desc: bool,
        limit: nat, slices: seq<Slice<R>>, row: Row<R>)
    requires limit >= 1 && Run(tables, wanted, desc, limit, slices) && row in AllRows(slices)
    ensures exists i :: 0 <= i < |tables| && row.id in tables[i] && tables[i][row.id] == row.stored &&
              wanted(row.stored)
    decreases |slices|
  {
    hide SliceOf, KeysOf;
    var n := |slices| - 1;
    if row in slices[n].rows {
      assert RunAt(tables, wanted, desc, limit, slices, n);
      SliceIsAPage(tables[n], wanted, desc, PositionBefore(slices, n), limit);
    } else {
      RunPrefix(tables, wanted, desc, limit, slices);
      RowOfAPage(tables[..n], wanted, desc, limit, slices[..n], row);
      var i :| 0 <= i < n && row.id in tables[..n][i] && tables[..n][i][row.id] == row.stored;
      assert tables[i] == tables[..n][i];
    }
  }

  /** Strictly in order, and no row twice. */
  lemma RowsDoNotRepeat<R(!new)>(tables: seq<Table<R>>, wanted: Stored<R> -> bool, desc: bool, limit: nat,
        slices: seq<Slice<R>>)
    requires limit >= 1 && Run(tables, wanted, desc, limit, slices)
    ensures forall i, j | 0 <= i < j < |AllRows(slices)| ::
              Before(desc, RowKey(AllRows(slices)[i]), RowKey(AllRows(slices)[j]))
  {
    hide Followed, Run, Before;
    var keyTables, keyPages := RunOfKeys(tables, wanted, desc, limit, slices);
    AllRowsAreListed(slices, keyPages);
    NoRepeats(desc, limit, keyTables, keyPages);
    var rows := AllRows(slices);
    forall i, j | 0 <= i < j < |rows|
      ensures Before(desc, RowKey(rows[i]), RowKey(rows[j]))
    {
      assert KeysOf(rows)[i] == RowKey(rows[i]) && KeysOf(rows)[j] == RowKey(rows[j]);
    }
  }

  /** A row that is there and wanted at every page is listed, though its body may have changed. */
  lemma RowsMissNothing<R(!new)>(tables: seq<Table<R>>, wanted: Stored<R> -> bool, desc: bool, limit: nat,
        slices: seq<Slice<R>>, id: string, created: Instant)
    requires limit >= 1 && Run(tables, wanted, desc, limit, slices) && RunEnded(slices)
    requires forall i | 0 <= i < |tables| :: id in tables[i] && tables[i][id].created == created &&
               wanted(tables[i][id])
    ensures exists row :: row in AllRows(slices) && row.id == id && row.stored.created == created
  {
    hide Followed, Before, SliceOf, Format;
    var keyTables, keyPages := RunOfKeys(tables, wanted, desc, limit, slices);
    var key := KeyAt(Position(created, id));
    forall i | 0 <= i < |keyTables|
      ensures key in keyTables[i]
    {
      assert RowKey(Row(id, tables[i][id])) == key;
    }
    AllRowsAreListed(slices, keyPages);
    NoGaps(desc, limit, keyTables, keyPages, key);
    var rows := AllRows(slices);
    var i :| 0 <= i < |KeysOf(rows)| && KeysOf(rows)[i] == key;
    assert rows[i] in rows && RowKey(rows[i]) == key;
    FormatInjective(rows[i].stored.created, created);
  }

  /** Over a table that stays as it is, the pages together are exactly the wanted rows. */
  lemma RowsOfAStaticTable<R(!new)>(table: Table<R>, tables: seq<Table<R>>, wanted: Stored<R> -> bool, desc: bool,
        limit: nat, slices: seq<Slice<R>>, row: Row<R>)
    requires limit >= 1 && Run(tables, wanted, desc, limit, slices) && RunEnded(slices)
    requires forall i | 0 <= i < |tables| :: tables[i] == table
    ensures row in AllRows(slices) <==> row.id in table && table[row.id] == row.stored && wanted(row.stored)
  {
    hide SliceOf, KeyAt;
    if row in AllRows(slices) {
      RowOfAPage(tables, wanted, desc, limit, slices, row);
    }
    if row.id in table && table[row.id] == row.stored && wanted(row.stored) {
      RowsMissNothing(tables, wanted, desc, limit, slices, row.id, row.stored.created);
      var other :| other in AllRows(slices) && other.id == row.id;
      RowOfAPage(tables, wanted, desc, limit, slices, other);
      assert other == row;
    }
  }

  /** And they end: slices that name a next position hold fewer rows than there are wanted ones. */
  lemma SlicesEnd<R(!new)>(table: Table<R>, tables: seq<Table<R>>, wanted: Stored<R> -> bool, desc: bool, limit: nat,
        slices: seq<Slice<R>>)
    requires limit >= 1 && Run(tables, wanted, desc, limit, slices) && slices != [] && slices[|slices| - 1].next.Some?
    requires forall i | 0 <= i < |tables| :: tables[i] == table
    ensures |slices| * limit < |WantedKeys(table, wanted)|
  {
    hide Run, Followed, WantedKeys;
    var keyTables, keyPages := RunOfKeys(tables, wanted, desc, limit, slices);
    assert |tables| == |slices| by { SameLength(tables, wanted, desc, limit, slices); }
    StaticPagesEnd(desc, limit, WantedKeys(table, wanted), keyTables, keyPages);
  }

  lemma SameLength<R(!new)>(tables: seq<Table<R>>, wanted: Stored<R> -> bool, desc: bool, limit: nat,
        slices: seq<Slice<R>>)
    requires limit >= 1 && Run(tables, wanted, desc, limit, slices)
    ensures |tables| == |slices|
  {
  }
}
