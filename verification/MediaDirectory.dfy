/** The media directory: internal/application/media/directory.go and ListDiscoverableMedia in
    internal/storage/sqlite/media_repository.go:169-269. */
module MediaDirectory {
  import opened Options
  import opened Timestamps
  import opened Keysets
  import opened StorageKeys
  import opened Permissions
  import opened LikeSearch
  import L = Listings

  /** What belongs to Go's and SQLite's text handling: trimming, control characters, what json.Marshal
      makes of a text (every byte that is not UTF-8 becomes U+FFFD), and the two lower-casings with the
      fold of LIKE. */
  datatype TextRules = TextRules(
    trim: string -> string, control: char -> bool, jsonText: string -> string,
    goLower: string -> string, sqlLower: string -> string, fold: Fold)

  const DEFAULT_LIMIT := 50
  const MAXIMUM_LIMIT := 100
  const MAXIMUM_QUERY_LENGTH := 200

  datatype Filter = Filter(query: string, mediaType: string)

  /** The SHA-256 of the JSON of filter and limit, taken as injective on that JSON and never zero. */
  datatype Fingerprint = ZeroHash | FingerprintOf(queryAsJson: string, mediaType: string, limit: int)

  datatype Cursor = Cursor(createdAt: Instant, id: string, filterHash: Fingerprint, limit: int)
  datatype Input = Input(filter: Filter, limit: int, cursor: Option<Cursor>)

  datatype Description = Description(ownerId: string, title: string, authors: seq<string>, mediaType: string)
  type Media = L.Table<Description>
  type Medium = L.Row<Description>
  datatype Tables = Tables(media: Media, grants: GrantRows)

  datatype ItemPage = ItemPage(items: seq<Medium>, next: Option<Cursor>)
  datatype Error = Forbidden | InvalidFilter | InvalidLimit | InvalidCursor
  datatype Result = Failed(error: Error) | Success(page: ItemPage)

  // ----- validation -----

  predicate ValidCursor(c: Cursor) {
    c.createdAt != ZERO_TIME && ValidMediaId(c.id) && c.filterHash != ZeroHash && 1 <= c.limit <= MAXIMUM_LIMIT
  }

  datatype Normalized = BadFilter | Normal(filter: Filter)

  function NormalizeFilter(rules: TextRules, filter: Filter): Normalized {
    var query := rules.trim(filter.query);
    if |query| > MAXIMUM_QUERY_LENGTH then BadFilter
    else if exists i :: 0 <= i < |query| && rules.control(query[i]) then BadFilter
    else if filter.mediaType !in {"", "book", "document", "video"} then BadFilter
    else Normal(Filter(query, filter.mediaType))
  }

  function FilterHash(rules: TextRules, filter: Filter, limit: int): Fingerprint {
    FingerprintOf(rules.jsonText(filter.query), filter.mediaType, limit)
  }

  function EffectiveLimit(limit: int): int {
    if limit == 0 then DEFAULT_LIMIT else limit
  }

  // ----- the SELECT -----

  predicate Likes(rules: TextRules, query: string, text: string) {
    Like("%" + (EscapeLikePattern(rules.goLower(query)) + "%"), rules.sqlLower(text), rules.fold)
  }

  predicate Selected(rules: TextRules, grants: GrantRows, actorId: string, filter: Filter, id: string, d: Description) {
    && DirectoryShows(grants, actorId, Item(id, d.ownerId))
    && (filter.query != "" ==>
          Likes(rules, filter.query, d.title) 
          || exists i :: 0 <= i < |d.authors| && Likes(rules, filter.query, d.authors[i]))
    && (filter.mediaType != "" ==> d.mediaType == filter.mediaType)
  }

  function SelectedRows(rules: TextRules, tables: Tables, actorId: string, filter: Filter): Media {
    map id | id in tables.media && Selected(rules, tables.grants, actorId, filter, id, tables.media[id].body) ::
      tables.media[id]
  }

  function Everything(): L.Stored<Description> -> bool {
    (d: L.Stored<Description>) => true
  }

  function CursorPosition(cursor: Option<Cursor>): Option<L.Position> {
    if cursor.None? then None else Some(L.Position(cursor.value.createdAt, cursor.value.id))
  }

  function ListDiscoverableMedia(rules: TextRules, tables: Tables, actorId: string, filter: Filter,
        cursor: Option<Cursor>, limit: nat): seq<Medium>
  {
    L.Select(SelectedRows(rules, tables, actorId, filter), Everything(), true, CursorPosition(cursor), limit)
  }

  /** The loop that loads the listed rows by their IDs, in the same transaction. */
  method LoadItems(media: Media, keys: seq<Key>) returns (items: seq<Medium>)
    requires forall k | k in keys :: k.id in media
    ensures items == L.Load(media, keys)
  {
    items := [];
    for i := 0 to |keys|
      invariant |items| == i && forall j | 0 <= j < i :: items[j] == L.Row(keys[j].id, media[keys[j].id])
    {
      items := items + [L.Row(keys[i].id, media[keys[i].id])];
    }
  }

  // ----- the service -----

  function ListItems(rules: TextRules, tables: Tables, actor: User, input: Input): Result {
    if !actor.active then Failed(Forbidden)
    else if !ValidUserId(actor.id) then Failed(InvalidFilter)
    else
      var normalized := NormalizeFilter(rules, input.filter);
      if normalized.BadFilter? then Failed(InvalidFilter)
      else
        var limit := EffectiveLimit(input.limit);
        if limit < 1 || limit > MAXIMUM_LIMIT then Failed(InvalidLimit)
        else
          var hash := FilterHash(rules, normalized.filter, limit);
          if input.cursor.Some? && (!ValidCursor(input.cursor.value) || input.cursor.value.filterHash != hash ||
            input.cursor.value.limit != limit)
          then Failed(InvalidCursor)
          else
            var items := ListDiscoverableMedia(rules, tables, actor.id, normalized.filter, input.cursor, limit + 1);
            if |items| <= limit then Success(ItemPage(items, None))
            else
              var last := items[limit - 1];
              var next := Cursor(last.stored.created, last.id, hash, limit);
              if !ValidCursor(next) then Failed(InvalidCursor) else Success(ItemPage(items[..limit], Some(next)))
  }

  ghost predicate ValidTables(tables: Tables) {
    && (forall id | id in tables.media :: ValidMediaId(id) && ValidUserId(tables.media[id].body.ownerId) &&
         tables.media[id].created != ZERO_TIME)
    && SavedGrantsValid(tables.grants)
  }

  // ----- what one call returns -----

  /** What the arguments alone decide. */
  predicate Acceptable(rules: TextRules, actor: User, input: Input) {
    && actor.active && ValidUserId(actor.id)
    && NormalizeFilter(rules, input.filter).Normal?
    && 1 <= EffectiveLimit(input.limit) <= MAXIMUM_LIMIT
    && (input.cursor.Some? ==>
          && ValidCursor(input.cursor.value)
          && input.cursor.value.filterHash == FilterHash(rules, NormalizeFilter(rules, input.filter).filter,
               EffectiveLimit(input.limit))
          && input.cursor.value.limit == EffectiveLimit(input.limit))
  }

  function BoundPage(rules: TextRules, slice: L.Slice<Description>, filter: Filter, limit: nat): ItemPage {
    ItemPage(slice.rows, if slice.next.None? then None
                         else Some(Cursor(slice.next.value.created, slice.next.value.id,
                           FilterHash(rules, filter, limit), limit)))
  }

  function SliceFor(rules: TextRules, tables: Tables, actorId: string, filter: Filter, cursor: Option<Cursor>,
        limit: nat): L.Slice<Description>
    requires limit >= 1
  {
    L.SliceOf(SelectedRows(rules, tables, actorId, filter), Everything(), true, CursorPosition(cursor), limit)
  }

  /** An acceptable call never fails, and returns one page of the selected rows with its next cursor
      bound to the filter and the limit; any other call fails. */
  lemma ListItemsReturnsAPage(rules: TextRules, tables: Tables, actor: User, input: Input)
    requires ValidTables(tables)
    ensures ListItems(rules, tables, actor, input).Success? <==> Acceptable(rules, actor, input)
    ensures Acceptable(rules, actor, input) ==>
              var filter, limit := NormalizeFilter(rules, input.filter).filter, EffectiveLimit(input.limit);
              var page := ListItems(rules, tables, actor, input).page;
              && page == BoundPage(rules, SliceFor(rules, tables, actor.id, filter, input.cursor, limit), filter, limit)
              && (page.next.Some? ==> ValidCursor(page.next.value))
  {
    hide L.Select, NormalizeFilter, ValidMediaId, Selected, Everything, L.KeysOf, Query, SavedGrantsValid;
    if Acceptable(rules, actor, input) {
      var filter, limit := NormalizeFilter(rules, input.filter).filter, EffectiveLimit(input.limit);
      var rows := ListDiscoverableMedia(rules, tables, actor.id, filter, input.cursor, limit + 1);
      L.SelectKeys(SelectedRows(rules, tables, actor.id, filter), Everything(), true, CursorPosition(input.cursor),
        limit + 1);
      if |rows| > limit {
        assert rows[limit - 1] in rows;
      }
    }
  }

  /** A cursor is taken exactly with the limit it was issued for and a filter whose JSON is the same:
      with the same filter, and with no other but one whose query differs in bytes that are not UTF-8. */
  lemma CursorIsBound(rules: TextRules, tables: Tables, actor: User, input: Input, filter: Filter, limit: int)
    requires ValidTables(tables) && Acceptable(rules, actor, input)
    ensures ListItems(rules, tables, actor, input).Success?
    ensures var issued := ListItems(rules, tables, actor, input).page.next;
            issued.Some? ==>
              var given, own := NormalizeFilter(rules, filter), NormalizeFilter(rules, input.filter).filter;
              (Acceptable(rules, actor, Input(filter, limit, issued)) <==>
                 && given.Normal? && given.filter.mediaType == own.mediaType
                 && rules.jsonText(given.filter.query) == rules.jsonText(own.query)
                 && EffectiveLimit(limit) == EffectiveLimit(input.limit))
  {
    hide ListItems, L.SliceOf, NormalizeFilter, ValidMediaId, ValidTables;
    ListItemsReturnsAPage(rules, tables, actor, input);
  }

  // ----- following the cursor -----

  function CursorBefore(pages: seq<ItemPage>, i: nat): Option<Cursor>
    requires i <= |pages|
  {
    if i == 0 then None else pages[i - 1].next
  }

  /** Page i is the answer, over table i, to the same filter and limit with the previous page's next
      cursor.  The tables may differ from page to page in every way. */
  ghost predicate RunAt(rules: TextRules, actor: User, filter: Filter, limit: int, tables: seq<Tables>,
        pages: seq<ItemPage>, i: nat)
    requires i < |pages| == |tables|
  {
    && ValidTables(tables[i]) && (i > 0 ==> pages[i - 1].next.Some?)
    && ListItems(rules, tables[i], actor, Input(filter, limit, CursorBefore(pages, i))) == Success(pages[i])
  }

  ghost predicate Run(rules: TextRules, actor: User, filter: Filter, limit: int, tables: seq<Tables>,
        pages: seq<ItemPage>)
  {
    |tables| == |pages| && forall i | 0 <= i < |pages| :: RunAt(rules, actor, filter, limit, tables, pages, i)
  }

  predicate RunEnded(pages: seq<ItemPage>) {
    pages != [] && pages[|pages| - 1].next.None?
  }

  function AllItems(pages: seq<ItemPage>): seq<Medium> {
    if pages == [] then [] else AllItems(pages[..|pages| - 1]) + pages[|pages| - 1].items
  }

  /** A run of the service is a run of slices of the selected rows. */
  ghost predicate IsRunOfSlices(rules: TextRules, actor: User, filter: Filter, limit: int, tables: seq<Tables>,
        pages: seq<ItemPage>,
                                selected: seq<Media>, slices: seq<L.Slice<Description>>)
  {
    && NormalizeFilter(rules, filter).Normal? && 1 <= EffectiveLimit(limit)
    && |selected| == |slices| == |pages| == |tables|
    && L.Run(selected, Everything(), true, EffectiveLimit(limit), slices)
    && L.AllRows(slices) == AllItems(pages)
    && (forall i | 0 <= i < |pages| :: pages[i].next.None? <==> slices[i].next.None?)
    && (forall i | 0 <= i < |pages| :: selected[i] == SelectedRows(rules, tables[i], actor.id,
         NormalizeFilter(rules, filter).filter))
  }

  lemma {:induction false} AllItemsAreRows(pages: seq<ItemPage>, slices: seq<L.Slice<Description>>)
    requires |slices| == |pages| && forall i | 0 <= i < |pages| :: pages[i].items == slices[i].rows
    ensures L.AllRows(slices) == AllItems(pages)
    decreases |pages|
  {
    if pages != [] {
      AllItemsAreRows(pages[..|pages| - 1], slices[..|pages| - 1]);
    }
  }

  lemma RunOfSlices(rules: TextRules, actor: User, filter: Filter, limit: int, tables: seq<Tables>,
        pages: seq<ItemPage>)
      returns (selected: seq<Media>, slices: seq<L.Slice<Description>>)
    requires Run(rules, actor, filter, limit, tables, pages) && pages != []
    ensures IsRunOfSlices(rules, actor, filter, limit, tables, pages, selected, slices)
  {
    hide ListItems, NormalizeFilter, ValidTables, SelectedRows, L.SliceOf, ValidMediaId, Everything, AllItems,
      L.AllRows;
    assert 1 <= EffectiveLimit(limit) && NormalizeFilter(rules, filter).Normal? by {
      PageOfRun(rules, actor, filter, limit, tables, pages, 0);
    }
    var normal := NormalizeFilter(rules, filter).filter;
    selected := seq(|pages|, i requires 0 <= i < |pages| => SelectedRows(rules, tables[i], actor.id, normal));
    slices := seq(|pages|, i requires 0 <= i < |pages| => SliceFor(rules, tables[i], actor.id, normal,
      CursorBefore(pages, i), EffectiveLimit(limit)));
    forall i | 0 <= i < |pages|
      ensures pages[i] == BoundPage(rules, slices[i], normal, EffectiveLimit(limit))
    {
      PageOfRun(rules, actor, filter, limit, tables, pages, i);
    }
    forall i | 0 <= i < |pages|
      ensures L.RunAt(selected, Everything(), true, EffectiveLimit(limit), slices, i)
    {
      PageOfRun(rules, actor, filter, limit, tables, pages, i);
      assert i > 0 ==> pages[i - 1] == BoundPage(rules, slices[i - 1], normal, EffectiveLimit(limit));
    }
    AllItemsAreRows(pages, slices);
  }

  lemma PageOfRun(rules: TextRules, actor: User, filter: Filter, limit: int, tables: seq<Tables>, pages: seq<ItemPage>,
        i: nat)
    requires Run(rules, actor, filter, limit, tables, pages) && i < |pages|
    ensures 1 <= EffectiveLimit(limit) && NormalizeFilter(rules, filter).Normal?
    ensures i > 0 ==> pages[i - 1].next.Some?
    ensures var normal := NormalizeFilter(rules, filter).filter;
            pages[i] == BoundPage(rules, SliceFor(rules, tables[i], actor.id, normal, CursorBefore(pages, i),
              EffectiveLimit(limit)), normal, EffectiveLimit(limit))
  {
    hide ListItems, NormalizeFilter, ValidTables, SliceFor, ValidMediaId;
    assert RunAt(rules, actor, filter, limit, tables, pages, i);
    ListItemsReturnsAPage(rules, tables[i], actor, Input(filter, limit, CursorBefore(pages, i)));
  }

  /** Newest first by the stored text, and no item twice, whatever was inserted, deleted or edited
      between the pages. */
  lemma PagesDoNotRepeat(rules: TextRules, actor: User, filter: Filter, limit: int, tables: seq<Tables>,
        pages: seq<ItemPage>)
    requires Run(rules, actor, filter, limit, tables, pages) && pages != []
    ensures forall i, j | 0 <= i < j < |AllItems(pages)| ::
              Before(true, L.RowKey(AllItems(pages)[i]), L.RowKey(AllItems(pages)[j]))
  {
    hide Run, L.Run, Before, L.RowKey;
    var selected, slices := RunOfSlices(rules, actor, filter, limit, tables, pages);
    L.RowsDoNotRepeat(selected, Everything(), true, EffectiveLimit(limit), slices);
  }

  /** The item is there, visible and matching at every page; its title and the rest may change. */
  ghost predicate SelectedThroughout(rules: TextRules, actor: User, filter: Filter, tables: seq<Tables>, id: string,
        created: Instant)
  {
    NormalizeFilter(rules, filter).Normal? && forall i | 0 <= i < |tables| ::
      && id in tables[i].media && tables[i].media[id].created == created
      && Selected(rules, tables[i].grants, actor.id, NormalizeFilter(rules, filter).filter, id,
           tables[i].media[id].body)
  }

  /** Such an item is on one of the pages (and by PagesDoNotRepeat on one only). */
  lemma PagesMissNothing(rules: TextRules, actor: User, filter: Filter, limit: int, tables: seq<Tables>,
        pages: seq<ItemPage>, id: string, created: Instant)
    requires Run(rules, actor, filter, limit, tables, pages) && RunEnded(pages)
    requires SelectedThroughout(rules, actor, filter, tables, id, created)
    ensures exists m :: m in AllItems(pages) && m.id == id && m.stored.created == created
  {
    hide Run, L.Run, NormalizeFilter, Selected, L.AllRows, AllItems;
    var selected, slices := RunOfSlices(rules, actor, filter, limit, tables, pages);
    L.RowsMissNothing(selected, Everything(), true, EffectiveLimit(limit), slices, id, created);
  }

  /** What the caller asked for, in its own terms: the query occurs in the title or in an author. */
  ghost predicate Wanted(rules: TextRules, filter: Filter, d: Description) {
    var q := rules.goLower(filter.query);
    && (filter.query != "" ==>
          Occurs(q, rules.sqlLower(d.title), rules.fold) || exists i ::
            0 <= i < |d.authors| && Occurs(q, rules.sqlLower(d.authors[i]), rules.fold))
    && (filter.mediaType != "" ==> d.mediaType == filter.mediaType)
  }

  lemma SelectedExactly(rules: TextRules, grants: GrantRows, actor: User, filter: Filter, id: string, d: Description)
    requires SavedGrantsValid(grants) && actor.active && ValidUserId(actor.id) && ValidMediaId(id) &&
               ValidUserId(d.ownerId)
    ensures Selected(rules, grants, actor.id, filter, id, d) <==>
              Wanted(rules, filter, d) && AuthorizeItem(grants, actor, Item(id, d.ownerId), DISCOVER) == Granted
  {
    hide Like, Occurs, DirectoryShows, AuthorizeItem, ValidMediaId, EscapeLikePattern;
    DirectoryAgreesWithItemByID(grants, actor, Item(id, d.ownerId));
    var q := rules.goLower(filter.query);
    LikeFindsSubstrings(q, rules.sqlLower(d.title), rules.fold);
    forall i | 0 <= i < |d.authors|
      ensures Likes(rules, filter.query, d.authors[i]) <==> Occurs(q, rules.sqlLower(d.authors[i]), rules.fold)
    {
      LikeFindsSubstrings(q, rules.sqlLower(d.authors[i]), rules.fold);
    }
  }

  /** Over tables that stay as they are, the pages together hold exactly the items that match the
      filter and that ItemByID would return to the actor. */
  lemma PagesHoldExactlyTheVisible(rules: TextRules, actor: User, filter: Filter, limit: int, table: Tables,
        tables: seq<Tables>, pages: seq<ItemPage>, m: Medium)
    requires Run(rules, actor, filter, limit, tables, pages) && RunEnded(pages)
    requires forall i | 0 <= i < |tables| :: tables[i] == table
    ensures NormalizeFilter(rules, filter).Normal?
    ensures m in AllItems(pages) <==>
              && m.id in table.media && table.media[m.id] == m.stored
              && Wanted(rules, NormalizeFilter(rules, filter).filter, m.stored.body)
              && AuthorizeItem(table.grants, actor, Item(m.id, m.stored.body.ownerId), DISCOVER) == Granted
  {
    hide L.Run, NormalizeFilter, Wanted, AuthorizeItem, Selected, ValidMediaId, ListItems, L.AllRows, AllItems,
      SavedGrantsValid;
    var selected, slices := RunOfSlices(rules, actor, filter, limit, tables, pages);
    var normal := NormalizeFilter(rules, filter).filter;
    assert RunAt(rules, actor, filter, limit, tables, pages, 0);
    ListItemsReturnsAPage(rules, table, actor, Input(filter, limit, None));
    L.RowsOfAStaticTable(SelectedRows(rules, table, actor.id, normal), selected, Everything(), true,
      EffectiveLimit(limit), slices, m);
    if m.id in table.media && table.media[m.id] == m.stored {
      SelectedExactly(rules, table.grants, actor, normal, m.id, m.stored.body);
    }
  }
}
