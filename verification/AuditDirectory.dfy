/** The audit directory: internal/application/auditing/directory.go and
    internal/storage/sqlite/audit_repository.go:27-103. */
module AuditDirectory {
  import opened Options
  import opened TextOrder
  import opened Timestamps
  import opened Keysets
  import opened StorageKeys
  import L = Listings

  const DEFAULT_LIMIT := 50
  const MAXIMUM_LIMIT := 100

  datatype Fact = Fact(eventType: string, outcome: string, actorId: string)
  type Event = L.Stored<Fact>
  type Events = map<string, Event>

  /** Empty texts select everything. */
  datatype Filter = Filter(from: Option<Instant>, to: Option<Instant>, actorId: string, eventType: string,
    outcome: string)

  /** The SHA-256 fingerprint of the filter and the limit, taken as injective and never zero. */
  datatype Fingerprint = ZeroHash | FingerprintOf(filter: Filter, limit: int)

  datatype Cursor = Cursor(occurredAt: Instant, id: string, filterHash: Fingerprint, limit: int)
  datatype Input = Input(filter: Filter, limit: int, cursor: Option<Cursor>)

  datatype EventPage = EventPage(events: seq<L.Row<Fact>>, next: Option<Cursor>)
  datatype Error = InvalidLimit | InvalidFilter | InvalidCursor | AuditFailed
  datatype Result = Failed(error: Error) | Success(page: EventPage)

  // ----- validation -----

  predicate ValidFilter(filter: Filter, validType: string -> bool) {
    && (filter.from.Some? ==> filter.from.value != ZERO_TIME) && (filter.to.Some? ==> filter.to.value != ZERO_TIME)
    && (filter.from.Some? && filter.to.Some? ==> Earlier(filter.from.value, filter.to.value))
    && (filter.actorId != "" ==> ValidMediaId(filter.actorId))
    && (filter.eventType != "" ==> validType(filter.eventType))
    && filter.outcome in {"", "success", "denied", "failure"}
  }

  predicate ValidCursor(c: Cursor) {
    c.occurredAt != ZERO_TIME && ValidMediaId(c.id) && c.filterHash != ZeroHash && 1 <= c.limit <= MAXIMUM_LIMIT
  }

  function EffectiveLimit(limit: int): int {
    if limit == 0 then DEFAULT_LIMIT else limit
  }

  datatype Validation = Rejected(error: Error) | Accepted(limit: nat)

  function Validate(input: Input, validType: string -> bool): (v: Validation)
    ensures v.Accepted? ==> 1 <= v.limit <= MAXIMUM_LIMIT && v.limit == EffectiveLimit(input.limit)
  {
    var limit := EffectiveLimit(input.limit);
    if limit < 1 || limit > MAXIMUM_LIMIT then Rejected(InvalidLimit)
    else if !ValidFilter(input.filter, validType) then Rejected(InvalidFilter)
    else if input.cursor.Some?
            && (!ValidCursor(input.cursor.value) ||
                 input.cursor.value.filterHash != FingerprintOf(input.filter, limit) ||
                   input.cursor.value.limit != limit)
    then Rejected(InvalidCursor)
    else Accepted(limit)
  }

  /** audit.NewEvent, as far as the fields go that the directory reads; `rest` is what it makes of the
      others (internal/audit/event.go:176-250). */
  predicate ValidEvent(id: string, e: Event, validType: string -> bool, rest: bool) {
    && ValidMediaId(id) && e.created != ZERO_TIME && validType(e.body.eventType)
    && e.body.outcome in {"success", "denied", "failure"} && (e.body.actorId != "" ==> ValidMediaId(e.body.actorId))
    && rest
  }

  /** Every stored event could be the last one of a page. */
  ghost predicate KeysValid(events: Events) {
    forall id | id in events :: ValidMediaId(id) && events[id].created != ZERO_TIME
  }

  function ListedEvent(actorId: string, now: Instant): Event {
    L.Stored(now, Fact("audit.events_listed", "success", actorId))
  }

  // ----- the WHERE clause -----

  datatype Condition =
    | OccurredFrom(text: string)
    | OccurredBefore(text: string)
    | ActorIs(text: string)
    | TypeIs(text: string)
    | OutcomeIs(text: string)
    | KeyBelow(text: string, id: string)

  predicate Holds(c: Condition, id: string, e: Event) {
    match c
    case OccurredFrom(text) => !Lt(Format(e.created), text)
    case OccurredBefore(text) => Lt(Format(e.created), text)
    case ActorIs(text) => e.body.actorId == text
    case TypeIs(text) => e.body.eventType == text
    case OutcomeIs(text) => e.body.outcome == text
    case KeyBelow(text, last) => Lt(Format(e.created), text) || (Format(e.created) == text && Lt(id, last))
  }

  predicate FieldsMatch(filter: Filter, e: Event) {
    && (filter.actorId != "" ==> e.body.actorId == filter.actorId)
    && (filter.eventType != "" ==> e.body.eventType == filter.eventType)
    && (filter.outcome != "" ==> e.body.outcome == filter.outcome)
  }

  /** What the filter selects, by the stored text of the time. */
  predicate InFilter(filter: Filter, e: Event) {
    && (filter.from.Some? ==> !Lt(Format(e.created), Format(filter.from.value)))
    && (filter.to.Some? ==> Lt(Format(e.created), Format(filter.to.value)))
    && FieldsMatch(filter, e)
  }

  function CursorPosition(cursor: Option<Cursor>): Option<L.Position> {
    if cursor.None? then None else Some(L.Position(cursor.value.occurredAt, cursor.value.id))
  }

  predicate Past(cursor: Option<L.Position>, id: string, e: Event) {
    cursor.Some? ==> Before(true, L.KeyAt(cursor.value), L.RowKey(L.Row(id, e)))
  }

  predicate HoldsAll(conditions: seq<Condition>, id: string, e: Event) {
    forall c | c in conditions :: Holds(c, id, e)
  }

  lemma HoldsAllWith(conditions: seq<Condition>, c: Condition)
    ensures forall id, e: Event :: HoldsAll(conditions + [c], id, e) <==> HoldsAll(conditions, id, e) && Holds(c, id, e)
  {
    hide Holds;
    forall id, e: Event
      ensures HoldsAll(conditions + [c], id, e) <==> HoldsAll(conditions, id, e) && Holds(c, id, e)
    {
      assert forall d :: d in conditions + [c] <==> d in conditions || d == c;
    }
  }

  lemma HoldsNone()
    ensures forall id, e: Event :: HoldsAll([], id, e)
  {
  }

  /** The conditions that ListAuditEvents appends, to be joined with AND. */
  method Conditions(filter: Filter, cursor: Option<L.Position>) returns (conditions: seq<Condition>)
    ensures forall id, e: Event :: HoldsAll(conditions, id, e) <==> InFilter(filter, e) && Past(cursor, id, e)
  {
    hide HoldsAll, Format, Lt;
    conditions := [];
    assert forall id, e: Event :: HoldsAll(conditions, id, e) by { HoldsNone(); }
    if filter.from.Some? {
      HoldsAllWith(conditions, OccurredFrom(Format(filter.from.value)));
      conditions := conditions + [OccurredFrom(Format(filter.from.value))];
    }
    if filter.to.Some? {
      HoldsAllWith(conditions, OccurredBefore(Format(filter.to.value)));
      conditions := conditions + [OccurredBefore(Format(filter.to.value))];
    }
    conditions := FieldConditions(filter, conditions);
    if cursor.Some? {
      HoldsAllWith(conditions, KeyBelow(Format(cursor.value.created), cursor.value.id));
      conditions := conditions + [KeyBelow(Format(cursor.value.created), cursor.value.id)];
    }
  }

  method FieldConditions(filter: Filter, before: seq<Condition>) returns (conditions: seq<Condition>)
    ensures forall id, e: Event :: HoldsAll(conditions, id, e) <==> HoldsAll(before, id, e) && FieldsMatch(filter, e)
  {
    hide HoldsAll, Format, Lt;
    conditions := before;
    if filter.actorId != "" {
      HoldsAllWith(conditions, ActorIs(filter.actorId));
      conditions := conditions + [ActorIs(filter.actorId)];
    }
    if filter.eventType != "" {
      HoldsAllWith(conditions, TypeIs(filter.eventType));
      conditions := conditions + [TypeIs(filter.eventType)];
    }
    if filter.outcome != "" {
      HoldsAllWith(conditions, OutcomeIs(filter.outcome));
      conditions := conditions + [OutcomeIs(filter.outcome)];
    }
  }

  /** Outside the one case in which text order and time order part, the window of a filter is the
      half-open interval of time that its documentation speaks of. */
  lemma WindowIsChronological(filter: Filter, e: Event)
    requires filter.from.Some? ==> !Reversed(e.created, filter.from.value)
    requires filter.to.Some? ==> !Reversed(e.created, filter.to.value)
    ensures InFilter(filter, e) <==>
            && (filter.from.Some? ==> !Earlier(e.created, filter.from.value))
            && (filter.to.Some? ==> Earlier(e.created, filter.to.value))
            && FieldsMatch(filter, e)
  {
    hide Format, Reversed, Earlier, Lt;
    if filter.from.Some? {
      TextOrderAgainstTime(e.created, filter.from.value);
    }
    if filter.to.Some? {
      TextOrderAgainstTime(e.created, filter.to.value);
    }
  }

  /** In that case the bound decides the other way: an event half a second after a whole-second
      `from` is left out, and one half a second after a whole-second `to` is let in. */
  lemma ReversedAtABound(from: Instant, e: Event)
    requires Reversed(e.created, from)
    ensures InFilter(Filter(Some(from), None, "", "", ""), e) <==> Earlier(e.created, from)
    ensures InFilter(Filter(None, Some(from), "", "", ""), e) <==> Earlier(from, e.created)
  {
    hide Format, Lt, Fraction, Seconds;
    TextOrderAgainstTime(e.created, from);
  }

  // ----- the service -----

  function BoundPage(slice: L.Slice<Fact>, filter: Filter, limit: nat): EventPage {
    EventPage(slice.rows, if slice.next.None? then None
                     else Some(Cursor(slice.next.value.created, slice.next.value.id, FingerprintOf(filter, limit),
                       limit)))
  }

  function Wanted(filter: Filter): Event -> bool {
    (e: Event) => InFilter(filter, e)
  }

  function SliceFor(events: Events, input: Input, limit: nat): L.Slice<Fact>
    requires limit >= 1
  {
    L.SliceOf(events, Wanted(input.filter), true, CursorPosition(input.cursor), limit)
  }

  class AuditService {
    const validType: string -> bool
    var events: Events

    ghost predicate Valid()
      reads this
    {
      KeysValid(events)
    }

    constructor (validType: string -> bool)
      ensures Valid() && events == map[] && this.validType == validType
    {
      this.validType, events := validType, map[];
    }

    /** An event is validated again before it is stored, and its ID is a primary key. */
    method Append(id: string, event: Event, rest: bool) returns (appended: bool)
      requires Valid()
      modifies this`events
      ensures Valid()
      ensures appended == (ValidEvent(id, event, validType, rest) && id !in old(events))
      ensures events == if appended then old(events)[id := event] else old(events)
    {
      if !ValidEvent(id, event, validType, rest) || id in events {
        return false;
      }
      events := events[id := event];
      return true;
    }

    /** Records the access first: the page is read from the table that already holds its own event.
        `rest` is what audit.NewEvent makes of the actor's name and role. */
    method ListEvents(actorId: string, input: Input, eventId: string, now: Instant, rest: bool) returns (r: Result)
      requires Valid()
      modifies this`events
      ensures Valid()
      ensures var v := Validate(input, validType);
              match v
              case Rejected(error) => r == Failed(error) && events == old(events)
              case Accepted(limit) =>
                if !ValidEvent(eventId, ListedEvent(actorId, now), validType, rest) || eventId in old(events) then
                  r == Failed(AuditFailed) && events == old(events)
                else
                  && events == old(events)[eventId := ListedEvent(actorId, now)]
                  && r == Success(BoundPage(SliceFor(events, input, limit), input.filter, limit))
    {
      hide InFilter, Wanted, L.Select, ValidFilter, ValidCursor, CursorPosition, ValidEvent;
      var v := Validate(input, validType);
      if v.Rejected? {
        return Failed(v.error);
      }
      var appended := Append(eventId, ListedEvent(actorId, now), rest);
      if !appended {
        return Failed(AuditFailed);
      }
      var limit := v.limit;
      var rows := L.Select(events, Wanted(input.filter), true, CursorPosition(input.cursor), limit + 1);
      var page := EventPage(rows, None);
      if |rows| > limit {
        var last := rows[limit - 1];
        page := EventPage(rows[..limit], Some(Cursor(last.stored.created, last.id, FingerprintOf(input.filter, limit),
          limit)));
      }
      return Success(page);
    }
  }

  // ----- following the cursor -----

  /** A cursor is taken with the filter and limit it was issued for, and with no other. */
  lemma CursorIsBound(events: Events, input: Input, validType: string -> bool, filter: Filter, limit: int)
    requires Validate(input, validType).Accepted?
    requires KeysValid(events)
    ensures var issued := BoundPage(SliceFor(events, input, EffectiveLimit(input.limit)), input.filter,
              EffectiveLimit(input.limit)).next;
            issued.Some? ==>
              (Validate(Input(filter, limit, issued), validType).Accepted? <==>
                 filter == input.filter && EffectiveLimit(limit) == EffectiveLimit(input.limit))
  {
    hide ValidMediaId, ValidFilter, L.SliceOf;
    var slice := SliceFor(events, input, EffectiveLimit(input.limit));
    if slice.next.Some? {
      PositionIsARow(events, input, EffectiveLimit(input.limit));
    }
  }

  lemma PositionIsARow(events: Events, input: Input, limit: nat)
    requires limit >= 1 && SliceFor(events, input, limit).next.Some?
    ensures var p := SliceFor(events, input, limit).next.value; p.id in events && events[p.id].created == p.created
  {
    hide InFilter, L.Select, PageOf;
    L.SelectKeys(events, Wanted(input.filter), true, CursorPosition(input.cursor), limit + 1);
    var rows := L.Select(events, Wanted(input.filter), true, CursorPosition(input.cursor), limit + 1);
    assert rows[limit - 1] in rows;
  }

  function CursorBefore(pages: seq<EventPage>, i: nat): Option<Cursor>
    requires i <= |pages|
  {
    if i == 0 then None else pages[i - 1].next
  }

  /** Page i is what ListEvents answered from table i, its own access event included, to the same
      filter and limit with the previous page's cursor. */
  ghost predicate RunAt(tables: seq<Events>, filter: Filter, limit: int, pages: seq<EventPage>, i: nat)
    requires 1 <= EffectiveLimit(limit) && i < |pages| == |tables|
  {
    && (i > 0 ==> pages[i - 1].next.Some?)
    && pages[i] == BoundPage(SliceFor(tables[i], Input(filter, limit, CursorBefore(pages, i)), EffectiveLimit(limit)),
         filter, EffectiveLimit(limit))
  }

  ghost predicate Grew(before: Events, after: Events) {
    forall id | id in before :: id in after && after[id] == before[id]
  }

  /** Between pages any events may be appended; none is ever changed or deleted. */
  ghost predicate Run(tables: seq<Events>, filter: Filter, limit: int, pages: seq<EventPage>)
    requires 1 <= EffectiveLimit(limit)
  {
    && |tables| == |pages| && (forall i | 0 <= i < |pages| :: RunAt(tables, filter, limit, pages, i))
    && (forall i, j | 0 <= i < j < |tables| :: Grew(tables[i], tables[j]))
  }

  function AllEvents(pages: seq<EventPage>): seq<L.Row<Fact>> {
    if pages == [] then [] else AllEvents(pages[..|pages| - 1]) + pages[|pages| - 1].events
  }

  lemma {:induction false} RunOfSlices(tables: seq<Events>, filter: Filter, limit: int, pages: seq<EventPage>)
    returns (slices: seq<L.Slice<Fact>>)
    requires 1 <= EffectiveLimit(limit) && Run(tables, filter, limit, pages)
    ensures L.Run(tables, Wanted(filter), true, EffectiveLimit(limit), slices)
    ensures L.AllRows(slices) == AllEvents(pages) && |slices| == |pages|
    ensures forall i | 0 <= i < |pages| :: pages[i] == BoundPage(slices[i], filter, EffectiveLimit(limit))
    decreases |pages|
  {
    hide L.SliceOf, Wanted;
    slices := [];
    if pages != [] {
      var n := |pages| - 1;
      forall i | 0 <= i < n
        ensures RunAt(tables[..n], filter, limit, pages[..n], i)
      {
        assert RunAt(tables, filter, limit, pages, i);
      }
      var before := RunOfSlices(tables[..n], filter, limit, pages[..n]);
      assert RunAt(tables, filter, limit, pages, n);
      slices := before + [SliceFor(tables[n], Input(filter, limit, CursorBefore(pages, n)), EffectiveLimit(limit))];
      assert slices[..n] == before;
      forall i | 0 <= i <= n
        ensures L.RunAt(tables, Wanted(filter), true, EffectiveLimit(limit), slices, i)
      {
        if i < n {
          assert L.RunAt(tables[..n], Wanted(filter), true, EffectiveLimit(limit), before, i);
        }
      }
    }
  }

  /** Although every page of the listing appends an event of its own, an event that was there at the
      first page and that the filter selects is listed exactly once. */
  lemma EarlierEventsAreListedOnce(tables: seq<Events>, filter: Filter, limit: int, pages: seq<EventPage>, id: string)
    requires 1 <= EffectiveLimit(limit) && Run(tables, filter, limit, pages)
    requires pages != [] && pages[|pages| - 1].next.None?
    requires id in tables[0] && InFilter(filter, tables[0][id])
    ensures exists i :: 0 <= i < |AllEvents(pages)| && AllEvents(pages)[i] == L.Row(id, tables[0][id])
    ensures forall i, j | 0 <= i < |AllEvents(pages)| && 0 <= j < |AllEvents(pages)| &&
              AllEvents(pages)[i] == AllEvents(pages)[j] :: i == j
  {
    hide InFilter, Format, L.SliceOf, Before;
    var slices := RunOfSlices(tables, filter, limit, pages);
    var rows := AllEvents(pages);
    forall i | 0 <= i < |tables|
      ensures id in tables[i] && tables[i][id] == tables[0][id]
    {
      assert i > 0 ==> Grew(tables[0], tables[i]);
    }
    L.RowsMissNothing(tables, Wanted(filter), true, EffectiveLimit(limit), slices, id, tables[0][id].created);
    L.RowsDoNotRepeat(tables, Wanted(filter), true, EffectiveLimit(limit), slices);
    var row :| row in rows && row.id == id && row.stored.created == tables[0][id].created;
    L.RowOfAPage(tables, Wanted(filter), true, EffectiveLimit(limit), slices, row);
    assert row == L.Row(id, tables[0][id]);
    forall i, j | 0 <= i < |rows| && 0 <= j < |rows| && rows[i] == rows[j]
      ensures i == j
    {
      BeforeIrreflexive(true, L.RowKey(rows[i]));
    }
  }
}
