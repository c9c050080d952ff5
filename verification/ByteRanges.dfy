/** One byte-range request from end to end: the client prints a Range header and checks the answer
    (internal/client/media_content.go:27-183, 242-309), the server selects an interval and describes
    it (internal/api/content_range.go, internal/api/media_content.go:86-185).  Sections 14.1.2 and
    14.4 of RFC 9110.  Sizes and offsets are int64; Exact stands where Go computes one, and nothing
    wraps around. */
module ByteRanges {
  import opened Texts
  import opened Decimal
  import Int64

  /** An int64 operation whose exact result fits. */
  function Exact(x: int): (r: int)
    requires Int64.Fits(x)
    ensures r == x
  {
    Int64.Wrap(x)
  }

  // ----- the server's side -----

  datatype Selection = Invalid | Whole(length: int) | Partial(start: int, length: int)

  /** strings.EqualFold against "bytes": the long s folds to s. */
  predicate FoldsTo(c: char, lower: char)
    requires 'a' <= lower <= 'z'
  {
    c == lower || c == lower - ' ' || (lower == 's' && c == '\U{17F}')
  }

  predicate IsBytesUnit(unit: string) {
    |unit| == 5 && FoldsTo(unit[0], 'b') && FoldsTo(unit[1], 'y') && FoldsTo(unit[2], 't') && FoldsTo(unit[3], 'e') &&
      FoldsTo(unit[4], 's')
  }

  function SelectInterval(first: string, last: string, size: int): Selection
    requires 0 < size <= Int64.MAX
  {
    if first == "" then
      var suffix := ParseNumber(last);
      if suffix.NotANumber? || suffix.value == 0 then Invalid
      else
        var length := if suffix.value > size then size else suffix.value;
        Partial(Exact(size - length), length)
    else if last == "" then
      var start := ParseNumber(first);
      if start.NotANumber? || start.value >= size then Invalid
      else Partial(start.value, Exact(size - start.value))
    else
      var start := ParseNumber(first);
      if start.NotANumber? || start.value >= size then Invalid
      else
        var end := ParseNumber(last);
        if end.NotANumber? || end.value < start.value then Invalid
        else
          var e := if end.value >= size then Exact(size - 1) else end.value;
          Partial(start.value, Exact(Exact(e - start.value) + 1))
  }

  function ParseContentRange(headerValues: seq<string>, size: int): Selection
    requires 0 <= size <= Int64.MAX
  {
    if |headerValues| == 0 then Whole(size)
    else if |headerValues| != 1 || size <= 0 then Invalid
    else
      var unit := Cut(headerValues[0], '=');
      if !unit.found || !IsBytesUnit(unit.before) || unit.after == "" || ',' in unit.after then Invalid
      else
        var interval := Cut(unit.after, '-');
        if !interval.found || '-' in interval.after then Invalid
        else SelectInterval(interval.before, interval.after, size)
  }

  /** The header values that select an interval: one of the unit, `=`, and two runs of digits about a
      hyphen of which at least one is not empty. */
  predicate SelectsBetween(header: string, unit: string, first: string, last: string, size: int) {
    header == unit + "=" + first + "-" + last && IsBytesUnit(unit) && SelectsBytes(first, last, size)
  }

  predicate SelectsBytes(first: string, last: string, size: int) {
    && AllDigits(first) && AllDigits(last)
    && if first == "" then last != "" && 0 < Value(last) <= Int64.MAX
       else
         && Value(first) < size
         && (last != "" ==> Value(first) <= Value(last) <= Int64.MAX)
  }

  lemma SelectIntervalExactly(first: string, last: string, size: int)
    requires 0 < size <= Int64.MAX
    ensures SelectInterval(first, last, size).Partial? <==> SelectsBytes(first, last, size)
    ensures var s := SelectInterval(first, last, size);
            !s.Whole? && (s.Partial? ==> 0 <= s.start && 1 <= s.length && s.start + s.length <= size)
  {
    hide Int64.Wrap;
  }

  lemma UnitHasNoEquals(unit: string)
    requires IsBytesUnit(unit)
    ensures '=' !in unit
  {
    assert unit == [unit[0], unit[1], unit[2], unit[3], unit[4]];
  }

  lemma DigitsLack(s: string, c: char)
    requires AllDigits(s) && !IsDigit(c)
    ensures c !in s
  {
  }

  lemma HeaderCuts(unit: string, first: string, last: string, size: int)
    requires IsBytesUnit(unit) && AllDigits(first) && AllDigits(last) && 0 < size <= Int64.MAX
    ensures ParseContentRange([unit + "=" + first + "-" + last], size) == SelectInterval(first, last, size)
  {
    hide SelectInterval, Cut;
    var specification := first + "-" + last;
    assert unit + "=" + first + "-" + last == unit + ['='] + specification;
    UnitHasNoEquals(unit);
    CutJoined(unit, '=', specification);
    DigitsLack(first, '-');
    DigitsLack(last, '-');
    DigitsLack(first, ',');
    DigitsLack(last, ',');
    CutJoined(first, '-', last);
  }

  /** The server accepts exactly those values... */
  lemma AcceptedRanges(header: string, size: int)
    requires 0 < size <= Int64.MAX
    ensures ParseContentRange([header], size).Partial? <==>
              exists unit, first, last :: SelectsBetween(header, unit, first, last, size)
  {
    hide SelectInterval, SelectsBytes, IsBytesUnit, ParseContentRange, Cut;
    if ParseContentRange([header], size).Partial? {
      ParsedParts(header, size);
      var unit := Cut(header, '=');
      var interval := Cut(unit.after, '-');
      SelectIntervalExactly(interval.before, interval.after, size);
      assert header == unit.before + "=" + interval.before + "-" + interval.after;
      assert SelectsBetween(header, unit.before, interval.before, interval.after, size);
    }
    if unit, first, last :| SelectsBetween(header, unit, first, last, size) {
      SelectIntervalExactly(first, last, size);
      BytesAreDigits(first, last, size);
      HeaderCuts(unit, first, last, size);
    }
  }

  /** ...and then selects a nonempty interval inside the file; it serves the whole file when there is
      no Range header at all, and never for a malformed one. */
  lemma SelectionShape(headerValues: seq<string>, size: int)
    requires 0 <= size <= Int64.MAX
    ensures var s := ParseContentRange(headerValues, size);
            && (s.Whole? <==> headerValues == [])
            && (s.Whole? ==> s.length == size)
            && (s.Partial? ==> |headerValues| == 1 && 0 <= s.start && 1 <= s.length && s.start + s.length <= size)
  {
    hide SelectInterval, ParseContentRange;
    if |headerValues| == 1 && size > 0 {
      assert headerValues == [headerValues[0]];
      ParsedParts(headerValues[0], size);
      var unit := Cut(headerValues[0], '=');
      var interval := Cut(unit.after, '-');
      SelectIntervalExactly(interval.before, interval.after, size);
    } else {
      NoRange(headerValues, size);
    }
  }

  lemma NoRange(headerValues: seq<string>, size: int)
    requires 0 <= size <= Int64.MAX && (|headerValues| != 1 || size == 0)
    ensures ParseContentRange(headerValues, size) == if headerValues == [] then Whole(size) else Invalid
  {
  }

  lemma BytesAreDigits(first: string, last: string, size: int)
    requires SelectsBytes(first, last, size)
    ensures AllDigits(first) && AllDigits(last)
  {
  }

  lemma ParsedParts(header: string, size: int)
    requires 0 < size <= Int64.MAX
    ensures var s := ParseContentRange([header], size);
            s == Invalid ||
            (var unit := Cut(header, '=');
             var interval := Cut(unit.after, '-');
             unit.found && IsBytesUnit(unit.before) && interval.found &&
               s == SelectInterval(interval.before, interval.after, size))
  {
    hide SelectInterval, IsBytesUnit, Cut;
  }

  // ----- the client's side -----

  /** Values of the client's ByteRange; the constructors let no others be made. */
  datatype ByteRange = Complete | Bounded(start: int, end: int) | OpenEnded(start: int) | Suffix(length: int)

  predicate ValidRange(r: ByteRange) {
    match r
    case Complete => true
    case Bounded(start, end) => 0 <= start <= end <= Int64.MAX
    case OpenEnded(start) => 0 <= start <= Int64.MAX
    case Suffix(length) => 0 < length <= Int64.MAX
  }

  function HeaderValues(r: ByteRange): seq<string>
    requires ValidRange(r)
  {
    match r
    case Complete => []
    case Bounded(start, end) => ["bytes=" + Print(start) + "-" + Print(end)]
    case OpenEnded(start) => ["bytes=" + Print(start) + "-"]
    case Suffix(length) => ["bytes=-" + Print(length)]
  }

  datatype Returned = Returned(start: int, end: int, total: int)
  datatype ReturnedResult = BadRange | Ok(range: Returned)

  predicate ValidReturned(q: Returned) {
    0 <= q.start <= q.end < q.total <= Int64.MAX
  }

  function ParseReturnedContentRange(header: string, length: int): (r: ReturnedResult)
    ensures r.Ok? ==> ValidReturned(r.range)
  {
    var unit := Cut(header, ' ');
    var interval := Cut(unit.after, '/');
    var bounds := Cut(interval.before, '-');
    if !unit.found || unit.before != "bytes" || !interval.found || !bounds.found then BadRange
    else
      var start, end, total := ParseNumber(bounds.before), ParseNumber(bounds.after), ParseNumber(interval.after);
      if start.NotANumber? || end.NotANumber? || total.NotANumber? then BadRange
      else if end.value < start.value || total.value <= end.value ||
        Exact(Exact(end.value - start.value) + 1) != length then BadRange
      else Ok(Returned(start.value, end.value, total.value))
  }

  predicate Matches(r: ByteRange, q: Returned)
    requires ValidReturned(q)
  {
    match r
    case Complete => false
    case Bounded(start, end) => q.start == start && q.end == if end >= q.total then Exact(q.total - 1) else end
    case OpenEnded(start) => q.start == start && q.end == Exact(q.total - 1)
    case Suffix(length) =>
      q.end == Exact(q.total - 1) && Exact(Exact(q.end - q.start) + 1) == if length > q.total then q.total else length
  }

  // ----- what the two agree on -----

  /** The first and last byte that a range asks for in a file of the given size. */
  function FirstByte(r: ByteRange, size: int): int {
    match r
    case Complete => 0
    case Bounded(start, _) => start
    case OpenEnded(start) => start
    case Suffix(length) => if length >= size then 0 else size - length
  }

  function LastByte(r: ByteRange, size: int): int {
    if r.Bounded? && r.end < size then r.end else size - 1
  }

  lemma BytesUnit()
    ensures IsBytesUnit("bytes")
  {
  }

  /** The server takes a printed range unless its first byte lies at or past the end, and selects
      just the bytes asked for. */
  lemma ServerSelectsWhatWasAsked(r: ByteRange, size: int)
    requires ValidRange(r) && !r.Complete? && 0 < size <= Int64.MAX
    ensures var s := ParseContentRange(HeaderValues(r), size);
            if FirstByte(r, size) >= size then s == Invalid
            else s == Partial(FirstByte(r, size), LastByte(r, size) - FirstByte(r, size) + 1)
  {
    hide ParseContentRange, Print, ParseNumber, IsBytesUnit;
    BytesUnit();
    match r
    case Bounded(start, end) =>
      ParsePrint(start);
      ParsePrint(end);
      assert HeaderValues(r)[0] == "bytes" + "=" + Print(start) + "-" + Print(end);
      HeaderCuts("bytes", Print(start), Print(end), size);
    case OpenEnded(start) =>
      ParsePrint(start);
      assert HeaderValues(r)[0] == "bytes" + "=" + Print(start) + "-" + "";
      HeaderCuts("bytes", Print(start), "", size);
    case Suffix(length) =>
      ParsePrint(length);
      assert HeaderValues(r)[0] == "bytes" + "=" + "" + "-" + Print(length);
      HeaderCuts("bytes", "", Print(length), size);
  }

  /** The Content-Range header of writeContentHeaders. */
  function PrintContentRange(start: nat, last: nat, size: nat): string {
    "bytes " + Print(start) + "-" + Print(last) + "/" + Print(size)
  }

  lemma ContentRangeRoundTrip(start: nat, last: nat, size: nat)
    requires start <= last < size <= Int64.MAX
    ensures ParseReturnedContentRange(PrintContentRange(start, last, size), last - start + 1) ==
              Ok(Returned(start, last, size))
  {
    hide Print, ParseNumber, Cut;
    var interval := Print(start) + "-" + Print(last);
    var rest := interval + "/" + Print(size);
    assert PrintContentRange(start, last, size) == "bytes" + [' '] + rest;
    CutJoined("bytes", ' ', rest);
    DigitsLack(Print(start), '/');
    DigitsLack(Print(last), '/');
    CutJoined(interval, '/', Print(size));
    DigitsLack(Print(start), '-');
    CutJoined(Print(start), '-', Print(last));
    ParsePrint(start);
    ParsePrint(last);
    ParsePrint(size);
  }

  /** Of all valid intervals with the total of the file, `matches` accepts the selected one alone, and
      none when the first byte lies past the end. */
  lemma MatchesExactlyTheSelection(r: ByteRange, q: Returned)
    requires ValidRange(r) && !r.Complete? && ValidReturned(q)
    ensures Matches(r, q) <==>
              FirstByte(r, q.total) < q.total && q.start == FirstByte(r, q.total) &&
              q.end == LastByte(r, q.total)
  {
  }

  // ----- a request and its answer -----

  type Bytes = seq<bv8>
  datatype Response = Response(status: int, contentLength: string, contentRange: string, body: Bytes)

  /** What `serve` answers for a file: no body to HEAD. */
  function Answer(content: Bytes, headerValues: seq<string>, head: bool): Response
    requires |content| <= Int64.MAX
  {
    var size := |content|;
    match ParseContentRange(headerValues, size)
    case Invalid => Response(416, "", "bytes */" + Print(size), [])
    case Whole(length) => Response(200, Print(size), "", if head then [] else content)
    case Partial(start, length) =>
      assert 0 <= start && 1 <= length && start + length <= size by { SelectionShape(headerValues, size); }
      Response(206, Print(length), PrintContentRange(start, start + length - 1, size), if head then []
        else content[start..start + length])
  }

  /** An open file with its read position. */
  class ContentReader {
    const content: Bytes
    var position: int
    ghost var faults: nat

    constructor (content: Bytes)
      ensures this.content == content && position == 0 && faults == 0
    {
      this.content, position, faults := content, 0, 0;
    }

    method Seek(offset: int) returns (at: int, ok: bool)
      requires offset >= 0
      modifies this
      ensures ok ==> at == position == offset
      ensures faults >= old(faults) && (faults == old(faults) ==> ok)
    {
      ok := *;
      faults := faults + if ok then 0 else 1;
      position := if ok then offset else position;
      at := position;
    }

    /** io.CopyN to the response, which may break off. */
    method CopyN(n: int) returns (copied: Bytes)
      requires 0 <= position && 0 <= n && position + n <= |content|
      modifies this
      ensures copied <= content[old(position)..old(position) + n] && position == old(position) + |copied|
      ensures faults >= old(faults) && (faults == old(faults) ==> |copied| == n)
    {
      var count: nat :| count <= n;
      faults := faults + if count < n then 1 else 0;
      copied := content[position..position + count];
      position := position + count;
    }
  }

  /** A recorded access, of which there is at most one of each kind for a session and a medium. */
  datatype Access = Access(session: string, media: string, success: bool)

  class AccessLog {
    var accesses: set<Access>
    ghost var faults: nat

    method AppendOnce(access: Access) returns (ok: bool)
      modifies this
      ensures accesses == old(accesses) + if ok then {access} else {}
      ensures faults >= old(faults) && (faults == old(faults) ==> ok)
    {
      ok := *;
      faults := faults + if ok then 0 else 1;
      accesses := accesses + if ok then {access} else {};
    }
  }

  const InternalError := Response(500, "", "", [])

  /** The answer of which only the first bytes of the body arrive. */
  function Arrived(response: Response, count: nat): Response
    requires count <= |response.body|
  {
    response.(body := response.body[..count])
  }

  /** serve, once the content is open.  It answers as it should or with an internal error; content
      leaves the server only when the access is on record, and then a broken connection can only take
      away the end of it. */
  method Serve(reader: ContentReader, log: AccessLog, session: string, media: string, headerValues: seq<string>,
        head: bool)
    returns (response: Response)
    requires reader.position == 0 && |reader.content| <= Int64.MAX
    modifies reader, log
    ensures var answer := Answer(reader.content, headerValues, head);
            && (response == InternalError || (|response.body| <= |answer.body| &&
                 response == Arrived(answer, |response.body|)))
            && (reader.faults == old(reader.faults) && log.faults == old(log.faults) ==> response == answer)
    ensures reader.faults >= old(reader.faults) && log.faults >= old(log.faults)
    ensures response.status == 200 || response.status == 206 ==>
              log.accesses == old(log.accesses) + {Access(session, media, true)}
    ensures response.status == 416 ==> log.accesses == old(log.accesses)
    ensures response == InternalError ==> log.accesses <= old(log.accesses) + {Access(session, media, false)}
  {
    hide ParseContentRange, Print, PrintContentRange;
    var size := |reader.content|;
    var selected := ParseContentRange(headerValues, size);
    SelectionShape(headerValues, size);
    if selected.Invalid? {
      return Response(416, "", "bytes */" + Print(size), []);
    }
    var start := if selected.Whole? then 0 else selected.start;
    if !head && start > 0 {
      var offset, found := reader.Seek(start);
      if !found || offset != start {
        var noted := log.AppendOnce(Access(session, media, false));
        return InternalError;
      }
    }
    var recorded := log.AppendOnce(Access(session, media, true));
    if !recorded {
      return InternalError;
    }
    response := Response(
      if selected.Partial? then 206 else 200,
      Print(selected.length),
      if selected.Partial? then PrintContentRange(start, Exact(Exact(start + selected.length) - 1), size) else "",
      []);
    if head {
      return;
    }
    var body := reader.CopyN(selected.length);
    response := response.(body := body);
  }

  datatype Received = Refused | Content(bytes: Bytes, range: ReturnedResult)

  /** StreamMediaContent's handling of the status, the length and the range; its other header checks
      do not depend on the range. */
  function Receive(r: ByteRange, response: Response): Received {
    var length := ParseNumber(response.contentLength);
    if response.status != (if r.Complete? then 200 else 206) then Refused
    else if length.NotANumber? || length.value <= 0 || length.value > |response.body| then Refused
    else if r.Complete? then
      (if response.contentRange != "" then Refused else Content(response.body[..length.value], BadRange))
    else
      var returned := ParseReturnedContentRange(response.contentRange, length.value);
      if returned.BadRange? || !Matches(r, returned.range) then Refused
      else Content(response.body[..length.value], returned)
  }

  /** The client ends up with exactly the bytes it asked for, or is refused: when the file has none of
      them, and when some of the answer did not arrive. */
  lemma ClientGetsWhatItAskedFor(r: ByteRange, content: Bytes, arrived: nat)
    requires ValidRange(r) && 0 < |content| <= Int64.MAX
    requires arrived <= |Answer(content, HeaderValues(r), false).body|
    ensures var first, last, size := FirstByte(r, |content|), LastByte(r, |content|), |content|;
            var received := Receive(r, Arrived(Answer(content, HeaderValues(r), false), arrived));
            if first >= size then received == Refused
            else
              && 0 <= first <= last < size
              && received == if arrived < last - first + 1 then Refused
                             else Content(content[first..last + 1], if r.Complete? then BadRange
                               else Ok(Returned(first, last, size)))
  {
    hide ParseContentRange, Print, ParseNumber, ParseReturnedContentRange, PrintContentRange, Matches;
    var size := |content|;
    if r.Complete? {
      ParsePrint(size);
      NoRange([], size);
      assert content[..size] == content == content[0..size];
    } else {
      ServerSelectsWhatWasAsked(r, size);
      var first, last := FirstByte(r, size), LastByte(r, size);
      if first < size {
        ParsePrint(last - first + 1);
        ContentRangeRoundTrip(first, last, size);
        MatchesExactlyTheSelection(r, Returned(first, last, size));
        var body := content[first..last + 1];
        assert body[..last - first + 1] == body;
      }
    }
  }
}
