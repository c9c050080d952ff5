/** The opaque cursors of the three directories: base64url over a JSON document.
    internal/api/media_directory.go:144-210, internal/api/audit_directory.go:198-261,
    internal/api/user_directory.go:146-272.

    time.Parse reads back what Format has written; the JSON is read by the reader of Json.
 */
module Cursors {
  import opened Base64
  import opened Json
  import opened Options
  import opened StorageKeys
  import opened Timestamps
  import Decimal
  import Int64
  import L = Listings
  import U = UserDirectory

  // ----- the documents -----

  /** The media and the audit cursor differ in the name of the time. */
  datatype Directory = Media | Audit

  datatype BoundDocument = BoundDocument(version: nat, at: string, id: string, filterHash: string, limit: nat)
  datatype UserDocument = UserDocument(createdAt: string, id: string)

  function TimeName(d: Directory): string {
    if d.Media? then "createdAt" else "occurredAt"
  }

  function BoundFields(d: Directory, doc: BoundDocument): seq<Field> {
    [NumberField("version", doc.version), TextField(TimeName(d), doc.at), TextField("id", doc.id),
     TextField("filterHash", doc.filterHash), NumberField("limit", doc.limit)]
  }

  function UserFields(doc: UserDocument): seq<Field> {
    [TextField("createdAt", doc.createdAt), TextField("id", doc.id)]
  }

  function NameOf(m: Member): string {
    if ValidMember(m) then PiecesText(m.key) else ""
  }

  /** null leaves a field as it is. */
  function TextOr(m: Member, before: string): Option<string> {
    if m.value.Null? then Some(before)
    else if ValidMember(m) && m.value.Text? then Some(PiecesText(m.value.pieces))
    else None
  }

  function NumberOr(m: Member, before: nat): Option<nat> {
    if m.value.Null? then Some(before) else if m.value.Number? then Some(m.value.n) else None
  }

  /** Decoding into the struct with unknown fields disallowed; the last of several values stays.
      (The decoder also takes names in other cases, and what it so accepts is never canonical.) */
  function FillBound(d: Directory, ms: seq<Member>, doc: BoundDocument): Option<BoundDocument> {
    if ms == [] then Some(doc)
    else
      var name := NameOf(ms[0]);
      var text := TextOr(ms[0], if name == "id" then doc.id else if name == "filterHash" then doc.filterHash
        else doc.at);
      var number := NumberOr(ms[0], if name == "version" then doc.version else doc.limit);
      if name == "version" && number.Some? then FillBound(d, ms[1..], doc.(version := number.value))
      else if name == TimeName(d) && text.Some? then FillBound(d, ms[1..], doc.(at := text.value))
      else if name == "id" && text.Some? then FillBound(d, ms[1..], doc.(id := text.value))
      else if name == "filterHash" && text.Some? then FillBound(d, ms[1..], doc.(filterHash := text.value))
      else if name == "limit" && number.Some? then FillBound(d, ms[1..], doc.(limit := number.value))
      else None
  }

  function ReadBound(d: Directory, document: Bytes): Option<BoundDocument> {
    var ms := ReadObject(document);
    if ms.None? then None else FillBound(d, ms.value, BoundDocument(0, "", "", "", 0))
  }

  /** One field into the user document: no name twice, no other name. */
  function FillOne(m: Member, seen: set<string>, doc: UserDocument): Option<UserDocument> {
    var name := NameOf(m);
    if name in seen then None
    else if name == "createdAt" then
      var text := TextOr(m, doc.createdAt);
      if text.None? then None else Some(doc.(createdAt := text.value))
    else if name == "id" then
      var text := TextOr(m, doc.id);
      if text.None? then None else Some(doc.(id := text.value))
    else None
  }

  function FillUser(ms: seq<Member>, seen: set<string>, doc: UserDocument): Option<UserDocument> {
    if ms == [] then Some(doc)
    else
      var next := FillOne(ms[0], seen, doc);
      if next.None? then None else FillUser(ms[1..], seen + {NameOf(ms[0])}, next.value)
  }

  function ReadUserDocument(document: Bytes): Option<UserDocument> {
    var ms := ReadObject(document);
    if ms.None? then None else FillUser(ms.value, {}, UserDocument("", ""))
  }

  /** What the token loop still has to do. */
  function RestOfDocument(rest: Bytes, first: bool, seen: set<string>, doc: UserDocument): Option<UserDocument> {
    var ms := ReadMembers(rest, first);
    if ms.Bad? || !Spaces(ms.rest) then None else FillUser(ms.value, seen, doc)
  }

  /** decodeUserCursorDocument: token by token. */
  method DecodeUserCursorDocument(document: Bytes) returns (r: Option<UserDocument>)
    ensures r == ReadUserDocument(document)
  {
    hide ReadMember, MemberStart, FillOne, SkipSpace, Spaces;
    var rest := SkipSpace(document);
    if rest == [] || rest[0] != OPEN {
      return None;
    }
    rest := rest[1..];
    var decoded, seenFields, first := UserDocument("", ""), {}, true;
    while !AtClose(rest)
      invariant RestOfDocument(rest, first, seenFields, decoded) == ReadUserDocument(document)
      decreases |rest|
    {
      var start := MemberStart(rest, first);
      if start.None? {
        return None;
      }
      var member := ReadMember(start.value);
      if member.Bad? {
        return None;
      }
      var next := FillOne(member.value, seenFields, decoded);
      if next.None? {
        return None;
      }
      decoded, seenFields := next.value, seenFields + {NameOf(member.value)};
      rest, first := member.rest, false;
    }
    if !Spaces(SkipSpace(rest)[1..]) {
      return None;
    }
    return Some(decoded);
  }

  // ----- times -----

  /** A text that is the canonical form of a UTC time. */
  ghost function ParseCanonical(text: string): (r: Option<Instant>)
    ensures r.Some? ==> Format(r.value) == text
  {
    if t: Instant :| Format(t) == text then Some(t) else None
  }

  lemma ParseFormat(t: Instant)
    ensures ParseCanonical(Format(t)) == Some(t)
  {
    hide Format;
    FormatInjective(ParseCanonical(Format(t)).value, t);
  }

  // ----- media and audit cursors -----

  const HASH_LENGTH := 32
  const MAXIMUM_LIMIT := 100
  const MAXIMUM_MEDIA_CURSOR_LENGTH := 1024

  datatype Cursor = Cursor(at: Instant, id: string, filterHash: Bytes, limit: nat)

  predicate ValidCursor(c: Cursor) {
    && c.at != ZERO_TIME && ValidMediaId(c.id)
    && |c.filterHash| == HASH_LENGTH && (exists i :: 0 <= i < HASH_LENGTH && c.filterHash[i] != 0)
    && 1 <= c.limit <= MAXIMUM_LIMIT
  }

  function DocumentOf(c: Cursor): BoundDocument {
    BoundDocument(1, Format(c.at), c.id, Encode(Url, c.filterHash), c.limit)
  }

  function EncodeCursor(d: Directory, c: Cursor): Option<string> {
    if ValidCursor(c) then Some(Encode(Url, BytesOf(PrintObject(BoundFields(d, DocumentOf(c)))))) else None
  }

  ghost function DecodeCursor(d: Directory, encoded: string): Option<Cursor> {
    if d.Media? && |encoded| > MAXIMUM_MEDIA_CURSOR_LENGTH then None
    else
      var document := Decode(Url, encoded);
      if document.Corrupt? then None
      else
        var decoded := ReadBound(d, document.bytes);
        if decoded.None? || decoded.value.version != 1 then None
        else
          var at := ParseCanonical(decoded.value.at);
          var hash := Decode(Url, decoded.value.filterHash);
          if at.None? || hash.Corrupt? || |hash.bytes| != HASH_LENGTH then None
          else
            var cursor := Cursor(at.value, decoded.value.id, hash.bytes, decoded.value.limit);
            if EncodeCursor(d, cursor) != Some(encoded) then None else Some(cursor)
  }

  /** A member that spells a field. */
  predicate Spells(m: Member, f: Field) {
    && ValidMember(m) && NameOf(m) == f.name
    && match f
       case TextField(_, text) => m.value.Text? && PiecesText(m.value.pieces) == text
       case NumberField(_, n) => m.value == Number(n)
  }

  lemma {:induction false} FieldsSpelled(fs: seq<Field>)
    requires forall f | f in fs :: PlainField(f)
    ensures |MembersOf(fs)| == |fs| && forall i | 0 <= i < |fs| :: Spells(MembersOf(fs)[i], fs[i])
  {
    hide Plainly, Plain, PiecesText, ValidPieces;
    if fs != [] {
      assert fs[0] in fs;
      PlainlyReads(fs[0].name);
      if fs[0].TextField? {
        PlainlyReads(fs[0].text);
      }
      FieldsSpelled(fs[1..]);
    }
  }

  predicate Fills(d: Directory, f: Field, before: BoundDocument, after: BoundDocument) {
    match f
    case NumberField(name, n) =>
      (name == "version" && after == before.(version := n)) || (name == "limit" && after == before.(limit := n))
    case TextField(name, text) =>
      || (name == TimeName(d) && after == before.(at := text))
      || (name == "id" && after == before.(id := text))
      || (name == "filterHash" && after == before.(filterHash := text))
  }

  lemma FillNext(d: Directory, ms: seq<Member>, i: nat, f: Field, before: BoundDocument, after: BoundDocument)
    requires i < |ms| && Spells(ms[i], f) && Fills(d, f, before, after)
    ensures FillBound(d, ms[i..], before) == FillBound(d, ms[i + 1..], after)
  {
    hide PiecesText, ValidPieces, NameOf;
    assert ms[i..][0] == ms[i] && ms[i..][1..] == ms[i + 1..];
  }

  predicate PlainDocument(doc: BoundDocument) {
    Plain(doc.at) && Plain(doc.id) && Plain(doc.filterHash) && doc.version <= Int64.MAX && doc.limit <= Int64.MAX
  }

  /** The printed document is read back, every field of it. */
  lemma BoundReadsBack(d: Directory, doc: BoundDocument)
    requires PlainDocument(doc)
    ensures ReadBound(d, BytesOf(PrintObject(BoundFields(d, doc)))) == Some(doc)
  {
    hide PrintObject, BytesOf, ReadObject, MembersOf, Plain, Spells, FillBound;
    var fs := BoundFields(d, doc);
    NamesArePlain(d);
    ReadPrinted(fs);
    FieldsSpelled(fs);
    var ms := MembersOf(fs);
    var d0 := BoundDocument(0, "", "", "", 0);
    var d1 := d0.(version := doc.version);
    var d2 := d1.(at := doc.at);
    var d3 := d2.(id := doc.id);
    var d4 := d3.(filterHash := doc.filterHash);
    assert ms[0..] == ms && ms[5..] == [];
    FillNext(d, ms, 0, fs[0], d0, d1);
    FillNext(d, ms, 1, fs[1], d1, d2);
    FillNext(d, ms, 2, fs[2], d2, d3);
    FillNext(d, ms, 3, fs[3], d3, d4);
    FillNext(d, ms, 4, fs[4], d4, doc);
    FillDone(d, doc);
    ReadsFilled(d, BytesOf(PrintObject(fs)), ms);
  }

  lemma FillDone(d: Directory, doc: BoundDocument)
    ensures FillBound(d, [], doc) == Some(doc)
  {
  }

  lemma ReadsFilled(d: Directory, document: Bytes, ms: seq<Member>)
    requires ReadObject(document) == Some(ms)
    ensures ReadBound(d, document) == FillBound(d, ms, BoundDocument(0, "", "", "", 0))
  {
  }

  lemma NamesArePlain(d: Directory)
    ensures Plain("version") && Plain(TimeName(d)) && Plain("id") && Plain("filterHash") && Plain("limit") &&
              Plain("createdAt")
  {
  }

  // ----- what the texts are made of -----

  lemma DigitIsPlain(a: Alphabet, c: char)
    requires DigitOf(a, c) >= 0
    ensures PlainChar(c)
  {
  }

  lemma EncodedIsPlain(b: Bytes)
    ensures Plain(Encode(Url, b))
  {
    hide DigitOf, PlainChar;
    DecodeDigitsEncode(Url, b);
    var s := Encode(Url, b);
    forall i | 0 <= i < |s|
      ensures PlainChar(s[i])
    {
      DigitIsPlain(Url, s[i]);
    }
  }

  lemma FractionIsPlain(nanos: int)
    requires 0 <= nanos < 1_000_000_000
    ensures (forall c | c in Fraction(nanos) :: PlainChar(c)) && |Fraction(nanos)| <= 10
  {
    assert Pow10(9) == 1_000_000_000;
    if nanos != 0 {
      var digits := Fixed(nanos, 9);
      forall c | c in Trimmed(digits)
        ensures c in digits
      {
        var i :| 0 <= i < |Trimmed(digits)| && Trimmed(digits)[i] == c;
        assert digits[i] == c;
      }
    }
  }

  lemma FormatIsPlain(t: Instant)
    ensures Plain(Format(t)) && |Format(t)| <= 30
  {
    hide Fraction, Fixed;
    assert Pow10(4) == 10_000 && Pow10(2) == 100;
    FractionIsPlain(t.nanos);
    assert forall c | c in Format(t) :: PlainChar(c);
    assert forall i | 0 <= i < |Format(t)| :: Format(t)[i] in Format(t);
  }

  lemma IdIsPlain(id: string)
    requires ValidMediaId(id)
    ensures Plain(id) && |id| == 36
  {
  }

  lemma ShortNumber(n: nat)
    requires n <= MAXIMUM_LIMIT
    ensures |Decimal.Print(n)| <= 3
  {
    assert n < 10 || n / 10 < 10 || n / 10 / 10 < 10;
  }

  lemma PrintedLength(d: Directory, doc: BoundDocument)
    requires |doc.at| <= 30 && |doc.id| == 36 && |doc.filterHash| <= 44 && doc.version <= MAXIMUM_LIMIT &&
               doc.limit <= MAXIMUM_LIMIT
    ensures |PrintObject(BoundFields(d, doc))| <= 300
  {
    hide Decimal.Print;
    ShortNumber(doc.version);
    ShortNumber(doc.limit);
    var fs := BoundFields(d, doc);
    assert |PrintFields(fs[5..], false)| == 1;
    assert fs[4..][1..] == fs[5..] && |PrintFields(fs[4..], false)| <= 20;
    assert fs[3..][1..] == fs[4..] && |PrintFields(fs[3..], false)| <= 100;
    assert fs[2..][1..] == fs[3..] && |PrintFields(fs[2..], false)| <= 160;
    assert fs[1..][1..] == fs[2..] && |PrintFields(fs[1..], false)| <= 240;
  }

  /** No cursor that the server issues is too long for it to take back. */
  lemma EncodedFits(d: Directory, c: Cursor)
    requires ValidCursor(c)
    ensures |EncodeCursor(d, c).value| <= MAXIMUM_MEDIA_CURSOR_LENGTH
  {
    hide Format, Encode, ValidMediaId, PrintObject, BoundFields;
    FormatIsPlain(c.at);
    EncodedLength(Url, c.filterHash);
    IdIsPlain(c.id);
    PrintedLength(d, DocumentOf(c));
    EncodedLength(Url, BytesOf(PrintObject(BoundFields(d, DocumentOf(c)))));
  }

  /** Every valid cursor comes back from its text... */
  lemma CursorRoundTrip(d: Directory, c: Cursor)
    requires ValidCursor(c)
    ensures EncodeCursor(d, c).Some? && DecodeCursor(d, EncodeCursor(d, c).value) == Some(c)
  {
    hide Format, Encode, Decode, ValidMediaId, PrintObject, BoundFields, ReadBound, Plain, BytesOf;
    var doc := DocumentOf(c);
    FormatIsPlain(c.at);
    IdIsPlain(c.id);
    EncodedIsPlain(c.filterHash);
    BoundReadsBack(d, doc);
    DecodeEncode(Url, BytesOf(PrintObject(BoundFields(d, doc))));
    DecodeEncode(Url, c.filterHash);
    ParseFormat(c.at);
    EncodedFits(d, c);
  }

  /** ...and is accepted in that text alone. */
  lemma CursorIsCanonical(d: Directory, encoded: string, c: Cursor)
    ensures DecodeCursor(d, encoded) == Some(c) <==> ValidCursor(c) && EncodeCursor(d, c) == Some(encoded)
  {
    hide Format, Encode, Decode, ValidMediaId, ReadBound;
    if ValidCursor(c) && EncodeCursor(d, c) == Some(encoded) {
      CursorRoundTrip(d, c);
    }
  }

  // ----- user cursors -----

  function EncodeUserCursor(c: L.Position): Option<string> {
    if U.ValidCursor(c) then
      Some(Encode(Url, BytesOf(PrintObject(UserFields(UserDocument(Format(c.created), c.id))))))
    else None
  }

  ghost function DecodeUserCursor(encoded: string): Option<L.Position> {
    if encoded == "" then None
    else
      var document := Decode(Url, encoded);
      if document.Corrupt? then None
      else
        var decoded := ReadUserDocument(document.bytes);
        if decoded.None? then None
        else
          var createdAt := ParseCanonical(decoded.value.createdAt);
          if createdAt.None? then None
          else
            var cursor := L.Position(createdAt.value, decoded.value.id);
            if U.ValidCursor(cursor) then Some(cursor) else None
  }

  /** The two fields, each once, in either order. */
  predicate IsUserDocument(ms: seq<Member>, createdAt: string, id: string) {
    && |ms| == 2
    && ((Spells(ms[0], TextField("createdAt", createdAt)) && Spells(ms[1], TextField("id", id)))
        || (Spells(ms[0], TextField("id", id)) && Spells(ms[1], TextField("createdAt", createdAt))))
  }

  lemma FillStep(ms: seq<Member>, seen: set<string>, doc: UserDocument)
    requires ms != []
    ensures var next := FillOne(ms[0], seen, doc);
            FillUser(ms, seen, doc) == if next.None? then None
              else FillUser(ms[1..], seen + {NameOf(ms[0])}, next.value)
  {
  }

  lemma FillEnd(seen: set<string>, doc: UserDocument)
    ensures FillUser([], seen, doc) == Some(doc)
  {
  }

  lemma TwoFieldsFill(ms: seq<Member>, createdAt: string, id: string)
    requires IsUserDocument(ms, createdAt, id)
    ensures FillUser(ms, {}, UserDocument("", "")) == Some(UserDocument(createdAt, id))
  {
    hide PiecesText, ValidPieces, NameOf, FillUser;
    var none := UserDocument("", "");
    FillStep(ms, {}, none);
    var one := FillOne(ms[0], {}, none).value;
    FillStep(ms[1..], {} + {NameOf(ms[0])}, one);
    assert ms[1..][0] == ms[1] && ms[1..][1..] == [];
    assert NameOf(ms[0]) != NameOf(ms[1]);
    FillEnd({} + {NameOf(ms[0])} + {NameOf(ms[1])}, UserDocument(createdAt, id));
  }

  lemma FillsOneField(m: Member, seen: set<string>, doc: UserDocument)
    requires FillOne(m, seen, doc).Some?
    ensures var name, next := NameOf(m), FillOne(m, seen, doc).value;
            && name !in seen && (name == "createdAt" || name == "id")
            && (name == "createdAt" ==>
                   next.id == doc.id &&
                   (next.createdAt == doc.createdAt || Spells(m, TextField(name, next.createdAt))))
            && (name == "id" ==>
                   next.createdAt == doc.createdAt &&
                   (next.id == doc.id || Spells(m, TextField(name, next.id))))
  {
    hide PiecesText, ValidPieces, NameOf;
  }

  /** A filled document with neither field empty was made of just those two. */
  lemma FilledByTwo(ms: seq<Member>, doc: UserDocument)
    requires FillUser(ms, {}, UserDocument("", "")) == Some(doc) && doc.createdAt != "" && doc.id != ""
    ensures IsUserDocument(ms, doc.createdAt, doc.id)
  {
    hide NameOf, FillUser, FillOne, Spells;
    var none := UserDocument("", "");
    if ms == [] {
      FillEnd({}, none);
    }
    FillStep(ms, {}, none);
    FillsOneField(ms[0], {}, none);
    var one, seen := FillOne(ms[0], {}, none).value, {} + {NameOf(ms[0])};
    if ms[1..] == [] {
      FillEnd(seen, one);
    }
    FillStep(ms[1..], seen, one);
    FillsOneField(ms[1], seen, one);
    var two, both := FillOne(ms[1], seen, one).value, seen + {NameOf(ms[1])};
    var rest := ms[1..][1..];
    if rest != [] {
      FillStep(rest, both, two);
      if FillOne(rest[0], both, two).Some? {
        FillsOneField(rest[0], both, two);
      }
    } else {
      FillEnd(both, two);
    }
  }

  /** A base64url text whose bytes are one JSON object of the two named texts, spaced and escaped in
      any way. */
  ghost predicate WritesUserCursor(encoded: string, c: L.Position, ms: seq<Member>) {
    && Decode(Url, encoded).Bytes? && ObjectText(Decode(Url, encoded).bytes, ms)
    && IsUserDocument(ms, Format(c.created), c.id)
  }

  lemma EmptyDecodesToNothing()
    ensures Decode(Url, "") == Decoded.Bytes([]) && ReadObject([]) == None
  {
  }

  /** Which texts decodeUserCursor accepts, and as what. */
  lemma UserCursorExactly(encoded: string, c: L.Position)
    ensures DecodeUserCursor(encoded) == Some(c) <==> U.ValidCursor(c) && exists ms :: WritesUserCursor(encoded, c, ms)
  {
    hide Format, Decode, ReadObject, ObjectText, FillUser, IsUserDocument, ValidMediaId;
    if DecodeUserCursor(encoded) == Some(c) {
      var bytes := Decode(Url, encoded).bytes;
      var ms := ReadObject(bytes).value;
      ReadObjectSound(bytes);
      var doc := ReadUserDocument(bytes).value;
      FormatNotEmpty(c.created);
      IdNotEmpty(c.id);
      FilledByTwo(ms, doc);
      assert WritesUserCursor(encoded, c, ms);
    }
    if U.ValidCursor(c) && exists ms :: WritesUserCursor(encoded, c, ms) {
      var ms :| WritesUserCursor(encoded, c, ms);
      var bytes := Decode(Url, encoded).bytes;
      MembersAreValid(ms, Format(c.created), c.id);
      ReadObjectComplete(bytes, ms);
      TwoFieldsFill(ms, Format(c.created), c.id);
      ParseFormat(c.created);
      EmptyDecodesToNothing();
    }
  }

  lemma FormatNotEmpty(t: Instant)
    ensures Format(t) != ""
  {
    hide Fixed, Fraction;
  }

  lemma IdNotEmpty(id: string)
    requires ValidMediaId(id)
    ensures id != ""
  {
  }

  lemma MembersAreValid(ms: seq<Member>, createdAt: string, id: string)
    requires IsUserDocument(ms, createdAt, id)
    ensures forall m | m in ms :: ValidMember(m)
  {
    hide PiecesText, ValidPieces, NameOf;
    assert forall m | m in ms :: m == ms[0] || m == ms[1];
  }

  /** Every valid user cursor comes back from its text. */
  lemma UserCursorRoundTrip(c: L.Position)
    requires U.ValidCursor(c)
    ensures EncodeUserCursor(c).Some? && DecodeUserCursor(EncodeUserCursor(c).value) == Some(c)
  {
    hide Format, Decode, Encode, PrintObject, ReadObject, ObjectText, ValidMediaId, Plain, Spells;
    var fs := UserFields(UserDocument(Format(c.created), c.id));
    var encoded, bytes := EncodeUserCursor(c).value, BytesOf(PrintObject(fs));
    FormatIsPlain(c.created);
    IdIsPlain(c.id);
    NamesArePlain(Media);
    ReadPrinted(fs);
    ReadObjectSound(bytes);
    FieldsSpelled(fs);
    DecodeEncode(Url, bytes);
    assert WritesUserCursor(encoded, c, MembersOf(fs));
    UserCursorExactly(encoded, c);
  }
}
