/** The part of JSON (RFC 8259) that the cursors are: objects of named texts and decimal numbers, as
    encoding/json writes and reads them.

    Bytes outside ASCII stand for themselves: what UTF-8 makes of them is never ASCII, and neither are
    the halves of a surrogate pair, so none of them occurs in an accepted cursor.  Other values (true,
    nested ones, signed and fractional numbers) are refused here; the cursors' fields cannot take them.
 */
module Json {
  import opened Base64
  import opened Options
  import Decimal
  import Int64

  const QUOTE: Byte := 34
  const COMMA: Byte := 44
  const COLON: Byte := 58
  const BACKSLASH: Byte := 92
  const OPEN: Byte := 123
  const CLOSE: Byte := 125

  datatype Read<+T> = Bad | Read(value: T, rest: Bytes)

  function ByteOf(c: char): Byte {
    if c as int < 256 then c as int else 63
  }

  function BytesOf(s: string): Bytes {
    seq(|s|, i requires 0 <= i < |s| => ByteOf(s[i]))
  }

  // ----- white space -----

  predicate IsSpace(b: Byte) {
    b == 32 || b == 9 || b == 10 || b == 13
  }

  predicate Spaces(s: Bytes) {
    forall i | 0 <= i < |s| :: IsSpace(s[i])
  }

  function SkipSpace(s: Bytes): (r: Bytes)
    ensures |r| <= |s| && (r != [] ==> !IsSpace(r[0]))
  {
    if s != [] && IsSpace(s[0]) then SkipSpace(s[1..]) else s
  }

  lemma {:induction false} SkipSpaces(a: Bytes, r: Bytes)
    requires Spaces(a) && (r != [] ==> !IsSpace(r[0]))
    ensures SkipSpace(a + r) == r
  {
    if a == [] {
      assert a + r == r;
    } else {
      assert (a + r)[1..] == a[1..] + r;
      SkipSpaces(a[1..], r);
    }
  }

  lemma {:induction false} SkippedSpaces(s: Bytes) returns (a: Bytes)
    ensures Spaces(a) && s == a + SkipSpace(s)
  {
    if s != [] && IsSpace(s[0]) {
      a := SkippedSpaces(s[1..]);
      assert s == [s[0]] + a + SkipSpace(s[1..]);
      a := [s[0]] + a;
    } else {
      a := [];
    }
  }

  // ----- strings -----

  /** One character as it is spelled: itself, a short escape, or four hexadecimal digits. */
  datatype Piece = Raw(b: Byte) | Short(letter: Byte) | Hex(digits: Bytes)
  type Pieces = seq<Piece>

  function HexValue(b: Byte): (v: int)
    ensures -1 <= v < 16
  {
    if 48 <= b <= 57 then b - 48 else if 65 <= b <= 70 then b - 55 else if 97 <= b <= 102 then b - 87 else -1
  }

  /** The escapes " \ / b f n r t. */
  predicate IsShort(b: Byte) {
    b == 34 || b == 92 || b == 47 || b == 98 || b == 102 || b == 110 || b == 114 || b == 116
  }

  predicate ValidPiece(p: Piece) {
    match p
    case Raw(b) => b >= 32 && b != QUOTE && b != BACKSLASH
    case Short(letter) => IsShort(letter)
    case Hex(digits) => |digits| == 4 && forall i | 0 <= i < 4 :: HexValue(digits[i]) >= 0
  }

  predicate ValidPieces(ps: Pieces) {
    forall i | 0 <= i < |ps| :: ValidPiece(ps[i])
  }

  function PieceBytes(p: Piece): Bytes {
    match p
    case Raw(b) => [b]
    case Short(letter) => [BACKSLASH, letter]
    case Hex(digits) => [BACKSLASH, 117] + digits
  }

  function PiecesBytes(ps: Pieces): Bytes {
    if ps == [] then [] else PieceBytes(ps[0]) + PiecesBytes(ps[1..])
  }

  function HexChar(digits: Bytes): char
    requires |digits| == 4 && forall i | 0 <= i < 4 :: HexValue(digits[i]) >= 0
  {
    var code := ((HexValue(digits[0]) * 16 + HexValue(digits[1])) * 16 + HexValue(digits[2])) * 16 +
      HexValue(digits[3]);
    if 0xD800 <= code < 0xE000 then '\U{FFFD}' else code as char
  }

  function ShortChar(letter: Byte): char {
    if letter == 98 then '\U{8}' else if letter == 102 then '\U{C}' else if letter == 110 then '\n'
    else if letter == 114 then '\r' else if letter == 116 then '\t' else letter as char
  }

  function PieceChar(p: Piece): char
    requires ValidPiece(p)
  {
    match p
    case Raw(b) => b as char
    case Short(letter) => ShortChar(letter)
    case Hex(digits) => HexChar(digits)
  }

  function PiecesText(ps: Pieces): string
    requires ValidPieces(ps)
  {
    seq(|ps|, i requires 0 <= i < |ps| => PieceChar(ps[i]))
  }

  function ReadPiece(s: Bytes): (r: Read<Piece>)
    ensures r.Read? ==> |r.rest| < |s| && ValidPiece(r.value)
  {
    if s == [] || s[0] < 32 || s[0] == QUOTE then Bad
    else if s[0] != BACKSLASH then Read(Raw(s[0]), s[1..])
    else if |s| < 2 then Bad
    else if IsShort(s[1]) then Read(Short(s[1]), s[2..])
    else if s[1] == 117 && |s| >= 6 && ValidPiece(Hex(s[2..6])) then Read(Hex(s[2..6]), s[6..])
    else Bad
  }

  /** Up to and with the closing quote. */
  function ReadPieces(s: Bytes): (r: Read<Pieces>)
    ensures r.Read? ==> |r.rest| < |s| && ValidPieces(r.value)
    decreases |s|
  {
    if s != [] && s[0] == QUOTE then Read([], s[1..])
    else
      var piece := ReadPiece(s);
      if piece.Bad? then Bad
      else
        var more := ReadPieces(piece.rest);
        if more.Bad? then Bad else Read([piece.value] + more.value, more.rest)
  }

  lemma ReadPieceExactly(s: Bytes, p: Piece, rest: Bytes)
    ensures ReadPiece(s) == Read(p, rest) <==> ValidPiece(p) && s == PieceBytes(p) + rest
  {
    if ValidPiece(p) && s == PieceBytes(p) + rest {
      match p
      case Raw(b) => assert s[1..] == rest;
      case Short(letter) => assert s[2..] == rest;
      case Hex(digits) => assert s[2..6] == digits && s[6..] == rest;
    }
    if ReadPiece(s) == Read(p, rest) && p.Hex? {
      assert s == [BACKSLASH, 117] + s[2..6] + s[6..];
    }
  }

  lemma {:induction false} ReadPiecesSound(s: Bytes)
    requires ReadPieces(s).Read?
    ensures s == PiecesBytes(ReadPieces(s).value) + [QUOTE] + ReadPieces(s).rest
    decreases |s|
  {
    hide ReadPiece, PieceBytes, ValidPiece;
    if s[0] == QUOTE {
      assert s == [QUOTE] + s[1..];
    } else {
      var piece := ReadPiece(s);
      ReadPieceExactly(s, piece.value, piece.rest);
      ReadPiecesSound(piece.rest);
      var ps := ReadPieces(s).value;
      assert ps[1..] == ReadPieces(piece.rest).value;
    }
  }

  lemma PieceStarts(p: Piece, rest: Bytes)
    requires ValidPiece(p)
    ensures PieceBytes(p) != [] && (PieceBytes(p) + rest)[0] != QUOTE &&
              ReadPiece(PieceBytes(p) + rest) == Read(p, rest)
  {
    ReadPieceExactly(PieceBytes(p) + rest, p, rest);
  }

  lemma {:induction false} ReadPiecesComplete(ps: Pieces, rest: Bytes)
    requires ValidPieces(ps)
    ensures ReadPieces(PiecesBytes(ps) + [QUOTE] + rest) == Read(ps, rest)
  {
    hide ReadPiece, PieceBytes, ValidPiece;
    var s := PiecesBytes(ps) + [QUOTE] + rest;
    if ps == [] {
      assert s == [QUOTE] + rest && s[1..] == rest;
    } else {
      var after := PiecesBytes(ps[1..]) + [QUOTE] + rest;
      assert s == PieceBytes(ps[0]) + after;
      PieceStarts(ps[0], after);
      ReadPiecesComplete(ps[1..], rest);
      assert ps == [ps[0]] + ps[1..];
    }
  }

  // ----- values and members -----

  datatype Value = Text(pieces: Pieces) | Number(n: nat) | Null
  datatype Member = Member(key: Pieces, value: Value)

  predicate IsDigit(b: Byte) {
    48 <= b <= 57
  }

  function CharsOf(s: Bytes): string {
    seq(|s|, i requires 0 <= i < |s| => s[i] as char)
  }

  /** How many digits the text begins with. */
  function DigitCount(s: Bytes): (n: nat)
    ensures n <= |s| && (forall i | 0 <= i < n :: IsDigit(s[i])) && (n < |s| ==> !IsDigit(s[n]))
  {
    if s != [] && IsDigit(s[0]) then 1 + DigitCount(s[1..]) else 0
  }

  function ReadNumber(s: Bytes): (r: Read<Value>)
    ensures r.Read? ==> |r.rest| < |s|
  {
    var n := DigitCount(s);
    var number := Decimal.ParseNumber(CharsOf(s[..n]));
    if n == 0 || (n > 1 && s[0] == 48) || number.NotANumber? then Bad else Read(Number(number.value), s[n..])
  }

  const NULL: Bytes := [110, 117, 108, 108]

  function ReadValue(s: Bytes): (r: Read<Value>)
    ensures r.Read? ==> |r.rest| < |s|
  {
    if s != [] && s[0] == QUOTE then
      var pieces := ReadPieces(s[1..]);
      if pieces.Bad? then Bad else Read(Text(pieces.value), pieces.rest)
    else if NULL <= s then Read(Null, s[4..])
    else ReadNumber(s)
  }

  function ReadMember(s: Bytes): (r: Read<Member>)
    ensures r.Read? ==>
              |r.rest| < |s| && ValidPieces(r.value.key) &&
              (r.value.value.Text? ==> ValidPieces(r.value.value.pieces))
  {
    if s == [] || s[0] != QUOTE then Bad
    else
      var key := ReadPieces(s[1..]);
      if key.Bad? then Bad
      else
        var colon := SkipSpace(key.rest);
        if colon == [] || colon[0] != COLON then Bad
        else
          var value := ReadValue(SkipSpace(colon[1..]));
          if value.Bad? then Bad else Read(Member(key.value, value.value), value.rest)
  }

  predicate ValidMember(m: Member) {
    ValidPieces(m.key) && (m.value.Text? ==> ValidPieces(m.value.pieces))
  }

  /** Where the next member starts: after a comma unless it is the first. */
  function MemberStart(s: Bytes, first: bool): (r: Option<Bytes>)
    ensures r.Some? ==> |r.value| <= |s|
  {
    var next := SkipSpace(s);
    if first then Some(next)
    else if next == [] || next[0] != COMMA then None
    else Some(SkipSpace(next[1..]))
  }

  predicate AtClose(s: Bytes) {
    SkipSpace(s) != [] && SkipSpace(s)[0] == CLOSE
  }

  /** The members up to and with the closing brace; `first` says that none has been read. */
  function ReadMembers(s: Bytes, first: bool): (r: Read<seq<Member>>)
    ensures r.Read? ==> |r.rest| < |s| && forall m | m in r.value :: ValidMember(m)
    decreases |s|
  {
    if AtClose(s) then Read([], SkipSpace(s)[1..])
    else
      var start := MemberStart(s, first);
      var member := if start.None? then Bad else ReadMember(start.value);
      if member.Bad? then Bad
      else
        var more := ReadMembers(member.rest, false);
        if more.Bad? then Bad else Read([member.value] + more.value, more.rest)
  }

  /** One object and nothing after it. */
  function ReadObject(s: Bytes): (r: Option<seq<Member>>)
    ensures r.Some? ==> forall m | m in r.value :: ValidMember(m)
  {
    var next := SkipSpace(s);
    if next == [] || next[0] != OPEN then None
    else
      var members := ReadMembers(next[1..], true);
      if members.Bad? || !Spaces(members.rest) then None else Some(members.value)
  }

  // ----- what is read -----

  function Quoted(ps: Pieces): Bytes {
    [QUOTE] + (PiecesBytes(ps) + [QUOTE])
  }

  ghost predicate ValueText(s: Bytes, v: Value) {
    match v
    case Text(ps) => s == Quoted(ps)
    case Number(n) =>
      && s != [] && (forall i | 0 <= i < |s| :: IsDigit(s[i])) && (|s| > 1 ==> s[0] != 48)
      && Decimal.ParseNumber(CharsOf(s)) == Decimal.Number(n)
    case Null => s == NULL
  }

  ghost predicate MemberText(s: Bytes, m: Member) {
    exists a, b, v ::
      Spaces(a) && Spaces(b) && ValueText(v, m.value) && s == Quoted(m.key) + (a + [COLON] + (b + v))
  }

  /** The comma before a member that is not the first one. */
  ghost predicate Separator(s: Bytes, first: bool) {
    if first then Spaces(s) else exists a, b :: Spaces(a) && Spaces(b) && s == a + [COMMA] + b
  }

  ghost predicate MembersText(s: Bytes, ms: seq<Member>, first: bool)
    decreases |ms|
  {
    if ms == [] then exists a :: Spaces(a) && s == a + [CLOSE]
    else exists a, m, t ::
      Separator(a, first) && MemberText(m, ms[0]) && MembersText(t, ms[1..], false) && s == a + (m + t)
  }

  ghost predicate ObjectText(s: Bytes, ms: seq<Member>) {
    exists a, body, z :: Spaces(a) && Spaces(z) && MembersText(body, ms, true) && s == a + [OPEN] + (body + z)
  }

  lemma ReadStringComplete(ps: Pieces, rest: Bytes)
    requires ValidPieces(ps)
    ensures (Quoted(ps) + rest)[0] == QUOTE && ReadPieces((Quoted(ps) + rest)[1..]) == Read(ps, rest)
  {
    assert (Quoted(ps) + rest)[1..] == PiecesBytes(ps) + [QUOTE] + rest;
    ReadPiecesComplete(ps, rest);
  }

  lemma ReadStringSound(s: Bytes)
    requires s != [] && s[0] == QUOTE && ReadPieces(s[1..]).Read?
    ensures s == Quoted(ReadPieces(s[1..]).value) + ReadPieces(s[1..]).rest
  {
    hide ReadPieces, PiecesBytes;
    ReadPiecesSound(s[1..]);
    var ps, rest := ReadPieces(s[1..]).value, ReadPieces(s[1..]).rest;
    assert s == [QUOTE] + (PiecesBytes(ps) + [QUOTE] + rest);
  }

  // ----- the reader reads nothing else -----

  lemma ReadValueSound(s: Bytes) returns (v: Bytes)
    requires ReadValue(s).Read?
    ensures ValueText(v, ReadValue(s).value) && s == v + ReadValue(s).rest
  {
    if s[0] == QUOTE {
      ReadStringSound(s);
      v := Quoted(ReadPieces(s[1..]).value);
    } else if NULL <= s {
      v := NULL;
    } else {
      v := s[..DigitCount(s)];
    }
  }

  lemma ReadMemberSound(s: Bytes) returns (t: Bytes)
    requires ReadMember(s).Read?
    ensures MemberText(t, ReadMember(s).value) && s == t + ReadMember(s).rest
  {
    hide ReadValue, ReadPieces, ValueText, Quoted, SkipSpace, Spaces;
    ReadStringSound(s);
    var key := ReadPieces(s[1..]);
    var colon := SkipSpace(key.rest);
    var a := SkippedSpaces(key.rest);
    var b := SkippedSpaces(colon[1..]);
    var v := ReadValueSound(SkipSpace(colon[1..]));
    var rest := ReadMember(s).rest;
    t := Quoted(key.value) + (a + [COLON] + (b + v));
    assert colon == [COLON] + colon[1..];
    assert s == Quoted(key.value) + (a + ([COLON] + (b + (v + rest))));
    assert t + rest == Quoted(key.value) + (a + ([COLON] + (b + (v + rest))));
  }

  lemma MemberStartSound(s: Bytes, first: bool) returns (a: Bytes)
    requires MemberStart(s, first).Some?
    ensures Separator(a, first) && s == a + MemberStart(s, first).value
  {
    hide SkipSpace, Spaces;
    a := SkippedSpaces(s);
    if !first {
      var next := SkipSpace(s);
      var b := SkippedSpaces(next[1..]);
      assert next == [COMMA] + next[1..];
      var c := a + [COMMA] + b;
      assert Separator(c, first);
      a := c;
    }
  }

  lemma AtCloseSound(s: Bytes) returns (body: Bytes)
    requires AtClose(s)
    ensures MembersText(body, [], false) && MembersText(body, [], true) && s == body + SkipSpace(s)[1..]
  {
    hide SkipSpace, Spaces;
    var a := SkippedSpaces(s);
    body := a + [CLOSE];
    assert SkipSpace(s) == [CLOSE] + SkipSpace(s)[1..];
  }

  lemma {:induction false} ReadMembersSound(s: Bytes, first: bool) returns (body: Bytes)
    requires ReadMembers(s, first).Read?
    ensures MembersText(body, ReadMembers(s, first).value, first) && s == body + ReadMembers(s, first).rest
    decreases |s|
  {
    hide ReadMember, MemberText, SkipSpace, MemberStart, AtClose, Separator;
    if AtClose(s) {
      body := AtCloseSound(s);
    } else {
      var start := MemberStart(s, first).value;
      var a := MemberStartSound(s, first);
      var m := ReadMemberSound(start);
      var rest := ReadMember(start).rest;
      var t := ReadMembersSound(rest, false);
      var ms := ReadMembers(s, first).value;
      assert ms[0] == ReadMember(start).value && ms[1..] == ReadMembers(rest, false).value;
      body := a + (m + t);
      assert a + (m + (t + ReadMembers(s, first).rest)) == body + ReadMembers(s, first).rest;
    }
  }

  lemma ReadObjectSound(s: Bytes)
    requires ReadObject(s).Some?
    ensures ObjectText(s, ReadObject(s).value)
  {
    hide ReadMembers, MembersText, SkipSpace, Spaces;
    var a := SkippedSpaces(s);
    var next := SkipSpace(s);
    var body := ReadMembersSound(next[1..], true);
    var z := ReadMembers(next[1..], true).rest;
    assert next == [OPEN] + next[1..];
    assert s == a + [OPEN] + (body + z);
  }

  // ----- the reader reads all of it -----

  lemma {:induction false} DigitCountOf(v: Bytes, rest: Bytes)
    requires forall i | 0 <= i < |v| :: IsDigit(v[i])
    requires rest == [] || !IsDigit(rest[0])
    ensures DigitCount(v + rest) == |v|
  {
    if v == [] {
      assert v + rest == rest;
    } else {
      assert (v + rest)[1..] == v[1..] + rest;
      DigitCountOf(v[1..], rest);
    }
  }

  lemma ReadValueComplete(v: Bytes, value: Value, rest: Bytes)
    requires ValueText(v, value) && (value.Text? ==> ValidPieces(value.pieces)) && (rest == [] || !IsDigit(rest[0]))
    ensures v != [] && !IsSpace(v[0]) && ReadValue(v + rest) == Read(value, rest)
  {
    match value
    case Text(ps) => ReadStringComplete(ps, rest);
    case Number(n) =>
      DigitCountOf(v, rest);
      assert (v + rest)[..|v|] == v && (v + rest)[|v|..] == rest;
    case Null => assert (v + rest)[4..] == rest;
  }

  lemma ReadMemberComplete(t: Bytes, m: Member, rest: Bytes)
    requires MemberText(t, m) && ValidMember(m) && (rest == [] || !IsDigit(rest[0]))
    ensures t != [] && t[0] == QUOTE && ReadMember(t + rest) == Read(m, rest)
  {
    hide ReadValue, ReadPieces, ValueText, PiecesBytes, SkipSpace, Spaces;
    var a, b, v :| Spaces(a) && Spaces(b) && ValueText(v, m.value) && t == Quoted(m.key) + (a + [COLON] + (b + v));
    ReadValueComplete(v, m.value, rest);
    var r2 := v + rest;
    var r1 := [COLON] + (b + r2);
    assert t + rest == Quoted(m.key) + (a + r1);
    ReadStringComplete(m.key, a + r1);
    SkipSpaces(a, r1);
    assert r1[1..] == b + r2;
    SkipSpaces(b, r2);
  }

  lemma MembersStart(t: Bytes, ms: seq<Member>)
    requires MembersText(t, ms, false)
    ensures t != [] && !IsDigit(t[0])
  {
    hide MemberText;
  }

  lemma MemberStartComplete(a: Bytes, first: bool, tail: Bytes)
    requires Separator(a, first) && tail != [] && tail[0] == QUOTE
    ensures MemberStart(a + tail, first) == Some(tail) && !AtClose(a + tail)
  {
    hide SkipSpace, Spaces;
    if first {
      SkipSpaces(a, tail);
    } else {
      var b, c :| Spaces(b) && Spaces(c) && a == b + [COMMA] + c;
      assert a + tail == b + ([COMMA] + (c + tail));
      SkipSpaces(b, [COMMA] + (c + tail));
      assert ([COMMA] + (c + tail))[1..] == c + tail;
      SkipSpaces(c, tail);
    }
  }

  lemma AtCloseComplete(s: Bytes, first: bool, rest: Bytes)
    requires MembersText(s, [], first)
    ensures AtClose(s + rest) && SkipSpace(s + rest)[1..] == rest
  {
    hide SkipSpace, Spaces;
    var a :| Spaces(a) && s == a + [CLOSE];
    assert s + rest == a + ([CLOSE] + rest);
    SkipSpaces(a, [CLOSE] + rest);
  }

  lemma {:induction false} ReadMembersComplete(s: Bytes, ms: seq<Member>, first: bool, rest: Bytes)
    requires MembersText(s, ms, first) && forall m | m in ms :: ValidMember(m)
    ensures ReadMembers(s + rest, first) == Read(ms, rest)
    decreases |ms|
  {
    hide ReadMember, MemberText, SkipSpace, Spaces, MemberStart, AtClose, Separator, ValidMember;
    if ms == [] {
      AtCloseComplete(s, first, rest);
    } else {
      var a, m, t :| Separator(a, first) && MemberText(m, ms[0]) && MembersText(t, ms[1..], false) && s == a + (m + t);
      MembersStart(t, ms[1..]);
      ReadMemberComplete(m, ms[0], t + rest);
      ReadMembersComplete(t, ms[1..], false, rest);
      assert s + rest == a + (m + (t + rest));
      MemberStartComplete(a, first, m + (t + rest));
      assert [ms[0]] + ms[1..] == ms;
    }
  }

  lemma ReadObjectComplete(s: Bytes, ms: seq<Member>)
    requires ObjectText(s, ms) && forall m | m in ms :: ValidMember(m)
    ensures ReadObject(s) == Some(ms)
  {
    hide ReadMembers, MembersText, SkipSpace;
    var a, body, z :| Spaces(a) && Spaces(z) && MembersText(body, ms, true) && s == a + [OPEN] + (body + z);
    assert s == a + ([OPEN] + (body + z));
    SkipSpaces(a, [OPEN] + (body + z));
    assert ([OPEN] + (body + z))[1..] == body + z;
    ReadMembersComplete(body, ms, true, z);
  }

  // ----- what json.Marshal writes -----

  datatype Field = TextField(name: string, text: string) | NumberField(name: string, n: nat)

  predicate PlainChar(c: char) {
    ' ' <= c <= '~' && c != '"' && c != '\\' && c != '<' && c != '>' && c != '&'
  }

  /** Text that Marshal writes as it stands. */
  predicate Plain(s: string) {
    forall i | 0 <= i < |s| :: PlainChar(s[i])
  }

  predicate PlainField(f: Field) {
    Plain(f.name) && match f case TextField(_, text) => Plain(text) case NumberField(_, n) => n <= Int64.MAX
  }

  function PrintField(f: Field): string {
    "\"" + f.name + "\":" + match f
      case TextField(_, text) => "\"" + text + "\""
      case NumberField(_, n) => Decimal.Print(n)
  }

  function PrintFields(fs: seq<Field>, first: bool): string {
    if fs == [] then "}" else (if first then "" else ",") + (PrintField(fs[0]) + PrintFields(fs[1..], false))
  }

  function PrintObject(fs: seq<Field>): string {
    "{" + PrintFields(fs, true)
  }

  function Plainly(s: string): Pieces {
    seq(|s|, i requires 0 <= i < |s| => Raw(ByteOf(s[i])))
  }

  function MemberOf(f: Field): Member {
    Member(Plainly(f.name), match f case TextField(_, text) => Text(Plainly(text)) case NumberField(_, n) => Number(n))
  }

  function MembersOf(fs: seq<Field>): seq<Member> {
    if fs == [] then [] else [MemberOf(fs[0])] + MembersOf(fs[1..])
  }

  lemma BytesOfJoined(a: string, b: string)
    ensures BytesOf(a + b) == BytesOf(a) + BytesOf(b)
  {
  }

  lemma {:induction false} PlainlySpelled(s: string)
    ensures PiecesBytes(Plainly(s)) == BytesOf(s)
  {
    if s == "" {
      assert BytesOf(s) == [] && Plainly(s) == [];
    } else {
      PlainlySpelled(s[1..]);
      assert Plainly(s)[1..] == Plainly(s[1..]);
      assert BytesOf(s) == [ByteOf(s[0])] + BytesOf(s[1..]);
    }
  }

  lemma PlainlyReads(s: string)
    requires Plain(s)
    ensures ValidPieces(Plainly(s)) && PiecesText(Plainly(s)) == s
  {
  }

  lemma QuotedPlainly(s: string)
    ensures Quoted(Plainly(s)) == BytesOf("\"" + s + "\"")
  {
    PlainlySpelled(s);
    BytesOfJoined("\"" + s, "\"");
    BytesOfJoined("\"", s);
    assert BytesOf("\"") == [QUOTE];
  }

  lemma {:induction false} NoLeadingZero(n: nat)
    requires n >= 1
    ensures Decimal.Print(n)[0] != '0'
  {
    if n >= 10 {
      NoLeadingZero(n / 10);
    }
  }

  lemma PrintedNumber(n: nat)
    requires n <= Int64.MAX
    ensures ValueText(BytesOf(Decimal.Print(n)), Number(n))
  {
    var s := Decimal.Print(n);
    Decimal.ParsePrint(n);
    assert CharsOf(BytesOf(s)) == s;
    if n >= 1 {
      NoLeadingZero(n);
    }
    assert forall i | 0 <= i < |s| :: Decimal.IsDigit(s[i]);
  }

  lemma PrintedField(f: Field)
    requires PlainField(f)
    ensures MemberText(BytesOf(PrintField(f)), MemberOf(f)) && ValidMember(MemberOf(f))
  {
    hide Decimal.Print, Quoted, BytesOf, Plainly;
    var value := match f case TextField(_, text) => "\"" + text + "\"" case NumberField(_, n) => Decimal.Print(n);
    PlainlyReads(f.name);
    QuotedPlainly(f.name);
    match f {
      case TextField(_, text) =>
        PlainlyReads(text);
        QuotedPlainly(text);
      case NumberField(_, n) => PrintedNumber(n);
    }
    assert ValueText(BytesOf(value), MemberOf(f).value);
    assert PrintField(f) == "\"" + f.name + "\"" + (":" + value);
    BytesOfJoined("\"" + f.name + "\"", ":" + value);
    BytesOfJoined(":", value);
    ColonBytes();
    var a: Bytes := [];
    assert Spaces(a);
    assert BytesOf(PrintField(f)) == Quoted(Plainly(f.name)) + (a + [COLON] + (a + BytesOf(value)));
  }

  lemma ColonBytes()
    ensures BytesOf(":") == [COLON] && BytesOf(",") == [COMMA] && BytesOf("{") == [OPEN] && BytesOf("}") == [CLOSE] &&
              BytesOf("") == []
  {
  }

  lemma {:induction false} PrintedFields(fs: seq<Field>, first: bool)
    requires forall f | f in fs :: PlainField(f)
    ensures MembersText(BytesOf(PrintFields(fs, first)), MembersOf(fs), first)
    ensures forall m | m in MembersOf(fs) :: ValidMember(m)
  {
    hide MemberText, PrintField, PlainField, BytesOf, ValidMember;
    ColonBytes();
    if fs == [] {
      assert Spaces([]) && BytesOf(PrintFields(fs, first)) == [] + [CLOSE];
    } else {
      PrintedField(fs[0]);
      PrintedFields(fs[1..], false);
      var separator, m, t := if first then "" else ",", PrintField(fs[0]), PrintFields(fs[1..], false);
      BytesOfJoined(separator, m + t);
      BytesOfJoined(m, t);
      assert Separator(BytesOf(separator), first) by {
        assert Spaces([]) && BytesOf(separator) == if first then [] else [] + [COMMA] + [];
      }
      assert MembersOf(fs)[1..] == MembersOf(fs[1..]);
    }
  }

  /** What is printed of plain fields is read back, all of it. */
  lemma ReadPrinted(fs: seq<Field>)
    requires forall f | f in fs :: PlainField(f)
    ensures ReadObject(BytesOf(PrintObject(fs))) == Some(MembersOf(fs))
  {
    hide MembersText, BytesOf, PrintFields, MembersOf, ValidMember, ReadObject, PlainField;
    PrintedFields(fs, true);
    ColonBytes();
    BytesOfJoined("{", PrintFields(fs, true));
    var a: Bytes, body := [], BytesOf(PrintFields(fs, true));
    assert Spaces(a) && BytesOf(PrintObject(fs)) == a + [OPEN] + (body + a);
    assert ObjectText(BytesOf(PrintObject(fs)), MembersOf(fs));
    ReadObjectComplete(BytesOf(PrintObject(fs)), MembersOf(fs));
  }
}
