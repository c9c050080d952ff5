/** Unpadded base64, standard and URL-safe, as Go's encoding/base64 reads it: section 5 of RFC 4648,
    but line breaks are skipped and the unused bits of the last character are not looked at. */
module Base64 {

  type Byte = x: int | 0 <= x < 256
  type Bytes = seq<Byte>

  datatype Alphabet = Std | Url
  datatype Decoded = Corrupt | Bytes(bytes: Bytes)

  function CharOf(a: Alphabet, d: int): char
    requires 0 <= d < 64
  {
    if d < 26 then 'A' + d as char
    else if d < 52 then 'a' + (d - 26) as char
    else if d < 62 then '0' + (d - 52) as char
    else if d == 62 then (if a.Url? then '-' else '+')
    else if a.Url? then '_' else '/'
  }

  /** -1 outside the alphabet. */
  function DigitOf(a: Alphabet, c: char): (d: int)
    ensures -1 <= d < 64
  {
    if 'A' <= c <= 'Z' then (c - 'A') as int
    else if 'a' <= c <= 'z' then (c - 'a') as int + 26
    else if '0' <= c <= '9' then (c - '0') as int + 52
    else if c == (if a.Url? then '-' else '+') then 62
    else if c == (if a.Url? then '_' else '/') then 63
    else -1
  }

  lemma DigitOfChar(a: Alphabet, d: int)
    requires 0 <= d < 64
    ensures DigitOf(a, CharOf(a, d)) == d
    ensures CharOf(a, d) != '\r' && CharOf(a, d) != '\n' && CharOf(a, d) != '$'
  {
  }

  function Encode(a: Alphabet, b: Bytes): string {
    if |b| == 0 then ""
    else if |b| == 1 then [CharOf(a, b[0] / 4), CharOf(a, b[0] % 4 * 16)]
    else if |b| == 2 then [CharOf(a, b[0] / 4), CharOf(a, b[0] % 4 * 16 + b[1] / 16), CharOf(a, b[1] % 16 * 4)]
    else Group(a, b[0], b[1], b[2]) + Encode(a, b[3..])
  }

  function Group(a: Alphabet, x: Byte, y: Byte, z: Byte): string {
    [CharOf(a, x / 4), CharOf(a, x % 4 * 16 + y / 16), CharOf(a, y % 16 * 4 + z / 64), CharOf(a, z % 64)]
  }

  function WithoutBreaks(s: string): string {
    if s == "" then "" else (if s[0] == '\r' || s[0] == '\n' then [] else [s[0]]) + WithoutBreaks(s[1..])
  }

  predicate Digits(a: Alphabet, s: string) {
    forall i | 0 <= i < |s| :: DigitOf(a, s[i]) >= 0
  }

  function DecodeDigits(a: Alphabet, s: string): Decoded {
    if !Digits(a, s) then Corrupt
    else if |s| == 0 then Bytes([])
    else if |s| == 1 then Corrupt
    else if |s| == 2 then Bytes([DigitOf(a, s[0]) * 4 + DigitOf(a, s[1]) / 16])
    else if |s| == 3 then Bytes([DigitOf(a, s[0]) * 4 + DigitOf(a, s[1]) / 16,
                                     DigitOf(a, s[1]) % 16 * 16 + DigitOf(a, s[2]) / 4])
    else
      var rest := DecodeDigits(a, s[4..]);
      if rest.Corrupt? then Corrupt else Bytes(Triple(DigitOf(a, s[0]), DigitOf(a, s[1]), DigitOf(a, s[2]),
        DigitOf(a, s[3])) + rest.bytes)
  }

  function Triple(d0: int, d1: int, d2: int, d3: int): Bytes
    requires 0 <= d0 < 64 && 0 <= d1 < 64 && 0 <= d2 < 64 && 0 <= d3 < 64
  {
    [d0 * 4 + d1 / 16, d1 % 16 * 16 + d2 / 4, d2 % 4 * 64 + d3]
  }

  function Decode(a: Alphabet, s: string): Decoded {
    DecodeDigits(a, WithoutBreaks(s))
  }

  // ----- round trip -----

  lemma DigitsOf(a: Alphabet, s: string, d: seq<int>)
    requires |s| == |d| && forall i | 0 <= i < |d| :: 0 <= d[i] < 64 && s[i] == CharOf(a, d[i])
    ensures Digits(a, s) && forall i | 0 <= i < |d| :: DigitOf(a, s[i]) == d[i]
  {
    hide CharOf, DigitOf;
    forall i | 0 <= i < |d|
      ensures DigitOf(a, s[i]) == d[i]
    {
      DigitOfChar(a, d[i]);
    }
  }

  lemma {:induction false} NoBreaks(a: Alphabet, s: string)
    requires Digits(a, s)
    ensures WithoutBreaks(s) == s && WithoutBreaks(s + "\n") == s
    ensures forall i | 0 <= i < |s| :: s[i] != '$'
  {
    if s == "" {
      assert s + "\n" == "\n" && "\n"[1..] == "";
      assert WithoutBreaks("") == "";
    } else {
      assert (s + "\n")[1..] == s[1..] + "\n";
      NoBreaks(a, s[1..]);
    }
  }

  lemma GroupRoundTrip(x: Byte, y: Byte, z: Byte)
    ensures Triple(x / 4, x % 4 * 16 + y / 16, y % 16 * 4 + z / 64, z % 64) == [x, y, z]
  {
  }

  lemma DigitsJoined(a: Alphabet, s: string, t: string)
    requires Digits(a, s) && Digits(a, t)
    ensures Digits(a, s + t)
  {
    hide DigitOf;
  }

  lemma DecodeFour(a: Alphabet, s: string)
    requires Digits(a, s) && |s| >= 4
    ensures DecodeDigits(a, s[4..]).Bytes? ==>
              DecodeDigits(a, s) == Bytes(Triple(DigitOf(a, s[0]), DigitOf(a, s[1]), DigitOf(a, s[2]),
                DigitOf(a, s[3])) + DecodeDigits(a, s[4..]).bytes)
  {
    hide DigitOf, Triple;
  }

  lemma DecodeGroup(a: Alphabet, x: Byte, y: Byte, z: Byte, rest: string)
    requires Digits(a, rest) && DecodeDigits(a, rest).Bytes?
    ensures Digits(a, Group(a, x, y, z) + rest)
    ensures DecodeDigits(a, Group(a, x, y, z) + rest) == Bytes([x, y, z] + DecodeDigits(a, rest).bytes)
  {
    hide CharOf, DigitOf, Digits, Triple, DecodeDigits;
    var g := Group(a, x, y, z);
    DigitsOf(a, g, [x / 4, x % 4 * 16 + y / 16, y % 16 * 4 + z / 64, z % 64]);
    GroupRoundTrip(x, y, z);
    DigitsJoined(a, g, rest);
    assert (g + rest)[4..] == rest;
    DecodeFour(a, g + rest);
  }

  lemma DecodeTail(a: Alphabet, b: Bytes)
    requires 1 <= |b| <= 2
    ensures Digits(a, Encode(a, b)) && DecodeDigits(a, Encode(a, b)) == Bytes(b)
  {
    hide CharOf, DigitOf, Group;
    if |b| == 1 {
      DigitsOf(a, Encode(a, b), [b[0] / 4, b[0] % 4 * 16]);
    } else {
      DigitsOf(a, Encode(a, b), [b[0] / 4, b[0] % 4 * 16 + b[1] / 16, b[1] % 16 * 4]);
    }
  }

  lemma DecodeEmpty(a: Alphabet)
    ensures Digits(a, "") && DecodeDigits(a, "") == Bytes([])
  {
  }

  lemma {:induction false} DecodeDigitsEncode(a: Alphabet, b: Bytes)
    ensures Digits(a, Encode(a, b)) && DecodeDigits(a, Encode(a, b)) == Bytes(b)
  {
    hide CharOf, DigitOf, Group, Digits;
    if |b| == 0 {
      DecodeEmpty(a);
    } else if |b| <= 2 {
      DecodeTail(a, b);
    } else {
      DecodeDigitsEncode(a, b[3..]);
      DecodeGroup(a, b[0], b[1], b[2], Encode(a, b[3..]));
      assert b == [b[0], b[1], b[2]] + b[3..];
    }
  }

  lemma DecodeEncode(a: Alphabet, b: Bytes)
    ensures Decode(a, Encode(a, b)) == Bytes(b)
    ensures forall i | 0 <= i < |Encode(a, b)| :: Encode(a, b)[i] != '$'
  {
    DecodeDigitsEncode(a, b);
    NoBreaks(a, Encode(a, b));
  }

  /** Several texts decode to the same bytes: a line break changes nothing. */
  lemma DecodeIgnoresABreak(a: Alphabet, b: Bytes)
    ensures Decode(a, Encode(a, b) + "\n") == Bytes(b)
  {
    DecodeDigitsEncode(a, b);
    NoBreaks(a, Encode(a, b));
  }

  lemma {:induction false} EncodedLength(a: Alphabet, b: Bytes)
    ensures 3 * |Encode(a, b)| <= 4 * |b| + 4
  {
    if |b| >= 3 {
      EncodedLength(a, b[3..]);
    }
  }
}
