/** How instants are stored: UTC time formatted as time.RFC3339Nano, compared as text
    (internal/storage/sqlite/audit_repository.go:50-81, media_repository.go:211-222,
    user_repository.go:547-564). RFC3339Nano drops the trailing zeros of the fraction, and the point
    with them. Section 5.1 of RFC 3339 promises that text order is time order only for texts with the
    same number of fraction digits. */
module Timestamps {
  import opened TextOrder

  // ----- the calendar -----

  predicate Leap(year: int) {
    year % 4 == 0 && (year % 100 != 0 || year % 400 == 0)
  }

  function DaysInMonth(year: int, month: int): (days: int)
    ensures 28 <= days <= 31
  {
    if month == 2 then (if Leap(year) then 29 else 28) else if month in {4, 6, 9, 11} then 30 else 31
  }

  /** A UTC time in the years that RFC 3339 can write. */
  datatype Time = Time(year: int, month: int, day: int, hour: int, minute: int, second: int, nanos: int)

  predicate Valid(t: Time) {
    && 0 <= t.year <= 9999 && 1 <= t.month <= 12 && 1 <= t.day <= DaysInMonth(t.year, t.month)
    && 0 <= t.hour < 24 && 0 <= t.minute < 60 && 0 <= t.second < 60 && 0 <= t.nanos < 1_000_000_000
  }

  const ZERO_TIME := Time(1, 1, 1, 0, 0, 0, 0)   // Go's zero time

  type Instant = t: Time | Valid(t) witness ZERO_TIME

  function DaysBeforeYear(year: nat): nat {
    if year == 0 then 0 else DaysBeforeYear(year - 1) + if Leap(year - 1) then 366 else 365
  }

  function DaysBeforeMonth(year: int, month: nat): nat {
    if month <= 1 then 0 else DaysBeforeMonth(year, month - 1) + DaysInMonth(year, month - 1)
  }

  function Day(t: Time): int
    requires Valid(t)
  {
    DaysBeforeYear(t.year) + DaysBeforeMonth(t.year, t.month) + t.day - 1
  }

  /** Seconds since the beginning of year 0. */
  function Seconds(t: Time): int
    requires Valid(t)
  {
    ((Day(t) * 24 + t.hour) * 60 + t.minute) * 60 + t.second
  }

  predicate Earlier(t: Time, u: Time)
    requires Valid(t) && Valid(u)
  {
    Seconds(t) < Seconds(u) || (Seconds(t) == Seconds(u) && t.nanos < u.nanos)
  }

  lemma {:induction false} MonthsAscend(year: int, m: nat, n: nat)
    requires 1 <= m < n
    ensures DaysBeforeMonth(year, m) + DaysInMonth(year, m) <= DaysBeforeMonth(year, n)
  {
    if m + 1 < n {
      MonthsAscend(year, m, n - 1);
    }
  }

  lemma DaysOfYear(year: int)
    ensures DaysBeforeMonth(year, 12) + DaysInMonth(year, 12) == if Leap(year) then 366 else 365
  {
    assert DaysBeforeMonth(year, 2) == 31;
    assert DaysBeforeMonth(year, 3) == 31 + DaysInMonth(year, 2);
    assert DaysBeforeMonth(year, 4) == DaysBeforeMonth(year, 3) + 31;
    assert DaysBeforeMonth(year, 5) == DaysBeforeMonth(year, 3) + 61;
    assert DaysBeforeMonth(year, 6) == DaysBeforeMonth(year, 3) + 92;
    assert DaysBeforeMonth(year, 7) == DaysBeforeMonth(year, 3) + 122;
    assert DaysBeforeMonth(year, 8) == DaysBeforeMonth(year, 3) + 153;
    assert DaysBeforeMonth(year, 9) == DaysBeforeMonth(year, 3) + 184;
    assert DaysBeforeMonth(year, 10) == DaysBeforeMonth(year, 3) + 214;
    assert DaysBeforeMonth(year, 11) == DaysBeforeMonth(year, 3) + 245;
    assert DaysBeforeMonth(year, 12) == DaysBeforeMonth(year, 3) + 275;
  }

  lemma {:induction false} YearsAscend(y: nat, z: nat)
    requires y < z
    ensures DaysBeforeYear(y) + (if Leap(y) then 366 else 365) <= DaysBeforeYear(z)
  {
    if y + 1 < z {
      YearsAscend(y, z - 1);
    }
  }

  /** A day number stands for one date, and later dates have larger ones. */
  lemma DaysAscend(t: Time, u: Time)
    requires Valid(t) && Valid(u)
    requires t.year < u.year || (t.year == u.year && (t.month < u.month || (t.month == u.month && t.day < u.day)))
    ensures Day(t) < Day(u)
  {
    if t.year < u.year {
      DaysOfYear(t.year);
      if t.month < 12 {
        MonthsAscend(t.year, t.month, 12);
      }
      YearsAscend(t.year, u.year);
    } else if t.month < u.month {
      MonthsAscend(t.year, t.month, u.month);
    }
  }

  // ----- the text -----

  function Pow10(n: nat): (p: int)
    ensures p >= 1
  {
    if n == 0 then 1 else 10 * Pow10(n - 1)
  }

  function Digit(d: int): (c: char)
    requires 0 <= d <= 9
    ensures '0' <= c <= '9'
  {
    '0' + d as char
  }

  /** x in exactly `width` decimal digits. */
  function Fixed(x: int, width: nat): (s: string)
    requires 0 <= x < Pow10(width)
    ensures |s| == width && forall c | c in s :: '0' <= c <= '9'
  {
    if width == 0 then "" else
      assert x / Pow10(width - 1) <= 9 && 0 <= x % Pow10(width - 1) < Pow10(width - 1) by { DivMod(x,
        Pow10(width - 1)); }
      [Digit(x / Pow10(width - 1))] + Fixed(x % Pow10(width - 1), width - 1)
  }

  lemma DivMod(x: int, p: int)
    requires p >= 1 && 0 <= x < 10 * p
    ensures 0 <= x / p <= 9 && 0 <= x % p < p && x == (x / p) * p + x % p
  {
  }

  function Trimmed(digits: string): (s: string)
    ensures s <= digits && (s != "" ==> s[|s| - 1] != '0')
  {
    if digits != "" && digits[|digits| - 1] == '0' then Trimmed(digits[..|digits| - 1]) else digits
  }

  function Fraction(nanos: int): string
    requires 0 <= nanos < 1_000_000_000
  {
    assert Pow10(9) == 1_000_000_000;
    if nanos == 0 then "" else "." + Trimmed(Fixed(nanos, 9))
  }

  function Format(t: Time): string
    requires Valid(t)
  {
    assert Pow10(4) == 10_000 && Pow10(2) == 100;
    Fixed(t.year, 4) + ("-" + (Fixed(t.month, 2) + ("-" + (Fixed(t.day, 2) + ("T" + (Fixed(t.hour, 2)
      + (":" + (Fixed(t.minute, 2) + (":" + (Fixed(t.second, 2) + (Fraction(t.nanos) + "Z")))))))))))
  }

  // ----- text order against time order -----

  /** Digits of one width are ordered like the numbers; what follows decides between equal ones. */
  lemma {:induction false} FixedOrder(width: nat, x: int, y: int, s: string, t: string)
    requires 0 <= x < Pow10(width) && 0 <= y < Pow10(width)
    ensures Lt(Fixed(x, width) + s, Fixed(y, width) + t) <==> x < y || (x == y && Lt(s, t))
  {
    var a, b := Fixed(x, width) + s, Fixed(y, width) + t;
    if width == 0 {
      assert a == s && b == t;
    } else {
      var p := Pow10(width - 1);
      DivMod(x, p);
      DivMod(y, p);
      assert a[0] == Digit(x / p) && b[0] == Digit(y / p);
      assert a[1..] == Fixed(x % p, width - 1) + s && b[1..] == Fixed(y % p, width - 1) + t;
      if x / p == y / p {
        FixedOrder(width - 1, x % p, y % p, s, t);
      } else if x / p < y / p {
        assert (x / p) * p + p <= (y / p) * p by { Steps(x / p, y / p, p); }
      } else {
        assert (y / p) * p + p <= (x / p) * p by { Steps(y / p, x / p, p); }
      }
    }
  }

  lemma {:induction false} Steps(a: int, b: int, p: int)
    requires a < b && p >= 1
    ensures a * p + p <= b * p
    decreases b - a
  {
    assert (a + 1) * p == a * p + p;
    if a + 1 < b {
      Steps(a + 1, b, p);
    }
  }

  lemma {:induction false} TrimmedZeros(digits: string)
    ensures forall i | |Trimmed(digits)| <= i < |digits| :: digits[i] == '0'
  {
    if digits != "" && digits[|digits| - 1] == '0' {
      TrimmedZeros(digits[..|digits| - 1]);
    }
  }

  lemma {:induction false} FirstDifference(a: string, b: string) returns (k: nat)
    requires |a| == |b| && Lt(a, b)
    ensures k < |a| && a[..k] == b[..k] && a[k] < b[k]
  {
    if a[0] < b[0] {
      k := 0;
    } else {
      k := FirstDifference(a[1..], b[1..]);
      assert a == [a[0]] + a[1..] && b == [b[0]] + b[1..];
      k := k + 1;
    }
  }

  lemma LtAt(a: string, b: string, k: nat)
    requires k < |a| && k < |b| && a[..k] == b[..k] && a[k] < b[k]
    ensures Lt(a, b) && !(a <= b) && !(b <= a)
  {
    assert a == a[..k] + a[k..] && b == b[..k] + b[k..];
    LtCommonPrefix(a[..k], a[k..], b[k..]);
  }

  lemma TrimmedOrder(a: string, b: string)
    requires |a| == |b| && Lt(a, b) && forall c | c in a :: '0' <= c
    ensures !(Trimmed(b) <= Trimmed(a))
    ensures !(Trimmed(a) <= Trimmed(b)) ==> Lt(Trimmed(a), Trimmed(b))
  {
    TrimmedZeros(a);
    TrimmedZeros(b);
    var k := FirstDifference(a, b);
    assert a[k] in a;
    assert Trimmed(b)[..k] == b[..k];
    if k < |Trimmed(a)| {
      assert Trimmed(a)[..k] == a[..k];
      LtAt(Trimmed(a), Trimmed(b), k);
    } else {
      assert Trimmed(a) == b[..|Trimmed(a)|] by {
        assert a[..k][..|Trimmed(a)|] == a[..|Trimmed(a)|] && b[..k][..|Trimmed(a)|] == b[..|Trimmed(a)|];
      }
    }
  }

  /** The fraction of an earlier time within the same second is a proper prefix of the later one's,
      or they part at a digit. */
  lemma FractionOrder(m: int, n: int)
    requires 0 <= m < n < 1_000_000_000
    ensures !(Fraction(n) <= Fraction(m))
    ensures !(Fraction(m) <= Fraction(n)) ==> Lt(Fraction(m), Fraction(n))
  {
    assert Pow10(9) == 1_000_000_000;
    if m != 0 {
      var a, b := Fixed(m, 9), Fixed(n, 9);
      FixedOrder(9, m, n, "", "");
      assert a + "" == a && b + "" == b;
      TrimmedOrder(a, b);
      LtCommonPrefix(".", Trimmed(a), Trimmed(b));
      assert Fraction(m)[1..] == Trimmed(a) && Fraction(n)[1..] == Trimmed(b);
    }
  }

  /** Within one second. */
  lemma FractionText(m: int, n: int)
    requires 0 <= m < n < 1_000_000_000
    ensures Lt(Fraction(m) + "Z", Fraction(n) + "Z") <==> !(Fraction(m) <= Fraction(n))
    ensures Lt(Fraction(n) + "Z", Fraction(m) + "Z") <==> Fraction(m) <= Fraction(n)
  {
    var a, b := Fraction(m), Fraction(n);
    FractionOrder(m, n);
    if a <= b {
      var rest := b[|a|..];
      assert b == a + rest && b + "Z" == a + (rest + "Z");
      LtCommonPrefix(a, rest + "Z", "Z");
      assert rest[0] == b[|a|] && (rest + "Z")[0] < 'Z' by { FractionChars(n); }
      LtAsymmetric(b + "Z", a + "Z");
    } else {
      LtExtended(a, b, "Z", "Z");
      LtAsymmetric(a + "Z", b + "Z");
    }
  }

  lemma FractionChars(n: int)
    requires 0 <= n < 1_000_000_000
    ensures forall i | 0 <= i < |Fraction(n)| :: Fraction(n)[i] <= '9'
  {
    assert Pow10(9) == 1_000_000_000;
    if n != 0 {
      var s := Trimmed(Fixed(n, 9));
      assert forall i | 0 <= i < |s| :: s[i] == Fixed(n, 9)[i];
      assert forall i | 0 <= i < |Fixed(n, 9)| :: Fixed(n, 9)[i] in Fixed(n, 9);
    }
  }

  predicate SameSecond(t: Time, u: Time)
    requires Valid(t) && Valid(u)
  {
    Seconds(t) == Seconds(u)
  }

  /** The calendar order of the fields down to the second. */
  predicate FieldsBefore(t: Time, u: Time) {
    t.year < u.year || (t.year == u.year && (
    t.month < u.month || (t.month == u.month && (
    t.day < u.day || (t.day == u.day && (
    t.hour < u.hour || (t.hour == u.hour && (
    t.minute < u.minute || (t.minute == u.minute && t.second < u.second)))))))))
  }

  predicate FieldsEqual(t: Time, u: Time) {
    t.year == u.year && t.month == u.month && t.day == u.day && t.hour == u.hour && t.minute == u.minute &&
      t.second == u.second
  }

  lemma FieldsAscend(t: Time, u: Time)
    requires Valid(t) && Valid(u) && FieldsBefore(t, u)
    ensures Seconds(t) < Seconds(u)
  {
    if t.year < u.year || (t.year == u.year && (t.month < u.month || (t.month == u.month && t.day < u.day))) {
      DaysAscend(t, u);
    }
  }

  lemma FieldsAreSeconds(t: Time, u: Time)
    requires Valid(t) && Valid(u)
    ensures FieldsBefore(t, u) <==> Seconds(t) < Seconds(u)
    ensures FieldsEqual(t, u) <==> SameSecond(t, u)
  {
    if FieldsBefore(t, u) {
      FieldsAscend(t, u);
    } else if !FieldsEqual(t, u) {
      FieldsAscend(u, t);
    }
  }

  lemma FormatFields(t: Time, u: Time)
    requires Valid(t) && Valid(u)
    ensures Lt(Format(t), Format(u)) <==>
            FieldsBefore(t, u) || (FieldsEqual(t, u) && Lt(Fraction(t.nanos) + "Z", Fraction(u.nanos) + "Z"))
  {
    hide Lt, Fixed, Fraction;
    assert Pow10(4) == 10_000 && Pow10(2) == 100;
    var t6, u6 := Fraction(t.nanos) + "Z", Fraction(u.nanos) + "Z";
    var t5, u5 := Fixed(t.second, 2) + t6, Fixed(u.second, 2) + u6;
    var t4, u4 := Fixed(t.minute, 2) + (":" + t5), Fixed(u.minute, 2) + (":" + u5);
    var t3, u3 := Fixed(t.hour, 2) + (":" + t4), Fixed(u.hour, 2) + (":" + u4);
    var t2, u2 := Fixed(t.day, 2) + ("T" + t3), Fixed(u.day, 2) + ("T" + u3);
    var t1, u1 := Fixed(t.month, 2) + ("-" + t2), Fixed(u.month, 2) + ("-" + u2);
    FixedOrder(2, t.second, u.second, t6, u6);
    LtCommonPrefix(":", t5, u5);
    FixedOrder(2, t.minute, u.minute, ":" + t5, ":" + u5);
    LtCommonPrefix(":", t4, u4);
    FixedOrder(2, t.hour, u.hour, ":" + t4, ":" + u4);
    LtCommonPrefix("T", t3, u3);
    FixedOrder(2, t.day, u.day, "T" + t3, "T" + u3);
    LtCommonPrefix("-", t2, u2);
    FixedOrder(2, t.month, u.month, "-" + t2, "-" + u2);
    LtCommonPrefix("-", t1, u1);
    FixedOrder(4, t.year, u.year, "-" + t1, "-" + u1);
    assert Format(t) == Fixed(t.year, 4) + ("-" + t1) && Format(u) == Fixed(u.year, 4) + ("-" + u1);
  }

  /** Within one second, one fraction text begins the other although they differ. */
  predicate Reversed(t: Time, u: Time)
    requires Valid(t) && Valid(u)
  {
    SameSecond(t, u) && t.nanos != u.nanos && (Fraction(t.nanos) <= Fraction(u.nanos) ||
      Fraction(u.nanos) <= Fraction(t.nanos))
  }

  /** Text order is time order, and exactly the other way round for two times of one second of which
      one fraction begins the other. */
  lemma TextOrderAgainstTime(t: Time, u: Time)
    requires Valid(t) && Valid(u)
    ensures Lt(Format(t), Format(u)) <==> if Reversed(t, u) then Earlier(u, t) else Earlier(t, u)
  {
    hide Lt, Fraction, Seconds, Format;
    FieldsAreSeconds(t, u);
    FieldsAreSeconds(u, t);
    FormatFields(t, u);
    if SameSecond(t, u) {
      if t.nanos < u.nanos {
        FractionText(t.nanos, u.nanos);
        FractionOrder(t.nanos, u.nanos);
      } else if u.nanos < t.nanos {
        FractionText(u.nanos, t.nanos);
        FractionOrder(u.nanos, t.nanos);
      } else {
        LtIrreflexive(Fraction(t.nanos) + "Z");
      }
    }
  }

  /** A stored text stands for one time. */
  lemma FormatInjective(t: Time, u: Time)
    requires Valid(t) && Valid(u) && Format(t) == Format(u)
    ensures t == u
  {
    hide Lt, Fraction, Seconds, Format;
    TextOrderAgainstTime(t, u);
    TextOrderAgainstTime(u, t);
    LtIrreflexive(Format(t));
    FieldsAreSeconds(t, u);
  }

  /** Half a second past noon is stored before noon. */
  lemma HalfSecondIsReversed()
    ensures var noon, half := Time(2026, 1, 31, 12, 0, 0, 0), Time(2026, 1, 31, 12, 0, 0, 500_000_000);
            Valid(noon) && Valid(half) && Earlier(noon, half) && Lt(Format(half), Format(noon))
  {
    var noon, half := Time(2026, 1, 31, 12, 0, 0, 0), Time(2026, 1, 31, 12, 0, 0, 500_000_000);
    TextOrderAgainstTime(half, noon);
  }
}
