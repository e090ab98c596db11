/** `parseEPGTime` of renderer.js: an XMLTV `start`/`stop` attribute
    (`YYYYMMDDhhmmss +HHMM`) loses everything from its first white space,
    and the remaining digits are read as a UTC calendar time, which the
    JavaScript `Date` holds as milliseconds since 1970-01-01T00:00:00Z. */
module EpgTime {
  import opened Wrappers
  import opened Text

  // ----- `timeString.replace(/\s.*$/, '')` --------------------------------

  /** `/\s.*$/` can match from index `p`: a white-space character followed
      only by characters `.` accepts (no line terminator) up to the end. */
  predicate OffsetAt(t: string, p: int) {
    0 <= p < |t| && IsSpace(t[p]) && forall k :: p < k < |t| ==> !IsLineTerminator(t[k])
  }

  function FirstOffset(t: string, from: nat): (r: Option<nat>)
    ensures r.Some? ==> from <= r.value && OffsetAt(t, r.value)
    ensures r.Some? ==> forall q :: from <= q < r.value ==> !OffsetAt(t, q)
    ensures r.None? ==> forall q :: from <= q ==> !OffsetAt(t, q)
    decreases |t| - from
  {
    if from >= |t| then None
    else if OffsetAt(t, from) then Some(from)
    else FirstOffset(t, from + 1)
  }

  /** The text with the leftmost match of `/\s.*$/` removed. */
  function CleanTime(t: string): (r: string)
    ensures |r| <= |t| && r == t[..|r|]
    // the cut is at the leftmost place the pattern matches ...
    ensures |r| < |t| ==> OffsetAt(t, |r|) && forall q :: 0 <= q < |r| ==> !OffsetAt(t, q)
    // ... and nothing is cut when it matches nowhere
    ensures |r| == |t| ==> forall q :: !OffsetAt(t, q)
  {
    match FirstOffset(t, 0)
    case Some(p) => t[..p]
    case None => t
  }

  // ----- the calendar -----------------------------------------------------

  datatype Fields = Fields(year: nat, month: nat, day: nat, hour: nat, minute: nat, second: nat)

  predicate IsLeap(y: int) {
    y % 4 == 0 && (y % 100 != 0 || y % 400 == 0)
  }

  function DaysInYear(y: int): nat {
    if IsLeap(y) then 366 else 365
  }

  function DaysInMonth(y: int, m: int): nat {
    if m == 2 then (if IsLeap(y) then 29 else 28)
    else if m == 4 || m == 6 || m == 9 || m == 11 then 30
    else 31
  }

  /** Days from 0000-01-01 to the first of January of year `y` in the
      proleptic Gregorian calendar. */
  function DaysBeforeYear(y: nat): nat {
    365 * y + (y + 3) / 4 - (y + 99) / 100 + (y + 399) / 400
  }

  /** Days from the first of January of year `y` to the first of month `m`. */
  function DaysBeforeMonth(y: int, m: int): nat {
    var common :=
      if m <= 1 then 0 else if m == 2 then 31 else if m == 3 then 59
      else if m == 4 then 90 else if m == 5 then 120 else if m == 6 then 151
      else if m == 7 then 181 else if m == 8 then 212 else if m == 9 then 243
      else if m == 10 then 273 else if m == 11 then 304 else 334;
    if m > 2 && IsLeap(y) then common + 1 else common
  }

  /** A calendar time a four-digit ISO year can write, with every field in
      range. */
  predicate ValidFields(f: Fields) {
    && f.year <= 9999
    && 1 <= f.month <= 12 && 1 <= f.day <= DaysInMonth(f.year, f.month)
    && f.hour < 24 && f.minute < 60 && f.second < 60
  }

  /** Days from 1970-01-01 to the given date. */
  function DayNumber(f: Fields): int {
    DaysBeforeYear(f.year) + DaysBeforeMonth(f.year, f.month) + f.day - 1 - DaysBeforeYear(1970)
  }

  const MsPerDay := 86_400_000

  function TimeOfDayMs(f: Fields): nat {
    f.hour * 3_600_000 + f.minute * 60_000 + f.second * 1000
  }

  /** The millisecond time value of the instant, as `Date` stores it. */
  function EpochMs(f: Fields): int {
    DayNumber(f) * MsPerDay + TimeOfDayMs(f)
  }

  // ----- reading the digits -----------------------------------------------

  predicate AllDigits(s: string) {
    forall i :: 0 <= i < |s| ==> IsDigit(s[i])
  }

  /** `s.substring(a, b)` for `0 <= a <= b`: both ends are clamped to the
      length. */
  function Substring(s: string, a: nat, b: nat): (r: string)
    requires a <= b
    ensures |r| <= b - a
    ensures b <= |s| ==> r == s[a..b]
  {
    var lo := if a <= |s| then a else |s|;
    var hi := if b <= |s| then b else |s|;
    s[lo..hi]
  }

  /** The text `parseEPGTime` hands to `new Date(...)`. */
  function IsoText(c: string): string {
    Substring(c, 0, 4) + "-" + Substring(c, 4, 6) + "-" + Substring(c, 6, 8) + "T"
    + Substring(c, 8, 10) + ":" + Substring(c, 10, 12) + ":" + Substring(c, 12, 14) + "Z"
  }

  predicate HasStampDigits(c: string) {
    |c| >= 14 && AllDigits(c[..14])
  }

  /** The fields read from characters 0-4, 4-6, 6-8, 8-10, 10-12 and 12-14. */
  function FieldsOf(c: string): Fields
    requires HasStampDigits(c)
  {
    assert forall i :: 0 <= i < 14 ==> IsDigit(c[..14][i]);
    Fields(DigitsValue(c[0..4]), DigitsValue(c[4..6]), DigitsValue(c[6..8]),
           DigitsValue(c[8..10]), DigitsValue(c[10..12]), DigitsValue(c[12..14]))
  }

  /** A cleaned stamp whose ISO text names an actual UTC instant. */
  predicate WellFormedStamp(c: string) {
    HasStampDigits(c) && ValidFields(FieldsOf(c))
  }

  /** `parseEPGTime(timeString)`: `Success(None)` is `null`, `Success(Some(t))`
      a `Date` with time value `t`. `Failure(text)` is a `Date` built from a
      text that is not a valid calendar time; what the engine makes of it is
      left out, and the text is kept. */
  function ParseEPGTime(s: Option<string>): (r: Result<Option<int>, string>)
    // null for an absent or empty attribute, and only then
    ensures r == Success(None) <==> s == None || s == Some("")
    // a time value is the instant a well-formed stamp names ...
    ensures r.Success? && r.value.Some? ==>
              s.Some? && WellFormedStamp(CleanTime(s.value))
              && r.value.value == EpochMs(FieldsOf(CleanTime(s.value)))
    // ... and every well-formed stamp gives one
    ensures s.Some? && s.value != "" && WellFormedStamp(CleanTime(s.value)) ==>
              r == Success(Some(EpochMs(FieldsOf(CleanTime(s.value)))))
    // an invalid date exactly for a non-empty text that is not a stamp
    ensures r.Failure? <==> s.Some? && s.value != "" && !WellFormedStamp(CleanTime(s.value))
  {
    match s
    case None => Success(None)
    case Some(t) =>
      if t == "" then Success(None)
      else
        var c := CleanTime(t);
        if WellFormedStamp(c) then Success(Some(EpochMs(FieldsOf(c))))
        else Failure(IsoText(c))
  }

  // ----- the calendar is a strict order -----------------------------------

  /** One more multiple of `d` is counted exactly when `y` is one (`d` is
      4, 100 or 400: each case stays linear for the solver). */
  lemma LeapCount(y: nat, d: nat)
    requires d == 4 || d == 100 || d == 400
    ensures (y + d) / d == (y + d - 1) / d + (if y % d == 0 then 1 else 0)
  {
    if d == 4 {
      var q, r := y / 4, y % 4;
      QuotientOf(y + 4, 4, q + 1, r);
      if r == 0 { QuotientOf(y + 3, 4, q, 3); } else { QuotientOf(y + 3, 4, q + 1, r - 1); }
    } else if d == 100 {
      var q, r := y / 100, y % 100;
      QuotientOf(y + 100, 100, q + 1, r);
      if r == 0 { QuotientOf(y + 99, 100, q, 99); } else { QuotientOf(y + 99, 100, q + 1, r - 1); }
    } else {
      var q, r := y / 400, y % 400;
      QuotientOf(y + 400, 400, q + 1, r);
      if r == 0 { QuotientOf(y + 399, 400, q, 399); } else { QuotientOf(y + 399, 400, q + 1, r - 1); }
    }
  }

  /** The quotient of `n` by `d` is `q` when `n` is `q` times `d` plus a
      remainder below `d`. */
  lemma QuotientOf(n: int, d: int, q: int, r: int)
    requires d == 4 || d == 100 || d == 400
    requires 0 <= r < d && n == d * q + r
    ensures n / d == q
  {
    if d == 4 {
      assert n == 4 * q + r;
    } else if d == 100 {
      assert n == 100 * q + r;
    } else {
      assert n == 400 * q + r;
    }
  }

  /** A multiple of 400 is one of 100, and a multiple of 100 one of 4. */
  lemma DivisorChain(y: nat)
    ensures y % 400 == 0 ==> y % 100 == 0
    ensures y % 100 == 0 ==> y % 4 == 0
  {
    if y % 400 == 0 {
      QuotientOf(y, 100, 4 * (y / 400), 0);
    }
    if y % 100 == 0 {
      QuotientOf(y, 4, 25 * (y / 100), 0);
    }
  }

  lemma YearStep(y: nat)
    ensures DaysBeforeYear(y + 1) == DaysBeforeYear(y) + DaysInYear(y)
  {
    LeapCount(y, 4);
    LeapCount(y, 100);
    LeapCount(y, 400);
    DivisorChain(y);
    var leaps := (if y % 4 == 0 then 1 else 0) - (if y % 100 == 0 then 1 else 0) + (if y % 400 == 0 then 1 else 0);
    assert leaps == if IsLeap(y) then 1 else 0;
    assert DaysBeforeYear(y + 1) == 365 * y + 365 + (y + 3) / 4 - (y + 99) / 100 + (y + 399) / 400 + leaps;
  }

  lemma {:induction false} YearsBefore(y1: nat, y2: nat)
    requires y1 < y2
    ensures DaysBeforeYear(y1) + DaysInYear(y1) <= DaysBeforeYear(y2)
    decreases y2 - y1
  {
    YearStep(y1);
    if y1 + 1 < y2 {
      YearsBefore(y1 + 1, y2);
    }
  }

  lemma MonthStep(y: int, m: int)
    requires 1 <= m < 12
    ensures DaysBeforeMonth(y, m + 1) == DaysBeforeMonth(y, m) + DaysInMonth(y, m)
  {
  }

  lemma LastMonth(y: int)
    ensures DaysBeforeMonth(y, 12) + DaysInMonth(y, 12) == DaysInYear(y)
  {
  }

  lemma {:induction false} MonthsBefore(y: int, m1: int, m2: int)
    requires 1 <= m1 < m2 <= 12
    ensures DaysBeforeMonth(y, m1) + DaysInMonth(y, m1) <= DaysBeforeMonth(y, m2)
    decreases m2 - m1
  {
    MonthStep(y, m1);
    if m1 + 1 < m2 {
      MonthsBefore(y, m1 + 1, m2);
    }
  }

  /** The calendar order: year, then month, day, hour, minute, second. */
  predicate Before(a: Fields, b: Fields) {
    || a.year < b.year
    || (a.year == b.year && a.month < b.month)
    || (a.year == b.year && a.month == b.month && a.day < b.day)
    || (a.year == b.year && a.month == b.month && a.day == b.day && a.hour < b.hour)
    || (a.year == b.year && a.month == b.month && a.day == b.day && a.hour == b.hour
        && a.minute < b.minute)
    || (a.year == b.year && a.month == b.month && a.day == b.day && a.hour == b.hour
        && a.minute == b.minute && a.second < b.second)
  }

  lemma DayBefore(a: Fields, b: Fields)
    requires ValidFields(a) && ValidFields(b)
    requires a.year < b.year || (a.year == b.year && a.month < b.month)
             || (a.year == b.year && a.month == b.month && a.day < b.day)
    ensures DayNumber(a) < DayNumber(b)
  {
    if a.year < b.year {
      if a.month < 12 {
        MonthsBefore(a.year, a.month, 12);
      }
      LastMonth(a.year);
      YearsBefore(a.year, b.year);
    } else if a.month < b.month {
      MonthsBefore(a.year, a.month, b.month);
    }
  }

  /** Earlier calendar fields give an earlier time value. */
  lemma EpochMsMonotonic(a: Fields, b: Fields)
    requires ValidFields(a) && ValidFields(b) && Before(a, b)
    ensures EpochMs(a) < EpochMs(b)
  {
    if a.year < b.year || (a.year == b.year && a.month < b.month)
       || (a.year == b.year && a.month == b.month && a.day < b.day) {
      DayBefore(a, b);
    }
  }

  /** The time value orders instants exactly as the calendar does, and two
      valid stamps with the same time value have the same fields. */
  lemma EpochMsOrder(a: Fields, b: Fields)
    requires ValidFields(a) && ValidFields(b)
    ensures EpochMs(a) < EpochMs(b) <==> Before(a, b)
    ensures EpochMs(a) == EpochMs(b) <==> a == b
  {
    if Before(a, b) {
      EpochMsMonotonic(a, b);
    } else if Before(b, a) {
      EpochMsMonotonic(b, a);
    } else {
      assert a == b;
    }
  }

  // ----- writing a stamp --------------------------------------------------

  function Pow10(w: nat): nat {
    if w == 0 then 1 else 10 * Pow10(w - 1)
  }

  /** `n` in `w` decimal digits with leading zeros. */
  function Digits(n: nat, w: nat): (r: string)
    requires n < Pow10(w)
    ensures |r| == w && AllDigits(r)
  {
    if w == 0 then "" else Digits(n / 10, w - 1) + [DigitChar(n % 10)]
  }

  lemma {:induction false} DigitsRoundTrip(n: nat, w: nat)
    requires n < Pow10(w)
    ensures DigitsValue(Digits(n, w)) == n
  {
    if w > 0 {
      DigitsRoundTrip(n / 10, w - 1);
      var s := Digits(n, w);
      assert s[..|s| - 1] == Digits(n / 10, w - 1);
    }
  }

  /** The `YYYYMMDDhhmmss` text of valid fields. */
  function FormatStamp(f: Fields): (r: string)
    requires ValidFields(f)
    ensures |r| == 14 && AllDigits(r)
  {
    Digits(f.year, 4) + Digits(f.month, 2) + Digits(f.day, 2)
    + Digits(f.hour, 2) + Digits(f.minute, 2) + Digits(f.second, 2)
  }

  /** Reading a written stamp gives its fields back. */
  lemma FieldsOfFormat(f: Fields)
    requires ValidFields(f)
    ensures HasStampDigits(FormatStamp(f)) && FieldsOf(FormatStamp(f)) == f
  {
    var y, mo, d := Digits(f.year, 4), Digits(f.month, 2), Digits(f.day, 2);
    var h, mi, s := Digits(f.hour, 2), Digits(f.minute, 2), Digits(f.second, 2);
    var c := FormatStamp(f);
    assert c == y + mo + d + h + mi + s;
    assert c[..14] == c;
    assert c[0..4] == y;
    assert c[4..6] == mo;
    assert c[6..8] == d;
    assert c[8..10] == h;
    assert c[10..12] == mi;
    assert c[12..14] == s;
    DigitsRoundTrip(f.year, 4);
    DigitsRoundTrip(f.month, 2);
    DigitsRoundTrip(f.day, 2);
    DigitsRoundTrip(f.hour, 2);
    DigitsRoundTrip(f.minute, 2);
    DigitsRoundTrip(f.second, 2);
  }

  /** A text without white space followed by one space and an offset on the
      same line is cut back to that text. */
  lemma CleanOffset(d: string, z: string)
    requires forall i :: 0 <= i < |d| ==> !IsSpace(d[i])
    requires forall i :: 0 <= i < |z| ==> !IsLineTerminator(z[i])
    ensures CleanTime(d + " " + z) == d
  {
    var t := d + " " + z;
    assert OffsetAt(t, |d|);
    var r := CleanTime(t);
    assert r == t[..|r|];
  }

  /** A text without white space is left as it is. */
  lemma CleanNoSpace(d: string)
    requires forall i :: 0 <= i < |d| ==> !IsSpace(d[i])
    ensures CleanTime(d) == d
  {
  }

  /** The time-zone offset after the first space is ignored: a stamp reads
      the same with or without it. */
  lemma OffsetIgnored(d: string, z: string)
    requires d != "" && forall i :: 0 <= i < |d| ==> !IsSpace(d[i])
    requires forall i :: 0 <= i < |z| ==> !IsLineTerminator(z[i])
    ensures ParseEPGTime(Some(d + " " + z)) == ParseEPGTime(Some(d))
  {
    CleanOffset(d, z);
    CleanNoSpace(d);
  }

  /** A written stamp with any offset reads back as the instant it names. */
  lemma StampRoundTrip(f: Fields, z: string)
    requires ValidFields(f)
    requires forall i :: 0 <= i < |z| ==> !IsLineTerminator(z[i])
    ensures ParseEPGTime(Some(FormatStamp(f) + " " + z)) == Success(Some(EpochMs(f)))
  {
    var c := FormatStamp(f);
    assert forall i :: 0 <= i < |c| ==> !IsSpace(c[i]) by {
      forall i | 0 <= i < |c| ensures !IsSpace(c[i]) {
        assert IsDigit(c[i]);
      }
    }
    CleanOffset(c, z);
    FieldsOfFormat(f);
  }

  /** Without the space the offset stays in the text but is never read:
      only the first fourteen characters are. `20250101120000` and
      `20250101120000+0000` read as the instant they name. */
  lemma GluedStampRoundTrip(f: Fields, z: string)
    requires ValidFields(f)
    requires forall i :: 0 <= i < |z| ==> !IsSpace(z[i])
    ensures ParseEPGTime(Some(FormatStamp(f) + z)) == Success(Some(EpochMs(f)))
  {
    var c := FormatStamp(f);
    var t := c + z;
    forall i | 0 <= i < |t|
      ensures !IsSpace(t[i])
    {
      if i < |c| {
        assert t[i] == c[i] && IsDigit(c[i]);
      } else {
        assert t[i] == z[i - |c|];
      }
    }
    CleanNoSpace(t);
    FieldsOfFormat(f);
    FieldsOfPrefix(c, z);
  }

  /** What follows the fourteen digits does not change the fields. */
  lemma FieldsOfPrefix(c: string, z: string)
    requires |c| == 14 && HasStampDigits(c)
    ensures HasStampDigits(c + z) && FieldsOf(c + z) == FieldsOf(c)
  {
    var t := c + z;
    assert t[..14] == c[..14];
    assert t[0..4] == c[0..4] && t[4..6] == c[4..6] && t[6..8] == c[6..8];
    assert t[8..10] == c[8..10] && t[10..12] == c[10..12] && t[12..14] == c[12..14];
  }

  /** `20250101120000 +0000` is 2025-01-01T12:00:00Z, 1735732800 seconds
      after the epoch. */
  lemma NewYearNoon()
    ensures ParseEPGTime(Some("20250101120000 +0000")) == Success(Some(1_735_732_800_000))
  {
    var f := Fields(2025, 1, 1, 12, 0, 0);
    NewYearNoonText(f);
    NewYearNoonValue(f);
    StampRoundTrip(f, "+0000");
  }

  lemma NewYearNoonText(f: Fields)
    requires f == Fields(2025, 1, 1, 12, 0, 0)
    ensures ValidFields(f) && FormatStamp(f) + " " + "+0000" == "20250101120000 +0000"
  {
    NewYearNoonStamp(f);
  }

  lemma NewYearNoonStamp(f: Fields)
    requires f == Fields(2025, 1, 1, 12, 0, 0)
    ensures ValidFields(f) && FormatStamp(f) == "20250101120000"
  {
    NewYearNoonDigits();
    assert FormatStamp(f) == "2025" + "01" + "01" + "12" + "00" + "00";
  }

  lemma NewYearNoonDigits()
    ensures Digits(2025, 4) == "2025" && Digits(1, 2) == "01"
    ensures Digits(12, 2) == "12" && Digits(0, 2) == "00"
  {
    assert Digits(2025, 4) == "2025";
    assert Digits(1, 2) == "01";
    assert Digits(12, 2) == "12";
  }

  lemma NewYearNoonValue(f: Fields)
    requires f == Fields(2025, 1, 1, 12, 0, 0)
    ensures EpochMs(f) == 1_735_732_800_000
  {
    assert DaysBeforeYear(2025) == 739617;
    assert DaysBeforeYear(1970) == 719528;
  }
}
