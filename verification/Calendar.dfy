/**
 Timestamps of debug events: the date of a day number, and its text in the form
 of RFC 3339, section 5.6.
 */
module Calendar {

  // ── The Gregorian calendar ─────────────────────────────────────────────────

  datatype Date = Date(year: nat, month: nat, day: nat)

  /** RFC 3339, appendix C. */
  predicate IsLeap(year: nat) {
    year % 4 == 0 && (year % 100 != 0 || year % 400 == 0)
  }

  function YearDays(year: nat): nat {
    if IsLeap(year) then 366 else 365
  }

  function MonthDays(year: nat, month: nat): nat {
    if month == 2 then (if IsLeap(year) then 29 else 28)
    else if month in {4, 6, 9, 11} then 30
    else 31
  }

  predicate IsDate(date: Date) {
    && date.year >= 1970 && 1 <= date.month <= 12
    && 1 <= date.day <= MonthDays(date.year, date.month)
  }

  /** Leap years up to and including `year`, in closed form. */
  function LeapsThrough(year: nat): int {
    year / 4 - year / 100 + year / 400
  }

  function DaysBeforeYear(year: nat): int
    requires year >= 1970
  {
    365 * (year - 1970) + LeapsThrough(year - 1) - LeapsThrough(1969)
  }

  function DaysBeforeMonth(year: nat, month: nat): nat
    requires 1 <= month <= 13
  {
    if month == 1 then 0 else DaysBeforeMonth(year, month - 1) + MonthDays(year, month - 1)
  }

  /**
   Days before a month, in closed form: the lengths from March on repeat every
   five months, 153 days.
   */
  function MonthOffset(year: nat, month: nat): nat
    requires 1 <= month <= 13
  {
    if month == 1 then 0
    else if month == 2 then 31
    else 59 + (if IsLeap(year) then 1 else 0) + (153 * (month - 3) + 2) / 5
  }

  /** The lengths of the months add up to it. */
  lemma {:induction false} MonthsAddUp(year: nat, month: nat)
    requires 1 <= month <= 13
    ensures DaysBeforeMonth(year, month) == MonthOffset(year, month)
  {
    if month > 1 {
      MonthsAddUp(year, month - 1);
    }
  }

  /** Days since 1 January 1970, in closed form. */
  function DayNumber(date: Date): int
    requires IsDate(date)
  {
    DaysBeforeYear(date.year) + MonthOffset(date.year, date.month) + date.day - 1
  }

  lemma YearStep(year: nat)
    requires year >= 1970
    ensures DaysBeforeYear(year + 1) == DaysBeforeYear(year) + YearDays(year)
  {
    QuotientStep(year, 4);
    QuotientStep(year, 100);
    QuotientStep(year, 400);
    assert year % 400 == 0 ==> year % 100 == 0;
    assert year % 100 == 0 ==> year % 4 == 0;
  }

  lemma QuotientStep(n: nat, d: nat)
    requires n > 0 && d in {4, 100, 400}
    ensures n / d == (n - 1) / d + (if n % d == 0 then 1 else 0)
  {
  }

  lemma {:induction false} YearsInOrder(a: nat, b: nat)
    requires 1970 <= a < b
    ensures DaysBeforeYear(a) + YearDays(a) <= DaysBeforeYear(b)
  {
    if a + 1 < b {
      YearsInOrder(a, b - 1);
      YearStep(b - 1);
    } else {
      YearStep(a);
    }
  }

  lemma {:induction false} MonthsInOrder(year: nat, a: nat, b: nat)
    requires 1 <= a < b <= 13
    ensures DaysBeforeMonth(year, a) + MonthDays(year, a) <= DaysBeforeMonth(year, b)
  {
    if a + 1 < b {
      MonthsInOrder(year, a, b - 1);
    }
  }

  lemma MonthsFillYear(year: nat)
    ensures DaysBeforeMonth(year, 13) == YearDays(year)
  {
    MonthsAddUp(year, 13);
  }

  predicate Earlier(a: Date, b: Date) {
    || a.year < b.year
    || (a.year == b.year && (a.month < b.month || (a.month == b.month && a.day < b.day)))
  }

  /** Day numbers follow the order of dates, so no two dates share one. */
  lemma DayNumberMonotone(a: Date, b: Date)
    requires IsDate(a) && IsDate(b) && Earlier(a, b)
    ensures DayNumber(a) < DayNumber(b)
  {
    if a.year < b.year {
      YearsInOrder(a.year, b.year);
      MonthsFillYear(a.year);
      MonthsAddUp(a.year, a.month);
      MonthsInOrder(a.year, a.month, 13);
    } else if a.month < b.month {
      MonthsAddUp(a.year, a.month);
      MonthsAddUp(b.year, b.month);
      MonthsInOrder(a.year, a.month, b.month);
    }
  }

  lemma DayNumberUnique(a: Date, b: Date)
    requires IsDate(a) && IsDate(b) && DayNumber(a) == DayNumber(b)
    ensures a == b
  {
    if Earlier(a, b) {
      DayNumberMonotone(a, b);
    } else if Earlier(b, a) {
      DayNumberMonotone(b, a);
    }
  }

  // ── The code ───────────────────────────────────────────────────────────────

  /** Subtract whole years, then whole months. */
  method EpochToYmd(dayNumber: nat) returns (date: Date)
    ensures IsDate(date) && DayNumber(date) == dayNumber
  {
    var days: nat, y: nat := dayNumber, 1970;
    while days >= YearDays(y)
      invariant y >= 1970 && DaysBeforeYear(y) + days == dayNumber
      decreases days
    {
      YearStep(y);
      days := days - YearDays(y);
      y := y + 1;
    }
    var leap := if IsLeap(y) then 1 else 0;
    var monthDays := [31, 28 + leap, 31, 30, 31, 30, 31, 31, 30, 31, 30, 31];
    var m := 0;
    MonthsFillYear(y);
    while m < 12 && days >= monthDays[m]
      invariant m <= 12
      invariant DaysBeforeMonth(y, m + 1) + days < YearDays(y)
      invariant DaysBeforeYear(y) + DaysBeforeMonth(y, m + 1) + days == dayNumber
    {
      assert monthDays[m] == MonthDays(y, m + 1);
      days := days - monthDays[m];
      m := m + 1;
    }
    MonthsAddUp(y, m + 1);
    return Date(y, m + 1, days + 1);
  }

  // ── Text ───────────────────────────────────────────────────────────────────

  datatype Fields = Fields(date: Date, hour: nat, minute: nat, second: nat, millisecond: nat)

  /** The moment that the fields name, in milliseconds since the epoch. */
  function Millis(f: Fields): int
    requires IsDate(f.date)
  {
    (((DayNumber(f.date) * 24 + f.hour) * 60 + f.minute) * 60 + f.second) * 1000 + f.millisecond
  }

  predicate InRange(f: Fields) {
    IsDate(f.date) && f.hour < 24 && f.minute < 60 && f.second < 60 && f.millisecond < 1000
  }

  const U32_COUNT: nat := 0x1_0000_0000
  const MILLIS_PER_DAY: nat := 86_400_000

  /** The fields of a time of day are its place values. */
  lemma TimeOfDay(millis: nat, day: int)
    ensures var secs, mins, hours := millis / 1000, millis / 1000 / 60, millis / 1000 / 60 / 60;
            && hours / 24 == millis / MILLIS_PER_DAY
            && (((day * 24 + hours % 24) * 60 + mins % 60) * 60 + secs % 60) * 1000 + millis % 1000
               == day * MILLIS_PER_DAY + millis % MILLIS_PER_DAY
  {
  }

  /** The arithmetic of `format_ts`. The day number is cut to 32 bits, which is harmless exactly while it fits. */
  method SplitTimestamp(millis: nat) returns (f: Fields)
    ensures InRange(f)
    ensures DayNumber(f.date) == millis / MILLIS_PER_DAY % U32_COUNT
    ensures Millis(f) == DayNumber(f.date) * MILLIS_PER_DAY + millis % MILLIS_PER_DAY
    ensures Millis(f) == millis <==> millis / MILLIS_PER_DAY < U32_COUNT
  {
    var secs, ms := millis / 1000, millis % 1000;
    var mins, s := secs / 60, secs % 60;
    var hours, m := mins / 60, mins % 60;
    var days, h := hours / 24, hours % 24;
    var date := EpochToYmd(days % U32_COUNT);
    f := Fields(date, h, m, s, ms);
    TimeOfDay(millis, DayNumber(date));
  }

  function Digit(n: nat): char
    requires n < 10
  {
    "0123456789"[n]
  }

  function Decimal(n: nat): string {
    if n < 10 then [Digit(n)] else Decimal(n / 10) + [Digit(n % 10)]
  }

  /** At least `width` digits, zeros in front. */
  function Padded(n: nat, width: nat): string {
    if |Decimal(n)| >= width then Decimal(n) else seq(width - |Decimal(n)|, _ => '0') + Decimal(n)
  }

  function Text(f: Fields): string {
    Joined(Padded(f.date.year, 4), Padded(f.date.month, 2), Padded(f.date.day, 2),
           Padded(f.hour, 2), Padded(f.minute, 2), Padded(f.second, 2), Padded(f.millisecond, 3))
  }

  function DigitValue(c: char): nat {
    if '0' <= c <= '9' then (c as int) - ('0' as int) else 0
  }

  function Number(s: string): nat {
    if s == "" then 0 else Number(s[..|s| - 1]) * 10 + DigitValue(s[|s| - 1])
  }

  /** Reading the fixed positions of an RFC 3339 date-time with three fraction digits. */
  function Read(s: string): Fields
    requires |s| == 24
  {
    Fields(Date(Number(s[..4]), Number(s[5..7]), Number(s[8..10])),
           Number(s[11..13]), Number(s[14..16]), Number(s[17..19]), Number(s[20..23]))
  }

  lemma {:induction false} DecimalReads(n: nat)
    ensures Number(Decimal(n)) == n
  {
    if n < 10 {
      assert Number([Digit(n)][..0]) == 0;
    } else {
      DecimalReads(n / 10);
      assert Decimal(n)[..|Decimal(n)| - 1] == Decimal(n / 10);
    }
  }

  lemma {:induction false} ZerosInFront(k: nat, s: string)
    ensures Number(seq(k, _ => '0') + s) == Number(s)
  {
    var zeros := seq(k, _ => '0');
    if s == "" {
      assert zeros + s == zeros;
      if k > 0 {
        ZerosInFront(k - 1, "");
        assert zeros[..k - 1] == seq(k - 1, _ => '0') == seq(k - 1, _ => '0') + "";
      }
    } else {
      ZerosInFront(k, s[..|s| - 1]);
      assert (zeros + s)[..|zeros + s| - 1] == zeros + s[..|s| - 1];
    }
  }

  lemma PaddedReads(n: nat, width: nat)
    ensures Number(Padded(n, width)) == n
  {
    DecimalReads(n);
    if |Decimal(n)| < width {
      ZerosInFront(width - |Decimal(n)|, Decimal(n));
    }
  }

  /** Four places hold exactly the numbers below ten thousand, and so on down. */
  lemma DecimalLength(n: nat)
    ensures |Decimal(n)| >= 1
    ensures |Decimal(n)| <= 2 <==> n < 100
    ensures |Decimal(n)| <= 3 <==> n < 1000
    ensures |Decimal(n)| <= 4 <==> n < 10000
  {
    if n >= 10 {
      DecimalLength(n / 10);
    }
  }

  lemma PaddedLength(n: nat, width: nat)
    requires width in {2, 3, 4}
    ensures |Padded(n, width)| == width <==> n < (if width == 2 then 100 else if width == 3 then 1000 else 10000)
    ensures |Padded(n, width)| >= width
  {
    DecimalLength(n);
  }

  function Joined(y: string, mo: string, d: string, h: string, mi: string, s: string, ms: string): string {
    y + "-" + mo + "-" + d + "T" + h + ":" + mi + ":" + s + "." + ms + "Z"
  }

  predicate IsDigit(c: char) {
    '0' <= c <= '9'
  }

  /** The `date-time` of RFC 3339, section 5.6, with three fraction digits and in UTC. */
  predicate IsDateTime(text: string) {
    && |text| == 24 && text[4] == '-' && text[7] == '-' && text[10] == 'T' && text[13] == ':' && text[16] == ':'
    && text[19] == '.' && text[23] == 'Z'
    && forall i :: 0 <= i < 24 && i !in {4, 7, 10, 13, 16, 19, 23} ==> IsDigit(text[i])
  }

  lemma {:induction false} DecimalDigits(n: nat)
    ensures forall i :: 0 <= i < |Decimal(n)| ==> IsDigit(Decimal(n)[i])
  {
    if n >= 10 {
      DecimalDigits(n / 10);
    }
  }

  lemma PaddedDigits(n: nat, width: nat)
    ensures forall i :: 0 <= i < |Padded(n, width)| ==> IsDigit(Padded(n, width)[i])
  {
    DecimalDigits(n);
  }

  lemma JoinedIsDateTime(y: string, mo: string, d: string, h: string, mi: string, s: string, ms: string)
    requires |y| == 4 && |mo| == |d| == |h| == |mi| == |s| == 2 && |ms| == 3
    requires forall part, i :: part in {y, mo, d, h, mi, s, ms} && 0 <= i < |part| ==> IsDigit(part[i])
    ensures IsDateTime(Joined(y, mo, d, h, mi, s, ms))
  {
  }

  /** In a four-digit year the text is a date-time of the standard. */
  lemma TextIsDateTime(f: Fields)
    requires InRange(f)
    ensures IsDateTime(Text(f)) <==> f.date.year <= 9999
  {
    TextReadsBack(f);
    if f.date.year <= 9999 {
      PaddedLength(f.date.year, 4);
      PaddedLength(f.date.month, 2);
      PaddedLength(f.date.day, 2);
      PaddedLength(f.hour, 2);
      PaddedLength(f.minute, 2);
      PaddedLength(f.second, 2);
      PaddedLength(f.millisecond, 3);
      PaddedDigits(f.date.year, 4);
      PaddedDigits(f.date.month, 2);
      PaddedDigits(f.date.day, 2);
      PaddedDigits(f.hour, 2);
      PaddedDigits(f.minute, 2);
      PaddedDigits(f.second, 2);
      PaddedDigits(f.millisecond, 3);
      JoinedIsDateTime(Padded(f.date.year, 4), Padded(f.date.month, 2), Padded(f.date.day, 2), Padded(f.hour, 2),
                       Padded(f.minute, 2), Padded(f.second, 2), Padded(f.millisecond, 3));
    }
  }

  lemma JoinedParts(y: string, mo: string, d: string, h: string, mi: string, s: string, ms: string)
    requires |mo| == |d| == |h| == |mi| == |s| == 2 && |ms| == 3
    ensures |Joined(y, mo, d, h, mi, s, ms)| == |y| + 20
    ensures |y| == 4 ==>
      var t := Joined(y, mo, d, h, mi, s, ms);
      && t[..4] == y && t[5..7] == mo && t[8..10] == d && t[11..13] == h && t[14..16] == mi && t[17..19] == s
      && t[20..23] == ms
  {
  }

  /** While the year has four digits the text has 24 characters and reads back as the fields; later it is longer. */
  lemma TextReadsBack(f: Fields)
    requires InRange(f)
    ensures |Text(f)| == 24 <==> f.date.year <= 9999
    ensures |Text(f)| == 24 ==> Read(Text(f)) == f
  {
    PaddedLength(f.date.year, 4);
    PaddedLength(f.date.month, 2);
    PaddedLength(f.date.day, 2);
    PaddedLength(f.hour, 2);
    PaddedLength(f.minute, 2);
    PaddedLength(f.second, 2);
    PaddedLength(f.millisecond, 3);
    JoinedParts(Padded(f.date.year, 4), Padded(f.date.month, 2), Padded(f.date.day, 2),
                Padded(f.hour, 2), Padded(f.minute, 2), Padded(f.second, 2), Padded(f.millisecond, 3));
    PaddedReads(f.date.year, 4);
    PaddedReads(f.date.month, 2);
    PaddedReads(f.date.day, 2);
    PaddedReads(f.hour, 2);
    PaddedReads(f.minute, 2);
    PaddedReads(f.second, 2);
    PaddedReads(f.millisecond, 3);
  }

  /** Days from 1 January 1970 to 1 January 10000. */
  const FOUR_DIGIT_DAYS: nat := 2_932_897

  lemma FourDigitYears(date: Date)
    requires IsDate(date)
    ensures date.year <= 9999 <==> DayNumber(date) < FOUR_DIGIT_DAYS
  {
    var first := Date(10000, 1, 1);
    if Earlier(date, first) {
      DayNumberMonotone(date, first);
    } else if date != first {
      DayNumberMonotone(first, date);
    }
  }

  /** `format_ts`: 24 characters exactly while the (cut) day falls before the year 10000; then the moment reads back. */
  method FormatTs(millis: nat) returns (text: string)
    ensures var day := millis / MILLIS_PER_DAY % U32_COUNT;
            && (IsDateTime(text) <==> day < FOUR_DIGIT_DAYS)
            && (|text| == 24 <==> day < FOUR_DIGIT_DAYS)
            && (|text| == 24 ==>
                  InRange(Read(text)) && Millis(Read(text)) == day * MILLIS_PER_DAY + millis % MILLIS_PER_DAY)
  {
    var f := SplitTimestamp(millis);
    TextReadsBack(f);
    TextIsDateTime(f);
    FourDigitYears(f.date);
    text := Padded(f.date.year, 4) + "-" + Padded(f.date.month, 2) + "-" + Padded(f.date.day, 2) + "T" +
            Padded(f.hour, 2) + ":" + Padded(f.minute, 2) + ":" + Padded(f.second, 2) + "." +
            Padded(f.millisecond, 3) + "Z";
    assert text == Text(f);
  }
}
