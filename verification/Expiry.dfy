/**
  Expiry is decided in SQL by comparing text: an RFC 3339 time stamp against
  SQLite's datetime('now'). The two formats part at the eleventh character. The
  module says what that comparison means for every pair of instants.
*/
module Expiry {
  // ---------------------------------------------------------------- calendar

  predicate Leap(year: nat) {
    year % 4 == 0 && (year % 100 != 0 || year % 400 == 0)
  }

  function DaysInMonth(year: nat, month: nat): (n: nat)
    requires 1 <= month <= 12
    ensures 28 <= n <= 31
  {
    if month == 2 then (if Leap(year) then 29 else 28)
    else if month in {4, 6, 9, 11} then 30
    else 31
  }

  datatype Date = Date(year: nat, month: nat, day: nat) {
    predicate Valid() {
      year <= 9999 && 1 <= month <= 12 && 1 <= day <= DaysInMonth(year, month)
    }

    /** Year, then month, then day. */
    predicate Before(other: Date) {
      || year < other.year
      || (year == other.year && month < other.month)
      || (year == other.year && month == other.month && day < other.day)
    }
  }

  /** Days of the year that lie before a month; month 13 closes the year. */
  function DaysBeforeMonth(year: nat, month: nat): nat
    requires 1 <= month <= 13
  {
    if month == 1 then 0 else DaysBeforeMonth(year, month - 1) + DaysInMonth(year, month - 1)
  }

  function DaysBeforeYear(year: nat): nat {
    if year == 0 then 0 else DaysBeforeYear(year - 1) + DaysBeforeMonth(year - 1, 13)
  }

  /** Days since the first of January of year 0. */
  function DayNumber(d: Date): nat
    requires d.Valid()
  {
    DaysBeforeYear(d.year) + DaysBeforeMonth(d.year, d.month) + (d.day - 1)
  }

  lemma {:induction false} MonthsGrow(year: nat, a: nat, b: nat)
    requires 1 <= a < b <= 13
    ensures DaysBeforeMonth(year, a) + DaysInMonth(year, a) <= DaysBeforeMonth(year, b)
    decreases b
  {
    if a < b - 1 {
      MonthsGrow(year, a, b - 1);
    }
  }

  lemma {:induction false} YearsGrow(a: nat, b: nat)
    requires a < b
    ensures DaysBeforeYear(a) + DaysBeforeMonth(a, 13) <= DaysBeforeYear(b)
    decreases b
  {
    if a < b - 1 {
      YearsGrow(a, b - 1);
    }
  }

  lemma EarlierHasSmallerNumber(a: Date, b: Date)
    requires a.Valid() && b.Valid() && a.Before(b)
    ensures DayNumber(a) < DayNumber(b)
  {
    if a.year < b.year {
      YearsGrow(a.year, b.year);
      MonthsGrow(a.year, a.month, 13);
    } else if a.month < b.month {
      MonthsGrow(a.year, a.month, b.month);
    }
  }

  /** Comparing dates field by field is comparing days. */
  lemma DateOrder(a: Date, b: Date)
    requires a.Valid() && b.Valid()
    ensures a.Before(b) <==> DayNumber(a) < DayNumber(b)
    ensures a == b <==> DayNumber(a) == DayNumber(b)
  {
    if a.Before(b) { EarlierHasSmallerNumber(a, b); }
    if b.Before(a) { EarlierHasSmallerNumber(b, a); }
  }

  /** A year is 365 days long, or 366 if four divides it, but of the centuries only
      each fourth. */
  lemma YearsExactly(year: nat)
    ensures DaysBeforeYear(0) == 0
    ensures DaysBeforeYear(year + 1) == DaysBeforeYear(year) +
              if year % 400 == 0 || (year % 4 == 0 && year % 100 != 0) then 366 else 365
  {
    CenturiesAreFourth(year);
    hide Leap;
    MonthTable(year);
    hide DaysBeforeMonth;
  }

  /** The days of a month and those of the year before it. A year that four divides
      has a day more, but of the centuries only each fourth. */
  lemma MonthsExactly(year: nat, month: nat)
    requires 1 <= month <= 12
    ensures var leap := if Leap(year) then 1 else 0;
            && DaysBeforeMonth(year, month) ==
                 [0, 31, 59, 90, 120, 151, 181, 212, 243, 273, 304, 334][month - 1] + (if month > 2 then leap else 0)
            && DaysInMonth(year, month) ==
                 [31, 28, 31, 30, 31, 30, 31, 31, 30, 31, 30, 31][month - 1] + (if month == 2 then leap else 0)
    ensures Leap(year) ==> year % 4 == 0 && (year % 100 == 0 ==> year % 400 == 0)
    ensures !Leap(year) ==> year % 400 != 0 && (year % 4 == 0 ==> year % 100 == 0)
  {
    CenturiesAreFourth(year);
    hide Leap;
    MonthTable(year);
    hide DaysBeforeMonth;
  }

  lemma CenturiesAreFourth(year: nat)
    ensures Leap(year) <==> year % 400 == 0 || (year % 4 == 0 && year % 100 != 0)
  {
    if year % 400 == 0 {
      assert year == 100 * (4 * (year / 400)) && year == 4 * (100 * (year / 400));
    }
  }

  lemma MonthTable(year: nat)
    ensures var leap := if Leap(year) then 1 else 0;
            && DaysBeforeMonth(year, 1) == 0 && DaysBeforeMonth(year, 2) == 31
            && DaysBeforeMonth(year, 3) == 59 + leap && DaysBeforeMonth(year, 4) == 90 + leap
            && DaysBeforeMonth(year, 5) == 120 + leap && DaysBeforeMonth(year, 6) == 151 + leap
            && DaysBeforeMonth(year, 7) == 181 + leap && DaysBeforeMonth(year, 8) == 212 + leap
            && DaysBeforeMonth(year, 9) == 243 + leap && DaysBeforeMonth(year, 10) == 273 + leap
            && DaysBeforeMonth(year, 11) == 304 + leap && DaysBeforeMonth(year, 12) == 334 + leap
            && DaysBeforeMonth(year, 13) == 365 + leap
  {
    var leap := if Leap(year) then 1 else 0;
    assert DaysBeforeMonth(year, 2) == 31;
    assert DaysBeforeMonth(year, 3) == 59 + leap;
    assert DaysBeforeMonth(year, 4) == 90 + leap;
    assert DaysBeforeMonth(year, 5) == 120 + leap;
    assert DaysBeforeMonth(year, 6) == 151 + leap;
    assert DaysBeforeMonth(year, 7) == 181 + leap;
    assert DaysBeforeMonth(year, 8) == 212 + leap;
    assert DaysBeforeMonth(year, 9) == 243 + leap;
    assert DaysBeforeMonth(year, 10) == 273 + leap;
    assert DaysBeforeMonth(year, 11) == 304 + leap;
    assert DaysBeforeMonth(year, 12) == 334 + leap;
  }

  const DAY: nat := 86_400_000_000_000

  /** An instant of UTC, to the nanosecond. */
  datatype Moment = Moment(date: Date, hour: nat, minute: nat, second: nat, nanos: nat) {
    predicate Valid() {
      date.Valid() && hour < 24 && minute < 60 && second < 60 && nanos < 1_000_000_000
    }

    function TimeOfDay(): (t: nat)
      requires Valid()
      ensures t < DAY
    {
      ((hour * 60 + minute) * 60 + second) * 1_000_000_000 + nanos
    }

    /** Nanoseconds since the first of January of year 0. */
    function Instant(): nat
      requires Valid()
    {
      DayNumber(date) * DAY + TimeOfDay()
    }
  }

  // -------------------------------------------------------------------- text

  function Digit(n: nat): char
    requires n < 10
  {
    '0' + n as char
  }

  function Pow10(k: nat): (p: nat)
    ensures p > 0
  {
    if k == 0 then 1 else 10 * Pow10(k - 1)
  }

  /** n in exactly k decimal digits. */
  function Digits(k: nat, n: nat): (s: string)
    ensures |s| == k
  {
    if k == 0 then "" else Digits(k - 1, n / 10) + [Digit(n % 10)]
  }

  /** The order SQLite compares text in: by code, a prefix first. */
  predicate Below(a: string, b: string) {
    b != [] && (a == [] || a[0] < b[0] || (a[0] == b[0] && Below(a[1..], b[1..])))
  }

  lemma BelowCons(c: char, x: string, d: char, y: string)
    ensures Below([c] + x, [d] + y) <==> c < d || (c == d && Below(x, y))
  {
    assert ([c] + x)[1..] == x && ([d] + y)[1..] == y;
  }

  lemma {:induction false} BelowSame(p: string, x: string, y: string)
    ensures Below(p + x, p + y) <==> Below(x, y)
  {
    if p == [] {
      assert p + x == x && p + y == y;
    } else {
      assert p + x == [p[0]] + (p[1..] + x) && p + y == [p[0]] + (p[1..] + y);
      BelowCons(p[0], p[1..] + x, p[0], p[1..] + y);
      BelowSame(p[1..], x, y);
    }
  }

  /** Fixed-width decimals compare as numbers, then by what follows them. */
  lemma {:induction false} BelowDigits(k: nat, a: nat, x: string, b: nat, y: string)
    requires a < Pow10(k) && b < Pow10(k)
    ensures Below(Digits(k, a) + x, Digits(k, b) + y) <==> a < b || (a == b && Below(x, y))
  {
    if k == 0 {
      assert Digits(k, a) + x == x && Digits(k, b) + y == y;
    } else {
      var c, d := Digit(a % 10), Digit(b % 10);
      BelowDigits(k - 1, a / 10, [c] + x, b / 10, [d] + y);
      BelowCons(c, x, d, y);
      assert Digits(k, a) + x == Digits(k - 1, a / 10) + ([c] + x);
      assert Digits(k, b) + y == Digits(k - 1, b / 10) + ([d] + y);
    }
  }

  function DateText(d: Date): string {
    Digits(4, d.year) + ("-" + (Digits(2, d.month) + ("-" + Digits(2, d.day))))
  }

  function ClockText(m: Moment): string {
    Digits(2, m.hour) + (":" + (Digits(2, m.minute) + (":" + Digits(2, m.second))))
  }

  /** No fraction, or as many groups of three digits as it takes. */
  function FractionText(nanos: nat): string {
    if nanos == 0 then ""
    else if nanos % 1_000_000 == 0 then "." + Digits(3, nanos / 1_000_000)
    else if nanos % 1_000 == 0 then "." + Digits(6, nanos / 1_000)
    else "." + Digits(9, nanos)
  }

  /** How the program writes an expiry. */
  function Rfc3339(m: Moment): string {
    DateText(m.date) + ("T" + (ClockText(m) + (FractionText(m.nanos) + "+00:00")))
  }

  /** How SQLite writes datetime('now'). */
  function SqliteDatetime(m: Moment): string {
    DateText(m.date) + (" " + ClockText(m))
  }

  /** What a text of digits says. */
  function Number(s: string): (n: int) {
    if s == [] then 0 else 10 * Number(s[..|s| - 1]) + (s[|s| - 1] as int - '0' as int)
  }

  predicate AllDigits(s: string) {
    forall i | 0 <= i < |s| :: '0' <= s[i] <= '9'
  }

  lemma {:induction false} DigitsRead(k: nat, n: nat)
    requires n < Pow10(k)
    ensures AllDigits(Digits(k, n)) && Number(Digits(k, n)) == n
  {
    if k > 0 {
      DigitsRead(k - 1, n / 10);
      var init := Digits(k - 1, n / 10);
      assert Digits(k, n) == init + [Digit(n % 10)] && Digits(k, n)[..k - 1] == init;
    }
  }

  predicate SaysDate(t: string, d: Date) {
    && |t| == 10 && t[4] == '-' && t[7] == '-'
    && AllDigits(t[..4]) && AllDigits(t[5..7]) && AllDigits(t[8..])
    && Number(t[..4]) == d.year && Number(t[5..7]) == d.month && Number(t[8..]) == d.day
  }

  predicate SaysClock(t: string, m: Moment) {
    && |t| == 8 && t[2] == ':' && t[5] == ':'
    && AllDigits(t[..2]) && AllDigits(t[3..5]) && AllDigits(t[6..])
    && Number(t[..2]) == m.hour && Number(t[3..5]) == m.minute && Number(t[6..]) == m.second
  }

  /** The text is a date, this mark and a clock, and they are those of the moment. */
  predicate Says(t: string, mark: char, m: Moment) {
    |t| == 19 && SaysDate(t[..10], m.date) && t[10] == mark && SaysClock(t[11..], m)
  }

  lemma DateSays(d: Date)
    requires d.Valid()
    ensures SaysDate(DateText(d), d)
  {
    assert Pow10(4) == 10000 && Pow10(2) == 100;
    DigitsRead(4, d.year);
    DigitsRead(2, d.month);
    DigitsRead(2, d.day);
    hide Digits, Number, AllDigits, Pow10;
    DateParts(Digits(4, d.year), Digits(2, d.month), Digits(2, d.day));
  }

  lemma DateParts(y: string, m: string, d: string)
    requires |y| == 4 && |m| == |d| == 2
    ensures var t := y + ("-" + (m + ("-" + d)));
            |t| == 10 && t[..4] == y && t[4] == '-' && t[5..7] == m && t[7] == '-' && t[8..] == d
  {
    var t := y + ("-" + (m + ("-" + d)));
    assert t[..4] == y;
    assert t[5..7] == m;
    assert t[8..] == d;
  }

  lemma ClockSays(m: Moment)
    requires m.Valid()
    ensures SaysClock(ClockText(m), m)
  {
    assert Pow10(2) == 100;
    DigitsRead(2, m.hour);
    DigitsRead(2, m.minute);
    DigitsRead(2, m.second);
    hide Digits, Number, AllDigits, Pow10;
    ClockParts(Digits(2, m.hour), Digits(2, m.minute), Digits(2, m.second));
  }

  lemma ClockParts(h: string, m: string, s: string)
    requires |h| == |m| == |s| == 2
    ensures var t := h + (":" + (m + (":" + s)));
            |t| == 8 && t[..2] == h && t[2] == ':' && t[3..5] == m && t[5] == ':' && t[6..] == s
  {
    var t := h + (":" + (m + (":" + s)));
    assert t[..2] == h;
    assert t[3..5] == m;
    assert t[6..] == s;
  }

  lemma BothSay(m: Moment, mark: char)
    requires m.Valid()
    ensures Says(DateText(m.date) + ([mark] + ClockText(m)), mark, m)
  {
    DateSays(m.date);
    ClockSays(m);
    hide SaysDate, SaysClock, DateText, ClockText;
    var t := DateText(m.date) + ([mark] + ClockText(m));
    assert |DateText(m.date)| == 10 && |ClockText(m)| == 8 by { Widths(m); }
    assert t[..10] == DateText(m.date) && t[11..] == ClockText(m);
  }

  lemma Widths(m: Moment)
    ensures |DateText(m.date)| == 10 && |ClockText(m)| == 8
  {
    hide Digits;
  }

  /** Both formats, told by what the text says: SQLite's is date, blank and clock to
      the second; an expiry is date, 'T' and clock, then nothing or a point and three,
      six or nine digits of the second, then the offset of UTC. */
  lemma TextsExactly(m: Moment)
    requires m.Valid()
    ensures Says(SqliteDatetime(m), ' ', m)
    ensures var t := Rfc3339(m);
            && |t| >= 25 && Says(t[..19], 'T', m) && t[|t| - 6..] == "+00:00"
            && var fraction := t[19..|t| - 6];
               if m.nanos == 0 then fraction == ""
               else
                 && |fraction| > 0 && fraction[0] == '.' && AllDigits(fraction[1..])
                 && match |fraction|
                    case 4 => Number(fraction[1..]) * 1_000_000 == m.nanos
                    case 7 => Number(fraction[1..]) * 1_000 == m.nanos
                    case 10 => Number(fraction[1..]) == m.nanos
                    case _ => false
  {
    BothSay(m, ' ');
    BothSay(m, 'T');
    FractionReads(m.nanos);
    Widths(m);
    hide Says, Number, AllDigits, DateText, ClockText, FractionText, Digits;
    var clock, f := DateText(m.date) + (['T'] + ClockText(m)), FractionText(m.nanos);
    assert Rfc3339(m) == clock + f + "+00:00";
    assert Rfc3339(m)[..19] == clock && Rfc3339(m)[19..|Rfc3339(m)| - 6] == f;
  }

  lemma FractionReads(nanos: nat)
    requires nanos < 1_000_000_000
    ensures var f := FractionText(nanos);
            if nanos == 0 then f == ""
            else
              && |f| > 0 && f[0] == '.' && AllDigits(f[1..])
              && match |f|
                 case 4 => Number(f[1..]) * 1_000_000 == nanos
                 case 7 => Number(f[1..]) * 1_000 == nanos
                 case 10 => Number(f[1..]) == nanos
                 case _ => false
  {
    assert Pow10(3) == 1000;
    assert Pow10(6) == 1000 * Pow10(3) && Pow10(9) == 1000 * Pow10(6);
    hide Digits, Number, AllDigits;
    if nanos > 0 {
      var (k, n) := if nanos % 1_000_000 == 0 then (3, nanos / 1_000_000)
                  else if nanos % 1_000 == 0 then (6, nanos / 1_000) else (9, nanos);
      DigitsRead(k, n);
      assert FractionText(nanos) == "." + Digits(k, n);
      assert FractionText(nanos)[1..] == Digits(k, n);
    }
  }

  lemma BelowDate(a: Date, x: string, b: Date, y: string)
    requires a.Valid() && b.Valid()
    ensures Below(DateText(a) + x, DateText(b) + y) <==> a.Before(b) || (a == b && Below(x, y))
  {
    hide Digits, Below;
    assert Pow10(4) == 10000 && Pow10(2) == 100;
    var da, db := Digits(2, a.day) + x, Digits(2, b.day) + y;
    var ma, mb := Digits(2, a.month) + ("-" + da), Digits(2, b.month) + ("-" + db);
    assert DateText(a) + x == Digits(4, a.year) + ("-" + ma);
    assert DateText(b) + y == Digits(4, b.year) + ("-" + mb);
    BelowDigits(4, a.year, "-" + ma, b.year, "-" + mb);
    BelowSame("-", ma, mb);
    BelowDigits(2, a.month, "-" + da, b.month, "-" + db);
    BelowSame("-", da, db);
    BelowDigits(2, a.day, x, b.day, y);
  }

  /** The row is kept: its expiry text is above the text of now. */
  predicate Kept(expiry: Moment, now: Moment) {
    Below(SqliteDatetime(now), Rfc3339(expiry))
  }

  /** The text test compares dates only: it holds exactly when the expiry's date
      is today or later. */
  lemma KeptExactly(expiry: Moment, now: Moment)
    requires expiry.Valid() && now.Valid()
    ensures Kept(expiry, now) <==> DayNumber(now.date) <= DayNumber(expiry.date)
  {
    hide DateText, ClockText, FractionText, Below, DayNumber;
    var x, y := ClockText(now), ClockText(expiry) + (FractionText(expiry.nanos) + "+00:00");
    BelowDate(now.date, " " + x, expiry.date, "T" + y);
    assert " " + x == [' '] + x && "T" + y == ['T'] + y;
    BelowCons(' ', x, 'T', y);
    DateOrder(now.date, expiry.date);
  }

  lemma InstantOrder(a: Moment, b: Moment)
    requires a.Valid() && b.Valid()
    ensures DayNumber(a.date) < DayNumber(b.date) ==> a.Instant() < b.Instant()
    ensures a.Instant() < (DayNumber(a.date) + 1) * DAY
    ensures DayNumber(a.date) == DayNumber(b.date) ==> (a.Instant() < b.Instant() <==> a.TimeOfDay() < b.TimeOfDay())
  {
    hide DayNumber, Moment.TimeOfDay;
    var m, n := DayNumber(a.date), DayNumber(b.date);
    if m < n {
      assert (m + 1) * DAY <= n * DAY;
    }
  }

  /** Nothing is dropped before it expires; what has expired is still kept
      exactly until the end of the UTC day it expired on. */
  lemma ExpiryByText(expiry: Moment, now: Moment)
    requires expiry.Valid() && now.Valid()
    ensures now.Instant() < expiry.Instant() ==> Kept(expiry, now)
    ensures Kept(expiry, now) <==> now.Instant() < (DayNumber(expiry.date) + 1) * DAY
    ensures Kept(expiry, now) && expiry.Instant() <= now.Instant() <==>
              DayNumber(expiry.date) == DayNumber(now.date) && expiry.TimeOfDay() <= now.TimeOfDay()
  {
    hide DayNumber, Moment.TimeOfDay, Kept;
    KeptExactly(expiry, now);
    InstantOrder(expiry, now);
    InstantOrder(now, expiry);
    var n, e := DayNumber(now.date), DayNumber(expiry.date);
    if e < n {
      assert (e + 1) * DAY <= n * DAY <= now.Instant();
    } else {
      assert (n + 1) * DAY <= (e + 1) * DAY;
    }
  }
}
