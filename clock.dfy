// Calendar values and the three timestamp formats the system writes and reads:
// "%Y-%m-%d %I:%M:%S %p" (expiry, created_at, activity time), "%Y-%m-%d" (day buckets,
// date-only expiry) and "%Y-%m-%d %H" (hour buckets), with datetime.strptime's field rules.
module Clock {
  import opened Wrappers
  import opened Text

  datatype Date = Date(year: int, month: int, day: int)

  /** A datetime; micro is the microsecond that datetime.now() carries and parsed stamps lack. */
  datatype DateTime = DateTime(date: Date, hour: int, minute: int, second: int, micro: int)

  predicate IsLeap(y: int) {
    y % 4 == 0 && (y % 100 != 0 || y % 400 == 0)
  }

  function DaysInMonth(y: int, m: int): int {
    if m == 2 then (if IsLeap(y) then 29 else 28)
    else if m == 4 || m == 6 || m == 9 || m == 11 then 30
    else 31
  }

  /** The ranges datetime.date accepts (MINYEAR = 1, MAXYEAR = 9999). */
  predicate ValidDate(d: Date) {
    1 <= d.year <= 9999 && 1 <= d.month <= 12 && 1 <= d.day <= DaysInMonth(d.year, d.month)
  }

  predicate ValidDateTime(t: DateTime) {
    ValidDate(t.date) && 0 <= t.hour < 24 && 0 <= t.minute < 60 && 0 <= t.second < 60
    && 0 <= t.micro < 1000000
  }

  function Midnight(d: Date): DateTime {
    DateTime(d, 0, 0, 0, 0)
  }

  predicate DateBefore(a: Date, b: Date) {
    a.year < b.year
    || (a.year == b.year && (a.month < b.month || (a.month == b.month && a.day < b.day)))
  }

  /** datetime's `<`: field by field, most significant first. */
  predicate Before(a: DateTime, b: DateTime) {
    DateBefore(a.date, b.date)
    || (a.date == b.date
        && (a.hour < b.hour
            || (a.hour == b.hour
                && (a.minute < b.minute
                    || (a.minute == b.minute
                        && (a.second < b.second
                            || (a.second == b.second && a.micro < b.micro)))))))
  }

  lemma BeforeIrreflexive(t: DateTime)
    ensures !Before(t, t)
  {
  }

  lemma DateBeforeTransitive(a: Date, b: Date, c: Date)
    requires DateBefore(a, b) && DateBefore(b, c)
    ensures DateBefore(a, c)
  {
  }

  /** Whatever is not before a later instant is not before an earlier one either. */
  lemma NotBeforeEarlier(e: DateTime, earlier: DateTime, later: DateTime)
    requires Before(earlier, later) && !Before(e, later)
    ensures !Before(e, earlier)
  {
    if DateBefore(e.date, earlier.date) && DateBefore(earlier.date, later.date) {
      DateBeforeTransitive(e.date, earlier.date, later.date);
    }
  }

  // ---------------------------------------------------------------------------
  // Day arithmetic (datetime.date + timedelta(days=n)) and the proleptic ordinal.

  function NextDay(d: Date): Date {
    if d.day < DaysInMonth(d.year, d.month) then Date(d.year, d.month, d.day + 1)
    else if d.month < 12 then Date(d.year, d.month + 1, 1)
    else Date(d.year + 1, 1, 1)
  }

  function AddDays(d: Date, n: nat): Date
    decreases n
  {
    if n == 0 then d else AddDays(NextDay(d), n - 1)
  }

  function YearLength(y: int): int {
    if IsLeap(y) then 366 else 365
  }

  function DaysBeforeYear(y: int): int
    decreases y
  {
    if y <= 1 then 0 else DaysBeforeYear(y - 1) + YearLength(y - 1)
  }

  function DaysBeforeMonth(y: int, m: int): int {
    var cumulative := [0, 31, 59, 90, 120, 151, 181, 212, 243, 273, 304, 334];
    (if 1 <= m <= 12 then cumulative[m - 1] else 0) + (if m > 2 && IsLeap(y) then 1 else 0)
  }

  /** date.toordinal(): 0001-01-01 is day 1. */
  function DayNumber(d: Date): int {
    DaysBeforeYear(d.year) + DaysBeforeMonth(d.year, d.month) + d.day
  }

  const LastDate := Date(9999, 12, 31)

  lemma NextDayNumber(d: Date)
    requires ValidDate(d) && d != LastDate
    ensures ValidDate(NextDay(d)) && DayNumber(NextDay(d)) == DayNumber(d) + 1
  {
    if d.day == DaysInMonth(d.year, d.month) && d.month == 12 {
      assert DaysBeforeYear(d.year + 1) == DaysBeforeYear(d.year) + YearLength(d.year);
    }
  }

  lemma {:induction false} DayNumberBelowLast(d: Date)
    requires ValidDate(d)
    ensures DayNumber(d) <= DayNumber(LastDate)
    ensures DayNumber(d) == DayNumber(LastDate) ==> d == LastDate
  {
    DaysBeforeYearMonotone(d.year, 9999);
  }

  lemma {:induction false} DaysBeforeYearMonotone(a: int, b: int)
    requires 1 <= a <= b
    ensures DaysBeforeYear(a) + (b - a) * 365 <= DaysBeforeYear(b)
    decreases b - a
  {
    if a < b {
      DaysBeforeYearMonotone(a, b - 1);
    }
  }

  /** Adding n days moves the ordinal by exactly n, as long as the result stays in range. */
  lemma {:induction false} AddDaysNumber(d: Date, n: nat)
    requires ValidDate(d) && DayNumber(d) + n <= DayNumber(LastDate)
    ensures ValidDate(AddDays(d, n)) && DayNumber(AddDays(d, n)) == DayNumber(d) + n
    decreases n
  {
    if n > 0 {
      DayNumberBelowLast(d);
      NextDayNumber(d);
      AddDaysNumber(NextDay(d), n - 1);
    }
  }

  // ---------------------------------------------------------------------------
  // strftime

  function Pad2(n: nat): string {
    Digits(n, 2)
  }

  function Year4(y: nat): string {
    Digits(y, 4)
  }

  function Hour12(h: int): int {
    if h % 12 == 0 then 12 else h % 12
  }

  function Meridiem(h: int): string {
    if h < 12 then "AM" else "PM"
  }

  /** "%Y-%m-%d" */
  function FormatDay(d: Date): string
    requires ValidDate(d)
  {
    Year4(d.year) + ("-" + (Pad2(d.month) + ("-" + Pad2(d.day))))
  }

  /** "%I:%M:%S %p" */
  function TimeText(t: DateTime): string
    requires ValidDateTime(t)
  {
    Pad2(Hour12(t.hour)) + (":" + (Pad2(t.minute) + (":" + (Pad2(t.second) + (" " + Meridiem(t.hour))))))
  }

  /** "%Y-%m-%d %I:%M:%S %p" */
  function FormatStamp(t: DateTime): string
    requires ValidDateTime(t)
  {
    FormatDay(t.date) + (" " + TimeText(t))
  }

  /** "%Y-%m-%d %H" */
  function FormatHour(t: DateTime): string
    requires ValidDateTime(t)
  {
    FormatDay(t.date) + (" " + Pad2(t.hour))
  }

  // ---------------------------------------------------------------------------
  // strptime, one directive at a time. Each directive is a regex alternation tried in
  // order; the two-character alternatives come first, and the text that follows a field
  // in these formats never starts with a digit, so taking the first alternative that
  // matches gives the regex's own match.

  datatype Field = Field(value: int, rest: string)

  function Two(a: char, b: char): int
    requires IsDigit(a) && IsDigit(b)
  {
    10 * DigitValue(a) + DigitValue(b)
  }

  /** %Y: exactly four digits. */
  function YearField(s: string): Option<Field> {
    if |s| >= 4 && AllDigits(s[..4]) then Some(Field(Decimal(s[..4]), s[4..])) else None
  }

  /** %m: 1[0-2]|0[1-9]|[1-9] */
  function MonthField(s: string): Option<Field> {
    if |s| >= 2 && s[0] == '1' && '0' <= s[1] <= '2' then Some(Field(Two(s[0], s[1]), s[2..]))
    else if |s| >= 2 && s[0] == '0' && '1' <= s[1] <= '9' then Some(Field(Two(s[0], s[1]), s[2..]))
    else if |s| >= 1 && '1' <= s[0] <= '9' then Some(Field(DigitValue(s[0]), s[1..]))
    else None
  }

  /** %d: 3[01]|[12]\d|0[1-9]|[1-9]| [1-9] */
  function DayField(s: string): Option<Field> {
    if |s| >= 2 && s[0] == '3' && '0' <= s[1] <= '1' then Some(Field(Two(s[0], s[1]), s[2..]))
    else if |s| >= 2 && '1' <= s[0] <= '2' && IsDigit(s[1]) then Some(Field(Two(s[0], s[1]), s[2..]))
    else if |s| >= 2 && s[0] == '0' && '1' <= s[1] <= '9' then Some(Field(Two(s[0], s[1]), s[2..]))
    else if |s| >= 1 && '1' <= s[0] <= '9' then Some(Field(DigitValue(s[0]), s[1..]))
    else if |s| >= 2 && s[0] == ' ' && '1' <= s[1] <= '9' then Some(Field(DigitValue(s[1]), s[2..]))
    else None
  }

  /** %I: 1[0-2]|0[1-9]|[1-9]| [1-9] */
  function Hour12Field(s: string): Option<Field> {
    if |s| >= 2 && s[0] == '1' && '0' <= s[1] <= '2' then Some(Field(Two(s[0], s[1]), s[2..]))
    else if |s| >= 2 && s[0] == '0' && '1' <= s[1] <= '9' then Some(Field(Two(s[0], s[1]), s[2..]))
    else if |s| >= 1 && '1' <= s[0] <= '9' then Some(Field(DigitValue(s[0]), s[1..]))
    else if |s| >= 2 && s[0] == ' ' && '1' <= s[1] <= '9' then Some(Field(DigitValue(s[1]), s[2..]))
    else None
  }

  /** %M: [0-5]\d|\d */
  function MinuteField(s: string): Option<Field> {
    if |s| >= 2 && '0' <= s[0] <= '5' && IsDigit(s[1]) then Some(Field(Two(s[0], s[1]), s[2..]))
    else if |s| >= 1 && IsDigit(s[0]) then Some(Field(DigitValue(s[0]), s[1..]))
    else None
  }

  /** %S: 6[0-1]|[0-5]\d|\d */
  function SecondField(s: string): Option<Field> {
    if |s| >= 2 && s[0] == '6' && '0' <= s[1] <= '1' then Some(Field(Two(s[0], s[1]), s[2..]))
    else if |s| >= 2 && '0' <= s[0] <= '5' && IsDigit(s[1]) then Some(Field(Two(s[0], s[1]), s[2..]))
    else if |s| >= 1 && IsDigit(s[0]) then Some(Field(DigitValue(s[0]), s[1..]))
    else None
  }

  /** %p, matched without regard to case: 0 for AM, 1 for PM. */
  function MeridiemField(s: string): Option<Field> {
    if |s| >= 2 && AsciiLower(s[0]) == 'a' && AsciiLower(s[1]) == 'm' then Some(Field(0, s[2..]))
    else if |s| >= 2 && AsciiLower(s[0]) == 'p' && AsciiLower(s[1]) == 'm' then Some(Field(1, s[2..]))
    else None
  }

  function SpaceRunLength(s: string): (n: nat)
    ensures n <= |s|
  {
    if s != [] && IsSpace(s[0]) then 1 + SpaceRunLength(s[1..]) else 0
  }

  /** %I with %p to a 24-hour clock: 12 AM is hour 0, 12 PM stays 12, other PM hours add 12. */
  function To24(h12: int, pm: int): int {
    if pm == 0 then (if h12 == 12 then 0 else h12)
    else (if h12 == 12 then 12 else h12 + 12)
  }

  /** The directives of the formats read here: %Y %m %d %I %M %S %p, a literal character, and a blank. */
  datatype Directive = Year | Month | Day | Hour | Minute | Second | AmPm | Lit(c: char) | Blank

  /** "%Y-%m-%d" */
  const DayFormat: seq<Directive> := [Year, Lit('-'), Month, Lit('-'), Day]

  /** "%Y-%m-%d %I:%M:%S %p": the value of directive i is at index i of what Scan reads. */
  const StampFormat: seq<Directive> :=
    [Year, Lit('-'), Month, Lit('-'), Day, Blank, Hour, Lit(':'), Minute, Lit(':'), Second, Blank, AmPm]

  /** The match of one directive at the start of s: its value (0 for a literal or a blank) and the rest. */
  function Match(d: Directive, s: string): Option<Field> {
    match d
    case Year => YearField(s)
    case Month => MonthField(s)
    case Day => DayField(s)
    case Hour => Hour12Field(s)
    case Minute => MinuteField(s)
    case Second => SecondField(s)
    case AmPm => MeridiemField(s)
    case Lit(c) => if |s| >= 1 && s[0] == c then Some(Field(0, s[1..])) else None
    case Blank => if s != [] && IsSpace(s[0]) then Some(Field(0, s[SpaceRunLength(s)..])) else None
  }

  /** A format matched directive by directive from the start of s: one value per directive, and the text left over. */
  function Scan(fmt: seq<Directive>, s: string): (r: Option<(seq<int>, string)>)
    ensures r.Some? ==> |r.value.0| == |fmt|
  {
    if fmt == [] then Some(([], s))
    else
      var f :- Match(fmt[0], s);
      Lead([f.value], Scan(fmt[1..], f.rest))
  }

  /** Values read earlier, in front of what the rest of a scan reads. */
  function Lead(vs: seq<int>, r: Option<(seq<int>, string)>): (l: Option<(seq<int>, string)>)
    ensures l.Some? <==> r.Some?
    ensures l.Some? ==> |l.value.0| == |vs| + |r.value.0|
  {
    match r
    case None => None
    case Some(more) => Some((vs + more.0, more.1))
  }

  /** datetime.strptime(s, "%Y-%m-%d %I:%M:%S %p"); None where it raises ValueError. */
  function ParseStamp(s: string): (r: Option<DateTime>)
    ensures r.Some? ==> ValidDateTime(r.value) && r.value.micro == 0
  {
    var scanned :- Scan(StampFormat, s);
    var v := scanned.0;
    var t := DateTime(Date(v[0], v[2], v[4]), To24(v[6], v[12]), v[8], v[10], 0);
    if scanned.1 == [] && ValidDateTime(t) then Some(t) else None
  }

  /** datetime.strptime(s, "%Y-%m-%d") as a date; None where it raises ValueError. */
  function ParseDay(s: string): (r: Option<Date>)
    ensures r.Some? ==> ValidDate(r.value)
  {
    var scanned :- Scan(DayFormat, s);
    var v := scanned.0;
    var d := Date(v[0], v[2], v[4]);
    if scanned.1 == [] && ValidDate(d) then Some(d) else None
  }

  // ---------------------------------------------------------------------------
  // Reading back what strftime wrote.

  /** One step of Scan, for a directive known to match. */
  lemma ScanStep(fmt: seq<Directive>, s: string, v: int, r: string)
    requires fmt != [] && Match(fmt[0], s) == Some(Field(v, r))
    ensures Scan(fmt, s) == Lead([v], Scan(fmt[1..], r))
  {
  }

  /** One step of Scan, for a directive known to match before a rest known to scan. */
  lemma ScanSome(fmt: seq<Directive>, s: string, v: int, r: string, vs: seq<int>, left: string)
    requires fmt != [] && Match(fmt[0], s) == Some(Field(v, r))
    requires Scan(fmt[1..], r) == Some((vs, left))
    ensures Scan(fmt, s) == Some(([v] + vs, left))
  {
    ScanStep(fmt, s, v, r);
  }

  lemma LeadLead(a: seq<int>, b: seq<int>, r: Option<(seq<int>, string)>)
    ensures Lead(a, Lead(b, r)) == Lead(a + b, r)
  {
    if r.Some? {
      assert a + (b + r.value.0) == (a + b) + r.value.0;
    }
  }

  lemma Pad2Chars(n: nat)
    requires n < 100
    ensures Pad2(n) == [DigitChar(n / 10), DigitChar(n % 10)]
  {
    assert Digits(n / 10, 1) == Digits(n / 100, 0) + [DigitChar((n / 10) % 10)];
  }

  lemma YearOf(y: nat, rest: string)
    requires y < 10000
    ensures Match(Year, Year4(y) + rest) == Some(Field(y, rest))
  {
    var s := Year4(y) + rest;
    assert s[..4] == Year4(y);
    assert s[4..] == rest;
    DecimalOfDigits(y, 4);
  }

  lemma MonthOf(m: nat, rest: string)
    requires 1 <= m <= 12
    ensures Match(Month, Pad2(m) + rest) == Some(Field(m, rest))
  {
    Pad2Chars(m);
    assert (Pad2(m) + rest)[2..] == rest;
  }

  lemma DayOf(d: nat, rest: string)
    requires 1 <= d <= 31
    ensures Match(Day, Pad2(d) + rest) == Some(Field(d, rest))
  {
    Pad2Chars(d);
    assert (Pad2(d) + rest)[2..] == rest;
  }

  lemma HourOf(h: nat, rest: string)
    requires 1 <= h <= 12
    ensures Match(Hour, Pad2(h) + rest) == Some(Field(h, rest))
  {
    Pad2Chars(h);
    assert (Pad2(h) + rest)[2..] == rest;
  }

  lemma MinuteOf(m: nat, rest: string)
    requires m < 60
    ensures Match(Minute, Pad2(m) + rest) == Some(Field(m, rest))
  {
    Pad2Chars(m);
    assert (Pad2(m) + rest)[2..] == rest;
  }

  lemma SecondOf(s: nat, rest: string)
    requires s < 60
    ensures Match(Second, Pad2(s) + rest) == Some(Field(s, rest))
  {
    Pad2Chars(s);
    assert (Pad2(s) + rest)[2..] == rest;
  }

  lemma LitOf(c: char, rest: string)
    ensures Match(Lit(c), [c] + rest) == Some(Field(0, rest))
  {
    assert ([c] + rest)[1..] == rest;
  }

  /** A single blank before text that does not start with whitespace. */
  lemma BlankOf(rest: string)
    requires rest == [] || !IsSpace(rest[0])
    ensures Match(Blank, " " + rest) == Some(Field(0, rest))
  {
    assert (" " + rest)[1..] == rest;
    assert SpaceRunLength(rest) == 0;
    assert SpaceRunLength(" " + rest) == 1;
  }

  lemma AmPmOf(h: int)
    ensures Match(AmPm, Meridiem(h)) == Some(Field(PmFlag(h), []))
  {
    assert Meridiem(h)[2..] == [];
  }

  /** Scanning one format after another: the second goes on from where the first stopped. */
  lemma {:induction false} ScanConcat(f1: seq<Directive>, f2: seq<Directive>, s: string)
    ensures Scan(f1 + f2, s) ==
      match Scan(f1, s)
      case None => None
      case Some(p) => Lead(p.0, Scan(f2, p.1))
  {
    if f1 == [] {
      assert f1 + f2 == f2;
      var r := Scan(f2, s);
      if r.Some? {
        assert [] + r.value.0 == r.value.0;
      }
    } else {
      assert (f1 + f2)[0] == f1[0] && (f1 + f2)[1..] == f1[1..] + f2;
      match Match(f1[0], s)
      case None =>
      case Some(f) =>
        ScanConcat(f1[1..], f2, f.rest);
        var inner := Scan(f1[1..], f.rest);
        if inner.Some? {
          LeadLead([f.value], inner.value.0, Scan(f2, inner.value.1));
        }
    }
  }

  /** The values Scan reads from "%Y-%m-%d", nested as Scan builds them. */
  function DayValues(d: Date): seq<int> {
    [d.year] + ([0] + ([d.month] + ([0] + ([d.day] + []))))
  }

  /** "-%d" at the end of a date. */
  lemma ScanDayTailOf(d: Date, rest: string)
    requires ValidDate(d)
    ensures Scan(DayFormat[3..], "-" + (Pad2(d.day) + rest)) == Some(([0] + ([d.day] + []), rest))
  {
    var fmt := DayFormat[3..];
    var s4 := Pad2(d.day) + rest;
    assert fmt == [Lit('-'), Day];
    DayOf(d.day, rest);
    assert fmt[1..][1..] == [];
    ScanSome(fmt[1..], s4, d.day, rest, [], rest);
    LitOf('-', s4);
    ScanSome(fmt, "-" + s4, 0, s4, [d.day] + [], rest);
  }

  /** "-%m-%d" after the year. */
  lemma ScanMonthDayOf(d: Date, rest: string)
    requires ValidDate(d)
    ensures Scan(DayFormat[1..], "-" + (Pad2(d.month) + ("-" + (Pad2(d.day) + rest)))) == Some((DayValues(d)[1..], rest))
  {
    var fmt := DayFormat[1..];
    var s3 := "-" + (Pad2(d.day) + rest);
    var s2 := Pad2(d.month) + s3;
    assert fmt == [Lit('-'), Month, Lit('-'), Day];
    ScanDayTailOf(d, rest);
    assert fmt[2..] == DayFormat[3..];
    MonthOf(d.month, s3);
    ScanSome(fmt[1..], s2, d.month, s3, [0] + ([d.day] + []), rest);
    LitOf('-', s2);
    ScanSome(fmt, "-" + s2, 0, s2, [d.month] + ([0] + ([d.day] + [])), rest);
  }

  /** "%Y-%m-%d" reads a written date back, and stops where the date ends. */
  lemma ScanDayOf(d: Date, rest: string)
    requires ValidDate(d)
    ensures Scan(DayFormat, FormatDay(d) + rest) == Some((DayValues(d), rest))
  {
    var s1 := "-" + (Pad2(d.month) + ("-" + (Pad2(d.day) + rest)));
    ScanMonthDayOf(d, rest);
    YearOf(d.year, s1);
    assert FormatDay(d) + rest == Year4(d.year) + s1;
    ScanSome(DayFormat, Year4(d.year) + s1, d.year, s1, DayValues(d)[1..], rest);
  }

  /** The %p flag strptime reads from what Meridiem wrote: 0 for AM, 1 for PM. */
  function PmFlag(h: int): int {
    if h < 12 then 0 else 1
  }

  /** The values Scan reads from "%S %p", nested as Scan builds them. */
  function SecondsValues(sec: int, h: int): seq<int> {
    [sec] + ([0] + ([PmFlag(h)] + []))
  }

  /** The values Scan reads from ":%M:%S %p". */
  function MinutesValues(minute: int, sec: int, h: int): seq<int> {
    [0] + ([minute] + ([0] + SecondsValues(sec, h)))
  }

  /** "%S %p" at the end of a stamp. */
  lemma ScanSecondsOf(sec: nat, h: int)
    requires sec < 60
    ensures Scan(StampFormat[10..], Pad2(sec) + (" " + Meridiem(h))) == Some((SecondsValues(sec, h), []))
  {
    var fmt := StampFormat[10..];
    var pm := PmFlag(h);
    var s7 := Meridiem(h);
    var s6 := " " + s7;
    assert fmt == [Second, Blank, AmPm];
    AmPmOf(h);
    assert fmt[2..][1..] == [];
    ScanSome(fmt[2..], s7, pm, [], [], []);
    BlankOf(s7);
    assert fmt[1..][1..] == fmt[2..];
    ScanSome(fmt[1..], s6, 0, s7, [pm] + [], []);
    SecondOf(sec, s6);
    ScanSome(fmt, Pad2(sec) + s6, sec, s6, [0] + ([pm] + []), []);
  }

  /** ":%M:" before the seconds. */
  lemma ScanMinutesOf(minute: nat, sec: nat, h: int)
    requires minute < 60 && sec < 60
    ensures Scan(StampFormat[7..], ":" + (Pad2(minute) + (":" + (Pad2(sec) + (" " + Meridiem(h)))))) ==
      Some((MinutesValues(minute, sec, h), []))
  {
    var fmt := StampFormat[7..];
    var pm := PmFlag(h);
    var s5 := Pad2(sec) + (" " + Meridiem(h));
    var s4 := ":" + s5;
    var s3 := Pad2(minute) + s4;
    assert fmt == [Lit(':'), Minute, Lit(':'), Second, Blank, AmPm];
    ScanSecondsOf(sec, h);
    assert fmt[3..] == StampFormat[10..];
    LitOf(':', s5);
    assert fmt[2..][1..] == fmt[3..];
    var vs := SecondsValues(sec, h);
    ScanSome(fmt[2..], s4, 0, s5, vs, []);
    MinuteOf(minute, s4);
    assert fmt[1..][1..] == fmt[2..];
    ScanSome(fmt[1..], s3, minute, s4, [0] + vs, []);
    LitOf(':', s3);
    ScanSome(fmt, ":" + s3, 0, s3, [minute] + ([0] + vs), []);
  }

  /** " %I" before the minutes. */
  lemma ScanHourOf(h12: nat, minute: nat, sec: nat, h: int)
    requires 1 <= h12 <= 12 && minute < 60 && sec < 60
    ensures Scan(StampFormat[5..], " " + (Pad2(h12) + (":" + (Pad2(minute) + (":" + (Pad2(sec) + (" " + Meridiem(h)))))))) ==
      Some(([0] + ([h12] + MinutesValues(minute, sec, h)), []))
  {
    var fmt := StampFormat[5..];
    var s2 := ":" + (Pad2(minute) + (":" + (Pad2(sec) + (" " + Meridiem(h)))));
    var s1 := Pad2(h12) + s2;
    var vs := MinutesValues(minute, sec, h);
    assert fmt == [Blank, Hour, Lit(':'), Minute, Lit(':'), Second, Blank, AmPm];
    ScanMinutesOf(minute, sec, h);
    assert fmt[2..] == StampFormat[7..];
    HourOf(h12, s2);
    assert fmt[1..][1..] == fmt[2..];
    ScanSome(fmt[1..], s1, h12, s2, vs, []);
    Pad2Chars(h12);
    BlankOf(s1);
    ScanSome(fmt, " " + s1, 0, s1, [h12] + vs, []);
  }

  /** " %I:%M:%S %p" reads the time of day back, as the 12-hour clock and the meridiem flag. */
  lemma ScanTimeOf(t: DateTime)
    requires ValidDateTime(t)
    ensures Scan(StampFormat[5..], " " + TimeText(t)) ==
      Some(([0] + ([Hour12(t.hour)] + MinutesValues(t.minute, t.second, t.hour)), []))
  {
    ScanHourOf(Hour12(t.hour), t.minute, t.second, t.hour);
  }

  lemma To24OfHour12(h: int)
    requires 0 <= h < 24
    ensures To24(Hour12(h), PmFlag(h)) == h
  {
  }

  /** A stamp written with "%Y-%m-%d %I:%M:%S %p" reads back as the same second. */
  lemma ParseStampOfFormat(t: DateTime)
    requires ValidDateTime(t) && 1000 <= t.date.year
    ensures ParseStamp(FormatStamp(t)) == Some(t.(micro := 0))
  {
    ScanStampOf(t);
    To24OfHour12(t.hour);
  }

  /** Scanning a whole stamp reads each field back into its slot and leaves nothing over. */
  lemma ScanStampOf(t: DateTime)
    requires ValidDateTime(t)
    ensures var r := Scan(StampFormat, FormatStamp(t));
      && r.Some? && r.value.1 == [] && |r.value.0| == 13
      && r.value.0[0] == t.date.year && r.value.0[2] == t.date.month && r.value.0[4] == t.date.day
      && r.value.0[6] == Hour12(t.hour) && r.value.0[8] == t.minute && r.value.0[10] == t.second
      && r.value.0[12] == PmFlag(t.hour)
  {
    assert StampFormat == DayFormat + StampFormat[5..];
    ScanConcat(DayFormat, StampFormat[5..], FormatStamp(t));
    ScanDayOf(t.date, " " + TimeText(t));
    ScanTimeOf(t);
  }

  /** A date written with "%Y-%m-%d" reads back as the same date. */
  lemma ParseDayOfFormat(d: Date)
    requires ValidDate(d) && 1000 <= d.year
    ensures ParseDay(FormatDay(d)) == Some(d)
  {
    ScanDayOf(d, []);
    assert FormatDay(d) + [] == FormatDay(d);
  }

  /** A date-only text never parses with the time-of-day format, so the fallback decides it. */
  lemma ParseStampOfDay(d: Date)
    requires ValidDate(d)
    ensures ParseStamp(FormatDay(d)) == None
  {
    assert StampFormat == DayFormat + StampFormat[5..];
    ScanConcat(DayFormat, StampFormat[5..], FormatDay(d));
    ScanDayOf(d, []);
    assert FormatDay(d) + [] == FormatDay(d);
    assert StampFormat[5..][0] == Blank;
  }

  /** A full stamp is not a date: "%Y-%m-%d" leaves " hh:mm:ss AM" unconverted. */
  lemma ParseDayOfStamp(t: DateTime)
    requires ValidDateTime(t)
    ensures ParseDay(FormatStamp(t)) == None
  {
    ScanDayOf(t.date, " " + TimeText(t));
  }
}
