/**
 * Calendar dates as the site handles them: 'Y-m-d' values, day-by-day
 * addition as PHP's "+N days", the "+1 month" and "+1 year" steps of the
 * archive action, and the DATE_FORMAT parts used by the archive buckets.
 */
module Dates {
  import opened Common

  datatype Date = Date(year: int, month: int, day: int) {
    /** A real day of the proleptic Gregorian calendar. */
    predicate Valid() {
      1 <= month <= 12 && 1 <= day <= DaysInMonth(year, month)
    }
  }

  type ValidDate = d: Date | d.Valid() witness Date(1970, 1, 1)

  /**
   * What PHP's strtotime makes of a text: the day it denotes, or None
   * where strtotime returns false. Its grammar is not part of this model.
   */
  type DateParser = string -> Option<ValidDate>

  /** strtotime reads the text as that day. */
  predicate ReadsAs(strtotime: DateParser, s: string, d: Date) {
    strtotime(s).Some? && strtotime(s).value == d
  }

  /** `date('Y-m-d', false)`: a failed strtotime reads as timestamp 0. */
  const Epoch: ValidDate := Date(1970, 1, 1)

  predicate IsLeapYear(y: int) {
    (y % 4 == 0 && y % 100 != 0) || y % 400 == 0
  }

  function DaysInMonth(y: int, m: int): int {
    if m == 2 then (if IsLeapYear(y) then 29 else 28)
    else if m == 4 || m == 6 || m == 9 || m == 11 then 30
    else 31
  }

  /** Calendar order; on valid dates it is the order of their 'Y-m-d' strings. */
  predicate Before(a: Date, b: Date) {
    a.year < b.year ||
    (a.year == b.year && (a.month < b.month || (a.month == b.month && a.day < b.day)))
  }

  predicate AtOrBefore(a: Date, b: Date) {
    a == b || Before(a, b)
  }

  /** The following day: no valid date lies strictly between the two. */
  function NextDay(d: Date): (r: Date)
    requires d.Valid()
    ensures r.Valid() && Before(d, r)
  {
    if d.day < DaysInMonth(d.year, d.month) then Date(d.year, d.month, d.day + 1)
    else if d.month < 12 then Date(d.year, d.month + 1, 1)
    else Date(d.year + 1, 1, 1)
  }

  /** The preceding day: no valid date lies strictly between the two. */
  function PrevDay(d: Date): (r: Date)
    requires d.Valid()
    ensures r.Valid() && Before(r, d)
  {
    if d.day > 1 then Date(d.year, d.month, d.day - 1)
    else if d.month > 1 then Date(d.year, d.month - 1, DaysInMonth(d.year, d.month - 1))
    else Date(d.year - 1, 12, 31)
  }

  /** No valid date lies strictly between a day and the next; PrevDay undoes NextDay. */
  lemma NextDayIsNext(d: Date, e: Date)
    requires d.Valid() && e.Valid()
    ensures Before(d, e) ==> AtOrBefore(NextDay(d), e)
    ensures Before(e, d) ==> AtOrBefore(e, PrevDay(d))
    ensures PrevDay(NextDay(d)) == d && NextDay(PrevDay(d)) == d
  {
  }

  /** PHP's "+n days" on a date (n may be negative). */
  function AddDays(d: Date, n: int): (r: Date)
    requires d.Valid()
    ensures r.Valid()
    ensures n == 0 ==> r == d
    ensures n > 0 ==> Before(d, r)
    ensures n < 0 ==> Before(r, d)
    decreases if n < 0 then -n else n
  {
    if n == 0 then d
    else if n > 0 then AddDays(NextDay(d), n - 1)
    else AddDays(PrevDay(d), n + 1)
  }

  /** Adding days in two steps is adding their sum. */
  lemma {:induction false} AddDaysAdd(d: Date, a: nat, b: nat)
    requires d.Valid()
    ensures AddDays(AddDays(d, a), b) == AddDays(d, a + b)
    decreases a
  {
    if a > 0 {
      AddDaysAdd(NextDay(d), a - 1, b);
    }
  }

  /** A longer stay ends no earlier than a shorter one. */
  lemma AddDaysMonotone(d: Date, n: nat, m: nat)
    requires d.Valid() && n <= m
    ensures AtOrBefore(AddDays(d, n), AddDays(d, m))
  {
    AddDaysAdd(d, n, m - n);
  }

  /**
   * PHP's "+1 month": the same day number in the next month, where a day
   * past that month's end runs on into the month after.
   */
  function AddOneMonth(d: Date): (r: Date)
    requires d.Valid()
    ensures r.Valid() && Before(d, r)
  {
    var first := if d.month < 12 then Date(d.year, d.month + 1, 1) else Date(d.year + 1, 1, 1);
    AddDays(first, d.day - 1)
  }

  /** PHP's "+1 year": the same month and day next year (29 February runs on to 1 March). */
  function AddOneYear(d: Date): (r: Date)
    requires d.Valid()
    ensures r.Valid() && Before(d, r)
  {
    AddDays(Date(d.year + 1, d.month, 1), d.day - 1)
  }

  /** From the first of a month, "+1 month" is the first of the next month. */
  lemma AddOneMonthFromFirst(d: Date)
    requires d.Valid() && d.day == 1
    ensures AddOneMonth(d) == (if d.month < 12 then Date(d.year, d.month + 1, 1) else Date(d.year + 1, 1, 1))
  {
  }

  /**
   * The half-open interval [Y-M-01, Y-M-01 +1 month) holds exactly the
   * days of month M of year Y.
   */
  lemma MonthInterval(y: int, m: int, e: Date)
    requires 1 <= m <= 12 && e.Valid()
    ensures AtOrBefore(Date(y, m, 1), e) && Before(e, AddOneMonth(Date(y, m, 1)))
            <==> e.year == y && e.month == m
  {
    AddOneMonthFromFirst(Date(y, m, 1));
  }

  /** "+1 year" from 1 January is the next 1 January. */
  lemma NewYearPlusOneYear(y: int)
    ensures AddOneYear(Date(y, 1, 1)) == Date(y + 1, 1, 1)
  {
    assert Date(y, 1, 1).day - 1 == 0;
  }

  /** The half-open interval [Y-01-01, Y-01-01 +1 year) holds exactly the days of year Y. */
  lemma YearInterval(y: int, e: Date)
    requires e.Valid()
    ensures AtOrBefore(Date(y, 1, 1), e) && Before(e, AddOneYear(Date(y, 1, 1)))
            <==> e.year == y
  {
    assert AddOneYear(Date(y, 1, 1)) == Date(y + 1, 1, 1);
  }

  // ---------------------------------------------------------------------
  // DATE_FORMAT parts: %Y (four digits), %M (month name), %m (two digits)
  // ---------------------------------------------------------------------

  predicate FourDigitYear(y: int) { 0 <= y <= 9999 }

  function YearString(y: int): (s: string)
    requires FourDigitYear(y)
    ensures |s| == 4 && AllDigits(s)
  {
    var r1 := y % 1000;
    var r2 := r1 % 100;
    [DigitChar(y / 1000), DigitChar(r1 / 100), DigitChar(r2 / 10), DigitChar(r2 % 10)]
  }

  function MonthNumberString(m: int): (s: string)
    requires 1 <= m <= 12
    ensures |s| == 2 && AllDigits(s)
  {
    [DigitChar(m / 10), DigitChar(m % 10)]
  }

  function MonthName(m: int): string
    requires 1 <= m <= 12
  {
    ["January", "February", "March", "April", "May", "June", "July",
     "August", "September", "October", "November", "December"][m - 1]
  }

  /** Day of month as two digits (%d). */
  function DayString(d: int): (s: string)
    requires 1 <= d <= 31
    ensures |s| == 2 && AllDigits(s)
  {
    [DigitChar(d / 10), DigitChar(d % 10)]
  }

  /** The four year digits read back as the year. */
  lemma YearStringValue(y: int)
    requires FourDigitYear(y)
    ensures DigitsValue(YearString(y)) == y
  {
    var s := YearString(y);
    var r1 := y % 1000;
    var r2 := r1 % 100;
    var a, b, c, d := y / 1000, r1 / 100, r2 / 10, r2 % 10;
    assert DigitsValue(s[..1]) == a by { assert s[..1][..0] == []; }
    assert DigitsValue(s[..2]) == a * 10 + b by { assert s[..2][..1] == s[..1]; }
    assert DigitsValue(s[..3]) == (a * 10 + b) * 10 + c by { assert s[..3][..2] == s[..2]; }
    assert s[..4] == s;
    assert y == 1000 * a + 100 * b + 10 * c + d;
  }

  lemma MonthNumberStringValue(m: int)
    requires 1 <= m <= 12
    ensures DigitsValue(MonthNumberString(m)) == m
  {
    var s := MonthNumberString(m);
    assert DigitsValue(s[..1]) == m / 10 by { assert s[..1][..0] == []; }
    assert s[..2] == s;
  }

  lemma DayStringValue(d: int)
    requires 1 <= d <= 31
    ensures DigitsValue(DayString(d)) == d
  {
    var s := DayString(d);
    assert DigitsValue(s[..1]) == d / 10 by { assert s[..1][..0] == []; }
    assert s[..2] == s;
  }

  /** '%Y%m' determines the year and month: equal texts mean the same month. */
  lemma YearMonthStringInjective(y1: int, m1: int, y2: int, m2: int)
    requires FourDigitYear(y1) && FourDigitYear(y2) && 1 <= m1 <= 12 && 1 <= m2 <= 12
    ensures YearString(y1) + MonthNumberString(m1) == YearString(y2) + MonthNumberString(m2)
            <==> y1 == y2 && m1 == m2
  {
    var a, b := YearString(y1) + MonthNumberString(m1), YearString(y2) + MonthNumberString(m2);
    if a == b {
      assert YearString(y1) == a[..4] == b[..4] == YearString(y2);
      assert MonthNumberString(m1) == a[4..] == b[4..] == MonthNumberString(m2);
      YearStringValue(y1);
      YearStringValue(y2);
      MonthNumberStringValue(m1);
      MonthNumberStringValue(m2);
    }
  }

  // ---------------------------------------------------------------------
  // Relative dates: strtotime("+<raw> days", $start)
  // ---------------------------------------------------------------------

  predicate IsSign(c: char) { c == '+' || c == '-' }

  predicate IsBlank(c: char) { c == ' ' || c == '\t' }

  /** The run of sign characters at the head of `s`. */
  function LeadingSigns(s: string): (r: string)
    ensures |r| <= |s|
  {
    if s == [] || !IsSign(s[0]) then [] else [s[0]] + LeadingSigns(s[1..])
  }

  function SkipBlanks(s: string): (r: string)
    ensures |r| <= |s|
  {
    if s != [] && IsBlank(s[0]) then SkipBlanks(s[1..]) else s
  }

  /** The number of minus signs; an odd count makes the number negative. */
  function Minuses(signs: string): nat {
    if signs == [] then 0 else (if signs[0] == '-' then 1 else 0) + Minuses(signs[1..])
  }

  /**
   * The day count of "+<raw> days": signs, blanks, one to thirteen digits
   * and blanks, or None where strtotime cannot read the text.
   */
  function RelativeDays(raw: string): Option<int> {
    var text := "+" + raw;
    var signs := LeadingSigns(text);
    SignedCount(Minuses(signs), SkipBlanks(text[|signs|..]))
  }

  /** One to thirteen digits and trailing blanks, negated after an odd number of minus signs. */
  function SignedCount(minuses: nat, s: string): Option<int> {
    var digits := LeadingDigits(s);
    if 1 <= |digits| <= 13 && SkipBlanks(s[|digits|..]) == [] then
      Some(Signed(minuses, DigitsValue(digits)))
    else None
  }

  /** A count negated by an odd number of minus signs. */
  function Signed(minuses: nat, v: nat): int {
    if minuses % 2 == 1 then 0 - v else v
  }

  lemma {:induction false} SignedCountOfDigits(minuses: nat, ds: string)
    requires AllDigits(ds) && ds != []
    ensures SignedCount(minuses, ds) == if |ds| <= 13 then Some(Signed(minuses, DigitsValue(ds))) else None
  {
    LeadingDigitsOfDigits(ds);
    var digits := LeadingDigits(ds);
    assert digits == ds;
    assert ds[|digits|..] == [];
    assert SkipBlanks([]) == [];
  }

  /** A plain run of digits reads back as its value, up to thirteen digits. */
  lemma {:induction false} RelativeDaysOfDigits(raw: string)
    requires AllDigits(raw) && raw != []
    ensures |raw| <= 13 ==> RelativeDays(raw) == Some(IntCast(raw))
    ensures |raw| > 13 ==> RelativeDays(raw) == None
  {
    var text := "+" + raw;
    assert text[1..] == raw;
    assert !IsSign(raw[0]) && !IsBlank(raw[0]);
    assert LeadingSigns(raw) == [];
    var signs := LeadingSigns(text);
    assert signs == "+";
    assert Minuses(signs) == 0 by {
      assert signs[1..] == [];
    }
    assert text[|signs|..] == raw;
    assert SkipBlanks(raw) == raw;
    SignedCountOfDigits(0, raw);
    DigitsReading(raw);
  }

  lemma {:induction false} MinusSignOnce(ds: string)
    requires AllDigits(ds) && ds != []
    ensures RelativeDays("-" + ds) == SignedCount(1, ds)
  {
    var tail := "-" + ds;
    var text := "+" + tail;
    assert text[1..] == tail && tail[1..] == ds;
    assert !IsSign(ds[0]) && !IsBlank(ds[0]);
    assert LeadingSigns(ds) == [];
    assert LeadingSigns(tail) == "-";
    var signs := LeadingSigns(text);
    assert signs == "+-";
    var minus: string := "-";
    assert Minuses(minus) == 1 by {
      assert minus[1..] == [];
    }
    assert signs[1..] == minus;
    assert Minuses(signs) == 1;
    assert text[|signs|..] == ds;
    assert SkipBlanks(ds) == ds;
  }

  /** A minus sign before the digits negates the count. */
  lemma {:induction false} RelativeDaysOfNegative(ds: string)
    requires AllDigits(ds) && ds != []
    ensures RelativeDays("-" + ds) == if |ds| <= 13 then Some(0 - DigitsValue(ds)) else None
  {
    MinusSignOnce(ds);
    SignedCountOfDigits(1, ds);
  }

  /**
   * "+" . (int)$n . " days": strtotime reads the integer back exactly when
   * it has at most thirteen digits, and cannot read it otherwise.
   */
  lemma {:induction false} RelativeDaysOfInt(n: int)
    ensures -(Pow10(13) as int) < n < Pow10(13) ==> RelativeDays(IntToString(n)) == Some(n)
    ensures (n <= -(Pow10(13) as int) || Pow10(13) <= n) ==> RelativeDays(IntToString(n)) == None
  {
    var m: nat := if n < 0 then -n else n;
    var ds := NatToString(m);
    NatToStringLength(m, 13);
    NatToStringValue(m);
    if n < 0 {
      assert IntToString(n) == "-" + ds;
      RelativeDaysOfNegative(ds);
    } else {
      assert IntToString(n) == ds;
      RelativeDaysOfDigits(ds);
      DigitsReading(ds);
    }
  }

  /** No Nights at all gives "+ days", which strtotime cannot read. */
  lemma RelativeDaysOfNothing()
    ensures RelativeDays("") == None
  {
    var text := "+";
    assert LeadingSigns(text) == "+" by {
      assert LeadingSigns(text[1..]) == [];
    }
    assert text[1..] == [];
  }

  /**
   * `date('Y-m-d', strtotime("+<raw> days", $start))`: the start moved by
   * the day count, or 1970-01-01 where strtotime cannot read the text.
   */
  function RelativeEnd(start: ValidDate, raw: string): ValidDate {
    match RelativeDays(raw)
    case None => Epoch
    case Some(n) => AddDays(start, n)
  }

  // ---------------------------------------------------------------------
  // 'Y-m-d' texts, and how a Date field reads a filter value
  // ---------------------------------------------------------------------

  /** `date('Y')`: a minus sign before a year BCE, then at least four digits. */
  function YearText(y: int): (s: string)
    ensures y >= 1000 ==> s == NatToString(y)
  {
    var n: nat := if y < 0 then -y else y;
    var digits := if n < 1000 then YearString(n) else NatToString(n);
    if y < 0 then "-" + digits else digits
  }

  /** `date('Y-m-d')` of a day. */
  function DateText(d: Date): string
    requires d.Valid()
  {
    YearText(d.year) + "-" + MonthNumberString(d.month) + "-" + DayString(d.day)
  }

  /**
   * What a Date field holds after `setValue`, as the filter hands it to the
   * database: a day, NULL (which compares with no row), or nothing because
   * `setValue` threw.
   */
  datatype DateValue = DayValue(day: Date) | NullValue | Rejected

  /** The framework version the site runs on; the two read filter dates differently. */
  datatype Version = SilverStripe3 | SilverStripe4

  /** The separators of `DBDate`'s pattern: '-', '/', '\\' and '.'. */
  predicate IsDateSeparator(c: char) { c == '-' || c == '/' || c == '\\' || c == '.' }

  /** The three digit groups and the trailing time text of a date text. */
  datatype DateParts = DateParts(first: string, second: string, third: string, time: string)

  /** `\d+` and one separator at the head of `s`: the digits and what follows the separator. */
  function DigitGroup(s: string): (r: Option<(string, string)>)
    ensures r.Some? ==> r.value.0 != [] && AllDigits(r.value.0)
  {
    var ds := LeadingDigits(s);
    if ds != [] && |ds| < |s| && IsDateSeparator(s[|ds|]) then Some((ds, s[|ds| + 1..])) else None
  }

  predicate NoNewline(s: string) {
    forall i :: 0 <= i < |s| ==> s[i] != '\n'
  }

  /** `(.*)$`: the rest of the text, less one final newline, with no other newline in it. */
  function TimePart(rest: string): (r: Option<string>)
    ensures r.Some? ==> NoNewline(r.value)
  {
    if NoNewline(rest) then Some(rest)
    else if rest != [] && rest[|rest| - 1] == '\n' && NoNewline(rest[..|rest| - 1]) then Some(rest[..|rest| - 1])
    else None
  }

  /** `explodeDateString`'s match of `^(\d+)[-/\\.](\d+)[-/\\.](\d+)(.*)$`, before any reordering. */
  function ExplodeDateString(s: string): (r: Option<DateParts>)
    ensures r.Some? ==> r.value.first != [] && AllDigits(r.value.first)
    ensures r.Some? ==> r.value.second != [] && AllDigits(r.value.second)
    ensures r.Some? ==> r.value.third != [] && AllDigits(r.value.third)
  {
    match DigitGroup(s)
    case None => None
    case Some((first, r1)) =>
      match DigitGroup(r1)
      case None => None
      case Some((second, r2)) =>
        var third := LeadingDigits(r2);
        if third == [] then None
        else
          match TimePart(r2[|third|..])
          case None => None
          case Some(time) => Some(DateParts(first, second, third, time))
  }

  /** The day of a Unix timestamp (the time zone is not modelled). */
  function TimestampDay(t: int): ValidDate {
    AddDays(Epoch, t / 86400)
  }

  /** strtotime's reading where failing throws: `format(false)` gives false and `setValue` throws. */
  function StrictReading(r: Option<ValidDate>): DateValue {
    match r
    case None => Rejected
    case Some(d) => DayValue(d)
  }

  /**
   * `fixInputDate` on split parts: a short first and a long last group
   * are d-m-y and are reversed; a year below 1000 other than 0 throws;
   * all zeros is NULL; a date `checkdate` refuses throws; the rest is
   * printed "%d-%02d-%02d<time>" and read by strtotime.
   */
  function FixInputDate(strtotime: DateParser, p: DateParts): DateValue
    requires AllDigits(p.first) && AllDigits(p.second) && AllDigits(p.third)
  {
    var a, b, c := DigitsValue(p.first), DigitsValue(p.second), DigitsValue(p.third);
    var flip := a < 1000 && c > 1000;
    var y, m, d := if flip then c else a, b, if flip then a else c;
    if y < 1000 && y != 0 then Rejected
    else if y == 0 && m == 0 && d == 0 then NullValue
    else if !(1 <= y <= 32767 && Date(y, m, d).Valid()) then Rejected
    // y is at least 1000 here, where `%d` prints the year as 'Y' does
    else StrictReading(strtotime(DateText(Date(y, m, d)) + p.time))
  }

  /**
   * SilverStripe 4's `DBDate::setValue`: "" is NULL, a number is a
   * timestamp, and any other text must split into three digit groups,
   * which `FixInputDate` checks; a text that does not split throws.
   */
  function DBDateValue(strtotime: DateParser, s: string): DateValue {
    if s == [] then NullValue
    else if IsNumeric(s) then DayValue(TimestampDay(SqlNumber(s).Floor))
    else
      match ExplodeDateString(s)
      case None => Rejected
      case Some(p) => FixInputDate(strtotime, p)
  }

  /** `/` and a digit group at the head of `s`, for SilverStripe 3's d/m/y pattern. */
  function SlashGroup(s: string): Option<(string, string)> {
    var ds := LeadingDigits(s);
    if ds != [] && |ds| < |s| && s[|ds|] == '/' then Some((ds, s[|ds| + 1..])) else None
  }

  /** The groups of `^([0-9]+)/([0-9]+)/([0-9]+)$` (`$` also matches before a final newline). */
  function SlashDate(s: string): Option<(string, string, string)> {
    var body := if s != [] && s[|s| - 1] == '\n' then s[..|s| - 1] else s;
    match SlashGroup(body)
    case None => None
    case Some((a, r1)) =>
      match SlashGroup(r1)
      case None => None
      case Some((b, r2)) => if r2 != [] && AllDigits(r2) then Some((a, b, r2)) else None
  }

  /** SilverStripe 3 turns a New Zealand "d/m/y" into the "m/d/y" strtotime expects. */
  function NzSwap(s: string): string {
    match SlashDate(s)
    case None => s
    case Some((d, m, y)) => m + "/" + d + "/" + y
  }

  /** `new DateTime($value)` in SilverStripe 3: the day strtotime reads, and no day where it throws. */
  function LenientReading(r: Option<ValidDate>): DateValue {
    match r
    case None => NullValue
    case Some(d) => DayValue(d)
  }

  /**
   * SilverStripe 3's `Date::setValue`: "" is NULL; a d/m/y text is
   * swapped to m/d/y; a number is a timestamp (`date('Y-m-d', $value)`);
   * any other text is the day strtotime's grammar reads.
   */
  function LegacyDateValue(strtotime: DateParser, s: string): DateValue {
    if s == [] then NullValue
    else
      var t := NzSwap(s);
      if IsNumeric(t) then DayValue(TimestampDay(IntCast(t)))
      else LenientReading(strtotime(t))
  }

  /** The Date field's reading of a filter value in each version. */
  function DateFieldValue(version: Version, strtotime: DateParser, s: string): DateValue {
    match version
    case SilverStripe3 => LegacyDateValue(strtotime, s)
    case SilverStripe4 => DBDateValue(strtotime, s)
  }

  /** `Date >= value` on the database; NULL compares with no row. */
  predicate OnOrAfterValue(d: Date, v: DateValue) {
    v.DayValue? && AtOrBefore(v.day, d)
  }

  /** `Date < value` on the database; NULL compares with no row. */
  predicate BeforeValue(d: Date, v: DateValue) {
    v.DayValue? && Before(d, v.day)
  }

  // Reading texts of digit groups

  lemma DigitGroupOf(ds: string, sep: char, rest: string)
    requires AllDigits(ds) && ds != [] && IsDateSeparator(sep)
    ensures DigitGroup(ds + [sep] + rest) == Some((ds, rest))
  {
    var s := ds + [sep] + rest;
    assert s == ds + ([sep] + rest);
    LeadingDigitsStop(ds, [sep] + rest);
    assert s[|ds|] == sep && s[|ds| + 1..] == rest;
  }

  /** "<a>-<b>-<c>" of digit groups splits into those groups, with no time. */
  lemma ExplodeDigitParts(first: string, second: string, third: string)
    requires AllDigits(first) && first != [] && AllDigits(second) && second != [] && AllDigits(third) && third != []
    ensures ExplodeDateString(first + "-" + second + "-" + third) == Some(DateParts(first, second, third, ""))
  {
    var r1 := second + "-" + third;
    assert first + "-" + second + "-" + third == first + ['-'] + r1;
    DigitGroupOf(first, '-', r1);
    assert r1 == second + ['-'] + third;
    DigitGroupOf(second, '-', third);
    LeadingDigitsOfDigits(third);
    assert third[|third|..] == [];
    assert TimePart([]) == Some([]);
  }

  /** A text that is not numeric and splits into parts is read by `FixInputDate`. */
  lemma DBDateOfSplit(strtotime: DateParser, s: string, p: DateParts)
    requires s != [] && !IsNumeric(s) && ExplodeDateString(s) == Some(p)
    ensures DBDateValue(strtotime, s) == FixInputDate(strtotime, p)
  {
  }

  /** "<a>-<b>-<c>" of digit groups is not numeric and splits into those groups. */
  lemma DigitPartsSplit(first: string, second: string, third: string)
    requires AllDigits(first) && first != [] && AllDigits(second) && second != [] && AllDigits(third) && third != []
    ensures !IsNumeric(first + "-" + second + "-" + third)
    ensures ExplodeDateString(first + "-" + second + "-" + third) == Some(DateParts(first, second, third, ""))
  {
    assert first + "-" + second + "-" + third == first + ("-" + second + "-" + third);
    DigitsThenTextNotNumeric(first, "-" + second + "-" + third);
    ExplodeDigitParts(first, second, third);
  }

  /**
   * A text of three digit groups with a year of 1000 to 32767 first and a
   * real month and day: SilverStripe 4 reads it as strtotime reads its
   * 'Y-m-d' form, and throws where strtotime cannot.
   */
  lemma DBDateOfDigitParts(strtotime: DateParser, first: string, second: string, third: string)
    requires AllDigits(first) && first != [] && AllDigits(second) && second != [] && AllDigits(third) && third != []
    requires 1000 <= DigitsValue(first) <= 32767
    requires Date(DigitsValue(first), DigitsValue(second), DigitsValue(third)).Valid()
    ensures DBDateValue(strtotime, first + "-" + second + "-" + third)
            == StrictReading(strtotime(DateText(Date(DigitsValue(first), DigitsValue(second), DigitsValue(third)))))
  {
    var p := DateParts(first, second, third, "");
    DigitPartsSplit(first, second, third);
    DBDateOfSplit(strtotime, first + "-" + second + "-" + third, p);
    var d := Date(DigitsValue(first), DigitsValue(second), DigitsValue(third));
    assert DateText(d) + "" == DateText(d);
  }

  /** A 'Y-m-d' text of a year from 1000 to 32767 reads, in SilverStripe 4, as strtotime reads it. */
  lemma DBDateOfDateText(strtotime: DateParser, d: Date)
    requires d.Valid() && 1000 <= d.year <= 32767
    ensures DBDateValue(strtotime, DateText(d)) == StrictReading(strtotime(DateText(d)))
  {
    var year, month, day := NatToString(d.year), MonthNumberString(d.month), DayString(d.day);
    NatToStringValue(d.year);
    MonthNumberStringValue(d.month);
    DayStringValue(d.day);
    DBDateOfDigitParts(strtotime, year, month, day);
  }

  /** A year of one to three digits (not 0) throws in SilverStripe 4, unless the last group is over 1000. */
  lemma DBDateRejectsEarlyYear(strtotime: DateParser, first: string, second: string, third: string)
    requires AllDigits(first) && first != [] && AllDigits(second) && second != [] && AllDigits(third) && third != []
    requires 1 <= DigitsValue(first) < 1000 && DigitsValue(third) <= 1000
    ensures DBDateValue(strtotime, first + "-" + second + "-" + third) == Rejected
  {
    DigitPartsSplit(first, second, third);
    DBDateOfSplit(strtotime, first + "-" + second + "-" + third, DateParts(first, second, third, ""));
  }

  /** A month that does not start with a digit ("2017-mar-01") throws in SilverStripe 4. */
  lemma DBDateRejectsLetters(strtotime: DateParser, year: string, rest: string)
    requires AllDigits(year) && year != [] && rest != [] && !IsDigit(rest[0])
    ensures DBDateValue(strtotime, year + "-" + rest) == Rejected
  {
    assert year + "-" + rest == year + ("-" + rest);
    DigitsThenTextNotNumeric(year, "-" + rest);
    LettersDoNotSplit(year, rest);
    DBDateOfUnsplit(strtotime, year + "-" + rest);
  }

  lemma LettersDoNotSplit(year: string, rest: string)
    requires AllDigits(year) && year != [] && rest != [] && !IsDigit(rest[0])
    ensures ExplodeDateString(year + "-" + rest) == None
  {
    assert year + "-" + rest == year + ['-'] + rest;
    DigitGroupOf(year, '-', rest);
    assert DigitGroup(rest) == None;
  }

  /** A text that is not numeric and does not split throws. */
  lemma DBDateOfUnsplit(strtotime: DateParser, s: string)
    requires s != [] && !IsNumeric(s) && ExplodeDateString(s) == None
    ensures DBDateValue(strtotime, s) == Rejected
  {
  }

  predicate DigitsAndSlashes(s: string) {
    forall i :: 0 <= i < |s| ==> IsDigit(s[i]) || s[i] == '/'
  }

  /** A slash group is its digits, '/', and the rest. */
  lemma SlashGroupShape(s: string)
    requires SlashGroup(s).Some?
    ensures s == SlashGroup(s).value.0 + "/" + SlashGroup(s).value.1
    ensures AllDigits(SlashGroup(s).value.0)
  {
    var ds := LeadingDigits(s);
    assert s == s[..|ds|] + [s[|ds|]] + s[|ds| + 1..];
  }

  lemma DigitsSlashThen(a: string, r: string)
    requires AllDigits(a) && DigitsAndSlashes(r)
    ensures DigitsAndSlashes(a + "/" + r)
  {
    var s := a + "/" + r;
    forall i | 0 <= i < |s| ensures IsDigit(s[i]) || s[i] == '/' {
      if i < |a| {
        assert s[i] == a[i];
      } else if i > |a| {
        assert s[i] == r[i - |a| - 1];
      }
    }
  }

  /** The d/m/y pattern matches texts of digits and slashes only, with at most a final newline. */
  lemma SlashDateShape(s: string)
    requires SlashDate(s).Some?
    ensures var body := if s != [] && s[|s| - 1] == '\n' then s[..|s| - 1] else s;
      DigitsAndSlashes(body)
  {
    var body := if s != [] && s[|s| - 1] == '\n' then s[..|s| - 1] else s;
    var (a, r1) := SlashGroup(body).value;
    var (b, r2) := SlashGroup(r1).value;
    SlashGroupShape(body);
    SlashGroupShape(r1);
    assert r2 != [] && AllDigits(r2);
    DigitsSlashThen(b, r2);
    DigitsSlashThen(a, r1);
  }

  /**
   * A text with a character other than a digit or '/' that is neither
   * numeric nor ends in a newline reads, in SilverStripe 3, as strtotime
   * reads it, and as NULL where strtotime cannot.
   */
  lemma LegacyDateOfText(strtotime: DateParser, s: string, k: nat)
    requires k < |s| && !IsDigit(s[k]) && s[k] != '/'
    requires !IsNumeric(s) && s[|s| - 1] != '\n'
    ensures LegacyDateValue(strtotime, s) == LenientReading(strtotime(s))
  {
    if SlashDate(s).Some? {
      SlashDateShape(s);
      assert false;
    }
  }
}
