/** Calendar dates as the pipeline uses them: read from a bank's
    day/month/year column with chrono's `NaiveDate::parse_from_str(_, "%d/%m/%Y")`
    and written back out by `NaiveDate`'s `Display`, the ISO 8601 calendar date
    `YYYY-MM-DD`. Years are the unsigned ones of at most four digits. */
module Dates {
  import opened Wrappers
  import Text

  datatype Date = Date(year: nat, month: nat, day: nat)

  /** Leap years of the proleptic Gregorian calendar. */
  predicate IsLeapYear(y: nat) {
    y % 4 == 0 && (y % 100 != 0 || y % 400 == 0)
  }

  /** The length of month `m`: February has 29 days in a leap year and 28
      otherwise, April, June, September and November have 30, and the other
      months 31. */
  function DaysInMonth(y: nat, m: nat): (n: nat)
    requires 1 <= m <= 12
    ensures 28 <= n <= 31
    ensures m == 2 ==> (n == 29 <==> IsLeapYear(y)) && (n == 28 <==> !IsLeapYear(y))
    ensures m != 2 ==> (n == 30 <==> m == 4 || m == 6 || m == 9 || m == 11) && n >= 30
  {
    if m == 2 then (if IsLeapYear(y) then 29 else 28)
    else if m == 4 || m == 6 || m == 9 || m == 11 then 30
    else 31
  }

  /** The days of the months before month `m` of year `y`. */
  function DaysBefore(y: nat, m: nat): nat
    requires 1 <= m <= 13
    decreases m
  {
    if m == 1 then 0 else DaysBefore(y, m - 1) + DaysInMonth(y, m - 1)
  }

  /** The twelve months make a year of 365 days, or 366 in a leap year. */
  lemma DaysInYear(y: nat)
    ensures DaysBefore(y, 13) == if IsLeapYear(y) then 366 else 365
  {
    assert DaysBefore(y, 3) == 31 + DaysInMonth(y, 2);
    assert DaysBefore(y, 7) == DaysBefore(y, 3) + 31 + 30 + 31 + 30;
    assert DaysBefore(y, 13) == DaysBefore(y, 7) + 31 + 31 + 30 + 31 + 30 + 31;
  }

  /** A day that exists in the calendar, in a year of at most four digits. */
  predicate IsValid(d: Date) {
    d.year <= 9999 && 1 <= d.month <= 12 && 1 <= d.day <= DaysInMonth(d.year, d.month)
  }

  /** The dates a `NaiveDate` holds, within the years modelled here. */
  type CalendarDate = d: Date | IsValid(d) witness Date(1970, 1, 1)

  predicate IsDigit(c: char) {
    '0' <= c <= '9'
  }

  predicate AllDigits(s: string) {
    forall k :: 0 <= k < |s| ==> IsDigit(s[k])
  }

  /** The value of a string of decimal digits, most significant first. */
  function DecimalValue(s: string): nat
    requires AllDigits(s)
  {
    if s == [] then 0
    else DecimalValue(s[..|s| - 1]) * 10 + (s[|s| - 1] as int - '0' as int)
  }

  function Pow10(n: nat): (p: nat)
    ensures p >= 1
  {
    if n == 0 then 1 else 10 * Pow10(n - 1)
  }

  /** The number of decimal digits (at most `max`) at the front of `s`:
      chrono's scanner reads digits greedily up to the field's width. */
  function LeadingDigits(s: string, max: nat): (n: nat)
    ensures n <= max && n <= |s| && AllDigits(s[..n])
    ensures n < max && n < |s| ==> !IsDigit(s[n])
  {
    if max == 0 || |s| == 0 || !IsDigit(s[0]) then 0
    else
      var n := 1 + LeadingDigits(s[1..], max - 1);
      assert s[..n] == [s[0]] + s[1..][..n - 1];
      n
  }

  /** One numeric field of the format: whitespace before it is skipped, then
      between one and `width` digits are read. Gives the value and what follows. */
  function ScanNumber(s: string, width: nat): (r: Option<(nat, string)>)
    ensures r.Some? ==> |r.value.1| < |s|
  {
    var t := Text.TrimStart(s);
    var n := LeadingDigits(t, width);
    if n == 0 then None else Some((DecimalValue(t[..n]), t[n..]))
  }

  /** A day or month field and the slash that ends it; gives the number and
      what follows the slash. */
  function ScanNumberThenSlash(s: string, width: nat): (r: Option<(nat, string)>)
    ensures r.Some? ==> |r.value.1| < |s|
  {
    match ScanNumber(s, width)
    case None => None
    case Some((n, rest)) => if rest != [] && rest[0] == '/' then Some((n, rest[1..])) else None
  }

  /** Builds the date once all text is consumed and the day exists. */
  function MakeDate(year: nat, month: nat, day: nat, rest: string): Option<CalendarDate> {
    var d := Date(year, month, day);
    if rest == [] && IsValid(d) then Some(d) else None
  }

  /** `NaiveDate::parse_from_str(s, "%d/%m/%Y")`: a day of one or two digits,
      a slash, a month of one or two digits, a slash and a year of one to four
      digits, with nothing after it; the three numbers must name a day of the
      calendar. */
  function ParseDayMonthYear(s: string): Option<CalendarDate> {
    match ScanNumberThenSlash(s, 2)
    case None => None
    case Some((day, s1)) =>
      match ScanNumberThenSlash(s1, 2)
      case None => None
      case Some((month, s2)) =>
        match ScanNumber(s2, 4)
        case None => None
        case Some((year, s3)) => MakeDate(year, month, day, s3)
  }

  function DigitChar(n: nat): (c: char)
    requires n < 10
    ensures IsDigit(c) && c as int - '0' as int == n
  {
    ('0' as int + n) as char
  }

  /** `n` written with exactly `width` decimal digits, zero-padded. */
  function Padded(n: nat, width: nat): (r: string)
    requires n < Pow10(width)
    ensures |r| == width && AllDigits(r)
  {
    if width == 0 then [] else Padded(n / 10, width - 1) + [DigitChar(n % 10)]
  }

  /** Reading back a zero-padded number gives the number. */
  lemma {:induction false} PaddedValue(n: nat, width: nat)
    requires n < Pow10(width)
    ensures DecimalValue(Padded(n, width)) == n
  {
    if width > 0 {
      var r := Padded(n, width);
      assert r[..|r| - 1] == Padded(n / 10, width - 1);
      PaddedValue(n / 10, width - 1);
    }
  }

  /** `NaiveDate`'s `Display`: `YYYY-MM-DD`. */
  function IsoText(d: CalendarDate): string {
    Padded(d.year, 4) + "-" + Padded(d.month, 2) + "-" + Padded(d.day, 2)
  }

  /** The `%d/%m/%Y` text chrono itself would write for a date. */
  function DayMonthYearText(d: CalendarDate): string {
    Padded(d.day, 2) + (['/'] + (Padded(d.month, 2) + (['/'] + Padded(d.year, 4))))
  }

  /** The ISO text is ten characters, dashes at positions 4 and 7, and its
      three digit groups read back as the year, the month and the day. */
  lemma IsoTextReadsBack(d: CalendarDate)
    ensures var t := IsoText(d);
      |t| == 10 && t[4] == '-' && t[7] == '-' &&
      AllDigits(t[..4]) && AllDigits(t[5..7]) && AllDigits(t[8..]) &&
      DecimalValue(t[..4]) == d.year && DecimalValue(t[5..7]) == d.month &&
      DecimalValue(t[8..]) == d.day
  {
    var y, m, dd := Padded(d.year, 4), Padded(d.month, 2), Padded(d.day, 2);
    var t := IsoText(d);
    assert t[..4] == y && t[5..7] == m && t[8..] == dd;
    PaddedValue(d.year, 4);
    PaddedValue(d.month, 2);
    PaddedValue(d.day, 2);
  }

  /** Different dates have different ISO texts. */
  lemma IsoTextInjective(d1: CalendarDate, d2: CalendarDate)
    requires IsoText(d1) == IsoText(d2)
    ensures d1 == d2
  {
    IsoTextReadsBack(d1);
    IsoTextReadsBack(d2);
  }

  predicate AllWhitespace(s: string) {
    forall k :: 0 <= k < |s| ==> Text.IsWhitespace(s[k])
  }

  /** Leading whitespace is skipped entirely. */
  lemma {:induction false} TrimStartSkips(w: string, t: string)
    requires AllWhitespace(w)
    requires t == [] || !Text.IsWhitespace(t[0])
    ensures Text.TrimStart(w + t) == t
  {
    if w != [] {
      assert (w + t)[1..] == w[1..] + t;
      TrimStartSkips(w[1..], t);
    }
  }

  /** The digit scanner stops exactly where the digits end. */
  lemma {:induction false} LeadingDigitsStops(digits: string, width: nat, rest: string)
    requires AllDigits(digits) && |digits| <= width
    requires rest == [] || !IsDigit(rest[0])
    ensures LeadingDigits(digits + rest, width) == |digits|
  {
    if digits != [] {
      assert (digits + rest)[1..] == digits[1..] + rest;
      LeadingDigitsStops(digits[1..], width - 1, rest);
    }
  }

  /** A numeric field written as whitespace, then one to `width` digits, then
      something that is not a digit, is read as those digits. */
  lemma ScanDigits(w: string, digits: string, width: nat, rest: string)
    requires AllWhitespace(w)
    requires AllDigits(digits) && 1 <= |digits| <= width
    requires rest == [] || !IsDigit(rest[0])
    ensures ScanNumber(w + digits + rest, width) == Some((DecimalValue(digits), rest))
  {
    var t := digits + rest;
    assert w + digits + rest == w + t;
    assert t[0] == digits[0];
    TrimStartSkips(w, t);
    LeadingDigitsStops(digits, width, rest);
    assert t[..|digits|] == digits && t[|digits|..] == rest;
  }

  /** The parser succeeds when each of its three fields is read in turn and
      the date they name exists. */
  lemma ParseFields(s: string, day: nat, s1: string, month: nat, s2: string, year: nat)
    requires ScanNumberThenSlash(s, 2) == Some((day, s1))
    requires ScanNumberThenSlash(s1, 2) == Some((month, s2))
    requires ScanNumber(s2, 4) == Some((year, []))
    requires IsValid(Date(year, month, day))
    ensures ParseDayMonthYear(s) == Some(Date(year, month, day))
  {
  }

  /** A day or month field followed by its slash is read as its digits, and
      reading continues after the slash. */
  lemma FieldThenSlash(w: string, digits: string, rest: string)
    requires AllWhitespace(w)
    requires AllDigits(digits) && 1 <= |digits| <= 2
    ensures ScanNumberThenSlash(w + digits + (['/'] + rest), 2) == Some((DecimalValue(digits), rest))
  {
    ScanDigits(w, digits, 2, ['/'] + rest);
    assert (['/'] + rest)[1..] == rest;
  }

  /** Every text of the shape `%d/%m/%Y` accepts is read as the date it names:
      day and month of one or two digits, year of one to four, optional
      whitespace before each number. */
  lemma ParseAccepts(w1: string, day: string, w2: string, month: string, w3: string, year: string)
    requires AllWhitespace(w1) && AllWhitespace(w2) && AllWhitespace(w3)
    requires AllDigits(day) && 1 <= |day| <= 2
    requires AllDigits(month) && 1 <= |month| <= 2
    requires AllDigits(year) && 1 <= |year| <= 4
    requires IsValid(Date(DecimalValue(year), DecimalValue(month), DecimalValue(day)))
    ensures ParseDayMonthYear(w1 + day + (['/'] + (w2 + month + (['/'] + (w3 + year)))))
         == Some(Date(DecimalValue(year), DecimalValue(month), DecimalValue(day)))
  {
    var s2 := w3 + year;
    var s1 := w2 + month + (['/'] + s2);
    FieldThenSlash(w1, day, s1);
    FieldThenSlash(w2, month, s2);
    ScanDigits(w3, year, 4, []);
    assert w3 + year + [] == s2;
    ParseFields(w1 + day + (['/'] + s1), DecimalValue(day), s1, DecimalValue(month), s2, DecimalValue(year));
  }

  /** Parsing what chrono writes for `%d/%m/%Y` gives the date back. */
  lemma ParseRoundTrip(d: CalendarDate)
    ensures ParseDayMonthYear(DayMonthYearText(d)) == Some(d)
  {
    var dd, mm, yy := Padded(d.day, 2), Padded(d.month, 2), Padded(d.year, 4);
    PaddedValue(d.day, 2);
    PaddedValue(d.month, 2);
    PaddedValue(d.year, 4);
    ParseAccepts([], dd, [], mm, [], yy);
    assert [] + yy == yy && [] + mm == mm && [] + dd == dd;
  }

  /** `s` is whitespace `w`, then one to `width` digits, then `rest`. */
  predicate NumberField(s: string, width: nat, w: string, digits: string, rest: string) {
    AllWhitespace(w) && AllDigits(digits) && 1 <= |digits| <= width && s == w + digits + rest
  }

  /** What the scanner reads is whitespace followed by the digits whose value
      it gives; the rest of the text follows them. */
  lemma ScanNumberSound(s: string, width: nat) returns (w: string, digits: string)
    requires ScanNumber(s, width).Some?
    ensures NumberField(s, width, w, digits, ScanNumber(s, width).value.1)
    ensures ScanNumber(s, width).value.0 == DecimalValue(digits)
  {
    var t := Text.TrimStart(s);
    var n := LeadingDigits(t, width);
    w, digits := s[..|s| - |t|], t[..n];
    SplitField(s, t, n, w, digits);
  }

  /** Cutting `s` at the start of its suffix `t`, and `t` after `n` characters,
      gives back `s`. */
  lemma SplitField(s: string, t: string, n: nat, w: string, digits: string)
    requires |t| <= |s| && t == s[|s| - |t|..] && n <= |t|
    requires w == s[..|s| - |t|] && digits == t[..n]
    ensures s == w + digits + t[n..]
  {
    assert s == w + t;
    assert t == digits + t[n..];
  }

  /** A day or month field read with its slash: whitespace, digits, the slash,
      and then the rest. */
  lemma SlashFieldSound(s: string) returns (w: string, digits: string)
    requires ScanNumberThenSlash(s, 2).Some?
    ensures NumberField(s, 2, w, digits, ['/'] + ScanNumberThenSlash(s, 2).value.1)
    ensures ScanNumberThenSlash(s, 2).value.0 == DecimalValue(digits)
  {
    var (n, rest) := ScanNumber(s, 2).value;
    assert ScanNumberThenSlash(s, 2).value == (n, rest[1..]);
    w, digits := ScanNumberSound(s, 2);
    assert rest == ['/'] + rest[1..];
  }

  /** `s` is the text `w1 day / w2 month / w3 year` of the date `d`. */
  predicate DayMonthYearShape(s: string, d: Date, w1: string, day: string, w2: string,
                              month: string, w3: string, year: string) {
    AllWhitespace(w1) && AllWhitespace(w2) && AllWhitespace(w3) &&
    AllDigits(day) && 1 <= |day| <= 2 &&
    AllDigits(month) && 1 <= |month| <= 2 &&
    AllDigits(year) && 1 <= |year| <= 4 &&
    s == w1 + day + (['/'] + (w2 + month + (['/'] + (w3 + year)))) &&
    d == Date(DecimalValue(year), DecimalValue(month), DecimalValue(day))
  }

  /** Whatever the parser accepts has the day/month/year shape, and the date
      it gives is the one those digits name. */
  lemma ParseSound(s: string, d: CalendarDate)
    returns (w1: string, day: string, w2: string, month: string, w3: string, year: string)
    requires ParseDayMonthYear(s) == Some(d)
    ensures DayMonthYearShape(s, d, w1, day, w2, month, w3, year)
  {
    var s1 := ScanNumberThenSlash(s, 2).value.1;
    var s2 := ScanNumberThenSlash(s1, 2).value.1;
    w1, day := SlashFieldSound(s);
    w2, month := SlashFieldSound(s1);
    w3, year := ScanNumberSound(s2, 4);
    assert ScanNumber(s2, 4).value.1 == [];
    assert s2 == w3 + year;
  }

  /** The parser accepts exactly the texts of the day/month/year shape that
      name a day of the calendar, and gives that day. */
  lemma ParseMeaning(s: string, d: CalendarDate)
    ensures ParseDayMonthYear(s) == Some(d) <==>
      exists w1, day, w2, month, w3, year :: DayMonthYearShape(s, d, w1, day, w2, month, w3, year)
  {
    if ParseDayMonthYear(s) == Some(d) {
      var w1, day, w2, month, w3, year := ParseSound(s, d);
    }
    if exists w1, day, w2, month, w3, year :: DayMonthYearShape(s, d, w1, day, w2, month, w3, year) {
      var w1, day, w2, month, w3, year :| DayMonthYearShape(s, d, w1, day, w2, month, w3, year);
      ParseAccepts(w1, day, w2, month, w3, year);
    }
  }
}
