/**
 * Calendar dates as Python's `datetime.date` holds them, the month arithmetic of
 * `relativedelta(months=1)`, and the two textual date formats the scraper meets: the
 * exchange's "%b %d, %Y" table dates and `date.isoformat()`.
 */
module Calendar {
  import opened Wrappers
  import opened Text

  datatype Date = Date(year: int, month: int, day: int)

  predicate IsLeapYear(y: int) { y % 4 == 0 && (y % 100 != 0 || y % 400 == 0) }

  function DaysInMonth(y: int, m: int): (n: int)
    requires 1 <= m <= 12
    ensures 28 <= n <= 31
  {
    if m == 2 then (if IsLeapYear(y) then 29 else 28)
    else if m == 4 || m == 6 || m == 9 || m == 11 then 30
    else 31
  }

  /** A date `datetime.date` accepts: years 1 to 9999 and a day that exists in its month. */
  predicate ValidDate(d: Date)
  {
    1 <= d.year <= 9999 && 1 <= d.month <= 12 && 1 <= d.day <= DaysInMonth(d.year, d.month)
  }

  /**
   * A number for each date such that calendar order is numeric order (months 1..12 and
   * days 1..31 never overlap the next block).
   */
  function Ordinal(d: Date): int
  {
    (d.year * 12 + d.month) * 31 + d.day
  }

  /** Python's `a < b` on dates. */
  predicate Before(a: Date, b: Date) { Ordinal(a) < Ordinal(b) }

  /** Python's `a <= b` on dates. */
  predicate NotAfter(a: Date, b: Date) { Ordinal(a) <= Ordinal(b) }

  /** On valid dates, the order is the lexicographic order on (year, month, day). */
  lemma BeforeIsLexicographic(a: Date, b: Date)
    requires ValidDate(a) && ValidDate(b)
    ensures Before(a, b) <==>
      a.year < b.year || (a.year == b.year && (a.month < b.month || (a.month == b.month && a.day < b.day)))
  {
    var ma, mb := a.year * 12 + a.month, b.year * 12 + b.month;
    assert Ordinal(a) == ma * 31 + a.day && Ordinal(b) == mb * 31 + b.day;
    assert ma < mb <==> a.year < b.year || (a.year == b.year && a.month < b.month);
    if ma < mb {
      assert ma * 31 + 31 <= mb * 31;
    } else if ma > mb {
      assert mb * 31 + 31 <= ma * 31;
    }
  }

  /** Valid dates with the same position are the same date. */
  lemma OrdinalInjective(a: Date, b: Date)
    requires ValidDate(a) && ValidDate(b) && Ordinal(a) == Ordinal(b)
    ensures a == b
  {
    BeforeIsLexicographic(a, b);
    BeforeIsLexicographic(b, a);
  }

  // ---------------------------------------------------------------- months

  /** Number of months since the start of year 0, counting `d`'s own month. */
  function MonthIndex(d: Date): int { d.year * 12 + (d.month - 1) }

  /** The first day of the month with index `n`. */
  function MonthStart(n: int): (d: Date)
    ensures d.day == 1 && 1 <= d.month <= 12 && MonthIndex(d) == n
  {
    Date(n / 12, n % 12 + 1, 1)
  }

  /** `datetime(d.year, d.month, 1)`. */
  function FirstOfMonth(d: Date): (r: Date)
    requires 1 <= d.month <= 12
    ensures r == MonthStart(MonthIndex(d))
  {
    Date(d.year, d.month, 1)
  }

  /** `d + relativedelta(months=1)`: the next month, the day clamped to that month's length. */
  function AddOneMonth(d: Date): (r: Date)
    requires 1 <= d.month <= 12
    ensures MonthIndex(r) == MonthIndex(d) + 1 && 1 <= r.month <= 12
    ensures d.day <= 28 ==> r.day == d.day
  {
    var (y, m) := if d.month == 12 then (d.year + 1, 1) else (d.year, d.month + 1);
    Date(y, m, if d.day <= DaysInMonth(y, m) then d.day else DaysInMonth(y, m))
  }

  /** Adding a month to a first of month gives the first of the next month. */
  lemma AddOneMonthStart(n: int)
    ensures AddOneMonth(MonthStart(n)) == MonthStart(n + 1)
  {
  }

  /** A first of month is determined by its month index. */
  lemma MonthStartOf(d: Date)
    requires d.day == 1 && 1 <= d.month <= 12
    ensures d == MonthStart(MonthIndex(d))
  {
  }

  /** A first of month whose index lies between those of two valid dates is a valid date. */
  lemma MonthStartValid(n: int, lo: Date, hi: Date)
    requires ValidDate(lo) && ValidDate(hi) && MonthIndex(lo) <= n <= MonthIndex(hi)
    ensures ValidDate(MonthStart(n))
  {
  }

  /** Two dates of which the first is not after the second have months in the same order. */
  lemma NotAfterMonths(a: Date, b: Date)
    requires ValidDate(a) && ValidDate(b) && NotAfter(a, b)
    ensures MonthIndex(a) <= MonthIndex(b)
  {
    BeforeIsLexicographic(b, a);
  }

  // ---------------------------------------------------------------- "%b %d, %Y"

  /** The twelve month abbreviations of the C locale, in lower case, one letter per slot. */
  const MONTH_KEYS: seq<(char, char, char)> :=
    [('j', 'a', 'n'), ('f', 'e', 'b'), ('m', 'a', 'r'), ('a', 'p', 'r'), ('m', 'a', 'y'), ('j', 'u', 'n'),
     ('j', 'u', 'l'), ('a', 'u', 'g'), ('s', 'e', 'p'), ('o', 'c', 't'), ('n', 'o', 'v'), ('d', 'e', 'c')]

  /** `%b` as strftime writes it: "Jan" .. "Dec". */
  function Abbreviation(m: int): (s: string)
    requires 1 <= m <= 12
    ensures |s| == 3
  {
    var key := MONTH_KEYS[m - 1];
    [ToUpper(key.0), key.1, key.2]
  }

  /** Three letters with their case folded away. */
  function KeyOf(s: string): (char, char, char)
    requires |s| == 3
  {
    (ToLower(s[0]), ToLower(s[1]), ToLower(s[2]))
  }

  /** The month whose key `key` is; 0 for none. */
  function MonthOfKey(key: (char, char, char)): (m: nat)
    ensures m <= 12
    ensures 1 <= m ==> key == MONTH_KEYS[m - 1]
  {
    if key == ('j', 'a', 'n') then 1 else if key == ('f', 'e', 'b') then 2
    else if key == ('m', 'a', 'r') then 3 else if key == ('a', 'p', 'r') then 4
    else if key == ('m', 'a', 'y') then 5 else if key == ('j', 'u', 'n') then 6
    else if key == ('j', 'u', 'l') then 7 else if key == ('a', 'u', 'g') then 8
    else if key == ('s', 'e', 'p') then 9 else if key == ('o', 'c', 't') then 10
    else if key == ('n', 'o', 'v') then 11 else if key == ('d', 'e', 'c') then 12
    else 0
  }

  /** The month whose abbreviation `s` is, ignoring case as strptime does; 0 for none. */
  function MonthOfAbbreviation(s: string): (m: nat)
    ensures m <= 12
    ensures 1 <= m ==> |s| == 3 && KeyOf(s) == KeyOf(Abbreviation(m))
  {
    if |s| != 3 then 0
    else
      var m := MonthOfKey(KeyOf(s));
      if m == 0 then 0 else AbbreviationKey(m); m
  }

  lemma KeysLower(m: int)
    requires 1 <= m <= 12
    ensures IsLower(MONTH_KEYS[m - 1].0) && IsLower(MONTH_KEYS[m - 1].1) && IsLower(MONTH_KEYS[m - 1].2)
  {
  }

  /** Folding the case of an abbreviation gives back its key. */
  lemma AbbreviationKey(m: int)
    requires 1 <= m <= 12
    ensures KeyOf(Abbreviation(m)) == MONTH_KEYS[m - 1]
  {
    KeysLower(m);
  }

  lemma MonthOfKeys(m: int)
    requires 1 <= m <= 12
    ensures MonthOfKey(MONTH_KEYS[m - 1]) == m
  {
  }

  /** Every month's abbreviation reads back as that month. */
  lemma AbbreviationRoundTrip(m: int)
    requires 1 <= m <= 12
    ensures MonthOfAbbreviation(Abbreviation(m)) == m
  {
    AbbreviationKey(m);
    MonthOfKeys(m);
  }

  /** Number of leading characters of `s` satisfying `IsSpace`. */
  function SpaceRun(s: string): (n: nat)
    ensures n <= |s| && (forall i :: 0 <= i < n ==> IsSpace(s[i])) && (n < |s| ==> !IsSpace(s[n]))
  {
    if s != [] && IsSpace(s[0]) then 1 + SpaceRun(s[1..]) else 0
  }

  /** Number of leading decimal digits of `s`. */
  function DigitRun(s: string): (n: nat)
    ensures n <= |s| && AllDigits(s[..n]) && (n < |s| ==> !IsDigit(s[n]))
  {
    if s != [] && IsDigit(s[0]) then
      var k := DigitRun(s[1..]);
      assert s[..k + 1] == [s[0]] + s[1..][..k];
      k + 1
    else 0
  }

  /** The digit run is exactly the digits before the first non-digit. */
  lemma {:induction false} DigitRunIs(s: string, k: nat)
    requires k < |s| && AllDigits(s[..k]) && !IsDigit(s[k])
    ensures DigitRun(s) == k
  {
    if k > 0 {
      assert IsDigit(s[..k][0]);
      assert s[1..][..k - 1] == s[..k][1..];
      DigitRunIs(s[1..], k - 1);
    }
  }

  /**
   * `datetime.strptime(s, "%b %d, %Y")`: a month abbreviation in any case, whitespace, a day
   * of one or two digits between 1 and 31, a comma, whitespace, a year of exactly four
   * digits, and nothing else; the date must exist. None where strptime raises ValueError.
   */
  function ParseTableDate(s: string): (r: Option<Date>)
    ensures r.Some? ==> ValidDate(r.value)
  {
    if |s| < 3 || MonthOfAbbreviation(s[..3]) == 0 then None
    else
      var afterMonth := s[3..];
      var gap := SpaceRun(afterMonth);
      var dayText := afterMonth[gap..];
      var width := DigitRun(dayText);
      if gap == 0 || width == 0 || width > 2 || width == |dayText| || dayText[width] != ',' then None
      else
        var afterComma := dayText[width + 1..];
        var gap2 := SpaceRun(afterComma);
        var yearText := afterComma[gap2..];
        if gap2 == 0 || |yearText| != 4 || !AllDigits(yearText) then None
        else
          var d := Date(DigitsValue(yearText), MonthOfAbbreviation(s[..3]), DigitsValue(dayText[..width]));
          if ValidDate(d) then Some(d) else None
  }

  /** `d.strftime("%b %d, %Y")`, the way the exchange writes its table dates. */
  function FormatTableDate(d: Date): string
    requires ValidDate(d)
  {
    Abbreviation(d.month) + " " + Padded(d.day, 2) + ", " + Padded(d.year, 4)
  }

  /** Every valid date the exchange writes reads back as itself. */
  lemma TableDateRoundTrip(d: Date)
    requires ValidDate(d)
    ensures ParseTableDate(FormatTableDate(d)) == Some(d)
  {
    var abbr, dd, yyyy := Abbreviation(d.month), Padded(d.day, 2), Padded(d.year, 4);
    assert Pow10(2) == 100 && Pow10(4) == 10000;
    PaddedRoundTrip(d.day, 2);
    PaddedRoundTrip(d.year, 4);
    AbbreviationRoundTrip(d.month);
    TableFields(abbr, dd, yyyy);
  }

  /** The text `abbr + " " + dd + ", " + yyyy` splits back into its three fields. */
  lemma TableFields(abbr: string, dd: string, yyyy: string)
    requires |abbr| == 3 && 1 <= MonthOfAbbreviation(abbr)
    requires |dd| == 2 && AllDigits(dd) && |yyyy| == 4 && AllDigits(yyyy)
    ensures var d := Date(DigitsValue(yyyy), MonthOfAbbreviation(abbr), DigitsValue(dd));
      ParseTableDate(abbr + " " + dd + ", " + yyyy) == if ValidDate(d) then Some(d) else None
  {
    GapFields(abbr, ' ', dd, ' ', yyyy);
    assert abbr + " " + dd + ", " + yyyy == abbr + [' '] + dd + [','] + [' '] + yyyy;
  }

  /** The same with any single whitespace character in each gap, as strptime's `\s+` allows. */
  lemma GapFields(abbr: string, g1: char, dd: string, g2: char, yyyy: string)
    requires |abbr| == 3 && 1 <= MonthOfAbbreviation(abbr) && IsSpace(g1) && IsSpace(g2)
    requires |dd| == 2 && AllDigits(dd) && |yyyy| == 4 && AllDigits(yyyy)
    ensures var d := Date(DigitsValue(yyyy), MonthOfAbbreviation(abbr), DigitsValue(dd));
      ParseTableDate(abbr + [g1] + dd + [','] + [g2] + yyyy) == if ValidDate(d) then Some(d) else None
  {
    GapSplit(abbr, g1, dd, g2, yyyy);
    TableDateParts(abbr + [g1] + dd + [','] + [g2] + yyyy, dd, yyyy);
  }

  /** Where the fields of such a text sit, in the terms `ParseTableDate` looks at them. */
  lemma GapSplit(abbr: string, g1: char, dd: string, g2: char, yyyy: string)
    requires |abbr| == 3 && IsSpace(g1) && IsSpace(g2)
    requires |dd| == 2 && AllDigits(dd) && |yyyy| == 4 && AllDigits(yyyy)
    ensures var s := abbr + [g1] + dd + [','] + [g2] + yyyy;
      |s| >= 3 && s[..3] == abbr && SpaceRun(s[3..]) == 1 &&
      DigitRun(s[3..][1..]) == 2 && |s[3..][1..]| > 2 && s[3..][1..][..2] == dd && s[3..][1..][2] == ',' &&
      SpaceRun(s[3..][1..][3..]) == 1 && s[3..][1..][3..][1..] == yyyy
  {
    var dayText := dd + [','] + [g2] + yyyy;
    var s := abbr + [g1] + dd + [','] + [g2] + yyyy;
    assert s[..3] == abbr && s[3..][SpaceRun(s[3..])..] == dayText && SpaceRun(s[3..]) == 1 by {
      assert s == abbr + [g1] + dayText;
      MonthField(abbr, g1, dayText);
      LeadingSpace(g1, dayText);
    }
    assert DigitRun(dayText) == 2 && dayText[..2] == dd && dayText[2] == ',' && dayText[3..] == [g2] + yyyy by {
      DayField(dd, g2, yyyy);
    }
    assert SpaceRun([g2] + yyyy) == 1 && ([g2] + yyyy)[1..] == yyyy by {
      LeadingSpace(g2, yyyy);
    }
  }

  /** How `ParseTableDate` reads text whose gaps are one whitespace character each. */
  lemma TableDateParts(s: string, dd: string, yyyy: string)
    requires |s| >= 3 && 1 <= MonthOfAbbreviation(s[..3]) && SpaceRun(s[3..]) == 1
    requires var dayText := s[3..][1..];
      DigitRun(dayText) == 2 && |dayText| > 2 && dayText[..2] == dd && dayText[2] == ','
    requires var rest := s[3..][1..][3..]; SpaceRun(rest) == 1 && rest[1..] == yyyy
    requires |yyyy| == 4 && AllDigits(yyyy) && AllDigits(dd)
    ensures var d := Date(DigitsValue(yyyy), MonthOfAbbreviation(s[..3]), DigitsValue(dd));
      ParseTableDate(s) == if ValidDate(d) then Some(d) else None
  {
  }

  lemma MonthField(abbr: string, g: char, rest: string)
    requires |abbr| == 3
    ensures var s := abbr + [g] + rest; s[..3] == abbr && s[3..] == [g] + rest
  {
    var s := abbr + [g] + rest;
    assert s[..3] == abbr && s[3..] == [g] + rest;
  }

  /** One whitespace character before text that starts with a digit. */
  lemma LeadingSpace(g: char, rest: string)
    requires IsSpace(g) && rest != [] && IsDigit(rest[0])
    ensures SpaceRun([g] + rest) == 1 && ([g] + rest)[1..] == rest
  {
    assert ([g] + rest)[1..] == rest;
  }

  /** Two day digits end at the comma, and one whitespace character and the year follow it. */
  lemma DayField(dd: string, g: char, yyyy: string)
    requires |dd| == 2 && AllDigits(dd)
    ensures var t := dd + [','] + [g] + yyyy;
      DigitRun(t) == 2 && t[..2] == dd && t[2] == ',' && t[3..] == [g] + yyyy
  {
    var t := dd + [','] + [g] + yyyy;
    assert t[..2] == dd && t[2] == ',' && t[3..] == [g] + yyyy;
    DigitRunIs(t, 2);
  }

  /**
   * The gaps of the format match any whitespace, as strptime's `\s+` does: a non-breaking space
   * (what `&nbsp;` becomes) before the day, or a file separator and an ideographic space, still
   * read as the date.
   */
  lemma WhitespaceGapDate()
    ensures ParseTableDate("Jan" + ['\U{A0}'] + "05" + [','] + [' '] + "2024") == Some(Date(2024, 1, 5))
    ensures ParseTableDate("Jan" + ['\U{1C}'] + "05" + [','] + ['\U{3000}'] + "2024") == Some(Date(2024, 1, 5))
  {
    PaddedRoundTrip(5, 2);
    PaddedRoundTrip(2024, 4);
    assert Pow10(2) == 100 && Pow10(4) == 10000;
    assert Padded(5, 2) == "05" && Padded(2024, 4) == "2024";
    AbbreviationRoundTrip(1);
    GapFields("Jan", '\U{A0}', "05", ' ', "2024");
    GapFields("Jan", '\U{1C}', "05", '\U{3000}', "2024");
  }

  // ---------------------------------------------------------------- isoformat

  /** `d.isoformat()`: "YYYY-MM-DD". */
  function IsoFormat(d: Date): (s: string)
    requires ValidDate(d)
    ensures |s| == 10
  {
    Padded(d.year, 4) + "-" + Padded(d.month, 2) + "-" + Padded(d.day, 2)
  }

  /** `date.fromisoformat(s)` for the "YYYY-MM-DD" form. */
  function ParseIso(s: string): (r: Option<Date>)
    ensures r.Some? ==> ValidDate(r.value)
  {
    if |s| != 10 || s[4] != '-' || s[7] != '-'
       || !AllDigits(s[..4]) || !AllDigits(s[5..7]) || !AllDigits(s[8..]) then None
    else
      var d := Date(DigitsValue(s[..4]), DigitsValue(s[5..7]), DigitsValue(s[8..]));
      if ValidDate(d) then Some(d) else None
  }

  /** The ISO text of a valid date reads back as that date. */
  lemma IsoRoundTrip(d: Date)
    requires ValidDate(d)
    ensures ParseIso(IsoFormat(d)) == Some(d)
  {
    var s := IsoFormat(d);
    var y, m, dd := Padded(d.year, 4), Padded(d.month, 2), Padded(d.day, 2);
    assert s == y + "-" + m + "-" + dd;
    assert s[..4] == y && s[5..7] == m && s[8..] == dd;
    assert Pow10(2) == 100 && Pow10(4) == 10000;
    PaddedRoundTrip(d.year, 4);
    PaddedRoundTrip(d.month, 2);
    PaddedRoundTrip(d.day, 2);
  }
}
