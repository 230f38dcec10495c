/**
 * The date of a post, read from its folder name (`yyyymmdd[-suffix]`) with
 * `datetime.datetime.strptime(name.split("-")[0], "%Y%m%d")`.
 *
 * strptime turns "%Y%m%d" into the regular expression
 *   (?P<Y>\d\d\d\d)(?P<m>1[0-2]|0[1-9]|[1-9])(?P<d>3[01]|[12]\d|0[1-9]|[1-9]| [1-9])
 * and applies it with `re.match`: the first match the backtracking engine
 * finds, trying the alternatives left to right. It then raises ValueError when
 * nothing matched, when characters are left after the match ("unconverted data
 * remains"), or when the day does not exist in that month (`datetime.date`).
 * Every ValueError is caught by the caller, which then skips the folder; here it
 * is `None`.
 */
module PostDate {
  import opened Options

  /** The date part of a `datetime.datetime` (the time of day is always midnight here). */
  datatype Date = Date(year: int, month: int, day: int)

  predicate IsLeapYear(y: int)
  {
    y % 4 == 0 && (y % 100 != 0 || y % 400 == 0)
  }

  function DaysInMonth(y: int, m: int): int
    requires 1 <= m <= 12
  {
    if m == 2 then (if IsLeapYear(y) then 29 else 28)
    else if m == 4 || m == 6 || m == 9 || m == 11 then 30
    else 31
  }

  /** The dates `datetime.date(y, m, d)` accepts (MINYEAR is 1, MAXYEAR is 9999). */
  predicate ValidDate(d: Date)
  {
    1 <= d.year <= 9999 && 1 <= d.month <= 12 && 1 <= d.day <= DaysInMonth(d.year, d.month)
  }

  predicate IsDigit(c: char)
  {
    '0' <= c <= '9'
  }

  function DigitValue(c: char): (v: int)
    requires IsDigit(c)
    ensures 0 <= v <= 9
  {
    c as int - '0' as int
  }

  function TwoDigits(c: char, d: char): (v: int)
    requires IsDigit(c) && IsDigit(d)
    ensures 0 <= v <= 99
  {
    10 * DigitValue(c) + DigitValue(d)
  }

  /** A group of the pattern that matched: the number it reads and how many characters it took. */
  datatype Field = Field(value: int, len: nat)

  /**
   * `(?P<m>1[0-2]|0[1-9]|[1-9])`: every alternative that matches at the start
   * of s, in the order the engine tries them.
   */
  function MonthAlternatives(s: string): (alts: seq<Field>)
    ensures forall i :: 0 <= i < |alts| ==>
      1 <= alts[i].value <= 12 && 1 <= alts[i].len <= 2 && alts[i].len <= |s| && IsDigit(s[0])
  {
    (if |s| >= 2 && s[0] == '1' && '0' <= s[1] <= '2' then [Field(10 + DigitValue(s[1]), 2)] else [])
    + (if |s| >= 2 && s[0] == '0' && '1' <= s[1] <= '9' then [Field(DigitValue(s[1]), 2)] else [])
    + (if |s| >= 1 && '1' <= s[0] <= '9' then [Field(DigitValue(s[0]), 1)] else [])
  }

  /** Each month alternative reads the digits it took. */
  lemma MonthAlternativesDigits(s: string, i: nat)
    requires i < |MonthAlternatives(s)|
    ensures MonthAlternatives(s)[i].len == 1 ==> MonthAlternatives(s)[i].value == DigitValue(s[0])
    ensures MonthAlternatives(s)[i].len == 2 ==>
      IsDigit(s[1]) && MonthAlternatives(s)[i].value == TwoDigits(s[0], s[1])
  {
  }

  /**
   * `(?P<d>3[01]|[12]\d|0[1-9]|[1-9]| [1-9])`: the first alternative that
   * matches at the start of s. The group ends the pattern, so the first one
   * that matches is the one the engine keeps.
   */
  function DayMatch(s: string): (r: Option<Field>)
    ensures r.Some? ==> 1 <= r.value.value <= 31 && 1 <= r.value.len <= 2 && r.value.len <= |s|
    ensures r.Some? && r.value.len == 1 ==> IsDigit(s[0]) && r.value.value == DigitValue(s[0])
    ensures r.Some? && r.value.len == 2 ==>
      IsDigit(s[1]) &&
      (if s[0] == ' ' then r.value.value == DigitValue(s[1])
       else IsDigit(s[0]) && r.value.value == TwoDigits(s[0], s[1]))
  {
    if |s| >= 2 && s[0] == '3' && (s[1] == '0' || s[1] == '1') then
      Some(Field(30 + DigitValue(s[1]), 2))
    else if |s| >= 2 && (s[0] == '1' || s[0] == '2') && IsDigit(s[1]) then
      Some(Field(TwoDigits(s[0], s[1]), 2))
    else if |s| >= 2 && s[0] == '0' && '1' <= s[1] <= '9' then
      Some(Field(DigitValue(s[1]), 2))
    else if |s| >= 1 && '1' <= s[0] <= '9' then
      Some(Field(DigitValue(s[0]), 1))
    else if |s| >= 2 && s[0] == ' ' && '1' <= s[1] <= '9' then
      Some(Field(DigitValue(s[1]), 2))
    else None
  }

  /** What the month and day groups matched, and where the match ends. */
  datatype MonthDay = MonthDay(month: int, day: int, end: nat)

  /** md is what the pattern reads when the month group takes alternative a. */
  ghost predicate MatchedBy(s: string, a: Field, md: MonthDay)
    requires a.len <= |s|
  {
    var d := DayMatch(s[a.len..]);
    d.Some? && md == MonthDay(a.value, d.value.value, a.len + d.value.len)
  }

  /**
   * Backtracking over the month alternatives: the first one after which the day
   * group matches decides the match.
   */
  function MatchMonthDay(alts: seq<Field>, s: string): (r: Option<MonthDay>)
    requires forall i :: 0 <= i < |alts| ==> alts[i].len <= |s|
    ensures r.Some? ==> r.value.end <= |s|
  {
    if alts == [] then None
    else
      match DayMatch(s[alts[0].len..])
      case Some(d) => Some(MonthDay(alts[0].value, d.value, alts[0].len + d.len))
      case None => MatchMonthDay(alts[1..], s)
  }

  /** A match comes from one of the month alternatives followed by a day. */
  lemma {:induction false} MatchMonthDaySound(alts: seq<Field>, s: string)
    requires forall i :: 0 <= i < |alts| ==> alts[i].len <= |s|
    requires MatchMonthDay(alts, s).Some?
    ensures exists i :: 0 <= i < |alts| && MatchedBy(s, alts[i], MatchMonthDay(alts, s).value)
  {
    var r := MatchMonthDay(alts, s).value;
    if DayMatch(s[alts[0].len..]).Some? {
      assert MatchedBy(s, alts[0], r);
    } else {
      MatchMonthDaySound(alts[1..], s);
      var i :| 0 <= i < |alts[1..]| && MatchedBy(s, alts[1..][i], r);
      assert alts[1..][i] == alts[i + 1];
    }
  }

  /**
   * The backtracking picks the FIRST month alternative that a day follows,
   * and finds nothing exactly when no alternative is followed by a day.
   */
  lemma {:induction false} MatchMonthDayFirst(alts: seq<Field>, s: string)
    requires forall i :: 0 <= i < |alts| ==> alts[i].len <= |s|
    ensures MatchMonthDay(alts, s).None? <==> forall i :: 0 <= i < |alts| ==> DayMatch(s[alts[i].len..]).None?
    ensures MatchMonthDay(alts, s).Some? ==>
      exists i :: 0 <= i < |alts| && MatchedBy(s, alts[i], MatchMonthDay(alts, s).value)
        && forall j :: 0 <= j < i ==> DayMatch(s[alts[j].len..]).None?
  {
    if alts != [] {
      var r := MatchMonthDay(alts, s);
      if DayMatch(s[alts[0].len..]).Some? {
        assert MatchedBy(s, alts[0], r.value);
      } else {
        var tail := alts[1..];
        MatchMonthDayFirst(tail, s);
        assert r == MatchMonthDay(tail, s);
        if r.None? {
          forall i | 0 <= i < |alts| ensures DayMatch(s[alts[i].len..]).None? {
            if i > 0 {
              assert alts[i] == tail[i - 1];
            }
          }
        } else {
          var k :| 0 <= k < |tail| && MatchedBy(s, tail[k], r.value)
            && forall j :: 0 <= j < k ==> DayMatch(s[tail[j].len..]).None?;
          assert alts[k + 1] == tail[k];
          forall j | 0 <= j < k + 1 ensures DayMatch(s[alts[j].len..]).None? {
            if j > 0 {
              assert alts[j] == tail[j - 1];
            }
          }
          assert MatchedBy(s, alts[k + 1], r.value);
        }
      }
    }
  }

  /** The year `\d\d\d\d` reads from the first four characters. */
  function YearValue(s: string): (y: int)
    requires |s| >= 4 && IsDigit(s[0]) && IsDigit(s[1]) && IsDigit(s[2]) && IsDigit(s[3])
    ensures 0 <= y <= 9999
  {
    100 * TwoDigits(s[0], s[1]) + TwoDigits(s[2], s[3])
  }

  /** `datetime.datetime.strptime(s, "%Y%m%d")`, `None` where it raises ValueError. */
  function ParseYmd(s: string): (r: Option<Date>)
    ensures r.Some? ==> ValidDate(r.value)
  {
    if |s| < 4 || !(IsDigit(s[0]) && IsDigit(s[1]) && IsDigit(s[2]) && IsDigit(s[3])) then None
    else
      var rest := s[4..];
      match MatchMonthDay(MonthAlternatives(rest), rest)
      case None => None
      case Some(md) =>
        if 4 + md.end != |s| then None
        else
          var d := Date(YearValue(s), md.month, md.day);
          if ValidDate(d) then Some(d) else None
  }

  /** strptime accepts six to eight characters: four for the year, one or two each for month and day. */
  lemma ParseYmdLength(s: string)
    requires ParseYmd(s).Some?
    ensures 6 <= |s| <= 8
  {
    var rest := s[4..];
    var alts := MonthAlternatives(rest);
    MatchMonthDaySound(alts, rest);
  }

  predicate AllDigits(s: string)
  {
    forall i :: 0 <= i < |s| ==> IsDigit(s[i])
  }

  /** The date an eight-digit name spells out, position by position. */
  function EightDigitDate(s: string): Date
    requires |s| == 8 && AllDigits(s)
  {
    Date(YearValue(s), TwoDigits(s[4], s[5]), TwoDigits(s[6], s[7]))
  }

  lemma {:induction false} EightDigitsSound(s: string)
    requires |s| == 8 && AllDigits(s) && ParseYmd(s).Some?
    ensures ParseYmd(s) == Some(EightDigitDate(s))
  {
    var rest := s[4..];
    var alts := MonthAlternatives(rest);
    var md := MatchMonthDay(alts, rest).value;
    MatchMonthDaySound(alts, rest);
    var i :| 0 <= i < |alts| && MatchedBy(rest, alts[i], md);
    MonthAlternativesDigits(rest, i);
    var d := DayMatch(rest[alts[i].len..]).value;
    assert alts[i].len == 2 && d.len == 2;
    assert rest[2..][0] == s[6] && rest[2..][1] == s[7];
    assert md.month == TwoDigits(s[4], s[5]);
    assert md.day == TwoDigits(s[6], s[7]);
  }

  lemma {:induction false} EightDigitsComplete(s: string)
    requires |s| == 8 && AllDigits(s) && ValidDate(EightDigitDate(s))
    ensures ParseYmd(s) == Some(EightDigitDate(s))
  {
    var rest := s[4..];
    var alts := MonthAlternatives(rest);
    var date := EightDigitDate(s);
    assert rest[0] == s[4] && rest[1] == s[5];
    assert alts[0] == Field(date.month, 2);
    var tail := rest[2..];
    assert tail[0] == s[6] && tail[1] == s[7] && |tail| == 2;
    assert DayMatch(tail) == Some(Field(date.day, 2));
    assert MatchMonthDay(alts, rest) == Some(MonthDay(date.month, date.day, 4));
  }

  /**
   * On eight digits strptime accepts exactly the names that spell out a real
   * date, and reads that date.
   */
  lemma EightDigits(s: string)
    requires |s| == 8 && AllDigits(s)
    ensures ParseYmd(s) == if ValidDate(EightDigitDate(s)) then Some(EightDigitDate(s)) else None
  {
    if ParseYmd(s).Some? {
      EightDigitsSound(s);
    } else if ValidDate(EightDigitDate(s)) {
      EightDigitsComplete(s);
    }
  }

  function DigitChar(n: int): (c: char)
    requires 0 <= n <= 9
    ensures IsDigit(c) && DigitValue(c) == n
  {
    ('0' as int + n) as char
  }

  /** The folder-name convention `yyyymmdd`: zero-padded year, month and day. */
  function FormatYmd(d: Date): (s: string)
    requires ValidDate(d)
    ensures |s| == 8 && AllDigits(s)
  {
    [DigitChar(d.year / 1000), DigitChar(d.year / 100 % 10), DigitChar(d.year / 10 % 10),
     DigitChar(d.year % 10), DigitChar(d.month / 10), DigitChar(d.month % 10),
     DigitChar(d.day / 10), DigitChar(d.day % 10)]
  }

  lemma YearDigits(y: int)
    requires 0 <= y <= 9999
    ensures 100 * (10 * (y / 1000) + y / 100 % 10) + (10 * (y / 10 % 10) + y % 10) == y
  {
    assert y / 100 == 10 * (y / 1000) + y / 100 % 10;
    assert y % 100 == 10 * (y / 10 % 10) + y % 10;
    assert y == 100 * (y / 100) + y % 100;
  }

  /** Every real date written in the `yyyymmdd` convention is read back as that date. */
  lemma FormatThenParse(d: Date)
    requires ValidDate(d)
    ensures ParseYmd(FormatYmd(d)) == Some(d)
  {
    var s := FormatYmd(d);
    YearDigits(d.year);
    assert YearValue(s) == d.year;
    assert TwoDigits(s[4], s[5]) == d.month;
    assert TwoDigits(s[6], s[7]) == d.day;
    EightDigitsComplete(s);
  }

  /** Seven characters: the month takes two digits and the day one. */
  lemma ParseSevenChars()
    ensures ParseYmd("2024111") == Some(Date(2024, 11, 1))
  {
    var rest := "2024111"[4..];
    assert rest == "111";
    assert MonthAlternatives(rest) == [Field(11, 2), Field(1, 1)];
    assert rest[2..] == "1";
    assert DayMatch("1") == Some(Field(1, 1));
  }

  /**
   * Six characters: "11" as month leaves no day, so the engine backtracks to
   * the one-digit month and reads January 1st.
   */
  lemma ParseSixCharsBacktracks()
    ensures ParseYmd("202411") == Some(Date(2024, 1, 1))
  {
    var rest := "202411"[4..];
    assert rest == "11";
    var alts := MonthAlternatives(rest);
    assert alts == [Field(11, 2), Field(1, 1)];
    assert rest[2..] == "";
    assert DayMatch("") == None;
    assert rest[1..] == "1";
    assert DayMatch("1") == Some(Field(1, 1));
    assert MatchMonthDay(alts[1..], rest) == Some(MonthDay(1, 1, 2));
  }

  /** The day alternative ` [1-9]` accepts a space-padded day. */
  lemma ParseSpacePaddedDay()
    ensures ParseYmd("202401 5") == Some(Date(2024, 1, 5))
  {
    var rest := "202401 5"[4..];
    assert rest == "01 5";
    assert MonthAlternatives(rest) == [Field(1, 2)];
    assert rest[2..] == " 5";
    assert DayMatch(" 5") == Some(Field(5, 2));
  }

  /** "32" is no day: the match ends after "3" and the "2" is unconverted data. */
  lemma ParseUnconvertedData()
    ensures ParseYmd("20240132") == None
  {
    var rest := "20240132"[4..];
    assert rest == "0132";
    assert MonthAlternatives(rest) == [Field(1, 2)];
    assert rest[2..] == "32";
    assert DayMatch("32") == Some(Field(3, 1));
  }

  /** Names that do not match the pattern at all. */
  lemma ParseNoMatch()
    ensures ParseYmd("2024") == None
    ensures ParseYmd("abcdefgh") == None
  {
    assert "2024"[4..] == "";
    assert MonthAlternatives("") == [];
  }

  /** February 29th exists in a leap year. */
  lemma LeapDayAccepted()
    ensures ParseYmd("20240229") == Some(Date(2024, 2, 29))
  {
    EightDigits("20240229");
  }

  /** 1900 is divisible by 100 and not by 400, so it has no February 29th. */
  lemma CenturyLeapDayRefused()
    ensures ParseYmd("19000229") == None
  {
    assert EightDigitDate("19000229") == Date(1900, 2, 29);
    EightDigits("19000229");
  }

  /** A day past the end of its month is refused. */
  lemma DayPastMonthEndRefused()
    ensures ParseYmd("20240431") == None
  {
    assert EightDigitDate("20240431") == Date(2024, 4, 31);
    EightDigits("20240431");
  }

  /** The index of the first '-' at or after i, or |s| when there is none. */
  function DashIndex(s: string, i: nat): (j: nat)
    requires i <= |s|
    ensures i <= j <= |s|
    ensures forall k :: i <= k < j ==> s[k] != '-'
    ensures j < |s| ==> s[j] == '-'
    decreases |s| - i
  {
    if i == |s| || s[i] == '-' then i else DashIndex(s, i + 1)
  }

  /** `name.split("-")[0]`: everything before the first dash. */
  function FirstSegment(name: string): (seg: string)
    ensures |seg| <= |name|
    ensures forall k :: 0 <= k < |seg| ==> seg[k] == name[k] && seg[k] != '-'
    ensures |seg| < |name| ==> name[|seg|] == '-'
  {
    name[..DashIndex(name, 0)]
  }

  /** The date of a post folder, or None when the folder is skipped for its name. */
  function FolderDate(name: string): (r: Option<Date>)
    ensures r.Some? ==> ValidDate(r.value)
  {
    ParseYmd(FirstSegment(name))
  }

  /**
   * A folder named by the convention, `yyyymmdd` with or without a `-suffix`,
   * gets that date, whatever the suffix.
   */
  lemma FolderDateOfConvention(d: Date, suffix: string)
    requires ValidDate(d)
    ensures FolderDate(FormatYmd(d)) == Some(d)
    ensures FolderDate(FormatYmd(d) + "-" + suffix) == Some(d)
  {
    var f := FormatYmd(d);
    FormatThenParse(d);
    assert FirstSegment(f) == f;
    var name := f + "-" + suffix;
    assert name[8] == '-';
    assert FirstSegment(name) == f by {
      assert DashIndex(name, 0) == 8;
    }
  }

  /** Folder names that are skipped: a dashed ISO date and letters. */
  lemma FolderDateExamples()
    ensures FolderDate("2024-01-01") == None
    ensures FolderDate("abcdefgh") == None
  {
    assert DashIndex("2024-01-01", 0) == 4;
    assert FirstSegment("2024-01-01") == "2024";
    ParseNoMatch();
  }

  /** A number that orders valid dates as comparing `datetime` values does. */
  function DateKey(d: Date): int
  {
    (d.year * 100 + d.month) * 100 + d.day
  }

  /** Python's `<` on two dates: year, then month, then day. */
  predicate Before(a: Date, b: Date)
  {
    a.year < b.year || (a.year == b.year && (a.month < b.month || (a.month == b.month && a.day < b.day)))
  }

  lemma DateKeyOrder(a: Date, b: Date)
    requires ValidDate(a) && ValidDate(b)
    ensures DateKey(a) < DateKey(b) <==> Before(a, b)
    ensures DateKey(a) == DateKey(b) <==> a == b
  {
  }
}
