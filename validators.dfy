/**
 * The input checks of the chat wizards: ages, Russian names, dates and times
 * of day. The regular expressions and strptime formats of the source are
 * written out as the matchers they compile to, restricted to ASCII digits.
 */
module Validators {
  import opened Wrappers
  import opened Text
  import opened Calendar

  /**
   * is_valid_age: age.isdigit() and 0 < int(age) < 120 (leading zeros
   * allowed: "007" is 7). A number written as str() writes it is accepted
   * exactly when it lies strictly between 0 and 120.
   */
  predicate IsValidAge(age: string): (b: bool)
    ensures forall n: nat :: age == NatToString(n) ==> (b <==> 0 < n < 120)
  {
    IsDigits(age) && 0 < DigitsValue(age) < 120
  }

  lemma AgeBoundaries()
    ensures !IsValidAge("0") && IsValidAge("1") && IsValidAge("119") && !IsValidAge("120")
    ensures !IsValidAge("") && !IsValidAge("-5") && !IsValidAge("12a")
  {
    assert DigitsValue("119") == 119 by {
      assert "119"[..2] == "11" && "11"[..1] == "1";
    }
    assert DigitsValue("120") == 120 by {
      assert "120"[..2] == "12" && "12"[..1] == "1";
    }
    assert "-5"[0] == '-';
    assert "12a"[2] == 'a';
  }

  /** A character str.isspace() accepts, which is what \s matches in a str pattern. */
  predicate IsPythonSpace(c: char) {
    var k := c as int;
    k == 0x20 || 0x09 <= k <= 0x0D || 0x1C <= k <= 0x1F || k == 0x85 || k == 0xA0 || k == 0x1680
    || 0x2000 <= k <= 0x200A || k == 0x2028 || k == 0x2029 || k == 0x202F || k == 0x205F || k == 0x3000
  }

  /** The class [а-яА-ЯёЁ\s-]: the Cyrillic letters А..я (U+0410..U+044F), ё, Ё, whitespace and the hyphen. */
  predicate IsNameChar(c: char) {
    var k := c as int;
    0x0410 <= k <= 0x044F || k == 0x0451 || k == 0x0401 || IsPythonSpace(c) || c == '-'
  }

  /**
   * is_valid_russian_name: re.match(r'^[а-яА-ЯёЁ\s-]{2,}$', name). The "$"
   * may also match before a final newline, but a newline is in the class
   * itself, so the pattern holds exactly of strings of two or more class
   * characters.
   */
  predicate IsValidRussianName(name: string): (b: bool)
    ensures b ==> forall i :: 0 <= i < |name| ==> !IsDigit(name[i]) && !('a' <= name[i] <= 'z') && !('A' <= name[i] <= 'Z')
  {
    |name| >= 2 && forall i :: 0 <= i < |name| ==> IsNameChar(name[i])
  }

  /** Two accepted names joined by a hyphen, as in a double name, are accepted. */
  lemma HyphenatedName(first: string, second: string)
    requires IsValidRussianName(first) && IsValidRussianName(second)
    ensures IsValidRussianName(first + "-" + second)
  {
    var name := first + "-" + second;
    forall i | 0 <= i < |name| ensures IsNameChar(name[i]) {
      if i < |first| {
        assert name[i] == first[i];
      } else if i > |first| {
        assert name[i] == second[i - |first| - 1];
      }
    }
  }

  lemma NameExamples()
    ensures IsValidRussianName("Иван") && IsValidRussianName("Анна-Мария")
    ensures !IsValidRussianName("Я") && !IsValidRussianName("Ivan")
  {
    assert !IsNameChar("Ivan"[0]);
  }

  /** The regex ^\d{2}:\d{2}$ under re.match, where "$" also matches before one final newline. */
  predicate MatchesTimePattern(s: string) {
    (|s| == 5 || (|s| == 6 && s[5] == '\n'))
    && IsDigit(s[0]) && IsDigit(s[1]) && s[2] == ':' && IsDigit(s[3]) && IsDigit(s[4])
  }

  /** strptime's %M at position k: the first of [0-5]\d and \d that matches; the value and the end position. */
  function MinuteField(s: string, k: nat): Option<(nat, nat)> {
    if k + 1 < |s| && '0' <= s[k] <= '5' && IsDigit(s[k + 1]) then Some((TwoDigits(s[k], s[k + 1]), k + 2))
    else if k < |s| && IsDigit(s[k]) then Some((DigitValue(s[k]), k + 1))
    else None
  }

  /**
   * The regex strptime builds for "%H:%M", matched at the start of s: the
   * first hour alternative of 2[0-3], [0-1]\d, \d after which ':' and a
   * minute still match. Yields hour, minute and the end of the match.
   */
  function HourThenMinute(s: string): Option<(nat, nat, nat)> {
    if 2 < |s| && s[0] == '2' && '0' <= s[1] <= '3' && s[2] == ':' && MinuteField(s, 3).Some? then
      Some((TwoDigits(s[0], s[1]), MinuteField(s, 3).value.0, MinuteField(s, 3).value.1))
    else if 2 < |s| && (s[0] == '0' || s[0] == '1') && IsDigit(s[1]) && s[2] == ':' && MinuteField(s, 3).Some? then
      Some((TwoDigits(s[0], s[1]), MinuteField(s, 3).value.0, MinuteField(s, 3).value.1))
    else if 1 < |s| && IsDigit(s[0]) && s[1] == ':' && MinuteField(s, 2).Some? then
      Some((DigitValue(s[0]), MinuteField(s, 2).value.0, MinuteField(s, 2).value.1))
    else None
  }

  /** datetime.strptime(s, "%H:%M"): the hour and minute, or None where it raises ValueError ("unconverted data remains" included). */
  function StrptimeClock(s: string): Option<(nat, nat)> {
    match HourThenMinute(s)
    case None => None
    case Some((hour, minute, end)) => if end == |s| then Some((hour, minute)) else None
  }

  /**
   * is_valid_time: the pattern check, then strptime; a ValueError reads as
   * false. It holds of exactly two digits, ':', two digits, with hour 00-23
   * and minute 00-59: the newline "$" lets through is refused by strptime.
   */
  predicate IsValidTime(s: string): (b: bool)
    ensures b <==>
      |s| == 5 && IsDigit(s[0]) && IsDigit(s[1]) && s[2] == ':' && IsDigit(s[3]) && IsDigit(s[4])
      && TwoDigits(s[0], s[1]) <= 23 && TwoDigits(s[3], s[4]) <= 59
  {
    MatchesTimePattern(s) && StrptimeClock(s).Some?
  }

  /** What strptime reads from a valid time: the two two-digit numbers. */
  lemma ValidTimeValue(s: string)
    requires IsValidTime(s)
    ensures StrptimeClock(s) == Some((TwoDigits(s[0], s[1]), TwoDigits(s[3], s[4])))
  {
  }

  lemma TimeExamples()
    ensures IsValidTime("00:00") && IsValidTime("23:59") && IsValidTime("09:05")
    ensures !IsValidTime("24:00") && !IsValidTime("12:60") && !IsValidTime("9:05") && !IsValidTime("12:30\n")
  {
  }

  /** strptime's %d at position k: the first of 3[01], [12]\d, 0[1-9], [1-9], ' '[1-9] that matches. */
  function DayField(s: string, k: nat): (r: Option<(nat, nat)>)
    ensures r.Some? ==> k + 1 <= r.value.1 <= k + 2 && r.value.1 <= |s|
  {
    if k + 1 < |s| && s[k] == '3' && (s[k + 1] == '0' || s[k + 1] == '1') then Some((TwoDigits(s[k], s[k + 1]), k + 2))
    else if k + 1 < |s| && (s[k] == '1' || s[k] == '2') && IsDigit(s[k + 1]) then Some((TwoDigits(s[k], s[k + 1]), k + 2))
    else if k + 1 < |s| && s[k] == '0' && '1' <= s[k + 1] <= '9' then Some((DigitValue(s[k + 1]), k + 2))
    else if k < |s| && '1' <= s[k] <= '9' then Some((DigitValue(s[k]), k + 1))
    else if k + 1 < |s| && s[k] == ' ' && '1' <= s[k + 1] <= '9' then Some((DigitValue(s[k + 1]), k + 2))
    else None
  }

  /**
   * strptime's "%m-%d" at position k: the first month alternative of
   * 1[0-2], 0[1-9], [1-9] after which '-' and a day still match. Yields
   * month, day and the end of the match.
   */
  function MonthThenDay(s: string, k: nat): (r: Option<(nat, nat, nat)>)
    ensures r.Some? ==> k + 3 <= r.value.2 <= k + 5 && r.value.2 <= |s|
  {
    if k + 2 < |s| && s[k] == '1' && '0' <= s[k + 1] <= '2' && s[k + 2] == '-' && DayField(s, k + 3).Some? then
      Some((TwoDigits(s[k], s[k + 1]), DayField(s, k + 3).value.0, DayField(s, k + 3).value.1))
    else if k + 2 < |s| && s[k] == '0' && '1' <= s[k + 1] <= '9' && s[k + 2] == '-' && DayField(s, k + 3).Some? then
      Some((DigitValue(s[k + 1]), DayField(s, k + 3).value.0, DayField(s, k + 3).value.1))
    else if k + 1 < |s| && '1' <= s[k] <= '9' && s[k + 1] == '-' && DayField(s, k + 2).Some? then
      Some((DigitValue(s[k]), DayField(s, k + 2).value.0, DayField(s, k + 2).value.1))
    else None
  }

  /**
   * datetime.strptime(s, "%Y-%m-%d").date(): four year digits, '-', the
   * lenient month and day fields, nothing left over, and a real calendar
   * date; None where it raises ValueError.
   */
  function StrptimeDate(s: string): (r: Option<(int, int, int)>)
    ensures r.Some? ==> ValidDate(r.value.0, r.value.1, r.value.2)
    ensures r.Some? ==> 8 <= |s| <= 10 && AllDigits(s[..4]) && s[4] == '-'
  {
    if 4 < |s| && AllDigits(s[..4]) && s[4] == '-' then
      match MonthThenDay(s, 5)
      case None => None
      case Some((month, day, end)) =>
        var year := DigitsValue(s[..4]);
        if end == |s| && ValidDate(year, month, day) then Some((year, month, day)) else None
    else None
  }

  /** Midnight of a calendar day, for comparing days with Le. */
  function Midnight(y: int, m: int, d: int): DateTime {
    DateTime(y, m, d, 0, 0, 0)
  }

  /**
   * is_valid_date with date.today() as the parameter today: strptime
   * succeeds and the date is not before today. Only texts of eight to ten
   * characters pass, and a real date written "YYYY-MM-DD" passes exactly
   * when it is today or later.
   */
  predicate IsValidDate(s: string, today: DateTime): (b: bool)
    ensures b ==> 8 <= |s| <= 10 && s[4] == '-'
    ensures forall t :: Valid(t) && s == DateText(t) ==>
      (b <==> Le(Midnight(today.year, today.month, today.day), Midnight(t.year, t.month, t.day)))
  {
    CanonicalDatesRead();
    match StrptimeDate(s)
    case None => false
    case Some((y, m, d)) => Le(Midnight(today.year, today.month, today.day), Midnight(y, m, d))
  }

  /** strptime reads four year digits, '-', two month digits, '-', two day digits as that date. */
  lemma ReadsCanonicalDate(year: string, y: int, m: nat, d: nat)
    requires |year| == 4 && AllDigits(year) && DigitsValue(year) == y && ValidDate(y, m, d)
    ensures StrptimeDate(year + "-" + [DigitChar(m / 10), DigitChar(m % 10)] + "-" + [DigitChar(d / 10), DigitChar(d % 10)])
      == Some((y, m, d))
  {
    var s := year + "-" + [DigitChar(m / 10), DigitChar(m % 10)] + "-" + [DigitChar(d / 10), DigitChar(d % 10)];
    assert s[..4] == year;
    assert |s| == 10 && s[4] == '-' && s[7] == '-';
    assert s[5] == DigitChar(m / 10) && s[6] == DigitChar(m % 10);
    assert s[8] == DigitChar(d / 10) && s[9] == DigitChar(d % 10);
    assert DayField(s, 8) == Some((d, 10));
    assert MonthThenDay(s, 5) == Some((m, d, 10));
  }

  /** Every real date, spelled YYYY-MM-DD as date('now') spells it, is read back by strptime as that same date. */
  lemma CanonicalDateRoundTrip(t: DateTime)
    requires Valid(t)
    ensures StrptimeDate(DateText(t)) == Some((t.year, t.month, t.day))
  {
    assert Pow10(4) == 10000;
    NatToStringLength(t.year, 4);
    TwoDigitPad(t.month);
    TwoDigitPad(t.day);
    ReadsCanonicalDate(Pad(t.year, 4), t.year, t.month, t.day);
  }

  /** CanonicalDateRoundTrip for every instant at once. */
  lemma CanonicalDatesRead()
    ensures forall t :: Valid(t) ==> StrptimeDate(DateText(t)) == Some((t.year, t.month, t.day))
  {
    forall t | Valid(t) ensures StrptimeDate(DateText(t)) == Some((t.year, t.month, t.day)) {
      CanonicalDateRoundTrip(t);
    }
  }

  lemma DateExamples(today: DateTime)
    requires today == DateTime(2024, 1, 1, 12, 0, 0)
    ensures StrptimeDate("2024-02-29") == Some((2024, 2, 29))
    ensures StrptimeDate("2023-02-29") == None
    ensures StrptimeDate("2024-1-5") == Some((2024, 1, 5))
    ensures StrptimeDate("2024-01-32") == None
  {
    assert "2024-02-29"[..4] == "2024";
    assert "2023-02-29"[..4] == "2023";
    assert "2024-1-5"[..4] == "2024";
    assert "2024-01-32"[..4] == "2024";
    YearDigits();
  }

  lemma YearDigits()
    ensures DigitsValue("2024") == 2024 && DigitsValue("2023") == 2023
  {
    assert "2024"[..3] == "202" && "202"[..2] == "20" && "20"[..1] == "2";
    assert "2023"[..3] == "202" && "202"[..2] == "20" && "20"[..1] == "2";
  }

  /** Today's own date text is accepted, and the text of any earlier day is refused. */
  lemma TodayIsTheFirstDay(today: DateTime, t: DateTime)
    requires Valid(today) && Valid(t)
    ensures IsValidDate(DateText(today), today)
    ensures (t.year < today.year
             || (t.year == today.year && t.month < today.month)
             || (t.year == today.year && t.month == today.month && t.day < today.day))
            ==> !IsValidDate(DateText(t), today)
  {
    CanonicalDateRoundTrip(today);
    CanonicalDateRoundTrip(t);
  }
}
