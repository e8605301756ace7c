/** Python's datetime.strptime for the two formats the cleaning stage uses,
    "%H:%M:%S" for durations and "%Y/%m/%d" for creation dates, and
    strftime("%Y-%m-%d") for the rendered date.

    strptime turns each directive into a regular-expression group of
    ordered alternatives, takes the first match at the start of the text
    and then fails with "unconverted data remains" unless the match
    consumed everything. Each *Width function below gives the length of the
    first alternative of one directive that matches at the start of a text
    (0 when none does). No backtracking into an earlier directive is needed
    for these two formats: every directive but the last is followed by a
    separator that no alternative consumes, and the longer alternatives
    come first wherever two alternatives share a prefix. */
module Strptime {
  import opened Text
  import opened Wrappers

  lemma TwoDigits(t: string)
    requires |t| == 2 && AllDigits(t)
    ensures DigitsValue(t) == DigitValue(t[0]) * 10 + DigitValue(t[1])
  {
    assert t[..1] == [t[0]] && t[..1][..0] == [];
    assert DigitsValue(t[..1]) == DigitValue(t[0]);
  }

  lemma OneDigit(t: string)
    requires |t| == 1 && AllDigits(t)
    ensures DigitsValue(t) == DigitValue(t[0])
  {
    assert t[..0] == [];
  }

  /** `%H` is `2[0-3]|[0-1]\d|\d`. */
  function HourWidth(s: string): (w: nat)
    ensures w <= 2 && w <= |s| && AllDigits(s[..w])
    ensures 0 < w ==> DigitsValue(s[..w]) <= 23
  {
    if |s| >= 2 && s[0] == '2' && '0' <= s[1] <= '3' then TwoDigits(s[..2]); 2
    else if |s| >= 2 && '0' <= s[0] <= '1' && IsDigit(s[1]) then TwoDigits(s[..2]); 2
    else if |s| >= 1 && IsDigit(s[0]) then OneDigit(s[..1]); 1
    else 0
  }

  /** `%M` is `[0-5]\d|\d`. */
  function MinuteWidth(s: string): (w: nat)
    ensures w <= 2 && w <= |s| && AllDigits(s[..w])
    ensures 0 < w ==> DigitsValue(s[..w]) <= 59
  {
    if |s| >= 2 && '0' <= s[0] <= '5' && IsDigit(s[1]) then TwoDigits(s[..2]); 2
    else if |s| >= 1 && IsDigit(s[0]) then OneDigit(s[..1]); 1
    else 0
  }

  /** `%S` is `6[0-1]|[0-5]\d|\d`: it admits the leap seconds 60 and 61. */
  function SecondWidth(s: string): (w: nat)
    ensures w <= 2 && w <= |s| && AllDigits(s[..w])
    ensures 0 < w ==> DigitsValue(s[..w]) <= 61
  {
    if |s| >= 2 && s[0] == '6' && '0' <= s[1] <= '1' then TwoDigits(s[..2]); 2
    else if |s| >= 2 && '0' <= s[0] <= '5' && IsDigit(s[1]) then TwoDigits(s[..2]); 2
    else if |s| >= 1 && IsDigit(s[0]) then OneDigit(s[..1]); 1
    else 0
  }

  lemma FourDigits(t: string)
    requires |t| == 4 && AllDigits(t)
    ensures DigitsValue(t) <= 9999
  {
    assert t == t[..2] + t[2..];
    DigitsAppend2(t[..2], t[2..]);
    TwoDigits(t[..2]);
    TwoDigits(t[2..]);
  }

  /** `%Y` is `\d\d\d\d`. */
  function YearWidth(s: string): (w: nat)
    ensures w <= |s| && AllDigits(s[..w])
    ensures 0 < w ==> w == 4 && DigitsValue(s[..w]) <= 9999
  {
    if |s| >= 4 && IsDigit(s[0]) && IsDigit(s[1]) && IsDigit(s[2]) && IsDigit(s[3]) then FourDigits(s[..4]); 4 else 0
  }

  /** `%m` is `1[0-2]|0[1-9]|[1-9]`. */
  function MonthWidth(s: string): (w: nat)
    ensures w <= 2 && w <= |s| && AllDigits(s[..w])
    ensures 0 < w ==> 1 <= DigitsValue(s[..w]) <= 12
  {
    if |s| >= 2 && s[0] == '1' && '0' <= s[1] <= '2' then TwoDigits(s[..2]); 2
    else if |s| >= 2 && s[0] == '0' && '1' <= s[1] <= '9' then TwoDigits(s[..2]); 2
    else if |s| >= 1 && '1' <= s[0] <= '9' then OneDigit(s[..1]); 1
    else 0
  }

  /** `%d` is `3[01]|[12]\d|0[1-9]|[1-9]| [1-9]`; the last alternative starts with a space. */
  function DayWidth(s: string): (w: nat)
    ensures w <= 2 && w <= |s|
    ensures 0 < w ==> AllDigits(DayDigits(s[..w])) && 1 <= DigitsValue(DayDigits(s[..w])) <= 31
  {
    if |s| >= 2 && s[0] == '3' && '0' <= s[1] <= '1' then TwoDigits(s[..2]); 2
    else if |s| >= 2 && '1' <= s[0] <= '2' && IsDigit(s[1]) then TwoDigits(s[..2]); 2
    else if |s| >= 2 && s[0] == '0' && '1' <= s[1] <= '9' then TwoDigits(s[..2]); 2
    else if |s| >= 1 && '1' <= s[0] <= '9' then OneDigit(s[..1]); 1
    else if |s| >= 2 && s[0] == ' ' && '1' <= s[1] <= '9' then OneDigit(s[..2][1..]); 2
    else 0
  }

  /** The digits of a matched day: int() ignores the leading space of " 5". */
  function DayDigits(t: string): string
  {
    if |t| > 0 && t[0] == ' ' then t[1..] else t
  }

  /** strptime(s, "%H:%M:%S") turned into a timedelta, in seconds. */
  function ParseDuration(s: string): (r: Option<nat>)
    ensures r.Some? ==> r.value < 86400
  {
    var h := HourWidth(s);
    if h == 0 || h >= |s| || s[h] != ':' then None
    else
      var s1 := s[h + 1..];
      var m := MinuteWidth(s1);
      if m == 0 || m >= |s1| || s1[m] != ':' then None
      else
        var s2 := s1[m + 1..];
        var c := SecondWidth(s2);
        assert s2[..c] == s2 ==> AllDigits(s2);
        if c == 0 || c != |s2| then None
        else
          assert s2[..c] == s2;
          var hour, minute, second := DigitsValue(s[..h]), DigitsValue(s1[..m]), DigitsValue(s2);
          // datetime refuses the leap seconds that %S lets through
          if second > 59 then None
          else Some(hour * 3600 + minute * 60 + second)
  }

  /** The text the spreadsheet uses for a duration: zero-padded hours, minutes and seconds. */
  function DurationText(hour: nat, minute: nat, second: nat): string
    requires hour < 24 && minute < 60 && second < 60
  {
    Pad2(hour) + ":" + Pad2(minute) + ":" + Pad2(second)
  }

  lemma DurationRoundTrip(hour: nat, minute: nat, second: nat)
    requires hour < 24 && minute < 60 && second < 60
    ensures ParseDuration(DurationText(hour, minute, second)) == Some(hour * 3600 + minute * 60 + second)
  {
    var s := DurationText(hour, minute, second);
    var ph, pm, ps := Pad2(hour), Pad2(minute), Pad2(second);
    assert s == ph + ":" + pm + ":" + ps;
    assert s[0] == ph[0] && s[1] == ph[1] && s[2] == ':';
    assert HourWidth(s) == 2;
    assert s[..2] == ph;
    var s1 := s[3..];
    assert s1 == pm + ":" + ps;
    assert s1[0] == pm[0] && s1[1] == pm[1] && s1[2] == ':';
    assert MinuteWidth(s1) == 2;
    assert s1[..2] == pm;
    var s2 := s1[3..];
    assert s2 == ps;
    assert SecondWidth(s2) == 2;
  }

  /** Every duration below one day is the parse of exactly one zero-padded text. */
  lemma DurationOnto(n: nat)
    requires n < 86400
    ensures ParseDuration(DurationText(n / 3600, n % 3600 / 60, n % 3600 % 60)) == Some(n)
  {
    var hour, rest := n / 3600, n % 3600;
    var minute, second := rest / 60, rest % 60;
    assert n == hour * 3600 + rest && rest == minute * 60 + second;
    DurationRoundTrip(hour, minute, second);
  }

  lemma PaddedDurationExample()
    ensures ParseDuration("01:02:03") == Some(3723)
  {
    DurationRoundTrip(1, 2, 3);
    assert DurationText(1, 2, 3) == "01:02:03";
  }

  /** strptime does not insist on leading zeros. */
  lemma UnpaddedDurationExample()
    ensures ParseDuration("1:2:3") == Some(3723)
  {
    var s := "1:2:3";
    assert HourWidth(s) == 1 && s[..1] == "1";
    assert s[2..] == "2:3" && MinuteWidth(s[2..]) == 1 && s[2..][..1] == "2";
    assert s[2..][2..] == "3" && SecondWidth("3") == 1;
    OneDigit("1"); OneDigit("2"); OneDigit("3");
  }

  lemma HourOutOfRangeExample()
    ensures ParseDuration("24:00:00") == None
  {
    assert HourWidth("24:00:00") == 1;
  }

  lemma LeapSecondExample()
    ensures ParseDuration("00:00:60") == None
  {
    var t := "00:00:60";
    assert HourWidth(t) == 2 && t[3..] == "00:60";
    assert MinuteWidth("00:60") == 2 && "00:60"[3..] == "60";
    assert SecondWidth("60") == 2;
    TwoDigits("60");
  }

  lemma TrailingTextExample()
    ensures ParseDuration("01:02:03 ") == None
  {
    var u := "01:02:03 ";
    assert HourWidth(u) == 2 && u[3..] == "02:03 ";
    assert MinuteWidth("02:03 ") == 2 && "02:03 "[3..] == "03 ";
    assert SecondWidth("03 ") == 2;
  }

  /** A calendar date as datetime holds it. */
  datatype Date = Date(year: int, month: int, day: int)

  predicate IsLeapYear(year: int)
  {
    year % 4 == 0 && (year % 100 != 0 || year % 400 == 0)
  }

  function DaysInMonth(year: int, month: int): int
    requires 1 <= month <= 12
  {
    if month == 2 then (if IsLeapYear(year) then 29 else 28)
    else if month in {4, 6, 9, 11} then 30
    else 31
  }

  /** The dates datetime can represent: years MINYEAR = 1 to MAXYEAR = 9999. */
  predicate IsValidDate(d: Date)
  {
    && 1 <= d.year <= 9999
    && 1 <= d.month <= 12
    && 1 <= d.day <= DaysInMonth(d.year, d.month)
  }

  type DateTime = d: Date | IsValidDate(d) witness Date(1, 1, 1)

  /** strptime(s, "%Y/%m/%d"); datetime itself refuses year 0 and days past the end of the month. */
  function ParseCreated(s: string): (r: Option<DateTime>)
  {
    var w := YearWidth(s);
    if w == 0 || w >= |s| || s[w] != '/' then None
    else ParseMonthDay(DigitsValue(s[..w]), s[w + 1..])
  }

  /** The `%m/%d` part, after the year and its slash. */
  function ParseMonthDay(year: nat, s: string): (r: Option<DateTime>)
    requires year <= 9999
  {
    var w := MonthWidth(s);
    if w == 0 || w >= |s| || s[w] != '/' then None
    else ParseDay(year, DigitsValue(s[..w]), s[w + 1..])
  }

  /** The `%d` part, which must end the text. */
  function ParseDay(year: nat, month: nat, s: string): (r: Option<DateTime>)
    requires year <= 9999 && 1 <= month <= 12
  {
    var w := DayWidth(s);
    if w == 0 || w != |s| then None
    else
      assert s[..w] == s;
      var day := DigitsValue(DayDigits(s));
      if year < 1 || day > DaysInMonth(year, month) then None
      else Some(Date(year, month, day))
  }

  /** strftime("%Y-%m-%d"), zero-padded. */
  function FormatDate(d: DateTime): string
  {
    Pad4(d.year) + "-" + Pad2(d.month) + "-" + Pad2(d.day)
  }

  /** Turning the rendered date's dashes back into slashes gives a text that parses to the same date,
      so every date renders differently. */
  lemma CreatedRoundTrip(d: DateTime)
    ensures ParseCreated(ReplaceChar(FormatDate(d), '-', '/')) == Some(d)
  {
    SlashedFormat(d);
    ParseSlashed(d);
  }

  lemma SlashedFormat(d: DateTime)
    ensures ReplaceChar(FormatDate(d), '-', '/') == Pad4(d.year) + "/" + Pad2(d.month) + "/" + Pad2(d.day)
  {
    var py, pm, pd := Pad4(d.year), Pad2(d.month), Pad2(d.day);
    var slashed := py + "/" + pm + "/" + pd;
    var s := ReplaceChar(FormatDate(d), '-', '/');
    assert |s| == |slashed| == 10;
    forall i | 0 <= i < 10 ensures s[i] == slashed[i] {
      assert FormatDate(d)[i] == (py + "-" + pm + "-" + pd)[i];
    }
  }

  lemma ParseSlashed(d: DateTime)
    ensures ParseCreated(Pad4(d.year) + "/" + Pad2(d.month) + "/" + Pad2(d.day)) == Some(d)
  {
    var py, rest := Pad4(d.year), "/" + Pad2(d.month) + "/" + Pad2(d.day);
    var s := py + rest;
    assert s == Pad4(d.year) + "/" + Pad2(d.month) + "/" + Pad2(d.day);
    assert s[..4] == py && s[4..] == rest;
    assert YearWidth(s) == 4 by {
      assert s[0] == py[0] && s[1] == py[1] && s[2] == py[2] && s[3] == py[3];
    }
    assert DigitsValue(s[..4]) == d.year;
    assert s[4] == '/' && s[5..] == Pad2(d.month) + "/" + Pad2(d.day);
    ParseMonthDaySlashed(d);
  }

  lemma ParseMonthDaySlashed(d: DateTime)
    ensures ParseMonthDay(d.year, Pad2(d.month) + "/" + Pad2(d.day)) == Some(d)
  {
    var pm, pd := Pad2(d.month), Pad2(d.day);
    var s := pm + "/" + pd;
    assert s[..2] == pm && s[2] == '/' && s[3..] == pd;
    assert MonthWidth(s) == 2;
    assert DayWidth(pd) == 2 && DayDigits(pd) == pd;
  }

  lemma FormatDateInjective(d1: DateTime, d2: DateTime)
    requires FormatDate(d1) == FormatDate(d2)
    ensures d1 == d2
  {
    CreatedRoundTrip(d1);
    CreatedRoundTrip(d2);
  }

  lemma LeapDayExample()
    ensures ParseCreated("2020/02/29") == Some(Date(2020, 2, 29))
  {
    var a := "2020/02/29";
    assert YearWidth(a) == 4 && a[..4] == "2020" && a[5..] == "02/29";
    assert MonthWidth("02/29") == 2 && "02/29"[..2] == "02" && "02/29"[3..] == "29";
    assert ParseDay(2020, 2, "29") == Some(Date(2020, 2, 29)) by {
      assert DayWidth("29") == 2 && DayDigits("29") == "29";
      TwoDigits("29");
    }
    assert DigitsValue("2020") == 2020 by {
      assert "2020" == "20" + "20";
      DigitsAppend2("20", "20");
      TwoDigits("20");
    }
    TwoDigits("02"); TwoDigits("29");
  }

  lemma NotALeapYearExample()
    ensures ParseCreated("2021/02/29") == None
  {
    var b := "2021/02/29";
    assert YearWidth(b) == 4 && b[..4] == "2021" && b[5..] == "02/29";
    assert MonthWidth("02/29") == 2 && "02/29"[..2] == "02" && "02/29"[3..] == "29";
    assert DayWidth("29") == 2 && DayDigits("29") == "29";
    assert DigitsValue("2021") == 2021 by {
      assert "2021" == "20" + "21";
      DigitsAppend2("20", "21");
      TwoDigits("20"); TwoDigits("21");
    }
    TwoDigits("02"); TwoDigits("29");
  }

  /** The day directive also admits a space in place of the leading zero. */
  lemma SpacePaddedDayExample()
    ensures ParseCreated("2021/1/ 5") == Some(Date(2021, 1, 5))
  {
    var c := "2021/1/ 5";
    assert YearWidth(c) == 4 && c[..4] == "2021" && c[5..] == "1/ 5";
    assert MonthWidth("1/ 5") == 1 && "1/ 5"[..1] == "1" && "1/ 5"[2..] == " 5";
    assert DayWidth(" 5") == 2 && DayDigits(" 5") == "5";
    assert DigitsValue("2021") == 2021 by {
      assert "2021" == "20" + "21";
      DigitsAppend2("20", "21");
      TwoDigits("20"); TwoDigits("21");
    }
    OneDigit("1"); OneDigit("5");
  }

  lemma YearZeroExample()
    ensures ParseCreated("0000/01/01") == None
  {
    var e := "0000/01/01";
    assert YearWidth(e) == 4 && e[..4] == "0000" && e[5..] == "01/01";
    assert MonthWidth("01/01") == 2 && "01/01"[..2] == "01" && "01/01"[3..] == "01";
    assert DayWidth("01") == 2;
    assert DigitsValue("0000") == 0 by {
      assert "0000" == "00" + "00";
      DigitsAppend2("00", "00");
      TwoDigits("00");
    }
  }

  lemma DashedDateExample()
    ensures ParseCreated("2021-01-05") == None
  {
    assert "2021-01-05"[4] == '-';
  }
}
