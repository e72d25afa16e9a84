/**
 * The string validators on the concrete inputs of tests/test_format_utils.py.
 */
module FormatUtilsExamples {
  import opened Wrappers
  import opened FormatUtils

  /** Strptime on the six fields of 7 June 2025, 14:30:15 gives that date and time. */
  lemma JuneSeventhParses()
    ensures FromDirectives(["07", "06", "2025", "14", "30", "15"]) == Some(DateTime(7, 6, 2025, 14, 30, 15))
  {
    var f := ["07", "06", "2025", "14", "30", "15"];
    TwoDigitsValue(f[0]);
    TwoDigitsValue(f[1]);
    FourDigitsValue(f[2]);
    TwoDigitsValue(f[3]);
    TwoDigitsValue(f[4]);
    TwoDigitsValue(f[5]);
    assert DirectivesMatch(f);
    assert Denoted(f) == DateTime(7, 6, 2025, 14, 30, 15);
  }

  /** Strptime on six separate fields that name 31 February fails. */
  lemma FebruaryThirtyFirstFails()
    ensures FromDirectives(["31", "02", "2025", "14", "30", "15"]).None?
  {
    var h := ["31", "02", "2025", "14", "30", "15"];
    TwoDigitsValue(h[0]);
    TwoDigitsValue(h[1]);
    FourDigitsValue(h[2]);
  }

  /** The date-time text of 7 June 2025, 14:30:15. */
  lemma JuneSeventhText(f: seq<string>)
    requires f == ["07", "06", "2025", "14", "30", "15"]
    ensures Join(f, ':') == "07:06:2025:14:30:15"
  {
    assert Join(f[4..], ':') == "30:15";
    assert Join(f[2..], ':') == "2025:14:30:15";
  }

  /** 7 June 2025, 14:30:15 followed by any three digits ("123", "000", "999", ...) is accepted. */
  lemma ValidDateExamples(millis: string, s: string)
    requires |millis| == 3 && IsDigits(millis)
    requires s == "07:06:2025:14:30:15" + ":" + millis
    ensures ValidateDateFormat(s)
  {
    var f := ["07", "06", "2025", "14", "30", "15"];
    JuneSeventhText(f);
    ValidateFields(f, millis);
    JuneSeventhParses();
  }

  /** A day past the end of its month (31 February) is rejected. */
  lemma DayOutsideMonthExample(s: string)
    requires s == "31:02:2025:14:30:15" + ":" + "123"
    ensures !ValidateDateFormat(s)
  {
    var h := ["31", "02", "2025", "14", "30", "15"];
    assert Join(h[4..], ':') == "30:15";
    assert Join(h[2..], ':') == "2025:14:30:15";
    assert Join(h, ':') == "31:02:2025:14:30:15";
    ValidateFields(h, "123");
    FebruaryThirtyFirstFails();
  }

  /** Milliseconds that are not exactly three digits ("12", "1234", "abc", ...) are rejected. */
  lemma MillisecondShapeExamples(millis: string, s: string)
    requires ':' !in millis && !(|millis| == 3 && IsDigits(millis))
    requires s == "07:06:2025:14:30:15" + ":" + millis
    ensures !ValidateDateFormat(s)
  {
    var f := ["07", "06", "2025", "14", "30", "15"];
    JuneSeventhText(f);
    ValidateFields(f, millis);
  }

  /** Without a millisecond field the seconds are taken as milliseconds and the
      five remaining fields do not parse. */
  lemma MissingMillisecondsExample(s: string)
    requires s == "07:06:2025:14:30" + ":" + "15"
    ensures !ValidateDateFormat(s)
  {
    var g := ["07", "06", "2025", "14", "30"];
    assert g[1..][1..] == g[2..] && g[2..][1..] == g[3..] && g[3..][1..] == g[4..];
    assert Join(g, ':') == "07:06:2025:14:30";
    ValidateFields(g, "15");
  }

  /** "123" converts to an int and "abc" does not. */
  lemma IntExamples()
    ensures IsValidInt("123")
    ensures !IsValidInt("abc")
  {
    assert IsDigits("123");
    assert forall c :: c in "abc" ==> !IsDigit(c);
  }

  /** The ASCII separators 0x1C..0x1F are not whitespace to `int()`: int("\x1c5") and
      int(" 5\x1f") raise, so neither string is a valid int. */
  lemma SeparatorsAreNotSkipped(s: string, t: string)
    requires s == [28 as char, '5'] && t == [' ', '5', 31 as char]
    ensures ParseInt(s).None? && !IsValidInt(s)
    ensures ParseInt(t).None? && !IsValidInt(t)
  {
    assert Strip(s) == s;
    assert !IsDigitRun(s) by { assert !DigitOrJoiner(s, 0); }
    assert t[1..] == ['5', 31 as char] && TrimStart(t) == ['5', 31 as char];
    assert Strip(t) == ['5', 31 as char];
    assert !IsDigitRun(Strip(t)) by { assert !DigitOrJoiner(Strip(t), 1); }
  }
}
