/**
 * String validators (utils/format_utils.py): `validate_date_format`, which
 * accepts "day:month:year:hour:minute:second:millisecond" strings naming a
 * real Gregorian date and time with a three-digit millisecond field, and
 * `is_valid_int`, which says whether Python's `int()` accepts a string.
 * Both are total: every failure inside them becomes `false`.
 */
module FormatUtils {
  import opened Wrappers

  // ---------------------------------------------------------------------
  // Decimal digits

  predicate IsDigit(c: char)
  {
    '0' <= c <= '9'
  }

  predicate IsDigits(s: string)
  {
    forall i :: 0 <= i < |s| ==> IsDigit(s[i])
  }

  function DigitValue(c: char): nat
    requires IsDigit(c)
  {
    c as int - '0' as int
  }

  function DigitChar(d: nat): (c: char)
    requires d < 10
    ensures IsDigit(c) && DigitValue(c) == d
  {
    ('0' as int + d) as char
  }

  /** The number a string of ASCII digits denotes, most significant digit first. */
  function DigitsValue(s: string): nat
    requires IsDigits(s)
  {
    if s == [] then 0 else 10 * DigitsValue(s[..|s| - 1]) + DigitValue(s[|s| - 1])
  }

  function Pow10(n: nat): nat
  {
    if n == 0 then 1 else 10 * Pow10(n - 1)
  }

  lemma {:induction false} DigitsValueBelowPow10(s: string)
    requires IsDigits(s)
    ensures DigitsValue(s) < Pow10(|s|)
  {
    if s != [] {
      DigitsValueBelowPow10(s[..|s| - 1]);
    }
  }

  /** The 0..999 range check of the milliseconds never rejects a string that passed
      the "three ASCII digits" check before it. */
  lemma {:induction false} ThreeDigitsInMillisecondRange(millis: string)
    requires |millis| == 3 && IsDigits(millis)
    ensures 0 <= DigitsValue(millis) <= 999
  {
    DigitsValueBelowPow10(millis);
    assert Pow10(3) == 1000;
  }

  lemma TwoDigitsValue(s: string)
    requires |s| == 2 && IsDigits(s)
    ensures DigitsValue(s) == 10 * DigitValue(s[0]) + DigitValue(s[1])
  {
    assert s[..1][..0] == [] && s[..1][0] == s[0];
    assert DigitsValue(s[..1]) == DigitValue(s[0]);
  }

  lemma FourDigitsValue(s: string)
    requires |s| == 4 && IsDigits(s)
    ensures DigitsValue(s) == 1000 * DigitValue(s[0]) + 100 * DigitValue(s[1]) + 10 * DigitValue(s[2]) + DigitValue(s[3])
  {
    TwoDigitsValue(s[..2]);
    assert s[..3][..2] == s[..2];
  }

  // ---------------------------------------------------------------------
  // str.split and str.rsplit(sep, 1)

  /** `s.split(sep)` for a one-character separator. */
  function Split(s: string, sep: char): (r: seq<string>)
    ensures |r| >= 1
    ensures forall i :: 0 <= i < |r| ==> sep !in r[i]
  {
    if s == [] then [""]
    else
      var rest := Split(s[1..], sep);
      if s[0] == sep then [""] + rest else [[s[0]] + rest[0]] + rest[1..]
  }

  /** `sep.join(parts)`. */
  function Join(parts: seq<string>, sep: char): string
    requires |parts| >= 1
  {
    if |parts| == 1 then parts[0] else parts[0] + [sep] + Join(parts[1..], sep)
  }

  /** Text without the separator stays in the first piece of whatever follows it. */
  lemma {:induction false} SplitPrefix(a: string, t: string, sep: char)
    requires sep !in a
    ensures Split(a + t, sep) == [a + Split(t, sep)[0]] + Split(t, sep)[1..]
  {
    if a != [] {
      assert (a + t)[1..] == a[1..] + t;
      SplitPrefix(a[1..], t, sep);
      assert [a[0]] + (a[1..] + Split(t, sep)[0]) == a + Split(t, sep)[0];
    } else {
      assert a + t == t && a + Split(t, sep)[0] == Split(t, sep)[0];
      assert Split(t, sep) == [Split(t, sep)[0]] + Split(t, sep)[1..];
    }
  }

  /** A leading separator closes an empty first piece. */
  lemma SplitAfterSeparator(rest: string, sep: char)
    ensures Split([sep] + rest, sep) == [""] + Split(rest, sep)
  {
    assert ([sep] + rest)[1..] == rest;
  }

  /** Splitting a join of separator-free pieces gives the pieces back. */
  lemma {:induction false} SplitJoin(parts: seq<string>, sep: char)
    requires |parts| >= 1
    requires forall i :: 0 <= i < |parts| ==> sep !in parts[i]
    ensures Split(Join(parts, sep), sep) == parts
  {
    SplitPrefix(parts[0], "", sep);
    assert parts[0] + "" == parts[0];
    if |parts| > 1 {
      var rest := Join(parts[1..], sep);
      assert Join(parts, sep) == parts[0] + ([sep] + rest);
      SplitJoin(parts[1..], sep);
      SplitAfterSeparator(rest, sep);
      SplitPrefix(parts[0], [sep] + rest, sep);
      assert parts == [parts[0]] + parts[1..];
    }
  }

  /** Position of the last occurrence of `c` in `s`. */
  function LastIndexOf(s: string, c: char): (r: Option<nat>)
    ensures r.None? <==> c !in s
    ensures r.Some? ==> r.value < |s| && s[r.value] == c && c !in s[r.value + 1..]
  {
    if s == [] then None
    else if s[|s| - 1] == c then Some(|s| - 1)
    else
      var r := LastIndexOf(s[..|s| - 1], c);
      assert r.Some? ==> s[r.value + 1..] == s[..|s| - 1][r.value + 1..] + [s[|s| - 1]];
      r
  }

  /** `s.rsplit(sep, 1)`: one piece when the separator is absent, else the text around its last occurrence. */
  function RSplitOnce(s: string, sep: char): (r: seq<string>)
    ensures |r| == 1 <==> sep !in s
    ensures |r| == 1 ==> r[0] == s
    ensures |r| == 2 ==> s == r[0] + [sep] + r[1] && sep !in r[1]
  {
    match LastIndexOf(s, sep)
    case None => [s]
    case Some(i) =>
      assert s == s[..i] + [sep] + s[i + 1..];
      [s[..i], s[i + 1..]]
  }

  lemma RSplitOnceOfJoin(a: string, b: string, sep: char)
    requires sep !in b
    ensures RSplitOnce(a + [sep] + b, sep) == [a, b]
  {
    var s := a + [sep] + b;
    assert s[|a|] == sep && s[..|a|] == a && s[|a| + 1..] == b;
    assert LastIndexOf(s, sep) == Some(|a|);
  }

  // ---------------------------------------------------------------------
  // datetime.strptime(date_part, "%d:%m:%Y:%H:%M:%S")

  datatype DateTime = DateTime(day: int, month: int, year: int, hour: int, minute: int, second: int)

  /** A 1- or 2-digit field whose value lies in lo..hi: exactly what the %m, %H, %M and %S
      regexes of strptime match (for instance 1[0-2]|0[1-9]|[1-9] for %m). */
  predicate ShortNumber(f: string, lo: int, hi: int)
  {
    1 <= |f| <= 2 && IsDigits(f) && lo <= DigitsValue(f) <= hi
  }

  /** The %d regex 3[01]|[12]\d|0[1-9]|[1-9]| [1-9]: a 1..31 number, or a space and a nonzero digit. */
  predicate DayMatches(f: string)
  {
    ShortNumber(f, 1, 31) || (|f| == 2 && f[0] == ' ' && '1' <= f[1] <= '9')
  }

  function DayValue(f: string): int
    requires DayMatches(f)
  {
    if IsDigits(f) then DigitsValue(f) else DigitValue(f[1])
  }

  /** The six ':'-separated fields match the six directives (%Y is \d\d\d\d). */
  predicate DirectivesMatch(f: seq<string>)
  {
    && |f| == 6
    && DayMatches(f[0])
    && ShortNumber(f[1], 1, 12)
    && |f[2]| == 4 && IsDigits(f[2])
    && ShortNumber(f[3], 0, 23)
    && ShortNumber(f[4], 0, 59)
    && ShortNumber(f[5], 0, 61)
  }

  /** Gregorian leap years, as Python's datetime module uses them for every year. */
  predicate IsLeapYear(year: int)
  {
    year % 4 == 0 && (year % 100 != 0 || year % 400 == 0)
  }

  /** Gregorian month lengths. */
  function DaysInMonth(month: int, year: int): (d: int)
    requires 1 <= month <= 12
    ensures month == 2 ==> (d == 29 <==> IsLeapYear(year)) && (d == 28 <==> !IsLeapYear(year))
    ensures month in {4, 6, 9, 11} ==> d == 30
    ensures month !in {2, 4, 6, 9, 11} ==> d == 31
  {
    if month == 2 then (if IsLeapYear(year) then 29 else 28)
    else if month in {4, 6, 9, 11} then 30
    else 31
  }

  /** A date `datetime.date` accepts (years 1..9999). */
  predicate IsCalendarDate(day: int, month: int, year: int)
  {
    1 <= year <= 9999 && 1 <= month <= 12 && 1 <= day <= DaysInMonth(month, year)
  }

  /** A date and time `datetime.datetime` accepts. */
  predicate IsValidDateTime(dt: DateTime)
  {
    && IsCalendarDate(dt.day, dt.month, dt.year)
    && 0 <= dt.hour <= 23 && 0 <= dt.minute <= 59 && 0 <= dt.second <= 59
  }

  /** The date and time six matching fields name. */
  function Denoted(f: seq<string>): DateTime
    requires DirectivesMatch(f)
  {
    DateTime(DayValue(f[0]), DigitsValue(f[1]), DigitsValue(f[2]),
             DigitsValue(f[3]), DigitsValue(f[4]), DigitsValue(f[5]))
  }

  /** strptime on the already separated fields: the regex match, then the calendar check of
      datetime.date (which rejects year 0 and days past the month's end), then datetime's
      own check, which rejects the seconds 60 and 61 the %S regex lets through. */
  function FromDirectives(f: seq<string>): (r: Option<DateTime>)
    ensures r.Some? <==> DirectivesMatch(f) && IsValidDateTime(Denoted(f))
    ensures r.Some? ==> r.value == Denoted(f)
  {
    if !DirectivesMatch(f) then None
    else
      var dt := DateTime(DayValue(f[0]), DigitsValue(f[1]), DigitsValue(f[2]),
                         DigitsValue(f[3]), DigitsValue(f[4]), DigitsValue(f[5]));
      if !IsCalendarDate(dt.day, dt.month, dt.year) then None
      else if dt.second > 59 then None
      else Some(dt)
  }

  /** `datetime.strptime(date_part, "%d:%m:%Y:%H:%M:%S")`; None where it raises ValueError. */
  function Strptime(datePart: string): (r: Option<DateTime>)
    ensures var f := Split(datePart, ':');
      && (r.Some? <==> DirectivesMatch(f) && IsValidDateTime(Denoted(f)))
      && (r.Some? ==> r.value == Denoted(f))
  {
    FromDirectives(Split(datePart, ':'))
  }

  // ---------------------------------------------------------------------
  // validate_date_format

  /** `validate_date_format`: the last ':' field is the milliseconds, what precedes it must
      parse as a date and time, and the milliseconds must be exactly three digits in 0..999. */
  function ValidateDateFormat(dateStr: string): (ok: bool)
    ensures ok ==> ':' in dateStr
    ensures ok <==>
      var parts := RSplitOnce(dateStr, ':');
      |parts| == 2 && Strptime(parts[0]).Some? && |parts[1]| == 3 && IsDigits(parts[1])
  {
    var parts := RSplitOnce(dateStr, ':');
    if |parts| != 2 then false  // unpacking a single piece raises, and the handler returns False
    else
      var datePart, millis := parts[0], parts[1];
      if Strptime(datePart).None? then false
      else if |millis| != 3 || !IsDigits(millis) then false
      else
        ThreeDigitsInMillisecondRange(millis);
        if !(0 <= DigitsValue(millis) <= 999) then false
        else true
  }

  /** On a string written as ':'-joined separator-free fields followed by ':' and the
      milliseconds, the validator checks exactly the fields and the milliseconds. */
  lemma ValidateFields(fields: seq<string>, millis: string)
    requires |fields| >= 1
    requires forall i :: 0 <= i < |fields| ==> ':' !in fields[i]
    requires ':' !in millis
    ensures ValidateDateFormat(Join(fields, ':') + ":" + millis) <==>
      FromDirectives(fields).Some? && |millis| == 3 && IsDigits(millis)
  {
    RSplitOnceOfJoin(Join(fields, ':'), millis, ':');
    SplitJoin(fields, ':');
  }

  /** On matching fields, the validator accepts exactly when the fields name a real date
      and time and the milliseconds are three digits. */
  lemma ValidateCalendar(fields: seq<string>, millis: string)
    requires forall i :: 0 <= i < |fields| ==> ':' !in fields[i]
    requires ':' !in millis && DirectivesMatch(fields)
    ensures ValidateDateFormat(Join(fields, ':') + ":" + millis) <==>
      IsValidDateTime(Denoted(fields)) && |millis| == 3 && IsDigits(millis)
  {
    ValidateFields(fields, millis);
  }

  /** A day past the end of its month (31 April, 29 February 2025, ...) is rejected,
      whatever the other fields and the milliseconds. */
  lemma DayPastMonthEndRejected(fields: seq<string>, millis: string)
    requires forall i :: 0 <= i < |fields| ==> ':' !in fields[i]
    requires ':' !in millis && DirectivesMatch(fields)
    requires DayValue(fields[0]) > DaysInMonth(DigitsValue(fields[1]), DigitsValue(fields[2]))
    ensures !ValidateDateFormat(Join(fields, ':') + ":" + millis)
  {
    ValidateCalendar(fields, millis);
  }

  /** Year 0000 matches %Y but is not a date, so it is rejected. */
  lemma YearZeroRejected(fields: seq<string>, millis: string)
    requires forall i :: 0 <= i < |fields| ==> ':' !in fields[i]
    requires ':' !in millis && DirectivesMatch(fields) && DigitsValue(fields[2]) == 0
    ensures !ValidateDateFormat(Join(fields, ':') + ":" + millis)
  {
    ValidateCalendar(fields, millis);
  }

  /** Seconds 60 and 61 match %S but datetime refuses them, so they are rejected. */
  lemma LeapSecondsRejected(fields: seq<string>, millis: string)
    requires forall i :: 0 <= i < |fields| ==> ':' !in fields[i]
    requires ':' !in millis && DirectivesMatch(fields) && DigitsValue(fields[5]) >= 60
    ensures !ValidateDateFormat(Join(fields, ':') + ":" + millis)
  {
    ValidateCalendar(fields, millis);
  }

  // ---------------------------------------------------------------------
  // The timestamps the agent writes: strftime("%d:%m:%Y:%H:%M:%S") plus ":%03d" milliseconds

  /** `n` written with exactly `width` digits, zero-padded on the left. */
  function Padded(n: nat, width: nat): (s: string)
    requires n < Pow10(width)
    ensures |s| == width && IsDigits(s) && DigitsValue(s) == n
  {
    if width == 0 then ""
    else
      var s := Padded(n / 10, width - 1) + [DigitChar(n % 10)];
      assert s[..|s| - 1] == Padded(n / 10, width - 1);
      s
  }

  function TimestampFields(dt: DateTime): seq<string>
    requires IsValidDateTime(dt)
  {
    [Padded(dt.day, 2), Padded(dt.month, 2), Padded(dt.year, 4),
     Padded(dt.hour, 2), Padded(dt.minute, 2), Padded(dt.second, 2)]
  }

  /** A timestamp as the agent's clock formats it. */
  function FormatTimestamp(dt: DateTime, millis: nat): string
    requires IsValidDateTime(dt) && millis <= 999
  {
    Join(TimestampFields(dt), ':') + ":" + Padded(millis, 3)
  }

  /** Every timestamp the agent can write (years 1000..9999, where %Y gives four digits) is
      accepted, and its date part parses back to the date and time it was written from. */
  lemma {:induction false} FormattedTimestampValid(dt: DateTime, millis: nat)
    requires IsValidDateTime(dt) && 1000 <= dt.year && millis <= 999
    ensures ValidateDateFormat(FormatTimestamp(dt, millis))
    ensures Strptime(Join(TimestampFields(dt), ':')) == Some(dt)
  {
    var f := TimestampFields(dt);
    forall i | 0 <= i < 6 ensures ':' !in f[i] {
      assert IsDigits(f[i]);
    }
    SplitJoin(f, ':');
    assert DayValue(f[0]) == dt.day;
    assert FromDirectives(f) == Some(dt);
    ValidateFields(f, Padded(millis, 3));
  }

  // ---------------------------------------------------------------------
  // is_valid_int: whether int(value) accepts a string

  /** The characters `int()` skips around a number in an ASCII string: the space and
      \t \n \v \f \r (0x09..0x0D). The separators 0x1C..0x1F, which `str.isspace` also
      accepts, are not skipped, so they make `int()` raise. */
  predicate IsPySpace(c: char)
  {
    c == ' ' || 9 <= c as int <= 13
  }

  predicate AllSpace(s: string)
  {
    forall k :: 0 <= k < |s| ==> IsPySpace(s[k])
  }

  function TrimStart(s: string): (r: string)
    ensures forall c :: c in r ==> c in s
    ensures r != [] ==> !IsPySpace(r[0])
  {
    if s != [] && IsPySpace(s[0]) then TrimStart(s[1..]) else s
  }

  function TrimEnd(s: string): (r: string)
    ensures forall c :: c in r ==> c in s
    ensures |r| <= |s| && (r != [] ==> !IsPySpace(r[|r| - 1]) && r[0] == s[0])
  {
    if s != [] && IsPySpace(s[|s| - 1]) then TrimEnd(s[..|s| - 1]) else s
  }

  /** The text without the whitespace `int()` skips around the number. */
  function Strip(s: string): (r: string)
    ensures r != [] ==> !IsPySpace(r[0]) && !IsPySpace(r[|r| - 1])
    ensures forall c :: c in r ==> c in s
    ensures s != [] && !IsPySpace(s[0]) && !IsPySpace(s[|s| - 1]) ==> r == s
  {
    TrimEnd(TrimStart(s))
  }

  /** TrimStart drops a whitespace prefix and keeps the rest. */
  lemma {:induction false} TrimStartDropsSpacePrefix(s: string)
    ensures var r := TrimStart(s);
      |r| <= |s| && r == s[|s| - |r|..] && AllSpace(s[..|s| - |r|])
  {
    if s != [] && IsPySpace(s[0]) {
      TrimStartDropsSpacePrefix(s[1..]);
      var r := TrimStart(s[1..]);
      assert s[..|s| - |r|] == [s[0]] + s[1..][..|s| - 1 - |r|];
    }
  }

  /** TrimEnd drops a whitespace suffix and keeps the rest. */
  lemma {:induction false} TrimEndDropsSpaceSuffix(s: string)
    ensures var r := TrimEnd(s);
      |r| <= |s| && r == s[..|r|] && AllSpace(s[|r|..])
  {
    if s != [] && IsPySpace(s[|s| - 1]) {
      TrimEndDropsSpaceSuffix(s[..|s| - 1]);
      var r := TrimEnd(s[..|s| - 1]);
      assert s[|r|..] == s[..|s| - 1][|r|..] + [s[|s| - 1]];
    }
  }

  /** s is i whitespace characters, then r, then whitespace up to its end. */
  predicate SpaceFramed(s: string, r: string, i: int)
  {
    && 0 <= i <= |s| - |r|
    && s == s[..i] + r + s[i + |r|..]
    && AllSpace(s[..i]) && AllSpace(s[i + |r|..])
  }

  /** A whitespace prefix cut from s, then a whitespace suffix cut from the rest, frame r. */
  lemma FramedByCuts(s: string, t: string, r: string)
    requires |t| <= |s| && t == s[|s| - |t|..] && AllSpace(s[..|s| - |t|])
    requires |r| <= |t| && r == t[..|r|] && AllSpace(t[|r|..])
    ensures SpaceFramed(s, r, |s| - |t|)
  {
    var i := |s| - |t|;
    assert t == r + t[|r|..];
    assert s == s[..i] + t;
    assert s[i + |r|..] == t[|r|..];
  }

  /** Stripping removes whitespace and only whitespace, and only at the two ends: s is
      leading whitespace, then the result, then trailing whitespace. */
  lemma StripRemovesEdgeSpace(s: string)
    ensures exists i :: SpaceFramed(s, Strip(s), i)
  {
    var t := TrimStart(s);
    TrimStartDropsSpacePrefix(s);
    TrimEndDropsSpaceSuffix(t);
    FramedByCuts(s, t, TrimEnd(t));
    assert SpaceFramed(s, Strip(s), |s| - |t|);
  }

  /** Position i of s holds a digit, or an underscore with a digit on each side. */
  predicate DigitOrJoiner(s: string, i: int)
    requires 0 <= i < |s|
  {
    IsDigit(s[i]) || (s[i] == '_' && 0 < i < |s| - 1 && IsDigit(s[i - 1]) && IsDigit(s[i + 1]))
  }

  /** Digits with single underscores allowed between two digits. */
  predicate IsDigitRun(s: string)
  {
    |s| > 0 && forall i :: 0 <= i < |s| ==> DigitOrJoiner(s, i)
  }

  function RemoveUnderscores(s: string): (r: string)
    ensures forall i :: 0 <= i < |r| ==> r[i] in s && r[i] != '_'
    ensures IsDigits(s) ==> r == s
  {
    if s == [] then []
    else if s[0] == '_' then RemoveUnderscores(s[1..])
    else [s[0]] + RemoveUnderscores(s[1..])
  }

  lemma DigitRunDigits(s: string)
    requires IsDigitRun(s)
    ensures IsDigits(RemoveUnderscores(s))
  {
    var r := RemoveUnderscores(s);
    forall i | 0 <= i < |r| ensures IsDigit(r[i]) {
      assert r[i] in s;
      var j :| 0 <= j < |s| && s[j] == r[i];
      assert DigitOrJoiner(s, j);
    }
  }

  /** The value of a digit run, its underscores dropped. */
  function DigitRunValue(body: string): (v: nat)
    requires IsDigitRun(body)
    ensures IsDigits(body) ==> v == DigitsValue(body)
  {
    DigitRunDigits(body);
    DigitsValue(RemoveUnderscores(body))
  }

  /** The interpreter's default cap on the digits `int()` converts from a str and `str()`
      writes (`sys.get_int_max_str_digits()`); longer numbers raise ValueError. */
  const IntMaxStrDigits := 4300

  /** `int` on text whose surrounding whitespace is already gone: an optional
      sign, then a digit run of at most IntMaxStrDigits digits. */
  function ParseStripped(t: string): (r: Option<int>)
    ensures r.Some? ==> exists c :: c in t && IsDigit(c)
  {
    var signed := |t| > 0 && (t[0] == '+' || t[0] == '-');
    var body := if signed then t[1..] else t;
    if !IsDigitRun(body) then None
    else if |RemoveUnderscores(body)| > IntMaxStrDigits then None
    else
      assert DigitOrJoiner(body, 0) && body[0] in t;
      Some(if signed && t[0] == '-' then 0 - DigitRunValue(body) else DigitRunValue(body))
  }

  /** `int(s)` on a str in base 10: None where it raises ValueError. */
  function ParseInt(s: string): (r: Option<int>)
    ensures r.Some? ==> exists c :: c in s && IsDigit(c)
    ensures IsDigits(s) && s != [] ==>
      r == if |s| <= IntMaxStrDigits then Some(DigitsValue(s)) else None
  {
    ParseStripped(Strip(s))
  }

  /** `is_valid_int`: whether `int(value)` succeeds. */
  function IsValidInt(value: string): (ok: bool)
    ensures ok ==> exists c :: c in value && IsDigit(c)
    ensures IsDigits(value) && value != [] ==> (ok <==> |value| <= IntMaxStrDigits)
  {
    ParseInt(value).Some?
  }

  /** A character that is not whitespace lies in the framed middle part. */
  lemma NonSpaceInFrame(s: string, r: string, i: int, k: int)
    requires SpaceFramed(s, r, i) && 0 <= k < |s| && !IsPySpace(s[k])
    ensures i <= k < i + |r| && r[k - i] == s[k]
  {
    assert s == s[..i] + r + s[i + |r|..];
  }

  /** Stripped text holding a character other than a digit, a sign or an underscore
      does not parse. */
  lemma ForeignCharacterStripped(t: string, q: int)
    requires 0 <= q < |t| && !IsDigit(t[q]) && t[q] != '+' && t[q] != '-' && t[q] != '_'
    ensures ParseStripped(t).None?
  {
    var signed := t[0] == '+' || t[0] == '-';
    var body := if signed then t[1..] else t;
    var p := if signed then q - 1 else q;
    assert 0 <= p < |body| && body[p] == t[q];
    assert !DigitOrJoiner(body, p);
  }

  /** A character that is neither a digit, a sign, an underscore nor whitespace anywhere
      in the text ("1.5", "1a", "0x1F", "1e3") makes `int()` raise. */
  lemma ForeignCharacterRejected(s: string, k: int)
    requires 0 <= k < |s| && !IsDigit(s[k]) && !IsPySpace(s[k])
    requires s[k] != '+' && s[k] != '-' && s[k] != '_'
    ensures ParseInt(s).None? && !IsValidInt(s)
  {
    var r := Strip(s);
    assert ParseStripped(r).None? by {
      StripRemovesEdgeSpace(s);
      var i :| SpaceFramed(s, r, i);
      NonSpaceInFrame(s, r, i, k);
      ForeignCharacterStripped(r, k - i);
    }
  }

  /** `str(n)` for a non-negative n. */
  function NatToDecimal(n: nat): (s: string)
    ensures |s| >= 1 && IsDigits(s)
  {
    if n < 10 then [DigitChar(n)] else NatToDecimal(n / 10) + [DigitChar(n % 10)]
  }

  lemma {:induction false} NatToDecimalValue(n: nat)
    ensures DigitsValue(NatToDecimal(n)) == n
  {
    if n >= 10 {
      var s := NatToDecimal(n);
      assert s[..|s| - 1] == NatToDecimal(n / 10);
      NatToDecimalValue(n / 10);
    }
  }

  /** `str(n)`. */
  function IntToDecimal(n: int): string
  {
    if n < 0 then "-" + NatToDecimal(-n) else NatToDecimal(n)
  }

  lemma DigitsAreDigitRun(d: string)
    requires |d| >= 1 && IsDigits(d)
    ensures IsDigitRun(d)
  {
    forall i | 0 <= i < |d| ensures DigitOrJoiner(d, i) {
      assert IsDigit(d[i]);
    }
  }

  /** Text that starts with a sign and ends with a digit has no whitespace to strip. */
  lemma StripSignedDigits(s: string)
    requires |s| >= 2 && s[0] == '-' && IsDigit(s[|s| - 1])
    ensures Strip(s) == s
  {
  }

  /** A minus sign in front of a run of digits negates its value. */
  lemma ParseIntNegated(s: string, d: string)
    requires 1 <= |d| <= IntMaxStrDigits && IsDigits(d)
    requires |s| == |d| + 1 && s[0] == '-' && s[1..] == d
    ensures ParseInt(s) == Some(0 - DigitsValue(d))
  {
    assert s[|s| - 1] == d[|d| - 1];
    StripSignedDigits(s);
    DigitsAreDigitRun(d);
    assert ParseStripped(s) == Some(0 - DigitsValue(d));
  }

  /** A minus sign followed by the digits of a positive magnitude parses back to
      the negative number. */
  lemma ParseIntOfNegative(n: int, d: string)
    requires n < 0 && 1 <= |d| <= IntMaxStrDigits && IsDigits(d) && DigitsValue(d) == -n
    ensures ParseInt("-" + d) == Some(n)
  {
    var s := "-" + d;
    assert |s| == |d| + 1 && s[0] == '-' && s[1..] == d;
    ParseIntNegated(s, d);
  }

  /** Every integer `str()` can write (at most IntMaxStrDigits digits) is a valid int
      string and parses back to itself. */
  lemma ParseIntOfDecimal(n: int)
    requires |NatToDecimal(if n < 0 then -n else n)| <= IntMaxStrDigits
    ensures ParseInt(IntToDecimal(n)) == Some(n)
    ensures IsValidInt(IntToDecimal(n))
  {
    if n >= 0 {
      NatToDecimalValue(n);
    } else {
      NatToDecimalValue(-n);
      ParseIntOfNegative(n, NatToDecimal(-n));
    }
  }
}
