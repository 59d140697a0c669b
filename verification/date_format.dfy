/** The three date serialisers of the site (`formatDate`,
    `formatDateReadable`, `formatDateTime`). A JavaScript `Date` enters the
    model already decomposed into the values its local-time getters return;
    parsing of date strings and time zones stay outside. */
module DateFormat {
  import opened Wrappers
  import opened Text

  /** `getMonth()`: zero-based month. */
  type Month0 = m: int | 0 <= m < 12
  /** `getDate()`: day of the month. */
  type Day = d: int | 1 <= d <= 31 witness 1
  /** `getHours()`. */
  type Hour = h: int | 0 <= h < 24
  /** `getMinutes()`. */
  type Minute = m: int | 0 <= m < 60

  /** A date as the formatters see it: either a date whose time value is NaN
      (`isNaN(d.getTime())`), or the results of its local-time getters. */
  datatype LocalDate =
    | InvalidDate
    | LocalDate(year: int, month0: Month0, day: Day, hours: Hour, minutes: Minute)

  const InvalidText: string := "Invalid Date"

  /** The month-name table of `formatDateReadable`, indexed by `getMonth()`. */
  const MonthNames: seq<string> := [
    "January", "February", "March", "April", "May", "June",
    "July", "August", "September", "October", "November", "December"
  ]

  /** Characters `formatDate` can produce for a valid date. */
  predicate DateChar(c: char) {
    IsDigit(c) || c == '-'
  }

  /** `String(year)` consists of date characters and starts with a digit or
      a minus sign. */
  lemma YearChars(year: int)
    ensures var y := IntToString(year);
            && |y| >= 1 && (IsDigit(y[0]) || y[0] == '-') && (forall k :: 0 <= k < |y| ==> DateChar(y[k]))
            && (1000 <= year <= 9999 ==> |y| == 4)
  {
    var y := IntToString(year);
    if 1000 <= year <= 9999 {
      NatToStringLength(year);
    }
    if year < 0 {
      forall k | 1 <= k < |y| ensures DateChar(y[k]) {
        assert y[k] == y[1..][k - 1];
      }
    }
  }

  /** `<y>-<mm>-<dd>` for a year numeral and two two-digit fields: only
      date characters, dashes three and six places from the end. */
  function Dashed(y: string, mm: string, dd: string): (r: string)
    requires |y| >= 1 && (IsDigit(y[0]) || y[0] == '-') && forall k :: 0 <= k < |y| ==> DateChar(y[k])
    requires |mm| == 2 && |dd| == 2 && AllDigits(mm) && AllDigits(dd)
    ensures forall k :: 0 <= k < |r| ==> DateChar(r[k])
    ensures |r| == |y| + 6 && r[|r| - 6] == '-' && r[|r| - 3] == '-'
    ensures r[0] == y[0] && r != InvalidText
  {
    var r := y + "-" + mm + "-" + dd;
    assert InvalidText[0] == 'I';
    forall k | 0 <= k < |r| ensures DateChar(r[k]) {
      if k < |y| { assert r[k] == y[k]; }
      else if k == |y| || k == |y| + 3 { }
      else if k < |y| + 3 { assert r[k] == mm[k - |y| - 1]; }
      else { assert r[k] == dd[k - |y| - 4]; }
    }
    r
  }

  /** `formatDate`: `<year>-<MM>-<DD>`, the month one-based; both padded to two digits. */
  function FormatDate(d: LocalDate): (r: string)
    ensures r == InvalidText <==> d.InvalidDate?
    ensures d.LocalDate? ==> forall k :: 0 <= k < |r| ==> DateChar(r[k])
    ensures d.LocalDate? ==> |r| >= 7 && r[|r| - 6] == '-' && r[|r| - 3] == '-'
    ensures d.LocalDate? && 1000 <= d.year <= 9999 ==> |r| == 10 && r[4] == '-' && r[7] == '-'
  {
    match d
    case InvalidDate => InvalidText
    case LocalDate(year, month0, day, _, _) => DateText(year, month0, day)
  }

  /** The text `formatDate` gives a valid date. */
  function DateText(year: int, month0: Month0, day: Day): (r: string)
    ensures r != InvalidText
    ensures forall k :: 0 <= k < |r| ==> DateChar(r[k])
    ensures |r| >= 7 && r[|r| - 6] == '-' && r[|r| - 3] == '-'
    ensures 1000 <= year <= 9999 ==> |r| == 10 && r[4] == '-' && r[7] == '-'
  {
    var y := IntToString(year);
    YearChars(year);
    var mm, dd := TwoDigits(month0 + 1), TwoDigits(day);
    Dashed(y, mm, dd)
  }

  /** `formatDateReadable`: `<month name> <day>, <year>`, the day unpadded. */
  function FormatDateReadable(d: LocalDate): (r: string)
    ensures r == InvalidText <==> d.InvalidDate?
    ensures d.LocalDate? ==> StartsWith(r, MonthNames[d.month0] + " ")
    ensures d.LocalDate? && d.day < 10 ==>
              |r| > |MonthNames[d.month0]| + 2 && IsDigit(r[|MonthNames[d.month0]| + 1])
              && r[|MonthNames[d.month0]| + 2] == ','
  {
    match d
    case InvalidDate => InvalidText
    case LocalDate(year, month0, day, _, _) =>
      var name := MonthNames[month0];
      var r := name + " " + NatToString(day) + ", " + IntToString(year);
      NatToStringLength(day);
      assert r[..|name| + 1] == name + " ";
      assert r[|name| + 1] == NatToString(day)[0];
      r
  }

  /** `HH:MM`, both padded to two digits. */
  function Clock(hours: Hour, minutes: Minute): (r: string)
    ensures |r| == 5 && r[2] == ':'
  {
    Colon(TwoDigits(hours), TwoDigits(minutes))
  }

  /** Two two-character fields around a colon. */
  function Colon(hh: string, mm: string): (r: string)
    requires |hh| == 2 && |mm| == 2
    ensures |r| == 5 && r[..2] == hh && r[2] == ':' && r[3..] == mm
  {
    hh + [':'] + mm
  }

  /** `formatDateTime`: `formatDate` of the same date, a space, then `HH:MM`. */
  function FormatDateTime(d: LocalDate): (r: string)
    ensures r == InvalidText <==> d.InvalidDate?
    ensures d.LocalDate? ==> StartsWith(r, FormatDate(d) + " ")
    ensures d.LocalDate? ==> |r| == |FormatDate(d)| + 6 && r[|r| - 3] == ':'
    ensures d.LocalDate? && 1000 <= d.year <= 9999 ==> |r| == 16
  {
    match d
    case InvalidDate => InvalidText
    case LocalDate(_, _, _, hours, minutes) =>
      var date, clock := FormatDate(d), Clock(hours, minutes);
      var r := date + " " + clock;
      assert r[..|date| + 1] == date + " ";
      assert r[|r| - 3] == clock[2];
      r
  }

  /* ---------------------------------------------------------------------- */
  /* Readers: independent inverses of the formatters                        */
  /* ---------------------------------------------------------------------- */

  /** Year, one-based month and day read back from a `formatDate` string by
      splitting at `-`; a leading `-` marks a negative year. */
  datatype DateFields = DateFields(year: int, month: int, day: int)

  function ReadDate(s: string): Option<DateFields> {
    ReadDateParts(Split(s, '-'))
  }

  /** The groups of a date string, read as numbers; four groups with an
      empty first one are a negative year. */
  function ReadDateParts(parts: seq<string>): Option<DateFields> {
    if |parts| == 3 then
      match (ParseNat(parts[0]), ParseNat(parts[1]), ParseNat(parts[2]))
      case (Some(y), Some(m), Some(d)) => Some(DateFields(y, m, d))
      case _ => None
    else if |parts| == 4 && parts[0] == "" then
      match (ParseNat(parts[1]), ParseNat(parts[2]), ParseNat(parts[3]))
      case (Some(y), Some(m), Some(d)) => Some(DateFields(0 - y as int, m, d))
      case _ => None
    else None
  }

  lemma ReadNegParts(n: string, mm: string, dd: string)
    requires |n| > 0 && |mm| > 0 && |dd| > 0 && AllDigits(n) && AllDigits(mm) && AllDigits(dd)
    ensures ReadDateParts(["", n, mm, dd]) == Some(DateFields(0 - ParseDigits(n), ParseDigits(mm), ParseDigits(dd)))
  {
    var parts := ["", n, mm, dd];
    assert parts[1] == n && parts[2] == mm && parts[3] == dd;
  }

  lemma DigitsHaveNoDash(s: string)
    requires AllDigits(s)
    ensures '-' !in s && ' ' !in s && ':' !in s && ',' !in s
  {
    DigitsExclude(s, '-');
    DigitsExclude(s, ' ');
    DigitsExclude(s, ':');
    DigitsExclude(s, ',');
  }

  /** The pieces `formatDate` puts between the dashes of a valid date. */
  lemma FormatDateShape(d: LocalDate)
    requires d.LocalDate?
    ensures FormatDate(d) ==
            IntToString(d.year) + "-" + TwoDigits(d.month0 + 1) + "-" + TwoDigits(d.day)
  {
    YearChars(d.year);
    assert FormatDate(d) == DateText(d.year, d.month0, d.day);
  }

  /** Reading `<n>-<mm>-<dd>` back for three digit groups. */
  lemma ReadDashedNat(n: string, mm: string, dd: string)
    requires |n| > 0 && |mm| > 0 && |dd| > 0 && AllDigits(n) && AllDigits(mm) && AllDigits(dd)
    ensures ReadDate(n + "-" + mm + "-" + dd) == Some(DateFields(ParseDigits(n), ParseDigits(mm), ParseDigits(dd)))
  {
    DigitsHaveNoDash(n);
    DigitsHaveNoDash(mm);
    DigitsHaveNoDash(dd);
    SplitThree(n, mm, dd, '-');
  }

  /** Reading `-<rest>` back, where `rest` is `<n>-<mm>-<dd>`: the empty
      first group marks a negative year. */
  lemma ReadDashedNeg(n: string, mm: string, dd: string)
    requires |n| > 0 && |mm| > 0 && |dd| > 0 && AllDigits(n) && AllDigits(mm) && AllDigits(dd)
    ensures ReadDate(['-'] + (n + "-" + mm + "-" + dd)) == Some(DateFields(0 - ParseDigits(n), ParseDigits(mm), ParseDigits(dd)))
  {
    DigitsHaveNoDash(n);
    DigitsHaveNoDash(mm);
    DigitsHaveNoDash(dd);
    var rest := n + "-" + mm + "-" + dd;
    SplitThree(n, mm, dd, '-');
    SplitLeadingSep(rest, '-');
    var parts := Split(['-'] + rest, '-');
    assert parts == ["", n, mm, dd];
    ReadNegParts(n, mm, dd);
  }

  /** Reading `<y>-<mm>-<dd>` back for any year and two digit groups. */
  lemma ReadDashed(y: int, mm: string, dd: string)
    requires |mm| > 0 && |dd| > 0 && AllDigits(mm) && AllDigits(dd)
    ensures ReadDate(IntToString(y) + "-" + mm + "-" + dd) == Some(DateFields(y, ParseDigits(mm), ParseDigits(dd)))
  {
    if y < 0 {
      var m: nat := -y;
      var n := NatToString(m);
      ParseNatToString(m);
      var sign, dash := ['-'], "-";
      assert IntToString(y) == sign + n;
      ConcatAssoc(sign, n, dash);
      ConcatAssoc(sign, n + dash, mm);
      ConcatAssoc(sign, n + dash + mm, dash);
      ConcatAssoc(sign, n + dash + mm + dash, dd);
      ReadDashedNeg(n, mm, dd);
    } else {
      var n := NatToString(y);
      ParseNatToString(y);
      ReadDashedNat(n, mm, dd);
    }
  }

  /** Reading the `-`-separated digit groups of `formatDate` back gives the
      year, the one-based month and the day. */
  lemma FormatDateRoundTrip(d: LocalDate)
    requires d.LocalDate?
    ensures ReadDate(FormatDate(d)) == Some(DateFields(d.year, d.month0 + 1, d.day))
  {
    var mm, dd := TwoDigits(d.month0 + 1), TwoDigits(d.day);
    FormatDateShape(d);
    ReadDashed(d.year, mm, dd);
  }

  /** Position of `name` in the month table, if it is one of the twelve names. */
  function MonthIndex(name: string): (r: Option<Month0>)
    ensures r.Some? ==> MonthNames[r.value] == name
    ensures r.None? ==> name !in MonthNames
  {
    MonthIndexFrom(name, 0)
  }

  function MonthIndexFrom(name: string, from: nat): (r: Option<Month0>)
    requires from <= 12
    ensures r.Some? ==> from <= r.value && MonthNames[r.value] == name
    ensures r.Some? ==> forall j :: from <= j < r.value ==> MonthNames[j] != name
    ensures r.None? ==> forall j :: from <= j < 12 ==> MonthNames[j] != name
    decreases 12 - from
  {
    if from == 12 then None
    else if MonthNames[from] == name then Some(from)
    else MonthIndexFrom(name, from + 1)
  }

  /** No two months share a name. */
  lemma MonthNamesDistinct()
    ensures forall i, j :: 0 <= i < j < 12 ==> MonthNames[i] != MonthNames[j]
  {
    forall i, j | 0 <= i < j < 12
      ensures MonthNames[i] != MonthNames[j]
    {
      var a, b := MonthNames[i], MonthNames[j];
      assert |a| != |b| || a[0] != b[0] || a[2] != b[2];
    }
  }

  /** No month name contains a space or a comma. */
  lemma MonthNamesPlain(m: Month0)
    ensures ' ' !in MonthNames[m] && ',' !in MonthNames[m]
  {
  }

  /** The table index, day and year read back from a `formatDateReadable`
      string by splitting at spaces and dropping the comma after the day. */
  datatype ReadableFields = ReadableFields(month0: Month0, day: int, year: int)

  function ReadReadable(s: string): Option<ReadableFields> {
    var parts := Split(s, ' ');
    if |parts| == 3 && |parts[1]| > 1 && parts[1][|parts[1]| - 1] == ',' then
      match (MonthIndex(parts[0]), ParseNat(parts[1][..|parts[1]| - 1]), ParseInt(parts[2]))
      case (Some(m), Some(d), Some(y)) => Some(ReadableFields(m, d, y))
      case _ => None
    else None
  }

  /** `formatDateReadable` loses nothing: the month index, the day and the
      year can be read back. */
  lemma FormatDateReadableRoundTrip(d: LocalDate)
    requires d.LocalDate?
    ensures ReadReadable(FormatDateReadable(d)) == Some(ReadableFields(d.month0, d.day, d.year))
  {
    var day := NatToString(d.day);
    ReadableSplits(d);
    MonthNamesDistinct();
    ParseNatToString(d.day);
    assert (day + ",")[..|day + ","| - 1] == day;
    ParseIntToString(d.year);
  }

  /** The three words of `formatDateReadable`: the month name, the day with
      its comma, and the year. */
  lemma ReadableSplits(d: LocalDate)
    requires d.LocalDate?
    ensures Split(FormatDateReadable(d), ' ') ==
              [MonthNames[d.month0], NatToString(d.day) + ",", IntToString(d.year)]
  {
    var name := MonthNames[d.month0];
    var day := NatToString(d.day);
    var year := IntToString(d.year);
    MonthNamesPlain(d.month0);
    DigitsHaveNoDash(day);
    if d.year < 0 {
      DigitsHaveNoDash(year[1..]);
      assert year == [year[0]] + year[1..];
    } else {
      DigitsHaveNoDash(year);
    }
    assert ' ' !in year;
    assert FormatDateReadable(d) == name + [' '] + (day + ",") + [' '] + year;
    SplitThree(name, day + ",", year, ' ');
  }

  /** The fields read back from a `formatDateTime` string: the date part by
      `ReadDate`, then hours and minutes split at `:`. */
  datatype DateTimeFields = DateTimeFields(date: DateFields, hours: int, minutes: int)

  function ReadDateTime(s: string): Option<DateTimeFields> {
    var parts := Split(s, ' ');
    if |parts| == 2 then
      var time := Split(parts[1], ':');
      if |time| == 2 then
        match (ReadDate(parts[0]), ParseNat(time[0]), ParseNat(time[1]))
        case (Some(date), Some(h), Some(m)) => Some(DateTimeFields(date, h, m))
        case _ => None
      else None
    else None
  }

  /** A valid `formatDate` string holds no space. */
  lemma FormatDateHasNoSpace(d: LocalDate)
    requires d.LocalDate?
    ensures ' ' !in FormatDate(d)
  {
    var date := FormatDate(d);
    forall k | 0 <= k < |date| ensures date[k] != ' ' {
      assert DateChar(date[k]);
    }
  }

  /** Reading a `formatDateTime` string back gives the date fields of
      `formatDate` and the hours and minutes. */
  lemma FormatDateTimeRoundTrip(d: LocalDate)
    requires d.LocalDate?
    ensures ReadDateTime(FormatDateTime(d)) ==
            Some(DateTimeFields(DateFields(d.year, d.month0 + 1, d.day), d.hours, d.minutes))
  {
    var date := FormatDate(d);
    var hh, mm := TwoDigits(d.hours), TwoDigits(d.minutes);
    var time := Clock(d.hours, d.minutes);
    assert FormatDateTime(d) == date + [' '] + time;
    FormatDateHasNoSpace(d);
    DigitsHaveNoDash(hh);
    DigitsHaveNoDash(mm);
    assert ' ' !in time;
    SplitTwo(date, time, ' ');
    SplitTwo(hh, mm, ':');
    var parts := Split(FormatDateTime(d), ' ');
    assert parts == [date, time];
    assert Split(parts[1], ':') == [hh, mm];
    FormatDateRoundTrip(d);
  }
}
