/**
 * RideForm.java: the picker callbacks of the form. onTimeSet turns a 24-hour
 * hourOfDay into a 12-hour hour and an AM/PM suffix and writes
 * "%02d:%02d %s"; onDateSet writes "%02d-%02d-%04d" of month + 1, day and
 * year. RideFormActivity writes the same two texts.
 */
module TimeFormat {
  import opened JavaStrings

  /** The hour onTimeSet shows: 13..23 lose 12, 0 becomes 12, anything else is
      kept. */
  function Hour12(hourOfDay: int): (hour: int)
    ensures 0 <= hourOfDay <= 23 ==> 1 <= hour <= 12
    ensures 1 <= hourOfDay <= 12 ==> hour == hourOfDay
  {
    if hourOfDay >= 12 then
      if hourOfDay > 12 then hourOfDay - 12 else hourOfDay
    else
      if hourOfDay == 0 then 12 else hourOfDay
  }

  /** The suffix: "PM" from noon on. */
  function AmPm(hourOfDay: int): (suffix: string)
    ensures suffix == "PM" <==> hourOfDay >= 12
    ensures suffix == "AM" <==> hourOfDay < 12
  {
    if hourOfDay >= 12 then "PM" else "AM"
  }

  /** Reading a 12-hour clock back as a 24-hour hour. */
  function To24(hour: int, suffix: string): int {
    if suffix == "AM" then (if hour == 12 then 0 else hour)
    else (if hour == 12 then 12 else hour + 12)
  }

  /** The 12-hour hour and suffix name the hour of day they came from: 0 is
      12 AM, 1..11 are AM, 12 is 12 PM and 13..23 are h - 12 PM. */
  lemma Hour12RoundTrip(hourOfDay: int)
    requires 0 <= hourOfDay <= 23
    ensures To24(Hour12(hourOfDay), AmPm(hourOfDay)) == hourOfDay
    ensures hourOfDay == 0 ==> Hour12(hourOfDay) == 12 && AmPm(hourOfDay) == "AM"
    ensures hourOfDay == 12 ==> Hour12(hourOfDay) == 12 && AmPm(hourOfDay) == "PM"
    ensures 13 <= hourOfDay ==> Hour12(hourOfDay) == hourOfDay - 12 && AmPm(hourOfDay) == "PM"
  {
  }

  /** String.format("%02d:%02d %s", hour, minute, suffix). */
  function TimeText(hour: nat, minute: nat, suffix: string): (text: string)
    ensures |text| == |ZeroPad(hour, 2)| + 1 + |ZeroPad(minute, 2)| + 1 + |suffix|
  {
    ZeroPad(hour, 2) + ":" + ZeroPad(minute, 2) + " " + suffix
  }

  /** The text onTimeSet writes into the time field. */
  function OnTimeSetText(hourOfDay: nat, minute: nat): (text: string)
    requires hourOfDay <= 23
  {
    TimeText(Hour12(hourOfDay), minute, AmPm(hourOfDay))
  }

  /** Where the fields of "a:b x" sit when a and b are two digits each. */
  lemma TimeLayout(a: string, b: string, suffix: string)
    requires |a| == 2 && |b| == 2 && AllDigits(a) && AllDigits(b)
    ensures var t := a + ":" + b + " " + suffix;
      && |t| == 6 + |suffix| && t[2] == ':' && t[5] == ' '
      && t[..2] == a && t[3..5] == b && t[6..] == suffix
      && ' ' !in t[..5]
  {
    var t := a + ":" + b + " " + suffix;
    assert t[..5] == a + ":" + b;
    assert t[..5] == [a[0], a[1], ':', b[0], b[1]];
    assert IsDigit(a[0]) && IsDigit(a[1]) && IsDigit(b[0]) && IsDigit(b[1]);
  }

  /** Two-digit fields give the text "hh:mm " followed by the suffix, and the
      fields read back as the hour and the minute. */
  lemma {:induction false} TimeTextFields(hour: nat, minute: nat, suffix: string)
    requires hour <= 99 && minute <= 99
    ensures var t := TimeText(hour, minute, suffix);
      && |t| == 6 + |suffix| && t[2] == ':' && t[5] == ' '
      && AllDigits(t[..2]) && ValueOf(t[..2]) == hour
      && AllDigits(t[3..5]) && ValueOf(t[3..5]) == minute
      && t[6..] == suffix
      && ' ' !in t[..5]
  {
    DigitsLength(hour);
    DigitsLength(minute);
    ZeroPadRoundTrip(hour, 2);
    ZeroPadRoundTrip(minute, 2);
    TimeLayout(ZeroPad(hour, 2), ZeroPad(minute, 2), suffix);
  }

  /** For any picker time the text has 8 chars "hh:mm AM" or "hh:mm PM", and
      its hour, minute and suffix read back as the 12-hour hour, the minute and
      the suffix. */
  lemma OnTimeSetTextShape(hourOfDay: nat, minute: nat)
    requires hourOfDay <= 23 && minute <= 59
    ensures var t := OnTimeSetText(hourOfDay, minute);
      && |t| == 8 && t[2] == ':' && t[5] == ' '
      && AllDigits(t[..2]) && ValueOf(t[..2]) == Hour12(hourOfDay)
      && AllDigits(t[3..5]) && ValueOf(t[3..5]) == minute
      && t[6..] == AmPm(hourOfDay)
      && ' ' !in t[..5]
  {
    TimeTextFields(Hour12(hourOfDay), minute, AmPm(hourOfDay));
  }

  /** String.format("%02d-%02d-%04d", month + 1, dayOfMonth, year). */
  function DateText(year: nat, month: nat, dayOfMonth: nat): (text: string)
    ensures |text| == |ZeroPad(month + 1, 2)| + 1 + |ZeroPad(dayOfMonth, 2)| + 1 + |ZeroPad(year, 4)|
  {
    ZeroPad(month + 1, 2) + "-" + ZeroPad(dayOfMonth, 2) + "-" + ZeroPad(year, 4)
  }

  /** Where the fields of "a-b-c" sit when a, b and c are digit strings of
      widths 2, 2 and 4. */
  lemma DateLayout(a: string, b: string, c: string)
    requires |a| == 2 && |b| == 2 && |c| == 4
    requires AllDigits(a) && AllDigits(b) && AllDigits(c)
    ensures var d := a + "-" + b + "-" + c;
      && |d| == 10 && d[2] == '-' && d[5] == '-'
      && d[..2] == a && d[3..5] == b && d[6..] == c
      && ' ' !in d
  {
    var d := a + "-" + b + "-" + c;
    assert d == [a[0], a[1], '-', b[0], b[1], '-', c[0], c[1], c[2], c[3]];
    assert IsDigit(a[0]) && IsDigit(a[1]) && IsDigit(b[0]) && IsDigit(b[1]);
    assert IsDigit(c[0]) && IsDigit(c[1]) && IsDigit(c[2]) && IsDigit(c[3]);
  }

  /** For month 0..11, day 1..31 and year 0..9999 the date is 10 chars
      "MM-dd-yyyy" with no blank, and its three fields read back as month + 1,
      the day and the year. */
  lemma {:induction false} DateTextShape(year: nat, month: nat, dayOfMonth: nat)
    requires month <= 11 && 1 <= dayOfMonth <= 31 && year <= 9999
    ensures var d := DateText(year, month, dayOfMonth);
      && |d| == 10 && d[2] == '-' && d[5] == '-'
      && AllDigits(d[..2]) && ValueOf(d[..2]) == month + 1
      && AllDigits(d[3..5]) && ValueOf(d[3..5]) == dayOfMonth
      && AllDigits(d[6..]) && ValueOf(d[6..]) == year
      && ' ' !in d
  {
    DigitsLength(month + 1);
    DigitsLength(dayOfMonth);
    DigitsLength(year);
    ZeroPadRoundTrip(month + 1, 2);
    ZeroPadRoundTrip(dayOfMonth, 2);
    ZeroPadRoundTrip(year, 4);
    DateLayout(ZeroPad(month + 1, 2), ZeroPad(dayOfMonth, 2), ZeroPad(year, 4));
  }

  /** A picked date and a picked time, joined as the form joins them and split
      as the edit screen splits them, come back unchanged. */
  lemma PickedDateTimeRoundTrip(year: nat, month: nat, dayOfMonth: nat, hourOfDay: nat, minute: nat)
    requires month <= 11 && 1 <= dayOfMonth <= 31 && year <= 9999
    requires hourOfDay <= 23 && minute <= 59
    ensures var date, time := DateText(year, month, dayOfMonth), OnTimeSetText(hourOfDay, minute);
      SplitOnce(date + " " + time) == [date, time]
  {
    DateTextShape(year, month, dayOfMonth);
    JoinThenSplit(DateText(year, month, dayOfMonth), OnTimeSetText(hourOfDay, minute));
  }
}
