/** `formatDateTime` of tests/sample-test.js: a calendar date and time of day
    printed as `DD.MM.YYYY HH:MM:SS`, and a reader for that layout. */
module DateFormat {

  import opened Wrappers
  import opened Decimal

  /** The fields a JavaScript `Date` reports through its local-time getters.
      `month` is what `getMonth()` returns, counted from 0 for January;
      `date` is `getDate()`, the day of the month. */
  datatype DateTime = DateTime(
    year: int,
    month: nat,
    date: nat,
    hours: nat,
    minutes: nat,
    seconds: nat)

  /** Day, month, hours, minutes and seconds each zero-padded to two
      characters, the month printed as `getMonth() + 1`, the year unpadded. */
  function FormatDateTime(d: DateTime): string
  {
    Join(Pad2(d.date), Pad2(d.month + 1), IntToString(d.year),
         Pad2(d.hours), Pad2(d.minutes), Pad2(d.seconds))
  }

  /** The template `${day}.${month}.${year} ${hours}:${minutes}:${seconds}`. */
  function Join(dd: string, mm: string, yyyy: string, hh: string, mi: string, ss: string): string
  {
    dd + "." + mm + "." + yyyy + " " + hh + ":" + mi + ":" + ss
  }

  /** With fields of widths 2, 2, 4, 2, 2, 2 the template puts each field
      and each separator at a fixed position. */
  lemma JoinSlices(dd: string, mm: string, yyyy: string, hh: string, mi: string, ss: string)
    requires |dd| == 2 && |mm| == 2 && |yyyy| == 4 && |hh| == 2 && |mi| == 2 && |ss| == 2
    ensures var s := Join(dd, mm, yyyy, hh, mi, ss);
      && |s| == 19
      && s[0..2] == dd && s[3..5] == mm && s[6..10] == yyyy
      && s[11..13] == hh && s[14..16] == mi && s[17..19] == ss
      && s[2] == '.' && s[5] == '.' && s[10] == ' ' && s[13] == ':' && s[16] == ':'
  {
    var a := dd + ".";
    var b := a + mm + ".";
    var c := b + yyyy + " ";
    var e := c + hh + ":";
    var f := e + mi + ":";
    var s := f + ss;
    assert s == Join(dd, mm, yyyy, hh, mi, ss);
    assert s[0..2] == dd && s[3..5] == mm && s[6..10] == yyyy;
    assert s[11..13] == hh && s[14..16] == mi && s[17..19] == ss;
  }

  /** A 19-character string with the separators in place is the template
      applied to its own fields. */
  lemma JoinOfSlices(s: string)
    requires |s| == 19
    requires s[2] == '.' && s[5] == '.' && s[10] == ' ' && s[13] == ':' && s[16] == ':'
    ensures s == Join(s[0..2], s[3..5], s[6..10], s[11..13], s[14..16], s[17..19])
  {
    var t := Join(s[0..2], s[3..5], s[6..10], s[11..13], s[14..16], s[17..19]);
    JoinSlices(s[0..2], s[3..5], s[6..10], s[11..13], s[14..16], s[17..19]);
    forall i | 0 <= i < 19 ensures s[i] == t[i] {
      if i < 2 { assert t[i] == t[0..2][i]; }
      else if 2 < i < 5 { assert t[i] == t[3..5][i - 3]; }
      else if 5 < i < 10 { assert t[i] == t[6..10][i - 6]; }
      else if 10 < i < 13 { assert t[i] == t[11..13][i - 11]; }
      else if 13 < i < 16 { assert t[i] == t[14..16][i - 14]; }
      else if 16 < i { assert t[i] == t[17..19][i - 17]; }
    }
  }

  /** Every padded field fits in two characters and the year has four digits. */
  predicate Printable(d: DateTime)
  {
    && d.date < 100 && d.month + 1 < 100
    && d.hours < 100 && d.minutes < 100 && d.seconds < 100
    && 1000 <= d.year < 10000
  }

  predicate IsSeparatorPosition(i: int)
  {
    i == 2 || i == 5 || i == 10 || i == 13 || i == 16
  }

  /** The fixed layout `DD.MM.YYYY HH:MM:SS`: 19 characters, the separators
      at positions 2, 5, 10, 13 and 16, digits everywhere else. */
  predicate HasLayout(s: string)
  {
    && |s| == 19
    && s[2] == '.' && s[5] == '.' && s[10] == ' ' && s[13] == ':' && s[16] == ':'
    && forall i :: 0 <= i < 19 && !IsSeparatorPosition(i) ==> IsDigit(s[i])
  }

  /** Reads text of the layout back into its fields: a printed month of 00
      has no `getMonth()` value and a year with a leading zero is not what
      `String(year)` prints, so both are refused. */
  function ParseDateTime(s: string): (r: Option<DateTime>)
    ensures r.Some? ==> HasLayout(s)
  {
    if HasLayout(s) && s[6] != '0' then
      assert AllDigits(s[0..2]) && AllDigits(s[3..5]) && AllDigits(s[6..10]);
      assert AllDigits(s[11..13]) && AllDigits(s[14..16]) && AllDigits(s[17..19]);
      if DigitsValue(s[3..5]) == 0 then None
      else Some(Fields(s[0..2], s[3..5], s[6..10], s[11..13], s[14..16], s[17..19]))
    else None
  }

  /** The date and time the six digit fields of the layout denote. */
  function Fields(dd: string, mm: string, yyyy: string, hh: string, mi: string, ss: string): DateTime
    requires AllDigits(dd) && AllDigits(mm) && AllDigits(yyyy)
    requires AllDigits(hh) && AllDigits(mi) && AllDigits(ss)
    requires DigitsValue(mm) >= 1
  {
    DateTime(DigitsValue(yyyy), DigitsValue(mm) - 1, DigitsValue(dd),
      DigitsValue(hh), DigitsValue(mi), DigitsValue(ss))
  }

  /** The four-digit year prints as four digits. */
  lemma YearLength(y: int)
    requires 1000 <= y < 10000
    ensures IntToString(y) == NatToString(y) && |IntToString(y)| == 4
    ensures IntToString(y)[0] != '0'
  {
    assert Pow10(4) == 10000 && Pow10(3) == 1000;
    NatToStringLength(y, 4);
  }

  /** Digit fields of widths 2, 2, 4, 2, 2, 2 joined by the template give
      the fixed layout. */
  lemma JoinLayout(dd: string, mm: string, yyyy: string, hh: string, mi: string, ss: string)
    requires |dd| == 2 && |mm| == 2 && |yyyy| == 4 && |hh| == 2 && |mi| == 2 && |ss| == 2
    requires AllDigits(dd) && AllDigits(mm) && AllDigits(yyyy)
    requires AllDigits(hh) && AllDigits(mi) && AllDigits(ss)
    ensures HasLayout(Join(dd, mm, yyyy, hh, mi, ss))
  {
    var s := Join(dd, mm, yyyy, hh, mi, ss);
    JoinSlices(dd, mm, yyyy, hh, mi, ss);
    forall i | 0 <= i < 19 && !IsSeparatorPosition(i) ensures IsDigit(s[i]) {
      if i < 2 { assert s[i] == s[0..2][i]; }
      else if i < 5 { assert s[i] == s[3..5][i - 3]; }
      else if i < 10 { assert s[i] == s[6..10][i - 6]; }
      else if i < 13 { assert s[i] == s[11..13][i - 11]; }
      else if i < 16 { assert s[i] == s[14..16][i - 14]; }
      else { assert s[i] == s[17..19][i - 17]; }
    }
  }

  /** A field value below 100 pads to two digits that read back as it. */
  lemma Pad2Field(n: nat)
    requires n < 100
    ensures |Pad2(n)| == 2 && AllDigits(Pad2(n)) && DigitsValue(Pad2(n)) == n
  {
    Pad2Cases(n);
    ReadPad2(n);
  }

  /** With two-digit fields and a four-digit year the output has the fixed
      layout, and each field sits at its place. */
  lemma FormatLayout(d: DateTime)
    requires Printable(d)
    ensures HasLayout(FormatDateTime(d))
    ensures var s := FormatDateTime(d);
      && s[0..2] == Pad2(d.date) && s[3..5] == Pad2(d.month + 1)
      && s[6..10] == IntToString(d.year) && s[11..13] == Pad2(d.hours)
      && s[14..16] == Pad2(d.minutes) && s[17..19] == Pad2(d.seconds)
  {
    hide Pad2, NatToString, IntToString, DigitsValue, PadStart, Join, HasLayout;
    Pad2Field(d.date); Pad2Field(d.month + 1); Pad2Field(d.hours);
    Pad2Field(d.minutes); Pad2Field(d.seconds);
    YearLength(d.year);
    JoinSlices(Pad2(d.date), Pad2(d.month + 1), IntToString(d.year),
      Pad2(d.hours), Pad2(d.minutes), Pad2(d.seconds));
    JoinLayout(Pad2(d.date), Pad2(d.month + 1), IntToString(d.year),
      Pad2(d.hours), Pad2(d.minutes), Pad2(d.seconds));
  }

  /** The reader takes digit fields joined by the template back to the
      date and time they denote. */
  lemma ParseJoin(dd: string, mm: string, yyyy: string, hh: string, mi: string, ss: string)
    requires |dd| == 2 && |mm| == 2 && |yyyy| == 4 && |hh| == 2 && |mi| == 2 && |ss| == 2
    requires AllDigits(dd) && AllDigits(mm) && AllDigits(yyyy)
    requires AllDigits(hh) && AllDigits(mi) && AllDigits(ss)
    requires DigitsValue(mm) >= 1 && yyyy[0] != '0'
    ensures ParseDateTime(Join(dd, mm, yyyy, hh, mi, ss)) == Some(Fields(dd, mm, yyyy, hh, mi, ss))
  {
    hide DigitsValue, AllDigits, Fields;
    JoinSlices(dd, mm, yyyy, hh, mi, ss);
    JoinLayout(dd, mm, yyyy, hh, mi, ss);
    hide Join, HasLayout;
  }

  /** Reading what was printed gives the date and time back. */
  lemma ParseFormat(d: DateTime)
    requires Printable(d)
    ensures ParseDateTime(FormatDateTime(d)) == Some(d)
  {
    hide Pad2, NatToString, IntToString, DigitsValue, PadStart, Join, ParseDateTime;
    Pad2Field(d.date); Pad2Field(d.month + 1); Pad2Field(d.hours);
    Pad2Field(d.minutes); Pad2Field(d.seconds);
    YearLength(d.year);
    ReadNatToString(d.year);
    var dd, mm, yyyy := Pad2(d.date), Pad2(d.month + 1), IntToString(d.year);
    var hh, mi, ss := Pad2(d.hours), Pad2(d.minutes), Pad2(d.seconds);
    ParseJoin(dd, mm, yyyy, hh, mi, ss);
    assert Fields(dd, mm, yyyy, hh, mi, ss) == d;
  }

  /** The fields of the layout are small enough to print back in place. */
  lemma FieldsPrintable(dd: string, mm: string, yyyy: string, hh: string, mi: string, ss: string)
    requires |dd| == 2 && |mm| == 2 && |yyyy| == 4 && |hh| == 2 && |mi| == 2 && |ss| == 2
    requires AllDigits(dd) && AllDigits(mm) && AllDigits(yyyy)
    requires AllDigits(hh) && AllDigits(mi) && AllDigits(ss)
    requires DigitsValue(mm) >= 1 && yyyy[0] != '0'
    ensures Printable(Fields(dd, mm, yyyy, hh, mi, ss))
  {
    assert Pow10(2) == 100 && Pow10(3) == 1000 && Pow10(4) == 10000;
    DigitsValueUpperBound(dd); DigitsValueUpperBound(mm); DigitsValueUpperBound(yyyy);
    DigitsValueUpperBound(hh); DigitsValueUpperBound(mi); DigitsValueUpperBound(ss);
    DigitsValueLowerBound(yyyy);
  }

  /** Printing the fields that canonical digit strings denote gives those
      digit strings back, in the template. */
  lemma FormatFields(dd: string, mm: string, yyyy: string, hh: string, mi: string, ss: string)
    requires |dd| == 2 && |mm| == 2 && |yyyy| == 4 && |hh| == 2 && |mi| == 2 && |ss| == 2
    requires AllDigits(dd) && AllDigits(mm) && AllDigits(yyyy)
    requires AllDigits(hh) && AllDigits(mi) && AllDigits(ss)
    requires DigitsValue(mm) >= 1 && yyyy[0] != '0'
    ensures FormatDateTime(Fields(dd, mm, yyyy, hh, mi, ss)) == Join(dd, mm, yyyy, hh, mi, ss)
  {
    hide Pad2, NatToString, DigitsValue, PadStart, Join;
    var d := Fields(dd, mm, yyyy, hh, mi, ss);
    assert d.month + 1 == DigitsValue(mm);
    Pad2OfDigitsValue(dd); Pad2OfDigitsValue(mm);
    Pad2OfDigitsValue(hh); Pad2OfDigitsValue(mi); Pad2OfDigitsValue(ss);
    NatToStringOfDigitsValue(yyyy);
    assert Pad2(d.date) == dd && Pad2(d.month + 1) == mm && IntToString(d.year) == yyyy;
    assert Pad2(d.hours) == hh && Pad2(d.minutes) == mi && Pad2(d.seconds) == ss;
  }

  /** Conversely, every string the reader accepts is the printed form of the
      fields it reads, and those fields are printable. */
  lemma FormatParse(s: string)
    requires ParseDateTime(s).Some?
    ensures Printable(ParseDateTime(s).value)
    ensures FormatDateTime(ParseDateTime(s).value) == s
  {
    assert AllDigits(s[0..2]) && AllDigits(s[3..5]) && AllDigits(s[6..10]);
    assert AllDigits(s[11..13]) && AllDigits(s[14..16]) && AllDigits(s[17..19]);
    FieldsPrintable(s[0..2], s[3..5], s[6..10], s[11..13], s[14..16], s[17..19]);
    FormatFields(s[0..2], s[3..5], s[6..10], s[11..13], s[14..16], s[17..19]);
    JoinOfSlices(s);
  }

  /** Printing is injective on printable dates: distinct dates never share a
      formatted string. */
  lemma FormatInjective(d1: DateTime, d2: DateTime)
    requires Printable(d1) && Printable(d2)
    requires FormatDateTime(d1) == FormatDateTime(d2)
    ensures d1 == d2
  {
    ParseFormat(d1);
    ParseFormat(d2);
  }
}
