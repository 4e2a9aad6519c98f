/**
 * The N1MM timestamp `YYYY-MM-DD HH:MM:SS` as `datetime.strptime` with the
 * format `%Y-%m-%d %H:%M:%S` reads it, restricted to the canonical
 * zero-padded 19-character form, and the `strftime('%Y%m%d')` and
 * `strftime('%H%M%S')` texts the ADIF record takes from it.
 */
module Timestamps {
  import opened Wrappers
  import opened Text

  datatype DateTime = DateTime(year: nat, month: nat, day: nat, hour: nat, minute: nat, second: nat)

  predicate IsLeapYear(y: nat)
  {
    y % 4 == 0 && (y % 100 != 0 || y % 400 == 0)
  }

  function DaysInMonth(y: nat, m: nat): nat
    requires 1 <= m <= 12
  {
    if m == 2 then (if IsLeapYear(y) then 29 else 28)
    else if m == 4 || m == 6 || m == 9 || m == 11 then 30
    else 31
  }

  /** The values `datetime` accepts: years 1 to 9999, real calendar days, seconds below 60. */
  predicate Valid(t: DateTime)
  {
    && 1 <= t.year <= 9999
    && 1 <= t.month <= 12
    && 1 <= t.day <= DaysInMonth(t.year, t.month)
    && t.hour < 24 && t.minute < 60 && t.second < 60
  }

  /** The canonical text of a timestamp, `YYYY-MM-DD HH:MM:SS`. */
  function Format(t: DateTime): (s: string)
    ensures |s| == 19
  {
    Padded(t.year, 4) + "-" + Padded(t.month, 2) + "-" + Padded(t.day, 2) + " "
    + Padded(t.hour, 2) + ":" + Padded(t.minute, 2) + ":" + Padded(t.second, 2)
  }

  /** Digits and separators where the canonical form has them. */
  predicate CanonicalShape(s: string)
  {
    && |s| == 19
    && AllDigits(s[0..4]) && s[4] == '-' && AllDigits(s[5..7]) && s[7] == '-'
    && AllDigits(s[8..10]) && s[10] == ' ' && AllDigits(s[11..13]) && s[13] == ':'
    && AllDigits(s[14..16]) && s[16] == ':' && AllDigits(s[17..19])
  }

  /**
   * `datetime.strptime(s, '%Y-%m-%d %H:%M:%S')` on canonical input: the
   * fields read from their places, or None (the source's ValueError) when
   * the text is not of that shape or the date or time does not exist.
   */
  function Parse(s: string): (r: Option<DateTime>)
  {
    if !CanonicalShape(s) then None
    else
      var t := DateTime(DecimalValue(s[0..4]), DecimalValue(s[5..7]), DecimalValue(s[8..10]),
                        DecimalValue(s[11..13]), DecimalValue(s[14..16]), DecimalValue(s[17..19]));
      if Valid(t) then Some(t) else None
  }

  /**
   * What the parser promises: the one valid date and time whose canonical
   * text is `s`, or None when there is none.
   */
  lemma ParseSpec(s: string)
    ensures Parse(s).Some? ==> Valid(Parse(s).value) && Format(Parse(s).value) == s
    ensures Parse(s).None? ==> forall t :: Valid(t) ==> Format(t) != s
  {
    if !CanonicalShape(s) {
      forall t | Valid(t) ensures Format(t) != s { FormatShape(t); }
    } else {
      FormatOfShape(s);
      forall t' | Valid(t') ensures Format(t') != s || Parse(s) == Some(t') {
        if Format(t') == s { ParseFormatFields(t'); }
      }
    }
  }

  lemma FormatShape(t: DateTime)
    ensures CanonicalShape(Format(t))
  {
    var s := Format(t);
    assert s[0..4] == Padded(t.year, 4);
    assert s[5..7] == Padded(t.month, 2);
    assert s[8..10] == Padded(t.day, 2);
    assert s[11..13] == Padded(t.hour, 2);
    assert s[14..16] == Padded(t.minute, 2);
    assert s[17..19] == Padded(t.second, 2);
  }

  /** Reading the fields of a canonical text and writing them back gives the text. */
  lemma FormatOfShape(s: string)
    requires CanonicalShape(s)
    ensures Format(DateTime(DecimalValue(s[0..4]), DecimalValue(s[5..7]), DecimalValue(s[8..10]),
                            DecimalValue(s[11..13]), DecimalValue(s[14..16]), DecimalValue(s[17..19]))) == s
  {
    PaddedOfValue(s[0..4]);
    PaddedOfValue(s[5..7]);
    PaddedOfValue(s[8..10]);
    PaddedOfValue(s[11..13]);
    PaddedOfValue(s[14..16]);
    PaddedOfValue(s[17..19]);
    assert s == s[0..4] + [s[4]] + s[5..7] + [s[7]] + s[8..10] + [s[10]]
              + s[11..13] + [s[13]] + s[14..16] + [s[16]] + s[17..19];
  }

  /** The fields read back from the text of a valid timestamp are its own. */
  lemma ParseFormatFields(t: DateTime)
    requires Valid(t)
    ensures var s := Format(t);
      t == DateTime(DecimalValue(s[0..4]), DecimalValue(s[5..7]), DecimalValue(s[8..10]),
                    DecimalValue(s[11..13]), DecimalValue(s[14..16]), DecimalValue(s[17..19]))
  {
    var s := Format(t);
    assert s[0..4] == Padded(t.year, 4);
    assert s[5..7] == Padded(t.month, 2);
    assert s[8..10] == Padded(t.day, 2);
    assert s[11..13] == Padded(t.hour, 2);
    assert s[14..16] == Padded(t.minute, 2);
    assert s[17..19] == Padded(t.second, 2);
    assert Pow10(2) == 100;
    assert Pow10(4) == 10000;
    PaddedValue(t.year, 4);
    PaddedValue(t.month, 2);
    PaddedValue(t.day, 2);
    PaddedValue(t.hour, 2);
    PaddedValue(t.minute, 2);
    PaddedValue(t.second, 2);
  }

  /** Writing a valid timestamp and parsing the text gives it back. */
  lemma {:induction false} ParseFormat(t: DateTime)
    requires Valid(t)
    ensures Parse(Format(t)) == Some(t)
  {
    FormatShape(t);
    ParseFormatFields(t);
  }

  /** `dt.strftime('%Y%m%d')`. */
  function DateText(t: DateTime): string
  {
    Padded(t.year, 4) + Padded(t.month, 2) + Padded(t.day, 2)
  }

  /** `dt.strftime('%H%M%S')`. */
  function TimeText(t: DateTime): string
  {
    Padded(t.hour, 2) + Padded(t.minute, 2) + Padded(t.second, 2)
  }

  /**
   * The ADIF date and time of a parsed timestamp are its digits with the
   * separators taken out: eight digits YYYYMMDD and six digits HHMMSS.
   */
  lemma DateTimeTexts(s: string, t: DateTime)
    requires Parse(s) == Some(t)
    ensures DateText(t) == s[0..4] + s[5..7] + s[8..10]
    ensures TimeText(t) == s[11..13] + s[14..16] + s[17..19]
    ensures |DateText(t)| == 8 && AllDigits(DateText(t))
    ensures |TimeText(t)| == 6 && AllDigits(TimeText(t))
  {
    ParseSpec(s);
    assert s == Format(t);
    assert s[0..4] == Padded(t.year, 4);
    assert s[5..7] == Padded(t.month, 2);
    assert s[8..10] == Padded(t.day, 2);
    assert s[11..13] == Padded(t.hour, 2);
    assert s[14..16] == Padded(t.minute, 2);
    assert s[17..19] == Padded(t.second, 2);
    var d, h := DateText(t), TimeText(t);
    assert forall i :: 0 <= i < 8 ==> IsDigit(d[i]) by {
      forall i | 0 <= i < 8 ensures IsDigit(d[i]) {
        if i < 4 { assert d[i] == Padded(t.year, 4)[i]; }
        else if i < 6 { assert d[i] == Padded(t.month, 2)[i - 4]; }
        else { assert d[i] == Padded(t.day, 2)[i - 6]; }
      }
    }
    assert forall i :: 0 <= i < 6 ==> IsDigit(h[i]) by {
      forall i | 0 <= i < 6 ensures IsDigit(h[i]) {
        if i < 2 { assert h[i] == Padded(t.hour, 2)[i]; }
        else if i < 4 { assert h[i] == Padded(t.minute, 2)[i - 2]; }
        else { assert h[i] == Padded(t.second, 2)[i - 4]; }
      }
    }
  }

  /** February 29 exists only in leap years: the day-of-month check `datetime` makes. */
  lemma LeapDay(y: nat)
    requires 1 <= y <= 9999
    ensures Valid(DateTime(y, 2, 29, 0, 0, 0)) <==> IsLeapYear(y)
  {
  }
}
