/**
 * The day-off modal: the masked text inputs for dates (DD/MM/YYYY) and times
 * (HH:MM), the reshaping of a displayed date into the YYYY-MM-DD form used to
 * build a local date-time literal, and the submit handler that builds the
 * payload handed to `onSave`.
 */
module DayOffModal {
  import opened Wrappers
  import opened Instants
  import opened DayOffTypes
  import opened JsStrings

  // ---------------------------------------------------------------------------
  // Input masks
  // ---------------------------------------------------------------------------

  /** `if (val.length > n) val = val.slice(0, n)`: the first n characters at most. */
  function Keep(v: string, n: nat): (r: string)
    ensures |r| == if |v| > n then n else |v|
    ensures r == v[..|r|]
  {
    if |v| > n then v[..n] else v
  }

  /** The date field's onChange mask: digits only, at most 8, `/` after the 2nd and 4th. */
  function DateMask(typed: string): (r: string)
    ensures |r| <= 10
  {
    var v := Keep(Digits(typed), 8);
    if |v| >= 5 then v[..2] + "/" + v[2..4] + "/" + v[4..]
    else if |v| >= 3 then v[..2] + "/" + v[2..]
    else v
  }

  /** The time field's onChange mask: digits only, at most 4, `:` after the 2nd. */
  function TimeMask(typed: string): (r: string)
    ensures |r| <= 5
  {
    var v := Keep(Digits(typed), 4);
    if |v| >= 3 then v[..2] + ":" + v[2..] else v
  }

  /** Number of separators the date mask inserts among k digits. */
  function DateSeparators(k: nat): nat {
    if k >= 5 then 2 else if k >= 3 then 1 else 0
  }

  lemma DigitsSkip(a: string, c: char, b: string)
    requires !IsDigit(c)
    ensures Digits(a + [c] + b) == Digits(a) + Digits(b)
  {
    DigitsConcat(a + [c], b);
    DigitsConcat(a, [c]);
    DigitsOfSeparator(c);
  }

  /** The digits of two digit groups joined by a separator. */
  lemma DigitsOfTwoGroups(a: string, c: char, b: string)
    requires AllDigits(a) && AllDigits(b) && !IsDigit(c)
    ensures Digits(a + [c] + b) == a + b
  {
    DigitsSkip(a, c, b);
    DigitsOfDigits(a);
    DigitsOfDigits(b);
  }

  /** The digits of three digit groups joined by a separator. */
  lemma DigitsOfThreeGroups(a: string, c: char, b: string, d: string)
    requires AllDigits(a) && AllDigits(b) && AllDigits(d) && !IsDigit(c)
    ensures Digits(a + [c] + b + [c] + d) == a + b + d
  {
    DigitsSkip(a + [c] + b, c, d);
    DigitsOfTwoGroups(a, c, b);
    DigitsOfDigits(d);
  }

  /**
   * The date mask keeps only digits and `/`, and the digits it keeps are the
   * first eight digits of what was typed, in order; everything else is dropped.
   */
  lemma DateMaskDigits(typed: string)
    ensures var r := DateMask(typed);
      && (forall i :: 0 <= i < |r| ==> IsDigit(r[i]) || r[i] == '/')
      && Digits(r) == Keep(Digits(typed), 8)
  {
    var v := Keep(Digits(typed), 8);
    if |v| >= 5 {
      DigitsOfThreeGroups(v[..2], '/', v[2..4], v[4..]);
      assert v[..2] + v[2..4] + v[4..] == v;
    } else if |v| >= 3 {
      DigitsOfTwoGroups(v[..2], '/', v[2..]);
      assert v[..2] + v[2..] == v;
    } else {
      DigitsOfDigits(v);
    }
  }

  /**
   * Layout of the date mask for k kept digits: no separator up to 2 digits,
   * one `/` at index 2 for 3 or 4 digits, `/` at indices 2 and 5 from 5 digits.
   */
  lemma DateMaskLayout(typed: string)
    ensures var k := |Keep(Digits(typed), 8)|;
      var r := DateMask(typed);
      && |r| == k + DateSeparators(k)
      && (forall i :: 0 <= i < |r| ==> (r[i] == '/' <==> (i == 2 && k >= 3) || (i == 5 && k >= 5)))
  {
    var v := Keep(Digits(typed), 8);
    assert forall i :: 0 <= i < |v| ==> v[i] != '/';
  }

  /** Re-masking a masked date changes nothing. */
  lemma DateMaskIdempotent(typed: string)
    ensures DateMask(DateMask(typed)) == DateMask(typed)
  {
    DateMaskDigits(typed);
  }

  /**
   * Typing one more digit after a masked date: the kept digits grow by that
   * digit while fewer than eight were kept, and a ninth digit is rejected.
   */
  lemma DateMaskTyping(typed: string, c: char)
    requires IsDigit(c)
    ensures var v := Keep(Digits(typed), 8);
      && (|v| < 8 ==> Digits(DateMask(DateMask(typed) + [c])) == v + [c])
      && (|v| == 8 ==> DateMask(DateMask(typed) + [c]) == DateMask(typed))
  {
    var v := Keep(Digits(typed), 8);
    DateMaskDigits(typed);
    DigitsConcat(DateMask(typed), [c]);
    assert [c][1..] == [];
    var w := Digits(DateMask(typed) + [c]);
    assert w == v + [c];
    DateMaskDigits(DateMask(typed) + [c]);
    if |v| == 8 {
      assert Keep(w, 8) == v;
    }
  }

  /**
   * Typing 15032024 one digit at a time renders 15, 15/0, 15/03, 15/03/2,
   * 15/03/20, 15/03/202, 15/03/2024, and a ninth digit changes nothing.
   */
  lemma DateMaskTypingScenario()
    ensures DateMask("1") == "1" && DateMask("1" + "5") == "15"
    ensures DateMask("15" + "0") == "15/0" && DateMask("15/0" + "3") == "15/03"
    ensures DateMask("15/03" + "2") == "15/03/2" && DateMask("15/03/2" + "0") == "15/03/20"
    ensures DateMask("15/03/20" + "2") == "15/03/202" && DateMask("15/03/202" + "4") == "15/03/2024"
    ensures DateMask("15/03/2024" + "9") == "15/03/2024"
  {
    TypingDayAndMonth();
    TypingYear();
  }

  lemma TypingDayAndMonth()
    ensures DateMask("1") == "1" && DateMask("1" + "5") == "15"
    ensures DateMask("15" + "0") == "15/0" && DateMask("15/0" + "3") == "15/03"
  {
    assert DateMask("1") == "1" by { DigitsOfDigits("1"); }
    assert DateMask("1" + "5") == "15" by { DigitsOfDigits("15"); }
    assert DateMask("15" + "0") == "15/0" by {
      DigitsOfDigits("150");
      assert "15" + "0" == "150";
      assert "150"[..2] + "/" + "150"[2..] == "15/0";
    }
    assert DateMask("15/0" + "3") == "15/03" by {
      assert "15/0" + "3" == "15" + "/" + "03";
      DayMonthIsMasked("15", "03");
    }
  }

  lemma TypingYear()
    ensures DateMask("15/03" + "2") == "15/03/2" && DateMask("15/03/2" + "0") == "15/03/20"
    ensures DateMask("15/03/20" + "2") == "15/03/202" && DateMask("15/03/202" + "4") == "15/03/2024"
    ensures DateMask("15/03/2024" + "9") == "15/03/2024"
  {
    TypingFifthDigit();
    TypingYearDigit("2", '0');
    assert "15/03/2" + "0" == "15/03/" + "2" + ['0'];
    TypingYearDigit("20", '2');
    assert "15/03/20" + "2" == "15/03/" + "20" + ['2'];
    TypingYearDigit("202", '4');
    assert "15/03/202" + "4" == "15/03/" + "202" + ['4'];
    TypingNinthDigit();
  }

  lemma TypingFifthDigit()
    ensures DateMask("15/03" + "2") == "15/03/2"
  {
    assert "15/03" + "2" == "15" + "/" + "032";
    DigitsSkip("15", '/', "032");
    DigitsOfDigits("15");
    DigitsOfDigits("032");
    var v := "15" + "032";
    assert v[..2] + "/" + v[2..4] + "/" + v[4..] == "15/03/2";
  }

  lemma TypingYearDigit(yy: string, c: char)
    requires 1 <= |yy| <= 3 && AllDigits(yy) && IsDigit(c)
    ensures DateMask("15/03/" + yy + [c]) == "15/03/" + yy + [c]
  {
    assert "15/03/" + yy + [c] == "15" + "/" + "03" + "/" + (yy + [c]);
    FullDateIsMasked("15", "03", yy + [c]);
  }

  lemma TypingNinthDigit()
    ensures DateMask("15/03/2024" + "9") == "15/03/2024"
  {
    assert "15/03/2024" == "15" + "/" + "03" + "/" + "2024";
    FullDateIsMasked("15", "03", "2024");
    DateMaskTyping("15/03/2024", '9');
  }

  /** DD/M or DD/MM as typed is already masked. */
  lemma DayMonthIsMasked(dd: string, mm: string)
    requires |dd| == 2 && 1 <= |mm| <= 2 && AllDigits(dd) && AllDigits(mm)
    ensures DateMask(dd + "/" + mm) == dd + "/" + mm
  {
    DigitsOfTwoGroups(dd, '/', mm);
    var v := dd + mm;
    assert v[..2] == dd && v[2..] == mm;
  }

  /** DD/MM/Y up to DD/MM/YYYY as typed is already masked. */
  lemma FullDateIsMasked(dd: string, mm: string, yy: string)
    requires |dd| == 2 && |mm| == 2 && 1 <= |yy| <= 4 && AllDigits(dd) && AllDigits(mm) && AllDigits(yy)
    ensures Digits(dd + "/" + mm + "/" + yy) == dd + mm + yy
    ensures DateMask(dd + "/" + mm + "/" + yy) == dd + "/" + mm + "/" + yy
  {
    DigitsOfThreeGroups(dd, '/', mm, yy);
    var v := dd + mm + yy;
    assert v[..2] == dd && v[2..4] == mm && v[4..] == yy;
  }

  /** The time mask keeps only digits and `:`, and the digits it keeps are the first four typed. */
  lemma TimeMaskDigits(typed: string)
    ensures var r := TimeMask(typed);
      && (forall i :: 0 <= i < |r| ==> IsDigit(r[i]) || r[i] == ':')
      && Digits(r) == Keep(Digits(typed), 4)
  {
    var v := Keep(Digits(typed), 4);
    if |v| >= 3 {
      DigitsOfTwoGroups(v[..2], ':', v[2..]);
      assert v[..2] + v[2..] == v;
    } else {
      DigitsOfDigits(v);
    }
  }

  /** Layout of the time mask: a single `:` at index 2 exactly when at least 3 digits are kept. */
  lemma TimeMaskLayout(typed: string)
    ensures var k := |Keep(Digits(typed), 4)|;
      var r := TimeMask(typed);
      && |r| == k + (if k >= 3 then 1 else 0)
      && (forall i :: 0 <= i < |r| ==> (r[i] == ':' <==> i == 2 && k >= 3))
  {
    var v := Keep(Digits(typed), 4);
    assert forall i :: 0 <= i < |v| ==> v[i] != ':';
  }

  /** Re-masking a masked time changes nothing. */
  lemma TimeMaskIdempotent(typed: string)
    ensures TimeMask(TimeMask(typed)) == TimeMask(typed)
  {
    TimeMaskDigits(typed);
  }

  /** The default hours of the form are already masked. */
  lemma DefaultHoursAreMasked()
    ensures TimeMask("08:00") == "08:00" && TimeMask("18:00") == "18:00"
  {
    DigitsSkip("08", ':', "00");
    DigitsSkip("18", ':', "00");
    DigitsOfDigits("08");
    DigitsOfDigits("18");
    DigitsOfDigits("00");
    assert "08" + "00" == "0800";
    assert "18" + "00" == "1800";
    assert "08" + ":" + "00" == "08:00";
    assert "18" + ":" + "00" == "18:00";
  }

  // ---------------------------------------------------------------------------
  // Date reshaping
  // ---------------------------------------------------------------------------

  /** `String(n).padStart(2, '0')`: at least two characters, none of them `/`. */
  function Pad2(n: int): (r: string)
    ensures |r| >= 2 && '/' !in r
  {
    NoSlashInIntToString(n);
    PadStartSpec(IntToString(n), 2, '0');
    PadStart(IntToString(n), 2, '0')
  }

  /** `String(i)` never holds a `/`, whatever the sign. */
  lemma NoSlashInIntToString(i: int)
    ensures '/' !in IntToString(i)
  {
    if i < 0 {
      var t := NatToString(-i);
      NoSlashInDigits(t);
      assert IntToString(i) == ['-'] + t;
    } else {
      NoSlashInDigits(IntToString(i));
    }
  }

  /**
   * `formatDate`: day and month (getMonth() + 1) zero-padded to two digits,
   * then the full year. For every date, splitting the result at `/` gives back
   * exactly those three pieces.
   */
  function FormatDate(date: Instant): (r: string)
    ensures Split(r, '/') == [Pad2(date.day), Pad2(date.monthIndex + 1), IntToString(date.year)]
  {
    var d, m, y := Pad2(date.day), Pad2(date.monthIndex + 1), IntToString(date.year);
    NoSlashInIntToString(date.year);
    SplitThreePieces(d, m, y);
    d + "/" + m + "/" + y
  }

  /** Three separator-free pieces joined by `/` split back into those pieces. */
  lemma SplitThreePieces(d: string, m: string, y: string)
    requires '/' !in d && '/' !in m && '/' !in y
    ensures Split(d + "/" + m + "/" + y, '/') == [d, m, y]
  {
    assert d + "/" + m + "/" + y == d + ['/'] + (m + ['/'] + y);
    SplitAtSeparator(d, '/', m + ['/'] + y);
    SplitAtSeparator(m, '/', y);
    SplitNoSeparator(y, '/');
  }

  /** A piece of a destructured split: a missing piece is `undefined`, which a template string renders as such. */
  function Piece(parts: seq<string>, k: nat): string {
    if k < |parts| then parts[k] else "undefined"
  }

  /**
   * `parseDisplayDate`: `const [d, m, y] = s.split('/')` then `${y}-${m}-${d}`;
   * no validation. Without any `/`, the month and year pieces are missing and
   * render as `undefined`.
   */
  function ParseDisplayDate(displayDate: string): (r: string)
    ensures '/' !in displayDate ==> r == "undefined-undefined-" + displayDate
  {
    var parts := Split(displayDate, '/');
    assert '/' !in displayDate ==> parts == [displayDate] by {
      if '/' !in displayDate {
        SplitNoSeparator(displayDate, '/');
      }
    }
    assert "undefined" + "-" + "undefined" + "-" == "undefined-undefined-";
    Piece(parts, 2) + "-" + Piece(parts, 1) + "-" + Piece(parts, 0)
  }

  /** The YYYY-MM-DD form of a date's fields. */
  function IsoDate(date: Instant): string {
    IntToString(date.year) + "-" + Pad2(date.monthIndex + 1) + "-" + Pad2(date.day)
  }

  lemma NoSlashInDigits(s: string)
    requires AllDigits(s)
    ensures '/' !in s
  {
  }

  /** A day or month number zero-padded to two digits reads back as that number. */
  lemma Pad2Value(n: int)
    requires 1 <= n <= 99
    ensures var s := Pad2(n); |s| == 2 && AllDigits(s) && NatValue(s) == n
  {
    NatToStringLength(n);
    NatValueOfNatToString(n);
    var t := NatToString(n);
    if n < 10 {
      assert Pad2(n) == "0" + t;
      NatValueLeadingZero(t);
    } else {
      assert Pad2(n) == t;
    }
  }

  /**
   * The field ranges the formatting lemmas need: every valid date with a
   * four-digit year is in range.
   */
  predicate InFormatRange(date: Instant) {
    1 <= date.day <= 31 && 0 <= date.monthIndex < 12 && 1000 <= date.year <= 9999
  }

  /** The three pieces of a formatted date with a four-digit year, and what they read back as. */
  lemma FormatDatePieces(date: Instant)
    requires InFormatRange(date)
    ensures FormatDate(date) == Pad2(date.day) + "/" + Pad2(date.monthIndex + 1) + "/" + IntToString(date.year)
    ensures |Pad2(date.day)| == 2 && AllDigits(Pad2(date.day)) && NatValue(Pad2(date.day)) == date.day
    ensures |Pad2(date.monthIndex + 1)| == 2 && AllDigits(Pad2(date.monthIndex + 1))
    ensures NatValue(Pad2(date.monthIndex + 1)) == date.monthIndex + 1
    ensures |IntToString(date.year)| == 4 && AllDigits(IntToString(date.year))
    ensures NatValue(IntToString(date.year)) == date.year
  {
    var d, m := date.day, date.monthIndex + 1;
    assert FormatDate(date) == Pad2(d) + "/" + Pad2(m) + "/" + IntToString(date.year) by { }
    assert |Pad2(d)| == 2 && AllDigits(Pad2(d)) && NatValue(Pad2(d)) == d by { Pad2Value(d); }
    assert |Pad2(m)| == 2 && AllDigits(Pad2(m)) && NatValue(Pad2(m)) == m by { Pad2Value(m); }
    YearDigits(date.year);
  }

  lemma YearDigits(year: int)
    requires 1000 <= year <= 9999
    ensures |IntToString(year)| == 4 && AllDigits(IntToString(year)) && NatValue(IntToString(year)) == year
  {
    NatToStringLength(year);
    NatValueOfNatToString(year);
  }

  /** Positions of the pieces of a DD/MM/YYYY string. */
  lemma DisplayDateParts(d: string, m: string, y: string)
    requires |d| == 2 && |m| == 2 && |y| == 4
    ensures var r := d + "/" + m + "/" + y;
      && |r| == 10 && r[2] == '/' && r[5] == '/'
      && r[..2] == d && r[3..5] == m && r[6..] == y
  {
  }

  /**
   * For a four-digit year, formatDate yields ten characters with `/` at
   * indices 2 and 5, and its digit groups read back as day, month + 1 and year.
   */
  lemma FormatDateShape(date: Instant)
    requires InFormatRange(date)
    ensures var r := FormatDate(date);
      && |r| == 10 && r[2] == '/' && r[5] == '/'
      && AllDigits(r[..2]) && AllDigits(r[3..5]) && AllDigits(r[6..])
      && NatValue(r[..2]) == date.day
      && NatValue(r[3..5]) == date.monthIndex + 1
      && NatValue(r[6..]) == date.year
  {
    FormatDatePieces(date);
    DisplayDateParts(Pad2(date.day), Pad2(date.monthIndex + 1), IntToString(date.year));
  }

  /** A formatted date with a four-digit year is a fixed point of the date mask. */
  lemma FormatDateIsMasked(date: Instant)
    requires InFormatRange(date)
    ensures DateMask(FormatDate(date)) == FormatDate(date)
  {
    FormatDatePieces(date);
    FullDateIsMasked(Pad2(date.day), Pad2(date.monthIndex + 1), IntToString(date.year));
  }

  /** Pieces of a DD/MM/YYYY string whose pieces hold no `/`. */
  lemma ParseDisplayDateOfPieces(d: string, m: string, y: string)
    requires '/' !in d && '/' !in m && '/' !in y
    ensures ParseDisplayDate(d + "/" + m + "/" + y) == y + "-" + m + "-" + d
  {
    SplitThreePieces(d, m, y);
  }

  /**
   * The reshaping does no calendar validation: 31/02/2024 becomes 2024-02-31.
   * The date is a parameter fixed by the precondition rather than a literal
   * in the statement, so that the verifier does not unfold `Split` on a
   * constant string character by character.
   */
  lemma ParseDisplayDateDoesNotValidate(s: string)
    requires s == "31" + "/" + "02" + "/" + "2024"
    ensures ParseDisplayDate(s) == "2024" + "-" + "02" + "-" + "31"
  {
    ParseDisplayDateOfPieces("31", "02", "2024");
  }

  /**
   * Round trip: for a four-digit year, reshaping a formatted date gives
   * YYYY-MM-DD whose fields read back as the date's year, month + 1 and day.
   */
  lemma FormatParseRoundTrip(date: Instant)
    requires InFormatRange(date)
    ensures var iso := ParseDisplayDate(FormatDate(date));
      && iso == IsoDate(date)
      && |iso| == 10 && iso[4] == '-' && iso[7] == '-'
      && AllDigits(iso[..4]) && AllDigits(iso[5..7]) && AllDigits(iso[8..])
      && NatValue(iso[..4]) == date.year
      && NatValue(iso[5..7]) == date.monthIndex + 1
      && NatValue(iso[8..]) == date.day
  {
    ReshapeFormatDate(date);
    IsoDateFields(date);
  }

  /** For every date, reshaping its formatted form gives the YYYY-MM-DD form of its fields. */
  lemma ReshapeFormatDate(date: Instant)
    ensures ParseDisplayDate(FormatDate(date)) == IsoDate(date)
  {
    var d, m, y := Pad2(date.day), Pad2(date.monthIndex + 1), IntToString(date.year);
    assert Split(FormatDate(date), '/') == [d, m, y];
  }

  /** The YYYY-MM-DD form has `-` at 4 and 7, and its groups read back as year, month + 1 and day. */
  lemma IsoDateFields(date: Instant)
    requires InFormatRange(date)
    ensures var iso := IsoDate(date);
      && |iso| == 10 && iso[4] == '-' && iso[7] == '-'
      && AllDigits(iso[..4]) && AllDigits(iso[5..7]) && AllDigits(iso[8..])
      && NatValue(iso[..4]) == date.year
      && NatValue(iso[5..7]) == date.monthIndex + 1
      && NatValue(iso[8..]) == date.day
  {
    FormatDatePieces(date);
    IsoDateParts(IntToString(date.year), Pad2(date.monthIndex + 1), Pad2(date.day));
  }

  /** Positions of the pieces of a YYYY-MM-DD string. */
  lemma IsoDateParts(y: string, m: string, d: string)
    requires |y| == 4 && |m| == 2 && |d| == 2
    ensures var iso := y + "-" + m + "-" + d;
      && |iso| == 10 && iso[4] == '-' && iso[7] == '-'
      && iso[..4] == y && iso[5..7] == m && iso[8..] == d
  {
  }

  // ---------------------------------------------------------------------------
  // Submit
  // ---------------------------------------------------------------------------

  /** `${apiDate}T${hour}`: the local date-time literal handed to `new Date`. */
  function LocalLiteral(apiDate: string, hour: string): string {
    apiDate + "T" + hour
  }

  /** The value of every field of the form. */
  datatype FormValues = FormValues(
    initDate: string, endDate: string, initHour: string, endHour: string,
    repeat: bool, repeatType: RepeatType, repeatCount: string)

  /**
   * The payload `handleSubmit` hands to `onSave`, or None when a literal does
   * not parse (`toISOString` then throws). The platform parser is a parameter.
   */
  function SubmitRequest(form: FormValues, parseLocal: string -> Option<Instant>): (r: Option<DayOff>)
    ensures r.Some? <==>
      parseLocal(LocalLiteral(ParseDisplayDate(form.initDate), form.initHour)).Some? &&
      parseLocal(LocalLiteral(ParseDisplayDate(form.endDate), form.endHour)).Some?
    ensures r.Some? ==>
      && r.value.init_hour == parseLocal(LocalLiteral(ParseDisplayDate(form.initDate), form.initHour)).value
      && r.value.end_hour == parseLocal(LocalLiteral(ParseDisplayDate(form.endDate), form.endHour)).value
      && r.value.repeat == Some(form.repeat)
      && (r.value.repeat_type.Some? <==> form.repeat)
      && (r.value.repeat_value.Some? <==> form.repeat)
      && (form.repeat ==> r.value.repeat_type == Some(form.repeatType) && r.value.repeat_value == Some(form.repeatCount))
      && r.value.id.None? && r.value.user_id.None?
      && r.value.created_at.None? && r.value.updated_at.None?
  {
    var initAt := parseLocal(LocalLiteral(ParseDisplayDate(form.initDate), form.initHour));
    var endAt := parseLocal(LocalLiteral(ParseDisplayDate(form.endDate), form.endHour));
    if initAt.None? || endAt.None? then None
    else
      var base := DayOff(None, None, initAt.value, endAt.value, Some(form.repeat), None, None, None, None);
      Some(if form.repeat then base.(repeat_type := Some(form.repeatType), repeat_value := Some(form.repeatCount)) else base)
  }

  /**
   * The literal built from a four-digit-year formatted date and a fully typed
   * masked time reads YYYY-MM-DDTHH:MM, with the date's own fields.
   */
  lemma LocalLiteralShape(date: Instant, typedHour: string)
    requires InFormatRange(date)
    requires |Digits(typedHour)| >= 4
    ensures var lit := LocalLiteral(ParseDisplayDate(FormatDate(date)), TimeMask(typedHour));
      && lit == IsoDate(date) + "T" + TimeMask(typedHour)
      && |lit| == 16 && lit[4] == '-' && lit[7] == '-' && lit[10] == 'T' && lit[13] == ':'
  {
    FormatParseRoundTrip(date);
    var iso, hm := IsoDate(date), TimeMask(typedHour);
    assert |hm| == 5 && hm[2] == ':' by {
      TimeMaskLayout(typedHour);
      assert |Keep(Digits(typedHour), 4)| == 4;
    }
    LiteralParts(iso, hm);
  }

  lemma LiteralParts(iso: string, hm: string)
    requires |iso| == 10 && iso[4] == '-' && iso[7] == '-' && |hm| == 5 && hm[2] == ':'
    ensures var lit := iso + "T" + hm;
      |lit| == 16 && lit[4] == '-' && lit[7] == '-' && lit[10] == 'T' && lit[13] == ':'
  {
  }

  /** Creating a day-off on 15/03/2024 (at any time of day) with the default start hour parses 2024-03-15T08:00. */
  lemma DefaultCreateLiteral(date: Instant)
    requires date.year == 2024 && date.monthIndex == 2 && date.day == 15
    ensures LocalLiteral(ParseDisplayDate(FormatDate(date)), "08:00") == "2024-03-15T08:00"
  {
    ReshapeFormatDate(date);
    IsoDateOfMarch15(date);
  }

  /** Any instant of 15/03/2024 reshapes to 2024-03-15. */
  lemma IsoDateOfMarch15(date: Instant)
    requires date.year == 2024 && date.monthIndex == 2 && date.day == 15
    ensures IsoDate(date) == "2024-03-15"
  {
  }

  /** One call of `onSave`, with the value of the busy flag at that moment. */
  datatype SaveCall = SaveCall(payload: DayOff, busy: bool)

  /** The modal's local state, and a record of the calls it made on its props. */
  class Modal {
    var initDate: string
    var endDate: string
    var initHour: string
    var endHour: string
    var repeat: bool
    var repeatType: RepeatType
    var repeatCount: string
    var loading: bool
    /** Every call of `onSave`, in order. */
    var saveCalls: seq<SaveCall>
    /** Number of calls of `onClose`. */
    var closeCalls: nat
    /** Number of error alerts shown. */
    var alerts: nat

    function Form(): FormValues
      reads this
    {
      FormValues(initDate, endDate, initHour, endHour, repeat, repeatType, repeatCount)
    }

    /** The initial state of the hooks. */
    constructor ()
      ensures Form() == FormValues("", "", "08:00", "18:00", false, Weekly, "1")
      ensures !loading && saveCalls == [] && closeCalls == 0 && alerts == 0
    {
      initDate, endDate := "", "";
      initHour, endHour := "08:00", "18:00";
      repeat, repeatType, repeatCount := false, Weekly, "1";
      loading := false;
      saveCalls, closeCalls, alerts := [], 0, 0;
    }

    /** The effect on opening: both dates become the selected date, formatted. */
    method Open(isOpen: bool, selectedDate: Option<Instant>)
      modifies this
      ensures isOpen && selectedDate.Some? ==>
        Form() == old(Form()).(initDate := FormatDate(selectedDate.value), endDate := FormatDate(selectedDate.value))
      ensures !(isOpen && selectedDate.Some?) ==> Form() == old(Form())
      ensures loading == old(loading) && saveCalls == old(saveCalls)
      ensures closeCalls == old(closeCalls) && alerts == old(alerts)
    {
      if isOpen && selectedDate.Some? {
        initDate := FormatDate(selectedDate.value);
        endDate := FormatDate(selectedDate.value);
      }
    }

    method TypeInitDate(typed: string)
      modifies this`initDate
      ensures initDate == DateMask(typed)
    {
      initDate := DateMask(typed);
    }

    method TypeEndDate(typed: string)
      modifies this`endDate
      ensures endDate == DateMask(typed)
    {
      endDate := DateMask(typed);
    }

    method TypeInitHour(typed: string)
      modifies this`initHour
      ensures initHour == TimeMask(typed)
    {
      initHour := TimeMask(typed);
    }

    method TypeEndHour(typed: string)
      modifies this`endHour
      ensures endHour == TimeMask(typed)
    {
      endHour := TimeMask(typed);
    }

    method SetRepeat(checked: bool)
      modifies this`repeat
      ensures repeat == checked
    {
      repeat := checked;
    }

    method SelectRepeatType(t: RepeatType)
      modifies this`repeatType
      ensures repeatType == t
    {
      repeatType := t;
    }

    /** The occurrence count is stored as typed; its 1..365 bounds are not enforced here. */
    method TypeRepeatCount(typed: string)
      modifies this`repeatCount
      ensures repeatCount == typed
    {
      repeatCount := typed;
    }

    /**
     * `handleSubmit`: sets the busy flag, builds the payload, calls `onSave`
     * while busy, closes only when it succeeds, alerts on any failure, and
     * clears the busy flag on every path.
     */
    method HandleSubmit(parseLocal: string -> Option<Instant>, saveSucceeds: bool)
      modifies this
      ensures !loading
      ensures Form() == old(Form())
      ensures var req := SubmitRequest(old(Form()), parseLocal);
        && saveCalls == old(saveCalls) + (if req.Some? then [SaveCall(req.value, true)] else [])
        && closeCalls == old(closeCalls) + (if req.Some? && saveSucceeds then 1 else 0)
        && alerts == old(alerts) + (if req.Some? && saveSucceeds then 0 else 1)
    {
      loading := true;
      var apiInitDate := ParseDisplayDate(initDate);
      var apiEndDate := ParseDisplayDate(endDate);
      var initAt := parseLocal(LocalLiteral(apiInitDate, initHour));
      var endAt := parseLocal(LocalLiteral(apiEndDate, endHour));
      if initAt.None? || endAt.None? {
        alerts := alerts + 1;
      } else {
        var dayOffData := DayOff(None, None, initAt.value, endAt.value, Some(repeat), None, None, None, None);
        if repeat {
          dayOffData := dayOffData.(repeat_type := Some(repeatType));
          dayOffData := dayOffData.(repeat_value := Some(repeatCount));
        }
        saveCalls := saveCalls + [SaveCall(dayOffData, loading)];
        if saveSucceeds {
          closeCalls := closeCalls + 1;
        } else {
          alerts := alerts + 1;
        }
      }
      loading := false;
    }
  }
}
