/** The printed time of a fault log, read back as a date-time of RFC 3339, sections 5.6 and 5.7. */
module FaultLogTimestamp {
  import opened Sequences
  import opened CivilDate

  const FIRST_SECOND := -62_167_219_200
  const LAST_SECOND := 253_402_300_799

  // ----- Printing -----

  function Digit(n: int): char
    requires 0 <= n <= 9
  {
    '0' + n as char
  }

  function Decimal(n: nat): (text: string)
    ensures text != ""
  {
    if n < 10 then [Digit(n)] else Decimal(n / 10) + [Digit(n % 10)]
  }

  function Zeros(n: int): string {
    if n <= 0 then "" else "0" + Zeros(n - 1)
  }

  /** A number filled with zeros to a width that counts its sign. */
  function Padded(n: int, width: nat): string {
    if n < 0 then "-" + Zeros(width - 1 - |Decimal(-n)|) + Decimal(-n)
    else Zeros(width - |Decimal(n)|) + Decimal(n)
  }

  function Field(separator: char, value: string, rest: string): string {
    [separator] + value + rest
  }

  function Assembled(year: string, month: string, day: string, hour: string, minute: string, second: string): string {
    year + Field('-', month, Field('-', day, Field('T', hour, Field(':', minute, Field(':', second, ".000Z")))))
  }

  function FormatUnixTimestampAsIso(seconds: int): string {
    var secondsOfDay := seconds % 86_400;
    var date := CivilFromDays(seconds / 86_400);
    Assembled(
      Padded(date.year, 4), Padded(date.month, 2), Padded(date.day, 2),
      Padded(secondsOfDay / 3_600, 2), Padded(secondsOfDay % 3_600 / 60, 2), Padded(secondsOfDay % 60, 2))
  }

  // ----- Reading -----

  predicate IsDigit(c: char) {
    '0' <= c <= '9'
  }

  function Number(text: string): Option<nat> {
    if text == "" then Some(0)
    else
      var last := text[|text| - 1];
      var before := Number(text[..|text| - 1]);
      if before.None? || !IsDigit(last) then None else Some(10 * before.value + (last - '0') as int)
  }

  predicate HasLayout(text: string) {
    && |text| == 24
    && text[4] == '-' && text[7] == '-' && text[10] == 'T' && text[13] == ':' && text[16] == ':'
    && text[19..] == ".000Z"
  }

  /** Existing date, hour, minute and second. */
  function ParseFields(year: string, month: string, day: string, hour: string, minute: string, second: string)
    : Option<int>
  {
    match (Number(year), Number(month), Number(day), Number(hour), Number(minute), Number(second))
    case (Some(y), Some(mo), Some(d), Some(h), Some(mi), Some(s)) =>
      if IsDate(Date(y, mo, d)) && h <= 23 && mi <= 59 && s <= 59
      then Some(DaysFromDate(Date(y, mo, d)) * 86_400 + h * 3_600 + mi * 60 + s)
      else None
    case _ => None
  }

  /** A date-time in UTC whose fraction of a second is zero. */
  function ParseTimestamp(text: string): Option<int> {
    if !HasLayout(text) then None
    else ParseFields(text[..4], text[5..7], text[8..10], text[11..13], text[14..16], text[17..19])
  }

  // ----- Numbers of a fixed width -----

  function Power(width: nat): nat {
    if width == 0 then 1 else 10 * Power(width - 1)
  }

  function Digits(n: nat, width: nat): (text: string)
    ensures |text| == width
  {
    if width == 0 then "" else Digits(n / 10, width - 1) + [Digit(n % 10)]
  }

  lemma {:induction false} NumberOfNext(text: string, last: char)
    ensures Number(text + [last])
         == if Number(text).None? || !IsDigit(last) then None
            else Some(10 * Number(text).value + (last - '0') as int)
  {
    assert (text + [last])[..|text + [last]| - 1] == text;
  }

  lemma {:induction false} DigitOf(n: int)
    requires 0 <= n <= 9
    ensures IsDigit(Digit(n)) && (Digit(n) - '0') as int == n
  {
  }

  lemma {:induction false} Tenth(n: nat, power: nat)
    requires n < 10 * power
    ensures n / 10 < power && 10 * (n / 10) + n % 10 == n
  {
  }

  lemma {:induction false} DigitsReadBack(n: nat, width: nat)
    requires n < Power(width)
    ensures Number(Digits(n, width)) == Some(n)
  {
    if width > 0 {
      Tenth(n, Power(width - 1));
      assert Digits(n, width) == Digits(n / 10, width - 1) + [Digit(n % 10)];
      hide *;
      DigitsReadBack(n / 10, width - 1);
      NumberOfNext(Digits(n / 10, width - 1), Digit(n % 10));
      DigitOf(n % 10);
    } else {
      assert Number("") == Some(0);
    }
  }

  /** A text of digits is what its number prints as. */
  lemma {:induction false} ReadDigitsBack(text: string)
    requires Number(text).Some?
    ensures Number(text).value < Power(|text|) && Digits(Number(text).value, |text|) == text
    decreases |text|
  {
    if text != "" {
      var rest, last := text[..|text| - 1], text[|text| - 1];
      assert text == rest + [last];
      ReadDigitsBack(rest);
      var digit := (last - '0') as int;
      assert Digit(digit) == last && 0 <= digit <= 9;
      assert (10 * Number(rest).value + digit) / 10 == Number(rest).value;
    }
  }

  lemma {:induction false} ZerosAreDigits(n: nat)
    ensures Zeros(n) == Digits(0, n)
    ensures Zeros(n + 1) == Zeros(n) + "0"
  {
    if n > 0 {
      ZerosAreDigits(n - 1);
      assert Zeros(n + 1) == "0" + (Zeros(n - 1) + "0") == ("0" + Zeros(n - 1)) + "0";
    }
  }

  lemma {:induction false} DecimalFits(n: nat, width: nat)
    requires width > 0
    ensures |Decimal(n)| <= width <==> n < Power(width)
    decreases width
  {
    assert Power(width) == 10 * Power(width - 1);
    if n >= 10 && width > 1 {
      DecimalFits(n / 10, width - 1);
    } else if n < 10 {
      PowerPositive(width - 1);
    }
  }

  lemma {:induction false} PowerPositive(width: nat)
    ensures Power(width) >= 1
  {
    if width > 0 {
      PowerPositive(width - 1);
    }
  }

  /** A number below the width's power is printed in exactly that many digits. */
  lemma {:induction false} PaddedIsDigits(n: nat, width: nat)
    requires width > 0 && n < Power(width)
    ensures Padded(n, width) == Digits(n, width)
    decreases width
  {
    if n < 10 {
      ZerosAreDigits(width - 1);
      assert Decimal(n) == [Digit(n)] && n / 10 == 0;
    } else {
      hide Zeros;
      DecimalFits(n, width);
      DecimalFits(n / 10, width - 1);
      PaddedIsDigits(n / 10, width - 1);
      Reassociate(Zeros(width - |Decimal(n)|), Decimal(n / 10), [Digit(n % 10)]);
    }
  }

  // ----- The layout -----

  /** The separator and value at position `at`, where the text goes on with a field. */
  lemma {:induction false} FieldAt(text: string, at: nat, separator: char, value: string, rest: string)
    requires at <= |text| && text[at..] == Field(separator, value, rest) && |value| == 2
    ensures at + 3 <= |text| && text[at] == separator && text[at + 1..at + 3] == value && text[at + 3..] == rest
  {
    var tail := text[at..];
    assert text[at] == tail[0] && text[at + 1..at + 3] == tail[1..3] && text[at + 3..] == tail[3..];
    assert tail[1..3] == value && tail[3..] == rest;
  }

  lemma {:induction false} Appended(a: string, b: string)
    ensures (a + b)[..|a|] == a && (a + b)[|a|..] == b
  {
  }

  /** Three fields in a row. */
  lemma {:induction false} FieldsAt(
      text: string, at: nat, x: char, a: string, y: char, b: string, z: char, c: string, rest: string)
    requires |a| == 2 && |b| == 2 && |c| == 2
    requires at <= |text| && text[at..] == Field(x, a, Field(y, b, Field(z, c, rest)))
    ensures at + 9 <= |text| && text[at + 9..] == rest
    ensures text[at] == x && text[at + 3] == y && text[at + 6] == z
    ensures text[at + 1..at + 3] == a && text[at + 4..at + 6] == b && text[at + 7..at + 9] == c
  {
    hide Field;
    FieldAt(text, at, x, a, Field(y, b, Field(z, c, rest)));
    FieldAt(text, at + 3, y, b, Field(z, c, rest));
    FieldAt(text, at + 6, z, c, rest);
  }

  lemma {:induction false} AssembledSlices(y: string, mo: string, d: string, h: string, mi: string, s: string)
    requires |y| == 4 && |mo| == 2 && |d| == 2 && |h| == 2 && |mi| == 2 && |s| == 2
    ensures var text := Assembled(y, mo, d, h, mi, s);
      && HasLayout(text) && text[..4] == y && text[5..7] == mo && text[8..10] == d
      && text[11..13] == h && text[14..16] == mi && text[17..19] == s
  {
    var text := Assembled(y, mo, d, h, mi, s);
    var time := Field(':', mi, Field(':', s, ".000Z"));
    var date := Field('-', mo, Field('-', d, Field('T', h, time)));
    hide Field;
    Appended(y, date);
    FieldsAt(text, 4, '-', mo, '-', d, 'T', h, time);
    FieldAt(text, 13, ':', mi, Field(':', s, ".000Z"));
    FieldAt(text, 16, ':', s, ".000Z");
  }

  lemma {:induction false} AssembledLength(y: string, mo: string, d: string, h: string, mi: string, s: string)
    requires |mo| == 2 && |d| == 2 && |h| == 2 && |mi| == 2 && |s| == 2
    ensures |Assembled(y, mo, d, h, mi, s)| == |y| + 20
  {
  }

  lemma {:induction false} AssembledParts(y: string, mo: string, d: string, h: string, mi: string, s: string)
    requires |mo| == 2 && |d| == 2 && |h| == 2 && |mi| == 2 && |s| == 2
    ensures HasLayout(Assembled(y, mo, d, h, mi, s)) <==> |y| == 4
    ensures |y| == 4 ==> ParseTimestamp(Assembled(y, mo, d, h, mi, s)) == ParseFields(y, mo, d, h, mi, s)
  {
    hide ParseFields, Assembled;
    AssembledLength(y, mo, d, h, mi, s);
    if |y| == 4 {
      hide HasLayout;
      AssembledSlices(y, mo, d, h, mi, s);
    }
  }

  lemma {:induction false} SameSlice(a: string, b: string, i: nat, j: nat)
    requires i <= j <= |a| && j <= |b| && a[i..j] == b[i..j]
    ensures forall k :: i <= k < j ==> a[k] == b[k]
  {
    forall k | i <= k < j ensures a[k] == b[k] {
      assert a[k] == a[i..j][k - i] && b[k] == b[i..j][k - i];
    }
  }

  lemma {:induction false} LayoutParts(text: string)
    requires HasLayout(text)
    ensures text == Assembled(text[..4], text[5..7], text[8..10], text[11..13], text[14..16], text[17..19])
  {
    hide Assembled;
    var again := Assembled(text[..4], text[5..7], text[8..10], text[11..13], text[14..16], text[17..19]);
    AssembledSlices(text[..4], text[5..7], text[8..10], text[11..13], text[14..16], text[17..19]);
    SameSlice(text, again, 0, 4);
    SameSlice(text, again, 5, 7);
    SameSlice(text, again, 8, 10);
    SameSlice(text, again, 11, 13);
    SameSlice(text, again, 14, 16);
    SameSlice(text, again, 17, 19);
    SameSlice(text, again, 19, 24);
  }

  // ----- Years that have four digits -----

  lemma {:induction false} YearInRange(seconds: int)
    ensures FIRST_SECOND <= seconds <= LAST_SECOND <==> 0 <= CivilFromDays(seconds / 86_400).year <= 9_999
  {
    hide CivilFromDays, IsDate, DaysFromDate, DaysToYear;
    var days := seconds / 86_400;
    var year := CivilFromDays(days).year;
    CivilFromDaysIsExact(days);
    WithinYear(CivilFromDays(days));
    assert DaysToYear(0) == -719_528 by { DaysToYearClosed(0); }
    assert DaysToYear(10_000) == 2_932_897 by { DaysToYearClosed(10_000); }
    if year < 0 { YearsAscend(year + 1, 0); } else { YearsAscend(0, year); }
    if year > 9_999 { YearsAscend(10_000, year); } else { YearsAscend(year + 1, 10_000); }
  }

  lemma {:induction false} Powers()
    ensures Power(2) == 100 && Power(4) == 10_000
  {
    assert Power(1) == 10 && Power(3) == 1_000;
  }

  lemma {:induction false} TwoDigits(n: int)
    requires 0 <= n < 100
    ensures |Padded(n, 2)| == 2 && Number(Padded(n, 2)) == Some(n)
  {
    Powers();
    PaddedIsDigits(n, 2);
    DigitsReadBack(n, 2);
  }

  lemma {:induction false} FourDigits(year: int)
    ensures if 0 <= year <= 9_999 then |Padded(year, 4)| == 4 && Number(Padded(year, 4)) == Some(year)
            else |Padded(year, 4)| != 4 || Number(Padded(year, 4)).None?
  {
    Powers();
    if 0 <= year <= 9_999 {
      PaddedIsDigits(year, 4);
      DigitsReadBack(year, 4);
    } else if year > 9_999 {
      DecimalFits(year, 4);
    } else {
      assert Padded(year, 4)[0] == '-';
      SignIsNoDigit(Padded(year, 4));
    }
  }

  lemma {:induction false} SignIsNoDigit(text: string)
    requires text != "" && text[0] == '-'
    ensures Number(text).None?
    decreases |text|
  {
    if |text| > 1 {
      SignIsNoDigit(text[..|text| - 1]);
    }
  }

  /** Any year reads back behind its sign, and no zero is put before one that needs no filling. */
  lemma {:induction false} PaddedReadsBack(n: int, width: nat)
    ensures var text := Padded(n, width);
      var digits := if n < 0 then text[1..] else text;
      && (n < 0 ==> text[0] == '-')
      && Number(digits) == Some(if n < 0 then -n else n)
      && |text| >= width && digits != "" && (|text| > width && n != 0 ==> digits[0] != '0')
  {
    hide Zeros, Decimal, Number;
    var magnitude := if n < 0 then -n else n;
    var filling := if n < 0 then width - 1 - |Decimal(magnitude)| else width - |Decimal(magnitude)|;
    DecimalReadsBack(magnitude);
    ZerosBefore(filling, Decimal(magnitude));
    ZerosAreNothing(filling);
    var digits := Zeros(filling) + Decimal(magnitude);
    assert n < 0 ==> Padded(n, width) == "-" + digits && ("-" + digits)[1..] == digits;
  }

  lemma {:induction false} DecimalReadsBack(n: nat)
    ensures Number(Decimal(n)) == Some(n) && (n > 0 ==> Decimal(n)[0] != '0')
  {
    hide Number;
    DigitOf(n % 10);
    if n < 10 {
      DigitOf(n);
      NumberOfNext("", Digit(n));
      NumberOfNothing();
      assert "" + [Digit(n)] == [Digit(n)];
    } else {
      DecimalReadsBack(n / 10);
      NumberOfNext(Decimal(n / 10), Digit(n % 10));
    }
  }

  lemma {:induction false} NumberOfNothing()
    ensures Number("") == Some(0)
  {
  }

  lemma {:induction false} ZerosAreNothing(filling: int)
    ensures Number(Zeros(filling)) == Some(0) && |Zeros(filling)| == if filling > 0 then filling else 0
  {
    if filling > 0 {
      ZerosAreDigits(filling - 1);
      ZerosAreNothing(filling - 1);
      hide Zeros, Number;
      NumberOfNext(Zeros(filling - 1), '0');
    }
  }

  lemma {:induction false} ZerosBefore(filling: int, text: string)
    ensures Number(Zeros(filling) + text) == Number(text)
    decreases |text|
  {
    ZerosAreNothing(filling);
    NumberOfNothing();
    hide Zeros, Number;
    if text == "" {
      assert Zeros(filling) + text == Zeros(filling);
    } else {
      var init, last := text[..|text| - 1], text[|text| - 1];
      assert text == init + [last];
      Reassociate(Zeros(filling), init, [last]);
      ZerosBefore(filling, init);
      NumberOfNext(Zeros(filling) + init, last);
      NumberOfNext(init, last);
    }
  }

  // ----- Round trips -----

  /** The printed time reads back as the same second for the years 0 to 9999, and as no date-time for any other. */
  lemma {:induction false} FormatReadsBack(seconds: int)
    ensures ParseTimestamp(FormatUnixTimestampAsIso(seconds))
         == if FIRST_SECOND <= seconds <= LAST_SECOND then Some(seconds) else None
  {
    hide CivilFromDays, IsDate, DaysFromDate, Padded, Number, Assembled, HasLayout;
    var days, ofDay := seconds / 86_400, seconds % 86_400;
    var date := CivilFromDays(days);
    var h, mi, s := ofDay / 3_600, ofDay % 3_600 / 60, ofDay % 60;
    CivilFromDaysIsExact(days);
    ShortFields(date);
    TwoDigits(date.month);
    TwoDigits(date.day);
    TwoDigits(h);
    TwoDigits(mi);
    TwoDigits(s);
    FourDigits(date.year);
    YearInRange(seconds);
    AssembledParts(Padded(date.year, 4), Padded(date.month, 2), Padded(date.day, 2),
                   Padded(h, 2), Padded(mi, 2), Padded(s, 2));
  }

  lemma {:induction false} ShortFields(date: Date)
    requires IsDate(date)
    ensures 0 <= date.month < 100 && 0 <= date.day < 100
  {
  }

  lemma {:induction false} FieldPrintsBack(text: string, width: nat)
    requires width > 0 && |text| == width && Number(text).Some?
    ensures Padded(Number(text).value, width) == text
  {
    ReadDigitsBack(text);
    PaddedIsDigits(Number(text).value, width);
  }

  lemma {:induction false} SplitSeconds(days: int, h: int, mi: int, s: int)
    requires 0 <= h <= 23 && 0 <= mi <= 59 && 0 <= s <= 59
    ensures var seconds := days * 86_400 + h * 3_600 + mi * 60 + s;
      && seconds / 86_400 == days
      && seconds % 86_400 / 3_600 == h && seconds % 86_400 % 3_600 / 60 == mi && seconds % 86_400 % 60 == s
  {
    var ofDay := h * 3_600 + mi * 60 + s;
    Quotient(days * 86_400 + ofDay, 86_400, days, ofDay);
    Quotient(ofDay, 3_600, h, mi * 60 + s);
    Quotient(mi * 60 + s, 60, mi, s);
    Quotient(ofDay, 60, h * 60 + mi, s);
  }

  /** A date-time read is printed as it was. */
  lemma {:induction false} ReadPrintsBack(text: string)
    requires ParseTimestamp(text).Some?
    ensures FormatUnixTimestampAsIso(ParseTimestamp(text).value) == text
  {
    hide CivilFromDays, IsDate, DaysFromDate, Padded, Number, Assembled, HasLayout;
    LayoutParts(text);
    Lengths(text);
    var y, mo, d := Number(text[..4]).value, Number(text[5..7]).value, Number(text[8..10]).value;
    var h, mi, s := Number(text[11..13]).value, Number(text[14..16]).value, Number(text[17..19]).value;
    var seconds := ParseTimestamp(text).value;
    DatesAreDays(Date(y, mo, d));
    SplitSeconds(DaysFromDate(Date(y, mo, d)), h, mi, s);
    FieldPrintsBack(text[..4], 4);
    FieldPrintsBack(text[5..7], 2);
    FieldPrintsBack(text[8..10], 2);
    FieldPrintsBack(text[11..13], 2);
    FieldPrintsBack(text[14..16], 2);
    FieldPrintsBack(text[17..19], 2);
  }

  lemma {:induction false} Lengths(text: string)
    requires HasLayout(text)
    ensures |text| == 24
  {
  }
}
