/** Timestamps as text: the printer and the parser of the refresh module, over
    the UTF-8 bytes of the text, one `char` to a byte. */
module Rfc3339 {
  import opened Options
  import opened Calendar
  import opened Decimals

  // ------------------------------------------------ numbers as text

  function Zeros(n: nat): (s: string)
    ensures |s| == n && AllDigits(s)
  {
    seq(n, _ => '0')
  }

  /** `{n:0width}` of the formatting macro: at least `width` digits. */
  function Padded(n: int, width: int): (s: string)
    ensures n >= 0 ==> AllDigits(s)
    decreases n < 0
  {
    if n < 0 then "-" + Padded(-n, width - 1)
    else
      var digits := Decimal(n);
      if |digits| < width then Zeros(width - |digits|) + digits else digits
  }

  const U64_LIMIT := 0x1_0000_0000_0000_0000
  const I64_LIMIT := 0x8000_0000_0000_0000

  /** Parsing an unsigned 64-bit number: a leading `+` is accepted, a leading
      `-` is not, and neither is an empty or too large number. */
  function ParseU64(s: string): Option<nat> {
    var digits := if |s| > 1 && s[0] == '+' then s[1..] else s;
    if digits != "" && AllDigits(digits) && Value(digits) < U64_LIMIT then Some(Value(digits)) else None
  }

  /** Parsing a signed 64-bit number: either sign is accepted. */
  function ParseI64(s: string): Option<int> {
    if |s| > 1 && s[0] == '-' then
      var digits := s[1..];
      if AllDigits(digits) && Value(digits) <= I64_LIMIT then Some(0 - Value(digits)) else None
    else
      var digits := if |s| > 1 && s[0] == '+' then s[1..] else s;
      if digits != "" && AllDigits(digits) && Value(digits) < I64_LIMIT then Some(Value(digits)) else None
  }

  // ------------------------------------------------ the printer

  datatype Clock = Clock(hour: nat, minute: nat, second: nat)

  predicate ValidClock(t: Clock) { t.hour < 24 && t.minute < 60 && t.second < 60 }

  function CivilText(d: Date, t: Clock): string {
    Padded(d.year, 4) + "-" + Padded(d.month, 2) + "-" + Padded(d.day, 2) + "T"
    + Padded(t.hour, 2) + ":" + Padded(t.minute, 2) + ":" + Padded(t.second, 2)
  }

  function ClockOf(timeOfDay: nat): Clock {
    Clock(timeOfDay / 3600, timeOfDay % 3600 / 60, timeOfDay % 60)
  }

  function Format(millis: nat): string {
    var days := millis / 1000 / 86_400;
    CivilText(CivilFromDays(days), ClockOf(millis / 1000 % 86_400)) + "Z"
  }

  // ------------------------------------------------ the parser

  /** What the parser answers.  `Overflow` is the one place where its unsigned
      arithmetic leaves its range: a checked build stops there, an unchecked
      one wraps around. */
  datatype Parsed = Millis(value: int) | NotATimestamp | Overflow

  datatype Fields = Fields(year: nat, month: nat, day: nat, clock: Clock)

  predicate IsSpace(c: char) { '\t' <= c <= '\r' || c == ' ' }

  function TrimStart(s: string): string {
    if s != "" && IsSpace(s[0]) then TrimStart(s[1..]) else s
  }

  function TrimEnd(s: string): string {
    if s != "" && IsSpace(s[|s| - 1]) then TrimEnd(s[..|s| - 1]) else s
  }

  function Number(text: string, from: nat, to: nat): Option<nat>
    requires from <= to
  {
    if to <= |text| then ParseU64(text[from..to]) else None
  }

  function ReadFields(text: string): Option<Fields> {
    var year := Number(text, 0, 4);
    var month := Number(text, 5, 7);
    var day := Number(text, 8, 10);
    var hour := Number(text, 11, 13);
    var minute := Number(text, 14, 16);
    var second := Number(text, 17, 19);
    if year.Some? && month.Some? && day.Some? && hour.Some? && minute.Some? && second.Some?
       && 1 <= month.value <= 12 && 1 <= day.value <= 31
    then Some(Fields(year.value, month.value, day.value, Clock(hour.value, minute.value, second.value)))
    else None
  }

  /** Whether byte `i` starts a character, or is the end of the text. */
  predicate CharBoundary(text: string, i: nat) {
    i == |text| || (i < |text| && !(0x80 <= text[i] as int < 0xC0))
  }

  /** The offset in seconds at the end of the text; nothing when it is malformed. */
  function TrailingOffset(text: string): Option<int> {
    if text != "" && (text[|text| - 1] == 'Z' || text[|text| - 1] == 'z') then Some(0)
    else if |text| < 6 || !CharBoundary(text, |text| - 6) then None
    else
      var tail := text[|text| - 6..];
      if tail[0] != '+' && tail[0] != '-' then Some(0)
      else if !CharBoundary(tail, 1) || !CharBoundary(tail, 3) || !CharBoundary(tail, 4) then None
      else
        var hours, minutes := ParseI64(tail[1..3]), ParseI64(tail[4..6]);
        if hours.None? || minutes.None? then None
        else
          var size := hours.value * 3600 + minutes.value * 60;
          Some(if tail[0] == '+' then size else -size)
  }

  /** The instant a date and a time of day name, in seconds. */
  function Instant(d: Date, t: Clock): int
    requires 1 <= d.month <= 12
  {
    DaysFromCivil(d) * 86_400 + t.hour * 3600 + t.minute * 60 + t.second
  }

  function Seconds(f: Fields): int
    requires 1 <= f.month <= 12
  {
    Instant(Date(f.year, f.month, f.day), f.clock)
  }

  function Parse(raw: string): Parsed {
    var text := TrimEnd(TrimStart(raw));
    var bare := ParseU64(text);
    if bare.Some? then Millis(bare.value)
    else
      var fields := ReadFields(text);
      if fields.None? then NotATimestamp
      else if fields.value.year == 0 && fields.value.month <= 2 then Overflow
      else
        var offset := TrailingOffset(text);
        if offset.None? || Seconds(fields.value) < offset.value then NotATimestamp
        else Millis((Seconds(fields.value) - offset.value) * 1000)
  }

  // ------------------------------------------------ years and days

  lemma YearsFromEpoch(days: nat)
    ensures CivilFromDays(days).year >= 1970
  {
    DaysOfCivil(days);
    DaysSign(CivilFromDays(days));
  }

  const YEAR_10000_MILLIS := 253_402_300_800_000

  lemma YearBound(d: Date)
    requires ValidDate(d)
    ensures DaysFromCivil(d) < YEAR_10000_MILLIS / 86_400_000 <==> d.year < 10_000
    ensures d.year >= 1_000_000 ==> DaysFromCivil(d) >= 300_000_000
  {
  }

  // ------------------------------------------------ two and four digits

  function TwoDigits(n: nat): (s: string)
    requires n < 100
    ensures |s| == 2 && AllDigits(s)
  {
    [DigitChar(n / 10), DigitChar(n % 10)]
  }

  function FourDigits(n: nat): (s: string)
    requires n < 10_000
    ensures |s| == 4 && AllDigits(s)
  {
    TwoDigits(n / 100) + TwoDigits(n % 100)
  }

  lemma DecimalTwo(n: nat)
    requires 10 <= n < 100
    ensures Decimal(n) == TwoDigits(n)
  {
    assert Decimal(n / 10) == [DigitChar(n / 10)];
  }

  lemma PaddedTwo(n: nat)
    requires n < 100
    ensures Padded(n, 2) == TwoDigits(n)
  {
    if n < 10 {
      assert Decimal(n) == [DigitChar(n)];
    } else {
      DecimalTwo(n);
    }
  }

  lemma DecimalThree(n: nat)
    requires 100 <= n < 1000
    ensures Decimal(n) == TwoDigits(n / 10) + [DigitChar(n % 10)]
  {
    DecimalTwo(n / 10);
  }

  lemma DecimalFour(n: nat)
    requires 1000 <= n < 10_000
    ensures Decimal(n) == FourDigits(n)
  {
    DecimalThree(n / 10);
    assert n / 10 / 10 == n / 100 && n / 10 % 10 == n % 100 / 10 && n % 10 == n % 100 % 10;
  }

  lemma PaddedFour(n: nat)
    requires n < 10_000
    ensures Padded(n, 4) == FourDigits(n)
  {
    hide Decimal, TwoDigits;
    if n < 100 {
      PaddedTwo(n);
      FourOfTwo(n);
    } else if n < 1000 {
      DecimalThree(n);
      FourOfThree(n);
    } else {
      DecimalFour(n);
    }
  }

  lemma FourOfTwo(n: nat)
    requires n < 100
    ensures Padded(n, 4) == "00" + Padded(n, 2) && FourDigits(n) == "00" + TwoDigits(n)
  {
    hide *;
    DecimalSize(n);
    PaddedMore(n);
    assert FourDigits(n) == TwoDigits(0) + TwoDigits(n) by { NoHundreds(n); }
    assert TwoDigits(0) == "00" by { NoDigits(); }
  }

  lemma NoHundreds(n: nat)
    requires n < 100
    ensures FourDigits(n) == TwoDigits(0) + TwoDigits(n)
  {
    assert n / 100 == 0 && n % 100 == n;
  }

  lemma NoDigits()
    ensures TwoDigits(0) == "00"
  {
  }

  lemma PaddedMore(n: nat)
    requires |Decimal(n)| <= 2
    ensures Padded(n, 4) == "00" + Padded(n, 2)
  {
    hide Decimal;
    var digits := Decimal(n);
    if |digits| == 1 {
      assert Zeros(3) == "00" + Zeros(1);
    } else {
      assert Zeros(2) == "00";
    }
  }

  lemma DecimalSize(n: nat)
    requires n < 100
    ensures |Decimal(n)| <= 2
  {
  }

  lemma FourOfThree(n: nat)
    requires 100 <= n < 1000 && Decimal(n) == TwoDigits(n / 10) + [DigitChar(n % 10)]
    ensures Padded(n, 4) == FourDigits(n)
  {
    hide Decimal;
    SplitThree(n);
    assert Zeros(1) == "0";
  }

  lemma SplitThree(n: nat)
    requires 100 <= n < 1000
    ensures n / 10 / 10 == n / 100 < 10 && n / 10 % 10 == n % 100 / 10 && n % 10 == n % 100 % 10
  {
  }

  lemma ParseTwo(a: char, b: char)
    requires IsDigit(a) && IsDigit(b)
    ensures ParseU64([a, b]) == Some(10 * DigitValue(a) + DigitValue(b))
    ensures ParseI64([a, b]) == Some(10 * DigitValue(a) + DigitValue(b))
  {
    ValueTwo(a, b);
  }

  lemma ValueTwo(a: char, b: char)
    requires IsDigit(a) && IsDigit(b)
    ensures Value([a, b]) == 10 * DigitValue(a) + DigitValue(b)
  {
    assert [a, b][..1] == [a];
    assert [a][..0] == "";
    assert Value([a]) == DigitValue(a);
  }

  lemma ParseFour(a: char, b: char, c: char, d: char)
    requires IsDigit(a) && IsDigit(b) && IsDigit(c) && IsDigit(d)
    ensures ParseU64([a, b, c, d])
            == Some(1000 * DigitValue(a) + 100 * DigitValue(b) + 10 * DigitValue(c) + DigitValue(d))
  {
    var s := [a, b, c, d];
    assert s[..3] == [a, b, c] && s[..3][..2] == [a, b];
    ValueTwo(a, b);
    assert Value(s[..3]) == 10 * Value([a, b]) + DigitValue(c);
  }

  // ------------------------------------------------ reading a printed date

  predicate Printable(d: Date, t: Clock) {
    ValidDate(d) && 0 <= d.year < 10_000 && t.hour < 100 && t.minute < 100 && t.second < 100
  }

  lemma CivilTextShape(d: Date, t: Clock)
    requires Printable(d, t)
    ensures CivilText(d, t) ==
            FourDigits(d.year) + "-" + TwoDigits(d.month) + "-" + TwoDigits(d.day) + "T"
            + TwoDigits(t.hour) + ":" + TwoDigits(t.minute) + ":" + TwoDigits(t.second)
    ensures |CivilText(d, t)| == 19
  {
    PaddedFour(d.year);
    PaddedTwo(d.month);
    PaddedTwo(d.day);
    PaddedTwo(t.hour);
    PaddedTwo(t.minute);
    PaddedTwo(t.second);
  }

  lemma ReadTwo(n: nat)
    requires n < 100
    ensures ParseU64(TwoDigits(n)) == Some(n) && ParseI64(TwoDigits(n)) == Some(n)
  {
    ParseTwo(DigitChar(n / 10), DigitChar(n % 10));
  }

  lemma ReadFour(n: nat)
    requires n < 10_000
    ensures ParseU64(FourDigits(n)) == Some(n)
  {
    var s := FourDigits(n);
    ParseFour(s[0], s[1], s[2], s[3]);
    assert s == [s[0], s[1], s[2], s[3]];
    assert n == 100 * (n / 100) + n % 100;
    assert n / 100 == 10 * (n / 100 / 10) + n / 100 % 10;
    assert n % 100 == 10 * (n % 100 / 10) + n % 100 % 10;
  }

  /** The fixed positions of the six fields. */
  lemma FieldPositions(text: string, y: string, mo: string, d: string, h: string, mi: string, s: string)
    requires |y| == 4 && |mo| == |d| == |h| == |mi| == |s| == 2
    requires |text| >= 19 && text[..19] == y + "-" + mo + "-" + d + "T" + h + ":" + mi + ":" + s
    ensures text[0..4] == y && text[5..7] == mo && text[8..10] == d
    ensures text[11..13] == h && text[14..16] == mi && text[17..19] == s
    ensures text[4] == '-' && text[0] == y[0] && text[18] == s[1]
  {
    var head := text[..19];
    assert text[0..4] == head[0..4];
    assert text[5..7] == head[5..7];
    assert text[8..10] == head[8..10];
    assert text[11..13] == head[11..13];
    assert text[14..16] == head[14..16];
    assert text[17..19] == head[17..19];
    assert text[4] == head[4] && text[0] == head[0] && text[18] == head[18];
  }

  lemma ReadCivilText(d: Date, t: Clock, text: string)
    requires Printable(d, t)
    requires |text| >= 19 && text[..19] == CivilText(d, t)
    ensures ReadFields(text) == Some(Fields(d.year, d.month, d.day, t))
    ensures IsDigit(text[0]) && text[4] == '-' && IsDigit(text[18])
  {
    hide TwoDigits, FourDigits, CivilText, ParseU64;
    CivilTextShape(d, t);
    FieldPositions(text, FourDigits(d.year), TwoDigits(d.month), TwoDigits(d.day),
                   TwoDigits(t.hour), TwoDigits(t.minute), TwoDigits(t.second));
    ReadFour(d.year);
    ReadTwo(d.month);
    ReadTwo(d.day);
    ReadTwo(t.hour);
    ReadTwo(t.minute);
    ReadTwo(t.second);
  }

  lemma NotANumber(text: string, i: nat)
    requires 1 <= i < |text| && !IsDigit(text[i])
    ensures ParseU64(text) == None
  {
    if text[0] == '+' {
      assert text[1..][i - 1] == text[i];
    }
  }

  lemma Untrimmed(text: string)
    requires text != "" && !IsSpace(text[0]) && !IsSpace(text[|text| - 1])
    ensures TrimEnd(TrimStart(text)) == text
  {
  }

  lemma StampFields(d: Date, t: Clock, suffix: string, text: string)
    requires Printable(d, t) && text == CivilText(d, t) + suffix
    requires suffix == "" || !IsSpace(suffix[|suffix| - 1])
    ensures TrimEnd(TrimStart(text)) == text && ParseU64(text) == None
    ensures ReadFields(text) == Some(Fields(d.year, d.month, d.day, t))
  {
    CivilTextShape(d, t);
    assert text[..19] == CivilText(d, t);
    ReadCivilText(d, t, text);
    NotANumber(text, 4);
    assert suffix != "" ==> text[|text| - 1] == suffix[|suffix| - 1];
    assert suffix == "" ==> text[|text| - 1] == text[18];
    Untrimmed(text);
  }

  /** What the parser makes of a printed date with anything after it: the
      named instant, moved by the offset found at the end. */
  lemma ParseStamp(d: Date, t: Clock, suffix: string)
    requires Printable(d, t)
    requires suffix == "" || !IsSpace(suffix[|suffix| - 1])
    ensures Parse(CivilText(d, t) + suffix) ==
            if d.year == 0 && d.month <= 2 then Overflow
            else match TrailingOffset(CivilText(d, t) + suffix)
              case None => NotATimestamp
              case Some(offset) =>
                if Instant(d, t) < offset then NotATimestamp else Millis((Instant(d, t) - offset) * 1000)
  {
    hide Parse, TrailingOffset, TrimEnd, TrimStart, ParseU64, ReadFields, CivilText, Instant;
    var text := CivilText(d, t) + suffix;
    StampFields(d, t, suffix, text);
    ParseFields(text, Fields(d.year, d.month, d.day, t));
    assert d == Date(d.year, d.month, d.day);
  }

  lemma ParseFields(text: string, f: Fields)
    requires TrimEnd(TrimStart(text)) == text && ParseU64(text) == None && ReadFields(text) == Some(f)
    ensures 1 <= f.month <= 12
    ensures Parse(text) ==
            if f.year == 0 && f.month <= 2 then Overflow
            else match TrailingOffset(text)
              case None => NotATimestamp
              case Some(offset) =>
                if Seconds(f) < offset then NotATimestamp else Millis((Seconds(f) - offset) * 1000)
  {
    hide TrimEnd, TrimStart, ParseU64, TrailingOffset, Instant, Seconds, AllDigits, Value;
    MonthRead(text);
    hide ReadFields;
  }

  lemma MonthRead(text: string)
    requires ReadFields(text).Some?
    ensures 1 <= ReadFields(text).value.month <= 12
  {
  }

  // ------------------------------------------------ the main results

  lemma UtcSuffix(head: string, fraction: string)
    ensures TrailingOffset(head + (fraction + "Z")) == Some(0)
  {
    var text := head + (fraction + "Z");
    assert text[|text| - 1] == 'Z';
  }

  lemma NoSuffix(d: Date, t: Clock)
    requires Printable(d, t)
    ensures TrailingOffset(CivilText(d, t)) == Some(0)
  {
    hide CivilText, AllDigits, TwoDigits, FourDigits, Number, ReadFields;
    var text := CivilText(d, t);
    CivilTextShape(d, t);
    assert text[..19] == text;
    ReadCivilText(d, t, text);
    FieldPositions(text, FourDigits(d.year), TwoDigits(d.month), TwoDigits(d.day),
                   TwoDigits(t.hour), TwoDigits(t.minute), TwoDigits(t.second));
    assert text[13..][0] == text[13] == ':';
  }

  /** A text in UTC names its instant; a fraction of a second is ignored, and
      a missing offset means UTC. */
  lemma ParseUtc(d: Date, t: Clock, fraction: string)
    requires Printable(d, t) && d.year >= 1970
    ensures Instant(d, t) >= 0
    ensures Parse(CivilText(d, t) + (fraction + "Z")) == Millis(Instant(d, t) * 1000)
    ensures Parse(CivilText(d, t)) == Millis(Instant(d, t) * 1000)
  {
    InstantSign(d, t);
    ParseStamp(d, t, fraction + "Z");
    UtcSuffix(CivilText(d, t), fraction);
    ParseStamp(d, t, "");
    NoSuffix(d, t);
    assert CivilText(d, t) + "" == CivilText(d, t);
  }

  lemma InstantSign(d: Date, t: Clock)
    requires ValidDate(d) && d.year >= 1970
    ensures DaysFromCivil(d) >= 0 && Instant(d, t) >= 0
  {
    DaysSign(d);
  }

  /** A numeric offset shifts the instant by exactly that much; an instant
      before the epoch is refused. */
  lemma ParseOffset(d: Date, t: Clock, plus: bool, hours: nat, minutes: nat)
    requires Printable(d, t) && d.year >= 1
    requires hours < 100 && minutes < 100
    ensures var offset := if plus then hours * 3600 + minutes * 60 else -(hours * 3600 + minutes * 60);
            var suffix := (if plus then "+" else "-") + TwoDigits(hours) + ":" + TwoDigits(minutes);
            Parse(CivilText(d, t) + suffix) ==
            if Instant(d, t) < offset then NotATimestamp else Millis((Instant(d, t) - offset) * 1000)
  {
    hide *;
    var suffix := (if plus then "+" else "-") + TwoDigits(hours) + ":" + TwoDigits(minutes);
    OffsetEnds(plus, hours, minutes);
    ParseStamp(d, t, suffix);
    OffsetValue(CivilText(d, t), plus, hours, minutes);
  }

  lemma OffsetEnds(plus: bool, hours: nat, minutes: nat)
    requires hours < 100 && minutes < 100
    ensures var suffix := (if plus then "+" else "-") + TwoDigits(hours) + ":" + TwoDigits(minutes);
            |suffix| == 6 && !IsSpace(suffix[5])
  {
    hide TwoDigits;
    var suffix := (if plus then "+" else "-") + TwoDigits(hours) + ":" + TwoDigits(minutes);
    assert suffix[5] == TwoDigits(minutes)[1];
  }

  lemma OffsetValue(head: string, plus: bool, hours: nat, minutes: nat)
    requires hours < 100 && minutes < 100
    ensures var suffix := (if plus then "+" else "-") + TwoDigits(hours) + ":" + TwoDigits(minutes);
            TrailingOffset(head + suffix)
            == Some(if plus then hours * 3600 + minutes * 60 else -(hours * 3600 + minutes * 60))
  {
    hide TrailingOffset, ParseI64, TwoDigits, AllDigits;
    var sign := if plus then "+" else "-";
    var suffix := sign + TwoDigits(hours) + ":" + TwoDigits(minutes);
    ReadTwo(hours);
    ReadTwo(minutes);
    OffsetSuffix(head, suffix, TwoDigits(hours), TwoDigits(minutes));
    assert suffix[0] == sign[0];
  }

  lemma OffsetSuffix(head: string, suffix: string, hours: string, minutes: string)
    requires |hours| == |minutes| == 2 && AllDigits(hours) && AllDigits(minutes)
    requires suffix == "+" + hours + ":" + minutes || suffix == "-" + hours + ":" + minutes
    requires ParseI64(hours).Some? && ParseI64(minutes).Some?
    ensures var size := ParseI64(hours).value * 3600 + ParseI64(minutes).value * 60;
            TrailingOffset(head + suffix) == Some(if suffix[0] == '+' then size else -size)
  {
    var text := head + suffix;
    var tail := text[|text| - 6..];
    assert tail == suffix;
    assert tail[1..3] == hours && tail[4..6] == minutes;
    assert text[|text| - 1] == minutes[1] && text[|text| - 6] == suffix[0];
  }

  /** Printing any instant of the second a real date names gives that date. */
  lemma FormatInstant(d: Date, t: Clock, extra: nat)
    requires ValidDate(d) && d.year >= 1970 && ValidClock(t) && extra < 1000
    ensures Instant(d, t) >= 0
    ensures Format(Instant(d, t) * 1000 + extra) == CivilText(d, t) + "Z"
  {
    InstantSign(d, t);
    var seconds := t.hour * 3600 + t.minute * 60 + t.second;
    InstantParts(DaysFromCivil(d), seconds, extra);
    CivilOfDays(d);
    ClockParts(t);
    FormatParts(Instant(d, t) * 1000 + extra, DaysFromCivil(d), seconds, d, t);
  }

  lemma ClockParts(t: Clock)
    requires ValidClock(t)
    ensures ClockOf(t.hour * 3600 + t.minute * 60 + t.second) == t
    ensures t.hour * 3600 + t.minute * 60 + t.second < 86_400
  {
  }

  lemma FormatParts(millis: nat, days: nat, seconds: nat, d: Date, t: Clock)
    requires millis / 1000 / 86_400 == days && millis / 1000 % 86_400 == seconds
    requires CivilFromDays(days) == d && ClockOf(seconds) == t && ValidDate(d) && d.year >= 0
    ensures Format(millis) == CivilText(d, t) + "Z"
  {
  }

  lemma InstantParts(days: nat, seconds: nat, extra: nat)
    requires seconds < 86_400 && extra < 1000
    ensures var millis := (days * 86_400 + seconds) * 1000 + extra;
            millis / 1000 / 86_400 == days && millis / 1000 % 86_400 == seconds
  {
    var millis := (days * 86_400 + seconds) * 1000 + extra;
    assert millis / 1000 == days * 86_400 + seconds;
  }

  // Years of five digits and more push the fields out of their positions.

  function Power10(k: nat): (p: nat)
    ensures p >= 1
  {
    if k == 0 then 1 else 10 * Power10(k - 1)
  }

  lemma {:induction false} DecimalLength(n: nat, k: nat)
    requires k >= 1
    ensures |Decimal(n)| <= k <==> n < Power10(k)
  {
    if k == 1 {
      assert Power10(1) == 10;
    } else if n >= 10 {
      DecimalLength(n / 10, k - 1);
    }
  }

  lemma {:induction false} ValueBound(s: string)
    requires AllDigits(s)
    ensures Value(s) < Power10(|s|)
  {
    if s != "" {
      ValueBound(s[..|s| - 1]);
    }
  }

  lemma NumberBound(s: string)
    requires ParseU64(s).Some?
    ensures |s| == 4 ==> ParseU64(s).value < 10_000
    ensures |s| == 2 ==> ParseU64(s).value < 100
  {
    var digits := if |s| > 1 && s[0] == '+' then s[1..] else s;
    ValueBound(digits);
    SmallPowers();
  }

  lemma SmallPowers()
    ensures Power10(1) == 10 && Power10(2) == 100 && Power10(3) == 1000 && Power10(4) == 10_000
    ensures Power10(5) == 100_000 && Power10(6) == 1_000_000
  {
    assert Power10(1) == 10 * Power10(0);
    assert Power10(2) == 10 * Power10(1);
    assert Power10(3) == 10 * Power10(2);
    assert Power10(4) == 10 * Power10(3);
    assert Power10(5) == 10 * Power10(4);
    assert Power10(6) == 10 * Power10(5);
  }

  lemma FieldsBounded(text: string)
    requires ReadFields(text).Some?
    ensures var f := ReadFields(text).value;
            1 <= f.month <= 12 && Seconds(f) < 300_000_000 * 86_400
  {
    NumberBound(text[0..4]);
    NumberBound(text[8..10]);
    NumberBound(text[11..13]);
    NumberBound(text[14..16]);
    NumberBound(text[17..19]);
    var f := ReadFields(text).value;
    SecondsBounded(f);
  }

  lemma SecondsBounded(f: Fields)
    requires 1 <= f.month <= 12 && f.year < 10_000 && 1 <= f.day <= 31
    requires f.clock.hour < 100 && f.clock.minute < 100 && f.clock.second < 100
    ensures Seconds(f) < 300_000_000 * 86_400
  {
    assert DaysFromCivil(Date(f.year, f.month, f.day)) < 4_000_000;
  }

  /** A year of five or six digits leaves a `-` inside the month field; a
      longer one makes the parser read an instant long before the printed one. */
  lemma LongYear(year: string, rest: string, text: string)
    requires AllDigits(year) && |year| >= 5
    requires text == year + "-" + rest && |rest| >= 2 && !IsSpace(text[|text| - 1])
    ensures TrimEnd(TrimStart(text)) == text && ParseU64(text) == None
    ensures |year| <= 6 ==> ReadFields(text) == None
  {
    Untrimmed(text);
    NotANumber(text, |year|);
    if |year| == 5 {
      assert text[5..7][0] == '-';
    } else if |year| == 6 {
      assert text[5..7][1] == '-';
      NotANumber(text[5..7], 1);
    }
  }

  lemma LongYearResult(d: Date, t: Clock)
    requires ValidDate(d) && d.year >= 10_000
    ensures var result := Parse(CivilText(d, t) + "Z");
            result.Millis? ==> d.year >= 1_000_000 && result.value < 300_000_000 * 86_400_000
  {
    hide Parse, TrimEnd, TrimStart, ParseU64, TrailingOffset, ReadFields, Decimal, CivilText, Padded;
    var text := CivilText(d, t) + "Z";
    DecimalLength(d.year, 4);
    DecimalLength(d.year, 6);
    SmallPowers();
    var rest := AfterYear(d, t);
    LongYear(Decimal(d.year), rest, text);
    assert CivilText(d, t) + ("" + "Z") == text;
    UtcSuffix(CivilText(d, t), "");
    UtcBounded(text);
  }

  /** The year of five digits or more stands unpadded. */
  lemma AfterYear(d: Date, t: Clock) returns (rest: string)
    requires d.year >= 10_000
    ensures CivilText(d, t) + "Z" == Decimal(d.year) + "-" + rest
    ensures |rest| >= 2 && rest[|rest| - 1] == 'Z'
  {
    hide Decimal, Padded;
    UnpaddedYear(d.year);
    var year, month, day := Decimal(d.year), Padded(d.month, 2), Padded(d.day, 2);
    var clock := Padded(t.hour, 2) + ":" + Padded(t.minute, 2) + ":" + Padded(t.second, 2);
    rest := month + "-" + day + "T" + clock + "Z";
    assert CivilText(d, t) == year + "-" + (month + "-" + day + "T" + clock);
    assert year + "-" + (month + "-" + day + "T" + clock) + "Z" == year + "-" + rest;
  }

  lemma UnpaddedYear(year: nat)
    requires year >= 10_000
    ensures Padded(year, 4) == Decimal(year)
  {
    hide Decimal;
    DecimalLength(year, 4);
    SmallPowers();
  }

  lemma UtcBounded(text: string)
    requires TrimEnd(TrimStart(text)) == text && ParseU64(text) == None && TrailingOffset(text) == Some(0)
    ensures Parse(text).Millis? ==> ReadFields(text).Some? && Parse(text).value < 300_000_000 * 86_400_000
  {
    hide TrimEnd, TrimStart, ParseU64, TrailingOffset, ReadFields, Seconds;
    var fields := ReadFields(text);
    if fields.Some? {
      FieldsBounded(text);
      ParseFields(text, fields.value);
    }
  }

  lemma FormatShape(millis: nat) returns (d: Date, t: Clock, instant: nat)
    ensures ValidDate(d) && d.year >= 1970 && ValidClock(t)
    ensures Format(millis) == CivilText(d, t) + "Z"
    ensures Instant(d, t) == instant && instant * 1000 <= millis < instant * 1000 + 1000
  {
    instant := millis / 1000;
    var days, seconds := instant / 86_400, instant % 86_400;
    d, t := CivilFromDays(days), ClockOf(seconds);
    CivilSuccessor(days);
    YearsFromEpoch(days);
    DaysOfCivil(days);
    FormatParts(millis, days, seconds, d, t);
    ClockSum(seconds);
    InstantSum(d, t, days, seconds);
  }

  lemma InstantSum(d: Date, t: Clock, days: nat, seconds: nat)
    requires 1 <= d.month <= 12 && DaysFromCivil(d) == days
    requires t.hour * 3600 + t.minute * 60 + t.second == seconds
    ensures Instant(d, t) == days * 86_400 + seconds
  {
  }

  lemma ClockSum(seconds: nat)
    requires seconds < 86_400
    ensures var t := ClockOf(seconds);
            ValidClock(t) && t.hour * 3600 + t.minute * 60 + t.second == seconds
  {
  }

  lemma InstantYear(d: Date, t: Clock)
    requires ValidDate(d) && ValidClock(t)
    ensures Instant(d, t) < YEAR_10000_MILLIS / 1000 <==> d.year < 10_000
    ensures d.year >= 1_000_000 ==> Instant(d, t) >= 300_000_000 * 86_400
  {
    YearBound(d);
  }

  lemma PrintThenParseAt(d: Date, t: Clock, instant: nat, text: string)
    requires ValidDate(d) && d.year >= 1970 && ValidClock(t) && text == CivilText(d, t) + "Z"
    requires Instant(d, t) == instant
    ensures Parse(text) == Millis(instant * 1000) <==> instant < YEAR_10000_MILLIS / 1000
  {
    InstantYear(d, t);
    if d.year < 10_000 {
      ParseUtc(d, t, "");
      assert "" + "Z" == "Z";
    } else {
      LongYearResult(d, t);
    }
  }

  lemma WholeSeconds(millis: nat, instant: nat)
    requires instant * 1000 <= millis < instant * 1000 + 1000
    ensures millis - millis % 1000 == instant * 1000
    ensures millis < YEAR_10000_MILLIS <==> instant < YEAR_10000_MILLIS / 1000
  {
  }

  /** Parsing undoes printing, up to the dropped milliseconds, exactly for the
      instants before the year 10000. */
  lemma PrintThenParse(millis: nat)
    ensures Parse(Format(millis)) == Millis(millis - millis % 1000) <==> millis < YEAR_10000_MILLIS
  {
    hide *;
    var d, t, instant := FormatShape(millis);
    PrintThenParseAt(d, t, instant, CivilText(d, t) + "Z");
    WholeSeconds(millis, instant);
  }

  // ------------------------------------------------ canonical texts

  predicate TwoDigitField(text: string, i: nat)
    requires i + 2 <= |text|
  {
    IsDigit(text[i]) && IsDigit(text[i + 1])
  }

  function FieldValue(text: string, i: nat): nat
    requires i + 2 <= |text| && TwoDigitField(text, i)
  {
    10 * DigitValue(text[i]) + DigitValue(text[i + 1])
  }

  /** The shape `YYYY-MM-DDTHH:MM:SSZ`. */
  predicate CanonicalShape(text: string) {
    |text| == 20
    && TwoDigitField(text, 0) && TwoDigitField(text, 2) && text[4] == '-'
    && TwoDigitField(text, 5) && text[7] == '-' && TwoDigitField(text, 8) && text[10] == 'T'
    && TwoDigitField(text, 11) && text[13] == ':' && TwoDigitField(text, 14) && text[16] == ':'
    && TwoDigitField(text, 17) && text[19] == 'Z'
  }

  function TextDate(text: string): Date
    requires CanonicalShape(text)
  {
    Date(100 * FieldValue(text, 0) + FieldValue(text, 2), FieldValue(text, 5), FieldValue(text, 8))
  }

  function TextClock(text: string): Clock
    requires CanonicalShape(text)
  {
    Clock(FieldValue(text, 11), FieldValue(text, 14), FieldValue(text, 17))
  }

  /** A canonical text naming a real date from 1970 on and a real time. */
  predicate Canonical(text: string) {
    CanonicalShape(text) && ValidDate(TextDate(text)) && TextDate(text).year >= 1970
    && ValidClock(TextClock(text))
  }

  lemma FieldDigits(text: string, i: nat)
    requires i + 2 <= |text| && TwoDigitField(text, i)
    ensures TwoDigits(FieldValue(text, i)) == text[i..i + 2]
  {
  }

  lemma Pieces(text: string)
    requires CanonicalShape(text)
    ensures text == text[0..2] + text[2..4] + "-" + text[5..7] + "-" + text[8..10] + "T"
                    + text[11..13] + ":" + text[14..16] + ":" + text[17..19] + "Z"
  {
  }

  lemma CanonicalText(text: string)
    requires Canonical(text)
    ensures Printable(TextDate(text), TextClock(text))
    ensures text == CivilText(TextDate(text), TextClock(text)) + "Z"
  {
    hide TwoDigits, FourDigits, CivilText, ValidDate;
    var d, t := TextDate(text), TextClock(text);
    FieldDigits(text, 0);
    FieldDigits(text, 2);
    FieldDigits(text, 5);
    FieldDigits(text, 8);
    FieldDigits(text, 11);
    FieldDigits(text, 14);
    FieldDigits(text, 17);
    CivilTextShape(d, t);
    YearDigits(FieldValue(text, 0), FieldValue(text, 2));
    Pieces(text);
  }

  lemma YearDigits(high: nat, low: nat)
    requires high < 100 && low < 100
    ensures FourDigits(100 * high + low) == TwoDigits(high) + TwoDigits(low)
  {
  }

  /** The canonical texts are what the printer prints of real dates and times. */
  lemma CanonicalExactly(text: string)
    ensures Canonical(text) <==> exists d: Date, t: Clock :: IsPrintOf(text, d, t)
  {
    hide Canonical, IsPrintOf;
    if Canonical(text) {
      CanonicalText(text);
      PrintOfParts(text);
    }
    if d: Date, t: Clock :| IsPrintOf(text, d, t) {
      PrintIsCanonical(text, d, t);
    }
  }

  predicate IsPrintOf(text: string, d: Date, t: Clock) {
    ValidDate(d) && 1970 <= d.year < 10_000 && t.hour < 24 && t.minute < 60 && t.second < 60
    && text == CivilText(d, t) + "Z"
  }

  lemma PrintOfParts(text: string)
    requires Canonical(text) && text == CivilText(TextDate(text), TextClock(text)) + "Z"
    ensures IsPrintOf(text, TextDate(text), TextClock(text))
  {
    hide CivilText, ValidDate;
  }

  lemma PrintIsCanonical(text: string, d: Date, t: Clock)
    requires IsPrintOf(text, d, t)
    ensures Canonical(text)
  {
    hide CivilText, TwoDigits, FourDigits, ValidDate, CanonicalShape, TextDate, TextClock;
    CivilTextShape(d, t);
    RealBounds(d);
    ShapeOf(d, t, text);
  }

  lemma RealBounds(d: Date)
    requires ValidDate(d)
    ensures 1 <= d.month <= 12 && 1 <= d.day <= 31
  {
  }

  lemma ShapeOf(d: Date, t: Clock, text: string)
    requires 0 <= d.year < 10_000 && 1 <= d.month <= 12 && 1 <= d.day <= 31 && ValidClock(t)
    requires text == FourDigits(d.year) + "-" + TwoDigits(d.month) + "-" + TwoDigits(d.day) + "T"
                     + TwoDigits(t.hour) + ":" + TwoDigits(t.minute) + ":" + TwoDigits(t.second) + "Z"
    ensures CanonicalShape(text) && TextDate(text) == d && TextClock(text) == t
  {
    hide DigitValue, TwoDigits, FourDigits, IsDigit;
    var high, low := d.year / 100, d.year % 100;
    YearDigits(high, low);
    TwoRead(high);
    TwoRead(low);
    TwoRead(d.month);
    TwoRead(d.day);
    TwoRead(t.hour);
    TwoRead(t.minute);
    TwoRead(t.second);
    Placed(text, TwoDigits(high), TwoDigits(low), TwoDigits(d.month), TwoDigits(d.day),
           TwoDigits(t.hour), TwoDigits(t.minute), TwoDigits(t.second));
  }

  lemma Placed(text: string, a: string, b: string, c: string, d: string, e: string, f: string, g: string)
    requires |a| == |b| == |c| == |d| == |e| == |f| == |g| == 2
    requires text == (a + b) + "-" + c + "-" + d + "T" + e + ":" + f + ":" + g + "Z"
    ensures |text| == 20 && text[4] == text[7] == '-' && text[10] == 'T' && text[13] == text[16] == ':'
    ensures text[19] == 'Z'
    ensures text[0] == a[0] && text[1] == a[1] && text[2] == b[0] && text[3] == b[1]
    ensures text[5] == c[0] && text[6] == c[1] && text[8] == d[0] && text[9] == d[1]
    ensures text[11] == e[0] && text[12] == e[1] && text[14] == f[0] && text[15] == f[1]
    ensures text[17] == g[0] && text[18] == g[1]
  {
  }

  lemma TwoRead(n: nat)
    requires n < 100
    ensures IsDigit(TwoDigits(n)[0]) && IsDigit(TwoDigits(n)[1])
    ensures 10 * DigitValue(TwoDigits(n)[0]) + DigitValue(TwoDigits(n)[1]) == n
  {
  }

  /** Printing undoes parsing on every canonical text, and any instant of the
      second it names prints as that text. */
  lemma ParseThenPrint(text: string, parsed: Parsed, extra: nat)
    requires Canonical(text) && parsed == Parse(text) && extra < 1000
    ensures parsed.Millis?
    ensures Format(parsed.value + extra) == text
  {
    var d, t := TextDate(text), TextClock(text);
    CanonicalText(text);
    StampRoundTrip(d, t, text, parsed, extra);
  }

  lemma StampRoundTrip(d: Date, t: Clock, text: string, parsed: Parsed, extra: nat)
    requires Printable(d, t) && d.year >= 1970 && ValidClock(t) && extra < 1000
    requires text == CivilText(d, t) + "Z" && parsed == Parse(text)
    ensures parsed.Millis?
    ensures Format(parsed.value + extra) == text
  {
    StampParse(d, t, text, parsed);
    StampPrint(d, t, text, parsed.value + extra, extra);
  }

  lemma StampParse(d: Date, t: Clock, text: string, parsed: Parsed)
    requires Printable(d, t) && d.year >= 1970
    requires text == CivilText(d, t) + "Z" && parsed == Parse(text)
    ensures Instant(d, t) >= 0 && parsed == Millis(Instant(d, t) * 1000)
  {
    assert CivilText(d, t) + ("" + "Z") == text;
    ParseUtc(d, t, "");
  }

  lemma StampPrint(d: Date, t: Clock, text: string, millis: nat, extra: nat)
    requires ValidDate(d) && d.year >= 1970 && ValidClock(t) && extra < 1000
    requires text == CivilText(d, t) + "Z" && millis == Instant(d, t) * 1000 + extra
    ensures Format(millis) == text
  {
    hide *;
    FormatInstant(d, t, extra);
  }

  // ------------------------------------------------ bare numbers

  /** ASCII white space. */
  predicate Blanks(text: string) {
    forall i :: 0 <= i < |text| ==>
      text[i] == ' ' || text[i] == '\t' || text[i] == '\n' || text[i] as int == 0x0B || text[i] as int == 0x0C
      || text[i] == '\r'
  }

  lemma {:induction false} TrimStartBlanks(before: string, text: string)
    requires Blanks(before) && (text == "" || !IsSpace(text[0]))
    ensures TrimStart(before + text) == text
  {
    if before == "" {
      assert before + text == text;
    } else {
      assert (before + text)[1..] == before[1..] + text && (before + text)[0] == before[0];
      TrimStartBlanks(before[1..], text);
    }
  }

  lemma {:induction false} TrimEndBlanks(text: string, after: string)
    requires Blanks(after) && (text == "" || !IsSpace(text[|text| - 1]))
    ensures TrimEnd(text + after) == text
    decreases |after|
  {
    var n := |after|;
    if n == 0 {
      assert text + after == text;
    } else {
      assert (text + after)[..|text| + n - 1] == text + after[..n - 1];
      assert (text + after)[|text| + n - 1] == after[n - 1];
      TrimEndBlanks(text, after[..n - 1]);
    }
  }

  /** White space around a text is not read. */
  lemma BlanksAround(before: string, text: string, after: string)
    requires Blanks(before) && Blanks(after)
    requires text != "" && !IsSpace(text[0]) && !IsSpace(text[|text| - 1])
    ensures Parse(before + text + after) == Parse(text)
  {
    hide *;
    NoBlanks();
    Around(before, text, after);
    Around("", text, "");
    assert "" + text + "" == text;
    ParseTrimmed(before + text + after, text);
    ParseTrimmed(text, text);
  }

  lemma NoBlanks()
    ensures Blanks("")
  {
  }

  lemma Around(before: string, text: string, after: string)
    requires Blanks(before) && Blanks(after)
    requires text != "" && !IsSpace(text[0]) && !IsSpace(text[|text| - 1])
    ensures TrimEnd(TrimStart(before + text + after)) == text
  {
    hide *;
    assert before + text + after == before + (text + after) && (text + after)[0] == text[0];
    TrimStartBlanks(before, text + after);
    TrimEndBlanks(text, after);
  }

  lemma ParseTrimmed(a: string, b: string)
    requires TrimEnd(TrimStart(a)) == b && TrimEnd(TrimStart(b)) == b
    ensures Parse(a) == Parse(b)
  {
    hide TrimStart, TrimEnd, ParseU64, ReadFields, TrailingOffset;
  }

  /** A bare number is itself the milliseconds, with a `+` before it or without,
      and with white space around it. */
  lemma BareMillis(digits: string, before: string, after: string)
    requires digits != "" && AllDigits(digits) && Value(digits) < U64_LIMIT && Blanks(before) && Blanks(after)
    ensures Parse(before + digits + after) == Millis(Value(digits))
    ensures Parse(before + ("+" + digits) + after) == Millis(Value(digits))
  {
    hide TrimStart, TrimEnd, Value, ReadFields, TrailingOffset, Blanks;
    assert !IsSpace(digits[0]) && !IsSpace(digits[|digits| - 1]);
    BlanksAround(before, digits, after);
    BlanksAround(before, "+" + digits, after);
    Untrimmed(digits);
    Untrimmed("+" + digits);
    assert ("+" + digits)[1..] == digits;
    assert digits[0] != '+';
  }

  /** A printed number is read back. */
  lemma BareNumberReads(n: nat)
    requires n < U64_LIMIT
    ensures Parse(Decimal(n)) == Millis(n)
  {
    hide *;
    DecimalValue(n);
    NoBlanks();
    BareMillis(Decimal(n), "", "");
    assert "" + Decimal(n) + "" == Decimal(n);
  }

  /** A bare number is one of 64 bits, and no larger. */
  lemma BareRange(digits: string)
    requires digits != "" && AllDigits(digits)
    ensures ParseU64(digits) == if Value(digits) < 0x1_0000_0000_0000_0000 then Some(Value(digits)) else None
  {
    hide Value;
    assert digits[0] != '+';
  }

  predicate Inside(text: string, i: nat)
    requires i < |text|
  {
    0x80 <= text[i] as int <= 0xBF
  }

  /** An offset is not read from a place inside a character. */
  lemma NoOffsetInside(text: string)
    requires |text| >= 6 && text[|text| - 1] != 'Z' && text[|text| - 1] != 'z'
    ensures Inside(text, |text| - 6) ==> TrailingOffset(text).None?
    ensures (text[|text| - 6] == '+' || text[|text| - 6] == '-')
            && (Inside(text, |text| - 5) || Inside(text, |text| - 3) || Inside(text, |text| - 2)) ==>
              TrailingOffset(text).None?
    ensures !Inside(text, |text| - 6) && text[|text| - 6] != '+' && text[|text| - 6] != '-' ==>
              TrailingOffset(text) == Some(0)
  {
    hide ParseI64;
    var tail := text[|text| - 6..];
    assert tail[0] == text[|text| - 6] && tail[1] == text[|text| - 5] && tail[3] == text[|text| - 3];
    assert tail[4] == text[|text| - 2];
  }
}
