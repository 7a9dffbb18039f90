/** The timestamp grammar of `parse_timestamp`, a subset of section 5.6 of RFC 3339, and the
    instant a text denotes. Seconds are real numbers. */
module Timestamp {
  import opened Wrappers
  import opened Strings
  import opened Calendar

  // ----- Decimal numbers -----

  predicate IsDigit(c: char) {
    '0' <= c <= '9'
  }

  predicate AllDigits(s: string) {
    forall i :: 0 <= i < |s| ==> IsDigit(s[i])
  }

  function DigitValue(c: char): int
    requires IsDigit(c)
  {
    c as int - '0' as int
  }

  function DigitChar(n: int): (c: char)
    requires 0 <= n < 10
    ensures IsDigit(c) && DigitValue(c) == n
  {
    (n + '0' as int) as char
  }

  function Number(digits: string): nat
    requires AllDigits(digits)
  {
    if digits == "" then 0
    else 10 * Number(digits[..|digits| - 1]) + DigitValue(digits[|digits| - 1])
  }

  /** Two digits. */
  function Two(n: int): (s: string)
    requires 0 <= n < 100
    ensures |s| == 2 && AllDigits(s)
  {
    [DigitChar(n / 10), DigitChar(n % 10)]
  }

  /** Four digits. */
  function Four(n: int): (s: string)
    requires 0 <= n < 10000
    ensures |s| == 4 && AllDigits(s)
  {
    Two(n / 100) + Two(n % 100)
  }

  lemma NumberOfTwo(a: char, b: char)
    requires IsDigit(a) && IsDigit(b)
    ensures Number([a, b]) == 10 * DigitValue(a) + DigitValue(b)
  {
    assert [a, b][..1] == [a] && [a][..0] == "";
    assert Number([a]) == DigitValue(a);
  }

  lemma TwoParses(n: int)
    requires 0 <= n < 100
    ensures Number(Two(n)) == n
  {
    NumberOfTwo(DigitChar(n / 10), DigitChar(n % 10));
  }

  lemma TwoInRange(s: string)
    requires DigitsOfLength(s, 2)
    ensures Number(s) < 100 && s == Two(Number(s))
  {
    NumberOfTwo(s[0], s[1]);
    assert s == [s[0], s[1]];
  }

  lemma NumberOfFour(s: string)
    requires DigitsOfLength(s, 4)
    ensures Number(s) == 100 * Number(s[..2]) + Number(s[2..])
  {
    NumberOfTwo(s[0], s[1]);
    NumberOfTwo(s[2], s[3]);
    assert s[..2] == [s[0], s[1]] && s[2..] == [s[2], s[3]];
    assert s[..3][..2] == s[..2];
    assert Number(s[..3]) == 10 * Number(s[..2]) + DigitValue(s[2]);
  }

  lemma FourParses(n: int)
    requires 0 <= n < 10000
    ensures Number(Four(n)) == n
  {
    NumberOfFour(Four(n));
    assert Four(n)[..2] == Two(n / 100) && Four(n)[2..] == Two(n % 100);
    TwoParses(n / 100);
    TwoParses(n % 100);
  }

  lemma FourInRange(s: string)
    requires DigitsOfLength(s, 4)
    ensures Number(s) < 10000 && s == Four(Number(s))
  {
    NumberOfFour(s);
    TwoInRange(s[..2]);
    TwoInRange(s[2..]);
    var high, low := Number(s[..2]), Number(s[2..]);
    assert (100 * high + low) / 100 == high && (100 * high + low) % 100 == low;
    assert s == s[..2] + s[2..];
  }

  /** The value of the digits after a decimal point. */
  function Fraction(digits: string): (value: real)
    requires AllDigits(digits)
    ensures 0.0 <= value < 1.0
  {
    if digits == "" then 0.0 else (DigitValue(digits[0]) as real + Fraction(digits[1..])) / 10.0
  }

  // ----- The parser -----

  predicate IsAscii(s: string) {
    forall i :: 0 <= i < |s| ==> s[i] as int < 128
  }

  predicate DigitsOfLength(s: string, n: nat) {
    |s| == n && AllDigits(s)
  }

  function ParseDate(text: string): Option<Date> {
    var parts := Split(text, '-');
    if |parts| != 3 || !DigitsOfLength(parts[0], 4) || !DigitsOfLength(parts[1], 2) || !DigitsOfLength(parts[2], 2)
    then None
    else
      var year, month, day := Number(parts[0]), Number(parts[1]), Number(parts[2]);
      if !(1 <= month <= 12) || !(1 <= day <= MonthLength(year, month)) then None else Some(Date(year, month, day))
  }

  /** The clock part of the text after the `T`, and the zone's offset in seconds. */
  function ParseZone(time: string): Option<(string, int)> {
    if time != "" && time[|time| - 1] == 'Z' then Some((time[..|time| - 1], 0))
    else if |time| < 6 then None
    else
      var clock, zone := time[..|time| - 6], time[|time| - 6..];
      if (zone[0] != '+' && zone[0] != '-') || zone[3] != ':' || !AllDigits(zone[1..3]) || !AllDigits(zone[4..6])
      then None
      else
        var hours, minutes := Number(zone[1..3]), Number(zone[4..6]);
        if hours > 23 || minutes > 59 then None
        else Some((clock, (if zone[0] == '+' then 1 else -1) * (hours * 60 + minutes) * 60))
  }

  function ParseSecond(text: string): Option<real> {
    var (whole, fraction) := match SplitOnce(text, '.')
      case None => (text, None)
      case Some((head, tail)) => (head, Some(tail));
    if !DigitsOfLength(whole, 2) || (fraction.Some? && (fraction.value == "" || !AllDigits(fraction.value)))
    then None
    else
      var value := Number(whole) as real + (if fraction.Some? then Fraction(fraction.value) else 0.0);
      if 0.0 <= value < 60.0 then Some(value) else None
  }

  /** Whole minutes and seconds since midnight. */
  function ParseClock(text: string): Option<(int, real)> {
    var parts := Split(text, ':');
    if |parts| != 3 || !DigitsOfLength(parts[0], 2) || !DigitsOfLength(parts[1], 2) then None
    else
      var second :- ParseSecond(parts[2]);
      var hour, minute := Number(parts[0]), Number(parts[1]);
      if hour >= 24 || minute >= 60 then None else Some((hour * 60 + minute, second))
  }

  /** Milliseconds since 1970-01-01T00:00:00Z. */
  function ParseTimestamp(text: string): Option<real> {
    if !IsAscii(text) then None
    else
      var (dateText, time) :- SplitOnce(text, 'T');
      var date :- ParseDate(dateText);
      var (clockText, offset) :- ParseZone(time);
      var clock :- ParseClock(clockText);
      Some(Milliseconds(date, offset, clock))
  }

  function Milliseconds(date: Date, offset: int, clock: (int, real)): real {
    DayNumber(date) as real * 86400000.0 + (clock.0 * 60 - offset) as real * 1000.0 + clock.1 * 1000.0
  }

  // ----- What a text denotes -----

  datatype Zone = Utc | Offset(negative: bool, hours: int, minutes: int)

  datatype Stamp = Stamp(date: Date, hour: int, minute: int, second: int, fraction: Option<string>, zone: Zone)

  predicate ValidZone(zone: Zone) {
    zone.Offset? ==> 0 <= zone.hours <= 23 && 0 <= zone.minutes <= 59
  }

  predicate ValidSecond(second: int, fraction: Option<string>) {
    0 <= second < 60 && (fraction.Some? ==> fraction.value != "" && AllDigits(fraction.value))
  }

  predicate ValidDate(date: Date) {
    Valid(date) && 0 <= date.year <= 9999
  }

  predicate ValidStamp(stamp: Stamp) {
    && ValidDate(stamp.date)
    && 0 <= stamp.hour < 24 && 0 <= stamp.minute < 60
    && ValidSecond(stamp.second, stamp.fraction)
    && ValidZone(stamp.zone)
  }

  function PrintDate(date: Date): string
    requires ValidDate(date)
  {
    Join([Four(date.year), Two(date.month), Two(date.day)], '-')
  }

  function PrintSecond(second: int, fraction: Option<string>): string
    requires ValidSecond(second, fraction)
  {
    Two(second) + (if fraction.Some? then "." + fraction.value else "")
  }

  function PrintClock(hour: int, minute: int, second: string): string
    requires 0 <= hour < 100 && 0 <= minute < 100
  {
    Join([Two(hour), Two(minute), second], ':')
  }

  function PrintZone(zone: Zone): string
    requires ValidZone(zone)
  {
    match zone
    case Utc => "Z"
    case Offset(negative, hours, minutes) => [if negative then '-' else '+'] + Two(hours) + ":" + Two(minutes)
  }

  function Print(stamp: Stamp): string
    requires ValidStamp(stamp)
  {
    PrintDate(stamp.date) + "T"
    + (PrintClock(stamp.hour, stamp.minute, PrintSecond(stamp.second, stamp.fraction)) + PrintZone(stamp.zone))
  }

  /** How far the zone's local time runs ahead of UTC, in minutes. */
  function Ahead(zone: Zone): int {
    match zone
    case Utc => 0
    case Offset(negative, hours, minutes) => if negative then -(hours * 60 + minutes) else hours * 60 + minutes
  }

  /** One tenth, one hundredth and so on. */
  function Place(n: nat): real {
    if n == 0 then 1.0 else Place(n - 1) / 10.0
  }

  function Units(count: nat, unit: real): real {
    if count == 0 then 0.0 else unit + Units(count - 1, unit)
  }

  /** Each digit counts the units of its place. */
  function DecimalPlaces(digits: string): real
    requires AllDigits(digits)
  {
    if digits == "" then 0.0
    else DecimalPlaces(digits[..|digits| - 1]) + Units(DigitValue(digits[|digits| - 1]), Place(|digits|))
  }

  function SecondValue(second: int, fraction: Option<string>): real
    requires ValidSecond(second, fraction)
  {
    second as real + (if fraction.Some? then DecimalPlaces(fraction.value) else 0.0)
  }

  /** The instant of a stamp whose date is `days` days after 1970-01-01, in milliseconds of UTC. */
  function Instant(stamp: Stamp, days: int): real
    requires ValidStamp(stamp)
  {
    1000.0 * (SecondValue(stamp.second, stamp.fraction)
              + 60.0 * (stamp.minute + 60 * (stamp.hour + 24 * days) - Ahead(stamp.zone)) as real)
  }

  // ----- The digits after the point -----

  lemma {:induction false} UnitsShift(count: nat, unit: real)
    ensures Units(count, unit / 10.0) == Units(count, unit) / 10.0
  {
    if count > 0 {
      UnitsShift(count - 1, unit);
    }
  }

  lemma {:induction false} UnitsOfOne(count: nat)
    ensures Units(count, 1.0) == count as real
  {
    if count > 0 {
      UnitsOfOne(count - 1);
    }
  }

  /** A digit put in front shifts the others by one place. */
  lemma {:induction false} PlacesShift(c: char, s: string)
    requires IsDigit(c) && AllDigits(s) && AllDigits([c] + s)
    ensures DecimalPlaces([c] + s) == (DigitValue(c) as real + DecimalPlaces(s)) / 10.0
  {
    var n, whole := |s| - 1, [c] + s;
    if s == "" {
      assert whole == [c] && whole[..0] == "";
      UnitsShift(DigitValue(c), 1.0);
      UnitsOfOne(DigitValue(c));
      assert Place(1) == Place(0) / 10.0;
    } else {
      assert whole[..n + 1] == [c] + s[..n] && whole[n + 1] == s[n];
      PlacesShift(c, s[..n]);
      UnitsShift(DigitValue(s[n]), Place(|s|));
      assert Place(|whole|) == Place(|s|) / 10.0;
    }
  }

  /** The parser's value of the digits after the point is that of their places. */
  lemma {:induction false} FractionIsPlaces(digits: string)
    requires AllDigits(digits)
    ensures Fraction(digits) == DecimalPlaces(digits)
  {
    if digits != "" {
      FractionIsPlaces(digits[1..]);
      assert digits == [digits[0]] + digits[1..];
      PlacesShift(digits[0], digits[1..]);
    }
  }

  // ----- Each part parses exactly what it prints -----

  lemma ThreeParts(a: string, b: string, c: string, sep: char)
    requires sep !in a && sep !in b && sep !in c
    ensures Split(Join([a, b, c], sep), sep) == [a, b, c]
  {
    SplitJoin([a, b, c], sep);
  }

  lemma DateParsesWhatItPrints(text: string, date: Date)
    ensures ParseDate(text) == Some(date) <==> ValidDate(date) && text == PrintDate(date)
  {
    var parts := Split(text, '-');
    JoinSplit(text, '-');
    if ValidDate(date) && text == PrintDate(date) {
      ThreeParts(Four(date.year), Two(date.month), Two(date.day), '-');
      FourParses(date.year);
      TwoParses(date.month);
      TwoParses(date.day);
    }
    if ParseDate(text) == Some(date) {
      assert parts == [parts[0], parts[1], parts[2]];
      FourInRange(parts[0]);
      TwoInRange(parts[1]);
      TwoInRange(parts[2]);
    }
  }

  lemma SecondParsesWhatItPrints(second: int, fraction: Option<string>)
    requires ValidSecond(second, fraction)
    ensures ParseSecond(PrintSecond(second, fraction)) == Some(SecondValue(second, fraction))
  {
    var text := PrintSecond(second, fraction);
    TwoParses(second);
    if fraction.Some? {
      FractionIsPlaces(fraction.value);
      assert SplitOnce(text, '.') == Some((Two(second), fraction.value)) by {
        assert text == Two(second) + ['.'] + fraction.value;
        SplitOnceConcat(Two(second), fraction.value, '.');
      }
    } else {
      assert text == Two(second) && SplitOnce(text, '.') == None;
    }
  }

  lemma ParsedSecond(text: string) returns (second: int, fraction: Option<string>)
    requires ParseSecond(text).Some?
    ensures ValidSecond(second, fraction) && text == PrintSecond(second, fraction)
  {
    var cut := SplitOnce(text, '.');
    var whole := if cut.Some? then cut.value.0 else text;
    second := Number(whole);
    fraction := if cut.Some? then Some(cut.value.1) else None;
    TwoInRange(whole);
    if cut.Some? {
      assert text == Two(second) + ("." + fraction.value);
    }
  }

  lemma ClockParsesWhatItPrints(hour: int, minute: int, second: string)
    requires 0 <= hour < 24 && 0 <= minute < 60 && ParseSecond(second).Some? && ':' !in second
    ensures ParseClock(PrintClock(hour, minute, second)) == Some((hour * 60 + minute, ParseSecond(second).value))
  {
    ThreeParts(Two(hour), Two(minute), second, ':');
    TwoParses(hour);
    TwoParses(minute);
  }

  lemma ParsedClock(text: string) returns (hour: int, minute: int, second: string)
    requires ParseClock(text).Some?
    ensures 0 <= hour < 24 && 0 <= minute < 60 && ParseSecond(second).Some?
    ensures text == PrintClock(hour, minute, second) && ':' !in second
    ensures ParseClock(text) == Some((hour * 60 + minute, ParseSecond(second).value))
  {
    var parts := Split(text, ':');
    JoinSplit(text, ':');
    SplitParts(text, ':');
    hour, minute, second := Number(parts[0]), Number(parts[1]), parts[2];
    TwoInRange(parts[0]);
    TwoInRange(parts[1]);
    assert parts == [parts[0], parts[1], parts[2]];
  }

  lemma ZoneParsesWhatItPrints(clock: string, zone: Zone)
    requires ValidZone(zone)
    ensures ParseZone(clock + PrintZone(zone)) == Some((clock, Ahead(zone) * 60))
  {
    var time, printed := clock + PrintZone(zone), PrintZone(zone);
    if zone.Offset? {
      assert time[..|time| - 6] == clock && time[|time| - 6..] == printed;
      assert printed[1..3] == Two(zone.hours) && printed[4..6] == Two(zone.minutes);
      assert printed[5] == Two(zone.minutes)[1];
      TwoParses(zone.hours);
      TwoParses(zone.minutes);
    } else {
      assert time[..|time| - 1] == clock;
    }
  }

  lemma ParsedZone(time: string) returns (clock: string, zone: Zone)
    requires ParseZone(time).Some?
    ensures ValidZone(zone) && time == clock + PrintZone(zone)
    ensures ParseZone(time) == Some((clock, Ahead(zone) * 60))
  {
    if time[|time| - 1] == 'Z' {
      clock, zone := time[..|time| - 1], Utc;
      assert time == clock + "Z";
    } else {
      clock := time[..|time| - 6];
      var text := time[|time| - 6..];
      zone := Offset(text[0] == '-', Number(text[1..3]), Number(text[4..6]));
      TwoInRange(text[1..3]);
      TwoInRange(text[4..6]);
      assert text == [text[0]] + text[1..3] + ":" + text[4..6];
      assert time == clock + text;
    }
  }

  lemma PrintIsAscii(stamp: Stamp)
    requires ValidStamp(stamp)
    ensures IsAscii(Print(stamp)) && 'T' !in PrintDate(stamp.date)
    ensures ':' !in PrintSecond(stamp.second, stamp.fraction)
  {
    var y, m, d := Four(stamp.date.year), Two(stamp.date.month), Two(stamp.date.day);
    assert Join([m, d], '-') == m + ['-'] + Join([d], '-');
    assert PrintDate(stamp.date) == y + ['-'] + (m + ['-'] + d);
    var h, n, s := Two(stamp.hour), Two(stamp.minute), PrintSecond(stamp.second, stamp.fraction);
    assert Join([n, s], ':') == n + [':'] + Join([s], ':');
    assert PrintClock(stamp.hour, stamp.minute, s) == h + [':'] + (n + [':'] + s);
  }

  function ClockOf(stamp: Stamp): (int, real)
    requires ValidStamp(stamp)
  {
    (stamp.hour * 60 + stamp.minute, SecondValue(stamp.second, stamp.fraction))
  }

  lemma InstantAddsUp(stamp: Stamp, days: int)
    requires ValidStamp(stamp) && Counted(days) == stamp.date
    ensures Milliseconds(stamp.date, Ahead(stamp.zone) * 60, ClockOf(stamp)) == Instant(stamp, days)
  {
    DayNumberCounts(stamp.date, days);
  }

  lemma PartsParse(text: string, dateText: string, date: Date, time: string, clockText: string, offset: int,
                   clock: (int, real))
    requires text == dateText + "T" + time && IsAscii(text) && 'T' !in dateText
    requires ParseDate(dateText) == Some(date)
    requires ParseZone(time) == Some((clockText, offset))
    requires ParseClock(clockText) == Some(clock)
    ensures ParseTimestamp(text) == Some(Milliseconds(date, offset, clock))
  {
    SplitOnceConcat(dateText, time, 'T');
  }

  lemma StampClockParses(stamp: Stamp)
    requires ValidStamp(stamp)
    ensures ParseClock(PrintClock(stamp.hour, stamp.minute, PrintSecond(stamp.second, stamp.fraction)))
            == Some(ClockOf(stamp))
  {
    var second := PrintSecond(stamp.second, stamp.fraction);
    assert ':' !in second by { PrintIsAscii(stamp); }
    assert ParseSecond(second) == Some(SecondValue(stamp.second, stamp.fraction)) by {
      SecondParsesWhatItPrints(stamp.second, stamp.fraction);
    }
    ClockParsesWhatItPrints(stamp.hour, stamp.minute, second);
  }

  lemma PrintParses(stamp: Stamp, text: string)
    requires ValidStamp(stamp) && text == Print(stamp)
    ensures ParseTimestamp(text) == Some(Milliseconds(stamp.date, Ahead(stamp.zone) * 60, ClockOf(stamp)))
  {
    var date := PrintDate(stamp.date);
    var clock := PrintClock(stamp.hour, stamp.minute, PrintSecond(stamp.second, stamp.fraction));
    var time, offset := clock + PrintZone(stamp.zone), Ahead(stamp.zone) * 60;
    assert IsAscii(text) && 'T' !in date by { PrintIsAscii(stamp); }
    assert ParseDate(date) == Some(stamp.date) by { DateParsesWhatItPrints(date, stamp.date); }
    assert ParseZone(time) == Some((clock, offset)) by { ZoneParsesWhatItPrints(clock, stamp.zone); }
    assert ParseClock(clock) == Some(ClockOf(stamp)) by { StampClockParses(stamp); }
    PartsParse(text, date, stamp.date, time, clock, offset, ClockOf(stamp));
  }

  /** Printing a valid stamp and parsing the text gives its instant. */
  lemma ParsesWhatItPrints(stamp: Stamp, days: int)
    requires ValidStamp(stamp) && Counted(days) == stamp.date
    ensures ParseTimestamp(Print(stamp)) == Some(Instant(stamp, days))
  {
    PrintParses(stamp, Print(stamp));
    InstantAddsUp(stamp, days);
  }

  /** An accepted text is the print of some valid stamp. */
  lemma ParsedStamp(text: string) returns (stamp: Stamp, days: int)
    requires ParseTimestamp(text).Some?
    ensures ValidStamp(stamp) && text == Print(stamp) && Counted(days) == stamp.date
  {
    var (dateText, time) := SplitOnce(text, 'T').value;
    var date := ParseDate(dateText).value;
    DateParsesWhatItPrints(dateText, date);
    var clockText, zone := ParsedZone(time);
    var hour, minute, secondText := ParsedClock(clockText);
    var second, fraction := ParsedSecond(secondText);
    stamp := Stamp(date, hour, minute, second, fraction, zone);
    days := DayNumber(date);
    DayNumberCounts(date, days);
  }

  /** The parser accepts exactly the printed forms, and gives the instant each denotes. */
  lemma ParserIsExact(text: string, value: real)
    ensures ParseTimestamp(text) == Some(value) <==>
              exists stamp, days :: && ValidStamp(stamp) && text == Print(stamp)
                                    && Counted(days) == stamp.date && value == Instant(stamp, days)
  {
    if ParseTimestamp(text) == Some(value) {
      var stamp, days := ParsedStamp(text);
      ParsesWhatItPrints(stamp, days);
    }
    forall stamp, days | ValidStamp(stamp) && text == Print(stamp) && Counted(days) == stamp.date
      ensures ParseTimestamp(text) == Some(Instant(stamp, days))
    {
      ParsesWhatItPrints(stamp, days);
    }
  }

  lemma EpochInstant()
    ensures ValidStamp(Stamp(EPOCH, 0, 0, 0, None, Utc)) && Instant(Stamp(EPOCH, 0, 0, 0, None, Utc), 0) == 0.0
  {
  }

  /** The epoch is at zero. */
  lemma EpochParses()
    ensures ParseTimestamp("1970-01-01T00:00:00Z") == Some(0.0)
  {
    var stamp := Stamp(EPOCH, 0, 0, 0, None, Utc);
    EpochInstant();
    assert Print(stamp) == "1970-01-01T00:00:00Z" by { EpochPrints(); }
    assert Counted(0) == EPOCH;
    ParsesWhatItPrints(stamp, 0);
  }

  lemma EpochPrints()
    ensures Print(Stamp(EPOCH, 0, 0, 0, None, Utc)) == "1970-01-01T00:00:00Z"
  {
    assert Two(0) == "00" && Two(1) == "01" && Four(1970) == "1970";
    assert ["1970", "01", "01"][1..] == ["01", "01"] && ["01", "01"][1..] == ["01"];
    assert PrintDate(EPOCH) == "1970-01-01";
    assert ["00", "00", "00"][1..] == ["00", "00"] && ["00", "00"][1..] == ["00"];
    assert PrintSecond(0, None) == "00";
    assert PrintClock(0, 0, "00") == "00:00:00";
  }
}
