// The timestamps of the tables, as text and as points in time. SQLite gives
// them back without an offset, in UTC; Postgres with the offset of the session.

module Timestamps {
  import opened Options
  import opened Decimal

  // A local date and time with microseconds, and the minutes that its clock is
  // ahead of UTC. Without an offset it is UTC.
  datatype Stamp = Stamp(year: nat, month: nat, day: nat, hour: nat, minute: nat, second: nat, micro: nat,
                         offset: Option<int>) {
    predicate Valid() {
      && 1 <= year <= 9999 && 1 <= month <= 12 && 1 <= day <= DaysIn(year, month)
      && hour < 24 && minute < 60 && second < 60 && micro < 1_000_000
      && (offset.Some? ==> -1440 < offset.value < 1440)
    }

    function Ahead(): int {
      match offset case None => 0 case Some(minutes) => minutes
    }

    // The number of the day; 0001-01-01 is day 1.
    function Ordinal(): int {
      DaysBeforeYear(year) + DaysBeforeMonth(year, month) + day
    }

    // The point in time: microseconds of UTC.
    function Rank(): int {
      (((Ordinal() * 24 + hour) * 60 + minute - Ahead()) * 60 + second) * 1_000_000 + micro
    }
  }

  predicate Leap(year: int) {
    year % 4 == 0 && (year % 100 != 0 || year % 400 == 0)
  }

  function DaysIn(year: int, month: nat): nat {
    if month == 2 then if Leap(year) then 29 else 28
    else if month in {4, 6, 9, 11} then 30
    else 31
  }

  function DaysBeforeYear(year: nat): nat {
    if year <= 1 then 0 else DaysBeforeYear(year - 1) + if Leap(year - 1) then 366 else 365
  }

  function DaysBeforeMonth(year: int, month: nat): nat {
    if month <= 1 then 0 else DaysBeforeMonth(year, month - 1) + DaysIn(year, month - 1)
  }

  type Instant = s: Stamp | s.Valid() witness Stamp(1, 1, 1, 0, 0, 0, 0, None)

  // ---- days are counted one by one

  lemma MonthsOfYear(year: int)
    ensures DaysBeforeMonth(year, 13) == if Leap(year) then 366 else 365
  {
    assert DaysBeforeMonth(year, 2) == DaysBeforeMonth(year, 1) + 31 == 31;
    assert DaysBeforeMonth(year, 3) == 31 + DaysIn(year, 2);
    assert DaysBeforeMonth(year, 5) == DaysBeforeMonth(year, 4) + 30 == DaysBeforeMonth(year, 3) + 61;
    assert DaysBeforeMonth(year, 7) == DaysBeforeMonth(year, 6) + 30 == DaysBeforeMonth(year, 5) + 61;
    assert DaysBeforeMonth(year, 9) == DaysBeforeMonth(year, 8) + 31 == DaysBeforeMonth(year, 7) + 62;
    assert DaysBeforeMonth(year, 11) == DaysBeforeMonth(year, 10) + 31 == DaysBeforeMonth(year, 9) + 61;
    assert DaysBeforeMonth(year, 13) == DaysBeforeMonth(year, 12) + 31 == DaysBeforeMonth(year, 11) + 61;
  }

  // The same time of the next day.
  function NextDay(t: Stamp): Stamp {
    if t.day < DaysIn(t.year, t.month) then t.(day := t.day + 1)
    else if t.month < 12 then t.(month := t.month + 1, day := 1)
    else t.(year := t.year + 1, month := 1, day := 1)
  }

  // It is exactly one day later, over month ends and leap years.
  lemma NextDayIsLater(t: Instant)
    ensures NextDay(t).Rank() == t.Rank() + 24 * 60 * 60 * 1_000_000
  {
    MonthsOfYear(t.year);
    assert NextDay(t).Ordinal() == t.Ordinal() + 1;
  }

  // Every date has a next one but the last.
  lemma NextDayIsADate(t: Instant)
    ensures NextDay(t).Valid() <==> !(t.year == 9999 && t.month == 12 && t.day == 31)
  {
  }

  // The days before a year of the Gregorian calendar.
  lemma {:induction false} CalendarExactly(year: nat)
    requires year >= 1
    ensures DaysBeforeYear(year) ==
            365 * (year - 1) + (year - 1) / 4 - (year - 1) / 100 + (year - 1) / 400
  {
    if year > 1 {
      CalendarExactly(year - 1);
      LeapQuotients(year - 1);
    }
  }

  lemma LeapQuotients(y: nat)
    requires y >= 1
    ensures y / 4 - (y - 1) / 4 == if y % 4 == 0 then 1 else 0
    ensures y / 100 - (y - 1) / 100 == if y % 100 == 0 then 1 else 0
    ensures y / 400 - (y - 1) / 400 == if y % 400 == 0 then 1 else 0
    ensures y % 400 == 0 ==> y % 100 == 0
    ensures y % 100 == 0 ==> y % 4 == 0
  {
  }

  // Microseconds of UTC; without an offset the time is in UTC.
  lemma RankExactly(t: Instant)
    ensures t.Rank() == t.Ordinal() * 86_400_000_000 + t.hour * 3_600_000_000 + t.minute * 60_000_000
                        + t.second * 1_000_000 + t.micro - (if t.offset.Some? then t.offset.value * 60_000_000 else 0)
  {
  }

  lemma {:induction false} YearsInOrder(y: nat, y': nat)
    requires 1 <= y < y'
    ensures DaysBeforeYear(y) + DaysBeforeMonth(y, 13) <= DaysBeforeYear(y')
    decreases y' - y
  {
    MonthsOfYear(y);
    if y + 1 < y' {
      YearsInOrder(y + 1, y');
    }
  }

  lemma {:induction false} MonthsInOrder(year: int, m: nat, m': nat)
    requires 1 <= m < m'
    ensures DaysBeforeMonth(year, m) + DaysIn(year, m) <= DaysBeforeMonth(year, m')
    decreases m' - m
  {
    if m + 1 < m' {
      MonthsInOrder(year, m, m' - 1);
    }
  }

  lemma DatesInOrder(a: Instant, b: Instant)
    requires a.year < b.year || (a.year == b.year && a.month < b.month)
    ensures a.Ordinal() < b.Ordinal()
  {
    if a.year < b.year {
      YearsInOrder(a.year, b.year);
      MonthsInOrder(a.year, a.month, 13);
    } else {
      MonthsInOrder(a.year, a.month, b.month);
    }
  }

  lemma OrdinalInjective(a: Instant, b: Instant)
    requires a.Ordinal() == b.Ordinal()
    ensures a.year == b.year && a.month == b.month && a.day == b.day
  {
    if a.year < b.year || (a.year == b.year && a.month < b.month) {
      DatesInOrder(a, b);
    } else if b.year < a.year || (a.year == b.year && b.month < a.month) {
      DatesInOrder(b, a);
    }
  }

  // Of one offset, different timestamps are different points in time.
  lemma RankInjective(a: Instant, b: Instant)
    requires a.Rank() == b.Rank() && a.offset == b.offset
    ensures a == b
  {
    var h, h' := a.Ordinal() * 24 + a.hour, b.Ordinal() * 24 + b.hour;
    SameClock(h, a.minute, a.second, a.micro, h', b.minute, b.second, b.micro, a.Ahead());
    assert a.Ordinal() == b.Ordinal() && a.hour == b.hour;
    OrdinalInjective(a, b);
  }

  lemma SameClock(h: int, mi: nat, s: nat, us: nat, h': int, mi': nat, s': nat, us': nat, ahead: int)
    requires mi < 60 && s < 60 && us < 1_000_000 && mi' < 60 && s' < 60 && us' < 1_000_000
    requires ((h * 60 + mi - ahead) * 60 + s) * 1_000_000 + us == ((h' * 60 + mi' - ahead) * 60 + s') * 1_000_000 + us'
    ensures (h, mi, s, us) == (h', mi', s', us')
  {
    var m, m' := h * 60 + mi - ahead, h' * 60 + mi' - ahead;
    assert us == us' && m * 60 + s == m' * 60 + s';
    assert s == s' && m == m';
  }

  // ---- datetime.isoformat

  // The fraction is left out when it is zero.
  function LocalFormat(t: Stamp): string {
    Fixed(t.year, 4) + "-" + Fixed(t.month, 2) + "-" + Fixed(t.day, 2) + "T" +
    Fixed(t.hour, 2) + ":" + Fixed(t.minute, 2) + ":" + Fixed(t.second, 2) +
    (if t.micro == 0 then "" else "." + Fixed(t.micro, 6))
  }

  function OffsetFormat(minutes: int): string {
    var size := if minutes < 0 then -minutes else minutes;
    (if minutes < 0 then "-" else "+") + Fixed(size / 60, 2) + ":" + Fixed(size % 60, 2)
  }

  function IsoFormat(t: Stamp): string {
    LocalFormat(t) + match t.offset case None => "" case Some(minutes) => OffsetFormat(minutes)
  }

  lemma TwoDigits(n: nat)
    requires n < 100
    ensures Fixed(n, 2) == ['0' + (n / 10) as char, '0' + (n % 10) as char]
  {
    assert Fixed(n / 100, 0) == "";
    assert Fixed(n / 10, 1) == [DigitChar(n / 10 % 10)];
  }

  // The offset of UTC, and two that are not whole hours.
  lemma OffsetTexts()
    ensures OffsetFormat(0) == "+00:00" && OffsetFormat(345) == "+05:45" && OffsetFormat(-210) == "-03:30"
  {
    TwoDigits(0);
    TwoDigits(5);
    TwoDigits(45);
    TwoDigits(3);
    TwoDigits(30);
  }

  predicate Digits(s: string) {
    forall c :: c in s ==> IsDigit(c)
  }

  function Field(s: string, from: nat, to: nat): int
    requires from <= to <= |s|
  {
    if Digits(s[from..to]) then Value(s[from..to]) else -1
  }

  // ---- datetime.fromisoformat, for the forms that isoformat writes

  function FromLocal(s: string, offset: Option<int>): Option<Instant>
    requires |s| == 19 || |s| == 26
  {
    if s[4] != '-' || s[7] != '-' || s[10] != 'T' || s[13] != ':' || s[16] != ':' || (|s| == 26 && s[19] != '.')
      then None
    else
      var y, mo, d := Field(s, 0, 4), Field(s, 5, 7), Field(s, 8, 10);
      var h, mi, sec := Field(s, 11, 13), Field(s, 14, 16), Field(s, 17, 19);
      var us := if |s| == 26 then Field(s, 20, 26) else 0;
      if y < 0 || mo < 0 || d < 0 || h < 0 || mi < 0 || sec < 0 || us < 0 then None
      else
        var t := Stamp(y, mo, d, h, mi, sec, us, offset);
        if t.Valid() then Some(t) else None
  }

  function FromOffset(s: string): Option<int>
    requires |s| == 6
  {
    var h, mi := Field(s, 1, 3), Field(s, 4, 6);
    if s[0] !in "+-" || s[3] != ':' || !(0 <= h < 24) || !(0 <= mi < 60) then None
    else Some(if s[0] == '-' then -(h * 60 + mi) else h * 60 + mi)
  }

  function FromIso(s: string): Option<Instant> {
    if |s| == 19 || |s| == 26 then FromLocal(s, None)
    else if |s| == 25 || |s| == 32 then
      var offset := FromOffset(s[|s| - 6..]);
      if offset.None? then None else FromLocal(s[..|s| - 6], offset)
    else None
  }

  lemma FieldOf(before: string, n: nat, width: nat, after: string)
    requires n < Bound(width)
    ensures Field(before + Fixed(n, width) + after, |before|, |before| + width) == n
  {
    assert (before + Fixed(n, width) + after)[|before|..|before| + width] == Fixed(n, width);
    FixedRoundTrip(n, width);
  }

  lemma Bounds()
    ensures Bound(2) == 100 && Bound(4) == 10_000 && Bound(6) == 1_000_000
  {
    assert Bound(1) == 10 && Bound(3) == 1000 && Bound(5) == 100_000;
  }

  lemma LocalFields(t: Instant)
    ensures var s := LocalFormat(t);
            && Field(s, 0, 4) == t.year && Field(s, 5, 7) == t.month && Field(s, 8, 10) == t.day
            && Field(s, 11, 13) == t.hour && Field(s, 14, 16) == t.minute && Field(s, 17, 19) == t.second
  {
    Bounds();
    var s := LocalFormat(t);
    var fraction := if t.micro == 0 then "" else "." + Fixed(t.micro, 6);
    var date := Fixed(t.year, 4) + "-" + Fixed(t.month, 2) + "-" + Fixed(t.day, 2) + "T";
    FieldOf("", t.year, 4, s[4..]);
    assert s == "" + Fixed(t.year, 4) + s[4..];
    FieldOf(s[..5], t.month, 2, s[7..]);
    assert s == s[..5] + Fixed(t.month, 2) + s[7..];
    FieldOf(s[..8], t.day, 2, s[10..]);
    assert s == s[..8] + Fixed(t.day, 2) + s[10..];
    FieldOf(s[..11], t.hour, 2, s[13..]);
    assert s == s[..11] + Fixed(t.hour, 2) + s[13..];
    FieldOf(s[..14], t.minute, 2, s[16..]);
    assert s == s[..14] + Fixed(t.minute, 2) + s[16..];
    FieldOf(s[..17], t.second, 2, s[19..]);
    assert s == s[..17] + Fixed(t.second, 2) + s[19..];
  }

  lemma LocalRoundTrip(t: Instant)
    ensures FromLocal(LocalFormat(t), t.offset) == Some(t)
  {
    var s := LocalFormat(t);
    LocalFields(t);
    if t.micro != 0 {
      Bounds();
      FieldOf(s[..20], t.micro, 6, "");
      assert s == s[..20] + Fixed(t.micro, 6) + "";
    }
  }

  lemma OffsetRoundTrip(minutes: int)
    requires -1440 < minutes < 1440
    ensures |OffsetFormat(minutes)| == 6 && FromOffset(OffsetFormat(minutes)) == Some(minutes)
  {
    var size := if minutes < 0 then -minutes else minutes;
    var s := OffsetFormat(minutes);
    Bounds();
    FieldOf(s[..1], size / 60, 2, s[3..]);
    assert s == s[..1] + Fixed(size / 60, 2) + s[3..];
    FieldOf(s[..4], size % 60, 2, "");
    assert s == s[..4] + Fixed(size % 60, 2) + "";
  }

  // Reading a written timestamp gives it back, offset included.
  lemma IsoRoundTrip(t: Instant)
    ensures FromIso(IsoFormat(t)) == Some(t)
  {
    LocalRoundTrip(t);
    var local := LocalFormat(t);
    match t.offset {
      case None =>
        assert local + "" == local;
      case Some(minutes) =>
        OffsetRoundTrip(minutes);
        JoinedParts(local, OffsetFormat(minutes));
    }
  }

  lemma JoinedParts(local: string, offset: string)
    ensures (local + offset)[|local|..] == offset && (local + offset)[..|local|] == local
  {
  }

  // ---- and only those texts are read

  lemma DigitAppended(n: nat, d: nat)
    requires d < 10
    ensures (n * 10 + d) / 10 == n && (n * 10 + d) % 10 == d
  {
  }

  lemma {:induction false} FixedOfValue(s: string)
    requires Digits(s)
    ensures Value(s) >= 0 && Fixed(Value(s), |s|) == s
  {
    if s != "" {
      var front, last := s[..|s| - 1], s[|s| - 1];
      FixedOfValue(front);
      assert s == front + [last];
      DigitAppended(Value(front), DigitValue(last));
      assert DigitChar(DigitValue(last)) == last;
    }
  }

  lemma FieldText(s: string, from: nat, to: nat)
    requires from <= to <= |s| && Field(s, from, to) >= 0
    ensures Fixed(Field(s, from, to), to - from) == s[from..to]
  {
    FixedOfValue(s[from..to]);
  }

  lemma DatePart(s: string)
    requires |s| >= 19 && s[4] == '-' && s[7] == '-' && s[10] == 'T' && s[13] == ':' && s[16] == ':'
    ensures s[0..4] + "-" + s[5..7] + "-" + s[8..10] + "T" + s[11..13] + ":" + s[14..16] + ":" + s[17..19] == s[..19]
  {
  }

  lemma DateText(s: string, offset: Option<int>)
    requires (|s| == 19 || |s| == 26) && FromLocal(s, offset).Some?
    ensures LocalFormat(FromLocal(s, offset).value.(micro := 0)) == s[..19] + ""
  {
    FieldText(s, 0, 4);
    FieldText(s, 5, 7);
    FieldText(s, 8, 10);
    FieldText(s, 11, 13);
    FieldText(s, 14, 16);
    FieldText(s, 17, 19);
    DatePart(s);
  }

  lemma FractionText(t: Stamp)
    ensures t.micro != 0 ==> LocalFormat(t) == LocalFormat(t.(micro := 0)) + ("." + Fixed(t.micro, 6))
  {
  }

  lemma SecondsOnly(s: string, offset: Option<int>)
    requires |s| == 19 && FromLocal(s, offset).Some?
    ensures LocalFormat(FromLocal(s, offset).value) == s
  {
    var t := FromLocal(s, offset).value;
    DateText(s, offset);
    assert t == t.(micro := 0);
    assert s[..19] + "" == s;
  }

  lemma FractionOnly(s: string, offset: Option<int>)
    requires |s| == 26 && FromLocal(s, offset).Some?
    ensures s[19] == '.' && Fixed(FromLocal(s, offset).value.micro, 6) == s[20..26]
  {
    FieldText(s, 20, 26);
  }

  // A text is read only if it is the text of the timestamp that is read, but
  // for a fraction of zeros.
  lemma LocalTextOnly(s: string, offset: Option<int>)
    requires (|s| == 19 || |s| == 26) && FromLocal(s, offset).Some?
    ensures var t := FromLocal(s, offset).value;
            LocalFormat(t) == if |s| == 26 && t.micro == 0 then s[..19] else s
  {
    if |s| == 19 {
      SecondsOnly(s, offset);
    } else {
      var t := FromLocal(s, offset).value;
      DateText(s, offset);
      FractionOnly(s, offset);
      FractionText(t);
      assert s[..19] + "" == s[..19];
      assert s == s[..19] + ("." + s[20..26]);
      assert t.micro == 0 ==> t == t.(micro := 0);
    }
  }

  lemma OffsetParts(s: string) returns (h: nat, mi: nat)
    requires |s| == 6 && FromOffset(s).Some?
    ensures h < 24 && mi < 60 && Fixed(h, 2) == s[1..3] && Fixed(mi, 2) == s[4..6]
    ensures s == [s[0]] + s[1..3] + ":" + s[4..6]
    ensures FromOffset(s).value == if s[0] == '-' then -(h * 60 + mi) else h * 60 + mi
    ensures s[0] == '-' || s[0] == '+'
  {
    h, mi := Field(s, 1, 3), Field(s, 4, 6);
    FieldText(s, 1, 3);
    FieldText(s, 4, 6);
  }

  // An offset is read only if it is the text of the offset that is read, but
  // for "-00:00".
  lemma OffsetTextOnly(s: string)
    requires |s| == 6 && FromOffset(s).Some?
    ensures s == OffsetFormat(FromOffset(s).value) || s == "-00:00"
  {
    var h, mi := OffsetParts(s);
    DivideHours(h, mi);
    if h == 0 && mi == 0 {
      TwoDigits(0);
    } else {
      assert h * 60 + mi > 0;
    }
  }

  lemma DivideHours(h: nat, mi: nat)
    requires mi < 60
    ensures (h * 60 + mi) / 60 == h && (h * 60 + mi) % 60 == mi
  {
  }

  // So is a whole text.
  lemma IsoTextOnly(s: string)
    requires FromIso(s).Some? && (|s| == 26 || |s| == 32 ==> FromIso(s).value.micro != 0)
    ensures s == IsoFormat(FromIso(s).value) || (|s| >= 25 && s[|s| - 6..] == "-00:00")
  {
    if |s| == 19 || |s| == 26 {
      LocalTextOnly(s, None);
    } else {
      var offset := FromOffset(s[|s| - 6..]);
      LocalTextOnly(s[..|s| - 6], offset);
      OffsetTextOnly(s[|s| - 6..]);
      assert s == s[..|s| - 6] + s[|s| - 6..];
    }
  }
}
