/**
 The SQLite form of `Timestamp`: one fixed-width UTC text, written by a format string and read by an
 RFC 3339 parser. Section 5.1 of RFC 3339 gives the ordering argument, section 5.6 the grammar.
 */
module Timestamp {
  import opened Calendar
  import opened Digits
  import Text

  /** A UTC date and time; second 60 is a leap second. */
  datatype DateTime = DateTime(date: Date, hour: int, minute: int, second: int, nano: int)

  predicate ValidTime(hour: int, minute: int, second: int, nano: int) {
    0 <= hour < 24 && 0 <= minute < 60 && 0 <= second <= 60 && 0 <= nano < 1_000_000_000
  }

  const MIN_YEAR: int := -262143
  const MAX_YEAR: int := 262142

  predicate Valid(t: DateTime) {
    ValidDate(t.date) && MIN_YEAR <= t.date.year <= MAX_YEAR && ValidTime(t.hour, t.minute, t.second, t.nano)
  }

  /** The years whose text has four digits and no sign. */
  predicate FourDigitYear(t: DateTime) {
    0 <= t.date.year <= 9999
  }

  // ----- Instants -----

  /** Minutes since the epoch. */
  function Minutes(t: DateTime): int
    requires Valid(t)
  {
    (DayNumber(t.date) * 24 + t.hour) * 60 + t.minute
  }

  /** Nanoseconds since the epoch, leap seconds not counted. */
  function Nanos(t: DateTime): int
    requires Valid(t)
  {
    Minutes(t) * 60_000_000_000 + t.second * 1_000_000_000 + t.nano
  }

  /** The instant floored to the microsecond; `/` rounds towards minus infinity, before the epoch too. */
  function Micros(t: DateTime): int
    requires Valid(t)
  {
    Nanos(t) / 1000
  }

  /** Position on a line where every minute has room for a leap second: chronological order for all times. */
  function Position(t: DateTime): int
    requires Valid(t)
  {
    Minutes(t) * 61_000_000 + t.second * 1_000_000 + t.nano / 1000
  }

  function Floored(t: DateTime): DateTime
    requires Valid(t)
  {
    t.(nano := t.nano / 1000 * 1000)
  }

  lemma {:induction false} MicrosOfFields(t: DateTime)
    requires Valid(t)
    ensures Micros(t) == Minutes(t) * 60_000_000 + t.second * 1_000_000 + t.nano / 1000
  {
    var whole := Minutes(t) * 60_000_000 + t.second * 1_000_000;
    assert Nanos(t) == whole * 1000 + t.nano;
    assert (whole * 1000 + t.nano) / 1000 == whole + t.nano / 1000;
  }

  /** Flooring the nanosecond field floors the instant itself. */
  lemma {:induction false} FlooringIsOnTheInstant(t: DateTime)
    requires Valid(t)
    ensures Valid(Floored(t)) && Nanos(Floored(t)) == Micros(t) * 1000
  {
    MicrosOfFields(t);
  }

  /** Outside leap seconds the position orders instants just as the count of microseconds does. */
  lemma {:induction false} PositionOrdersMicros(a: DateTime, b: DateTime)
    requires Valid(a) && Valid(b) && a.second < 60 && b.second < 60
    ensures Position(a) < Position(b) <==> Micros(a) < Micros(b)
  {
    MicrosOfFields(a);
    MicrosOfFields(b);
    InMinute(Minutes(a), a.second * 1_000_000 + a.nano / 1000, Minutes(b), b.second * 1_000_000 + b.nano / 1000,
             60_000_000);
    InMinute(Minutes(a), a.second * 1_000_000 + a.nano / 1000, Minutes(b), b.second * 1_000_000 + b.nano / 1000,
             61_000_000);
  }

  /** Comparing a quotient and a remainder is comparing the number. */
  lemma {:induction false} InMinute(a: int, x: int, b: int, y: int, size: int)
    requires 0 <= x < size && 0 <= y < size
    ensures a * size + x < b * size + y <==> a < b || (a == b && x < y)
  {
    if a < b {
      Scaled(a + 1, b, size);
    } else if b < a {
      Scaled(b + 1, a, size);
    }
  }

  lemma {:induction false} Scaled(a: int, b: int, size: int)
    requires a <= b && 0 <= size
    ensures a * size <= b * size
    ensures a * size == (a - 1) * size + size
  {
    assert (b - a) * size >= 0;
  }

  // ----- Encoding -----

  /** `%.6fZ`: six digits of the second, truncated, and the zone. */
  function FractionText(t: DateTime): string
    requires Valid(t)
  {
    Spelled(t.nano / 1000, 6) + ("Z" + "")
  }

  function ClockText(t: DateTime): string
    requires Valid(t)
  {
    Spelled(t.hour, 2) + (":" + (Spelled(t.minute, 2) + (":" + (Spelled(t.second, 2) + ("." + FractionText(t))))))
  }

  function AfterYearText(t: DateTime): string
    requires Valid(t)
  {
    Spelled(t.date.month, 2) + ("-" + (Spelled(t.date.day, 2) + ("T" + ClockText(t))))
  }

  /** `%Y`: four digits, or a sign and at least four digits where four do not do. */
  function YearText(year: int): string {
    if 0 <= year <= 9999 then Spelled(year, 4)
    else
      var n := if year < 0 then -year else year;
      [if year < 0 then '-' else '+'] + Spelled(n, if n <= 9999 then 4 else if n <= 99999 then 5 else 6)
  }

  /** The format "%Y-%m-%dT%H:%M:%S%.6fZ". */
  function Encode(t: DateTime): string
    requires Valid(t)
  {
    YearText(t.date.year) + ("-" + AfterYearText(t))
  }

  lemma {:induction false} Powers()
    ensures Pow10(2) == 100 && Pow10(4) == 10000 && Pow10(6) == 1_000_000
  {
    assert Pow10(3) == 1000;
    assert Pow10(5) == 100_000;
  }

  // ----- The text in figures -----

  /** A text holds another from position k on. */
  predicate At(s: string, k: nat, part: string) {
    k + |part| <= |s| && forall i :: 0 <= i < |part| ==> s[k + i] == part[i]
  }

  lemma {:induction false} AtBehind(s: string, front: string, part: string, rest: string)
    requires s == front + (part + rest)
    ensures At(s, |front|, part) && s == front + part + rest
  {
    assert forall i :: 0 <= i < |part| ==> s[|front| + i] == (part + rest)[i];
  }

  lemma {:induction false} AtFront(part: string, rest: string)
    ensures At(part + rest, 0, part)
  {
  }

  lemma {:induction false} NextInClock(s: string, front: string, t: DateTime)
    requires Valid(t) && s == front + ClockText(t)
    ensures var k := |front|;
            && |s| == k + 16 && At(s, k, Spelled(t.hour, 2)) && At(s, k + 2, ":") && At(s, k + 3, Spelled(t.minute, 2))
            && At(s, k + 5, ":") && At(s, k + 6, Spelled(t.second, 2)) && At(s, k + 8, ".")
            && At(s, k + 9, Spelled(t.nano / 1000, 6)) && At(s, k + 15, "Z")
  {
    var hour, minute, second := Spelled(t.hour, 2), Spelled(t.minute, 2), Spelled(t.second, 2);
    var fraction := Spelled(t.nano / 1000, 6);
    var r3 := "." + FractionText(t);
    var r2 := ":" + (second + r3);
    var r1 := ":" + (minute + r2);
    AtBehind(s, front, hour, r1);
    var f1 := front + hour;
    AtBehind(s, f1, ":", minute + r2);
    AtBehind(s, f1 + ":", minute, r2);
    var f2 := f1 + ":" + minute;
    AtBehind(s, f2, ":", second + r3);
    AtBehind(s, f2 + ":", second, r3);
    var f3 := f2 + ":" + second;
    AtBehind(s, f3, ".", FractionText(t));
    AtBehind(s, f3 + ".", fraction, "Z" + "");
    AtBehind(s, f3 + "." + fraction, "Z", "");
  }

  /** Behind the year and its '-': the month, '-', the day, 'T' and the clock. */
  lemma {:induction false} NextInDate(s: string, front: string, t: DateTime)
    requires Valid(t) && s == front + AfterYearText(t)
    ensures DateAt(s, |front|, t)
  {
    var month, day := Spelled(t.date.month, 2), Spelled(t.date.day, 2);
    var r1 := "-" + (day + ("T" + ClockText(t)));
    AtBehind(s, front, month, r1);
    AtBehind(s, front + month, "-", day + ("T" + ClockText(t)));
    AtBehind(s, front + month + "-", day, "T" + ClockText(t));
    AtBehind(s, front + month + "-" + day, "T", ClockText(t));
    NextInClock(s, front + month + "-" + day + "T", t);
  }

  /** The text from its month on, field by field; the fraction is cut off, not rounded. */
  predicate DateAt(s: string, k: nat, t: DateTime)
    requires Valid(t)
  {
    && |s| == k + 22 && At(s, k, Spelled(t.date.month, 2)) && At(s, k + 2, "-") && At(s, k + 3, Spelled(t.date.day, 2))
    && At(s, k + 5, "T") && At(s, k + 6, Spelled(t.hour, 2)) && At(s, k + 8, ":")
    && At(s, k + 9, Spelled(t.minute, 2)) && At(s, k + 11, ":") && At(s, k + 12, Spelled(t.second, 2))
    && At(s, k + 14, ".") && At(s, k + 15, Spelled(t.nano / 1000, 6)) && At(s, k + 21, "Z")
  }

  /** Every text of a four-digit year, field by field: 27 characters, with fixed places for all. */
  lemma {:induction false} EncodingInFigures(t: DateTime)
    requires Valid(t) && FourDigitYear(t)
    ensures At(Encode(t), 0, Spelled(t.date.year, 4)) && At(Encode(t), 4, "-") && DateAt(Encode(t), 5, t)
  {
    var year := Spelled(t.date.year, 4);
    AtFront(year, "-" + AfterYearText(t));
    BehindYear(Encode(t), year, t);
  }

  lemma {:induction false} BehindYear(s: string, year: string, t: DateTime)
    requires Valid(t) && s == year + ("-" + AfterYearText(t))
    ensures At(s, |year|, "-") && DateAt(s, |year| + 1, t)
  {
    AtBehind(s, year, "-", AfterYearText(t));
    NextInDate(s, year + "-", t);
  }

  lemma {:induction false} HighDigit(n: int, w: nat)
    requires Pow10(w) <= n < Pow10(w + 1)
    ensures Spelled(n, w + 1)[0] != '0'
    decreases w
  {
    if w > 0 {
      HighDigit(n / 10, w - 1);
      assert Spelled(n, w + 1)[0] == Spelled(n / 10, w)[0];
    } else {
      assert Pow10(1) == 10;
      assert Spelled(n, 1) == Spelled(n / 10, 0) + [DigitChar(n % 10)];
    }
  }

  lemma {:induction false} YearDigits(n: int) returns (digits: string)
    requires 0 <= n <= 999_999
    ensures digits == Spelled(n, if n <= 9999 then 4 else if n <= 99999 then 5 else 6)
    ensures Value(digits) == n && |digits| >= 4 && (|digits| > 4 ==> digits[0] != '0')
  {
    Powers();
    assert Pow10(5) == 100_000;
    var w := if n <= 9999 then 4 else if n <= 99999 then 5 else 6;
    digits := Spelled(n, w);
    ValueOfSpelled(n, w);
    if w > 4 {
      HighDigit(n, w - 1);
    }
  }

  /** Years outside 0 to 9999 have a sign, at least four digits and no more than they need; then all is as ever. */
  lemma {:induction false} SignedYearInFigures(t: DateTime) returns (digits: string)
    requires Valid(t) && !FourDigitYear(t)
    ensures AllDigits(digits) && Value(digits) == (if t.date.year < 0 then -t.date.year else t.date.year)
    ensures |digits| >= 4 && (|digits| > 4 ==> digits[0] != '0')
    ensures At(Encode(t), 0, if t.date.year < 0 then "-" else "+") && At(Encode(t), 1, digits)
    ensures At(Encode(t), 1 + |digits|, "-") && DateAt(Encode(t), 2 + |digits|, t)
  {
    digits := YearDigits(if t.date.year < 0 then -t.date.year else t.date.year);
    var sign := if t.date.year < 0 then "-" else "+";
    SignAndDigits(t.date.year, sign, digits);
    SignedText(t, sign, digits);
  }

  lemma {:induction false} SignedText(t: DateTime, sign: string, digits: string)
    requires Valid(t) && |sign| == 1 && YearText(t.date.year) == sign + digits
    ensures At(Encode(t), 0, sign) && At(Encode(t), 1, digits)
    ensures At(Encode(t), 1 + |digits|, "-") && DateAt(Encode(t), 2 + |digits|, t)
  {
    SignedAt(sign, digits, "-" + AfterYearText(t));
    BehindYear(Encode(t), sign + digits, t);
  }

  lemma {:induction false} SignAndDigits(year: int, sign: string, digits: string)
    requires !(0 <= year <= 9999) && sign == if year < 0 then "-" else "+"
    requires var n := if year < 0 then -year else year;
             digits == Spelled(n, if n <= 9999 then 4 else if n <= 99999 then 5 else 6)
    ensures YearText(year) == sign + digits
  {
  }

  lemma {:induction false} SignedAt(sign: string, digits: string, rest: string)
    ensures At(sign + digits + rest, 0, sign) && At(sign + digits + rest, |sign|, digits)
  {
  }

  /** An instant by its fields, and when the count begins. */
  lemma {:induction false} InstantInFigures(t: DateTime)
    requires Valid(t)
    ensures Nanos(t) == DayNumber(t.date) * 86_400_000_000_000 + t.hour * 3_600_000_000_000 +
            t.minute * 60_000_000_000 + t.second * 1_000_000_000 + t.nano
    ensures 0 <= Nanos(t) - Micros(t) * 1000 < 1000
  {
  }

  // ----- Order -----

  lemma {:induction false} ClockOrders(a: DateTime, b: DateTime)
    requires Valid(a) && Valid(b)
    ensures Text.Less(ClockText(a), ClockText(b)) <==>
            a.hour < b.hour || (a.hour == b.hour && (a.minute < b.minute || (a.minute == b.minute &&
              (a.second < b.second || (a.second == b.second && a.nano / 1000 < b.nano / 1000)))))
  {
    Powers();
    FieldOrders(a.nano / 1000, b.nano / 1000, 6, "Z", "", "");
    FieldOrders(a.second, b.second, 2, ".", FractionText(a), FractionText(b));
    var x, y := Spelled(a.second, 2) + ("." + FractionText(a)), Spelled(b.second, 2) + ("." + FractionText(b));
    FieldOrders(a.minute, b.minute, 2, ":", x, y);
    FieldOrders(a.hour, b.hour, 2, ":", Spelled(a.minute, 2) + (":" + x), Spelled(b.minute, 2) + (":" + y));
  }

  lemma {:induction false} AfterYearOrders(a: DateTime, b: DateTime)
    requires Valid(a) && Valid(b)
    ensures Text.Less(AfterYearText(a), AfterYearText(b)) <==>
            a.date.month < b.date.month || (a.date.month == b.date.month && (a.date.day < b.date.day ||
              (a.date.day == b.date.day && Text.Less(ClockText(a), ClockText(b)))))
  {
    Powers();
    FieldOrders(a.date.day, b.date.day, 2, "T", ClockText(a), ClockText(b));
    FieldOrders(a.date.month, b.date.month, 2, "-", Spelled(a.date.day, 2) + ("T" + ClockText(a)),
                Spelled(b.date.day, 2) + ("T" + ClockText(b)));
  }

  lemma {:induction false} EncodeOrders(a: DateTime, b: DateTime)
    requires Valid(a) && Valid(b) && FourDigitYear(a) && FourDigitYear(b)
    ensures Text.Less(Encode(a), Encode(b)) <==>
            Before(a.date, b.date) || (a.date == b.date && Text.Less(ClockText(a), ClockText(b)))
  {
    Powers();
    FieldOrders(a.date.year, b.date.year, 4, "-", AfterYearText(a), AfterYearText(b));
    AfterYearOrders(a, b);
  }

  lemma {:induction false} PositionOrders(a: DateTime, b: DateTime)
    requires Valid(a) && Valid(b)
    ensures Position(a) < Position(b) <==>
            Before(a.date, b.date) || (a.date == b.date &&
              (a.hour < b.hour || (a.hour == b.hour && (a.minute < b.minute || (a.minute == b.minute &&
                (a.second < b.second || (a.second == b.second && a.nano / 1000 < b.nano / 1000)))))))
  {
    DayNumberOrders(a.date, b.date);
    InMinute(Minutes(a), a.second * 1_000_000 + a.nano / 1000, Minutes(b), b.second * 1_000_000 + b.nano / 1000,
             61_000_000);
    InMinute(a.second, a.nano / 1000, b.second, b.nano / 1000, 1_000_000);
    InMinute(DayNumber(a.date) * 24 + a.hour, a.minute, DayNumber(b.date) * 24 + b.hour, b.minute, 60);
    InMinute(DayNumber(a.date), a.hour, DayNumber(b.date), b.hour, 24);
  }

  /** Within four-digit years the texts compare exactly as the instants do, leap seconds included. */
  lemma {:induction false} TextOrderIsTimeOrder(a: DateTime, b: DateTime)
    requires Valid(a) && Valid(b) && FourDigitYear(a) && FourDigitYear(b)
    ensures Text.Less(Encode(a), Encode(b)) <==> Position(a) < Position(b)
  {
    EncodeOrders(a, b);
    ClockOrders(a, b);
    PositionOrders(a, b);
  }

  /** In particular as the microsecond-floored instants do. */
  lemma {:induction false} TextOrderIsMicrosecondOrder(a: DateTime, b: DateTime)
    requires Valid(a) && Valid(b) && FourDigitYear(a) && FourDigitYear(b) && a.second < 60 && b.second < 60
    ensures Text.Less(Encode(a), Encode(b)) <==> Micros(a) < Micros(b)
    ensures Encode(a) == Encode(b) <==> Micros(a) == Micros(b)
  {
    TextOrderIsTimeOrder(a, b);
    TextOrderIsTimeOrder(b, a);
    PositionOrdersMicros(a, b);
    PositionOrdersMicros(b, a);
    Text.LessTotal(Encode(a), Encode(b));
    Text.LessIrreflexive(Encode(a));
  }

  // ----- Rows -----

  predicate Storable(rows: seq<DateTime>) {
    forall i :: 0 <= i < |rows| ==> Valid(rows[i]) && FourDigitYear(rows[i])
  }

  predicate SortedByText(rows: seq<DateTime>)
    requires Storable(rows)
  {
    forall i, j :: 0 <= i < j < |rows| ==> !Text.Less(Encode(rows[j]), Encode(rows[i]))
  }

  predicate SortedByTime(rows: seq<DateTime>)
    requires Storable(rows)
  {
    forall i, j :: 0 <= i < j < |rows| ==> Position(rows[i]) <= Position(rows[j])
  }

  function RangeByText(rows: seq<DateTime>, low: DateTime, high: DateTime): seq<DateTime>
    requires Storable(rows) && Valid(low) && Valid(high)
  {
    if rows == [] then []
    else
      var keep := !Text.Less(Encode(rows[0]), Encode(low)) && Text.Less(Encode(rows[0]), Encode(high));
      (if keep then [rows[0]] else []) + RangeByText(rows[1..], low, high)
  }

  function RangeByTime(rows: seq<DateTime>, low: DateTime, high: DateTime): seq<DateTime>
    requires Storable(rows) && Valid(low) && Valid(high)
  {
    if rows == [] then []
    else
      var keep := Position(low) <= Position(rows[0]) < Position(high);
      (if keep then [rows[0]] else []) + RangeByTime(rows[1..], low, high)
  }

  /** ORDER BY the text is chronological, and only chronological orders are ordered by the text. */
  lemma {:induction false} SortingByTextIsSortingByTime(rows: seq<DateTime>)
    requires Storable(rows)
    ensures SortedByText(rows) <==> SortedByTime(rows)
  {
    forall i, j | 0 <= i < j < |rows|
      ensures !Text.Less(Encode(rows[j]), Encode(rows[i])) <==> Position(rows[i]) <= Position(rows[j])
    {
      TextOrderIsTimeOrder(rows[j], rows[i]);
    }
  }

  /** A range filter on the text keeps exactly the rows of that time range, in order. */
  lemma {:induction false} FilteringByTextIsFilteringByTime(rows: seq<DateTime>, low: DateTime, high: DateTime)
    requires Storable(rows) && Valid(low) && Valid(high) && FourDigitYear(low) && FourDigitYear(high)
    ensures RangeByText(rows, low, high) == RangeByTime(rows, low, high)
  {
    if rows != [] {
      TextOrderIsTimeOrder(rows[0], low);
      TextOrderIsTimeOrder(rows[0], high);
      FilteringByTextIsFilteringByTime(rows[1..], low, high);
    }
  }

  // ----- Beyond four digits -----

  /** Both directions of comparison agree with time. */
  predicate OrderedRightly(a: DateTime, b: DateTime)
    requires Valid(a) && Valid(b)
  {
    && (Text.Less(Encode(a), Encode(b)) <==> Position(a) < Position(b))
    && (Text.Less(Encode(b), Encode(a)) <==> Position(b) < Position(a))
  }

  lemma {:induction false} FirstCharDecides(a: string, b: string)
    requires a != "" && b != "" && a[0] < b[0]
    ensures Text.Less(a, b) && !Text.Less(b, a)
  {
  }

  lemma {:induction false} LaterYearIsLater(a: DateTime, b: DateTime)
    requires Valid(a) && Valid(b) && a.date.year < b.date.year
    ensures Position(a) < Position(b)
  {
    PositionOrders(a, b);
  }

  /**
   Against any stored timestamp of a four-digit year, another one sorts correctly exactly up to year 9999:
   years before 0 begin with '-' and come first, as they should; years from 10000 begin with '+' and come
   first as well, which is wrong.
   */
  lemma {:induction false} SortsRightlyIff(a: DateTime, b: DateTime)
    requires Valid(a) && Valid(b) && FourDigitYear(a)
    ensures OrderedRightly(a, b) <==> b.date.year <= 9999
  {
    if FourDigitYear(b) {
      TextOrderIsTimeOrder(a, b);
      TextOrderIsTimeOrder(b, a);
    } else {
      assert Encode(a)[0] == YearText(a.date.year)[0] && IsDigit(YearText(a.date.year)[0]);
      assert Encode(b)[0] == if b.date.year < 0 then '-' else '+';
      FirstCharDecides(Encode(b), Encode(a));
      if b.date.year < 0 {
        LaterYearIsLater(b, a);
        PositionOrders(a, b);
      } else {
        LaterYearIsLater(a, b);
      }
    }
  }
}
