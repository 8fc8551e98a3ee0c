/**
 Reading stored timestamps: the `date-time` grammar of section 5.6 of RFC 3339 as a set of spelled fields, the
 decoder as a scanner over the text, and the conversion of local time with an offset to UTC.
 */
module TimestampReader {
  import opened Wrappers
  import opened Calendar
  import opened Digits
  import opened Timestamp
  import Text

  // ----- The grammar -----

  datatype Zone = Zulu(letter: char) | Offset(sign: char, hours: int, minutes: int)

  /** A date-time as written: local fields, the separator, the digits of the fraction, the zone. */
  datatype Fields = Fields(year: int, month: int, day: int, separator: char, hour: int, minute: int, second: int,
                           fraction: string, zone: Zone)

  predicate ValidZone(z: Zone) {
    match z
    case Zulu(letter) => letter == 'Z' || letter == 'z'
    case Offset(sign, hours, minutes) => (sign == '+' || sign == '-') && 0 <= hours < 24 && 0 <= minutes < 60
  }

  predicate ValidFields(f: Fields) {
    && 0 <= f.year <= 9999 && ValidDate(Date(f.year, f.month, f.day))
    && (f.separator == 'T' || f.separator == 't' || f.separator == ' ')
    && ValidTime(f.hour, f.minute, f.second, 0)
    && AllDigits(f.fraction) && ValidZone(f.zone)
  }

  function ZoneText(z: Zone): string
    requires ValidZone(z)
  {
    match z
    case Zulu(letter) => [letter]
    case Offset(sign, hours, minutes) => [sign] + (Spelled(hours, 2) + (":" + (Spelled(minutes, 2) + "")))
  }

  /** A fraction is a point and at least one digit; without digits there is no point. */
  function EndText(f: Fields): string
    requires ValidFields(f)
  {
    (if f.fraction == "" then "" else "." + f.fraction) + ZoneText(f.zone)
  }

  function TimeText(f: Fields): string
    requires ValidFields(f)
  {
    Spelled(f.hour, 2) + (":" + (Spelled(f.minute, 2) + (":" + (Spelled(f.second, 2) + EndText(f)))))
  }

  function Spelling(f: Fields): string
    requires ValidFields(f)
  {
    Spelled(f.year, 4) + ("-" + (Spelled(f.month, 2) + ("-" + (Spelled(f.day, 2) + ([f.separator] + TimeText(f))))))
  }

  // ----- What a date-time means -----

  /** The first nine digits of a fraction as nanoseconds. */
  function FractionNanos(digits: string): int
    requires AllDigits(digits)
  {
    if |digits| >= 9 then Value(digits[..9]) else Value(digits) * Pow10(9 - |digits|)
  }

  function OffsetMinutes(z: Zone): int {
    match z
    case Zulu(_) => 0
    case Offset(sign, hours, minutes) => if sign == '-' then -(hours * 60 + minutes) else hours * 60 + minutes
  }

  /** The UTC time of the fields: minutes of the day less the offset, carried into the neighbouring day. */
  function ToUtc(f: Fields): DateTime
    requires ValidFields(f)
  {
    var date := Date(f.year, f.month, f.day);
    var m := f.hour * 60 + f.minute - OffsetMinutes(f.zone);
    var nano := FractionNanos(f.fraction);
    if m < 0 then DateTime(PreviousDay(date), (m + 1440) / 60, (m + 1440) % 60, f.second, nano)
    else if m >= 1440 then DateTime(NextDay(date), (m - 1440) / 60, (m - 1440) % 60, f.second, nano)
    else DateTime(date, m / 60, m % 60, f.second, nano)
  }

  lemma {:induction false} FractionFits(digits: string)
    requires AllDigits(digits)
    ensures 0 <= FractionNanos(digits) < 1_000_000_000
  {
    TenToTheNinth();
    if |digits| >= 9 {
      SpelledValue(digits[..9]);
    } else {
      SpelledValue(digits);
      PowersMultiply(|digits|, 9 - |digits|);
      Larger(Value(digits), Pow10(|digits|), Pow10(9 - |digits|));
    }
  }

  lemma {:induction false} TenToTheNinth()
    ensures Pow10(9) == 1_000_000_000
  {
    Powers();
    assert Pow10(8) == 100_000_000;
  }

  lemma {:induction false} PowersMultiply(a: nat, b: nat)
    ensures Pow10(a) * Pow10(b) == Pow10(a + b)
  {
    if a > 0 {
      PowersMultiply(a - 1, b);
      assert Pow10(a) * Pow10(b) == 10 * (Pow10(a - 1) * Pow10(b));
    }
  }

  lemma {:induction false} Larger(x: int, y: int, k: int)
    requires 0 <= x < y && 1 <= k
    ensures 0 <= x * k < y * k
  {
    assert (y - x) * k >= 1;
    assert x * k >= 0;
  }

  lemma {:induction false} PreviousYear(d: Date)
    requires ValidDate(d)
    ensures d.year - 1 <= PreviousDay(d).year <= d.year <= NextDay(d).year <= d.year + 1
  {
  }

  /** The conversion subtracts the offset from the instant, whatever day, month or year that leads to. */
  lemma {:induction false} ToUtcSubtractsOffset(f: Fields)
    requires ValidFields(f)
    ensures Valid(ToUtc(f)) && -1 <= ToUtc(f).date.year <= 10000
    ensures Minutes(ToUtc(f)) == (DayNumber(Date(f.year, f.month, f.day)) * 24 + f.hour) * 60 +
            f.minute - OffsetMinutes(f.zone)
    ensures ToUtc(f).second == f.second && ToUtc(f).nano == FractionNanos(f.fraction)
  {
    var date := Date(f.year, f.month, f.day);
    FractionFits(f.fraction);
    NextDayIsOneLater(date);
    PreviousDayIsOneEarlier(date);
    PreviousYear(date);
  }

  /** An offset of so many hours and minutes is taken off the local time if it is positive, and added if negative. */
  lemma {:induction false} UtcInFigures(f: Fields)
    requires ValidFields(f)
    ensures Valid(ToUtc(f))
    ensures var minutes := (DayNumber(Date(f.year, f.month, f.day)) * 24 + f.hour) * 60 + f.minute;
            Minutes(ToUtc(f)) ==
              match f.zone {
                case Zulu(_) => minutes
                case Offset(sign, hours, mins) =>
                  if sign == '+' then minutes - (hours * 60 + mins) else minutes + (hours * 60 + mins)
              }
  {
    ToUtcSubtractsOffset(f);
  }

  /** A fraction is its digits over a power of ten, counted in nanoseconds; digits after the ninth do not matter. */
  lemma {:induction false} FractionInFigures(digits: string)
    requires AllDigits(digits)
    ensures |digits| <= 9 ==> FractionNanos(digits) * Pow10(|digits|) == Value(digits) * 1_000_000_000
    ensures |digits| > 9 ==> FractionNanos(digits) == FractionNanos(digits[..9])
  {
    TenToTheNinth();
    if |digits| <= 9 {
      var w := |digits|;
      PowersMultiply(9 - w, w);
      assert FractionNanos(digits) == Value(digits) * Pow10(9 - w) by {
        if w == 9 {
          assert digits[..9] == digits;
        }
      }
      Regroup(Value(digits), Pow10(9 - w), Pow10(w));
    } else {
      assert digits[..9][..9] == digits[..9];
    }
  }

  lemma {:induction false} Regroup(x: int, y: int, z: int)
    ensures x * y * z == x * (y * z)
  {
  }

  /** The fields there are, in figures. */
  lemma {:induction false} FieldsInFigures(f: Fields)
    ensures var leap := f.year % 4 == 0 && (f.year % 100 != 0 || f.year % 400 == 0);
            var lengths := [31, if leap then 29 else 28, 31, 30, 31, 30, 31, 31, 30, 31, 30, 31];
            ValidFields(f) <==>
              && 0 <= f.year <= 9999 && 1 <= f.month <= 12 && 1 <= f.day <= lengths[f.month - 1]
              && f.separator in ['T', 't', ' ']
              && 0 <= f.hour <= 23 && 0 <= f.minute <= 59 && 0 <= f.second <= 60
              && (forall i :: 0 <= i < |f.fraction| ==> f.fraction[i] in "0123456789")
              && match f.zone {
                   case Zulu(letter) => letter in ['Z', 'z']
                   case Offset(sign, hours, minutes) => sign in ['+', '-'] && 0 <= hours <= 23 && 0 <= minutes <= 59
                 }
  {
    ValidDateIff(Date(f.year, f.month, f.day));
    TheDigits(f.fraction);
  }

  lemma {:induction false} TheDigits(s: string)
    ensures AllDigits(s) <==> forall i :: 0 <= i < |s| ==> s[i] in "0123456789"
  {
    assert forall c: char :: IsDigit(c) <==> c in "0123456789" by {
      forall c: char
        ensures IsDigit(c) <==> c in "0123456789"
      {
        OneDigit(c);
      }
    }
  }

  lemma {:induction false} OneDigit(c: char)
    ensures IsDigit(c) <==> c in "0123456789"
  {
    var all := "0123456789";
    if IsDigit(c) {
      assert all[c as int - '0' as int] == c;
    }
  }

  /** How the fields are spelled, place by place. */
  lemma {:induction false} SpellingInFigures(f: Fields)
    requires ValidFields(f)
    ensures var s := Spelling(f);
            && At(s, 0, Spelled(f.year, 4)) && At(s, 4, "-") && At(s, 5, Spelled(f.month, 2)) && At(s, 7, "-")
            && At(s, 8, Spelled(f.day, 2)) && At(s, 10, [f.separator]) && TimeAt(s, 11, f)
  {
    var front := DateParts(Spelling(f), Spelled(f.year, 4), Spelled(f.month, 2), Spelled(f.day, 2), [f.separator],
                           TimeText(f));
    TimeInFigures(Spelling(f), front, f);
  }

  lemma {:induction false} DateParts(s: string, year: string, month: string, day: string, separator: string,
                                     time: string) returns (front: string)
    requires |year| == 4 && |month| == |day| == 2 && |separator| == 1
    requires s == year + ("-" + (month + ("-" + (day + (separator + time)))))
    ensures At(s, 0, year) && At(s, 4, "-") && At(s, 5, month) && At(s, 7, "-") && At(s, 8, day)
    ensures At(s, 10, separator) && s == front + time && |front| == 11
  {
    AtFront(year, "-" + (month + ("-" + (day + (separator + time)))));
    AtBehind(s, year, "-", month + ("-" + (day + (separator + time))));
    AtBehind(s, year + "-", month, "-" + (day + (separator + time)));
    var half := year + "-" + month;
    AtBehind(s, half, "-", day + (separator + time));
    AtBehind(s, half + "-", day, separator + time);
    AtBehind(s, half + "-" + day, separator, time);
    front := half + "-" + day + separator;
  }

  predicate TimeAt(s: string, i: nat, f: Fields)
    requires ValidFields(f)
  {
    && At(s, i, Spelled(f.hour, 2)) && At(s, i + 2, ":") && At(s, i + 3, Spelled(f.minute, 2))
    && At(s, i + 5, ":") && At(s, i + 6, Spelled(f.second, 2))
    && (f.fraction != "" ==> At(s, i + 8, ".") && At(s, i + 9, f.fraction))
    && ZoneAt(s, i + if f.fraction == "" then 8 else 9 + |f.fraction|, f.zone)
  }

  predicate ZoneAt(s: string, k: nat, z: Zone)
    requires ValidZone(z)
  {
    match z
    case Zulu(letter) => At(s, k, [letter]) && |s| == k + 1
    case Offset(sign, hours, minutes) =>
      && At(s, k, [sign]) && At(s, k + 1, Spelled(hours, 2)) && At(s, k + 3, ":") && At(s, k + 4, Spelled(minutes, 2))
      && |s| == k + 6
  }

  lemma {:induction false} TimeInFigures(s: string, front: string, f: Fields)
    requires ValidFields(f) && s == front + TimeText(f)
    ensures TimeAt(s, |front|, f)
  {
    var hour, minute, second := Spelled(f.hour, 2), Spelled(f.minute, 2), Spelled(f.second, 2);
    var r2 := ":" + (second + EndText(f));
    var r1 := ":" + (minute + r2);
    AtBehind(s, front, hour, r1);
    AtBehind(s, front + hour, ":", minute + r2);
    AtBehind(s, front + hour + ":", minute, r2);
    AtBehind(s, front + hour + ":" + minute, ":", second + EndText(f));
    AtBehind(s, front + hour + ":" + minute + ":", second, EndText(f));
    EndInFigures(s, front + hour + ":" + minute + ":" + second, f);
  }

  lemma {:induction false} EndInFigures(s: string, front: string, f: Fields)
    requires ValidFields(f) && s == front + EndText(f)
    ensures var i := |front|;
            && (f.fraction != "" ==> At(s, i, ".") && At(s, i + 1, f.fraction))
            && ZoneAt(s, i + if f.fraction == "" then 0 else 1 + |f.fraction|, f.zone)
  {
    var zone := ZoneText(f.zone);
    if f.fraction == "" {
      assert "" + zone == zone;
      ZoneInFigures(s, front, f.zone);
    } else {
      assert "." + f.fraction + zone == "." + (f.fraction + zone);
      AtBehind(s, front, ".", f.fraction + zone);
      AtBehind(s, front + ".", f.fraction, zone);
      ZoneInFigures(s, front + "." + f.fraction, f.zone);
    }
  }

  lemma {:induction false} ZoneInFigures(s: string, front: string, z: Zone)
    requires ValidZone(z) && s == front + ZoneText(z)
    ensures ZoneAt(s, |front|, z)
  {
    match z
    case Zulu(letter) =>
    case Offset(sign, hours, minutes) =>
      var h, m := Spelled(hours, 2), Spelled(minutes, 2);
      AtBehind(s, front, [sign], h + (":" + (m + "")));
      AtBehind(s, front + [sign], h, ":" + (m + ""));
      AtBehind(s, front + [sign] + h, ":", m + "");
      AtBehind(s, front + [sign] + h + ":", m, "");
  }

  // ----- The decoder -----

  function ReadChar(s: string, allowed: string): Option<(char, string)> {
    if s != "" && s[0] in allowed then Some((s[0], s[1..])) else None
  }

  function ReadZone(s: string): Option<Zone> {
    if s == "Z" || s == "z" then Some(Zulu(s[0]))
    else
      match ReadChar(s, "+-")
      case None => None
      case Some(sign) =>
        match ReadNumber(sign.1, 2)
        case None => None
        case Some(hours) =>
          match ReadChar(hours.1, ":")
          case None => None
          case Some(colon) =>
            match ReadNumber(colon.1, 2)
            case None => None
            case Some(minutes) =>
              if minutes.1 == "" && hours.0 < 24 &&
                  minutes.0 < 60 then Some(Offset(sign.0, hours.0, minutes.0)) else None
  }

  /** The fraction, if there is a point, and the zone. */
  function ReadEnd(s: string): Option<(string, Zone)> {
    if s != "" && s[0] == '.' then
      var r := s[1..];
      var n := DigitRun(r);
      if n == 0 then None
      else
        match ReadZone(r[n..])
        case Some(z) => Some((r[..n], z))
        case None => None
    else
      match ReadZone(s)
      case Some(z) => Some(("", z))
      case None => None
  }

  datatype Clock = Clock(hour: int, minute: int, second: int, fraction: string, zone: Zone)

  function ReadClock(s: string): Option<Clock> {
    match ReadNumber(s, 2)
    case None => None
    case Some(hour) =>
      match ReadChar(hour.1, ":")
      case None => None
      case Some(c1) =>
        match ReadNumber(c1.1, 2)
        case None => None
        case Some(minute) =>
          match ReadChar(minute.1, ":")
          case None => None
          case Some(c2) =>
            match ReadNumber(c2.1, 2)
            case None => None
            case Some(second) =>
              match ReadEnd(second.1)
              case None => None
              case Some(end) =>
                if hour.0 < 24 && minute.0 < 60 && second.0 <= 60 then
                  Some(Clock(hour.0, minute.0, second.0, end.0, end.1))
                else None
  }

  function ReadDate(s: string): Option<(Date, string)> {
    match ReadNumber(s, 4)
    case None => None
    case Some(year) =>
      match ReadChar(year.1, "-")
      case None => None
      case Some(c1) =>
        match ReadNumber(c1.1, 2)
        case None => None
        case Some(month) =>
          match ReadChar(month.1, "-")
          case None => None
          case Some(c2) =>
            match ReadNumber(c2.1, 2)
            case None => None
            case Some(day) =>
              if ValidDate(Date(year.0, month.0, day.0)) then Some((Date(year.0, month.0, day.0), day.1)) else None
  }

  function ReadFields(s: string): Option<Fields> {
    match ReadDate(s)
    case None => None
    case Some(d) =>
      match ReadChar(d.1, "Tt ")
      case None => None
      case Some(separator) =>
        match ReadClock(separator.1)
        case None => None
        case Some(c) => Some(Fields(d.0.year, d.0.month, d.0.day, separator.0, c.hour, c.minute, c.second, c.fraction,
                                    c.zone))
  }

  // ----- The decoder reads the grammar -----

  lemma {:induction false} ReadsChar(c: char, rest: string, allowed: string)
    requires c in allowed
    ensures ReadChar([c] + rest, allowed) == Some((c, rest))
  {
    assert ([c] + rest)[1..] == rest;
  }

  lemma {:induction false} CharRead(s: string, allowed: string)
    requires ReadChar(s, allowed).Some?
    ensures var r := ReadChar(s, allowed).value; r.0 in allowed && s == [r.0] + r.1
  {
  }

  lemma {:induction false} ReadsZone(z: Zone)
    requires ValidZone(z)
    ensures ReadZone(ZoneText(z)) == Some(z)
  {
    match z
    case Zulu(_) =>
    case Offset(sign, hours, minutes) =>
      Powers();
      var m := Spelled(minutes, 2) + "";
      var h := Spelled(hours, 2) + (":" + m);
      ReadsChar(sign, h, "+-");
      ReadsSpelled(hours, 2, ":" + m);
      ReadsChar(':', m, ":");
      ReadsSpelled(minutes, 2, "");
      assert ([sign] + h)[0] == sign;
  }

  lemma {:induction false} ZoneRead(s: string)
    requires ReadZone(s).Some?
    ensures ValidZone(ReadZone(s).value) && s == ZoneText(ReadZone(s).value)
  {
    if s != "Z" && s != "z" {
      CharRead(s, "+-");
      var sign := ReadChar(s, "+-").value;
      ReadIsSpelled(sign.1, 2);
      var hours := ReadNumber(sign.1, 2).value;
      CharRead(hours.1, ":");
      var colon := ReadChar(hours.1, ":").value;
      ReadIsSpelled(colon.1, 2);
    }
  }

  lemma {:induction false} ZoneStart(z: Zone)
    requires ValidZone(z)
    ensures ZoneText(z) != "" && !IsDigit(ZoneText(z)[0]) && ZoneText(z)[0] != '.'
  {
  }

  lemma {:induction false} ReadsEnd(fraction: string, z: Zone)
    requires AllDigits(fraction) && ValidZone(z)
    ensures ReadEnd((if fraction == "" then "" else "." + fraction) + ZoneText(z)) == Some((fraction, z))
  {
    ReadsZone(z);
    ZoneStart(z);
    var zone := ZoneText(z);
    if fraction == "" {
      assert "" + zone == zone;
    } else {
      RunOf(fraction, zone);
      PointThen(fraction, zone);
    }
  }

  lemma {:induction false} PointThen(fraction: string, zone: string)
    ensures var s := "." + fraction + zone;
            && s[0] == '.' && s[1..] == fraction + zone
            && s[1..][..|fraction|] == fraction && s[1..][|fraction|..] == zone
  {
  }

  lemma {:induction false} EndRead(s: string)
    requires ReadEnd(s).Some?
    ensures var r := ReadEnd(s).value;
            && AllDigits(r.0) && ValidZone(r.1)
            && s == (if r.0 == "" then "" else "." + r.0) + ZoneText(r.1)
  {
    if s[0] == '.' {
      var r := s[1..];
      var n := DigitRun(r);
      ZoneRead(r[n..]);
      PointAndParts(s, n);
    } else {
      ZoneRead(s);
      assert "" + s == s;
    }
  }

  lemma {:induction false} PointAndParts(s: string, n: nat)
    requires s != "" && s[0] == '.' && n <= |s[1..]|
    ensures s == "." + s[1..][..n] + s[1..][n..]
  {
  }

  lemma {:induction false} ReadsClock(f: Fields)
    requires ValidFields(f)
    ensures ReadClock(TimeText(f)) == Some(Clock(f.hour, f.minute, f.second, f.fraction, f.zone))
  {
    Powers();
    var end := EndText(f);
    var s3 := Spelled(f.second, 2) + end;
    var s2 := Spelled(f.minute, 2) + (":" + s3);
    ReadsSpelled(f.hour, 2, ":" + s2);
    ReadsChar(':', s2, ":");
    ReadsSpelled(f.minute, 2, ":" + s3);
    ReadsChar(':', s3, ":");
    ReadsSpelled(f.second, 2, end);
    ReadsEnd(f.fraction, f.zone);
  }

  lemma {:induction false} ReadsDate(date: Date, rest: string)
    requires ValidDate(date) && 0 <= date.year <= 9999
    ensures ReadDate(Spelled(date.year, 4) + ("-" +
                                              (Spelled(date.month, 2) + ("-" + (Spelled(date.day, 2) + rest))))) ==
                                                  Some((date, rest))
  {
    Powers();
    var s2 := Spelled(date.day, 2) + rest;
    var s1 := Spelled(date.month, 2) + ("-" + s2);
    ReadsSpelled(date.year, 4, "-" + s1);
    ReadsChar('-', s1, "-");
    ReadsSpelled(date.month, 2, "-" + s2);
    ReadsChar('-', s2, "-");
    ReadsSpelled(date.day, 2, rest);
  }

  lemma {:induction false} ReadsSpelling(f: Fields)
    requires ValidFields(f)
    ensures ReadFields(Spelling(f)) == Some(f)
  {
    ReadsDate(Date(f.year, f.month, f.day), [f.separator] + TimeText(f));
    ReadsChar(f.separator, TimeText(f), "Tt ");
    ReadsClock(f);
  }

  lemma {:induction false} ClockRead(s: string)
    requires ReadClock(s).Some?
    ensures var c := ReadClock(s).value;
            && ValidTime(c.hour, c.minute, c.second, 0) && AllDigits(c.fraction) && ValidZone(c.zone)
            && s == Spelled(c.hour, 2) + (":" + (Spelled(c.minute, 2) + (":" + (Spelled(c.second, 2) +
                      ((if c.fraction == "" then "" else "." + c.fraction) + ZoneText(c.zone))))))
  {
    ReadIsSpelled(s, 2);
    var hour := ReadNumber(s, 2).value;
    CharRead(hour.1, ":");
    var c1 := ReadChar(hour.1, ":").value;
    ReadIsSpelled(c1.1, 2);
    var minute := ReadNumber(c1.1, 2).value;
    CharRead(minute.1, ":");
    var c2 := ReadChar(minute.1, ":").value;
    ReadIsSpelled(c2.1, 2);
    EndRead(ReadNumber(c2.1, 2).value.1);
  }

  lemma {:induction false} DateRead(s: string)
    requires ReadDate(s).Some?
    ensures var r := ReadDate(s).value;
            && ValidDate(r.0) && 0 <= r.0.year <= 9999
            && s == Spelled(r.0.year, 4) + ("-" + (Spelled(r.0.month, 2) + ("-" + (Spelled(r.0.day, 2) + r.1))))
  {
    Powers();
    ReadIsSpelled(s, 4);
    var year := ReadNumber(s, 4).value;
    CharRead(year.1, "-");
    var c1 := ReadChar(year.1, "-").value;
    ReadIsSpelled(c1.1, 2);
    var month := ReadNumber(c1.1, 2).value;
    CharRead(month.1, "-");
    var c2 := ReadChar(month.1, "-").value;
    ReadIsSpelled(c2.1, 2);
  }

  lemma {:induction false} FieldsRead(s: string)
    requires ReadFields(s).Some?
    ensures ValidFields(ReadFields(s).value) && s == Spelling(ReadFields(s).value)
  {
    DateRead(s);
    var d := ReadDate(s).value;
    CharRead(d.1, "Tt ");
    ClockRead(ReadChar(d.1, "Tt ").value.1);
  }

  /** `from_sql`: parse, then convert to UTC. */
  function Decode(s: string): Option<DateTime> {
    match ReadFields(s)
    case None => None
    case Some(f) => FieldsRead(s); Some(ToUtc(f))
  }

  /** The decoder accepts exactly the date-time texts of the grammar, and gives their UTC time. */
  lemma {:induction false} DecodeIsTheGrammar(s: string)
    ensures Decode(s).Some? <==> exists f :: ValidFields(f) && s == Spelling(f)
    ensures forall f :: ValidFields(f) && s == Spelling(f) ==> Decode(s) == Some(ToUtc(f))
  {
    if Decode(s).Some? {
      FieldsRead(s);
    }
    forall f | ValidFields(f) && s == Spelling(f)
      ensures Decode(s) == Some(ToUtc(f))
    {
      ReadsSpelling(f);
    }
  }

  // ----- Round trips -----

  /** The fields that the encoder writes. */
  function Canonical(t: DateTime): Fields
    requires Valid(t)
  {
    Fields(t.date.year, t.date.month, t.date.day, 'T', t.hour, t.minute, t.second, Spelled(t.nano / 1000, 6), Zulu('Z'))
  }

  /** Every encoding of a four-digit year is 27 characters and spells a date-time in UTC with six fraction digits. */
  lemma {:induction false} EncodingConforms(t: DateTime)
    requires Valid(t) && FourDigitYear(t)
    ensures |Encode(t)| == 27
    ensures ValidFields(Canonical(t)) && Encode(t) == Spelling(Canonical(t))
  {
    var f := Canonical(t);
    assert "." + f.fraction + "Z" == "." + FractionText(t);
    assert EndText(f) == "." + FractionText(t);
    assert "T" == ['T'];
  }

  lemma {:induction false} SixDigits(t: DateTime)
    requires Valid(t)
    ensures FractionNanos(Spelled(t.nano / 1000, 6)) == t.nano / 1000 * 1000
  {
    Powers();
    ValueOfSpelled(t.nano / 1000, 6);
    assert Pow10(3) == 1000;
  }

  lemma {:induction false} SignedIsRejected(s: string)
    requires s != "" && !IsDigit(s[0])
    ensures Decode(s) == None
  {
    if |s| >= 4 {
      assert s[..4][0] == s[0];
    }
  }

  lemma {:induction false} RoundTripInRange(t: DateTime)
    requires Valid(t) && FourDigitYear(t)
    ensures Decode(Encode(t)) == Some(Floored(t))
  {
    EncodingConforms(t);
    ReadsSpelling(Canonical(t));
    SixDigits(t);
    CanonicalIsUtc(t);
  }

  lemma {:induction false} CanonicalIsUtc(t: DateTime)
    requires Valid(t) && ValidFields(Canonical(t)) && FractionNanos(Canonical(t).fraction) == t.nano / 1000 * 1000
    ensures ToUtc(Canonical(t)) == Floored(t)
  {
  }

  /** Decoding an encoding gives the instant floored to the microsecond exactly for years 0 to 9999; else it fails. */
  lemma {:induction false} RoundTripIff(t: DateTime)
    requires Valid(t)
    ensures Decode(Encode(t)) == Some(Floored(t)) <==> FourDigitYear(t)
    ensures !FourDigitYear(t) ==> Decode(Encode(t)) == None
  {
    if FourDigitYear(t) {
      RoundTripInRange(t);
    } else {
      SignFirst(t);
      SignedIsRejected(Encode(t));
    }
  }

  lemma {:induction false} SignFirst(t: DateTime)
    requires Valid(t) && !FourDigitYear(t)
    ensures Encode(t) != "" && !IsDigit(Encode(t)[0])
  {
    assert Encode(t)[0] == YearText(t.date.year)[0];
  }

  lemma {:induction false} SameMicro(nano: int)
    requires 0 <= nano
    ensures nano / 1000 * 1000 / 1000 == nano / 1000
    ensures 0 <= nano / 1000 * 1000 <= nano
  {
  }

  lemma {:induction false} EncodeDropsTheRest(t: DateTime)
    requires Valid(t)
    ensures Valid(Floored(t)) && Encode(Floored(t)) == Encode(t)
  {
    SameMicro(t.nano);
    assert FractionText(Floored(t)) == FractionText(t);
    assert ClockText(Floored(t)) == ClockText(t);
  }

  /**
   Reading any date-time text and writing it again gives the canonical text of the same instant, floored to
   the microsecond, and reading that is a fixed point, exactly if its year in UTC has four digits. (An offset
   can carry the first hours of year 0 or the last of year 9999 out of range.)
   */
  lemma {:induction false} NormalisationIsStableIff(s: string)
    requires Decode(s).Some?
    ensures Valid(Decode(s).value)
    ensures var t := Decode(s).value;
            && (Decode(Encode(t)) == Some(Floored(t)) <==> FourDigitYear(t))
            && (Decode(Encode(t)).Some? <==> FourDigitYear(t))
            && Valid(Floored(t)) && Encode(Floored(t)) == Encode(t)
  {
    FieldsRead(s);
    ToUtcSubtractsOffset(ReadFields(s).value);
    var t := Decode(s).value;
    RoundTripIff(t);
    EncodeDropsTheRest(t);
  }

  /** Nothing but the year decides whether, and with what sign, a text begins. */
  lemma {:induction false} FirstChar(t: DateTime)
    requires Valid(t)
    ensures Encode(t) != ""
    ensures IsDigit(Encode(t)[0]) <==> FourDigitYear(t)
    ensures Encode(t)[0] == '-' <==> t.date.year < 0
  {
    assert Encode(t)[0] == YearText(t.date.year)[0];
  }

  lemma {:induction false} SameYear(a: DateTime, b: DateTime)
    requires Valid(a) && Valid(b) && a.date.year == b.date.year
    ensures Encode(a) == Encode(b) <==> AfterYearText(a) == AfterYearText(b)
  {
    var x, y := AfterYearText(a), AfterYearText(b);
    SamePrefix("-", x, y);
    SamePrefix(YearText(a.date.year), "-" + x, "-" + y);
  }

  lemma {:induction false} SamePrefix(prefix: string, x: string, y: string)
    ensures prefix + x == prefix + y <==> x == y
  {
    if prefix + x == prefix + y {
      assert (prefix + x)[|prefix|..] == x && (prefix + y)[|prefix|..] == y;
    }
  }

  lemma {:induction false} SameYearOrder(a: DateTime, b: DateTime)
    requires Valid(a) && Valid(b) && a.date.year == b.date.year
    ensures Text.Less(AfterYearText(a), AfterYearText(b)) <==> Position(a) < Position(b)
  {
    AfterYearOrders(a, b);
    ClockOrders(a, b);
    PositionOrders(a, b);
  }

  /** The texts of a year, even of one with a sign, are equal exactly when the instants are. */
  lemma {:induction false} SameTextWithinYear(a: DateTime, b: DateTime)
    requires Valid(a) && Valid(b) && a.date.year == b.date.year
    ensures Encode(a) == Encode(b) <==> Position(a) == Position(b)
  {
    SameYear(a, b);
    SameYearOrder(a, b);
    SameYearOrder(b, a);
    Text.LessTotal(AfterYearText(a), AfterYearText(b));
    Text.LessIrreflexive(AfterYearText(a));
  }

  lemma {:induction false} SameTextIff(a: DateTime, b: DateTime)
    requires Valid(a) && Valid(b) && -1 <= a.date.year <= 10000 && -1 <= b.date.year <= 10000
    ensures Encode(a) == Encode(b) <==> Position(a) == Position(b)
  {
    if a.date.year == b.date.year {
      SameTextWithinYear(a, b);
    } else if FourDigitYear(a) && FourDigitYear(b) {
      TextOrderIsTimeOrder(a, b);
      TextOrderIsTimeOrder(b, a);
      Text.LessTotal(Encode(a), Encode(b));
      Text.LessIrreflexive(Encode(a));
    } else {
      FirstChar(a);
      FirstChar(b);
      PositionOrders(a, b);
      PositionOrders(b, a);
    }
  }

  /** Two texts of the same instant, whatever their offsets and separators, are stored alike, and only those. */
  lemma {:induction false} SameInstantSameText(s1: string, s2: string)
    requires Decode(s1).Some? && Decode(s2).Some?
    ensures Valid(Decode(s1).value) && Valid(Decode(s2).value)
    ensures Encode(Decode(s1).value) == Encode(Decode(s2).value) <==>
            Position(Decode(s1).value) == Position(Decode(s2).value)
  {
    FieldsRead(s1);
    FieldsRead(s2);
    ToUtcSubtractsOffset(ReadFields(s1).value);
    ToUtcSubtractsOffset(ReadFields(s2).value);
    SameTextIff(Decode(s1).value, Decode(s2).value);
  }
}
