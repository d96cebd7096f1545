/** Instants and the few pieces of JavaScript's Date the application relies on.
    An instant is a count of milliseconds since 1970-01-01T00:00 on the local
    wall clock; the model takes the local time zone to be UTC, so local and
    universal time coincide. */
module DateTime {
  import opened Common

  type Instant = int

  const MsPerMinute: int := 60_000
  const MsPerHour: int := 3_600_000
  const MsPerDay: int := 86_400_000

  /** The largest magnitude a JavaScript time value may have (TimeClip). */
  const MaxTime: int := 8_640_000_000_000_000

  /** The result of JavaScript's `Number(s)`. */
  datatype JsNumber = NaN | Num(value: int)

  /** `Number(s)` for the forms a date or time field takes: surrounding white
      space is ignored, an empty or blank string is 0, an optional sign followed
      by decimal digits is that integer, and anything else is NaN. */
  function ToNumber(s: string): (n: JsNumber)
    ensures Trim(s) == [] ==> n == Num(0)
  {
    var t := Trim(s);
    if t == [] then Num(0)
    else
      var sign := if t[0] == '-' then -1 else 1;
      var digits := if t[0] == '-' || t[0] == '+' then t[1..] else t;
      if digits != [] && forall i :: 0 <= i < |digits| ==> IsDigit(digits[i])
      then Num(sign * DigitsValue(digits))
      else NaN
  }

  /** Days from 1970-01-01 to the given proleptic Gregorian date (month 1..12). */
  function DaysFromCivil(y: int, m: int, d: int): int
    requires 1 <= m <= 12
  {
    var y1 := if m <= 2 then y - 1 else y;
    var era := y1 / 400;
    var yoe := y1 - era * 400;
    var mp := if m > 2 then m - 3 else m + 9;
    var doy := (153 * mp + 2) / 5 + d - 1;
    var doe := yoe * 365 + yoe / 4 - yoe / 100 + doy;
    era * 146097 + doe - 719468
  }

  /** ECMAScript MakeDay: a month outside 0..11 carries into the year, and a day
      outside the month carries into the following or preceding months. */
  function MakeDay(year: int, month: int, date: int): int
  {
    var ym := year + month / 12;
    var mn := month % 12;
    DaysFromCivil(ym, mn + 1, 1) + date - 1
  }

  /** `new Date(year, month, day, hours, minutes)` in local time: NaN when any
      argument is NaN or the result lies beyond TimeClip's range; a year 0..99
      means 1900..1999. */
  function LocalDate(year: JsNumber, month: JsNumber, day: JsNumber,
                     hours: JsNumber, minutes: JsNumber): (r: Option<Instant>)
    ensures r.Some? ==> -MaxTime <= r.value <= MaxTime
    ensures (year.NaN? || month.NaN? || day.NaN? || hours.NaN? || minutes.NaN?) ==> r.None?
  {
    if year.NaN? || month.NaN? || day.NaN? || hours.NaN? || minutes.NaN? then None
    else
      var y := if 0 <= year.value <= 99 then 1900 + year.value else year.value;
      var t := MakeDay(y, month.value, day.value) * MsPerDay
               + hours.value * MsPerHour + minutes.value * MsPerMinute;
      if -MaxTime <= t <= MaxTime then Some(t) else None
  }

  /** The local calendar day an instant falls on, counted from 1970-01-01. */
  function DayOf(t: Instant): int {
    t / MsPerDay
  }

  /** `setHours(0, 0, 0, 0)`: the first millisecond of the instant's day. */
  function DayStart(t: Instant): (s: Instant)
    ensures s <= t < s + MsPerDay && s % MsPerDay == 0
  {
    DayOf(t) * MsPerDay
  }

  /** `setHours(23, 59, 59, 999)`: the last millisecond of the instant's day
      (before TimeClip). */
  function DayEnd(t: Instant): (e: Instant)
    ensures t <= e < t + MsPerDay && (e + 1) % MsPerDay == 0
  {
    DayStart(t) + MsPerDay - 1
  }

  /** An instant lies in another's day window exactly when both fall on the
      same calendar day. */
  lemma SameDayWindow(t: Instant, e: Instant)
    ensures DayStart(t) <= e <= DayEnd(t) <==> DayOf(e) == DayOf(t)
  {
    var k := DayOf(t);
    var j := DayOf(e);
    assert j * MsPerDay <= e < j * MsPerDay + MsPerDay;
    if DayStart(t) <= e <= DayEnd(t) {
      assert k * MsPerDay <= e < (k + 1) * MsPerDay;
    }
  }

  /** The day window of an instant contains the instant itself. */
  lemma InOwnWindow(t: Instant)
    ensures DayStart(t) <= t <= DayEnd(t)
  {
    SameDayWindow(t, t);
  }

  /** The proleptic Gregorian (year, month 1..12) of a day count. */
  function CivilYearMonth(days: int): (int, int)
  {
    var z := days + 719468;
    var era := z / 146097;
    var doe := z - era * 146097;
    var yoe := (doe - doe / 1460 + doe / 36524 - doe / 146096) / 365;
    var doy := doe - (365 * yoe + yoe / 4 - yoe / 100);
    var mp := (5 * doy + 2) / 153;
    var m := if mp < 10 then mp + 3 else mp - 9;
    (yoe + era * 400 + (if m <= 2 then 1 else 0), m)
  }

  /** The decimal rendering of an integer, with a leading minus sign when negative. */
  function IntToString(n: int): (s: string)
    ensures n >= 0 ==> s == NatToString(n)
  {
    if n < 0 then "-" + NatToString(-n) else NatToString(n)
  }

  /** `String(n).padStart(2, '0')`. */
  function PadStart2(n: int): (s: string)
    ensures |s| >= 2
    ensures 0 <= n < 10 ==> s == ['0', '0' + n as char]
    ensures 10 <= n < 100 ==> s == NatToString(n)
  {
    var d := IntToString(n);
    if |d| < 2 then ['0'] + d else d
  }

  /** The `YYYY-MM` key of a year and a month 1..12. */
  function MonthKey(year: int, month: int): string {
    IntToString(year) + "-" + PadStart2(month)
  }

  /** `${d.getFullYear()}-${String(d.getMonth() + 1).padStart(2, '0')}` of an instant. */
  function MonthKeyOf(t: Instant): string {
    var (y, m) := CivilYearMonth(DayOf(t));
    MonthKey(y, m)
  }
}
