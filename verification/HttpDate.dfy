/** HTTP dates as Unix timestamps (`communication/HttpDate`). */
module HttpDate {
  import opened Bytes

  // ---- The closed formula --------------------------------------------------------

  /** Integer division that truncates toward zero. */
  function TruncDiv(a: int, b: int): int
    requires b > 0
  {
    if a >= 0 then a / b else -(-a / b)
  }

  function DaysFromCivil(year: int, m: int, d: int): int {
    var y := if m <= 2 then year - 1 else year;
    var era := TruncDiv(y, 400);
    var yoe := y - era * 400;
    var doy := TruncDiv(153 * (if m > 2 then m - 3 else m + 9) + 2, 5) + d - 1;
    var doe := yoe * 365 + TruncDiv(yoe, 4) - TruncDiv(yoe, 100) + doy;
    era * 146097 + doe - 719468
  }

  // ---- The fields of a date ---------------------------------------------------------

  /** What `sscanf` stores when all seven conversions succeed (the time zone is not looked at). */
  datatype Fields = Fields(day: int, mon: string, year: int, hour: int, min: int, sec: int)

  const MONTHS: seq<string> :=
    ["Jan", "Feb", "Mar", "Apr", "May", "Jun", "Jul", "Aug", "Sep", "Oct", "Nov", "Dec"]

  function Timestamp(year: int, month: int, day: int, hour: int, min: int, sec: int): int {
    DaysFromCivil(year, month, day) * 86400 + hour * 3600 + min * 60 + sec
  }

  predicate InRange(f: Fields) {
    1 <= f.day <= 31 && 0 <= f.hour <= 23 && 0 <= f.min <= 59 && 0 <= f.sec <= 60
  }

  /** The month with this three-letter name. */
  predicate IsMonth(name: string, m: int) {
    match m
    case 1 => name == "Jan"
    case 2 => name == "Feb"
    case 3 => name == "Mar"
    case 4 => name == "Apr"
    case 5 => name == "May"
    case 6 => name == "Jun"
    case 7 => name == "Jul"
    case 8 => name == "Aug"
    case 9 => name == "Sep"
    case 10 => name == "Oct"
    case 11 => name == "Nov"
    case 12 => name == "Dec"
    case _ => false
  }

  lemma MonthsByName(name: string)
    ensures forall k :: 0 <= k < 12 ==> (MONTHS[k] == name <==> IsMonth(name, k + 1))
    ensures name in MONTHS <==> exists m :: IsMonth(name, m)
  {
    forall m | IsMonth(name, m)
      ensures name in MONTHS
    {
      assert MONTHS[m - 1] == name;
    }
  }

  /** `None` for `scan` stands for a conversion that failed. */
  method ParseHttpDate(scan: Option<Fields>) returns (r: Option<int>)
    ensures r.Some? <==>
            && scan.Some? && (exists m :: IsMonth(scan.value.mon, m))
            && 1 <= scan.value.day <= 31 && 0 <= scan.value.hour <= 23 && 0 <= scan.value.min <= 59 && 0 <= scan.value.sec <= 60
    ensures r.Some? ==>
              exists m :: IsMonth(scan.value.mon, m) &&
                          var f := scan.value;
                          r.value == Timestamp(f.year, m, f.day, f.hour, f.min, f.sec)
  {
    if scan.None? {
      return None;
    }
    var f := scan.value;
    var month := 0;
    for i := 0 to 12
      invariant month == 0 && f.mon !in MONTHS[..i]
    {
      if f.mon == MONTHS[i] {
        month := i + 1;
        break;
      }
    }
    MonthsByName(f.mon);
    assert MONTHS[..12] == MONTHS;
    assert month > 0 ==> IsMonth(f.mon, month);
    if month == 0 {
      return None;
    }
    if f.day < 1 || f.day > 31 {
      return None;
    }
    if f.hour < 0 || f.hour > 23 {
      return None;
    }
    if f.min < 0 || f.min > 59 {
      return None;
    }
    if f.sec < 0 || f.sec > 60 {
      return None;
    }
    var days := DaysFromCivil(f.year, month, f.day);
    var ts := days * 86400 + f.hour * 3600 + f.min * 60 + f.sec;
    return Some(ts);
  }

  // ---- Reference: counting days one by one ---------------------------------------------

  datatype Date = Date(y: int, m: int, d: int)

  const EPOCH := Date(1970, 1, 1)

  predicate IsLeap(y: int) {
    y % 4 == 0 && (y % 100 != 0 || y % 400 == 0)
  }

  function DaysInMonth(y: int, m: int): int {
    if m == 2 then (if IsLeap(y) then 29 else 28)
    else if m == 4 || m == 6 || m == 9 || m == 11 then 30
    else 31
  }

  /** A date of the Gregorian calendar from 1970 on. */
  predicate IsReal(t: Date) {
    t.y >= 1970 && 1 <= t.m <= 12 && 1 <= t.d <= DaysInMonth(t.y, t.m)
  }

  function PrevDay(t: Date): (p: Date)
    requires IsReal(t) && t != EPOCH
    ensures IsReal(p) && Before(p, t)
  {
    if t.d > 1 then Date(t.y, t.m, t.d - 1)
    else if t.m > 1 then Date(t.y, t.m - 1, DaysInMonth(t.y, t.m - 1))
    else Date(t.y - 1, 12, 31)
  }

  function NextDay(t: Date): (n: Date)
    requires IsReal(t)
    ensures IsReal(n) && n != EPOCH && PrevDay(n) == t
  {
    if t.d < DaysInMonth(t.y, t.m) then Date(t.y, t.m, t.d + 1)
    else if t.m < 12 then Date(t.y, t.m + 1, 1)
    else Date(t.y + 1, 1, 1)
  }

  predicate Before(a: Date, b: Date) {
    a.y < b.y || (a.y == b.y && (a.m < b.m || (a.m == b.m && a.d < b.d)))
  }

  /** The number of days counted back to 1 January 1970. */
  function DayCount(t: Date): nat
    requires IsReal(t)
    decreases t.y, t.m, t.d
  {
    if t == EPOCH then 0 else 1 + DayCount(PrevDay(t))
  }

  // ---- The formula counts days ------------------------------------------------------------

  function Days(t: Date): int {
    DaysFromCivil(t.y, t.m, t.d)
  }

  /** Days before 1 March of year `y`, eras folded away. */
  function YearDays(y: nat): int {
    365 * y + y / 4 - y / 100 + y / 400
  }

  lemma EraFolds(y: nat)
    ensures var era := y / 400; var yoe := y - era * 400;
            era * 146097 + (yoe * 365 + yoe / 4 - yoe / 100) == YearDays(y)
  {
    var era := y / 400;
    var yoe := y % 400;
    assert y == era * 400 + yoe;
    assert y / 4 == era * 100 + yoe / 4;
    assert y / 100 == era * 4 + yoe / 100;
  }

  lemma DaysFormula(y: int, m: int, d: int)
    requires y >= 1 && 1 <= m <= 12
    ensures DaysFromCivil(y, m, d) ==
            (if m <= 2 then YearDays(y - 1) else YearDays(y))
            + (153 * (if m > 2 then m - 3 else m + 9) + 2) / 5 + d - 1 - 719468
  {
    EraFolds(if m <= 2 then y - 1 else y);
  }

  lemma FourStep(y: nat)
    requires y >= 1
    ensures y / 4 == (y - 1) / 4 + (if y % 4 == 0 then 1 else 0)
  {}

  lemma CenturyStep(y: nat)
    requires y >= 1
    ensures y / 100 == (y - 1) / 100 + (if y % 100 == 0 then 1 else 0)
  {}

  lemma EraStep(y: nat)
    requires y >= 1
    ensures y / 400 == (y - 1) / 400 + (if y % 400 == 0 then 1 else 0)
  {}

  /** A leap century is a century, and a century is a fourth year. */
  lemma MultiplesNest(y: nat)
    ensures y % 100 == 0 ==> y % 4 == 0
    ensures y % 400 == 0 ==> y % 100 == 0
  {
    var century, era := y / 100, y / 400;
    if y % 100 == 0 {
      FourTimes(25 * century);
    }
    if y % 400 == 0 {
      HundredTimes(4 * era);
    }
  }

  lemma FourTimes(k: nat)
    ensures 4 * k % 4 == 0
  {}

  lemma HundredTimes(k: nat)
    ensures 100 * k % 100 == 0
  {}

  lemma YearStep(y: nat)
    requires y >= 1
    ensures YearDays(y) == YearDays(y - 1) + (if IsLeap(y) then 366 else 365)
  {
    FourStep(y);
    CenturyStep(y);
    EraStep(y);
    MultiplesNest(y);
  }

  /** One day back is one less: across month, leap-year, century and 400-year ends. */
  lemma FormulaStep(t: Date)
    requires IsReal(t) && t != EPOCH
    ensures Days(t) == Days(PrevDay(t)) + 1
  {
    hide YearDays, DaysFromCivil, IsLeap;
    var p := PrevDay(t);
    DaysFormula(t.y, t.m, t.d);
    DaysFormula(p.y, p.m, p.d);
    YearStep(t.y);
  }

  lemma EpochIsZero()
    ensures Days(EPOCH) == 0
  {
    assert YearDays(1969) == 719162;
    DaysFormula(1970, 1, 1);
  }

  /** For every real date from 1970 on the formula is the number of days counted one by one. */
  lemma {:induction false} FormulaCountsDays(t: Date)
    requires IsReal(t)
    ensures Days(t) == DayCount(t)
    decreases t.y, t.m, t.d
  {
    hide Days;
    if t == EPOCH {
      EpochIsZero();
    } else {
      FormulaStep(t);
      FormulaCountsDays(PrevDay(t));
    }
  }

  lemma {:induction false} LaterDateCountsMore(a: Date, b: Date)
    requires IsReal(a) && IsReal(b) && Before(a, b)
    ensures Days(a) < Days(b)
    decreases b.y, b.m, b.d
  {
    hide Days, IsLeap;
    FormulaStep(b);
    var p := PrevDay(b);
    if a != p {
      assert Before(a, p);
      LaterDateCountsMore(a, p);
    }
  }

  // ---- Timestamps are ordered like dates and times -------------------------------------------

  datatype Moment = Moment(date: Date, hour: int, min: int, sec: int)

  /** Seconds 0 to 59: the leap second that the parser also accepts is left to `LeapSecondIsNextMinute`. */
  predicate IsOrdinary(t: Moment) {
    IsReal(t.date) && 0 <= t.hour <= 23 && 0 <= t.min <= 59 && 0 <= t.sec <= 59
  }

  predicate Earlier(a: Moment, b: Moment) {
    Before(a.date, b.date) ||
    (a.date == b.date &&
     (a.hour < b.hour || (a.hour == b.hour && (a.min < b.min || (a.min == b.min && a.sec < b.sec)))))
  }

  function Stamp(t: Moment): int {
    Timestamp(t.date.y, t.date.m, t.date.d, t.hour, t.min, t.sec)
  }

  lemma EarlierIsLess(a: Moment, b: Moment)
    requires IsOrdinary(a) && IsOrdinary(b) && Earlier(a, b)
    ensures Stamp(a) < Stamp(b)
  {
    hide DaysFromCivil, IsLeap;
    if Before(a.date, b.date) {
      LaterDateCountsMore(a.date, b.date);
    }
  }

  /** On ordinary moments timestamps have exactly the order of dates and times. */
  lemma StampOrder(a: Moment, b: Moment)
    requires IsOrdinary(a) && IsOrdinary(b)
    ensures Stamp(a) < Stamp(b) <==> Earlier(a, b)
    ensures Stamp(a) == Stamp(b) <==> a == b
  {
    hide Stamp, IsOrdinary;
    if Earlier(a, b) {
      EarlierIsLess(a, b);
    } else if Earlier(b, a) {
      EarlierIsLess(b, a);
    }
  }

  /** The start of the minute after the one of a moment, with the carry into hour and day. */
  function NextMinute(t: Moment): Moment
    requires IsReal(t.date)
  {
    if t.min < 59 then t.(min := t.min + 1, sec := 0)
    else if t.hour < 23 then t.(hour := t.hour + 1, min := 0, sec := 0)
    else Moment(NextDay(t.date), 0, 0, 0)
  }

  /** The accepted second 60 is one more than second 59, on any day, and 23:59:60 included. */
  lemma LeapSecondCountsOne(t: Moment)
    ensures Stamp(t.(sec := 60)) == Stamp(t.(sec := 59)) + 1
  {}

  /** It is told apart from no second: it is the start of the next minute, at 23:59 of the next day. */
  lemma LeapSecondIsNextMinute(t: Moment)
    requires IsReal(t.date) && 0 <= t.hour <= 23 && 0 <= t.min <= 59
    ensures Stamp(t.(sec := 60)) == Stamp(NextMinute(t))
  {
    hide DaysFromCivil, PrevDay, IsReal, NextDay;
    FormulaStep(NextDay(t.date));
  }

  /** A day the month does not have is read as a day of the next month. */
  lemma MissingDayRollsOver(y: int, m: int, d: int)
    requires y >= 1970 && 1 <= m <= 12 && DaysInMonth(y, m) < d <= 31
    ensures DaysFromCivil(y, m, d) == Days(Date(y, m + 1, d - DaysInMonth(y, m)))
    ensures IsReal(Date(y, m + 1, d - DaysInMonth(y, m)))
  {
    hide YearDays, DaysFromCivil, IsLeap;
    DaysFormula(y, m, d);
    DaysFormula(y, m + 1, d - DaysInMonth(y, m));
    YearStep(y);
  }

  ghost predicate CountsInMonth(t: Date, y: int, m: int, days: int) {
    IsReal(t) && t.y == y && t.m == m && Days(t) == days
  }

  /** The accepted days 1 to 31 count as a day of the named month exactly if that month has them. */
  lemma DayKeptIff(y: int, m: int, d: int)
    requires y >= 1970 && 1 <= m <= 12 && 1 <= d <= 31
    ensures (exists t :: CountsInMonth(t, y, m, DaysFromCivil(y, m, d))) <==> d <= DaysInMonth(y, m)
  {
    hide DaysFromCivil, IsLeap;
    if d <= DaysInMonth(y, m) {
      assert CountsInMonth(Date(y, m, d), y, m, DaysFromCivil(y, m, d));
    } else {
      MissingDayRollsOver(y, m, d);
      var next := Date(y, m + 1, d - DaysInMonth(y, m));
      forall t | IsReal(t) && t.y == y && t.m == m
        ensures Days(t) < Days(next)
      {
        LaterDateCountsMore(t, next);
      }
    }
  }
}
