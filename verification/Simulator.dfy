/** The simulated clock and the event engine that drives it. Time is counted in ticks. */
module Simulator {

  const CLOCKS_PER_SEC := 1_000_000
  const MINUTE := 60 * CLOCKS_PER_SEC
  const MAX_RANDOM := 0x7FFF_FFFF

  /** Broken-out date and time; `second` is in ticks too. */
  datatype Clock = Clock(tick: nat, year: int, dayOfYear: nat, hour: nat, minute: nat, second: nat)

  /** The date and time `t` ticks after the start of 2020, in years of 365 days. */
  function FromTicks(t: nat): Clock
  {
    var minutes := t / MINUTE;
    var hours := minutes / 60;
    var days := hours / 24;
    Clock(t, 2020 + days / 365, days % 365, hours % 24, minutes % 60, t % MINUTE)
  }

  predicate InRange(c: Clock)
  {
    c.dayOfYear < 365 && c.hour < 24 && c.minute < 60 && c.second < MINUTE
  }

  /** The ticks that the broken-out fields stand for. */
  function Total(c: Clock): int
  {
    ((((c.year - 2020) * 365 + c.dayOfYear) * 24 + c.hour) * 60 + c.minute) * MINUTE + c.second
  }

  /** The fields of `FromTicks` are in range and stand for their ticks, and no other fields are and do. */
  lemma FromTicksUnique(t: nat, c: Clock)
    requires c.tick == t && c.year >= 2020
    ensures c == FromTicks(t) <==> InRange(c) && Total(c) == t
  {
    if InRange(c) && Total(c) == t {
      var d := (c.year - 2020) * 365 + c.dayOfYear;
      var h := d * 24 + c.hour;
      Quotient(t, MINUTE, h * 60 + c.minute, c.second);
      Quotient(h * 60 + c.minute, 60, h, c.minute);
      Quotient(h, 24, d, c.hour);
      Quotient(d, 365, c.year - 2020, c.dayOfYear);
    }
    TotalOfTicks(t);
    hide Total;
  }

  lemma Quotient(t: int, unit: int, q: int, r: int)
    requires t == q * unit + r && 0 <= r < unit
    ensures t / unit == q && t % unit == r
  {
    var p := t / unit;
    assert t == p * unit + t % unit;
    Apart(p, q, unit);
    Apart(q, p, unit);
  }

  lemma {:induction false} Apart(p: int, q: int, unit: int)
    requires unit > 0
    ensures p > q ==> p * unit >= q * unit + unit
    decreases p - q
  {
    if p > q {
      assert p * unit == (p - 1) * unit + unit;
      Apart(p - 1, q, unit);
    }
  }

  lemma TotalOfTicks(t: nat)
    ensures InRange(FromTicks(t)) && Total(FromTicks(t)) == t
  {
    var minutes := t / MINUTE;
    var hours := minutes / 60;
    var days := hours / 24;
    assert t == minutes * MINUTE + t % MINUTE;
    assert minutes == hours * 60 + minutes % 60;
    assert hours == days * 24 + hours % 24;
    assert days == days / 365 * 365 + days % 365;
  }

  // ---- one update ----

  /** At most one minute is carried, whatever the difference. */
  function Carried(c: Clock): Clock
  {
    if c.minute + 1 < 60 then c.(minute := c.minute + 1)
    else if c.hour + 1 < 24 then c.(minute := 0, hour := c.hour + 1)
    else if c.dayOfYear + 1 < 365 then c.(minute := 0, hour := 0, dayOfYear := c.dayOfYear + 1)
    else c.(minute := 0, hour := 0, dayOfYear := 0, year := c.year + 1)
  }

  function Advanced(c: Clock, count: nat): Clock
    requires c.tick <= count
  {
    var second := c.second + (count - c.tick);
    if second < MINUTE then c.(tick := count, second := second)
    else Carried(c.(tick := count, second := second - MINUTE))
  }

  class ComponentDateTime {
    var tickCount: nat
    var year: int
    var dayOfYear: nat
    var hour: nat
    var minute: nat
    var second: nat

    constructor ()
      ensures Now() == FromTicks(0)
    {
      tickCount, year, dayOfYear, hour, minute, second := 0, 2020, 0, 0, 0, 0;
    }

    function Now(): Clock
      reads this
    {
      Clock(tickCount, year, dayOfYear, hour, minute, second)
    }

    method Update(newCount: nat)
      requires tickCount <= newCount
      modifies this
      ensures Now() == Advanced(old(Now()), newCount)
    {
      var delta := newCount - tickCount;
      second := second + delta;
      if second >= MINUTE {
        minute := minute + 1;
        second := second - MINUTE;
        if minute >= 60 {
          hour := hour + 1;
          minute := 0;
          if hour >= 24 {
            hour := 0;
            dayOfYear := dayOfYear + 1;
            if dayOfYear >= 365 {
              dayOfYear := 0;
              year := year + 1;
            }
          }
        }
      }
      tickCount := newCount;
    }
  }

  /** An update conserves time whatever the step; but the fields stay in range exactly when the seconds and
      the step together are less than two minutes. */
  lemma AdvancedKeepsTime(c: Clock, count: nat)
    requires InRange(c) && c.tick <= count
    ensures Total(Advanced(c, count)) == Total(c) + (count - c.tick)
    ensures InRange(Advanced(c, count)) <==> c.second + (count - c.tick) < 2 * MINUTE
  {
    var second := c.second + (count - c.tick);
    if second >= MINUTE {
      CarriedKeepsTime(c.(tick := count, second := second - MINUTE));
    }
  }

  lemma CarriedKeepsTime(c: Clock)
    requires c.dayOfYear < 365 && c.hour < 24 && c.minute < 60
    ensures Total(Carried(c)) == Total(c) + MINUTE
    ensures Carried(c).second == c.second
  {
    var d := (c.year - 2020) * 365 + c.dayOfYear;
    var e := Carried(c);
    assert (e.year - 2020) * 365 + e.dayOfYear == if c.minute + 1 == 60 && c.hour + 1 == 24 then d + 1 else d;
  }

  /** A step of a minute at most keeps the clock right. */
  lemma AdvancedIsRight(c: Clock, count: nat)
    requires c == FromTicks(c.tick) && c.tick <= count <= c.tick + MINUTE
    ensures Advanced(c, count) == FromTicks(count)
  {
    FromTicksUnique(c.tick, c);
    AdvancedKeepsTime(c, count);
    hide FromTicks;
    FromTicksUnique(count, Advanced(c, count));
  }

  /** Seconds since midnight, in ticks: what is left of the ticks when whole days are taken off. */
  function SecondsInDay(c: Clock): nat { c.second + c.minute * MINUTE + c.hour * 60 * MINUTE }

  lemma SecondsAreOfDay(t: nat)
    ensures SecondsInDay(FromTicks(t)) == t % (24 * 60 * MINUTE)
  {
    var c := FromTicks(t);
    TotalOfTicks(t);
    Quotient(t, 24 * 60 * MINUTE, (c.year - 2020) * 365 + c.dayOfYear, SecondsInDay(c));
  }

  function DaysSinceEpoch(c: Clock): int { c.dayOfYear + (c.year - 1970) * 1461 / 4 }

  /** From one day to the next the date advances by one, except at the end of a year that leaves remainder
      one when divided by four: there it skips a day. */
  lemma DateAdvances(t: nat)
    ensures
      var (c, next) := (FromTicks(t), FromTicks(t + 24 * 60 * MINUTE));
      DaysSinceEpoch(next) == DaysSinceEpoch(c) + (if c.dayOfYear == 364 && c.year % 4 == 1 then 2 else 1)
  {
    var days := t / MINUTE / 60 / 24;
    NextDay(t);
    assert (days + 1) / 365 == days / 365 + if days % 365 == 364 then 1 else 0;
  }

  lemma NextDay(t: nat)
    ensures (t + 24 * 60 * MINUTE) / MINUTE / 60 / 24 == t / MINUTE / 60 / 24 + 1
  {
  }

  // ---- the calendar ----

  function Leap(year: int): nat
  {
    if year % 4 != 0 then 0 else if year % 100 != 0 then 1 else if year % 400 == 0 then 1 else 0
  }

  /** How many of the years from 0 on, before `year`, are leap years. */
  function LeapsBefore(year: nat): nat { if year == 0 then 0 else LeapsBefore(year - 1) + Leap(year - 1) }

  /** Every fourth year, but not every hundredth, but every four hundredth. */
  lemma {:induction false} LeapsCounted(year: nat)
    ensures LeapsBefore(year) == (year + 3) / 4 - (year + 99) / 100 + (year + 399) / 400
  {
    if year > 0 {
      LeapsCounted(year - 1);
      var y := year - 1;
      LeapParts(y);
      hide Leap, Divides;
      NextMultiple(y, 4);
      NextMultiple(y, 100);
      NextMultiple(y, 400);
    }
  }

  function Divides(k: nat, y: nat): nat
    requires k >= 1
  {
    if y % k == 0 then 1 else 0
  }

  lemma LeapParts(y: nat)
    ensures Leap(y) == Divides(4, y) - Divides(100, y) + Divides(400, y)
  {
    if y % 400 == 0 {
      Quotient(y, 100, 4 * (y / 400), 0);
    }
    if y % 100 == 0 {
      Quotient(y, 4, 25 * (y / 100), 0);
    }
  }

  lemma NextMultiple(y: nat, k: nat)
    requires k >= 1
    ensures (y + k) / k == (y + k - 1) / k + Divides(k, y)
  {
    var (q, r) := (y / k, y % k);
    assert y == q * k + r && (q + 1) * k == q * k + k;
    Quotient(y + k, k, q + 1, r);
    if r == 0 {
      Quotient(y + k - 1, k, q, k - 1);
    } else {
      Quotient(y + k - 1, k, q + 1, r - 1);
    }
  }

  /** Days from the start of 1970 to the start of a year. */
  function DaysUntil(year: nat): int
    requires year >= 1970
  {
    if year == 1970 then 0 else DaysUntil(year - 1) + 365 + Leap(year - 1)
  }

  lemma {:induction false} DaysUntilCounted(year: nat)
    requires year >= 1970
    ensures DaysUntil(year) == 365 * (year - 1970) + LeapsBefore(year) - LeapsBefore(1970)
  {
    if year > 1970 {
      DaysUntilCounted(year - 1);
    }
  }

  /** The date is the number of days since the start of 1970, but one short in years that leave remainder one
      when divided by four; up to 2100. */
  lemma DateIsRight(c: Clock)
    requires 1970 <= c.year <= 2100
    ensures DaysSinceEpoch(c) == DaysUntil(c.year) + c.dayOfYear - (if c.year % 4 == 1 then 1 else 0)
  {
    var n := c.year - 1970;
    QuarterYears(n);
    assert c.year == 1970 + n;
    DaysUntilCounted(c.year);
    hide DaysUntil, LeapsBefore;
    LeapsUntil(c.year);
  }

  lemma LeapsUntil(year: nat)
    requires 1970 <= year <= 2100
    ensures LeapsBefore(year) - LeapsBefore(1970) == (year + 3) / 4 - 493
  {
    LeapsCounted(year);
    LeapsCounted(1970);
    hide LeapsBefore;
    Centuries(year);
  }

  lemma QuarterYears(n: nat)
    ensures n * 1461 / 4 == 365 * n + n / 4
    ensures (1970 + n + 3) / 4 == 493 + n / 4 + (if (1970 + n) % 4 == 1 then 1 else 0)
  {
  }

  lemma Centuries(year: nat)
    requires 1970 <= year <= 2100
    ensures (year + 99) / 100 - (year + 399) / 400 == 15
  {
  }

  /** Days of the months of a common year. */
  const MONTHS: seq<nat> := [31, 28, 31, 30, 31, 30, 31, 31, 30, 31, 30, 31]

  function DaysIn(year: int, month: nat): (d: nat)
    requires 1 <= month <= 12
    ensures d >= 28
  {
    MONTHS[month - 1] + if month == 2 then Leap(year) else 0
  }

  /** Days of the year before the given month. */
  function DaysBefore(year: int, month: nat): nat
    requires 1 <= month <= 13
  {
    if month == 1 then 0 else DaysBefore(year, month - 1) + DaysIn(year, month - 1)
  }

  lemma YearLength(year: int)
    ensures DaysBefore(year, 13) == 365 + Leap(year)
  {
    hide Leap;
    assert DaysBefore(year, 2) == 31 && DaysBefore(year, 3) == 59 + Leap(year);
    assert DaysBefore(year, 4) == 90 + Leap(year) && DaysBefore(year, 5) == 120 + Leap(year);
    assert DaysBefore(year, 6) == 151 + Leap(year) && DaysBefore(year, 7) == 181 + Leap(year);
    assert DaysBefore(year, 8) == 212 + Leap(year) && DaysBefore(year, 9) == 243 + Leap(year);
    assert DaysBefore(year, 10) == 273 + Leap(year) && DaysBefore(year, 11) == 304 + Leap(year);
    assert DaysBefore(year, 12) == 334 + Leap(year);
  }

  lemma {:induction false} DaysBeforeGrow(year: int, a: nat, b: nat)
    requires 1 <= a <= b <= 13
    ensures DaysBefore(year, a) <= DaysBefore(year, b)
  {
    if a < b {
      DaysBeforeGrow(year, a, b - 1);
    }
  }

  class Generator {
    /** The table is shared by all calls; February is corrected while one is at work. */
    const months: array<nat>

    constructor ()
      ensures fresh(months) && months[..] == MONTHS
    {
      months := new nat[12](i requires 0 <= i < 12 => MONTHS[i]);
    }

    /** Month and day of a day of the year; the table is left as it was. */
    method ToDayMonth(year: int, yearDay: nat) returns (month: nat, day: nat)
      requires months[..] == MONTHS && yearDay < 365 + Leap(year)
      modifies months
      ensures months[..] == MONTHS
      ensures 1 <= month <= 12 && 1 <= day <= DaysIn(year, month)
      ensures DaysBefore(year, month) + day - 1 == yearDay
    {
      var leap := Leap(year);
      day := yearDay + 1;
      months[1] := months[1] + leap;
      YearLength(year);
      month := 0;
      while day > months[month]
        invariant month < 12 && day >= 1 && DaysBefore(year, month + 1) + day == yearDay + 1
        invariant forall m | 0 <= m < 12 :: months[m] == DaysIn(year, m + 1)
        invariant months[..][1 := MONTHS[1]] == MONTHS && months[1] == MONTHS[1] + leap
        decreases 12 - month
      {
        day := day - months[month];
        month := month + 1;
      }
      month := month + 1;
      months[1] := months[1] - leap;
    }
  }

  /** No other month and day denote the same day of the year. */
  lemma DayMonthUnique(year: int, m: nat, d: nat, n: nat, e: nat)
    requires 1 <= m <= 12 && 1 <= d <= DaysIn(year, m) && 1 <= n <= 12 && 1 <= e <= DaysIn(year, n)
    requires DaysBefore(year, m) + d == DaysBefore(year, n) + e
    ensures m == n && d == e
  {
    if m < n {
      DaysBeforeGrow(year, m + 1, n);
    } else if n < m {
      DaysBeforeGrow(year, n + 1, m);
    }
  }
}
