/**
 The calendar of the weekly digest: weeks, the period a digest covers, and the hour it is sent in.
 Times are nanoseconds since 1970-01-01 00:00:00 UTC.
 */
module DigestWeek {

  type Time = int

  const SECOND: int := 1_000_000_000
  const HOUR: int := 3600 * SECOND
  const DAY: int := 24 * HOUR
  const WEEK: int := 7 * DAY
  const TICK: int := 1800 * SECOND

  /** The day a moment falls on, counted from the epoch, and the time since its midnight. */
  function DayOf(t: Time): int { t / DAY }
  function TimeOfDay(t: Time): int { t % DAY }

  /** The weekday as Go numbers it, Sunday = 0; the epoch was a Thursday. */
  function Weekday(t: Time): (d: int)
    ensures 0 <= d < 7
  {
    (DayOf(t) + 4) % 7
  }

  function HourOf(t: Time): int {
    TimeOfDay(t) / HOUR
  }

  /** Midnight of the Monday of the ISO week of `t`. */
  function WeekStart(t: Time): Time {
    var weekday := if Weekday(t) == 0 then 7 else Weekday(t);
    var mon := t - DAY * (weekday - 1);
    mon - TimeOfDay(mon)
  }

  predicate MondayMidnight(m: Time) {
    TimeOfDay(m) == 0 && Weekday(m) == 1
  }

  /** The first and the last moment a digest sent at `now` covers; the last one is a whole second. */
  function Period(now: Time): (Time, Time) {
    (WeekStart(now) - WEEK, WeekStart(now) - SECOND)
  }

  /** The moment falls between the two, both included. */
  predicate Covers(now: Time, t: Time) {
    Period(now).0 <= t <= Period(now).1
  }

  lemma DaySplit(t: Time)
    ensures t == DAY * DayOf(t) + TimeOfDay(t) && 0 <= TimeOfDay(t) < DAY
  {
  }

  lemma DayJoin(day: int, rest: int)
    requires 0 <= rest < DAY
    ensures DayOf(DAY * day + rest) == day && TimeOfDay(DAY * day + rest) == rest
  {
  }

  /** How many days lie between a moment's day and the Monday of its week. */
  function DaysToMonday(t: Time): (k: int)
    ensures 0 <= k < 7
  {
    (if Weekday(t) == 0 then 7 else Weekday(t)) - 1
  }

  lemma WeekStartIsDay(t: Time)
    ensures WeekStart(t) == DAY * (DayOf(t) - DaysToMonday(t))
  {
    hide DayOf, TimeOfDay;
    var monday := DayOf(t) - DaysToMonday(t);
    DaySplit(t);
    assert t - DAY * DaysToMonday(t) == DAY * monday + TimeOfDay(t);
    DayJoin(monday, TimeOfDay(t));
  }

  lemma Mondays(day: int, back: int)
    requires 0 <= back < 7
    ensures (day + 4) % 7 == (if back == 6 then 0 else back + 1) ==> (day - back + 4) % 7 == 1
  {
  }

  /** The week start is a Monday midnight, at or before `t`, less than seven days back. */
  lemma WeekStartIsMonday(t: Time)
    ensures MondayMidnight(WeekStart(t)) && WeekStart(t) <= t < WeekStart(t) + WEEK
  {
    hide DayOf, TimeOfDay;
    var monday := DayOf(t) - DaysToMonday(t);
    DaySplit(t);
    WeekStartIsDay(t);
    DayJoin(monday, 0);
    Mondays(DayOf(t), DaysToMonday(t));
  }

  lemma WholeWeeks(w: int)
    ensures WEEK * w % WEEK == 0
  {
  }

  lemma SplitWeeks(d: int) returns (w: int)
    requires d % WEEK == 0
    ensures d == WEEK * w
  {
    w := d / WEEK;
  }

  lemma SameWeekday(q: int, k: int) returns (w: int)
    requires (q + 4) % 7 == (k + 4) % 7
    ensures k == q + 7 * w
  {
    w := (k + 4) / 7 - (q + 4) / 7;
  }

  lemma WeeksLater(q: int, w: int)
    ensures (q + 7 * w + 4) % 7 == (q + 4) % 7
  {
  }

  lemma MondaysAreWeeksApart(m: Time, n: Time)
    requires MondayMidnight(m)
    ensures MondayMidnight(n) <==> (n - m) % WEEK == 0
  {
    hide DayOf, TimeOfDay;
    DaySplit(m);
    DaySplit(n);
    if MondayMidnight(n) {
      var w := SameWeekday(DayOf(m), DayOf(n));
      assert n - m == WEEK * w;
      WholeWeeks(w);
    } else if (n - m) % WEEK == 0 {
      var w := SplitWeeks(n - m);
      DayJoin(DayOf(m) + 7 * w, 0);
      assert n == DAY * (DayOf(m) + 7 * w) + 0;
      WeeksLater(DayOf(m), w);
    }
  }

  /** No other Monday midnight has that property, so it is the start of the week of `t`. */
  lemma WeekStartIs(t: Time, m: Time)
    ensures m == WeekStart(t) <==> MondayMidnight(m) && m <= t < m + WEEK
  {
    hide WeekStart, MondayMidnight;
    WeekStartIsMonday(t);
    if MondayMidnight(m) && m <= t < m + WEEK {
      MondaysAreWeeksApart(m, WeekStart(t));
    }
  }

  /** Two moments have one week start exactly when no Monday midnight lies between them. */
  lemma SameWeekIff(t: Time, u: Time)
    requires t <= u
    ensures WeekStart(t) == WeekStart(u) <==> forall m | t < m <= u :: !MondayMidnight(m)
  {
    hide WeekStart, MondayMidnight;
    WeekStartIsMonday(t);
    WeekStartIsMonday(u);
    var a, b := WeekStart(t), WeekStart(u);
    if a == b {
      forall m | t < m <= u ensures !MondayMidnight(m) {
        if MondayMidnight(m) { WeekStartIs(u, m); }
      }
    } else {
      WeekStartIs(u, a);
      assert t < b by {
        if b <= t { WeekStartIs(t, b); }
      }
    }
  }

  /** The next week's digest starts one second after this week's ends; both end before they are sent. */
  lemma PeriodsLeaveASecond(now: Time)
    ensures Period(now + WEEK).0 - Period(now).1 == SECOND
    ensures Period(now).1 < now
  {
    hide WeekStart, MondayMidnight;
    WeekStartIsMonday(now);
    MondaysAreWeeksApart(WeekStart(now), WeekStart(now) + WEEK);
    WeekStartIs(now + WEEK, WeekStart(now) + WEEK);
  }

  /**
   The digest sent at `now` covers a moment exactly when it is sent in the week after the
   moment's own, and the moment is not inside the last second of its week.
   */
  lemma CoversIff(now: Time, t: Time)
    ensures Covers(now, t) <==> WeekStart(now) == WeekStart(t) + WEEK && t - WeekStart(t) <= WEEK - SECOND
  {
    hide WeekStart, MondayMidnight;
    WeekStartIsMonday(now);
    WeekStartIsMonday(t);
    MondaysAreWeeksApart(WeekStart(now), WeekStart(now) - WEEK);
    WeekStartIs(t, WeekStart(now) - WEEK);
  }

  /** Some digest covers a moment exactly when it is not inside the last second of its week. */
  lemma CoveredIff(t: Time)
    ensures (exists now :: Covers(now, t)) <==> t - WeekStart(t) <= WEEK - SECOND
  {
    hide Covers, WeekStart, MondayMidnight;
    WeekStartIsMonday(t);
    MondaysAreWeeksApart(WeekStart(t), WeekStart(t) + WEEK);
    WeekStartIs(t + WEEK, WeekStart(t) + WEEK);
    CoversIff(t + WEEK, t);
    if exists now :: Covers(now, t) {
      var now :| Covers(now, t);
      CoversIff(now, t);
    }
  }

  /** Digests of different weeks never overlap. */
  lemma PeriodsAreDisjoint(now: Time, later: Time, t: Time)
    requires Covers(now, t) && Covers(later, t)
    ensures WeekStart(now) == WeekStart(later) && Period(now) == Period(later)
  {
    hide WeekStart, Covers;
    CoversIff(now, t);
    CoversIff(later, t);
  }

  /** Half a second before midnight of the first Sunday is in no digest. */
  lemma LastSecondIsLost() returns (t: Time)
    ensures t == 4 * DAY - SECOND / 2 && Weekday(t) == 0
    ensures forall now :: !Covers(now, t)
  {
    hide Covers, WeekStart, DayOf, TimeOfDay;
    t := 4 * DAY - SECOND / 2;
    assert t == DAY * 3 + (DAY - SECOND / 2);
    DayJoin(3, DAY - SECOND / 2);
    WeekStartIsDay(t);
    CoveredIff(t);
  }

  // ---- When a check sends ----

  predicate GateOpen(sendDay: int, sendHour: int, now: Time) {
    Weekday(now) == sendDay && HourOf(now) == sendHour
  }

  /** Where in its week the send hour starts. */
  function SendOffset(sendDay: int, sendHour: int): int {
    DAY * ((if sendDay == 0 then 7 else sendDay) - 1) + HOUR * sendHour
  }

  lemma HourIs(rest: int, h: int)
    ensures rest / HOUR == h <==> HOUR * h <= rest < HOUR * h + HOUR
  {
  }

  /** The gate is open for one hour a week. */
  lemma GateIsOneHour(sendDay: int, sendHour: int, now: Time)
    requires 0 <= sendDay < 7 && 0 <= sendHour < 24
    ensures GateOpen(sendDay, sendHour, now) <==>
      SendOffset(sendDay, sendHour) <= now - WeekStart(now) < SendOffset(sendDay, sendHour) + HOUR
  {
    hide DayOf, TimeOfDay, WeekStart;
    DaySplit(now);
    WeekStartIsDay(now);
    assert now - WeekStart(now) == DAY * DaysToMonday(now) + TimeOfDay(now);
    HourIs(TimeOfDay(now), sendHour);
  }

  /** A half-hour ticker that started before the send hour fires in it, so a live worker misses no week. */
  lemma TickHitsTheHour(start: Time, hour: Time) returns (k: nat)
    requires start <= hour
    ensures hour <= start + TICK * k < hour + HOUR
  {
    k := (hour - start + TICK - 1) / TICK;
  }

  lemma OffsetWithinWeek(sendDay: int, sendHour: int)
    requires 0 <= sendDay < 7 && 0 <= sendHour < 24
    ensures 0 <= SendOffset(sendDay, sendHour) <= WEEK - HOUR
  {
  }

  /** A moment inside the send hour of week `m` is in week `m`, with the gate open. */
  lemma InTheSendHour(sendDay: int, sendHour: int, m: Time, now: Time)
    requires 0 <= sendDay < 7 && 0 <= sendHour < 24 && MondayMidnight(m)
    requires m + SendOffset(sendDay, sendHour) <= now < m + SendOffset(sendDay, sendHour) + HOUR
    ensures WeekStart(now) == m && GateOpen(sendDay, sendHour, now)
  {
    hide WeekStart, MondayMidnight, GateOpen, SendOffset;
    OffsetWithinWeek(sendDay, sendHour);
    WeekStartIs(now, m);
    GateIsOneHour(sendDay, sendHour, now);
  }

  /**
   Whatever the send day and hour: a moment is covered at some moment at which digests are sent
   exactly when it is not inside the last second of its week.
   */
  lemma CoveredWhenSentIff(sendDay: int, sendHour: int, t: Time)
    requires 0 <= sendDay < 7 && 0 <= sendHour < 24
    ensures (exists now :: GateOpen(sendDay, sendHour, now) && Covers(now, t)) <==> t - WeekStart(t) <= WEEK - SECOND
  {
    hide Covers, WeekStart, MondayMidnight, GateOpen, SendOffset;
    CoveredIff(t);
    WeekStartIsMonday(t);
    var m := WeekStart(t) + WEEK;
    MondaysAreWeeksApart(WeekStart(t), m);
    var now := m + SendOffset(sendDay, sendHour);
    InTheSendHour(sendDay, sendHour, m, now);
    CoversIff(now, t);
  }

  /**
   A worker that has been ticking since before the next week's send hour checks inside it, with the
   gate open, and the digest of that check covers the moment.
   */
  lemma LiveWorkerCovers(sendDay: int, sendHour: int, start: Time, t: Time) returns (k: nat)
    requires 0 <= sendDay < 7 && 0 <= sendHour < 24 && t - WeekStart(t) <= WEEK - SECOND
    requires start <= WeekStart(t) + WEEK + SendOffset(sendDay, sendHour)
    ensures GateOpen(sendDay, sendHour, start + TICK * k) && Covers(start + TICK * k, t)
  {
    hide Covers, WeekStart, MondayMidnight, GateOpen, SendOffset;
    WeekStartIsMonday(t);
    var m := WeekStart(t) + WEEK;
    MondaysAreWeeksApart(WeekStart(t), m);
    k := TickHitsTheHour(start, m + SendOffset(sendDay, sendHour));
    InTheSendHour(sendDay, sendHour, m, start + TICK * k);
    CoversIff(start + TICK * k, t);
  }
}
