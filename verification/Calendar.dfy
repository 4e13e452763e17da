/** Timestamps as instants, and what that order means for their calendar fields. */
module Calendar {
  import opened Wrappers
  import opened Cursor

  function DaysBeforeMonth(year: nat, month: nat): nat {
    if month <= 1 then 0 else DaysBeforeMonth(year, month - 1) + DaysIn(year, month - 1)
  }

  function DaysBeforeYear(year: nat): nat {
    if year <= 1 then 0 else DaysBeforeYear(year - 1) + if Leap(year - 1) then 366 else 365
  }

  function Day(t: Timestamp): int {
    DaysBeforeYear(t.year) + DaysBeforeMonth(t.year, t.month) + t.day
  }

  /** The instant a timestamp denotes, in microseconds of UTC. */
  function Instant(t: Timestamp): int {
    ((Day(t) * 24 + t.hour) * 60 + t.minute) * 60 * MICROS + t.second * MICROS + t.micro -
    (if t.offset.Some? then t.offset.value else 0)
  }

  /** A position before another one of the same offset: an earlier year, or the same year and an earlier
      month, and so on down to the microsecond, or the same timestamp and a smaller id. */
  predicate OlderInFields(a: Position, b: Position) {
    var s, t := a.createdAt, b.createdAt;
    || s.year < t.year
    || (s.year == t.year && s.month < t.month)
    || (s.year == t.year && s.month == t.month && s.day < t.day)
    || (s.year == t.year && s.month == t.month && s.day == t.day && s.hour < t.hour)
    || (s.year == t.year && s.month == t.month && s.day == t.day && s.hour == t.hour && s.minute < t.minute)
    || (s.year == t.year && s.month == t.month && s.day == t.day && s.hour == t.hour && s.minute == t.minute &&
        s.second < t.second)
    || (s.year == t.year && s.month == t.month && s.day == t.day && s.hour == t.hour && s.minute == t.minute &&
        s.second == t.second && s.micro < t.micro)
    || (s == t && a.entityId < b.entityId)
  }

  lemma NextMultiple(n: nat, k: nat)
    requires n >= 1 && k in {4, 100, 400}
    ensures n / k == (n - 1) / k + if n % k == 0 then 1 else 0
  {
  }

  lemma LeapCount(n: nat)
    requires n >= 1
    ensures n / 4 - n / 100 + n / 400 ==
            (n - 1) / 4 - (n - 1) / 100 + (n - 1) / 400 + if Leap(n) then 1 else 0
  {
    NextMultiple(n, 4);
    NextMultiple(n, 100);
    NextMultiple(n, 400);
    assert n % 100 == 0 ==> n % 4 == 0;
    assert n % 400 == 0 ==> n % 100 == 0;
  }

  /** The Gregorian rule: a leap day every fourth year, but not in three of four century years. */
  lemma {:induction false} YearsGregorian(year: nat)
    requires year >= 1
    ensures var n := year - 1; DaysBeforeYear(year) == 365 * n + n / 4 - n / 100 + n / 400
  {
    hide Leap;
    if year > 1 {
      YearsGregorian(year - 1);
      LeapCount(year - 1);
    }
  }

  lemma {:induction false} LaterMonth(year: nat, m: nat, n: nat)
    requires 1 <= m < n
    ensures DaysBeforeMonth(year, m) + DaysIn(year, m) <= DaysBeforeMonth(year, n)
    decreases n
  {
    if m < n - 1 {
      LaterMonth(year, m, n - 1);
    }
  }

  lemma YearLength(year: nat)
    ensures DaysBeforeMonth(year, 13) == if Leap(year) then 366 else 365
  {
    hide Leap;
    assert DaysBeforeMonth(year, 1) == 0 && DaysBeforeMonth(year, 2) == 31;
    assert DaysBeforeMonth(year, 3) == 31 + DaysIn(year, 2);
    var march := DaysBeforeMonth(year, 3);
    assert DaysBeforeMonth(year, 4) == march + 31 && DaysBeforeMonth(year, 5) == march + 61;
    assert DaysBeforeMonth(year, 6) == march + 92 && DaysBeforeMonth(year, 7) == march + 122;
    assert DaysBeforeMonth(year, 8) == march + 153 && DaysBeforeMonth(year, 9) == march + 184;
    assert DaysBeforeMonth(year, 10) == march + 214 && DaysBeforeMonth(year, 11) == march + 245;
    assert DaysBeforeMonth(year, 12) == march + 275;
  }

  lemma {:induction false} LaterYear(y: nat, z: nat)
    requires 1 <= y < z
    ensures DaysBeforeYear(y) + (if Leap(y) then 366 else 365) <= DaysBeforeYear(z)
    decreases z
  {
    hide Leap;
    if y < z - 1 {
      LaterYear(y, z - 1);
    }
  }

  /** An earlier date is an earlier day. */
  lemma LaterDay(s: Timestamp, t: Timestamp)
    requires s.year < t.year || (s.year == t.year && (s.month < t.month || (s.month == t.month && s.day < t.day)))
    ensures Day(s) < Day(t)
  {
    hide DaysBeforeMonth, DaysBeforeYear, DaysIn, Leap;
    if s.year < t.year {
      LaterYear(s.year, t.year);
      YearLength(s.year);
      LaterMonth(s.year, s.month, 13);
    } else if s.month < t.month {
      LaterMonth(s.year, s.month, t.month);
    }
  }

  /** With equal offsets the order of instants is the order of the fields. */
  lemma InstantOrder(a: Position, b: Position)
    requires a.createdAt.offset == b.createdAt.offset
    ensures OlderInFields(a, b) <==>
            || Instant(a.createdAt) < Instant(b.createdAt)
            || (Instant(a.createdAt) == Instant(b.createdAt) && a.entityId < b.entityId)
  {
    hide Day;
    var s, t := a.createdAt, b.createdAt;
    if s.year == t.year && s.month == t.month && s.day == t.day {
      SameDay(s, t);
    } else if s.year < t.year || (s.year == t.year && (s.month < t.month || (s.month == t.month && s.day < t.day))) {
      LaterDay(s, t);
    } else {
      LaterDay(t, s);
    }
  }

  lemma SameDay(s: Timestamp, t: Timestamp)
    requires s.year == t.year && s.month == t.month && s.day == t.day
    ensures Day(s) == Day(t)
  {
  }

  /** A clock reading further east is that much earlier. */
  lemma OffsetShifts(t: Timestamp, u: Timestamp, offset: int)
    requires t.offset.Some? && u == t.(offset := Some(t.offset.value + offset))
    ensures Instant(u) == Instant(t) - offset
  {
    hide DaysBeforeMonth, DaysBeforeYear;
  }

  /** The Unix epoch is 719163 days after the day before year 1, and the year 2000 began 946684800 s later. */
  lemma KnownInstants(epoch: Timestamp, millennium: Timestamp)
    requires epoch == DateTime(1970, 1, 1, 0, 0, 0, 0, Some(0))
    requires millennium == DateTime(2000, 1, 1, 0, 0, 0, 0, Some(0))
    ensures Instant(epoch) == 719_163 * 86_400 * 1_000_000
    ensures Instant(millennium) - Instant(epoch) == 946_684_800 * 1_000_000
  {
    hide DaysBeforeYear;
    YearsGregorian(1970);
    YearsGregorian(2000);
  }
}
