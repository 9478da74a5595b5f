/**
 * Local wall-clock instants, as the fields a JavaScript `Date` exposes through
 * getFullYear, getMonth (0-based), getDate, getHours, getMinutes, getSeconds
 * and getMilliseconds. Time zones and the millisecond timestamp itself are not
 * modelled: for valid instants, comparing timestamps is comparing these fields
 * lexicographically.
 */
module Instants {

  datatype Instant = Instant(year: int, monthIndex: int, day: int,
                             hour: int, minute: int, second: int, millis: int)

  predicate IsLeapYear(year: int) {
    (year % 4 == 0 && year % 100 != 0) || year % 400 == 0
  }

  function DaysInMonth(year: int, monthIndex: int): (n: int)
    requires 0 <= monthIndex < 12
    ensures 28 <= n <= 31
    ensures n == 28 <==> monthIndex == 1 && !IsLeapYear(year)
  {
    if monthIndex == 1 then (if IsLeapYear(year) then 29 else 28)
    else if monthIndex in {3, 5, 8, 10} then 30
    else 31
  }

  /** The fields of an instant a `Date` can actually hold. */
  predicate Valid(t: Instant) {
    && 0 <= t.monthIndex < 12
    && 1 <= t.day <= DaysInMonth(t.year, t.monthIndex)
    && 0 <= t.hour < 24 && 0 <= t.minute < 60
    && 0 <= t.second < 60 && 0 <= t.millis < 1000
  }

  /** Same calendar day: the fields `getDate`, `getMonth` and `getFullYear` agree. */
  predicate SameDate(a: Instant, b: Instant) {
    a.year == b.year && a.monthIndex == b.monthIndex && a.day == b.day
  }

  /** `date.setHours(h, m, s, ms)`: the same calendar day at the given time of day. */
  function SetHours(t: Instant, h: int, m: int, s: int, ms: int): (r: Instant)
    ensures SameDate(r, t)
    ensures r.hour == h && r.minute == m && r.second == s && r.millis == ms
    ensures Valid(t) && 0 <= h < 24 && 0 <= m < 60 && 0 <= s < 60 && 0 <= ms < 1000 ==> Valid(r)
  {
    t.(hour := h, minute := m, second := s, millis := ms)
  }

  /** `setHours(0, 0, 0, 0)`: truncation to local midnight. */
  function Midnight(t: Instant): (r: Instant)
    ensures SameDate(r, t) && r.hour == 0 && r.minute == 0 && r.second == 0 && r.millis == 0
  {
    SetHours(t, 0, 0, 0, 0)
  }

  /** Date-only order: (year, month, day) compared lexicographically. */
  predicate DayLe(a: Instant, b: Instant) {
    || a.year < b.year
    || (a.year == b.year && a.monthIndex < b.monthIndex)
    || (a.year == b.year && a.monthIndex == b.monthIndex && a.day <= b.day)
  }

  /** Order of the timestamps of two instants: all fields compared lexicographically. */
  predicate InstantLe(a: Instant, b: Instant) {
    || (DayLe(a, b) && !SameDate(a, b))
    || (SameDate(a, b) && TimeOfDayLe(a, b))
  }

  predicate TimeOfDayLe(a: Instant, b: Instant) {
    || a.hour < b.hour
    || (a.hour == b.hour && a.minute < b.minute)
    || (a.hour == b.hour && a.minute == b.minute && a.second < b.second)
    || (a.hour == b.hour && a.minute == b.minute && a.second == b.second && a.millis <= b.millis)
  }

  /** Comparing midnight-truncated instants is comparing their calendar days. */
  lemma MidnightOrder(a: Instant, b: Instant)
    ensures InstantLe(Midnight(a), Midnight(b)) <==> DayLe(a, b)
  {
  }

  /** Two instants fall on the same calendar day exactly when their midnights coincide. */
  lemma SameDateIffSameMidnight(a: Instant, b: Instant)
    ensures SameDate(a, b) <==> Midnight(a) == Midnight(b)
  {
  }

  /** The date-only order is a total preorder whose equivalence is SameDate. */
  lemma DayLeTotalPreorder(a: Instant, b: Instant, c: Instant)
    ensures DayLe(a, a)
    ensures DayLe(a, b) || DayLe(b, a)
    ensures DayLe(a, b) && DayLe(b, c) ==> DayLe(a, c)
    ensures DayLe(a, b) && DayLe(b, a) <==> SameDate(a, b)
  {
  }
}
