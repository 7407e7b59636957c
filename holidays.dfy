/** The holiday record shared by the holiday lists, the date sort they all
    apply, and the split of a list at today into the holidays dated on or
    before today and those dated after it (dayjs `isSameOrBefore(now, 'day')`
    and `isAfter(now, 'day')`). */
module Holidays {
  import opened CivilDate
  import opened Clock
  import opened Seqs
  import opened Sorting

  /** A holiday as the backend sends it; the date string is already parsed. */
  datatype Holiday = Holiday(date: Date, name: string, description: string)

  /** The sort key: dayjs `diff` of two dates at midnight orders them by day. */
  function DateKey(h: Holiday): int
  {
    DayNumber(h.date)
  }

  /** `holidays.sort((a, b) => dayjs(a.date).diff(dayjs(b.date)))`. */
  function SortByDate(hs: seq<Holiday>): (r: seq<Holiday>)
    ensures SortedBy(r, DateKey)
    ensures multiset(r) == multiset(hs)
  {
    SortByFacts(hs, DateKey);
    SortBy(hs, DateKey)
  }

  /** Sorting a filtered list keeps exactly the matching holidays, each as
      often as in the list. */
  lemma SortedFilterMembers(hs: seq<Holiday>, p: Holiday -> bool)
    ensures var r := SortByDate(Filter(hs, p));
      SortedBy(r, DateKey)
      && multiset(r) == multiset(Filter(hs, p))
      && forall h :: h in r <==> h in hs && p(h)
  {
    var r := SortByDate(Filter(hs, p));
    FilterMembers(hs, p);
    forall h ensures h in r <==> h in hs && p(h) {
      assert h in r <==> h in multiset(r);
      assert h in Filter(hs, p) <==> h in multiset(Filter(hs, p));
      if h in hs && p(h) {
        FilterKeeps(hs, p, h);
      }
    }
  }

  /** `dayjs(h.date).isSameOrBefore(now, 'day')`. */
  predicate OnOrBeforeToday(h: Holiday, now: Instant)
  {
    SameOrBefore(h.date, now.date)
  }

  /** `dayjs(h.date).isAfter(now, 'day')`. */
  predicate AfterToday(h: Holiday, now: Instant)
  {
    IsFutureDate(h.date, now)
  }

  function IsPastIn(now: Instant): Holiday -> bool
  {
    h => OnOrBeforeToday(h, now)
  }

  function IsFutureIn(now: Instant): Holiday -> bool
  {
    h => AfterToday(h, now)
  }

  function PastHolidays(hs: seq<Holiday>, now: Instant): seq<Holiday>
  {
    Filter(hs, IsPastIn(now))
  }

  function FutureHolidays(hs: seq<Holiday>, now: Instant): seq<Holiday>
  {
    Filter(hs, IsFutureIn(now))
  }

  /** The two day classes are complementary and are read off the sort key. */
  lemma DayClassByKey(h: Holiday, now: Instant)
    ensures OnOrBeforeToday(h, now) <==> DateKey(h) <= DayNumber(now.date)
    ensures AfterToday(h, now) <==> !OnOrBeforeToday(h, now)
  {
    BeforeIffDayNumber(h.date, now.date);
    BeforeIffDayNumber(now.date, h.date);
  }

  /** A date-sorted list is its holidays up to today followed by the later
      ones. */
  lemma SortedSplitsAtToday(s: seq<Holiday>, now: Instant)
    requires SortedBy(s, DateKey)
    ensures s == PastHolidays(s, now) + FutureHolidays(s, now)
  {
    var t := DayNumber(now.date);
    SortedSplitsAt(s, DateKey, t);
    forall h | h in s
      ensures OnOrBeforeToday(h, now) == (DateKey(h) <= t)
      ensures AfterToday(h, now) == (DateKey(h) > t)
    {
      DayClassByKey(h, now);
    }
    FilterCongruent(s, IsPastIn(now), KeyAtMost(DateKey, t));
    FilterCongruent(s, IsFutureIn(now), KeyAbove(DateKey, t));
  }

  /** Every holiday is in exactly one of the two parts, counted with
      multiplicity. */
  lemma PastFuturePartition(s: seq<Holiday>, now: Instant)
    ensures multiset(PastHolidays(s, now)) + multiset(FutureHolidays(s, now)) == multiset(s)
  {
    forall h | h in s ensures IsFutureIn(now)(h) == !IsPastIn(now)(h) {
      DayClassByKey(h, now);
    }
    FilterSplitsMultiset(s, IsPastIn(now), IsFutureIn(now));
  }

  /** Any contiguous part of a sorted list is sorted. */
  lemma SortedSuffix(s: seq<Holiday>, k: nat)
    requires SortedBy(s, DateKey) && k <= |s|
    ensures SortedBy(s[k..], DateKey)
  {
    forall i, j | 0 <= i < j < |s| - k ensures DateKey(s[k..][i]) <= DateKey(s[k..][j]) {
      assert s[k..][i] == s[k + i] && s[k..][j] == s[k + j];
    }
  }
}
