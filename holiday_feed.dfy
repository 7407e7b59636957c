/** `useHolidays`: the holiday list's data source.  It asks for this year's and
    next year's holidays, concatenates what it gets, sorts by date and keeps
    the two most recent holidays up to today followed by every later one.
    The two requests become their responses, passed in as values. */
module HolidayFeed {
  import opened Wrappers
  import opened Text
  import opened Seqs
  import opened Sorting
  import opened Clock
  import opened Holidays

  /** A response body as the hook reads it.  `NotJson` is a body `json()`
      rejects; `NullBody` is JSON `null`, which parses but throws once its
      `holidays` field is read.  Each `message` is the thrown error's text,
      which the JSON parser or the engine supplies.  Otherwise `Fields`
      holds the `holidays` field (`None` when it is missing or null). */
  datatype Body =
    | NotJson(message: string)
    | NullBody(message: string)
    | Fields(holidays: Option<seq<Holiday>>)

  /** A response: its `ok` flag, its status and its body. */
  datatype Response = Response(ok: bool, status: int, body: Body)

  /** `data.holidays || []` on a readable body. */
  function HolidaysOrEmpty(r: Response): seq<Holiday>
  {
    if r.body.Fields? && r.body.holidays.Some? then r.body.holidays.value else []
  }

  /** The load gets through every read: the current-year request succeeded
      with a readable body, and the next-year body, when it is read at all
      (its request succeeded), is readable too. */
  predicate Loads(current: Response, next: Response)
  {
    current.ok && current.body.Fields? && (!next.ok || next.body.Fields?)
  }

  /** The current year's holidays followed by the next year's; a failed
      next-year request counts as `{ holidays: [] }`. */
  function Combined(current: Response, next: Response): seq<Holiday>
  {
    HolidaysOrEmpty(current) + (if next.ok then HolidaysOrEmpty(next) else [])
  }

  /** `[...pastHolidays.slice(-2), ...futureHolidays]`. */
  function RecentAndUpcoming(sorted: seq<Holiday>, now: Instant): seq<Holiday>
  {
    var past := PastHolidays(sorted, now);
    Slice(past, -2, |past|) + FutureHolidays(sorted, now)
  }

  /** The whole computation, in the order the hook throws: a failed
      current-year request is an error carrying its status; then both bodies
      are parsed, the current year's first and the next year's only when its
      request succeeded; then the `holidays` fields are read, again the
      current year's first.  A throw carries its message, and a load that
      gets through yields the trimmed sorted list. */
  function LoadHolidays(current: Response, next: Response, now: Instant): (r: Result<seq<Holiday>, string>)
    ensures !current.ok ==> r == Err("HTTP error! status: " + IntToString(current.status))
    ensures current.ok && current.body.NotJson? ==> r == Err(current.body.message)
    ensures current.ok && !current.body.NotJson? && next.ok && next.body.NotJson? ==>
      r == Err(next.body.message)
    ensures current.ok && current.body.NullBody? && !(next.ok && next.body.NotJson?) ==>
      r == Err(current.body.message)
    ensures current.ok && current.body.Fields? && next.ok && next.body.NullBody? ==>
      r == Err(next.body.message)
    ensures r.Ok? <==> Loads(current, next)
  {
    if !current.ok then Err("HTTP error! status: " + IntToString(current.status))
    else if current.body.NotJson? then Err(current.body.message)
    else if next.ok && next.body.NotJson? then Err(next.body.message)
    else if current.body.NullBody? then Err(current.body.message)
    else if next.ok && next.body.NullBody? then Err(next.body.message)
    else Ok(RecentAndUpcoming(SortByDate(Combined(current, next)), now))
  }

  /** On a date-sorted list the result is the list with all but the last two
      holidays up to today dropped from its front: it is sorted, its holidays
      up to today are the latest two of them and its later holidays are all
      of them. */
  lemma RecentAndUpcomingOfSorted(s: seq<Holiday>, now: Instant)
    requires SortedBy(s, DateKey)
    ensures var past := PastHolidays(s, now);
      RecentAndUpcoming(s, now) == s[|past| - Min(2, |past|)..]
    ensures var past, r := PastHolidays(s, now), RecentAndUpcoming(s, now);
      |r| == Min(2, |past|) + |FutureHolidays(s, now)|
      && SortedBy(r, DateKey)
      && PastHolidays(r, now) == past[|past| - Min(2, |past|)..]
      && FutureHolidays(r, now) == FutureHolidays(s, now)
  {
    var past := PastHolidays(s, now);
    var k := |past| - Min(2, |past|);
    RecentIsSuffix(s, now);
    SortedSuffix(s, k);
    TailParts(s, now, k);
  }

  lemma RecentIsSuffix(s: seq<Holiday>, now: Instant)
    requires SortedBy(s, DateKey)
    ensures var past := PastHolidays(s, now); var k := |past| - Min(2, |past|);
      RecentAndUpcoming(s, now) == past[k..] + FutureHolidays(s, now) == s[k..]
  {
    var past, future := PastHolidays(s, now), FutureHolidays(s, now);
    var k := |past| - Min(2, |past|);
    SortedSplitsAtToday(s, now);
    SliceFromEnd(past, 2);
    assert Slice(past, -2, |past|) == past[k..];
    assert s[k..] == (past + future)[k..] == past[k..] + future;
  }

  /** A tail of the holidays up to today followed by the later holidays
      splits back into the two. */
  lemma TailParts(s: seq<Holiday>, now: Instant, k: nat)
    requires k <= |PastHolidays(s, now)|
    ensures var past, future := PastHolidays(s, now), FutureHolidays(s, now);
      PastHolidays(past[k..] + future, now) == past[k..]
      && FutureHolidays(past[k..] + future, now) == future
  {
    var past, future := PastHolidays(s, now), FutureHolidays(s, now);
    FilterMembers(s, IsPastIn(now));
    FilterMembers(s, IsFutureIn(now));
    forall h | h in past[k..] ensures IsPastIn(now)(h) && !IsFutureIn(now)(h) {
      var i :| 0 <= i < |past| - k && past[k..][i] == h;
      assert past[k + i] == h;
      DayClassByKey(h, now);
    }
    forall h | h in future ensures IsFutureIn(now)(h) && !IsPastIn(now)(h) {
      DayClassByKey(h, now);
    }
    FilterTwoParts(past[k..], future, IsPastIn(now), IsFutureIn(now));
  }

  /** The holidays dropped from the front are dated no later than any holiday
      kept: the two kept are the most recent ones. */
  lemma DroppedAreOlder(s: seq<Holiday>, now: Instant, i: nat, j: nat)
    requires SortedBy(s, DateKey)
    requires var past := PastHolidays(s, now);
      i < |past| - Min(2, |past|) <= j < |past|
    ensures DateKey(PastHolidays(s, now)[i]) <= DateKey(PastHolidays(s, now)[j])
  {
    SortedSplitsAtToday(s, now);
    var past := PastHolidays(s, now);
    assert past[i] == s[i] && past[j] == s[j];
  }

  /** What the hook stores after a load that gets through, stated
      against the combined responses: sorted by date, at most two holidays up
      to today, every later holiday, and the count min(2, #past) + #future. */
  lemma LoadedHolidays(current: Response, next: Response, now: Instant)
    requires Loads(current, next)
    ensures var c, r := Combined(current, next), LoadHolidays(current, next, now).value;
      SortedBy(r, DateKey)
      && |PastHolidays(r, now)| == Min(2, |PastHolidays(c, now)|)
      && multiset(FutureHolidays(r, now)) == multiset(FutureHolidays(c, now))
      && |r| == Min(2, |PastHolidays(c, now)|) + |FutureHolidays(c, now)|
      && multiset(r) <= multiset(c)
  {
    var c := Combined(current, next);
    assert LoadHolidays(current, next, now).value == RecentAndUpcoming(SortByDate(c), now);
    TrimmedFacts(c, now);
  }

  /** The trimming step on any combined list `c`: the facts `LoadedHolidays`
      states, about `RecentAndUpcoming(SortByDate(c), now)`. */
  lemma TrimmedFacts(c: seq<Holiday>, now: Instant)
    ensures var r := RecentAndUpcoming(SortByDate(c), now);
      SortedBy(r, DateKey)
      && |PastHolidays(r, now)| == Min(2, |PastHolidays(c, now)|)
      && multiset(FutureHolidays(r, now)) == multiset(FutureHolidays(c, now))
      && |r| == Min(2, |PastHolidays(c, now)|) + |FutureHolidays(c, now)|
      && multiset(r) <= multiset(c)
  {
    var s := SortByDate(c);
    var r := RecentAndUpcoming(s, now);
    var past := PastHolidays(s, now);
    var k := |past| - Min(2, |past|);
    RecentAndUpcomingOfSorted(s, now);
    assert |past| == |PastHolidays(c, now)| by {
      SameCounts(s, c, IsPastIn(now));
    }
    assert |FutureHolidays(s, now)| == |FutureHolidays(c, now)| by {
      SameCounts(s, c, IsFutureIn(now));
    }
    assert multiset(FutureHolidays(s, now)) == multiset(FutureHolidays(c, now)) by {
      FilterPermutation(s, c, IsFutureIn(now));
    }
    assert multiset(r) <= multiset(c) by {
      SuffixSubMultiset(s, k);
    }
  }

  lemma SameCounts(a: seq<Holiday>, b: seq<Holiday>, p: Holiday -> bool)
    requires multiset(a) == multiset(b)
    ensures |Filter(a, p)| == |Filter(b, p)|
  {
    FilterPermutation(a, b, p);
    assert |Filter(a, p)| == |multiset(Filter(a, p))|;
    assert |Filter(b, p)| == |multiset(Filter(b, p))|;
  }

  lemma SuffixSubMultiset(s: seq<Holiday>, k: nat)
    requires k <= |s|
    ensures multiset(s[k..]) <= multiset(s)
  {
    assert s == s[..k] + s[k..];
  }

  /** Holidays missing from a readable body, or a failed next-year request,
      contribute nothing. */
  lemma MissingContributesNothing(current: Response, next: Response)
    ensures current.body == Fields(None) ==> Combined(current, next) == (if next.ok then HolidaysOrEmpty(next) else [])
    ensures !next.ok || next.body == Fields(None) ==> Combined(current, next) == HolidaysOrEmpty(current)
  {
    assert [] + HolidaysOrEmpty(next) == HolidaysOrEmpty(next);
    var none: seq<Holiday> := [];
    assert none + none == none;
    assert HolidaysOrEmpty(current) + [] == HolidaysOrEmpty(current);
  }

  /** The hook's state: `holidays`, `loading` and `error`. */
  datatype FeedState = FeedState(holidays: seq<Holiday>, loading: bool, error: Option<string>)

  /** Before the requests complete: no holidays, loading, no error. */
  const InitialFeed: FeedState := FeedState([], true, None)

  /** The state once the requests complete: loading is over, and either the
      trimmed list is stored or, when a read threw, the thrown message is and
      the list stays empty.  The status error always has a visible message. */
  function SettledFeed(current: Response, next: Response, now: Instant): (st: FeedState)
    ensures !st.loading
    ensures st.error.Some? <==> !Loads(current, next)
    ensures st.error.Some? ==> st.holidays == []
    ensures !current.ok ==> st.error.Some? && st.error.value != ""
    ensures st.error.None? ==> Ok(st.holidays) == LoadHolidays(current, next, now)
  {
    match LoadHolidays(current, next, now)
    case Ok(hs) => FeedState(hs, false, None)
    case Err(message) => FeedState([], false, Some(message))
  }
}
