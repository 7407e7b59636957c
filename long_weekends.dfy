/** The long-weekend timeline: this year's and next year's grouped long
    weekends, merged as one JSON object; the last long weekend that is over,
    then every other one with a year marker wherever the starting year
    changes; and, on each card, its day count, its status (in progress, over,
    or a countdown) and its list of days.  Instants are on the Santiago civil
    clock and a weekend's `start` and `end` are read as their midnights. */
module LongWeekends {
  import opened Wrappers
  import opened Seqs
  import opened Text
  import opened CivilDate
  import opened Clock
  import opened Names

  /** A day of a long weekend: its date, the backend's weekday number
      (Monday = 0) and the name of the holiday on it, if any. */
  datatype WeekendDay = WeekendDay(date: Date, dayOfWeek: int, holidayName: Option<string>)

  datatype LongWeekend = LongWeekend(start: Date, end: Date, days: seq<WeekendDay>)

  /** A JSON object of weekend groups: its keys in insertion order and its
      values.  Keys are taken not to look like array indices, so that
      `Object.values` follows insertion order. */
  datatype Grouped = Grouped(keys: seq<string>, groups: map<string, seq<LongWeekend>>)

  /** The keys are distinct and are exactly the keys of the map. */
  ghost predicate WellFormed(g: Grouped)
  {
    (forall i, j :: 0 <= i < j < |g.keys| ==> g.keys[i] != g.keys[j])
    && forall k :: k in g.groups <==> k in g.keys
  }

  const NoGroups: Grouped := Grouped([], map[])

  function NotKeyOf(m: map<string, seq<LongWeekend>>): string -> bool
  {
    (k: string) => k !in m
  }

  /** `{ ...a, ...b }`: the keys of `a`, then the new keys of `b`; a value of
      `b` replaces the value of `a` under the same key. */
  function Merge(a: Grouped, b: Grouped): Grouped
  {
    Grouped(a.keys + Filter(b.keys, NotKeyOf(a.groups)), a.groups + b.groups)
  }

  /** A filter of a sequence without repetitions has none. */
  lemma {:induction false} FilterDistinct(s: seq<string>, p: string -> bool)
    requires forall i, j :: 0 <= i < j < |s| ==> s[i] != s[j]
    ensures forall i, j :: 0 <= i < j < |Filter(s, p)| ==> Filter(s, p)[i] != Filter(s, p)[j]
  {
    if s != [] {
      var rest := s[1..];
      assert forall i, j :: 0 <= i < j < |rest| ==> rest[i] != rest[j] by {
        forall i, j | 0 <= i < j < |rest| ensures rest[i] != rest[j] {
          assert rest[i] == s[i + 1] && rest[j] == s[j + 1];
        }
      }
      FilterDistinct(rest, p);
      FilterMembers(rest, p);
      if p(s[0]) {
        var r := Filter(s, p);
        assert r == [s[0]] + Filter(rest, p);
        assert s[0] !in rest by {
          forall j | 0 <= j < |rest| ensures rest[j] != s[0] {
            assert rest[j] == s[j + 1];
          }
        }
        forall i, j | 0 <= i < j < |r| ensures r[i] != r[j] {
          if i == 0 {
            assert r[j] in Filter(rest, p);
          } else {
            assert r[i] == Filter(rest, p)[i - 1] && r[j] == Filter(rest, p)[j - 1];
          }
        }
      }
    }
  }

  /** The merge is a well-formed object holding every key of either side,
      the value of the second side wherever it has one, and the keys of the
      first side first, in their order. */
  lemma MergeFacts(a: Grouped, b: Grouped)
    requires WellFormed(a) && WellFormed(b)
    ensures var m := Merge(a, b);
      WellFormed(m)
      && (forall k :: k in m.groups <==> k in a.groups || k in b.groups)
      && (forall k :: k in b.groups ==> m.groups[k] == b.groups[k])
      && (forall k :: k in a.groups && k !in b.groups ==> m.groups[k] == a.groups[k])
      && m.keys[..|a.keys|] == a.keys
  {
    MergeKeysDistinct(a, b);
    MergeKeysAreMapKeys(a, b);
    var m := Merge(a, b);
    assert m.keys[..|a.keys|] == a.keys;
  }

  lemma MergeKeysDistinct(a: Grouped, b: Grouped)
    requires WellFormed(a) && WellFormed(b)
    ensures var keys := Merge(a, b).keys;
      forall i, j :: 0 <= i < j < |keys| ==> keys[i] != keys[j]
  {
    var keys := Merge(a, b).keys;
    var added := Filter(b.keys, NotKeyOf(a.groups));
    assert keys == a.keys + added;
    FilterDistinct(b.keys, NotKeyOf(a.groups));
    FilterMembers(b.keys, NotKeyOf(a.groups));
    forall i, j | 0 <= i < j < |keys| ensures keys[i] != keys[j] {
      if j < |a.keys| {
        assert keys[i] == a.keys[i] && keys[j] == a.keys[j];
      } else if i < |a.keys| {
        assert keys[j] == added[j - |a.keys|];
        assert keys[j] in added;
        assert keys[i] == a.keys[i] && a.keys[i] in a.keys;
      } else {
        assert keys[i] == added[i - |a.keys|] && keys[j] == added[j - |a.keys|];
      }
    }
  }

  lemma MergeKeysAreMapKeys(a: Grouped, b: Grouped)
    requires WellFormed(a) && WellFormed(b)
    ensures var m := Merge(a, b); forall k :: k in m.groups <==> k in m.keys
  {
    var m := Merge(a, b);
    var added := Filter(b.keys, NotKeyOf(a.groups));
    assert m.keys == a.keys + added;
    FilterMembers(b.keys, NotKeyOf(a.groups));
    forall k ensures k in m.groups <==> k in m.keys {
      if k in b.groups && k !in a.groups {
        FilterKeeps(b.keys, NotKeyOf(a.groups), k);
      }
    }
  }

  /** `Object.values(grouped)`: the groups in key order. */
  function ValuesOf(g: Grouped): seq<seq<LongWeekend>>
  {
    seq(|g.keys|, i requires 0 <= i < |g.keys| => if g.keys[i] in g.groups then g.groups[g.keys[i]] else [])
  }

  /** `Object.values(grouped).flat()`. */
  function AllWeekends(g: Grouped): seq<LongWeekend>
  {
    Flatten(ValuesOf(g))
  }

  /** A response body: `Unparsable` when `json()` rejects it, otherwise the
      parsed grouping.  A JSON `null` spreads as `{}`, so it is
      `Parsed(NoGroups)`. */
  datatype WeekendsBody = Unparsable | Parsed(grouped: Grouped)

  /** Each response: its `ok` flag and its body. */
  datatype WeekendsResponse = WeekendsResponse(ok: bool, body: WeekendsBody)

  /** The component's state. */
  datatype TimelineState = TimelineState(grouped: Grouped, isLoading: bool, error: Option<string>)

  const InitialTimeline: TimelineState := TimelineState(NoGroups, true, None)

  const TimelineError: string := "Error cargando feriados largos. Por favor intente más tarde."

  /** The state once both requests settle: a failed request or a body that
      does not parse shows the fixed message and leaves the groups empty;
      otherwise the two bodies are merged, the next year's second. */
  function SettledTimeline(current: WeekendsResponse, next: WeekendsResponse): (st: TimelineState)
    ensures !st.isLoading
    ensures st.error.Some? <==> !current.ok || !next.ok || current.body.Unparsable? || next.body.Unparsable?
    ensures st.error.Some? ==> st.error == Some(TimelineError) && st.grouped == NoGroups
    ensures st.error.None? ==> st.grouped == Merge(current.body.grouped, next.body.grouped)
  {
    if !current.ok || !next.ok || current.body.Unparsable? || next.body.Unparsable? then
      TimelineState(NoGroups, false, Some(TimelineError))
    else TimelineState(Merge(current.body.grouped, next.body.grouped), false, None)
  }

  /** After two successful requests with parsed bodies the next year's
      group wins under a key both years use, and the current year's group is
      kept under a key only it uses. */
  lemma NextYearOverwrites(current: WeekendsResponse, next: WeekendsResponse, k: string)
    requires current.ok && next.ok && current.body.Parsed? && next.body.Parsed?
    requires WellFormed(current.body.grouped) && WellFormed(next.body.grouped)
    ensures var a, b, g := current.body.grouped, next.body.grouped, SettledTimeline(current, next).grouped;
      WellFormed(g)
      && (k in b.groups ==> g.groups[k] == b.groups[k])
      && (k in a.groups && k !in b.groups ==> g.groups[k] == a.groups[k])
      && (k !in a.groups && k !in b.groups ==> k !in g.groups)
  {
    MergeFacts(current.body.grouped, next.body.grouped);
  }

  /** `getCountdown(date)`: "Evento pasado" once the hour difference is
      negative, otherwise the whole days and the remaining hours. */
  function CountdownText(start: Date, now: Instant): (text: string)
    ensures HoursUntil(start, now) < 0 ==> text == "Evento pasado"
    ensures HoursUntil(start, now) >= 0 ==>
      var c := CountdownOf(HoursUntil(start, now));
      text == NatToString(c.days) + "d " + NatToString(c.hours) + "h"
  {
    var diff := HoursUntil(start, now);
    if diff < 0 then "Evento pasado"
    else NatToString(diff / 24) + "d " + NatToString(diff % 24) + "h"
  }

  /** The countdown reads "Evento pasado" exactly when at least a whole hour
      has gone by since the weekend's first midnight (the hour difference
      truncates toward zero). */
  lemma CountdownPastIff(start: Date, now: Instant)
    ensures CountdownText(start, now) == "Evento pasado" <==> Minutes(now) >= Minutes(Midnight(start)) + 60
  {
    var text := CountdownText(start, now);
    if HoursUntil(start, now) >= 0 {
      assert text[|text| - 1] == 'h';
      assert "Evento pasado"[12] == 'o';
    }
  }

  function DayDate(d: WeekendDay): Date
  {
    d.date
  }

  /** `weekend.days.filter((day, index, self) => index === self.findIndex(t => t.date === day.date))`. */
  function UniqueDays(days: seq<WeekendDay>): seq<WeekendDay>
  {
    KeepFirstFrom(days, DayDate, 0)
  }

  /** The unique days keep the first day listed for each date, in order: no
      date repeats and every listed date is still there. */
  lemma UniqueDaysFacts(days: seq<WeekendDay>)
    ensures UniqueDays(days) == DedupBy(days, DayDate)
    ensures IsSubsequence(UniqueDays(days), days)
    ensures KeysDistinct(UniqueDays(days), DayDate)
    ensures forall i :: 0 <= i < |days| ==> exists d :: d in UniqueDays(days) && d.date == days[i].date
  {
    KeepFirstIsDedup(days, DayDate);
    DedupFromFacts(days, DayDate, {});
  }

  /** Each unique day is the first day listed with its date. */
  lemma UniqueDaysKeepFirst(days: seq<WeekendDay>, k: nat)
    requires k < |UniqueDays(days)|
    ensures exists i :: 0 <= i < |days| && days[i] == UniqueDays(days)[k]
                        && forall j :: 0 <= j < i ==> days[j].date != days[i].date
  {
    KeepFirstIsDedup(days, DayDate);
    DedupFromKeepsFirst(days, DayDate, {}, k);
  }

  /** `end.diff(start, 'day') + 1`: both are midnights, so the difference is
      exact. */
  function DayCount(w: LongWeekend): int
  {
    DayNumber(w.end) - DayNumber(w.start) + 1
  }

  /** The note under a card. */
  predicate ShowsDiscrepancy(w: LongWeekend)
  {
    |UniqueDays(w.days)| != DayCount(w)
  }

  /** When the backend lists as many days as the weekend spans, the note
      appears exactly when some date is listed twice. */
  lemma DiscrepancyIffRepeatedDate(w: LongWeekend)
    requires |w.days| == DayCount(w)
    ensures ShowsDiscrepancy(w) <==> exists i, j :: 0 <= i < j < |w.days| && w.days[i].date == w.days[j].date
  {
    KeepFirstIsDedup(w.days, DayDate);
    DedupShortensIffRepeated(w.days, DayDate);
  }

  /** A weekend that lists each of its dates once, in order from its start,
      shows no note. */
  lemma ConsecutiveDaysShowNoNote(w: LongWeekend)
    requires |w.days| == DayCount(w)
    requires forall i :: 0 <= i < |w.days| ==> DayNumber(w.days[i].date) == DayNumber(w.start) + i
    ensures !ShowsDiscrepancy(w)
  {
    DiscrepancyIffRepeatedDate(w);
  }

  /** `day.holiday ? day.holiday.name : getDayName(day.dayOfWeek)`. */
  function DayLabel(d: WeekendDay): (text: string)
    ensures d.holidayName.Some? ==> text == d.holidayName.value
    ensures d.holidayName.None? ==> text == DayNameMonday0(d.dayOfWeek)
  {
    match d.holidayName
    case Some(name) => name
    case None => DayNameMonday0(d.dayOfWeek)
  }

  /** `isBefore(now)` on the weekend's end. */
  function IsPastWeekend(now: Instant): LongWeekend -> bool
  {
    (w: LongWeekend) => InstantBefore(Midnight(w.end), now)
  }

  function IsUpcomingWeekend(now: Instant): LongWeekend -> bool
  {
    (w: LongWeekend) => !InstantBefore(Midnight(w.end), now)
  }

  /** `now.isAfter(start) && now.isBefore(end)`. */
  function IsCurrentWeekend(now: Instant): LongWeekend -> bool
  {
    (w: LongWeekend) => InstantBefore(Midnight(w.start), now) && InstantBefore(now, Midnight(w.end))
  }

  function PastWeekends(all: seq<LongWeekend>, now: Instant): seq<LongWeekend>
  {
    Filter(all, IsPastWeekend(now))
  }

  function FutureWeekends(all: seq<LongWeekend>, now: Instant): seq<LongWeekend>
  {
    Filter(all, IsUpcomingWeekend(now))
  }

  /** The two lists partition the weekends: each weekend is in exactly one,
      as often as it is listed. */
  lemma PastFutureSplit(all: seq<LongWeekend>, now: Instant)
    ensures multiset(PastWeekends(all, now)) + multiset(FutureWeekends(all, now)) == multiset(all)
    ensures forall w :: w in PastWeekends(all, now) ==> w in all && InstantBefore(Midnight(w.end), now)
    ensures forall w :: w in FutureWeekends(all, now) ==> w in all && !InstantBefore(Midnight(w.end), now)
  {
    FilterSplitsMultiset(all, IsPastWeekend(now), IsUpcomingWeekend(now));
    FilterMembers(all, IsPastWeekend(now));
    FilterMembers(all, IsUpcomingWeekend(now));
  }

  /** A weekend in progress is never over, and on its last day (after
      midnight) a weekend counts as over. */
  lemma CurrentIsUpcoming(w: LongWeekend, now: Instant)
    ensures IsCurrentWeekend(now)(w) ==> IsUpcomingWeekend(now)(w)
    ensures now.date == w.end && now.minute > 0 ==> IsPastWeekend(now)(w) && !IsCurrentWeekend(now)(w)
  {
  }

  /** The index of `glowingWeekend = currentWeekend || futureWeekends[0]`
      among the upcoming weekends (the card is compared by reference). */
  function GlowingIndex(future: seq<LongWeekend>, now: Instant): (g: Option<nat>)
    ensures g.Some? <==> future != []
    ensures g.Some? ==> g.value < |future|
  {
    match FirstIndex(future, IsCurrentWeekend(now))
    case Some(i) => Some(i)
    case None => if future == [] then None else Some(0)
  }

  /** The glowing weekend is the first one in progress, or the first upcoming
      one when none is. */
  lemma GlowingIsFirstCurrentOrFirst(future: seq<LongWeekend>, now: Instant)
    ensures (exists i :: 0 <= i < |future| && IsCurrentWeekend(now)(future[i])) ==>
      var g := GlowingIndex(future, now).value;
      IsCurrentWeekend(now)(future[g]) && forall j :: 0 <= j < g ==> !IsCurrentWeekend(now)(future[j])
    ensures future != [] && (forall i :: 0 <= i < |future| ==> !IsCurrentWeekend(now)(future[i])) ==>
      GlowingIndex(future, now) == Some(0)
  {
  }

  /** A rendered element of the timeline. */
  datatype TimelineItem = WeekendCard(weekend: LongWeekend, isPastEvent: bool, isGlowing: bool) | YearMarker(year: int)

  /** `lastPastWeekend`, rendered faded. */
  function PastPart(past: seq<LongWeekend>): seq<TimelineItem>
  {
    if |past| == 0 then [] else [WeekendCard(past[|past| - 1], true, false)]
  }

  /** `previousYear` before the upcoming weekend at `i`: the end year of the
      last past weekend before the first, then the start year of the one
      before. */
  function PreviousYear(past: seq<LongWeekend>, future: seq<LongWeekend>, i: nat): Option<int>
    requires i <= |future|
  {
    if i > 0 then Some(future[i - 1].start.year)
    else if |past| == 0 then None
    else Some(past[|past| - 1].end.year)
  }

  /** The upcoming weekend at `i`: a year marker when its start year differs
      from the previous year, then its card. */
  function UpcomingSection(past: seq<LongWeekend>, future: seq<LongWeekend>, g: Option<nat>, i: nat): seq<TimelineItem>
    requires i < |future|
  {
    var prev := PreviousYear(past, future, i);
    (if prev.Some? && future[i].start.year != prev.value then [YearMarker(future[i].start.year)] else [])
    + [WeekendCard(future[i], false, g == Some(i))]
  }

  function UpcomingUpTo(past: seq<LongWeekend>, future: seq<LongWeekend>, g: Option<nat>, n: nat): seq<TimelineItem>
    requires n <= |future|
  {
    if n == 0 then [] else UpcomingUpTo(past, future, g, n - 1) + UpcomingSection(past, future, g, n - 1)
  }

  /** What `renderLongWeekends` returns. */
  function TimelineOf(all: seq<LongWeekend>, now: Instant): seq<TimelineItem>
  {
    var past, future := PastWeekends(all, now), FutureWeekends(all, now);
    PastPart(past) + UpcomingUpTo(past, future, GlowingIndex(future, now), |future|)
  }

  /** `renderLongWeekends`: the last past weekend, then the loop over the
      upcoming weekends that remembers the previous year. */
  method RenderLongWeekends(all: seq<LongWeekend>, now: Instant) returns (items: seq<TimelineItem>)
    ensures items == TimelineOf(all, now)
  {
    var past := PastWeekends(all, now);
    var future := FutureWeekends(all, now);
    var glowing := GlowingIndex(future, now);
    var previousYear: Option<int> := None;
    items := [];
    if |past| > 0 {
      items := items + [WeekendCard(past[|past| - 1], true, false)];
      previousYear := Some(past[|past| - 1].end.year);
    }
    assert items == PastPart(past);
    items := RenderUpcoming(past, future, glowing, items, previousYear);
    assert TimelineOf(all, now) == PastPart(past) + UpcomingUpTo(past, future, glowing, |future|);
  }

  /** The `forEach` over the upcoming weekends, appending to `items`. */
  method RenderUpcoming(past: seq<LongWeekend>, future: seq<LongWeekend>, glowing: Option<nat>,
                        start: seq<TimelineItem>, previous: Option<int>) returns (items: seq<TimelineItem>)
    requires previous == PreviousYear(past, future, 0)
    ensures items == start + UpcomingUpTo(past, future, glowing, |future|)
  {
    var previousYear := previous;
    items := start;
    for i := 0 to |future|
      invariant items == start + UpcomingUpTo(past, future, glowing, i)
      invariant previousYear == PreviousYear(past, future, i)
    {
      var weekendYear := future[i].start.year;
      if previousYear.Some? && weekendYear != previousYear.value {
        items := items + [YearMarker(weekendYear)];
      }
      items := items + [WeekendCard(future[i], false, glowing == Some(i))];
      previousYear := Some(weekendYear);
    }
  }

  function IsCard(it: TimelineItem): bool
  {
    it.WeekendCard?
  }

  /** The cards of the upcoming weekends, in order, the glowing one flagged. */
  function UpcomingCards(future: seq<LongWeekend>, g: Option<nat>): seq<TimelineItem>
  {
    seq(|future|, i requires 0 <= i < |future| => WeekendCard(future[i], false, g == Some(i)))
  }

  /** Without its year markers the upcoming part is one card per upcoming
      weekend, in order, and each marker follows a card of another year and
      is followed by a card of its own year. */
  lemma {:induction false} UpcomingCardsInOrder(past: seq<LongWeekend>, future: seq<LongWeekend>, g: Option<nat>, n: nat)
    requires n <= |future|
    ensures Filter(UpcomingUpTo(past, future, g, n), IsCard) == UpcomingCards(future[..n], g)
  {
    if n > 0 {
      var prefix, sec := UpcomingUpTo(past, future, g, n - 1), UpcomingSection(past, future, g, n - 1);
      UpcomingCardsInOrder(past, future, g, n - 1);
      FilterConcat(prefix, sec, IsCard);
      SectionCard(past, future, g, n - 1);
      UpcomingCardsSnoc(future, g, n);
    }
  }

  /** A section holds one card. */
  lemma SectionCard(past: seq<LongWeekend>, future: seq<LongWeekend>, g: Option<nat>, i: nat)
    requires i < |future|
    ensures Filter(UpcomingSection(past, future, g, i), IsCard) == [WeekendCard(future[i], false, g == Some(i))]
  {
    var sec := UpcomingSection(past, future, g, i);
    var card := WeekendCard(future[i], false, g == Some(i));
    if |sec| == 2 {
      assert sec == [sec[0]] + [card];
      FilterConcat([sec[0]], [card], IsCard);
    } else {
      assert sec == [card];
    }
  }

  lemma UpcomingCardsSnoc(future: seq<LongWeekend>, g: Option<nat>, n: nat)
    requires 0 < n <= |future|
    ensures UpcomingCards(future[..n], g) == UpcomingCards(future[..n - 1], g) + [WeekendCard(future[n - 1], false, g == Some(n - 1))]
  {
    var a, b := UpcomingCards(future[..n], g), UpcomingCards(future[..n - 1], g);
    assert |a| == |b| + 1;
    forall i | 0 <= i < |b| ensures a[i] == b[i] {
      assert future[..n][i] == future[..n - 1][i];
    }
  }

  /** The timeline shows, as cards, the last weekend that is over (faded),
      then every upcoming weekend in order, and exactly the glowing one of
      those glows. */
  lemma TimelineCards(all: seq<LongWeekend>, now: Instant)
    ensures var past, future := PastWeekends(all, now), FutureWeekends(all, now);
      Filter(TimelineOf(all, now), IsCard) == PastPart(past) + UpcomingCards(future, GlowingIndex(future, now))
  {
    var past, future := PastWeekends(all, now), FutureWeekends(all, now);
    var g := GlowingIndex(future, now);
    UpcomingCardsInOrder(past, future, g, |future|);
    FilterConcat(PastPart(past), UpcomingUpTo(past, future, g, |future|), IsCard);
    assert future[..|future|] == future;
    FilterAll(PastPart(past), IsCard);
  }

  /** A year marker stands right before a card and names that card's start
      year, which differs from the year remembered before it. */
  lemma {:induction false} MarkerBeforeItsCard(past: seq<LongWeekend>, future: seq<LongWeekend>, g: Option<nat>, n: nat, k: nat)
    requires n <= |future|
    requires k < |UpcomingUpTo(past, future, g, n)| && UpcomingUpTo(past, future, g, n)[k].YearMarker?
    ensures var items := UpcomingUpTo(past, future, g, n);
      k + 1 < |items| && items[k + 1].WeekendCard? && items[k + 1].weekend.start.year == items[k].year
      && exists i :: 0 <= i < n && items[k + 1].weekend == future[i]
                    && PreviousYear(past, future, i).Some? && PreviousYear(past, future, i).value != items[k].year
  {
    var prefix, sec := UpcomingUpTo(past, future, g, n - 1), UpcomingSection(past, future, g, n - 1);
    if k < |prefix| {
      MarkerBeforeItsCard(past, future, g, n - 1, k);
      var i :| 0 <= i < n - 1 && prefix[k + 1].weekend == future[i]
               && PreviousYear(past, future, i).Some? && PreviousYear(past, future, i).value != prefix[k].year;
      assert (prefix + sec)[k + 1] == prefix[k + 1];
    } else {
      assert k == |prefix|;
      assert (prefix + sec)[k + 1] == sec[1];
    }
  }

  /** The status line of a card. */
  function CardStatus(w: LongWeekend, isPastEvent: bool, now: Instant): (status: string)
    ensures IsCurrentWeekend(now)(w) ==> status == "En curso"
    ensures !IsCurrentWeekend(now)(w) && isPastEvent ==> status == "Evento pasado"
    ensures !IsCurrentWeekend(now)(w) && !isPastEvent ==> status == CountdownText(w.start, now)
  {
    if IsCurrentWeekend(now)(w) then "En curso"
    else if isPastEvent then "Evento pasado"
    else CountdownText(w.start, now)
  }

  /** The faded card is over, so it always reads "Evento pasado". */
  lemma PastCardReadsOver(all: seq<LongWeekend>, now: Instant)
    requires PastWeekends(all, now) != []
    ensures var past := PastWeekends(all, now);
      CardStatus(past[|past| - 1], true, now) == "Evento pasado"
  {
    var past := PastWeekends(all, now);
    var w := past[|past| - 1];
    assert IsPastWeekend(now)(w) by {
      assert w in past;
      FilterMembers(all, IsPastWeekend(now));
    }
    PastIsNotCurrent(w, now);
  }

  lemma PastIsNotCurrent(w: LongWeekend, now: Instant)
    requires IsPastWeekend(now)(w)
    ensures !IsCurrentWeekend(now)(w)
  {
  }

  /** `dayCount === 1 ? 'día' : 'días'`. */
  function DayWord(count: int): (word: string)
    ensures word == "día" <==> count == 1
  {
    if count == 1 then "día" else "días"
  }

  /** What a card shows. */
  datatype CardView = CardView(dayCount: int, dayWord: string, status: string, dayLabels: seq<string>,
                               discrepancyNote: bool, faded: bool, glowing: bool)

  function CardViewOf(w: LongWeekend, isPastEvent: bool, isGlowing: bool, now: Instant): (v: CardView)
    ensures v.dayCount == DayCount(w) && v.dayWord == DayWord(DayCount(w))
    ensures v.status == CardStatus(w, isPastEvent, now)
    ensures |v.dayLabels| == |UniqueDays(w.days)|
    ensures forall i :: 0 <= i < |v.dayLabels| ==> v.dayLabels[i] == DayLabel(UniqueDays(w.days)[i])
    ensures v.discrepancyNote <==> ShowsDiscrepancy(w)
    ensures v.faded == isPastEvent && v.glowing == isGlowing
  {
    var unique := UniqueDays(w.days);
    CardView(DayCount(w), DayWord(DayCount(w)), CardStatus(w, isPastEvent, now),
             seq(|unique|, i requires 0 <= i < |unique| => DayLabel(unique[i])),
             ShowsDiscrepancy(w), isPastEvent, isGlowing)
  }

  datatype TimelineScreen = TimelineLoading | TimelineFailed(message: string) | Timeline(items: seq<TimelineItem>)

  /** The component: loading first, then a non-empty error, then the
      timeline of every merged weekend. */
  method RenderTimeline(st: TimelineState, now: Instant) returns (screen: TimelineScreen)
    ensures st.isLoading ==> screen == TimelineLoading
    ensures !st.isLoading && st.error.Some? && st.error.value != "" ==> screen == TimelineFailed(st.error.value)
    ensures !st.isLoading && !(st.error.Some? && st.error.value != "") ==>
      screen == Timeline(TimelineOf(AllWeekends(st.grouped), now))
  {
    if st.isLoading {
      return TimelineLoading;
    }
    if st.error.Some? && st.error.value != "" {
      return TimelineFailed(st.error.value);
    }
    var items := RenderLongWeekends(AllWeekends(st.grouped), now);
    screen := Timeline(items);
  }
}
