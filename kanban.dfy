/** The Kanban calendar: one year's holidays from `/holidays/`, kept when
    their `year` field or their date names the year, de-duplicated on date
    and name, and laid out as twelve month columns. */
module Kanban {
  import opened Wrappers
  import opened Seqs
  import opened Sorting
  import opened CivilDate
  import opened Clock
  import opened Holidays

  /** An element of the response array: the holiday and its optional
      numeric `year` field. */
  datatype Entry = Entry(holiday: Holiday, year: Option<int>)

  /** The response: its `ok` flag, its status and the JSON body when it is an
      array (`None` when it is not, so that `data.filter` throws). */
  datatype KanbanResponse = KanbanResponse(ok: bool, status: int, entries: Option<seq<Entry>>)

  /** `h.year === year || dayjs(h.date).year() === year`. */
  function OfYear(year: int): Entry -> bool
  {
    (e: Entry) => e.year == Some(year) || e.holiday.date.year == year
  }

  /** The key `${h.date}-${h.name}`; the date string has a fixed width, so
      the key determines and is determined by the pair. */
  function EntryKey(e: Entry): (Date, string)
  {
    (e.holiday.date, e.holiday.name)
  }

  /** `yearHolidays`. */
  function YearEntries(data: seq<Entry>, year: int): seq<Entry>
  {
    Filter(data, OfYear(year))
  }

  /** `uniqueHolidays`: the year's entries without a repeated date and name. */
  function UniqueEntries(data: seq<Entry>, year: int): seq<Entry>
  {
    DedupBy(YearEntries(data, year), EntryKey)
  }

  /** An entry is kept by the year filter exactly when its `year` field or its
      date names the year. */
  lemma YearFilterKeeps(data: seq<Entry>, year: int, e: Entry)
    ensures e in YearEntries(data, year) <==> e in data && (e.year == Some(year) || e.holiday.date.year == year)
  {
    FilterMembers(data, OfYear(year));
    if e in data && OfYear(year)(e) {
      FilterKeeps(data, OfYear(year), e);
    }
  }

  /** The effect's `filter` over a `Set` of seen keys. */
  method UniqueHolidays(data: seq<Entry>, year: int) returns (unique: seq<Entry>)
    ensures unique == UniqueEntries(data, year)
  {
    unique := DedupWithSeenSet(YearEntries(data, year), EntryKey);
  }

  /** The de-duplicated list keeps the year's entries in order, has no
      repeated date and name, and still holds every pair of the year. */
  lemma UniqueEntriesFacts(data: seq<Entry>, year: int)
    ensures var ys, u := YearEntries(data, year), UniqueEntries(data, year);
      IsSubsequence(u, ys)
      && (forall i, j :: 0 <= i < j < |u| ==> EntryKey(u[i]) != EntryKey(u[j]))
      && forall i :: 0 <= i < |ys| ==> exists e :: e in u && EntryKey(e) == EntryKey(ys[i])
  {
    DedupFromFacts(YearEntries(data, year), EntryKey, {});
  }

  /** Every kept entry is the first of the year's entries with its date and
      name. */
  lemma UniqueKeepsFirst(data: seq<Entry>, year: int, k: nat)
    requires k < |UniqueEntries(data, year)|
    ensures var ys := YearEntries(data, year);
      exists i :: 0 <= i < |ys| && ys[i] == UniqueEntries(data, year)[k]
                  && forall j :: 0 <= j < i ==> EntryKey(ys[j]) != EntryKey(ys[i])
  {
    DedupFromKeepsFirst(YearEntries(data, year), EntryKey, {}, k);
  }

  /** Two entries of the year on the same date under different names both
      survive (by their date and name). */
  lemma SameDateDifferentNamesSurvive(data: seq<Entry>, year: int, a: Entry, b: Entry)
    requires a in data && b in data && OfYear(year)(a) && OfYear(year)(b)
    requires a.holiday.date == b.holiday.date && a.holiday.name != b.holiday.name
    ensures exists x :: x in UniqueEntries(data, year) && EntryKey(x) == EntryKey(a)
    ensures exists y :: y in UniqueEntries(data, year) && EntryKey(y) == EntryKey(b)
    ensures EntryKey(a) != EntryKey(b)
  {
    var ys := YearEntries(data, year);
    YearFilterKeeps(data, year, a);
    YearFilterKeeps(data, year, b);
    UniqueEntriesFacts(data, year);
    var i :| 0 <= i < |ys| && ys[i] == a;
    var j :| 0 <= j < |ys| && ys[j] == b;
  }

  /** The component's state. */
  datatype KanbanState = KanbanState(holidays: seq<Holiday>, loading: bool, error: Option<string>)

  const InitialKanban: KanbanState := KanbanState([], true, None)

  const KanbanError: string := "Error cargando feriados"

  function HolidaysOf(entries: seq<Entry>): (hs: seq<Holiday>)
    ensures |hs| == |entries|
    ensures forall i :: 0 <= i < |hs| ==> hs[i] == entries[i].holiday
  {
    if entries == [] then [] else [entries[0].holiday] + HolidaysOf(entries[1..])
  }

  /** The state once the request settles: a failed request or a body that is
      not an array shows the fixed message; otherwise the unique entries of
      the year are stored.  Loading ends either way. */
  function SettledKanban(r: KanbanResponse, year: int): (st: KanbanState)
    ensures !st.loading
    ensures st.error.Some? <==> !r.ok || r.entries.None?
    ensures st.error.Some? ==> st.error == Some(KanbanError) && st.holidays == []
    ensures st.error.None? ==> st.holidays == HolidaysOf(UniqueEntries(r.entries.value, year))
  {
    if !r.ok || r.entries.None? then KanbanState([], false, Some(KanbanError))
    else KanbanState(HolidaysOf(UniqueEntries(r.entries.value, year)), false, None)
  }

  /** `dayjs(h.date).month()`: the month counted from 0. */
  function MonthIndex(h: Holiday): int
  {
    h.date.month - 1
  }

  /** `dayjs(h.date).month() === monthIndex`. */
  function InMonthIndex(monthIndex: int): Holiday -> bool
  {
    HasKey(MonthIndex, monthIndex)
  }

  /** `getHolidaysByMonth(monthIndex)`. */
  function HolidaysByMonth(hs: seq<Holiday>, monthIndex: int): seq<Holiday>
  {
    SortByDate(Filter(hs, InMonthIndex(monthIndex)))
  }

  /** A column holds exactly the holidays of its month, each as often as in
      the list, sorted by date. */
  lemma ColumnIsMonth(hs: seq<Holiday>, monthIndex: int)
    ensures var col := HolidaysByMonth(hs, monthIndex);
      SortedBy(col, DateKey)
      && multiset(col) == multiset(Filter(hs, InMonthIndex(monthIndex)))
      && forall h :: h in col <==> h in hs && h.date.month - 1 == monthIndex
  {
    var p := InMonthIndex(monthIndex);
    SortedFilterMembers(hs, p);
    forall h ensures p(h) == (h.date.month - 1 == monthIndex) {
      assert p(h) == (MonthIndex(h) == monthIndex);
    }
  }

  /** The first `n` columns together, counted with multiplicity. */
  function ColumnsUpTo(hs: seq<Holiday>, n: nat): multiset<Holiday>
  {
    if n == 0 then multiset{} else ColumnsUpTo(hs, n - 1) + multiset(HolidaysByMonth(hs, n - 1))
  }

  /** Sorting a column does not change what it holds. */
  lemma {:induction false} ColumnsAreMonths(hs: seq<Holiday>, n: nat)
    ensures ColumnsUpTo(hs, n) == ClassesUpTo(hs, MonthIndex, n)
  {
    if n > 0 {
      ColumnsAreMonths(hs, n - 1);
      var col := Filter(hs, HasKey(MonthIndex, n - 1));
      assert multiset(HolidaysByMonth(hs, n - 1)) == multiset(col);
    }
  }

  /** The twelve columns partition the list: every holiday is in the column
      of its month and in no other. */
  lemma ColumnsPartition(hs: seq<Holiday>)
    ensures ColumnsUpTo(hs, 12) == multiset(hs)
  {
    ColumnsAreMonths(hs, 12);
    ClassesPartition(hs, MonthIndex, 12);
  }

  /** `isWeekend`: Sunday (0) or Saturday (6). */
  lemma KanbanWeekend(d: Date)
    ensures IsWeekend(d) <==> Weekday(d) == 0 || Weekday(d) == 6
  {
  }

  /** `isCurrentMonth(monthIndex)`: today's month is that column's and the
      calendar shows today's year. */
  predicate IsCurrentMonth(monthIndex: int, year: int, now: Instant)
  {
    now.date.month - 1 == monthIndex && now.date.year == year
  }

  /** Exactly one column is current when the calendar shows today's year, and
      none otherwise. */
  lemma CurrentColumn(year: int, now: Instant)
    ensures year == now.date.year ==>
      (forall i :: 0 <= i < 12 ==> (IsCurrentMonth(i, year, now) <==> i == now.date.month - 1))
    ensures year != now.date.year ==> forall i :: !IsCurrentMonth(i, year, now)
  {
  }

  /** A card: its holiday, faded when past and marked on a weekend. */
  datatype KanbanCard = KanbanCard(holiday: Holiday, isPast: bool, weekend: bool)

  /** A column: the month's header name, whether it is today's month, and its
      cards (`Sin feriados` when there are none). */
  datatype Column = Column(name: string, isCurrent: bool, cards: seq<KanbanCard>)

  const KanbanMonthNames: seq<string> := ["Enero", "Febrero", "Marzo", "Abril", "Mayo", "Junio", "Julio",
                                          "Agosto", "Septiembre", "Octubre", "Noviembre", "Diciembre"]

  function CardOf(now: Instant): Holiday -> KanbanCard
  {
    (h: Holiday) => KanbanCard(h, IsPastDate(h.date, now), IsWeekend(h.date))
  }

  function CardsOf(hs: seq<Holiday>, now: Instant): (cards: seq<KanbanCard>)
    ensures |cards| == |hs|
    ensures forall i :: 0 <= i < |cards| ==>
      cards[i].holiday == hs[i] && cards[i].isPast == IsPastDate(hs[i].date, now) && cards[i].weekend == IsWeekend(hs[i].date)
  {
    if hs == [] then [] else [CardOf(now)(hs[0])] + CardsOf(hs[1..], now)
  }

  datatype KanbanScreen = KanbanLoading | KanbanFailed(message: string) | Board(columns: seq<Column>)

  /** The component: loading first, then a non-empty error, then the twelve
      month columns. */
  function RenderKanban(st: KanbanState, year: int, now: Instant): (screen: KanbanScreen)
    ensures st.loading <==> screen == KanbanLoading
    ensures screen.KanbanFailed? <==> !st.loading && st.error.Some? && st.error.value != ""
    ensures screen.KanbanFailed? ==> screen.message == st.error.value
    ensures screen.Board? ==>
      |screen.columns| == 12
      && forall i :: 0 <= i < 12 ==>
        screen.columns[i] == Column(KanbanMonthNames[i], IsCurrentMonth(i, year, now),
                                    CardsOf(HolidaysByMonth(st.holidays, i), now))
  {
    if st.loading then KanbanLoading
    else if st.error.Some? && st.error.value != "" then KanbanFailed(st.error.value)
    else Board(seq(12, (i: int) requires 0 <= i < 12 =>
      Column(KanbanMonthNames[i], IsCurrentMonth(i, year, now), CardsOf(HolidaysByMonth(st.holidays, i), now))))
  }

  /** After a failed request the board shows the fixed message; after a
      successful one it shows twelve columns whose holidays are, together,
      the unique holidays of the year. */
  lemma SettledBoard(r: KanbanResponse, year: int, now: Instant)
    ensures var screen := RenderKanban(SettledKanban(r, year), year, now);
      (!r.ok || r.entries.None? ==> screen == KanbanFailed(KanbanError))
      && (r.ok && r.entries.Some? ==>
            screen.Board? && ColumnsUpTo(SettledKanban(r, year).holidays, 12) == multiset(SettledKanban(r, year).holidays))
  {
    ColumnsPartition(SettledKanban(r, year).holidays);
  }
}
