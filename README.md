# Chilean holidays front end: calendar, list and widget logic

This project models the computations behind the f24 front end, a Next.js site
that shows Chilean public holidays ("feriados"). Once its data has arrived,
the site works out a good deal on its own:

- **Dates.** It classifies dates as past, today, future or weekend, counts
  the days and hours to a holiday, and steps between months with year
  rollover. It names months and weekdays in Spanish.
- **Holiday lists.**
  - It merges this year's and next year's lists, sorts them by date and keeps
    only the two most recent past holidays.
  - It filters by the weekend and next-year checkboxes, by month range and by
    year.
  - It removes repeated entries, groups holidays under a "MMMM YYYY" label,
    puts year separators between cards, and picks the current, next, visible
    next and next working-day holiday.
- **Long weekends.** It merges two years of grouped long weekends, removes
  repeated days, flags a day-count discrepancy, splits the weekends into past
  and upcoming, and picks the one that glows.
- **Widgets.** It builds the pagination window, the full-calendar cells, the
  hero banner text, the countdown widget, the year-in-numbers labels, the
  shared product list and the tour card.
- **Validators.** It checks a Chilean RUT (the modulo-11 check digit), an
  e-mail address, a phone number and a "not empty" value.

Each React component or hook is modelled as pure functions of its inputs:

- Each HTTP response is a value: its `ok` flag, its status where the code
  reads it, and its body. A body that does not parse, or whose fields cannot
  be read, is a case of its own, because reading it throws.
- The current instant `now` is a parameter.
- A settled state is a function of the responses. The screen a component
  renders is a function of that state.

Imperative code of the source stays imperative. The loops are the RUT sum,
the Kanban de-duplication with its set of seen keys, the month grouping,
the holiday list's two render helpers and the long-weekend timeline. `getNavigationLinks` has no loop: it reassigns its
locals step by step. Each of these is a `method` proved equal to a
specification function.

Dates are civil dates `YMD(year, month, day)` in the America/Santiago
calendar:

- A day number counts days from 1970-01-01.
- The weekday is numbered with Sunday = 0, as dayjs's `day()` does.
- An `Instant` is a date and a minute of that day.
- dayjs's `diff(…, 'hour')` truncates toward zero, and `WholeHours` models
  that.

Modules by source file:

- **Shared modules.**
  - `Wrappers`: `Option` and `Result`.
  - `Seqs`: filter, find, subsequence and de-duplication helpers.
  - `Sorting`: a stable insertion sort, standing for `Array.sort`.
  - `Text`: decimal rendering and `split`.
  - `CivilDate`, `Clock` and `Names`: the date helpers of the three
    `dateUtils` files and their copies in components.
  - `Holidays`: sorting by date and the past/future split.
  - `Grouping`: grouping into a plain object, as the `forEach`/`push` loops
    do.
  - `MonthGroups`: the "MMMM YYYY" label.
- **The holiday list page.** `FilteredHolidays`, `HolidayFeed` and
  `HolidayList`.
- **The monthly calendar.** `MonthNavigation` and `MonthlyHolidays`.
- **The remaining components**, one module each: `Kanban`, `LongWeekends`,
  `Pagination`, `FullCalendar`, `HeroImage`, `NextCountdown`,
  `YearStatistics`, `Products`, `TourCard`, plus `Validation` with
  `ValidationExamples`.

## Model

| member | source | states |
|---|---|---|
| `CivilDate.Trichotomy` | lib/utils/date.ts:33-43 | Any two days compare in exactly one way: before, the same day, or after. The day-granularity comparisons rest on this. |
| `CivilDate.BeforeIffDayNumber` | lib/utils/date.ts:45-49 | Day order and equality are the order and equality of day numbers. `getDaysUntil` measures in day numbers. |
| `CivilDate.WeekdayNextDay` | lib/utils/date.ts:28-31 | The weekday that `day()` reads advances by one modulo 7 from each day to the next. |
| `CivilDate.KnownDates` | lib/utils/date.ts:28-31 | 1970-01-01 is a Thursday (4) and so is 2025-05-01. This anchors the Sunday = 0 weekday numbering. |
| `CivilDate.DayNumberNextDay` | lib/utils/date.ts:45-49 | The next calendar day has the next day number. |
| `Clock.Midnight` | lib/utils/date.ts:46-47 | `startOf('day')`: the instant of a date's midnight, on that date, at day number × 1440 minutes. |
| `Clock.WholeHours` | components/features/holidays/HolidayList/utils/dateUtils.ts:26 | `diff(…, 'hour')`: whole hours truncated toward zero, from below for a non-negative difference and from above for a negative one. |
| `Clock.CountdownOf` | components/features/holidays/HolidayList/utils/dateUtils.ts:28-34 | `getCountdown`: a negative hour difference gives (0, 0). Otherwise days·24 + hours is the difference and 0 ≤ hours < 24. The function serves every copy (the monthly list's dateUtils.ts:24-30, HolidayHeroImage.tsx:38-48, NextHolidayCountdown.tsx:29-39). |
| `Clock.CountdownUnique` | components/features/calendar/MonthlyHolidayList/utils/dateUtils.ts:28-30 | The floor split is the only (days, hours) pair with hours in 0..23 that adds up to the difference. |
| `Clock.CountdownZeroOnceStarted` | components/NextHolidayCountdown.tsx:32-35 | From the holiday's midnight on, the countdown is (0, 0). |
| `Clock.CountdownBeforeHoliday` | components/NextHolidayCountdown.tsx:36-38 | Before the holiday's midnight, days·24 + hours is the whole hours still to go, with hours below 24. |
| `Clock.ExactlyOneDayClass` | lib/utils/date.ts:33-43 | `isPastDate`, `isToday` and `isFutureDate`: every date is in exactly one of the three classes. |
| `Clock.DaysUntilSign` | lib/utils/date.ts:45-49 | `getDaysUntil` is positive iff the date is in the future, zero iff it is today, and negative iff it is past. |
| `Clock.DaysUntilSteps` | lib/utils/date.ts:45-49 | `getDaysUntil(today)` is 0. Moving the target one day later adds exactly 1. |
| `Clock.DatePassedVersusPast` | components/FullCalendar.tsx:68-71 | `isDatePassed` compares instants. A past date is passed, a passed date is past or today, and today is passed exactly after its first minute. |
| `Clock.WeekendPairs` | lib/utils/date.ts:28-31 | A weekend day followed by another weekend day is exactly a Saturday, so the weekend is Saturday and Sunday. |
| `Names.MonthName` | components/features/calendar/MonthlyHolidayList/utils/dateUtils.ts:38-42 | `getMonthName(m)` is always one of the twelve Spanish month names, because dayjs's `month(m - 1)` rolls over. |
| `Names.MonthNamePeriodic` | components/features/calendar/MonthlyHolidayList/utils/dateUtils.ts:38-42 | Month names repeat every twelve months, in both directions. |
| `Names.MonthNamesDistinct` | components/features/calendar/MonthlyHolidayList/utils/dateUtils.ts:38-42 | Two months in 1..12 have the same name iff they are the same month. |
| `Names.DayNameMonday0` | components/LongWeekendsTimeline/LongWeekendsTimeline.tsx:82-86 | `getDayName(i)` is a non-empty name iff 0 ≤ i < 7, with Monday = 0, and `''` otherwise. |
| `Names.WeekdayLetter` | components/FullCalendar.tsx:61-66 | The weekday letter table (Sunday = 0) gives one letter iff the index is in 0..6. |
| `Names.WeekdayTablesDisagree` | components/LongWeekendsTimeline/LongWeekendsTimeline.tsx:84 | Read with the same index, the timeline's Monday = 0 names and the calendar's Sunday = 0 letters (FullCalendar.tsx:64) are one day apart and never name the same weekday. |
| `Names.PythonWeekday` | components/LongWeekendsTimeline/LongWeekendsTimeline.tsx:83 | The backend's Python `weekday()` is in 0..6 and is the dayjs weekday shifted back by one. |
| `Names.BackendWeekdayReadings` | components/LongWeekendsTimeline/LongWeekendsTimeline.tsx:82-86 | Fed the backend's number, `getDayName` names the right weekday. The Sunday = 0 letter table read with that number would not. |
| `Holidays.SortByDate` | components/features/holidays/HolidayList/hooks/useHolidays.ts:39-41 | The sort by date returns a date-sorted permutation of its input. |
| `Sorting.SortByStable` | components/features/holidays/HolidayList/hooks/useHolidays.ts:39-41 | `Array.sort` is stable: the holidays that share a date come out in their input order. |
| `Holidays.SortedFilterMembers` | components/features/calendar/MonthlyHolidayList/hooks/useMonthlyHolidays.ts:25-35 | Filtering then sorting gives a date-sorted list holding exactly the holidays that pass the filter, each as often as in the input. |
| `Holidays.DayClassByKey` | components/features/holidays/HolidayList/hooks/useHolidays.ts:43-48 | `isSameOrBefore(now, 'day')` and `isAfter(now, 'day')` are comparisons of day numbers with today, and each is the negation of the other. |
| `Holidays.SortedSplitsAtToday` | components/features/holidays/HolidayList/hooks/useHolidays.ts:43-48 | On a date-sorted list, the past holidays followed by the future ones are the list itself. |
| `Holidays.PastFuturePartition` | components/features/holidays/HolidayList/hooks/useHolidays.ts:43-48 | The past and future filters together hold the list, each holiday exactly once. |
| `HolidayFeed.LoadHolidays` | components/features/holidays/HolidayList/hooks/useHolidays.ts:19-51 | A failed current-year response is the error "HTTP error! status: N". Otherwise the first throw wins, in the hook's order: a current-year body that is not JSON, then a next-year body that is not JSON (read only when that request succeeded), then a `null` current-year body, then a `null` next-year body. The load succeeds iff none of these happens. |
| `HolidayFeed.MissingContributesNothing` | components/features/holidays/HolidayList/hooks/useHolidays.ts:24-37 | A missing `holidays` field of a readable body, or a failed next-year response, contributes an empty list to the combined list. |
| `HolidayFeed.LoadedHolidays` | components/features/holidays/HolidayList/hooks/useHolidays.ts:34-51 | After a load that gets through every read the result is date-sorted. It holds min(2, #past) + #future holidays, drawn from the combined current-then-next list, and every future holiday is kept. |
| `HolidayFeed.RecentAndUpcomingOfSorted` | components/features/holidays/HolidayList/hooks/useHolidays.ts:43-51 | On a sorted list, the result is the last two past holidays followed by all future ones. Its length is min(2, #past) + #future. |
| `HolidayFeed.RecentIsSuffix` | components/features/holidays/HolidayList/hooks/useHolidays.ts:50-51 | `slice(-2)` keeps the last min(2, #past) past holidays, and the result is a suffix of the sorted list. |
| `HolidayFeed.DroppedAreOlder` | components/features/holidays/HolidayList/hooks/useHolidays.ts:50 | A dropped past holiday is no later than a kept one, so the kept two are the latest. |
| `HolidayFeed.SettledFeed` | components/features/holidays/HolidayList/hooks/useHolidays.ts:19-58 | Once settled, the hook is not loading. An error is set iff the load throws (a failed current-year response or an unreadable body it reads), and then the list is empty. The status error is never empty. Otherwise the list is the loaded one. |
| `FilteredHolidays.HandleWeekendsChange` | components/features/holidays/HolidayList/components/HolidayFilters.tsx:14-16 | It flips `showWeekends` and keeps `showNextYear`. |
| `FilteredHolidays.HandleNextYearChange` | components/features/holidays/HolidayList/components/HolidayFilters.tsx:18-20 | It flips `showNextYear` and keeps `showWeekends`. |
| `FilteredHolidays.HandlersInvolutiveAndCommuting` | components/features/holidays/HolidayList/components/HolidayFilters.tsx:14-20 | Each handler applied twice restores the filters, and the two handlers commute. |
| `FilteredHolidays.FilterHolidaysKeepsExactlyShown` | components/features/holidays/HolidayList/hooks/useFilteredHolidays.ts:12-32 | The filtered list is an order-preserving subsequence holding exactly the holidays that pass both flags. |
| `FilteredHolidays.FlagEffects` | components/features/holidays/HolidayList/hooks/useFilteredHolidays.ts:21-28 | With `showWeekends` off no weekend holiday survives. With `showNextYear` off no holiday of next year survives. |
| `FilteredHolidays.BothFlagsShowAll` | components/features/holidays/HolidayList/hooks/useFilteredHolidays.ts:12-32 | With both flags on, the filtered list is the whole list. |
| `FilteredHolidays.CurrentHolidayIsLastStarted` | components/features/holidays/HolidayList/hooks/useFilteredHolidays.ts:40-47 | `currentHoliday` is null iff no holiday is on or before today. Otherwise it is the last such holiday in list order. |
| `FilteredHolidays.NextHolidayIsFirstUpcoming` | components/features/holidays/HolidayList/hooks/useFilteredHolidays.ts:43-48 | `nextHoliday` is null iff no holiday is after today. Otherwise it is the first such holiday in list order. |
| `FilteredHolidays.NextNeverToday` | components/features/holidays/HolidayList/hooks/useFilteredHolidays.ts:48 | `nextHoliday` is never dated today. |
| `FilteredHolidays.VisibleNextMayBeToday` | components/features/holidays/HolidayList/hooks/useFilteredHolidays.ts:51-55 | When the list starts with a shown holiday dated today, that holiday is the visible next holiday, yet it is not `nextHoliday`. |
| `FilteredHolidays.VisibleNextIsNextWhenNothingHidden` | components/features/holidays/HolidayList/hooks/useFilteredHolidays.ts:48-55 | With both flags on and no holiday today, the visible next holiday is `nextHoliday`. |
| `Grouping.GroupBy` | components/features/calendar/MonthlyHolidayList/MonthlyHolidayList.tsx:23-35 | The `forEach`/`push` loop builds an object whose keys come in first-occurrence order and whose list under each key is that key's elements in input order. `Object.entries` reads back the groups. |
| `Grouping.KeysOfFacts` | components/features/calendar/MonthlyHolidayList/MonthlyHolidayList.tsx:26-32 | The keys are distinct and are exactly the keys that occur. |
| `Grouping.KeysInFirstOccurrenceOrder` | components/features/calendar/MonthlyHolidayList/MonthlyHolidayList.tsx:24-34 | A key listed earlier first occurs earlier in the input. |
| `Grouping.BucketsPartition` | components/features/calendar/MonthlyHolidayList/MonthlyHolidayList.tsx:26-32 | The buckets together hold every element exactly once. |
| `Grouping.FlattenContiguousBuckets` | components/features/calendar/MonthlyHolidayList/MonthlyHolidayList.tsx:24-34 | When each key's elements stand together, concatenating the buckets in key order gives back the input. |
| `MonthGroups.LabelSplits` | components/features/calendar/MonthlyHolidayList/MonthlyHolidayList.tsx:27 | For four-digit years, `format('MMMM YYYY')` splits on its space into the month name and the year. |
| `MonthGroups.LabelInjective` | components/features/holidays/HolidayList/HolidayList.tsx:42 | Two dates share a label iff they fall in the same month of the same year. |
| `MonthGroups.HasLabelIffInMonth` | components/features/calendar/MonthlyHolidayList/MonthlyHolidayList.tsx:27 | A holiday carries a date's label iff it lies in that date's month. |
| `MonthGroups.BucketIsMonth` | components/features/calendar/MonthlyHolidayList/MonthlyHolidayList.tsx:26-32 | The bucket under a label holds that month's holidays, in list order. |
| `MonthGroups.SortedIsContiguous` | components/features/calendar/MonthlyHolidayList/MonthlyHolidayList.tsx:24-34 | On a date-sorted list each month's holidays stand together. |
| `MonthGroups.SortedMonthSections` | components/features/calendar/MonthlyHolidayList/MonthlyHolidayList.tsx:24-34 | The month sections of a date-sorted list concatenate back to the list. |
| `MonthNavigation.PrevMonth` | components/features/calendar/MonthlyHolidayList/utils/dateUtils.ts:53-61 | For a month in 1..12, the previous month is in 1..12 and is exactly one month earlier. |
| `MonthNavigation.NextMonth` | components/features/calendar/MonthlyHolidayList/utils/dateUtils.ts:55-65 | For a month in 1..12, the next month is in 1..12 and is exactly one month later. |
| `MonthNavigation.Rollover` | components/features/calendar/MonthlyHolidayList/utils/dateUtils.ts:58-65 | January steps back to December of the year before, and December forward to January of the year after. Every other month keeps its year. |
| `MonthNavigation.StepsAreInverse` | components/features/calendar/MonthlyHolidayList/utils/dateUtils.ts:53-65 | A step back then forward, or forward then back, returns to the starting month. |
| `MonthNavigation.GetNavigationLinks` | components/features/calendar/MonthlyHolidayList/utils/dateUtils.ts:52-72 | The method with the source's reassigned variables returns the links of the month-step specification. |
| `MonthNavigation.LinkShapes` | components/features/calendar/MonthlyHolidayList/utils/dateUtils.ts:67-71 | The current link is `/calendario/{year}` whatever the month. The previous and next links are `/calendario/{y}/{month name}` of the stepped months. |
| `MonthNavigation.MonthNameInRange` | components/features/calendar/MonthlyHolidayList/utils/dateUtils.ts:38-42 | For m in 1..12, `getMonthName(m)` is the m-th Spanish month name. |
| `MonthNavigation.LabelsMatchLinks` | components/features/calendar/MonthlyHolidayList/components/Navigation.tsx:11-28 | For a month in 1..12, the labels name the months the links lead to. The middle link shows the year and leads to the year page. |
| `MonthNavigation.LabelsPartAtZero` | components/features/calendar/MonthlyHolidayList/components/Navigation.tsx:12 | For month 0 the previous label reads "noviembre", while the previous link leads to December. |
| `MonthlyHolidays.KeptAreInRange` | components/features/calendar/MonthlyHolidayList/hooks/useMonthlyHolidays.ts:25-35 | The kept list is date-sorted and holds exactly the holidays of the year whose month is in [startMonth, endMonth]. |
| `MonthlyHolidays.EmptyRangeKeepsNothing` | components/features/calendar/MonthlyHolidayList/hooks/useMonthlyHolidays.ts:30-32 | With startMonth > endMonth nothing is kept. |
| `MonthlyHolidays.NextNonWeekendIsEarliest` | components/features/calendar/MonthlyHolidayList/hooks/useMonthlyHolidays.ts:39-44 | The result is null iff no kept holiday is after today and off the weekend. Otherwise it is the first such holiday and the earliest by date. |
| `MonthlyHolidays.SettledMonthly` | components/features/calendar/MonthlyHolidayList/hooks/useMonthlyHolidays.ts:19-50 | A failed response, an unreadable body or a missing `holidays` field gives "Failed to load holiday data" with nothing kept. Otherwise the state holds the kept list and its next working-day holiday. |
| `MonthlyHolidays.NavigationFor` | components/features/calendar/MonthlyHolidayList/MonthlyHolidayList.tsx:21 | Navigation is drawn iff startMonth = endMonth, for that month. |
| `MonthlyHolidays.RenderMonthly` | components/features/calendar/MonthlyHolidayList/MonthlyHolidayList.tsx:37-76 | The guards come in priority order: loading, then error, then the empty list (with navigation, and never grouped). Otherwise the month sections the grouping loop builds are shown. |
| `MonthlyHolidays.SettledSections` | components/features/calendar/MonthlyHolidayList/MonthlyHolidayList.tsx:23-35 | After a successful load the sections concatenate back to the kept list, and each section is one month. |
| `HolidayList.ViewModeFor` | components/features/holidays/HolidayList/HolidayList.tsx:17 | The list view is chosen iff the width is at most 768. |
| `HolidayList.RenderWithYearSeparators` | components/features/holidays/HolidayList/HolidayList.tsx:66-98 | The loop with a mutable `previousYear` returns the cards view of the specification. |
| `HolidayList.CardsViewContents` | components/features/holidays/HolidayList/HolidayList.tsx:70-95 | Without separators the cards view is one card per holiday, in order. There are as many separators as year changes, and the length is the sum of the two counts. |
| `HolidayList.CardsViewEnds` | components/features/holidays/HolidayList/HolidayList.tsx:70-95 | The cards view starts with the first holiday's card and ends with the last one's, so no separator comes first. |
| `HolidayList.SeparatorNeighbours` | components/features/holidays/HolidayList/HolidayList.tsx:73-84 | A separator stands between a card of another year and a card of its own year. |
| `HolidayList.FlaggedAreEarliestUpcoming` | components/features/holidays/HolidayList/HolidayList.tsx:90 | On a sorted list, a card is flagged next visible iff it is dated on the earliest date not before today. |
| `HolidayList.FlaggedIsEarliest` | components/features/holidays/HolidayList/HolidayList.tsx:90 | A flagged card holds the earliest holiday not before today. |
| `HolidayList.EarliestIsFlagged` | components/features/holidays/HolidayList/HolidayList.tsx:58 | The earliest holiday not before today is flagged. |
| `HolidayList.RenderByMonth` | components/features/holidays/HolidayList/HolidayList.tsx:38-64 | The grouping loop returns the month sections of the specification, one card per holiday. |
| `HolidayList.FlattenCards` | components/features/holidays/HolidayList/HolidayList.tsx:49-63 | Drawing each bucket's cards and concatenating them is drawing the concatenated buckets. |
| `HolidayList.SortedViewsAgree` | components/features/holidays/HolidayList/HolidayList.tsx:38-98 | On a date-sorted list the month view and the cards view show the same cards in the same order. |
| `HolidayList.Render` | components/features/holidays/HolidayList/HolidayList.tsx:34-116 | The guards come in priority order: loading, then error, then a missing `nextHoliday`. After them, the filtered holidays are shown in the chosen view. |
| `HolidayList.SettledPage` | components/features/holidays/HolidayList/HolidayList.tsx:34-36 | A load that throws leaves an empty list and shows its message when that is not empty; a failed current-year request always shows it. A load that gets through passes the first two guards with a date-sorted list. |
| `HolidayList.SettledViewsAgree` | components/features/holidays/HolidayList/HolidayList.tsx:113 | Once settled, both views show the same cards. |
| `HolidayList.FilteredViewsAgree` | components/features/holidays/HolidayList/HolidayList.tsx:23-28 | Filtering a sorted list keeps it sorted, so both views agree on the filtered list. |
| `Kanban.YearFilterKeeps` | components/features/calendar/KanbanCalendar/KanbanCalendar.tsx:51-53 | An entry is kept iff its `year` field or its date's year is the calendar's year. |
| `Kanban.UniqueHolidays` | components/features/calendar/KanbanCalendar/KanbanCalendar.tsx:55-61 | The filter with its mutable `seen` set returns the de-duplication of the specification. |
| `Kanban.UniqueEntriesFacts` | components/features/calendar/KanbanCalendar/KanbanCalendar.tsx:55-61 | The de-duplicated list is an order-preserving subsequence with no repeated (date, name) pair. Every pair of the year still occurs in it. |
| `Kanban.UniqueKeepsFirst` | components/features/calendar/KanbanCalendar/KanbanCalendar.tsx:55-61 | Every kept entry is the first entry of the year with its date and name. |
| `Kanban.SameDateDifferentNamesSurvive` | components/features/calendar/KanbanCalendar/KanbanCalendar.tsx:57 | Two entries of the year on the same date under different names both survive. |
| `Kanban.HolidaysOf` | components/features/calendar/KanbanCalendar/KanbanCalendar.tsx:62 | The stored holidays are the kept entries' holidays, in order. |
| `Kanban.SettledKanban` | components/features/calendar/KanbanCalendar/KanbanCalendar.tsx:44-71 | A failed response or an unreadable body gives "Error cargando feriados" and no holidays. Otherwise the state holds the unique holidays of the year. |
| `Kanban.ColumnIsMonth` | components/features/calendar/KanbanCalendar/KanbanCalendar.tsx:73-76 | `getHolidaysByMonth(i)` is date-sorted. It holds exactly the holidays whose 0-based month is i, with their multiplicity. |
| `Kanban.ColumnsAreMonths` | components/features/calendar/KanbanCalendar/KanbanCalendar.tsx:73-76 | With their multiplicities, the first n columns together hold exactly the holidays whose 0-based month is below n. |
| `Kanban.ColumnsPartition` | components/features/calendar/KanbanCalendar/KanbanCalendar.tsx:118-119 | The twelve columns together hold every holiday exactly once. |
| `Kanban.KanbanWeekend` | components/features/calendar/KanbanCalendar/KanbanCalendar.tsx:78-81 | `isWeekend` holds exactly for weekday 0 or 6. |
| `Kanban.CurrentColumn` | components/features/calendar/KanbanCalendar/KanbanCalendar.tsx:87-89 | Exactly today's month column is current when the calendar shows today's year. Otherwise no column is. |
| `Kanban.CardsOf` | components/features/calendar/KanbanCalendar/KanbanCalendar.tsx:157-159 | One card per holiday, in order. Each card carries its holiday, whether its date is past, and whether it falls on a weekend. |
| `Kanban.RenderKanban` | components/features/calendar/KanbanCalendar/KanbanCalendar.tsx:99-213 | The guards come in priority order: loading, then a non-empty error. Otherwise there are twelve columns, each with its name, its current flag and its month's cards. |
| `Kanban.SettledBoard` | components/features/calendar/KanbanCalendar/KanbanCalendar.tsx:44-119 | A failed request shows the fixed message. A successful one shows twelve columns that together hold the unique holidays. |
| `LongWeekends.MergeFacts` | components/LongWeekendsTimeline/LongWeekendsTimeline.tsx:71 | `{ ...a, ...b }` is a well-formed object with the keys of either side. It takes b's value wherever b has one and a's otherwise, and a's keys come first, in order. |
| `LongWeekends.SettledTimeline` | components/LongWeekendsTimeline/LongWeekendsTimeline.tsx:50-80 | If either request fails, or either body is not JSON, the fixed Spanish message is shown and there are no groups. Otherwise the groups are the merge of the two years. |
| `LongWeekends.NextYearOverwrites` | components/LongWeekendsTimeline/LongWeekendsTimeline.tsx:71 | Next year's group wins under a shared key. This year's group is kept under a key only it has, and no other key appears. |
| `LongWeekends.CountdownText` | components/LongWeekendsTimeline/LongWeekendsTimeline.tsx:88-100 | A negative hour difference reads "Evento pasado". Otherwise the text is "{⌊d/24⌋}d {d mod 24}h". |
| `LongWeekends.CountdownPastIff` | components/LongWeekendsTimeline/LongWeekendsTimeline.tsx:91-95 | The text reads "Evento pasado" iff at least one whole hour has passed since the start's midnight. |
| `LongWeekends.UniqueDaysFacts` | components/LongWeekendsTimeline/LongWeekendsTimeline.tsx:115-117 | `uniqueDays` is an order-preserving subsequence with no repeated date, and every listed date still occurs in it. |
| `LongWeekends.UniqueDaysKeepFirst` | components/LongWeekendsTimeline/LongWeekendsTimeline.tsx:115-117 | Each unique day is the first day listed with its date. |
| `LongWeekends.DiscrepancyIffRepeatedDate` | components/LongWeekendsTimeline/LongWeekendsTimeline.tsx:119-154 | When as many days are listed as the weekend spans, the note appears iff some date is listed twice. |
| `LongWeekends.ConsecutiveDaysShowNoNote` | components/LongWeekendsTimeline/LongWeekendsTimeline.tsx:119-154 | A weekend listing each of its consecutive dates once shows no note. |
| `LongWeekends.DayLabel` | components/LongWeekendsTimeline/LongWeekendsTimeline.tsx:146 | A day shows its holiday's name if it has one, and otherwise `getDayName` of its weekday number. |
| `LongWeekends.PastFutureSplit` | components/LongWeekendsTimeline/LongWeekendsTimeline.tsx:164-170 | The past and future lists partition the weekends: past ones end before now, and future ones do not. |
| `LongWeekends.CurrentIsUpcoming` | components/LongWeekendsTimeline/LongWeekendsTimeline.tsx:174-178 | A weekend in progress is never past. On its last day after midnight it is past and not in progress. |
| `LongWeekends.GlowingIndex` | components/LongWeekendsTimeline/LongWeekendsTimeline.tsx:180 | A weekend glows iff there is an upcoming weekend, and the index is in range. |
| `LongWeekends.GlowingIsFirstCurrentOrFirst` | components/LongWeekendsTimeline/LongWeekendsTimeline.tsx:174-180 | The glowing weekend is the first one strictly in progress, or the first upcoming one when none is. |
| `LongWeekends.RenderLongWeekends` | components/LongWeekendsTimeline/LongWeekendsTimeline.tsx:159-210 | The method with a mutable `previousYear` returns the timeline of the specification. |
| `LongWeekends.RenderUpcoming` | components/LongWeekendsTimeline/LongWeekendsTimeline.tsx:187-207 | The `forEach` loop appends the upcoming part of the timeline. |
| `LongWeekends.UpcomingCardsInOrder` | components/LongWeekendsTimeline/LongWeekendsTimeline.tsx:187-207 | Without its year markers, the upcoming part is one card per upcoming weekend, in order, with the glowing one flagged. |
| `LongWeekends.TimelineCards` | components/LongWeekendsTimeline/LongWeekendsTimeline.tsx:172-207 | The timeline's cards are the last past weekend (faded) and then every upcoming weekend in order. Exactly the glowing one glows. |
| `LongWeekends.MarkerBeforeItsCard` | components/LongWeekendsTimeline/LongWeekendsTimeline.tsx:190-201 | A year marker stands just before a card whose start year it names. That year differs from the year remembered before the card. |
| `LongWeekends.CardStatus` | components/LongWeekendsTimeline/LongWeekendsTimeline.tsx:132-140 | A card in progress reads "En curso". Otherwise a past card reads "Evento pasado" and any other card its countdown. |
| `LongWeekends.PastCardReadsOver` | components/LongWeekendsTimeline/LongWeekendsTimeline.tsx:182-183 | The faded last past card always reads "Evento pasado". |
| `LongWeekends.DayWord` | components/LongWeekendsTimeline/LongWeekendsTimeline.tsx:131 | The unit is "día" iff the count is 1. |
| `LongWeekends.CardViewOf` | components/LongWeekendsTimeline/LongWeekendsTimeline.tsx:102-157 | A card shows `end - start + 1` days, its status, one label per unique day and the note iff the counts differ. |
| `LongWeekends.RenderTimeline` | components/LongWeekendsTimeline/LongWeekendsTimeline.tsx:212-224 | The guards come in priority order: loading, then a non-empty error. Otherwise the timeline of all merged weekends is shown. |
| `Pagination.PreviousHref` | components/Pagination/Pagination.tsx:11-21 | A previous link exists iff the current page is above 1. It points to the previous page's href. |
| `Pagination.NextHref` | components/Pagination/Pagination.tsx:12 | A next link exists iff currentPage + 1 ≤ totalPages. |
| `Pagination.NextIsNextPage` | components/Pagination/Pagination.tsx:90 | From page 1 on, the next link is the next page's href. |
| `Pagination.NextFromPageZero` | components/Pagination/Pagination.tsx:90 | The next link always targets `/{base}/page/{n}`, so from page 0 it differs from page 1's own href `/{base}/`. |
| `Pagination.PageHrefInjective` | components/Pagination/Pagination.tsx:68 | Different pages from 1 on have different hrefs. |
| `Pagination.EntryOf` | components/Pagination/Pagination.tsx:58-84 | A page is a link iff it is the first or last page or within one of the current page, with its number and href. It is an ellipsis iff it is not a link and is two away. Otherwise it renders nothing. |
| `Pagination.PaginationOf` | components/Pagination/Pagination.tsx:58-85 | One entry per page, plus the previous and next links. |
| `Pagination.CurrentMarkedOnce` | components/Pagination/Pagination.tsx:69-71 | Exactly the current page's link is marked current. The current, first and last pages are links. |
| `Pagination.EllipsisPlacement` | components/Pagination/Pagination.tsx:77-83 | An ellipsis is two pages from the current one and is never the first or last page. |
| `Pagination.GapHasOneEllipsis` | components/Pagination/Pagination.tsx:58-84 | With the current page in range, each gap between two consecutive links holds exactly one ellipsis. |
| `FullCalendar.FormatDateDetermines` | components/FullCalendar.tsx:61-66 | Two calendar captions are equal iff they have the same day of the month and the same weekday. |
| `FullCalendar.FormatDateOfWeekday` | components/FullCalendar.tsx:61-66 | A caption ends with the Sunday = 0 letter of its date's weekday, so with 'D' on a Sunday. |
| `FullCalendar.ShadingPrecedence` | components/FullCalendar.tsx:92 | Holiday shading wins over weekend shading, which wins over plain. |
| `FullCalendar.CellOf` | components/FullCalendar.tsx:84-103 | A cell is faded iff its date has passed. It shows a name iff the day carries a holiday, and then it shows that holiday's name. |
| `FullCalendar.CellsOf` | components/FullCalendar.tsx:84-103 | One cell per day, in order. |
| `FullCalendar.MonthsOf` | components/FullCalendar.tsx:84-103 | One month per calendar entry, with its label and its cells. |
| `FullCalendar.SettledCalendar` | components/FullCalendar.tsx:40-59 | A failed response gives the fixed English message and no calendar. Otherwise the state holds the body. |
| `FullCalendar.RenderCalendar` | components/FullCalendar.tsx:73-103 | The guards come in priority order: loading, then a non-empty error. Otherwise the months are shown. |
| `FullCalendar.SettledCalendarScreen` | components/FullCalendar.tsx:40-103 | After a fetch the calendar shows either the fixed message or the months of the body. |
| `HeroImage.FirstWorkdayIsFirst` | components/HolidayHeroImage.tsx:74 | The chosen holiday is null iff every holiday falls on a weekend. Otherwise it is the first one on a weekday. |
| `HeroImage.CountdownLabelInjective` | components/HolidayHeroImage.tsx:83-86 | `${days}d ${hours}h` determines the countdown. |
| `HeroImage.HolidayTextNamesShortOnly` | components/HolidayHeroImage.tsx:50-56 | A name of at most 24 characters ends the text. Longer names all give the same generic text. |
| `HeroImage.FetchFailure` | components/HolidayHeroImage.tsx:62-68 | A fetch fails iff the response fails, the body is not JSON, or `holidays` is missing or empty. |
| `HeroImage.Fetched` | components/HolidayHeroImage.tsx:58-98 | A failure sets the prefixed message and changes nothing else. A success stores the first weekday holiday, and a countdown only when that holiday is not today. |
| `HeroImage.ErrorPersists` | components/HolidayHeroImage.tsx:93-95 | A later fetch never clears an error. |
| `HeroImage.ImageOf` | components/HolidayHeroImage.tsx:127 | The banner uses the default image iff the holiday's image address is absent, empty or the default itself. Otherwise it uses that address. |
| `HeroImage.RenderHero` | components/HolidayHeroImage.tsx:104-138 | The guards come in priority order: loading, error, no weekday holiday. The banner then shows the "Hoy celebramos" heading or the countdown text. |
| `HeroImage.BannerCountdownIsFresh` | components/HolidayHeroImage.tsx:77-86 | After a successful fetch, the banner for another day reads the countdown from this fetch's clock. |
| `HeroImage.FirstFetchFailure` | components/HolidayHeroImage.tsx:93-122 | The first fetch shows an error iff it failed, with the "Failed to fetch holiday data: " prefix. |
| `NextCountdown.Fetched` | components/NextHolidayCountdown.tsx:47-69 | A failed request or an unreadable body sets the Spanish message. An answer without a name or a date changes nothing. Otherwise the holiday and its countdown are stored. |
| `NextCountdown.AcceptanceRule` | components/NextHolidayCountdown.tsx:56-63 | A holiday is stored iff the answer carries a non-empty name and a date. The stored description copies the name. |
| `NextCountdown.Tick` | components/NextHolidayCountdown.tsx:74-78 | The intended interval callback recomputes only the countdown. |
| `NextCountdown.TickIsFresh` | components/NextHolidayCountdown.tsx:74-78 | With the intended callback the countdown matches the clock of the last tick. |
| `NextCountdown.TickAsWrittenChangesNothing` | components/NextHolidayCountdown.tsx:74-78 | The callback as written leaves every state as it is. |
| `NextCountdown.StaleCountdownExample` | components/NextHolidayCountdown.tsx:74-78 | A concrete run where the written callback shows 1d 0h an hour after midnight while the countdown should read 0d 23h. |
| `NextCountdown.RenderNext` | components/NextHolidayCountdown.tsx:83-99 | The error comes first. Nothing is shown without a holiday. Otherwise the stored days and hours are shown. |
| `NextCountdown.ShownCountdown` | components/NextHolidayCountdown.tsx:29-39 | An accepted answer shows the whole days and hours to the holiday's midnight, with hours below 24, or zero once it has begun. |
| `YearStatistics.ResolveYear` | components/YearStatisticsWidget.tsx:47 | An absent or zero year prop means the current year. |
| `YearStatistics.LongestWeekendLabel` | components/YearStatisticsWidget.tsx:92-98 | The label is empty iff the dates are. For "a to b" it is format(a) + " - " + format(b). |
| `YearStatistics.DayUnitSingularIff` | components/YearStatisticsWidget.tsx:207 | The unit is "día" iff daysUntil is 1, and "días" otherwise. |
| `YearStatistics.SettledStats` | components/YearStatisticsWidget.tsx:56-69 | A failed request or an unreadable body sets the message. Otherwise the parsed statistics are stored, `null` included. |
| `YearStatistics.FiguresOf` | components/YearStatisticsWidget.tsx:103-236 | The heading names the year, and the longest-weekend label and day unit follow their rules. The next holiday shows its name and its formatted date line. |
| `YearStatistics.RenderStats` | components/YearStatisticsWidget.tsx:75-89 | Loading wins. Then an error, or missing statistics, shows the error text or "Error cargando datos". |
| `YearStatistics.SettledStatsScreen` | components/YearStatisticsWidget.tsx:56-89 | After a fetch the widget shows the error, the fallback message for `null`, or the dashboard for the year. |
| `Products.SettledProducts` | components/RecommendationsSection/ProductsContext.tsx:37-45 | The products change only when the body carries a `products` field. On failure the list stays empty and the error is set. |
| `Products.UseProduct` | components/RecommendationsSection/ProductsContext.tsx:65-72 | `useProduct(i)` is `products[i]` iff 0 ≤ i < length, and null otherwise. Loading and error pass through. |
| `Products.UseProductRange` | components/RecommendationsSection/ProductsContext.tsx:75-82 | `useProductRange` passes loading and error through. |
| `Products.RangeIsClippedSlice` | components/RecommendationsSection/ProductsContext.tsx:75-82 | The range is products[a..b), clipped to the list, and empty when a ≥ b or a is past the end. |
| `Products.ProductIsUnitRange` | components/RecommendationsSection/ProductsContext.tsx:65-82 | One product is the range of length one that starts at it. |
| `Products.WidgetsShareOutProducts` | components/RecommendationsSection/ProductsContext.tsx:37 | Four widgets read the products. TourCard.tsx:11 reads 0, YouTubeRecommendations.tsx:22 reads 1–3, AmazonPrimeRecommendation.tsx:11 reads 4 and ProductRecommendations.tsx:22 reads 5–6. Read in that order, they show the first seven products, each exactly once. |
| `TourCard.TruncateText` | components/TourCard/TourCard.tsx:20-23 | A short text is unchanged. A longer one becomes its first maxLength characters and "...". |
| `TourCard.TruncateTextFacts` | components/TourCard/TourCard.tsx:20-23 | The result is at most maxLength + 3 long, keeps a prefix, and is unchanged by a second truncation. |
| `TourCard.StrayZeroAsWritten` | components/TourCard/TourCard.tsx:42-59 | As written, a discount of 0 or an original price of 0 renders a stray "0". |
| `TourCard.DiscountSlot` | components/TourCard/TourCard.tsx:42-46 | The badge appears iff the discount is above 0. |
| `TourCard.OriginalPriceSlot` | components/TourCard/TourCard.tsx:55-59 | The struck price appears iff it is above the price. |
| `TourCard.SlotsAgreeExceptStrayZero` | components/TourCard/TourCard.tsx:42-59 | The intended slots differ from the written ones exactly on the value 0. |
| `TourCard.RenderTour` | components/TourCard/TourCard.tsx:11-59 | The skeleton shows while loading. Nothing shows on an error or without product 0. Otherwise the card shows the truncated title, the price and the slots as written, with a stray "0" exactly for a discount or an original price of 0. |
| `TourCard.RenderTourIntended` | components/TourCard/TourCard.tsx:11-59 | The same guards and card, with the intended slots: the badge only for a positive discount, the struck price only above the price. |
| `TourCard.RenderedStrayZeroOnly` | components/TourCard/TourCard.tsx:42-59 | The written and the intended component draw the same screen, except that a shown card differs in a slot exactly when its value is 0. |
| `TourCard.ShownTitleIsShort` | components/TourCard/TourCard.tsx:54 | A shown title is at most 67 characters: the title itself, or its first 64 and "...". |
| `Validation.ParseDigit` | lib/utils/validation.ts:26 | `parseInt` of one character is a number iff the character is a digit, and then it is that digit's value. |
| `Validation.AsciiUpper` | lib/utils/validation.ts:20 | ASCII upper-casing: a–z become A–Z and every other character is kept. On the RUT's last character it decides the same comparison with a digit or "K" as `toUpperCase`. |
| `Validation.UpperToRutDigit` | lib/utils/validation.ts:20 | The upper-cased character is a digit or "K" exactly for a digit, "K" or "k", and only "k" changes. |
| `Validation.MultiplierStep` | lib/utils/validation.ts:22-28 | The multipliers cycle 2, 3, 4, 5, 6, 7, 2, … from the rightmost body digit. |
| `Validation.IsValidRut` | lib/utils/validation.ts:12-34 | The function returns the verdict of the RUT rule. |
| `Validation.RutSum` | lib/utils/validation.ts:22-28 | The loop that updates `sum` and `multiplier` computes the weighted digit sum of the body, NaN once a character is not a digit. |
| `Validation.RutLengthBound` | lib/utils/validation.ts:13-17 | A cleaned length outside 8..9 is rejected. |
| `Validation.RutSeparatorInvariance` | lib/utils/validation.ts:13 | Inserting a '.' or '-' never changes the verdict. |
| `Validation.WeightedSumOfDigits` | lib/utils/validation.ts:22-28 | An all-digit body has a finite, non-negative weighted sum. |
| `Validation.WeightedSumNaN` | lib/utils/validation.ts:26 | A non-digit in the body makes the sum NaN. |
| `Validation.NonDigitBodyRejects` | lib/utils/validation.ts:26-33 | A non-digit in the body rejects the RUT. |
| `Validation.CheckDigitIsOneCharacter` | lib/utils/validation.ts:30-31 | The expected check digit is one character, a digit or 'K'. |
| `Validation.UniqueCheckDigit` | lib/utils/validation.ts:30-33 | For a 7- or 8-digit body, the body followed by the expected digit is accepted. A final character that is not a separator is accepted iff its upper case is that digit. |
| `Validation.LowercaseK` | lib/utils/validation.ts:20 | A final 'k' is judged like 'K'. |
| `Validation.EmailCharacterisation` | lib/utils/validation.ts:4-7 | The e-mail pattern holds iff there is no whitespace and exactly one '@', with a non-empty part before it and, after it, a '.' with non-empty text on both sides. |
| `Validation.PhoneCharacterisation` | lib/utils/validation.ts:39-42 | The phone reading accepts exactly an optional "+56" or "56", optional separators, a 9 and two groups of four digits. |
| `Validation.IsNotEmpty` | lib/utils/validation.ts:47-53 | null and undefined give false. A string is judged by its trimmed content, arrays and objects by their size, and everything else gives true. |
| `Validation.PaddingKeepsEmptiness` | lib/utils/validation.ts:49 | White space added on both sides of a string does not change whether it is empty. |
| `Validation.IsNotEmptyExamples` | lib/utils/validation.ts:47-53 | 0, false and "a" are not empty. Whitespace, [] and {} are. |
| `ValidationExamples.RutExampleSum` | lib/utils/validation.ts:22-28 | The weighted sum of the body "12345678" is 138. |
| `ValidationExamples.RutExample` | lib/utils/validation.ts:12-34 | "123456785" is a valid RUT, since 11 - 138 mod 11 = 5. |

## Left out

- **Network, storage and React lifecycle.**
  - Network requests, `useEffect`/`useState` scheduling and the loading
    flags in between are not modelled. Each response arrives as a value
    (readable or not), and each settled state is a function of the
    responses.
  - `console.error` is not modelled.
  - The fetch wrappers under lib/api, lib/hooks and utils/api.ts are not
    part of this model.
- **Timers.**
  - The refresh intervals (HolidayHeroImage.tsx:100 and
    NextHolidayCountdown.tsx:74-78) are timers and are not modelled as
    timers.
  - A repeated fetch, or one callback run, is a function of the previous
    state and the clock (`HeroImage.Fetched`, `NextCountdown.TickAsWritten`).
- **dayjs parsing, time zones and locale formatting.**
  - Date strings are already parsed into civil dates, and time-zone
    conversion to America/Santiago is taken as the identity. Daylight-saving
    jumps are not modelled.
  - Invalid date strings are not modelled.
  - 'D MMM', 'DD MMM', 'dddd', 'D [de] MMM', 'D [de] MMMM [de] YYYY' and
    price formats are not spelled out. `YearStatistics` takes the
    longest-weekend date format and the next holiday's date format as
    function parameters.
  - 'MMMM' and the weekday tables are fixed Spanish tables.
- **JavaScript values.**
  - Numbers are unbounded integers. Fractional prices and discounts, and
    floating-point rounding, are not modelled.
  - String lengths count Dafny characters, not UTF-16 code units.
  - JSON bodies of an unexpected shape are not modelled: an array where an
    object is expected, or a field of the wrong type. A body is either not
    readable (not JSON, or `null` where fields are read) or has the
    expected fields.
- **Object keys.** Plain-object key order is modelled as insertion order.
  This holds for the string keys the site uses ("MMMM YYYY" labels and the
  backend's group names), not for integer-like keys.
- **Repeated entries.** Kanban de-duplication keys on the pair (date, name).
  A date-string equality becomes equality of civil dates.
- `HeroImage.FetchFailure` and `HolidayFeed.LoadHolidays`: the message the
  JSON parser or the engine throws for an unreadable body is passed in as a
  value.
- `MonthGroups.LabelSplits`: 'YYYY' pads years below 1000 with zeros. The
  label lemmas require four-digit years, and so do the lemmas built on them
  (`SortedMonthSections`, `HolidayList.SortedViewsAgree`,
  `MonthlyHolidays.SettledSections`).
- `Kanban.RenderKanban`: the "Irrenunciable" label
  (KanbanCalendar.tsx:187-191) and the column colours are not part of the
  card model.
- `Pagination.PaginationOf`: `Array(totalPages)` with a negative or
  fractional count throws in JavaScript. The model takes `totalPages` as a
  natural number.
- `YearStatistics.FiguresOf`: the backend computes the figures. The model
  only carries them to the screen and states the heading, the longest-weekend
  label and the day-unit rules.
- `Validation.AsciiUpper`: `toUpperCase` maps every Unicode lowercase
  letter ('é' to 'É', 'ß' to "SS"), and the model maps only a–z. The RUT
  verdict does not depend on the difference. The upper-cased last character
  is only compared with the expected digit or "K". In JavaScript, 'k' is the
  only character that upper-cases to one of those without already being
  one, and the model agrees (`Validation.UpperToRutDigit`).
- `Clock.WholeHours`: dayjs rounds millisecond differences. The model counts
  minutes, so differences of less than a minute are not represented.

## Findings

| source | as written | input that shows it | evidently intended | confidence | as-written member | corrected member |
|---|---|---|---|---|---|---|
| components/NextHolidayCountdown.tsx:74-78 | The hourly callback reads `nextHoliday` from the first render's closure, where it is `null`, so it never refreshes the countdown. | Holiday 2025-05-01 fetched at 2025-04-30 00:00: 1d 0h. At 01:00 the callback leaves 1d 0h, where 0d 23h is due (`NextCountdown.StaleCountdownExample`). | Each tick recomputes the countdown of the stored holiday from the current clock. | high (reasoned, not executed) | `NextCountdown.TickAsWritten` (`NextCountdown.TickAsWrittenChangesNothing`) | `NextCountdown.Tick` (`NextCountdown.TickIsFresh`) |
| components/TourCard/TourCard.tsx:42-59 | `x && x > 0 && <el/>` evaluates to the number 0 when x is 0, and React renders it as the text "0". | A product with `discount_percentage: 0`, or with `original_price: 0` (`TourCard.StrayZeroAsWritten`). | Nothing is rendered unless the discount is positive, or the original price exceeds the price. | high (reasoned, not executed) | `TourCard.RenderTour`, `TourCard.DiscountSlotAsWritten`, `TourCard.OriginalPriceSlotAsWritten` (`TourCard.StrayZeroAsWritten`) | `TourCard.RenderTourIntended`, `TourCard.DiscountSlot`, `TourCard.OriginalPriceSlot` (`TourCard.SlotsAgreeExceptStrayZero`, `TourCard.RenderedStrayZeroOnly`) |
