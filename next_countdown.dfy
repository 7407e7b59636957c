/** The next-holiday countdown widget: it fetches `/widgets/proximoFeriado`
    once, keeps the answer when it names a holiday and a date, and shows the
    whole days and hours left.  An hourly timer is meant to refresh the
    countdown. */
module NextCountdown {
  import opened Wrappers
  import opened CivilDate
  import opened Clock

  /** The fields the widget reads from the JSON body; a missing or empty
      field is `None` (or, for the name, may be the empty string). */
  datatype NextFields = NextFields(name: Option<string>, date: Option<Date>, irrenunciable: Option<bool>)

  /** `NotJson` stands for a body that does not parse, or parses to `null`
      (reading `data.name` then throws). */
  datatype NextBody = NotJson | Fields(fields: NextFields)

  datatype NextResponse = NextResponse(ok: bool, status: int, body: NextBody)

  /** The stored holiday: its description is a copy of its name. */
  datatype NextHoliday = NextHoliday(date: Date, name: string, description: string, irrenunciable: Option<bool>)

  datatype NextState = NextState(nextHoliday: Option<NextHoliday>, countdown: Countdown, error: Option<string>)

  const InitialNext: NextState := NextState(None, Countdown(0, 0), None)

  const NextError: string := "Error cargando próximo feriado"

  /** `data.name && data.date`: both present and non-empty. */
  predicate Accepted(f: NextFields)
  {
    f.name.Some? && f.name.value != "" && f.date.Some?
  }

  /** The state once the single fetch settles.  A failed request or an
      unreadable body sets the message; an answer without a name or a date
      changes nothing; otherwise the holiday and its countdown are stored. */
  function Fetched(st: NextState, r: NextResponse, now: Instant): (next: NextState)
    ensures !r.ok || r.body.NotJson? ==> next == st.(error := Some(NextError))
    ensures r.ok && r.body.Fields? && !Accepted(r.body.fields) ==> next == st
    ensures r.ok && r.body.Fields? && Accepted(r.body.fields) ==>
      var f := r.body.fields;
      next.error == st.error
      && next.nextHoliday == Some(NextHoliday(f.date.value, f.name.value, f.name.value, f.irrenunciable))
      && next.countdown == GetCountdown(f.date.value, now)
  {
    if !r.ok || r.body.NotJson? then st.(error := Some(NextError))
    else
      var f := r.body.fields;
      if Accepted(f) then
        st.(nextHoliday := Some(NextHoliday(f.date.value, f.name.value, f.name.value, f.irrenunciable)),
            countdown := GetCountdown(f.date.value, now))
      else st
  }

  /** A holiday is stored exactly when the response is accepted, and the
      stored description always equals the stored name. */
  lemma AcceptanceRule(r: NextResponse, now: Instant)
    ensures var st := Fetched(InitialNext, r, now);
      (st.nextHoliday.Some? <==> r.ok && r.body.Fields? && Accepted(r.body.fields))
      && (st.nextHoliday.Some? ==> st.nextHoliday.value.description == st.nextHoliday.value.name != "")
      && (st.error.Some? <==> !r.ok || r.body.NotJson?)
  {
  }

  /** The hourly timer as written: the callback reads `nextHoliday` from the
      first render, where it is still `null`, so it never updates anything. */
  function TickAsWritten(st: NextState, now: Instant): NextState
  {
    var captured := InitialNext.nextHoliday;
    if captured.Some? then st.(countdown := GetCountdown(captured.value.date, now)) else st
  }

  /** The timer as intended: it recomputes the countdown of the stored
      holiday from the current clock. */
  function Tick(st: NextState, now: Instant): (next: NextState)
    ensures next.nextHoliday == st.nextHoliday && next.error == st.error
    ensures st.nextHoliday.None? ==> next.countdown == st.countdown
  {
    if st.nextHoliday.Some? then st.(countdown := GetCountdown(st.nextHoliday.value.date, now)) else st
  }

  /** With the intended timer the countdown always matches the clock of the
      last tick, however many ticks there were. */
  lemma TickIsFresh(st: NextState, t1: Instant, t2: Instant)
    requires st.nextHoliday.Some?
    ensures Tick(st, t1).countdown == GetCountdown(st.nextHoliday.value.date, t1)
    ensures Tick(Tick(st, t1), t2) == Tick(st, t2)
  {
  }

  /** The timer as written leaves every state as it is. */
  lemma TickAsWrittenChangesNothing(st: NextState, now: Instant)
    ensures TickAsWritten(st, now) == st
  {
  }

  /** A concrete run: the day before 1 May 2025 at midnight the countdown
      reads 1 day 0 hours; an hour later the timer as written still shows
      that, while the wanted countdown is 0 days 23 hours. */
  lemma StaleCountdownExample()
    ensures var r := NextResponse(true, 200, Fields(NextFields(Some("Día del Trabajo"), Some(YMD(2025, 5, 1)), Some(true))));
      var midnight := Moment(YMD(2025, 4, 30), 0);
      var later := Moment(YMD(2025, 4, 30), 60);
      var st := Fetched(InitialNext, r, midnight);
      st.countdown == Countdown(1, 0)
      && TickAsWritten(st, later).countdown == Countdown(1, 0)
      && Tick(st, later).countdown == Countdown(0, 23)
  {
    KnownDates();
    assert DayNumber(YMD(2025, 4, 30)) == 20208;
  }

  datatype NextScreen = NextFailed(message: string) | NextNothing | NextShows(days: int, hours: int)

  /** The widget: the error first, nothing without a holiday, and otherwise
      the stored countdown. */
  function RenderNext(st: NextState): (screen: NextScreen)
    ensures st.error.Some? && st.error.value != "" <==> screen.NextFailed?
    ensures screen.NextFailed? ==> screen.message == st.error.value
    ensures screen == NextNothing <==> !(st.error.Some? && st.error.value != "") && st.nextHoliday.None?
    ensures screen.NextShows? ==> screen.days == st.countdown.days && screen.hours == st.countdown.hours
  {
    if st.error.Some? && st.error.value != "" then NextFailed(st.error.value)
    else if st.nextHoliday.None? then NextNothing
    else NextShows(st.countdown.days, st.countdown.hours)
  }

  /** An accepted answer shows the whole days and hours until the holiday's
      midnight, split with fewer than 24 hours, or zero once it has begun. */
  lemma ShownCountdown(r: NextResponse, now: Instant)
    requires r.ok && r.body.Fields? && Accepted(r.body.fields)
    ensures var screen := RenderNext(Fetched(InitialNext, r, now));
      var d := r.body.fields.date.value;
      screen.NextShows? && 0 <= screen.hours < 24 && screen.days >= 0
      && (InstantBefore(now, Midnight(d)) ==>
            screen.days * 24 + screen.hours == (Minutes(Midnight(d)) - Minutes(now)) / 60)
      && (!InstantBefore(now, Midnight(d)) ==> screen.days == 0 && screen.hours == 0)
  {
    var d := r.body.fields.date.value;
    if InstantBefore(now, Midnight(d)) {
      CountdownBeforeHoliday(d, now);
    } else {
      CountdownZeroOnceStarted(d, now);
    }
  }
}
