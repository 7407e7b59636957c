/** The hero banner: every minute it fetches `/holidays-simple/next`, picks
    the first listed holiday that is not on a weekend, and shows its image
    with either "Hoy celebramos …" or a countdown sentence. */
module HeroImage {
  import opened Wrappers
  import opened Seqs
  import opened Text
  import opened CivilDate
  import opened Clock

  /** A holiday of the simple feed; `heroImageUrl` is `None` when absent. */
  datatype HeroHoliday = HeroHoliday(date: Date, name: string, kind: string, irrenunciable: bool,
                                     heroImageUrl: Option<string>)

  /** The parsed body: `NotJson` carries the parser's error message, and a
      JSON body carries its `holidays` array (`None` when the body is null or
      has no such field). */
  datatype HeroBody = NotJson(message: string) | Json(holidays: Option<seq<HeroHoliday>>)

  datatype HeroResponse = HeroResponse(ok: bool, status: int, body: HeroBody)

  /** `!isWeekend(holiday.date)`. */
  function NotOnWeekend(): HeroHoliday -> bool
  {
    (h: HeroHoliday) => !IsWeekend(h.date)
  }

  /** `holidays.find(h => !isWeekend(h.date))`. */
  function FirstWorkdayHoliday(hs: seq<HeroHoliday>): Option<HeroHoliday>
  {
    Find(hs, NotOnWeekend())
  }

  /** The chosen holiday is the first of the list on a weekday (Monday to
      Friday), and there is none exactly when every holiday falls on a
      Saturday or a Sunday. */
  lemma FirstWorkdayIsFirst(hs: seq<HeroHoliday>)
    ensures FirstWorkdayHoliday(hs).None? <==> forall i :: 0 <= i < |hs| ==> Weekday(hs[i].date) in {0, 6}
    ensures FirstWorkdayHoliday(hs).Some? ==>
      exists i :: 0 <= i < |hs| && hs[i] == FirstWorkdayHoliday(hs).value && 1 <= Weekday(hs[i].date) <= 5
                  && forall j :: 0 <= j < i ==> Weekday(hs[j].date) in {0, 6}
  {
    var p := NotOnWeekend();
    assert forall h :: p(h) <==> 1 <= Weekday(h.date) <= 5;
  }

  /** `${days}d ${hours}h`. */
  function CountdownLabel(c: Countdown): string
  {
    IntToString(c.days) + "d " + IntToString(c.hours) + "h"
  }

  /** The countdown label gives back the whole days and hours it shows. */
  lemma CountdownLabelInjective(a: Countdown, b: Countdown)
    requires a.days >= 0 && a.hours >= 0 && b.days >= 0 && b.hours >= 0
    ensures CountdownLabel(a) == CountdownLabel(b) <==> a == b
  {
    if CountdownLabel(a) == CountdownLabel(b) {
      var da, db := NatToString(a.days), NatToString(b.days);
      var ha, hb := NatToString(a.hours) + "h", NatToString(b.hours) + "h";
      assert CountdownLabel(a) == da + "d " + ha && CountdownLabel(b) == db + "d " + hb;
      DigitsThenLetter(da, ha, db, hb);
      NatToStringInjective(a.days, b.days);
      assert NatToString(a.hours) == ha[..|ha| - 1] && NatToString(b.hours) == hb[..|hb| - 1];
      NatToStringInjective(a.hours, b.hours);
    }
  }

  /** In digits followed by "d ", the first `d` is the one after the digits. */
  lemma FirstLetterD(a: string, b: string)
    requires forall i :: 0 <= i < |a| ==> IsDigit(a[i])
    ensures (a + "d " + b)[|a|] == 'd'
    ensures forall i :: 0 <= i < |a| ==> (a + "d " + b)[i] != 'd'
  {
  }

  /** Digits followed by "d " split back uniquely. */
  lemma DigitsThenLetter(a1: string, b1: string, a2: string, b2: string)
    requires forall i :: 0 <= i < |a1| ==> IsDigit(a1[i])
    requires forall i :: 0 <= i < |a2| ==> IsDigit(a2[i])
    requires a1 + "d " + b1 == a2 + "d " + b2
    ensures a1 == a2 && b1 == b2
  {
    var s1, s2 := a1 + "d " + b1, a2 + "d " + b2;
    FirstLetterD(a1, b1);
    FirstLetterD(a2, b2);
    assert s1[..|a1|] == a1 && s2[..|a2|] == a2;
    assert s1[|a1| + 2..] == b1 && s2[|a2| + 2..] == b2;
  }

  const ShortNameLimit: nat := 24

  /** `getHolidayText(name, timeUntil)`: the name itself when it has at most
      24 characters, otherwise a generic phrase joined by no-break spaces. */
  function HolidayText(name: string, timeUntil: string): string
  {
    if |name| <= ShortNameLimit then "Faltan \U{23F1}\U{FE0F} " + timeUntil + " para " + name
    else "Faltan \U{23F1}\U{FE0F} " + timeUntil + " para\U{00A0}pr\U{00F3}ximo\U{00A0}feriado"
  }

  /** A short name is part of the text and is given back by it; all long
      names read the same generic phrase. */
  lemma HolidayTextNamesShortOnly(n1: string, n2: string, timeUntil: string)
    ensures |n1| <= ShortNameLimit ==> HolidayText(n1, timeUntil)[|HolidayText(n1, timeUntil)| - |n1|..] == n1
    ensures |n1| <= ShortNameLimit && |n2| <= ShortNameLimit ==>
      (HolidayText(n1, timeUntil) == HolidayText(n2, timeUntil) <==> n1 == n2)
    ensures |n1| > ShortNameLimit && |n2| > ShortNameLimit ==> HolidayText(n1, timeUntil) == HolidayText(n2, timeUntil)
  {
    var prefix := "Faltan \U{23F1}\U{FE0F} " + timeUntil + " para ";
    if |n1| <= ShortNameLimit && |n2| <= ShortNameLimit && HolidayText(n1, timeUntil) == HolidayText(n2, timeUntil) {
      assert (prefix + n1)[|prefix|..] == n1;
      assert (prefix + n2)[|prefix|..] == n2;
    }
    if |n1| <= ShortNameLimit {
      assert (prefix + n1)[|prefix + n1| - |n1|..] == n1;
    }
  }

  /** The component's state. */
  datatype HeroState = HeroState(holidayToShow: Option<HeroHoliday>, isCurrentHoliday: bool,
                                 timeUntilHoliday: string, loading: bool, error: Option<string>)

  const InitialHero: HeroState := HeroState(None, false, "", true, None)

  /** The message of the error a fetch throws, if it throws one. */
  function FetchFailure(r: HeroResponse): (message: Option<string>)
    ensures message.None? <==> r.ok && r.body.Json? && r.body.holidays.Some? && r.body.holidays.value != []
  {
    if !r.ok then Some("HTTP error! status: " + IntToString(r.status))
    else if r.body.NotJson? then Some(r.body.message)
    else if r.body.holidays.None? || r.body.holidays.value == [] then Some("No holidays found")
    else None
  }

  /** One run of `fetchHoliday` on the previous state.  A failure replaces
      only the error and ends loading; a list with a weekday holiday stores
      it, whether it is today and, when it is not, the countdown text; a list
      of weekend holidays clears the holiday and keeps the rest. */
  function Fetched(st: HeroState, r: HeroResponse, now: Instant): (next: HeroState)
    ensures !next.loading
    ensures FetchFailure(r).Some? ==>
      next == st.(loading := false, error := Some("Failed to fetch holiday data: " + FetchFailure(r).value))
    ensures FetchFailure(r).None? ==> next.error == st.error
    ensures FetchFailure(r).None? ==> next.holidayToShow == FirstWorkdayHoliday(r.body.holidays.value)
    ensures FetchFailure(r).None? && next.holidayToShow.None? ==>
      next.isCurrentHoliday == st.isCurrentHoliday && next.timeUntilHoliday == st.timeUntilHoliday
    ensures FetchFailure(r).None? && next.holidayToShow.Some? ==>
      (next.isCurrentHoliday <==> IsToday(next.holidayToShow.value.date, now))
      && next.timeUntilHoliday == (if next.isCurrentHoliday then st.timeUntilHoliday
                                   else CountdownLabel(GetCountdown(next.holidayToShow.value.date, now)))
  {
    match FetchFailure(r)
    case Some(message) => st.(loading := false, error := Some("Failed to fetch holiday data: " + message))
    case None =>
      match FirstWorkdayHoliday(r.body.holidays.value)
      case None => st.(holidayToShow := None, loading := false)
      case Some(h) =>
        var isCurrent := IsToday(h.date, now);
        st.(holidayToShow := Some(h), isCurrentHoliday := isCurrent, loading := false,
            timeUntilHoliday := if isCurrent then st.timeUntilHoliday else CountdownLabel(GetCountdown(h.date, now)))
  }

  /** Once a fetch has failed the error stays: later fetches never clear it. */
  lemma ErrorPersists(st: HeroState, r: HeroResponse, now: Instant)
    requires st.error.Some?
    ensures Fetched(st, r, now).error.Some?
  {
  }

  const DefaultImage: string := "/images/holidays/default-holiday.webp"

  /** What the banner draws. */
  datatype HeroScreen =
    | HeroLoading
    | HeroFailed(message: string)
    | NoWorkdayHoliday
    | Banner(image: string, alt: string, heading: string)

  /** `hero_image_url || default`: an absent or empty address gives the
      default image. */
  function ImageOf(h: HeroHoliday): (src: string)
    ensures src == DefaultImage <==> h.heroImageUrl.None? || h.heroImageUrl.value in {"", DefaultImage}
    ensures src != DefaultImage ==> h.heroImageUrl == Some(src)
  {
    if h.heroImageUrl.Some? && h.heroImageUrl.value != "" then h.heroImageUrl.value else DefaultImage
  }

  /** The component: loading first, then a non-empty error, then the empty
      case, and otherwise the banner of the stored holiday. */
  function RenderHero(st: HeroState): (screen: HeroScreen)
    ensures st.loading <==> screen == HeroLoading
    ensures !st.loading && st.error.Some? && st.error.value != "" <==> screen.HeroFailed?
    ensures screen.HeroFailed? ==> screen.message == st.error.value
    ensures screen == NoWorkdayHoliday <==> !st.loading && !(st.error.Some? && st.error.value != "") && st.holidayToShow.None?
    ensures screen.Banner? ==>
      var h := st.holidayToShow.value;
      screen.image == ImageOf(h) && screen.alt == h.name
      && screen.heading == (if st.isCurrentHoliday then "Hoy celebramos " + h.name + " \U{1F389}"
                            else HolidayText(h.name, st.timeUntilHoliday))
  {
    if st.loading then HeroLoading
    else if st.error.Some? && st.error.value != "" then HeroFailed(st.error.value)
    else if st.holidayToShow.None? then NoWorkdayHoliday
    else
      var h := st.holidayToShow.value;
      Banner(ImageOf(h), h.name,
             if st.isCurrentHoliday then "Hoy celebramos " + h.name + " \U{1F389}" else HolidayText(h.name, st.timeUntilHoliday))
  }

  /** After any fetch that finds a weekday holiday, the banner never shows
      a stale countdown: a banner for another day reads the countdown from
      this fetch's clock. */
  lemma BannerCountdownIsFresh(st: HeroState, r: HeroResponse, now: Instant)
    requires st.error.None? && FetchFailure(r).None? && FirstWorkdayHoliday(r.body.holidays.value).Some?
    ensures var h := FirstWorkdayHoliday(r.body.holidays.value).value;
      RenderHero(Fetched(st, r, now)).Banner?
      && (!IsToday(h.date, now) ==>
            RenderHero(Fetched(st, r, now)).heading == HolidayText(h.name, CountdownLabel(GetCountdown(h.date, now))))
      && (IsToday(h.date, now) ==> RenderHero(Fetched(st, r, now)).heading == "Hoy celebramos " + h.name + " \U{1F389}")
  {
  }

  /** The first fetch fails exactly when the request fails, the body is not
      JSON, or the holidays are missing or empty; the banner then shows the
      prefixed message. */
  lemma FirstFetchFailure(r: HeroResponse, now: Instant)
    ensures var screen := RenderHero(Fetched(InitialHero, r, now));
      (FetchFailure(r).Some? <==> screen.HeroFailed?)
      && (FetchFailure(r).Some? ==> screen.message == "Failed to fetch holiday data: " + FetchFailure(r).value)
  {
    if FetchFailure(r).Some? {
      var m := "Failed to fetch holiday data: " + FetchFailure(r).value;
      assert m[0] == 'F';
    }
  }
}
