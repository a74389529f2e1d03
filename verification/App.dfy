/** The page's view state machine: which of the three screens is shown
    (email confirmation, booking instructions or the main booking page), and
    how the page's callbacks move between them. The booking form lives only
    on the main page: when another screen is rendered the form is unmounted
    and its state is lost, and it comes back empty. */
module App {
  import opened Base
  import opened Calendar
  import opened BookingForm
  import opened Store

  /** The page's state. `bookingDetails` is `None` where the page holds
      `null`. `form` is the state of the booking form mounted on the main
      page. */
  datatype AppState = AppState(
    selectedDate: Option<Moment>,
    language: Language,
    showEmailConfirmation: bool,
    showInstructions: bool,
    bookingEmail: string,
    bookingId: string,
    bookingDetails: Option<Details>,
    form: FormState)

  /** The state the page starts in: Slovak, nothing selected, main page,
      an empty form. */
  const InitialAppState := AppState(None, Sk, false, false, "", "", None, InitialFormState)

  /** The screen the page renders. */
  datatype Screen =
    | EmailConfirmationScreen(email: string, bookingId: string, language: Language)
    | InstructionsScreen(language: Language, details: Details)
    | MainPage(selectedDate: Option<Moment>, language: Language)

  /** `handleBookingSubmitted`: remember the email and id, keep the previous
      details unless new ones are given, and switch to the instructions. */
  function HandleBookingSubmitted(s: AppState, email: string, id: string,
                                  details: Option<Details>): (r: AppState)
    ensures r.showInstructions && r.bookingEmail == email && r.bookingId == id
    ensures details.Some? ==> r.bookingDetails == details
    ensures details.None? ==> r.bookingDetails == s.bookingDetails
    ensures r.selectedDate == s.selectedDate && r.language == s.language
    ensures r.showEmailConfirmation == s.showEmailConfirmation
  {
    var kept := if details.Some? then details else s.bookingDetails;
    s.(bookingDetails := kept, bookingEmail := email, bookingId := id, showInstructions := true)
  }

  /** `handleEmailVerified`: leave the confirmation screen for the
      instructions. */
  function HandleEmailVerified(s: AppState): (r: AppState)
    ensures !r.showEmailConfirmation && r.showInstructions
    ensures r.bookingDetails == s.bookingDetails && r.bookingEmail == s.bookingEmail
    ensures r.bookingId == s.bookingId && r.language == s.language
    ensures r.selectedDate == s.selectedDate
  {
    s.(showEmailConfirmation := false, showInstructions := true)
  }

  /** `handleBackToBooking`: everything the booking left behind is cleared;
      only the language survives. */
  function HandleBackToBooking(s: AppState): (r: AppState)
    ensures r == InitialAppState.(language := s.language, form := s.form)
  {
    s.(showEmailConfirmation := false, showInstructions := false, selectedDate := None,
       bookingEmail := "", bookingId := "", bookingDetails := None)
  }

  /** A click on the calendar at `now`: the calendar hands a day that is not
      disabled to the page, or `None` when the selected day is clicked
      again; a disabled day is not selectable and changes nothing. */
  function HandleDateSelect(s: AppState, day: Option<Moment>, now: Moment): (r: AppState)
    ensures day.Some? && IsDisabledDay(day.value, now) ==> r == s
    ensures day.None? || !IsDisabledDay(day.value, now) ==> r == s.(selectedDate := day)
    ensures r.selectedDate.Some? ==> !IsDisabledDay(r.selectedDate.value, now) || r == s
  {
    if day.Some? && IsDisabledDay(day.value, now) then s else s.(selectedDate := day)
  }

  /** Which screen the page shows: the confirmation screen wins, then the
      instructions when details are present, else the main page. */
  function Render(s: AppState): (v: Screen)
    ensures v.EmailConfirmationScreen? <==> s.showEmailConfirmation
    ensures v.InstructionsScreen? <==>
      !s.showEmailConfirmation && s.showInstructions && s.bookingDetails.Some?
    ensures v.InstructionsScreen? ==> v.details == s.bookingDetails.value
    ensures v.MainPage? ==> v.selectedDate == s.selectedDate
    ensures v.language == s.language
  {
    if s.showEmailConfirmation then EmailConfirmationScreen(s.bookingEmail, s.bookingId, s.language)
    else if s.showInstructions && s.bookingDetails.Some? then InstructionsScreen(s.language, s.bookingDetails.value)
    else MainPage(s.selectedDate, s.language)
  }

  /** The form's lifetime: rendering any screen but the main page unmounts
      the form, so its state is gone and the next mount starts empty. */
  function Settle(s: AppState): (r: AppState)
    ensures Render(r) == Render(s)
    ensures Render(s).MainPage? ==> r == s
    ensures !Render(s).MainPage? ==> r == s.(form := InitialFormState)
  {
    if Render(s).MainPage? then s else s.(form := InitialFormState)
  }

  /** A page state the page can be in: the form holds state only while it
      is on screen. */
  predicate Settled(s: AppState) {
    !Render(s).MainPage? ==> s.form == InitialFormState
  }

  // ---------------------------------------------------------------------
  // The booking form on the page

  /** The page after a press of the form's submit button, and the table. */
  datatype PageSubmit = PageSubmit(page: AppState, table: Table)

  /** Whether a press of the submit button reaches `handleSubmit`: the
      button is enabled, and the browser's validation of the form passes. */
  predicate SubmitFires(s: AppState, emailValid: bool) {
    SubmitEnabled(s.selectedDate, s.form) && BrowserAccepts(s.form.data, emailValid)
  }

  /** The submit button pressed on the main page. A disabled button, or a
      form the browser's validation rejects, fires no submit. Otherwise the
      form's handler runs with the page's selected date and language, a
      success is reported to the page through `handleBookingSubmitted`, and
      the form's lifetime follows the screen that results. */
  function SubmitOnPage(s: AppState, draw: int, table: Table, id: string, now: string,
                        failure: Option<string>, emailValid: bool): (r: PageSubmit)
    requires 0 <= draw < 900000 && id !in table
    requires Render(s).MainPage?
    ensures !SubmitFires(s, emailValid) ==> r == PageSubmit(s, table)
    ensures s.selectedDate.None? ==> r == PageSubmit(s, table)
    ensures SubmitFires(s, emailValid) && failure.Some? ==>
      && Render(r.page) == Render(s)
      && r.page.form.data == s.form.data
      && r.page.form.submitError == SubmitErrorMessage(s.language)
      && SubmitEnabled(r.page.selectedDate, r.page.form)
      && r.table == table
    ensures SubmitFires(s, emailValid) && failure.None? ==>
      && Render(r.page) == InstructionsScreen(s.language, DetailsOf(s.form.data, s.selectedDate.value.date))
      && r.page.form == InitialFormState
      && r.page.bookingId == id && r.page.bookingEmail == s.form.data.email
      && id in r.table
      && r.table[id].bookingDate == FormatIsoDate(s.selectedDate.value.date)
      && r.table[id].firstName != "" && r.table[id].lastName != ""
      && r.table[id].email != "" && r.table[id].phone != ""
      && r.table.Keys == table.Keys + {id}
      && (forall k :: k in table ==> r.table[k] == table[k])
    ensures r.page.language == s.language && r.page.selectedDate == s.selectedDate
    ensures r.page.showEmailConfirmation == s.showEmailConfirmation
    ensures Settled(s) ==> Settled(r.page)
  {
    if !SubmitFires(s, emailValid) then PageSubmit(s, table)
    else
      var out := HandleSubmit(s.form, s.selectedDate, s.language, draw, table, id, now, failure);
      var after := s.(form := out.state);
      match out.submitted
      case None => PageSubmit(Settle(after), out.table)
      case Some(sub) =>
        PageSubmit(Settle(HandleBookingSubmitted(after, sub.email, sub.bookingId, Some(sub.details))), out.table)
  }

  // ---------------------------------------------------------------------
  // Runs of events

  /** The page together with the remote table its submits write to. */
  datatype World = World(page: AppState, table: Table)

  /** Everything that can happen to the page: the header's language switch,
      a calendar click at a given time, an edit of a form field, a press of
      the submit button with the store's answer, and the three callbacks. */
  datatype Event =
    | ChangeLanguage(lang: Language)
    | SelectDate(day: Option<Moment>, now: Moment)
    | EditField(field: Field, value: string)
    | Submit(draw: int, id: string, clock: string, failure: Option<string>, emailValid: bool)
    | BookingSubmitted(email: string, id: string, details: Option<Details>)
    | EmailVerified
    | BackToBooking

  /** The page's own handlers: every event but a submit, which also
      involves the store. */
  function Handle(s: AppState, e: Event): AppState {
    match e
    case ChangeLanguage(lang) => s.(language := lang)
    case SelectDate(day, now) => HandleDateSelect(s, day, now)
    case EditField(field, value) => s.(form := s.form.(data := HandleInputChange(s.form.data, field, value)))
    case Submit(_, _, _, _, _) => s
    case BookingSubmitted(email, id, details) => HandleBookingSubmitted(s, email, id, details)
    case EmailVerified => HandleEmailVerified(s)
    case BackToBooking => HandleBackToBooking(s)
  }

  /** One event, then the form's lifetime as the new screen dictates. A
      submit is pressed on the main page only; a draw outside the random
      range or an id the table already holds is no answer the world gives,
      and such an event changes nothing. */
  function Step(w: World, e: Event): World {
    if e.Submit? then
      if 0 <= e.draw < 900000 && e.id !in w.table && Render(w.page).MainPage? then
        var r := SubmitOnPage(w.page, e.draw, w.table, e.id, e.clock, e.failure, e.emailValid);
        World(r.page, r.table)
      else w
    else World(Settle(Handle(w.page, e)), w.table)
  }

  function Run(w: World, events: seq<Event>): World
    decreases |events|
  {
    if events == [] then w else Run(Step(w, events[0]), events[1..])
  }

  /** No handler ever sets `showEmailConfirmation`: once it is false it
      stays false, so the confirmation screen is never rendered. */
  lemma {:induction false} ConfirmationNeverShown(w: World, events: seq<Event>)
    requires !w.page.showEmailConfirmation
    decreases |events|
    ensures !Run(w, events).page.showEmailConfirmation
    ensures !Render(Run(w, events).page).EmailConfirmationScreen?
  {
    if events != [] {
      ConfirmationNeverShown(Step(w, events[0]), events[1..]);
    }
  }

  /** From the initial page, whatever the table holds, the confirmation
      screen never appears. */
  lemma ConfirmationUnreachable(table: Table, events: seq<Event>)
    ensures !Render(Run(World(InitialAppState, table), events).page).EmailConfirmationScreen?
  {
    ConfirmationNeverShown(World(InitialAppState, table), events);
  }

  /** Only the language switch changes the language. */
  lemma {:induction false} LanguageOnlySwitched(w: World, events: seq<Event>)
    requires forall i :: 0 <= i < |events| ==> !events[i].ChangeLanguage?
    decreases |events|
    ensures Run(w, events).page.language == w.page.language
  {
    if events != [] {
      LanguageOnlySwitched(Step(w, events[0]), events[1..]);
    }
  }

  /** The event `e` is the one that set the selection to `d`: a calendar
      click on `d` at a time when `d` was not disabled, or the way back to
      the booking page clearing it. */
  predicate SetSelection(e: Event, d: Option<Moment>) {
    || (e.SelectDate? && e.day == d && (d.Some? ==> !IsDisabledDay(d.value, e.now)))
    || (e.BackToBooking? && d.None?)
  }

  /** After any run, the selection is either the one the run started with
      or was set by one of the run's events; a selected day therefore was
      enabled at the moment it was clicked. */
  lemma {:induction false} SelectionHasCause(w: World, events: seq<Event>)
    decreases |events|
    ensures var r := Run(w, events);
      r.page.selectedDate == w.page.selectedDate ||
      exists i :: 0 <= i < |events| && SetSelection(events[i], r.page.selectedDate)
  {
    if events != [] {
      var next := Step(w, events[0]);
      var r := Run(w, events);
      assert r == Run(next, events[1..]);
      SelectionHasCause(next, events[1..]);
      if r.page.selectedDate != next.page.selectedDate {
        var j :| 0 <= j < |events[1..]| && SetSelection(events[1..][j], r.page.selectedDate);
        assert events[j + 1] == events[1..][j];
      } else if next.page.selectedDate != w.page.selectedDate {
        assert SetSelection(events[0], r.page.selectedDate);
      }
    }
  }

  /** From the initial page, a selected day was enabled when it was
      clicked. */
  lemma SelectedDayWasEnabled(table: Table, events: seq<Event>)
    ensures var r := Run(World(InitialAppState, table), events);
      r.page.selectedDate.Some? ==>
      exists i :: 0 <= i < |events| && events[i].SelectDate? && events[i].day == r.page.selectedDate &&
        !IsDisabledDay(r.page.selectedDate.value, events[i].now)
  {
    SelectionHasCause(World(InitialAppState, table), events);
  }

  /** Every run keeps the page settled: off the main page the form is
      always the empty one a remount would create. */
  lemma {:induction false} RunsStaySettled(w: World, events: seq<Event>)
    requires Settled(w.page)
    decreases |events|
    ensures Settled(Run(w, events).page)
  {
    if events != [] {
      RunsStaySettled(Step(w, events[0]), events[1..]);
    }
  }

  // ---------------------------------------------------------------------
  // The booking round trip

  /** A successful submit shows the instructions for the booking just
      made; the way back shows the main page in the same language, with no
      day selected and an empty form. */
  lemma SubmitShowsInstructions(s: AppState, day: Moment, draw: int, table: Table,
                                id: string, now: string)
    requires 0 <= draw < 900000 && id !in table
    requires Render(s).MainPage? && s.selectedDate == Some(day)
    requires !s.form.isSubmitting && BrowserAccepts(s.form.data, true)
    ensures var r := SubmitOnPage(s, draw, table, id, now, None, true);
      && Render(r.page) == InstructionsScreen(s.language, DetailsOf(s.form.data, day.date))
      && var back := Step(World(r.page, r.table), BackToBooking).page;
         && Render(back) == MainPage(None, s.language)
         && back.form == InitialFormState
  {
    var r := SubmitOnPage(s, draw, table, id, now, None, true);
    assert SubmitFires(s, true);
    BackShowsFreshForm(World(r.page, r.table));
  }

  /** The way back from the screen a booking leads to shows the main page
      in the same language, with no day selected and an empty form. */
  lemma BackShowsFreshForm(w: World)
    requires Settled(w.page) && !Render(w.page).MainPage?
    ensures var back := Step(w, BackToBooking).page;
      && Render(back) == MainPage(None, w.page.language)
      && back.form == InitialFormState
  {
  }

  /** The submit handler checks only that a day is selected; it never asks
      the calendar again. A day clicked while it was enabled (and not
      already selected, since a click on the selected day clears it) is
      booked by the next submit, even when that day has become past since
      the click: the submit carries no clock that could stop it. */
  lemma SelectedDayIsBooked(w: World, day: Moment, clicked: Moment, draw: int,
                            id: string, now: string)
    requires Render(w.page).MainPage? && !w.page.form.isSubmitting
    requires BrowserAccepts(w.page.form.data, true)
    requires !IsDisabledDay(day, clicked) && w.page.selectedDate != Some(day)
    requires 0 <= draw < 900000 && id !in w.table
    ensures var r := Run(w, [SelectDate(Some(day), clicked), Submit(draw, id, now, None, true)]);
      && id in r.table
      && r.table[id].bookingDate == FormatIsoDate(day.date)
      && Render(r.page).InstructionsScreen?
  {
    var events := [SelectDate(Some(day), clicked), Submit(draw, id, now, None, true)];
    var picked := Step(w, events[0]);
    assert picked.page == w.page.(selectedDate := Some(day));
    assert Run(w, events) == Run(picked, events[1..]);
    assert Run(picked, events[1..]) == Step(picked, events[1]);
  }
}
