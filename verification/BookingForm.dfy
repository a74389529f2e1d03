/** The booking form: its field record, edits to one field at a time, the
    submit handler (no-date guard, verification-code generation, the record
    sent to the store, and the success and failure paths), and when the
    submit button is enabled. The random draw and the store's answer are
    parameters. */
module BookingForm {
  import opened Base
  import opened Numerals
  import opened Calendar
  import opened Store
  import GuestLabel

  /** The form's fields, all text as typed; `guests` is the selected
      option's value ("1".."6"), or "" before a choice is made. */
  datatype FormData = FormData(
    firstName: string,
    lastName: string,
    email: string,
    phone: string,
    guests: string,
    specialRequests: string)

  const EmptyForm := FormData("", "", "", "", "", "")

  datatype Field = FirstName | LastName | Email | Phone | Guests | SpecialRequests

  function FieldValue(data: FormData, field: Field): string {
    match field
    case FirstName => data.firstName
    case LastName => data.lastName
    case Email => data.email
    case Phone => data.phone
    case Guests => data.guests
    case SpecialRequests => data.specialRequests
  }

  /** `handleInputChange(field, value)`: the field takes the value and every
      other field keeps its own. */
  function HandleInputChange(data: FormData, field: Field, value: string): (r: FormData)
    ensures FieldValue(r, field) == value
    ensures forall f :: f != field ==> FieldValue(r, f) == FieldValue(data, f)
  {
    match field
    case FirstName => data.(firstName := value)
    case LastName => data.(lastName := value)
    case Email => data.(email := value)
    case Phone => data.(phone := value)
    case Guests => data.(guests := value)
    case SpecialRequests => data.(specialRequests := value)
  }

  /** The form component's state. */
  datatype FormState = FormState(data: FormData, isSubmitting: bool, submitError: string)

  const InitialFormState := FormState(EmptyForm, false, "")

  function SubmitErrorMessage(lang: Language): string {
    match lang
    case Sk => "Chyba pri odosielaní rezervácie. Skúste to znovu."
    case En => "Error submitting booking. Please try again."
  }

  /** The submit button: `disabled={!selectedDate || isSubmitting}`. */
  predicate SubmitEnabled(selected: Option<Moment>, s: FormState) {
    selected.Some? && !s.isSubmitting
  }

  /** The verification code: `Math.floor(100000 + Math.random() * 900000)`
      in decimal, where `draw` is `Math.floor(Math.random() * 900000)`. */
  function VerificationCode(draw: int): (code: string)
    requires 0 <= draw < 900000
    ensures |code| == 6 && AllDigits(code) && code[0] != '0'
    ensures DigitsValue(code) == 100000 + draw
  {
    var n: nat := 100000 + draw;
    SixDigitRendering(n);
    NatToStringRoundTrip(n);
    NatToString(n)
  }

  /** Every six-digit string without a leading zero is the code of exactly
      one draw, so the generator can produce each such code. */
  lemma EveryCodeIsDrawn(code: string)
    requires |code| == 6 && AllDigits(code) && code[0] != '0'
    ensures 100000 <= DigitsValue(code) <= 999999
    ensures VerificationCode(DigitsValue(code) - 100000) == code
  {
    var n := DigitsValue(code);
    LeadingDigitBounds(code);
    var d := n - 100000;
    NatToStringRoundTrip(n);
    DigitsDetermineString(VerificationCode(d), code);
  }

  /** A digit string of length k without a leading zero has a value in
      [10^(k-1), 10^k). */
  lemma {:induction false} LeadingDigitBounds(s: string)
    requires |s| >= 1 && AllDigits(s) && (|s| > 1 ==> s[0] != '0')
    ensures |s| > 1 ==> Pow10(|s| - 1) <= DigitsValue(s)
    ensures DigitsValue(s) < Pow10(|s|)
  {
    if |s| > 1 {
      var p := s[..|s| - 1];
      LeadingDigitBounds(p);
      var d := DigitValue(s[|s| - 1]);
      assert DigitsValue(s) == DigitsValue(p) * 10 + d;
      if |p| > 1 {
        assert Pow10(|p| - 1) <= DigitsValue(p);
      } else {
        assert DigitsValue(p) == DigitValue(s[0]) >= 1;
      }
    }
  }

  /** Two digit strings of the same length with the same value are equal. */
  lemma {:induction false} DigitsDetermineString(a: string, b: string)
    requires AllDigits(a) && AllDigits(b) && |a| == |b|
    requires DigitsValue(a) == DigitsValue(b)
    ensures a == b
  {
    if |a| > 0 {
      var a', b' := a[..|a| - 1], b[..|b| - 1];
      assert DigitsValue(a) % 10 == DigitValue(a[|a| - 1]);
      assert DigitsValue(b) % 10 == DigitValue(b[|b| - 1]);
      assert DigitsValue(a') == DigitsValue(a) / 10;
      assert DigitsValue(b') == DigitsValue(b) / 10;
      DigitsDetermineString(a', b');
      assert a[|a| - 1] == b[|b| - 1];
      assert a == a' + [a[|a| - 1]];
      assert b == b' + [b[|b| - 1]];
    }
  }

  /** The record sent to the store for this form, day and code. */
  function BookingRecord(data: FormData, day: CalendarDate, code: string): (b: NewBooking)
    ensures b.status == Pending && !b.emailVerified
    ensures b.verificationCode == Some(code)
    ensures b.firstName == data.firstName && b.lastName == data.lastName
    ensures b.email == data.email && b.phone == data.phone
    ensures b.specialRequests == Some(data.specialRequests)
    ensures b.guests == ParseInt(data.guests)
  {
    NewBooking(data.firstName, data.lastName, data.email, data.phone, FormatIsoDate(day),
               ParseInt(data.guests), Some(data.specialRequests), Pending, false, Some(code))
  }

  /** The stored `booking_date` of a valid day reads back as that day. */
  lemma BookingDateReadsBack(data: FormData, day: CalendarDate, code: string)
    requires ValidDate(day)
    ensures ParseIsoDate(BookingRecord(data, day, code).bookingDate) == Some(day)
  {
    IsoDateRoundTrip(day);
  }

  /** The details handed to the page on success, for the instructions
      screen. The day is kept as a day; its long localised rendering is not
      modelled. */
  datatype Details = Details(
    firstName: string,
    lastName: string,
    email: string,
    phone: string,
    bookingDate: CalendarDate,
    guests: JsNumber)

  /** What `onBookingSubmitted` receives. */
  datatype Submission = Submission(email: string, bookingId: string, details: Details)

  /** Everything one press of the submit button produces: the form state
      afterwards, the table afterwards, the record sent (if any) and the
      callback made on success (if any). */
  datatype SubmitOutcome = SubmitOutcome(
    state: FormState,
    table: Table,
    sent: Option<NewBooking>,
    submitted: Option<Submission>)

  /** The state while the store call is in flight. */
  function Submitting(s: FormState): (r: FormState)
    ensures r.isSubmitting && r.submitError == "" && r.data == s.data
    ensures forall selected :: !SubmitEnabled(selected, r)
  {
    s.(isSubmitting := true, submitError := "")
  }

  /** `handleSubmit`. Without a selected date nothing happens. Otherwise a
      code is drawn, the record is sent to the store, and either the page
      is told about the new booking or the localised error is shown; the
      busy flag is cleared either way. `id`, `now` and `failure` are the
      store's answer. */
  function HandleSubmit(s: FormState, selected: Option<Moment>, lang: Language, draw: int,
                        table: Table, id: string, now: string, failure: Option<string>): (r: SubmitOutcome)
    requires 0 <= draw < 900000
    requires id !in table
    ensures selected.None? ==> r == SubmitOutcome(s, table, None, None)
    ensures selected.Some? ==> r.sent == Some(BookingRecord(s.data, selected.value.date, VerificationCode(draw)))
    ensures selected.Some? ==> !r.state.isSubmitting && r.state.data == s.data
    ensures failure.Some? && selected.Some? ==>
      r.state.submitError == SubmitErrorMessage(lang) && r.table == table && r.submitted.None?
    ensures failure.None? && selected.Some? ==>
      && r.state.submitError == ""
      && r.submitted == Some(Submission(s.data.email, id, DetailsOf(s.data, selected.value.date)))
      && id in r.table && r.table[id].id == Some(id)
      && Preserves(r.sent.value, r.table[id])
      && r.table.Keys == table.Keys + {id}
      && (forall k :: k in table ==> r.table[k] == table[k])
  {
    match selected
    case None => SubmitOutcome(s, table, None, None)
    case Some(day) =>
      var busy := Submitting(s);
      var record := BookingRecord(s.data, day.date, VerificationCode(draw));
      match CreateBooking(table, record, id, now, failure)
      case Err(_) =>
        SubmitOutcome(busy.(isSubmitting := false, submitError := SubmitErrorMessage(lang)), table, Some(record), None)
      case Ok(w) =>
        SubmitOutcome(busy.(isSubmitting := false), w.table, Some(record),
                      Some(Submission(s.data.email, w.row.id.value, DetailsOf(s.data, day.date))))
  }

  /** Whatever the store answers, the submit button is enabled again
      afterwards exactly when a date is selected. */
  lemma SubmitButtonAfterSubmit(s: FormState, selected: Option<Moment>, lang: Language, draw: int,
                                table: Table, id: string, now: string, failure: Option<string>)
    requires 0 <= draw < 900000 && id !in table
    requires !s.isSubmitting
    ensures SubmitEnabled(selected, HandleSubmit(s, selected, lang, draw, table, id, now, failure).state)
      <==> selected.Some?
  {
  }

  /** From an idle form, the submit button is enabled exactly when a press
      sends a record to the store: the button's condition and the handler's
      own guard agree. */
  lemma SubmitButtonSends(s: FormState, selected: Option<Moment>, lang: Language, draw: int,
                          table: Table, id: string, now: string, failure: Option<string>)
    requires 0 <= draw < 900000 && id !in table
    ensures !s.isSubmitting ==>
      (SubmitEnabled(selected, s) <==> HandleSubmit(s, selected, lang, draw, table, id, now, failure).sent.Some?)
    ensures s.isSubmitting ==> !SubmitEnabled(selected, s)
  {
  }

  /** The browser's constraint validation of the form: the first name, last
      name, email and phone inputs are `required`, so none may be empty, and
      the email input has `type="email"`, whose check on the address is
      `emailValid` here. When validation fails the form's submit event is
      never fired. */
  predicate BrowserAccepts(data: FormData, emailValid: bool) {
    data.firstName != "" && data.lastName != "" && data.email != "" && data.phone != "" && emailValid
  }

  function DetailsOf(data: FormData, day: CalendarDate): Details {
    Details(data.firstName, data.lastName, data.email, data.phone, day, ParseInt(data.guests))
  }

  /** `getGuestLabel(num)` of the form: the option value is parsed first. */
  function FormGuestLabel(num: string, lang: Language): (r: string)
    ensures r == NumberToString(ParseInt(num)) + " " +
      (if lang == Sk then GuestLabel.SlovakWord(ParseInt(num)) else GuestLabel.EnglishWord(ParseInt(num)))
  {
    GuestLabel.LabelShape(ParseInt(num), lang);
    GuestLabel.Label(ParseInt(num), lang)
  }

  /** Before a guest count is chosen the field is empty: the record then
      holds NaN and the stored column is null. */
  lemma UnchosenGuestCount(data: FormData, day: CalendarDate, code: string,
                           table: Table, id: string, now: string)
    requires data.guests == EmptyForm.guests && id !in table
    ensures BookingRecord(data, day, code).guests == NaN
    ensures var w := CreateBooking(table, BookingRecord(data, day, code), id, now, None);
      w.Ok? && w.value.row.guests.None?
  {
    ParseIntNoDigits(data.guests);
  }

  /** The guest selector is not `required`, so a booking can be submitted
      with no guest count chosen. The details handed to the instructions
      screen then hold NaN, and the screen's guest label reads "NaN hostí"
      in Slovak and "NaN Guests" in English. */
  lemma UnchosenGuestLabel(data: FormData, day: CalendarDate, lang: Language)
    requires data.guests == EmptyForm.guests
    ensures DetailsOf(data, day).guests == NaN
    ensures GuestLabel.Label(DetailsOf(data, day).guests, lang) ==
      "NaN" + " " + (if lang == Sk then "hostí" else "Guests")
  {
    ParseIntNoDigits(data.guests);
  }

  /** The six options of the guest selector read "1 hosť", "2 hostia",
      "3 hostia", "4 hostia", "5 hostí", "6 hostí" in Slovak. */
  lemma GuestOptionsSlovak(k: int)
    requires 1 <= k <= 6
    ensures FormGuestLabel(IntToString(k), Sk) ==
      IntToString(k) + " " + (if k == 1 then "hosť" else if k <= 4 then "hostia" else "hostí")
  {
    ParseIntRoundTrip(k);
    GuestLabel.LabelShape(Num(k), Sk);
  }

  /** The stored code of a successful submission is six digits with no
      leading zero, and the booking starts pending and unverified. */
  lemma SubmittedBookingIsPending(s: FormState, day: Moment, lang: Language, draw: int,
                                  table: Table, id: string, now: string)
    requires 0 <= draw < 900000 && id !in table
    ensures var r := HandleSubmit(s, Some(day), lang, draw, table, id, now, None);
      && id in r.table
      && r.table[id].status == Pending && !r.table[id].emailVerified
      && r.table[id].verificationCode.Some?
      && var code := r.table[id].verificationCode.value;
         |code| == 6 && AllDigits(code) && code[0] != '0' && 100000 <= DigitsValue(code) <= 999999
  {
  }
}
