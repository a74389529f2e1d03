# Mountain shelter booking: the client-side booking workflow

This project models the booking workflow of a small single-page web app for
a mountain shelter, and proves properties of that model. The app has four
parts:

- a calendar that disables unavailable and past days;
- a booking form that draws a six-digit verification code and stores a
  pending booking;
- an email-code screen with a digit-only code field, a verify button and a
  resend cooldown;
- a page component that switches between the main page, the confirmation
  screen and the booking-instructions screen.

The remote `bookings` table is a map from booking id to record. Each store
call takes the store's answer as explicit parameters: an optional error
message, plus the fresh id and the creation time the store assigns. The
`updated_at` that `updateBookingStatus` sends is the browser's clock
reading, and it is a parameter too.

Modules, one per source file or shared concept:

- `Base`: `Option`, `Result` and the two UI languages.
- `Numerals`: JavaScript's number-to-text (`${n}`) and `parseInt`.
- `Calendar` (`BookingCalendar.tsx`): the disabling rule and the
  `yyyy-MM-dd` format.
- `Store` (`supabase.ts`): the record and the four table calls.
- `GuestLabel`: `getGuestLabel`, which is the same in the form and on the
  instructions screen.
- `BookingForm`, `EmailConfirmation` and `App`: the three components.

Points where the model follows the code rather than the product's stated
intent:

- No guest-capacity rule is enforced anywhere.
- A successful submit goes straight to the instructions screen. The email
  confirmation screen is never shown: no handler ever sets its flag
  (`App.ConfirmationNeverShown`).
- The verify button accepts any six characters. It never compares the code
  with the stored one. `Store.VerifyBookingCode`, `Store.GetBooking` and
  `Store.UpdateBookingStatus` exist but no screen calls them, so no booking
  ever leaves `pending` and `email_verified` is never set.
- Codes are drawn from 100000..999999, so a code never starts with `0`.
  They are not drawn from 000000..999999.
- `handleSubmit` checks only that a day is selected. It never asks the
  calendar again, so a day the calendar reported while it was enabled is still booked
  after midnight has made it past (`App.SelectedDayIsBooked`).
- The guest selector is not `required`, so a booking can be made with no
  guest count. The stored column is then `null`, and the instructions
  screen shows "NaN hostí" / "NaN Guests" (`BookingForm.UnchosenGuestLabel`).
- Months are 0-based, as in JavaScript's `Date`. So the hard-coded
  unavailable days are in December 2024 and on 1 January 2025.

## Model

| member | source | states |
|---|---|---|
| `Calendar.IsDateUnavailable` | src/components/BookingCalendar.tsx:44-48 | a moment is unavailable exactly when its calendar day is one of the listed days |
| `Calendar.IsDateInPast` | src/components/BookingCalendar.tsx:50-54 | a moment is in the past exactly when its calendar day is before today's |
| `Calendar.IsDisabled` | src/components/BookingCalendar.tsx:93 | a moment is disabled exactly when its day is listed or is before today |
| `Calendar.NewDate` | src/components/BookingCalendar.tsx:16-22 | each hard-coded `new Date(y, m, d)` is already its own start of day, and it is not in the past on that day |
| `Calendar.StartOfDay` | src/components/BookingCalendar.tsx:51-52 | today's midnight is on the same day as now, at time 0, and now is not before it |
| `Calendar.PastMeansEarlierDay` | src/components/BookingCalendar.tsx:50-54 | a moment is in the past exactly when its calendar day is before today's; the time of day plays no part |
| `Calendar.TodayIsNotPast` | src/components/BookingCalendar.tsx:50-54 | every moment of today, midnight included, is selectable as far as the past rule goes |
| `Calendar.PastIsDisabled` | src/components/BookingCalendar.tsx:93 | every day before today is disabled, whatever the unavailable list holds |
| `Calendar.ListedDayIsDisabled` | src/components/BookingCalendar.tsx:44-48 | any moment on a listed day is disabled, at any time of that day |
| `Calendar.EnabledIff` | src/components/BookingCalendar.tsx:93 | a day is enabled exactly when it is today or later and is none of the listed days |
| `Calendar.MoreUnavailableNeverEnables` | src/components/BookingCalendar.tsx:44-48 | adding days to the unavailable list never enables a disabled day |
| `Calendar.UnavailableDaysExactly` | src/components/BookingCalendar.tsx:16-22 | the list disables exactly 15, 16, 25 and 26 December 2024 and 1 January 2025 (0-based months) |
| `Calendar.FormatIsoDate` | src/components/BookingForm.tsx:102 | a valid day is written with dashes in the places of `yyyy-MM-dd`, and in exactly ten characters when its year has at most four digits |
| `Calendar.IsoDateRoundTrip` | src/components/BookingForm.tsx:102 | the stored `yyyy-MM-dd` text of every valid day reads back as that day |
| `Calendar.December2024Iso` | src/components/BookingForm.tsx:102 | a December 2024 day from the 10th on is written `2024-12-dd`: month 11 is written as 12 |
| `Calendar.January2025FirstIso` | src/components/BookingForm.tsx:102 | 1 January 2025 (month 0) is written `2025-01-01` |
| `Numerals.NatToStringRoundTrip` | src/components/BookingForm.tsx:95 | the decimal text of a number reads back as that number |
| `Numerals.SixDigitRendering` | src/components/BookingForm.tsx:95 | a number's decimal text has six characters exactly when it lies in 100000..999999 |
| `Numerals.ParseIntRoundTrip` | src/components/BookingForm.tsx:76 | `parseInt` reads back every integer written in decimal, negative ones included |
| `Numerals.ParseInt` | src/components/BookingForm.tsx:103 | text whose first non-blank character is no digit or sign parses to NaN; text whose first non-blank character is a digit (and not a hexadecimal prefix) parses to a number of at least 0 |
| `Numerals.ParseIntNoDigits` | src/components/BookingForm.tsx:103 | the empty text, and text that starts with no digit, sign or white space, parse to NaN |
| `Store.StatusTextRoundTrip` | src/lib/supabase.ts:21 | each of the three statuses is written as its own word, and only those words read back as a status |
| `Store.JsonNumber` | src/lib/supabase.ts:28-33 | a number is sent as itself and NaN is sent as JSON `null`, and nothing else becomes `null` |
| `Store.CreateBooking` | src/lib/supabase.ts:28-40 | a store error is thrown with its message; otherwise the returned row carries every supplied field (a NaN guest count as `null`), the fresh id, and `created_at` and `updated_at` both set to the store's clock value; it is the only row added |
| `Store.UpdateBookingStatus` | src/lib/supabase.ts:42-59 | sets the status, sets `email_verified` (false when omitted) and stamps `updated_at`; no other column and no other row changes; a missing id is an error |
| `Store.GetBooking` | src/lib/supabase.ts:61-73 | returns the row with that id exactly when the store answers and the row exists; otherwise it is the error |
| `Store.VerifyBookingCode` | src/lib/supabase.ts:75-87 | true exactly when the row's stored code equals the given code; a row without a code matches nothing |
| `Store.CreateThenGet` | src/lib/supabase.ts:28-73 | a created booking is found again by its id, exactly as returned |
| `Store.StoredCodeVerifies` | src/lib/supabase.ts:42-87 | the code stored at creation is the one and only one that verifies, before and after any status update |
| `GuestLabel.LabelShape` | src/components/BookingInstructions.tsx:118-125 | every label is the count in decimal, a space, then the word the language's plural rule picks |
| `GuestLabel.SlovakLabels` | src/components/BookingInstructions.tsx:119-122 | Slovak: 1 takes "hosť", 2..4 take "hostia", and every other count, NaN included, takes "hostí" |
| `GuestLabel.EnglishLabels` | src/components/BookingInstructions.tsx:124 | English: 1 takes "Guest" and every other count takes "Guests" |
| `GuestLabel.LabelReadsBack` | src/components/BookingInstructions.tsx:118-125 | the text before the label's first space parses back to the count |
| `BookingForm.HandleInputChange` | src/components/BookingForm.tsx:131-133 | the edited field takes the new value and every other field keeps its own |
| `BookingForm.VerificationCode` | src/components/BookingForm.tsx:95 | the code is six digits with no leading zero, and its value is 100000 plus the draw |
| `BookingForm.EveryCodeIsDrawn` | src/components/BookingForm.tsx:95 | each six-digit code without a leading zero comes from exactly one draw |
| `BookingForm.LeadingDigitBounds` | src/components/BookingForm.tsx:95 | a k-digit text with no leading zero has a value in [10^(k-1), 10^k) |
| `BookingForm.DigitsDetermineString` | src/components/BookingForm.tsx:95 | two digit texts of equal length and equal value are the same text |
| `BookingForm.BookingRecord` | src/components/BookingForm.tsx:97-108 | the record is pending and unverified, carries the code, copies the form's text fields, and holds the guest count as `parseInt` reads it |
| `BookingForm.UnchosenGuestCount` | src/components/BookingForm.tsx:103 | with no guest count chosen the record holds NaN, and the stored row holds `null` |
| `BookingForm.BookingDateReadsBack` | src/components/BookingForm.tsx:102 | the record's `booking_date` reads back as the selected day |
| `BookingForm.Submitting` | src/components/BookingForm.tsx:90-91 | while a submission is in flight the error is cleared and the submit button is disabled |
| `BookingForm.HandleSubmit` | src/components/BookingForm.tsx:85-129 | with no date nothing happens. Otherwise the record is sent. A store error shows the localised message and leaves the table as it was. Success calls back with the email, the new id and the details, and the row is stored as the only row added, every other row unchanged. The busy flag is cleared either way |
| `BookingForm.SubmitButtonSends` | src/components/BookingForm.tsx:228 | from an idle form the submit button is enabled exactly when a press sends a record to the store; during a submission it is disabled |
| `BookingForm.SubmitButtonAfterSubmit` | src/components/BookingForm.tsx:126-128 | in the form's own state, after a press from the idle form the submit button is enabled again exactly when a date is selected, whatever the store answered; on the page a successful submit unmounts the form (`App.SubmitOnPage`) |
| `BookingForm.FormGuestLabel` | src/components/BookingForm.tsx:75-83 | the form's label is the count `parseInt` reads, a space, and the word the language's plural rule picks for that count |
| `BookingForm.UnchosenGuestLabel` | src/components/BookingInstructions.tsx:118-190 | with no guest count chosen, the details sent to the instructions screen hold `parseInt('')`, NaN (BookingForm.tsx:121), and the screen's guest label (line 190) reads "NaN" followed by "hostí" in Slovak and "Guests" in English |
| `BookingForm.GuestOptionsSlovak` | src/components/BookingForm.tsx:75-83 | the Slovak guest options 1..6 read "1 hosť", "2 hostia" … "4 hostia", "5 hostí", "6 hostí" |
| `BookingForm.SubmittedBookingIsPending` | src/components/BookingForm.tsx:95-110 | a stored booking starts pending and unverified, with a six-digit code in 100000..999999 |
| `EmailConfirmation.KeepDigits` | src/components/EmailConfirmation.tsx:134 | removing non-digits leaves only digits and never lengthens the text |
| `EmailConfirmation.SanitizeCode` | src/components/EmailConfirmation.tsx:134 | the stored code is at most six characters, all digits |
| `EmailConfirmation.KeepDigitsAppend` | src/components/EmailConfirmation.tsx:134 | removing non-digits distributes over concatenation |
| `EmailConfirmation.KeepDigitsOfDigits` | src/components/EmailConfirmation.tsx:134 | text that is all digits is left as it is |
| `EmailConfirmation.KeepDigitsSplit` | src/components/EmailConfirmation.tsx:134 | the kept digits keep their order: cutting the input cuts the result at the matching place |
| `EmailConfirmation.KeepDigitsCount` | src/components/EmailConfirmation.tsx:134 | every digit of the input is kept: the result is as long as the input's digit count |
| `EmailConfirmation.SanitizeTakesLeadingDigits` | src/components/EmailConfirmation.tsx:134 | the code is the first min(6, k) digits of the input, where k is the input's digit count |
| `EmailConfirmation.SanitizeIdempotent` | src/components/EmailConfirmation.tsx:133-137 | sanitising a sanitised code changes nothing |
| `EmailConfirmation.SanitizeIgnoresExtra` | src/components/EmailConfirmation.tsx:133-137 | once six digits are entered, further typing leaves the code as it is |
| `EmailConfirmation.HandleCodeChange` | src/components/EmailConfirmation.tsx:133-137 | an edit stores the sanitised value and clears the error; afterwards the verify button (line 152) is enabled exactly when the input held at least six digits and no verification is running |
| `EmailConfirmation.EnabledVerifyAccepts` | src/components/EmailConfirmation.tsx:64-152 | while no verification runs, the verify button (line 152) is enabled exactly when a press starts a verification, and an enabled press always reaches `onVerified`; while one runs the button is disabled |
| `EmailConfirmation.HandleVerify` | src/components/EmailConfirmation.tsx:64-90 | a code that is not six characters is rejected with the invalid-code error. Otherwise the screen is busy while waiting, `onVerified` is called, and the busy flag is cleared |
| `EmailConfirmation.AnySixDigitsVerify` | src/components/EmailConfirmation.tsx:77-81 | any six-character code is accepted; the stored code is never consulted |
| `EmailConfirmation.HandleResend` | src/components/EmailConfirmation.tsx:92-96 | a resend starts the 60-second cooldown and disables the resend button |
| `EmailConfirmation.ResendEnabled` | src/components/EmailConfirmation.tsx:169 | the resend button is enabled exactly when a second's tick would leave the screen unchanged, that is, when no cooldown runs |
| `EmailConfirmation.Tick` | src/components/EmailConfirmation.tsx:57-62 | each second a running cooldown drops by one and a finished one stays at zero |
| `EmailConfirmation.TicksCountDown` | src/components/EmailConfirmation.tsx:57-62 | after n seconds the cooldown has dropped by n, never below zero, and nothing else has changed |
| `EmailConfirmation.ResendReenabledAfterSixty` | src/components/EmailConfirmation.tsx:169 | after a resend the button is enabled again exactly when 60 or more seconds have passed |
| `App.HandleBookingSubmitted` | src/App.tsx:44-51 | the email and id are remembered and the instructions flag is set. New details replace the old ones; missing details keep them |
| `App.HandleEmailVerified` | src/App.tsx:53-56 | the confirmation flag is cleared and the instructions flag is set; the booking data is kept |
| `App.HandleBackToBooking` | src/App.tsx:58-65 | everything the page holds is reset to the initial page except the chosen language; the form's fate follows from the screen (`App.Settle`) |
| `App.HandleDateSelect` | src/components/BookingCalendar.tsx:89-93 | a day the calendar reports that is enabled, or a clear (the picker reports one when the selected day is clicked again), becomes the selection; a disabled day changes nothing |
| `App.Render` | src/App.tsx:67-89 | the confirmation screen has priority. The instructions show only when their flag is set and details are present. Otherwise the main page shows, in the current language |
| `App.Settle` | src/App.tsx:67-120 | the screen is unchanged; the form keeps its state while the main page shows and is replaced by an empty form on any other screen |
| `App.RunsStaySettled` | src/App.tsx:67-120 | after any run, whenever the main page is not shown the form is empty, so it remounts empty |
| `App.ConfirmationNeverShown` | src/App.tsx:13 | no event ever sets the confirmation flag, so the confirmation screen is never rendered |
| `App.ConfirmationUnreachable` | src/App.tsx:11-17 | from the initial page, no run of events reaches the confirmation screen |
| `App.LanguageOnlySwitched` | src/App.tsx:12 | only the language switch changes the language, whatever else happens, submits included |
| `App.SelectionHasCause` | src/App.tsx:11 | after any run, the selection is the starting one or was set by a calendar click on a then-enabled day, or by going back |
| `App.SelectedDayWasEnabled` | src/components/BookingCalendar.tsx:93 | from the initial page, every selected day was enabled at the moment the calendar reported it |
| `App.SubmitOnPage` | src/components/BookingForm.tsx:85-228 | a disabled button (no date, or a submission in flight) or a form the browser's validation rejects (an empty first name, last name, email or phone, lines 155-187, or an email the browser refuses) changes nothing. A store error keeps the main page, the form's data and the enabled button and shows the localised error, with the table unchanged. Success shows the instructions for the new booking (App.tsx:44-89), remembers its id and email, stores a row with the selected day and non-empty name, email and phone as the only row added, every other row unchanged, and drops the form's state |
| `App.SelectedDayIsBooked` | src/components/BookingForm.tsx:88 | a day clicked while enabled and not already selected (a click on the selected day clears it) is booked by the next submit, with no later check against the calendar |
| `App.BackShowsFreshForm` | src/App.tsx:58-120 | going back from a screen other than the main page shows the main page in the same language, with no day selected and a freshly mounted, empty form |
| `App.SubmitShowsInstructions` | src/App.tsx:44-120 | a successful submit shows the instructions for the booking just made; going back shows the main page in the same language with no day selected and an empty form |

## Left out

- Rendering (JSX, styling, icons) and all translated texts other than the guest words, the submit error and the invalid-code error.
- The Header, Hero, ShelterInfo and ImageGallery components: they only display content.
- The store client and its environment-variable check (supabase.ts:1-10). The store's replies are parameters.
- The browser's check of an email address (`type="email"`, BookingForm.tsx:173) is the parameter `emailValid`; its syntax rules are not modelled.
- `EmailConfirmation.HandleCodeChange`: the field's `maxLength={6}` (EmailConfirmation.tsx:139) is not modelled. The browser then never hands the handler more than six characters, while the model accepts text of any length, which covers every text the browser can hand over.
- Asynchrony: each handler is modelled as one step from its start to its end, with the waiting state exposed where a screen shows one (`Submitting`, `HandleVerify`'s `waiting`).
- `Math.random()`: the draw `floor(Math.random() * 900000)` is a parameter.
- The timers. The 1-second cooldown timer is a `Tick` step and the 2-second simulated verify delay is a single step. Cancelling a timer on unmount is not modelled.
- `console.log` and `console.error` calls.
- The long localised date `MMMM dd, yyyy` in the submitted details. The details keep the day itself.
- The text of the store's "no single row" error: it comes from the client library and is a placeholder here.
- JavaScript's floating-point numbers. Counts are unbounded integers or NaN, and `parseInt` of a huge value or of "-0" is not modelled.
- Time zones and daylight saving. Moments are local calendar days plus milliseconds since midnight.
- Years before 1 (date-fns writes year 0 as 0001).
- The `created_at` and `updated_at` stamps are database defaults that the client code does not show; they are taken as the store's clock value `now`.
- A database column that refuses `null` (for instance a NOT NULL `guests`): such a refusal is one of the store errors the `failure` parameter stands for.
- The calendar's and the instructions screen's own component state: they hold none that the workflow depends on. The email confirmation screen's state is not tied to the page's lifetime because that screen is never shown.
- The date picker itself. That it never reports a disabled day is built into `App.HandleDateSelect`.
- The `codeExpired` error branch of `handleVerify`: the simulated wait cannot throw.
- Reaching `handleEmailVerified` from the confirmation screen: that screen is never shown, so the handler is modelled but unreachable.
