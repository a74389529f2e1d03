/** The booking record and the four calls the screens make on the
    `bookings` table. The remote table is a map from booking id to record;
    what the remote store answers (an error, or the id and creation time it
    assigns) is passed in explicitly, and so is the browser's clock reading
    that `updateBookingStatus` sends as `updated_at`. Every call either returns data or
    throws an `Error` carrying the store's message. */
module Store {
  import opened Base
  import opened Numerals

  /** The closed set of booking states. */
  datatype Status = Pending | Confirmed | Cancelled

  /** The status as it is written in a record. */
  function StatusText(s: Status): (t: string)
    ensures t in {"pending", "confirmed", "cancelled"}
  {
    match s
    case Pending => "pending"
    case Confirmed => "confirmed"
    case Cancelled => "cancelled"
  }

  function ParseStatus(t: string): Option<Status> {
    if t == "pending" then Some(Pending)
    else if t == "confirmed" then Some(Confirmed)
    else if t == "cancelled" then Some(Cancelled)
    else None
  }

  /** Each status is written as its own word, and only those three words
      read back as a status. */
  lemma StatusTextRoundTrip(s: Status, t: string)
    ensures ParseStatus(StatusText(s)) == Some(s)
    ensures ParseStatus(t).Some? <==> t in {"pending", "confirmed", "cancelled"}
  {
  }

  /** One row of the `bookings` table. Optional columns are `Option`s;
      `guests` is `None` where the column holds null. */
  datatype Booking = Booking(
    id: Option<string>,
    firstName: string,
    lastName: string,
    email: string,
    phone: string,
    bookingDate: string,
    guests: Option<int>,
    specialRequests: Option<string>,
    status: Status,
    emailVerified: bool,
    verificationCode: Option<string>,
    createdAt: Option<string>,
    updatedAt: Option<string>)

  /** A record as the client submits it: a booking without `id`,
      `created_at` and `updated_at`. */
  datatype NewBooking = NewBooking(
    firstName: string,
    lastName: string,
    email: string,
    phone: string,
    bookingDate: string,
    guests: JsNumber,
    specialRequests: Option<string>,
    status: Status,
    emailVerified: bool,
    verificationCode: Option<string>)

  /** The table, keyed by booking id. */
  type Table = map<string, Booking>

  /** Every row carries its own key as its id. */
  predicate WellKeyed(table: Table) {
    forall k :: k in table ==> table[k].id == Some(k)
  }

  /** The result of a call that writes: the table afterwards and the row
      the call returns. */
  datatype Written = Written(table: Table, row: Booking)

  /** What `.single()` reports when no row matches the id. The text is the
      client library's; it is not part of this model. */
  const NoRowMessage: string := "no single row"

  /** A number as it travels in the JSON body of a request: NaN has no JSON
      form and is sent as `null`. */
  function JsonNumber(n: JsNumber): (r: Option<int>)
    ensures r.None? <==> n.NaN?
    ensures r.Some? ==> n == Num(r.value)
  {
    match n
    case Num(v) => Some(v)
    case NaN => None
  }

  /** Every field the client supplied appears in the row as it was sent. */
  predicate Preserves(input: NewBooking, row: Booking) {
    && row.firstName == input.firstName
    && row.lastName == input.lastName
    && row.email == input.email
    && row.phone == input.phone
    && row.bookingDate == input.bookingDate
    && row.guests == JsonNumber(input.guests)
    && row.specialRequests == input.specialRequests
    && row.status == input.status
    && row.emailVerified == input.emailVerified
    && row.verificationCode == input.verificationCode
  }

  /** Two rows agree on everything but `status`, `email_verified` and
      `updated_at`. */
  predicate SameExceptStatus(a: Booking, b: Booking) {
    && a.id == b.id
    && a.firstName == b.firstName
    && a.lastName == b.lastName
    && a.email == b.email
    && a.phone == b.phone
    && a.bookingDate == b.bookingDate
    && a.guests == b.guests
    && a.specialRequests == b.specialRequests
    && a.verificationCode == b.verificationCode
    && a.createdAt == b.createdAt
  }

  /** `createBooking`: insert the record and return the inserted row. The
      store picks a fresh `id` and fills `created_at` and `updated_at`; both
      are taken to be the store's clock value `now`. `failure` is the error
      the store answers with, if any. */
  function CreateBooking(table: Table, input: NewBooking, id: string, now: string,
                         failure: Option<string>): (r: Result<Written>)
    requires id !in table
    ensures failure.Some? ==> r == Err(failure.value)
    ensures failure.None? ==> r.Ok?
    ensures r.Ok? ==>
      && Preserves(input, r.value.row)
      && r.value.row.id == Some(id)
      && r.value.row.createdAt == Some(now) && r.value.row.updatedAt == Some(now)
      && r.value.table.Keys == table.Keys + {id}
      && r.value.table[id] == r.value.row
      && (forall k :: k in table ==> r.value.table[k] == table[k])
    ensures r.Ok? && WellKeyed(table) ==> WellKeyed(r.value.table)
  {
    if failure.Some? then Err(failure.value)
    else
      var row := Booking(Some(id), input.firstName, input.lastName, input.email, input.phone,
                         input.bookingDate, JsonNumber(input.guests), input.specialRequests, input.status,
                         input.emailVerified, input.verificationCode, Some(now), Some(now));
      Ok(Written(table[id := row], row))
  }

  /** `updateBookingStatus`: set `status`, `email_verified` (false when the
      argument is omitted) and `updated_at` of the row with this id, and
      return it; no matching row is an error. `now` is the browser's clock
      (`new Date().toISOString()`), sent in the body of the update. */
  function UpdateBookingStatus(table: Table, id: string, status: Status,
                               emailVerified: Option<bool>, now: string,
                               failure: Option<string>): (r: Result<Written>)
    ensures failure.Some? ==> r == Err(failure.value)
    ensures failure.None? && id !in table ==> r == Err(NoRowMessage)
    ensures failure.None? && id in table ==> r.Ok?
    ensures r.Ok? ==>
      && id in table
      && r.value.table.Keys == table.Keys
      && r.value.table[id] == r.value.row
      && r.value.row.status == status
      && r.value.row.emailVerified == (emailVerified == Some(true))
      && r.value.row.updatedAt == Some(now)
      && SameExceptStatus(table[id], r.value.row)
      && (forall k :: k in table && k != id ==> r.value.table[k] == table[k])
  {
    if failure.Some? then Err(failure.value)
    else if id !in table then Err(NoRowMessage)
    else
      var verified := match emailVerified case Some(b) => b case None => false;
      var row := table[id].(status := status, emailVerified := verified, updatedAt := Some(now));
      Ok(Written(table[id := row], row))
  }

  /** `getBooking`: the row with this id. */
  function GetBooking(table: Table, id: string, failure: Option<string>): (r: Result<Booking>)
    ensures failure.Some? ==> r == Err(failure.value)
    ensures failure.None? && id !in table ==> r == Err(NoRowMessage)
    ensures r.Ok? <==> failure.None? && id in table
    ensures r.Ok? ==> r.value == table[id]
  {
    if failure.Some? then Err(failure.value)
    else if id !in table then Err(NoRowMessage)
    else Ok(table[id])
  }

  /** `verifyBookingCode`: whether the stored code of this booking is
      exactly `code`. A row without a code matches nothing. */
  function VerifyBookingCode(table: Table, id: string, code: string,
                             failure: Option<string>): (r: Result<bool>)
    ensures failure.Some? ==> r == Err(failure.value)
    ensures failure.None? && id !in table ==> r == Err(NoRowMessage)
    ensures r.Ok? <==> failure.None? && id in table
    ensures r.Ok? ==> (r.value <==> table[id].verificationCode == Some(code))
  {
    if failure.Some? then Err(failure.value)
    else if id !in table then Err(NoRowMessage)
    else Ok(table[id].verificationCode == Some(code))
  }

  /** A freshly created booking is found again by its id, exactly as it
      was returned. */
  lemma CreateThenGet(table: Table, input: NewBooking, id: string, now: string)
    requires id !in table
    ensures var w := CreateBooking(table, input, id, now, None);
      w.Ok? && GetBooking(w.value.table, id, None) == Ok(w.value.row)
  {
  }

  /** The code stored at creation is the one, and the only one, that
      verifies; a status update never changes which code verifies. */
  lemma StoredCodeVerifies(table: Table, input: NewBooking, id: string, now: string,
                           code: string, status: Status, verified: Option<bool>, later: string)
    requires id !in table
    ensures var w := CreateBooking(table, input, id, now, None);
      && w.Ok?
      && VerifyBookingCode(w.value.table, id, code, None) == Ok(input.verificationCode == Some(code))
      && var u := UpdateBookingStatus(w.value.table, id, status, verified, later, None);
         u.Ok? && VerifyBookingCode(u.value.table, id, code, None) == Ok(input.verificationCode == Some(code))
  {
  }
}
