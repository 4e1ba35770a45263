/**
 * The `bookings` table as its migration declares it: one record type, a
 * three-valued status enumeration defaulting to `pending`, the column
 * bounds, and an ordinary (non-unique) index on the booking slot.
 *
 * Calendar dates are day ordinals and times of day are minutes after
 * midnight, so a slot is compared at minute granularity.
 */
module Schema {
  import opened Wrappers

  /** Length of a default `string` column (VARCHAR(255)). */
  const DefaultStringLength := 255
  /** Length of the `phone` column. */
  const PhoneLength := 50
  /** Largest value of an unsigned tiny integer column (`guests`). */
  const MaxTinyUnsigned := 255
  /** A `time` column holds a time of day: minutes 0 .. 1439. */
  const MinutesPerDay := 1440

  /** The `status` enumeration column. */
  datatype Status = Pending | Confirmed | Cancelled

  /** The column default, used when a row is inserted without a status. */
  const DefaultStatus: Status := Pending

  /** The value stored in the enumeration column for each status. */
  function StatusName(s: Status): string {
    match s
    case Pending => "pending"
    case Confirmed => "confirmed"
    case Cancelled => "cancelled"
  }

  /** Reads an enumeration value; anything but the three names is rejected. */
  function ParseStatus(s: string): (r: Option<Status>)
    ensures r.Some? ==> StatusName(r.value) == s
    ensures r.None? ==> s != "pending" && s != "confirmed" && s != "cancelled"
  {
    if s == "pending" then Some(Pending)
    else if s == "confirmed" then Some(Confirmed)
    else if s == "cancelled" then Some(Cancelled)
    else None
  }

  lemma StatusNameRoundTrip(s: Status)
    ensures ParseStatus(StatusName(s)) == Some(s)
  {
  }

  /** One row of the `bookings` table (timestamps are not modelled). */
  datatype Booking = Booking(
    id: int,
    fullName: string,
    email: string,
    phone: string,
    date: int,
    time: int,
    guests: int,
    notes: Option<string>,
    status: Status)

  /** A row that fits the columns the migration declares. */
  predicate WellFormed(b: Booking) {
    && 1 <= b.id
    && |b.fullName| <= DefaultStringLength
    && |b.email| <= DefaultStringLength
    && |b.phone| <= PhoneLength
    && 0 <= b.time < MinutesPerDay
    && 0 <= b.guests <= MaxTinyUnsigned
  }

  /** The table, keyed by its primary key: every row sits under its own id. */
  ghost predicate KeyedById(rows: map<int, Booking>) {
    forall id :: id in rows ==> rows[id].id == id
  }

  /** Every row is keyed by its id and fits its columns. */
  ghost predicate TableWellFormed(rows: map<int, Booking>) {
    && KeyedById(rows)
    && forall id :: id in rows ==> WellFormed(rows[id])
  }
}
