/**
 * The write side of the booking controller: a table of bookings keyed by
 * id with an auto-increment counter, and the create, show, update,
 * status-change and delete operations over it.
 *
 * Every operation runs as one atomic step. Each write is judged against
 * the invariant "at most one active booking per slot" (`SlotsUnique`).
 * Create, update and delete keep it. A status change does not check the
 * slot, so it can break the invariant.
 */
module BookingController {
  import opened Wrappers
  import opened Schema
  import opened UpdateBookingRequest
  import opened BookingQueries

  /** The fixed message of a slot conflict, reported under `booking_time`. */
  const ConflictMessage := "Выбранное время уже занято"

  /** What an operation answers; the HTTP status of each is in its comment. */
  datatype Response =
    | Created(data: Booking)                                   // 201
    | Found(data: Booking)                                     // 200
    | Updated(data: Booking)                                   // 200
    | Deleted                                                  // 200
    | SlotTaken(message: string, errors: map<string, seq<string>>)  // 422
    | Invalid(fields: set<string>)                             // 422
    | NotFound                                                 // 404

  const SlotConflict := SlotTaken(ConflictMessage, map["booking_time" := [ConflictMessage]])

  /**
   * The validated body of a create request. Its rules are not part of this
   * model; any status it carries is ignored.
   */
  datatype CreateInput = CreateInput(
    fullName: string,
    email: string,
    phone: string,
    date: int,
    time: int,
    guests: int,
    notes: Option<string>,
    status: Option<Status>)

  /**
   * The row a create inserts under `id`: the validated fields on the slot
   * asked for, with the column's default status whatever status was sent.
   */
  function NewBooking(id: int, input: CreateInput): (r: Booking)
    ensures r.id == id && r.date == input.date && r.time == input.time
    ensures r.fullName == input.fullName && r.email == input.email && r.phone == input.phone
    ensures r.guests == input.guests && r.notes == input.notes
    ensures r.status == DefaultStatus && Active(r.status)
  {
    Booking(id, input.fullName, input.email, input.phone, input.date, input.time,
            input.guests, input.notes, Pending)
  }

  /**
   * A payload whose present keys can all be written: no required key is
   * null, and the time and status read as a time of day and a status.
   */
  predicate Storable(p: Payload) {
    && !p.fullName.Null? && !p.email.Null? && !p.phone.Null?
    && !p.bookingDate.Null? && !p.bookingTime.Null? && !p.guests.Null? && !p.status.Null?
    && (p.bookingTime.Given? ==> ParseTime(p.bookingTime.value).Some?)
    && (p.status.Given? ==> ParseStatus(p.status.value).Some?)
  }

  lemma ValidPayloadIsStorable(p: Payload, today: int)
    requires UpdateBookingRequest.Valid(p, today)
    ensures Storable(p)
  {
    if p.bookingTime.Given? {
      HourMinuteFormat(p.bookingTime.value);
    }
  }

  /** The date the update will be checked at: the payload's, else the stored one. */
  function EffectiveDate(b: Booking, p: Payload): (d: int)
    ensures p.bookingDate.Given? ==> d == p.bookingDate.value
    ensures !p.bookingDate.Given? ==> d == b.date
  {
    if p.bookingDate.Given? then p.bookingDate.value else b.date
  }

  /** The time the update will be checked at: the payload's, else the stored one. */
  function EffectiveTime(b: Booking, p: Payload): (t: int)
    requires Storable(p)
    ensures p.bookingTime.Given? ==> 0 <= t < MinutesPerDay && FormatTime(t) == p.bookingTime.value
    ensures !p.bookingTime.Given? ==> t == b.time
  {
    if p.bookingTime.Given? then ParseTime(p.bookingTime.value).value else b.time
  }

  /**
   * Writes the keys present in the payload onto the row: the id never
   * changes, the row lands on the effective slot, a key that is absent
   * leaves its column as it was, and an empty payload changes nothing.
   */
  function ApplyPayload(b: Booking, p: Payload): (r: Booking)
    requires Storable(p)
    ensures r.id == b.id
    ensures r.date == EffectiveDate(b, p) && r.time == EffectiveTime(b, p)
    ensures p.fullName.Absent? ==> r.fullName == b.fullName
    ensures p.fullName.Given? ==> r.fullName == p.fullName.value
    ensures p.email.Absent? ==> r.email == b.email
    ensures p.email.Given? ==> r.email == p.email.value
    ensures p.phone.Absent? ==> r.phone == b.phone
    ensures p.phone.Given? ==> r.phone == p.phone.value
    ensures p.guests.Absent? ==> r.guests == b.guests
    ensures p.guests.Given? ==> r.guests == p.guests.value
    ensures p.notes.Absent? ==> r.notes == b.notes
    ensures p.notes.Null? ==> r.notes == None
    ensures p.notes.Given? ==> r.notes == Some(p.notes.value)
    ensures p.status.Absent? ==> r.status == b.status
    ensures p.status.Given? ==> StatusName(r.status) == p.status.value
    ensures p == NoChanges ==> r == b
  {
    Booking(
      b.id,
      if p.fullName.Given? then p.fullName.value else b.fullName,
      if p.email.Given? then p.email.value else b.email,
      if p.phone.Given? then p.phone.value else b.phone,
      EffectiveDate(b, p),
      EffectiveTime(b, p),
      if p.guests.Given? then p.guests.value else b.guests,
      match p.notes
      case Absent => b.notes
      case Null => None
      case Given(s) => Some(s),
      if p.status.Given? then ParseStatus(p.status.value).value else b.status)
  }

  /**
   * The validator's bounds sit inside the columns' bounds, so an accepted
   * update of a row that fits the table yields a row that still fits it.
   */
  lemma ApplyKeepsShape(b: Booking, p: Payload, today: int)
    requires WellFormed(b) && UpdateBookingRequest.Valid(p, today)
    ensures Storable(p) && WellFormed(ApplyPayload(b, p))
  {
    ValidPayloadIsStorable(p, today);
  }

  /** Writing a row onto a slot that the check found free keeps the slots unique. */
  lemma WriteKeepsSlotsUnique(rows: map<int, Booking>, b: Booking)
    requires KeyedById(rows) && SlotsUnique(rows) && b.id != 0
    requires IsSlotAvailable(rows, b.date, b.time, Some(b.id))
    ensures SlotsUnique(rows[b.id := b])
  {
    var after := rows[b.id := b];
    forall i, j | i in after && j in after && i != j && Active(after[i].status) && Active(after[j].status)
      ensures after[i].date != after[j].date || after[i].time != after[j].time
    {
      if i == b.id {
        assert !Occupies(rows[j], b.date, b.time, Some(b.id));
      } else if j == b.id {
        assert !Occupies(rows[i], b.date, b.time, Some(b.id));
      }
    }
  }

  /** A slot free of every active row is free of every row but one's own. */
  lemma FreeSlotIsFreeExcludingAny(rows: map<int, Booking>, date: int, time: int, ex: Option<int>)
    requires IsSlotAvailable(rows, date, time, None)
    ensures IsSlotAvailable(rows, date, time, ex)
  {
  }

  /**
   * A status change can break the invariant: a cancelled booking and a
   * confirmed one share a slot; confirming the cancelled one leaves two
   * active bookings on that slot.
   */
  lemma StatusChangeCanBreakSlots()
    ensures var a := Booking(1, "A", "a@example.com", "1", 100, 19 * 60, 2, None, Cancelled);
      var b := Booking(2, "B", "b@example.com", "2", 100, 19 * 60, 2, None, Confirmed);
      var rows := map[1 := a, 2 := b];
      && TableWellFormed(rows) && SlotsUnique(rows)
      && !SlotsUnique(rows[1 := a.(status := Confirmed)])
  {
    var a := Booking(1, "A", "a@example.com", "1", 100, 19 * 60, 2, None, Cancelled);
    var b := Booking(2, "B", "b@example.com", "2", 100, 19 * 60, 2, None, Confirmed);
    var after := map[1 := a, 2 := b][1 := a.(status := Confirmed)];
    assert after[1].date == after[2].date && after[1].time == after[2].time;
  }

  /**
   * An update that touches neither date nor time is still refused when
   * another active booking holds the row's slot. In a table whose slots are
   * unique that happens only to a row that is itself cancelled: editing its
   * notes, say, fails once its old slot has been taken again.
   */
  lemma CancelledKeptSlotCanConflict(rows: map<int, Booking>, id: int, other: int, p: Payload)
    requires KeyedById(rows)
    requires id in rows && other in rows && other != id && Active(rows[other].status)
    requires rows[other].date == rows[id].date && rows[other].time == rows[id].time
    requires Storable(p) && !p.bookingDate.Given? && !p.bookingTime.Given?
    ensures !IsSlotAvailable(rows, EffectiveDate(rows[id], p), EffectiveTime(rows[id], p), Some(id))
    ensures SlotsUnique(rows) ==> rows[id].status == Cancelled
  {
    assert Occupies(rows[other], rows[id].date, rows[id].time, Some(id));
  }

  /** The bookings table with its auto-increment counter. */
  class BookingTable {
    var rows: map<int, Booking>
    var nextId: int

    /** Every row is keyed by its id, and every id was handed out by the counter. */
    ghost predicate Valid()
      reads this
    {
      && 1 <= nextId
      && KeyedById(rows)
      && forall id :: id in rows ==> 1 <= id < nextId
    }

    constructor ()
      ensures Valid() && rows == map[] && nextId == 1
    {
      rows := map[];
      nextId := 1;
    }

    /**
     * Creates a booking with status `pending` under a fresh id, unless an
     * active booking already holds its slot.
     */
    method Store(input: CreateInput) returns (r: Response)
      requires Valid()
      modifies this
      ensures Valid()
      ensures IsSlotAvailable(old(rows), input.date, input.time, None) ==>
        && r == Created(NewBooking(old(nextId), input))
        && rows == old(rows)[old(nextId) := r.data]
        && nextId == old(nextId) + 1
      ensures !IsSlotAvailable(old(rows), input.date, input.time, None) ==>
        r == SlotConflict && rows == old(rows) && nextId == old(nextId)
      ensures r.Created? ==> r.data.status == Pending && r.data.id !in old(rows)
      ensures old(SlotsUnique(rows)) ==> SlotsUnique(rows)
    {
      if !IsSlotAvailable(rows, input.date, input.time, None) {
        return SlotConflict;
      }
      var b := NewBooking(nextId, input);
      FreeSlotIsFreeExcludingAny(rows, input.date, input.time, Some(b.id));
      if SlotsUnique(rows) {
        WriteKeepsSlotsUnique(rows, b);
      }
      rows := rows[nextId := b];
      nextId := nextId + 1;
      r := Created(b);
    }

    /** Looks a booking up by id. */
    method Show(id: int) returns (r: Response)
      ensures id in rows ==> r == Found(rows[id])
      ensures id !in rows ==> r == NotFound
    {
      if id !in rows {
        return NotFound;
      }
      r := Found(rows[id]);
    }

    /**
     * Partially updates a booking: a missing id is `NotFound`, a payload
     * the validator rejects is `Invalid` with the failing keys, an effective
     * slot held by another active booking is a conflict; only then are the
     * present keys written. Nothing changes on any refusal.
     */
    method Update(id: int, p: Payload, today: int) returns (r: Response)
      requires Valid()
      modifies this
      ensures Valid() && nextId == old(nextId)
      ensures id !in old(rows) ==> r == NotFound
      ensures id in old(rows) && !UpdateBookingRequest.Valid(p, today) ==> r == Invalid(Violations(p, today))
      ensures id in old(rows) && UpdateBookingRequest.Valid(p, today) ==>
        && Storable(p)
        && var b := old(rows)[id];
           if IsSlotAvailable(old(rows), EffectiveDate(b, p), EffectiveTime(b, p), Some(id)) then
             r == Updated(ApplyPayload(b, p)) && rows == old(rows)[id := r.data]
           else
             r == SlotConflict
      ensures !r.Updated? ==> rows == old(rows)
      ensures old(SlotsUnique(rows)) ==> SlotsUnique(rows)
      ensures old(TableWellFormed(rows)) ==> TableWellFormed(rows)
    {
      if id !in rows {
        return NotFound;
      }
      if !UpdateBookingRequest.Valid(p, today) {
        return Invalid(Violations(p, today));
      }
      ValidPayloadIsStorable(p, today);
      var b := rows[id];
      if !IsSlotAvailable(rows, EffectiveDate(b, p), EffectiveTime(b, p), Some(id)) {
        return SlotConflict;
      }
      var b' := ApplyPayload(b, p);
      if SlotsUnique(rows) {
        WriteKeepsSlotsUnique(rows, b');
      }
      if TableWellFormed(rows) {
        ApplyKeepsShape(b, p, today);
      }
      rows := rows[id := b'];
      r := Updated(b');
    }

    /** Sets the status of a booking, with no slot check. */
    method UpdateStatus(id: int, s: Status) returns (r: Response)
      requires Valid()
      modifies this
      ensures Valid() && nextId == old(nextId)
      ensures id !in old(rows) ==> r == NotFound && rows == old(rows)
      ensures id in old(rows) ==>
        && r == Updated(old(rows)[id].(status := s))
        && rows == old(rows)[id := r.data]
      ensures old(TableWellFormed(rows)) ==> TableWellFormed(rows)
    {
      if id !in rows {
        return NotFound;
      }
      var b := rows[id].(status := s);
      rows := rows[id := b];
      r := Updated(b);
    }

    /** Deletes a booking for good; every other booking stays as it was. */
    method Destroy(id: int) returns (r: Response)
      requires Valid()
      modifies this
      ensures Valid() && nextId == old(nextId)
      ensures id !in old(rows) ==> r == NotFound && rows == old(rows)
      ensures id in old(rows) ==> r == Deleted && rows == old(rows) - {id}
      ensures old(SlotsUnique(rows)) ==> SlotsUnique(rows)
      ensures old(TableWellFormed(rows)) ==> TableWellFormed(rows)
    {
      if id !in rows {
        return NotFound;
      }
      rows := rows - {id};
      r := Deleted;
    }
  }

  /**
   * Create a booking, confirm it, then try a second booking on the same
   * slot: the first is created pending, and the second is refused with the
   * conflict message under `booking_time`.
   */
  method TakenSlotScenario(date: int) returns (first: Response, confirmed: Response, second: Response)
    ensures first.Created? && first.data.status == Pending
    ensures confirmed.Updated? && confirmed.data.status == Confirmed
    ensures second == SlotConflict && second.errors["booking_time"] == [ConflictMessage]
  {
    var table := new BookingTable();
    first := table.Store(CreateInput("Existing User", "existing@example.com", "+77009990000", date, 19 * 60, 4, None, Some(Confirmed)));
    confirmed := table.UpdateStatus(first.data.id, Confirmed);
    second := table.Store(CreateInput("Test User", "test@example.com", "+77001112233", date, 19 * 60, 2, None, None));
  }
}
