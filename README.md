# Restaurant booking store — a verified model

This project models the write path and the listing of a restaurant-table booking API. The API is a Laravel
controller over one `bookings` table. The model has four parts:

- **Schema** (`schema.dfy`) models the table's migration. A booking is one record. Its status is the enumeration
  `pending | confirmed | cancelled`, and `pending` is the column default. The model gives the column bounds
  (VARCHAR(255) names and e-mails, a 50-character phone, an unsigned tiny integer for guests, a nullable notes
  text and a time of day) and states that every row is keyed by its auto-assigned id. Dates are day ordinals.
  Times are minutes after midnight, so two bookings share a slot when they have the same date and the same
  minute.
- **UpdateBookingRequest** (`update_request.dfy`) models the validator of a partial update. Every key is
  optional. A key that is present must pass its rule list: `required` (not null, not blank after PHP's
  `trim`), length limits, guests in 1..20, a strict `H:i` time, a date no earlier than today (today is a
  parameter), nullable notes of at most 1000 characters and the three status names. The validator reports
  the set of keys whose rules fail.
- **BookingQueries** (`booking_queries.dfy`) models the two read-only queries:
  - `isSlotAvailable` asks whether some booking holds the slot, where a holder is pending or confirmed and is
    not the excluded id.
  - `index` filters by exact date, by exact status and by a substring of name, e-mail or phone, with all the
    filters ANDed. A blank status or search parameter counts as not filled in and filters nothing. It lists newest first, clamps the page size to 1..100 with a default of 10, and cuts out
    one page.
- **BookingController** (`booking_controller.dfy`) models the table as a class. It holds a `map<int, Booking>`
  and the auto-increment counter, and it has the methods `Store`, `Show`, `Update`, `UpdateStatus` and
  `Destroy`. `Store` forces the status to `pending` and refuses a taken slot. `Update` works out the effective
  slot from the payload or the stored row and checks it with its own id excluded. Only then does it write the
  keys that are present. `UpdateStatus` writes the status with no slot check. `Destroy` removes the row.
  Each refusal leaves the table unchanged.

The property the model is built around is **at most one active booking per slot** (`SlotsUnique`). `Store`,
`Update` and `Destroy` keep it. `UpdateStatus` does not: `StatusChangeCanBreakSlots` exhibits a table where
confirming a cancelled booking puts two active bookings on one slot. Nothing in the schema enforces the
invariant either, because the slot index is not unique.

Three behaviours of the code worth knowing:

- `per_page` falls back to 10 only when the parameter is missing. A value that is present is passed through
  PHP's integer conversion, which turns a non-numeric value into 0, and then clamped, so it becomes 1.
- The update payload accepts `status`, so a PUT can also change the status, not only the status endpoint.
- The search uses SQL `LIKE`. Whether it is case-insensitive depends on the database collation. The model
  uses exact containment (see "Left out").

One more behaviour follows from the code, and `CancelledKeptSlotCanConflict` shows it. An update that changes
neither date nor time is still refused when another active booking holds the row's slot, because the slot
check runs for every update. In a table whose slots are unique this happens only to a *cancelled* booking whose
slot has been taken again since.

## Model

| member | source | states |
|---|---|---|
| `Schema.ParseStatus` | backend/database/migrations/2026_02_03_000000_create_bookings_table.php:19 | only the names pending, confirmed and cancelled read as a status, and the status read back has exactly that name |
| `Schema.StatusNameRoundTrip` | backend/database/migrations/2026_02_03_000000_create_bookings_table.php:19 | each of the three statuses reads back from its stored name |
| `UpdateBookingRequest.ParseTime` | backend/app/Http/Requests/UpdateBookingRequest.php:21 | an accepted `H:i` string denotes a time of day 0..1439 whose `H:i` form is that very string (strict two-digit hour 00–23 and minute 00–59) |
| `UpdateBookingRequest.FormatTimeRoundTrip` | backend/app/Http/Requests/UpdateBookingRequest.php:21 | every time of day written as `H:i` is accepted and reads back as itself |
| `UpdateBookingRequest.HourMinuteFormat` | backend/app/Http/Requests/UpdateBookingRequest.php:21 | `date_format:H:i` accepts a string exactly when it is the `H:i` form of some time of day (both directions) |
| `UpdateBookingRequest.FormatTime` | backend/app/Http/Requests/UpdateBookingRequest.php:21 | the `H:i` form of a time of day is five characters: two hour digits, a colon, two minute digits |
| `UpdateBookingRequest.TimeRule` | backend/app/Http/Requests/UpdateBookingRequest.php:21 | a `booking_time` passes exactly when it is absent or is the `H:i` form of some time of day; null fails |
| `UpdateBookingRequest.StatusRule` | backend/app/Http/Requests/UpdateBookingRequest.php:24 | a `status` passes exactly when it is absent or one of pending, confirmed, cancelled; null fails |
| `UpdateBookingRequest.StatusNamesAreNotBlank` | backend/app/Http/Requests/UpdateBookingRequest.php:24 | a status name is never blank, so `required` adds nothing to `in:` for a given value |
| `UpdateBookingRequest.FormattedTimesAreNotBlank` | backend/app/Http/Requests/UpdateBookingRequest.php:21 | an `H:i` string is never blank, so `required` adds nothing to `date_format:H:i` for a given value |
| `UpdateBookingRequest.Violations` | backend/app/Http/Requests/UpdateBookingRequest.php:14-26 | for each of the eight keys, the key is reported exactly when it is present and breaks its rule: null where required, blank, over 255/255/50 characters, a date before today, not the `H:i` form of a time of day, guests outside 1..20, notes over 1000 characters (null notes pass), or not a status name; no other key is ever reported |
| `UpdateBookingRequest.Valid` | backend/app/Http/Requests/UpdateBookingRequest.php:14-26 | a payload is accepted exactly when it meets every rule: no null in a required key, non-blank names and contacts within 255/255/50 characters, a date today or later, an `H:i` time of day, 1..20 guests, notes within 1000 characters, a status name (both directions) |
| `UpdateBookingRequest.NoChangesIsValid` | backend/app/Http/Requests/UpdateBookingRequest.php:17-24 | every key is optional, so an empty payload is accepted |
| `BookingQueries.IsSlotAvailable` | backend/app/Http/Controllers/Api/BookingController.php:121-129 | a slot is available exactly when every booking on that date and time, other than the excluded id (an id of 0 excludes nothing), is cancelled |
| `BookingQueries.CancelledNeverBlocks` | backend/app/Http/Controllers/Api/BookingController.php:127 | storing a cancelled booking changes no availability answer: it is as if the row were absent |
| `BookingQueries.ExclusionIgnoresOwnRow` | backend/app/Http/Controllers/Api/BookingController.php:124 | excluding an id gives the same answer as asking without that row |
| `BookingQueries.KeptSlotIsAvailable` | backend/app/Http/Controllers/Api/BookingController.php:74-78 | while slots are unique, an active booking checked at its own slot with its own id excluded never conflicts with itself |
| `BookingQueries.Contains` | backend/app/Http/Controllers/Api/BookingController.php:29-35 | a match needs a term no longer than the field, and the empty term matches every field |
| `BookingQueries.ContainsMeaning` | backend/app/Http/Controllers/Api/BookingController.php:29-35 | the `LIKE '%term%'` match holds exactly when the term occurs at some position of the field |
| `BookingQueries.MatchesFilters` | backend/app/Http/Controllers/Api/BookingController.php:21-36 | a booking matches exactly when it is on the filtered date, has the filtered status name, and has the search term at some position of its name, e-mail or phone; a missing or blank status or search filters nothing |
| `BookingQueries.Newest` | backend/app/Http/Controllers/Api/BookingController.php:19-36 | the listing up to id k holds at most k bookings, each satisfying every filter |
| `BookingQueries.NewestSound` | backend/app/Http/Controllers/Api/BookingController.php:19-36 | every listed booking is a stored row under its own id and satisfies the date, status and search filters |
| `BookingQueries.NewestComplete` | backend/app/Http/Controllers/Api/BookingController.php:21-36 | every stored row in the id range that satisfies all filters is listed |
| `BookingQueries.NewestOrdered` | backend/app/Http/Controllers/Api/BookingController.php:19 | the listing is strictly newest first (ids decrease), so no row is listed twice |
| `BookingQueries.PerPage` | backend/app/Http/Controllers/Api/BookingController.php:38 | the page size is always in 1..100: 10 when the parameter is missing, the value itself inside 1..100, 100 above that, 1 below |
| `BookingQueries.CurrentPage` | backend/app/Http/Controllers/Api/BookingController.php:40 | the page number is at least 1: a positive requested page is kept, and a missing, non-integer or non-positive one reads as page 1 |
| `BookingQueries.Paginate` | backend/app/Http/Controllers/Api/BookingController.php:40 | a page holds at most page-size items, namely the consecutive items starting at (page − 1) · size; the total counts the whole listing; the last page is the least page count that covers the total, and 1 for an empty listing; a page past the last is empty |
| `BookingQueries.Slice` | backend/app/Http/Controllers/Api/BookingController.php:40 | a slice holds at most `size` items, exactly the items of the listing from `start` on, fewer only where the listing ends, and none past its end |
| `BookingQueries.PageKeepsOrder` | backend/app/Http/Controllers/Api/BookingController.php:40 | a page cut out of a newest-first listing is newest first |
| `BookingQueries.Index` | backend/app/Http/Controllers/Api/BookingController.php:17-41 | the envelope carries the clamped page size and the requested page; a page holds at most that many (so at most 100) bookings, all matching every filter; the total counts the whole filtered listing |
| `BookingQueries.IndexSound` | backend/app/Http/Controllers/Api/BookingController.php:17-41 | every booking on a listed page is a stored row and satisfies every filter supplied |
| `BookingQueries.IndexOrdered` | backend/app/Http/Controllers/Api/BookingController.php:19 | a listed page is newest first |
| `BookingQueries.IndexTotal` | backend/app/Http/Controllers/Api/BookingController.php:17-41 | the envelope's total is the length of a listing that contains every matching row of the table |
| `BookingQueries.DateAndStatusFilterScenario` | backend/tests/Feature/BookingApiTest.php:91-120 | filtering a confirmed day-3 booking and a pending day-4 booking by day 3 and `confirmed` lists only the first |
| `BookingController.NewBooking` | backend/app/Http/Controllers/Api/BookingController.php:45-48 | the inserted row has the given id, carries every validated field unchanged on the slot asked for, and has the column's default status `pending` whatever status was sent |
| `BookingController.ValidPayloadIsStorable` | backend/app/Http/Requests/UpdateBookingRequest.php:17-24 | an accepted payload can be written: no required key is null, and its time and status read as a time of day and a status |
| `BookingController.EffectiveDate` | backend/app/Http/Controllers/Api/BookingController.php:75 | the date checked is the payload's when given, else the stored date |
| `BookingController.EffectiveTime` | backend/app/Http/Controllers/Api/BookingController.php:76 | the time checked is the payload's when given (a time of day whose `H:i` form is the string sent), else the stored time |
| `BookingController.ApplyPayload` | backend/app/Http/Controllers/Api/BookingController.php:87 | only the keys present change the row: the id never changes, the row lands on the effective slot (payload value, else stored value), every given name, e-mail, phone, guest count and note is written as sent, absent keys keep their columns, null notes clear the notes, a given status is stored under its name, and an empty payload changes nothing |
| `BookingController.ApplyKeepsShape` | backend/database/migrations/2026_02_03_000000_create_bookings_table.php:12-17 | the validator's bounds fit the columns: an accepted update of a row that fits the table yields a row that still fits |
| `BookingController.WriteKeepsSlotsUnique` | backend/app/Http/Controllers/Api/BookingController.php:50-59 | writing a row onto a slot that the check, excluding that row's id, found free keeps at most one active booking per slot |
| `BookingController.FreeSlotIsFreeExcludingAny` | backend/app/Http/Controllers/Api/BookingController.php:121-129 | a slot free with no exclusion is free with any exclusion |
| `BookingController.StatusChangeCanBreakSlots` | backend/app/Http/Controllers/Api/BookingController.php:95-103 | a well-formed table with unique slots, a cancelled and a confirmed booking on one slot, loses uniqueness when the cancelled one is confirmed |
| `BookingController.CancelledKeptSlotCanConflict` | backend/app/Http/Controllers/Api/BookingController.php:74-85 | for every table, an update that sends neither date nor time fails the slot check whenever another active booking holds the row's slot; when slots are unique, that row must be cancelled |
| `BookingController.BookingTable.constructor` | backend/database/migrations/2026_02_03_000000_create_bookings_table.php:11 | a new table is empty and its id counter starts at 1 |
| `BookingController.BookingTable.Store` | backend/app/Http/Controllers/Api/BookingController.php:43-65 | on a free slot the booking is inserted under a fresh id with every given field and status `pending` (whatever status the input carried), and the counter advances; on a taken slot the answer is the 422 conflict with the fixed message under `booking_time` and nothing changes; slot uniqueness is kept |
| `BookingController.BookingTable.Show` | backend/app/Http/Controllers/Api/BookingController.php:67-70 | a stored id answers its row; a missing id answers NotFound |
| `BookingController.BookingTable.Update` | backend/app/Http/Controllers/Api/BookingController.php:72-93 | a missing id answers NotFound; a rejected payload answers the failing keys; otherwise the effective slot is checked with the row's own id excluded, and either only that row changes, to the payload applied to it, or the answer is the conflict and nothing changes; slot uniqueness and the column shape are kept |
| `BookingController.BookingTable.UpdateStatus` | backend/app/Http/Controllers/Api/BookingController.php:95-103 | a missing id answers NotFound; otherwise only that row's status changes, with no slot check; the column shape is kept |
| `BookingController.BookingTable.Destroy` | backend/app/Http/Controllers/Api/BookingController.php:105-112 | a missing id answers NotFound; otherwise exactly that row is removed and all others stay; slot uniqueness and the column shape are kept |
| `BookingController.TakenSlotScenario` | backend/tests/Feature/BookingApiTest.php:37-64 | a booking is created as pending (even when asked for confirmed) and then confirmed; a second create on the same slot gets the conflict message under `booking_time` |

## Left out

- Requests to create a booking and to change a status are validated by rules that are not part of this model. `Store` accepts any typed create input. `UpdateStatus` accepts any of the three statuses.
- BookingController.BookingTable.Store: does not state that the column shape is kept, because the create rules that would bound the fields are not part of this model.
- The `email` syntax rule is not modelled. An e-mail is checked only for being required and for its length.
- General date parsing is not modelled. Dates arrive already read as day ordinals, so the `date` rule and an unparsable `date` filter are out.
- The `integer` rule on guests accepts numeric strings. Here guests is already an integer. Likewise `per_page` arrives already converted by PHP's integer conversion. `page` arrives already read by the paginator: a value that does not pass PHP's integer filter (`2.5`, `2abc`) arrives as missing and so reads as page 1.
- Case-insensitive collation and the `%`/`_` wildcards of `LIKE` in the search term are not modelled. The search is exact containment. The status filter compares the stored name exactly.
- `created_at`/`updated_at` are not modelled. "Latest first" orders by `created_at`, and the model orders by id. Ids are handed out in creation order, so the two orders agree except on rows created within the same second, whose relative order the database leaves open.
- The byte limit of the `text` notes column and the range of the `date` column are not modelled.
- `downloadPdf` and the PDF template are not modelled: they are rendering plus a wall-clock timestamp.
- Routing, CORS, JSON serialisation and HTTP plumbing are not modelled. Each answer is a `Response` value whose comment gives its HTTP status. Route-model binding becomes `NotFound` for a missing id, checked before validation.
- Concurrency is not modelled. The check-then-write race between `isSlotAvailable` and the insert or update is outside the model, and every operation is one atomic step.
