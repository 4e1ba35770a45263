/**
 * The read-only queries of the booking controller: the slot-availability
 * check used before every create and update, and the filtered, newest-first,
 * paginated listing.
 */
module BookingQueries {
  import opened Wrappers
  import opened Schema
  import opened Text

  // ---------------------------------------------------------------- slots

  /** A booking that holds its slot: pending or confirmed. Cancelled ones hold nothing. */
  predicate Active(s: Status) {
    s == Pending || s == Confirmed
  }

  /**
   * Whether the optional id filter leaves `b` out. The filter is only added
   * when the excluded id is truthy, so `Some(0)` excludes nothing.
   */
  predicate Excluded(b: Booking, exclude: Option<int>) {
    exclude.Some? && exclude.value != 0 && b.id == exclude.value
  }

  /** `b` is a row the availability query finds: same slot, active, not excluded. */
  predicate Occupies(b: Booking, date: int, time: int, exclude: Option<int>) {
    && !Excluded(b, exclude)
    && b.date == date
    && b.time == time
    && Active(b.status)
  }

  /**
   * True when no row of the table occupies the slot `(date, time)`: every
   * row on that date and time, other than the excluded one, is cancelled.
   */
  predicate IsSlotAvailable(rows: map<int, Booking>, date: int, time: int, exclude: Option<int>)
    ensures IsSlotAvailable(rows, date, time, exclude) <==>
      forall id :: id in rows && !Excluded(rows[id], exclude) && rows[id].date == date && rows[id].time == time ==>
        rows[id].status == Cancelled
  {
    !exists id | id in rows :: Occupies(rows[id], date, time, exclude)
  }

  /** At most one active booking per slot: the invariant the controller's check keeps. */
  ghost predicate SlotsUnique(rows: map<int, Booking>) {
    forall i, j ::
      i in rows && j in rows && i != j && Active(rows[i].status) && Active(rows[j].status) ==>
        rows[i].date != rows[j].date || rows[i].time != rows[j].time
  }

  /** A cancelled booking never blocks a slot: availability is as if it were not stored. */
  lemma CancelledNeverBlocks(rows: map<int, Booking>, b: Booking, date: int, time: int, exclude: Option<int>)
    requires b.status == Cancelled
    ensures IsSlotAvailable(rows[b.id := b], date, time, exclude) == IsSlotAvailable(rows - {b.id}, date, time, exclude)
  {
    var with, without := rows[b.id := b], rows - {b.id};
    if !IsSlotAvailable(with, date, time, exclude) {
      var id :| id in with && Occupies(with[id], date, time, exclude);
      assert id in without;
    }
    if !IsSlotAvailable(without, date, time, exclude) {
      var id :| id in without && Occupies(without[id], date, time, exclude);
      assert id in with && with[id] == without[id];
    }
  }

  /** Excluding an id is the same as asking without the row stored under it. */
  lemma ExclusionIgnoresOwnRow(rows: map<int, Booking>, id: int, date: int, time: int)
    requires KeyedById(rows) && id != 0
    ensures IsSlotAvailable(rows, date, time, Some(id)) == IsSlotAvailable(rows - {id}, date, time, None)
  {
    var without := rows - {id};
    if !IsSlotAvailable(rows, date, time, Some(id)) {
      var k :| k in rows && Occupies(rows[k], date, time, Some(id));
      assert k in without;
    }
  }

  /**
   * While the slots are unique, an active booking that keeps its slot never
   * conflicts with itself: the check excluding its own id passes.
   */
  lemma KeptSlotIsAvailable(rows: map<int, Booking>, id: int)
    requires SlotsUnique(rows) && KeyedById(rows)
    requires id in rows && id != 0 && Active(rows[id].status)
    ensures IsSlotAvailable(rows, rows[id].date, rows[id].time, Some(id))
  {
  }

  // -------------------------------------------------------------- listing

  /**
   * Query-string parameters of the listing. `None` is a parameter that is
   * missing; `page` is also `None` when it is not a whole number, and
   * `date` when it does not read as a date.
   */
  datatype Query = Query(
    date: Option<int>,
    status: Option<string>,
    search: Option<string>,
    perPage: Option<int>,
    page: Option<int>)

  /** `t` occurs in `s` at position `i`. */
  ghost predicate OccursAt(s: string, t: string, i: int) {
    0 <= i && i + |t| <= |s| && s[i..i + |t|] == t
  }

  /** The `LIKE '%t%'` match: `t` is a contiguous part of `s`. */
  function Contains(s: string, t: string): (r: bool)
    ensures r ==> |t| <= |s|
    ensures |t| == 0 ==> r
    decreases |s|
  {
    if |t| > |s| then false
    else s[..|t|] == t || Contains(s[1..], t)
  }

  lemma {:induction false} ContainsMeaning(s: string, t: string)
    ensures Contains(s, t) <==> exists i :: OccursAt(s, t, i)
    decreases |s|
  {
    if |t| <= |s| && s[..|t|] != t {
      ContainsMeaning(s[1..], t);
      if Contains(s[1..], t) {
        var i :| OccursAt(s[1..], t, i);
        assert s[i + 1..i + 1 + |t|] == s[1..][i..i + |t|];
        assert OccursAt(s, t, i + 1);
      }
      if i :| OccursAt(s, t, i) {
        assert i != 0;
        assert s[1..][i - 1..i - 1 + |t|] == s[i..i + |t|];
        assert OccursAt(s[1..], t, i - 1);
      }
    } else if |t| <= |s| {
      assert OccursAt(s, t, 0);
    }
  }

  /** A text parameter that `filled` accepts: present and not blank. */
  predicate Filled(f: Option<string>) {
    f.Some? && !Blank(f.value)
  }

  /**
   * The three optional filters, all of which must hold; a blank status or
   * search is not filled in and filters nothing. A booking matches when it
   * is on the date asked for, has the status named, and has the search term
   * somewhere in its name, email or phone.
   */
  predicate MatchesFilters(b: Booking, q: Query)
    ensures MatchesFilters(b, q) <==>
      && (q.date.Some? ==> b.date == q.date.value)
      && (Filled(q.status) ==> ParseStatus(q.status.value) == Some(b.status))
      && (Filled(q.search) ==>
            (exists i :: OccursAt(b.fullName, q.search.value, i))
            || (exists i :: OccursAt(b.email, q.search.value, i))
            || (exists i :: OccursAt(b.phone, q.search.value, i)))
  {
    var term := if q.search.Some? then q.search.value else "";
    ContainsMeaning(b.fullName, term);
    ContainsMeaning(b.email, term);
    ContainsMeaning(b.phone, term);
    && (q.date.Some? ==> b.date == q.date.value)
    && (Filled(q.status) ==> StatusName(b.status) == q.status.value)
    && (Filled(q.search) ==>
          Contains(b.fullName, q.search.value)
          || Contains(b.email, q.search.value)
          || Contains(b.phone, q.search.value))
  }

  /** The matching rows with ids 1 .. `k`, highest id (newest) first. */
  function Newest(rows: map<int, Booking>, q: Query, k: int): (r: seq<Booking>)
    ensures |r| <= if k < 1 then 0 else k
    ensures forall b :: b in r ==> MatchesFilters(b, q)
    decreases k
  {
    if k < 1 then []
    else (if k in rows && MatchesFilters(rows[k], q) then [rows[k]] else []) + Newest(rows, q, k - 1)
  }

  /** Every listed booking is a stored row that satisfies every filter, and carries an id in 1 .. `k`. */
  lemma {:induction false} NewestSound(rows: map<int, Booking>, q: Query, k: int)
    requires KeyedById(rows)
    ensures forall i :: 0 <= i < |Newest(rows, q, k)| ==>
      var b := Newest(rows, q, k)[i];
      b.id in rows && rows[b.id] == b && MatchesFilters(b, q) && 1 <= b.id <= k
    decreases k
  {
    if k >= 1 {
      NewestSound(rows, q, k - 1);
    }
  }

  /** Every stored row with an id in 1 .. `k` that satisfies every filter is listed. */
  lemma {:induction false} NewestComplete(rows: map<int, Booking>, q: Query, k: int)
    ensures forall id :: id in rows && 1 <= id <= k && MatchesFilters(rows[id], q) ==> rows[id] in Newest(rows, q, k)
    decreases k
  {
    if k >= 1 {
      NewestComplete(rows, q, k - 1);
    }
  }

  /** The listing is strictly newest first: ids decrease along it, so no row appears twice. */
  lemma {:induction false} NewestOrdered(rows: map<int, Booking>, q: Query, k: int)
    requires KeyedById(rows)
    ensures forall i, j :: 0 <= i < j < |Newest(rows, q, k)| ==> Newest(rows, q, k)[i].id > Newest(rows, q, k)[j].id
    decreases k
  {
    if k >= 1 {
      NewestOrdered(rows, q, k - 1);
      NewestSound(rows, q, k - 1);
    }
  }

  /** `per_page`: defaults to 10 when missing, then clamped to 1 .. 100. */
  function PerPage(requested: Option<int>): (n: int)
    ensures 1 <= n <= 100
    ensures requested.None? ==> n == 10
    ensures requested.Some? && 1 <= requested.value <= 100 ==> n == requested.value
    ensures requested.Some? && requested.value > 100 ==> n == 100
    ensures requested.Some? && requested.value < 1 ==> n == 1
  {
    var v := requested.GetOr(10);
    if v < 1 then 1 else if v > 100 then 100 else v
  }

  /** `page`: a missing or non-positive page number reads as the first page. */
  function CurrentPage(requested: Option<int>): (p: int)
    ensures 1 <= p
    ensures requested.Some? && 1 <= requested.value ==> p == requested.value
    ensures requested.None? || requested.value < 1 ==> p == 1
  {
    if requested.Some? && 1 <= requested.value then requested.value else 1
  }

  /** The paginated envelope returned by the listing. */
  datatype Paginated = Paginated(data: seq<Booking>, currentPage: int, lastPage: int, perPage: int, total: int)

  /** The at most `size` consecutive items of `all` from position `start` on. */
  function Slice(all: seq<Booking>, start: int, size: int): (d: seq<Booking>)
    requires 0 <= start && 0 <= size
    ensures |d| <= size
    ensures start < |all| ==> |d| == if start + size <= |all| then size else |all| - start
    ensures start >= |all| ==> d == []
    ensures forall i :: 0 <= i < |d| ==> start + i < |all| && d[i] == all[start + i]
  {
    if start >= |all| then [] else all[start..if start + size <= |all| then start + size else |all|]
  }

  /** Cuts page number `page` (from 1) of size `size` out of `all`. */
  function Paginate(all: seq<Booking>, size: int, page: int): (r: Paginated)
    requires 1 <= size && 1 <= page
    ensures r.total == |all| && r.perPage == size && r.currentPage == page
    ensures 1 <= r.lastPage
    ensures |all| == 0 ==> r.lastPage == 1
    ensures |all| > 0 ==> (r.lastPage - 1) * size < |all| <= r.lastPage * size
    ensures 0 <= (page - 1) * size && r.data == Slice(all, (page - 1) * size, size)
    ensures page > r.lastPage ==> r.data == []
  {
    var last := if |all| == 0 then 1 else (|all| + size - 1) / size;
    MulMono(0, page - 1, size);
    LastPageBounds(|all|, size, page, last);
    Paginated(Slice(all, (page - 1) * size, size), page, last, size, |all|)
  }

  lemma LastPageBounds(n: int, size: int, page: int, last: int)
    requires 0 <= n && 1 <= size && 1 <= page
    requires last == if n == 0 then 1 else (n + size - 1) / size
    ensures 1 <= last
    ensures n > 0 ==> (last - 1) * size < n <= last * size
    ensures page > last ==> (page - 1) * size >= n
  {
    if n > 0 {
      var q, r := (n + size - 1) / size, (n + size - 1) % size;
      assert q * size + r == n + size - 1;
      assert (q - 1) * size == q * size - size;
      if page > last {
        assert (page - 1) * size >= last * size by {
          MulMono(last, page - 1, size);
        }
      }
    }
  }

  lemma MulMono(a: int, b: int, c: int)
    requires a <= b && 0 <= c
    ensures a * c <= b * c
  {
  }

  /**
   * The listing endpoint over a table whose ids are all below `nextId`: at
   * most one clamped page of matching bookings, with the clamped page size
   * and the page number asked for.
   */
  function Index(rows: map<int, Booking>, nextId: int, q: Query): (r: Paginated)
    ensures r.perPage == PerPage(q.perPage) && r.currentPage == CurrentPage(q.page)
    ensures |r.data| <= r.perPage <= 100
    ensures r.total == |Newest(rows, q, nextId - 1)|
    ensures forall b :: b in r.data ==> MatchesFilters(b, q)
  {
    Paginate(Newest(rows, q, nextId - 1), PerPage(q.perPage), CurrentPage(q.page))
  }

  /** A listed page holds only stored rows that satisfy every filter. */
  lemma IndexSound(rows: map<int, Booking>, nextId: int, q: Query)
    requires KeyedById(rows)
    ensures var r := Index(rows, nextId, q);
      forall i :: 0 <= i < |r.data| ==> r.data[i].id in rows && rows[r.data[i].id] == r.data[i] && MatchesFilters(r.data[i], q)
  {
    var all := Newest(rows, q, nextId - 1);
    NewestSound(rows, q, nextId - 1);
    var r := Index(rows, nextId, q);
    forall i | 0 <= i < |r.data|
      ensures r.data[i].id in rows && rows[r.data[i].id] == r.data[i] && MatchesFilters(r.data[i], q)
    {
      assert r.data[i] in all;
    }
  }

  /** A page of a newest-first listing is newest first. */
  lemma PageKeepsOrder(all: seq<Booking>, size: int, page: int)
    requires 1 <= size && 1 <= page
    requires forall i, j :: 0 <= i < j < |all| ==> all[i].id > all[j].id
    ensures var d := Paginate(all, size, page).data;
      forall i, j :: 0 <= i < j < |d| ==> d[i].id > d[j].id
  {
    var start := (page - 1) * size;
    var d := Slice(all, start, size);
    forall i, j | 0 <= i < j < |d| ensures d[i].id > d[j].id {
      assert d[i] == all[start + i] && d[j] == all[start + j];
    }
  }

  /** A listed page is newest first. */
  lemma IndexOrdered(rows: map<int, Booking>, nextId: int, q: Query)
    requires KeyedById(rows)
    ensures var r := Index(rows, nextId, q);
      forall i, j :: 0 <= i < j < |r.data| ==> r.data[i].id > r.data[j].id
  {
    NewestOrdered(rows, q, nextId - 1);
    PageKeepsOrder(Newest(rows, q, nextId - 1), PerPage(q.perPage), CurrentPage(q.page));
  }

  /**
   * The total of the envelope counts the listing that holds every matching
   * row of the table, when all ids lie below `nextId`.
   */
  lemma IndexTotal(rows: map<int, Booking>, nextId: int, q: Query)
    requires forall id :: id in rows ==> 1 <= id < nextId
    ensures Index(rows, nextId, q).total == |Newest(rows, q, nextId - 1)|
    ensures forall id :: id in rows && MatchesFilters(rows[id], q) ==> rows[id] in Newest(rows, q, nextId - 1)
  {
    NewestComplete(rows, q, nextId - 1);
  }

  /**
   * Filtering by date and by status together: of a confirmed booking on
   * day 3 and a pending one on day 4, only the first is listed.
   */
  lemma DateAndStatusFilterScenario()
    ensures var a := Booking(1, "A", "a@example.com", "1", 3, 10 * 60, 2, None, Confirmed);
      var b := Booking(2, "B", "b@example.com", "2", 4, 11 * 60, 2, None, Pending);
      var r := Index(map[1 := a, 2 := b], 3, Query(Some(3), Some("confirmed"), None, None, None));
      r.data == [a] && r.total == 1 && r.perPage == 10
  {
    var a := Booking(1, "A", "a@example.com", "1", 3, 10 * 60, 2, None, Confirmed);
    var b := Booking(2, "B", "b@example.com", "2", 4, 11 * 60, 2, None, Pending);
    var rows := map[1 := a, 2 := b];
    var q := Query(Some(3), Some("confirmed"), None, None, None);
    assert !MatchesFilters(b, q);
    assert Newest(rows, q, 0) == [];
    assert Newest(rows, q, 1) == [a];
    assert Newest(rows, q, 2) == [a];
  }
}
