/**
 * Validation of the body of a booking update (PUT /bookings/{id}).
 *
 * Every rule is a `sometimes` rule: a key that is absent is not checked and
 * will not be written. A key that is present is checked against its rule
 * list; the validator reports the set of keys whose rules fail, and the
 * payload is accepted when that set is empty.
 */
module UpdateBookingRequest {
  import opened Wrappers
  import opened Schema
  import opened Text

  /** One key of the JSON body: missing, explicitly null, or carrying a value. */
  datatype Field<+T> = Absent | Null | Given(value: T)

  /**
   * The keys the request has rules for; any other key is dropped from the
   * validated data. `bookingDate` carries the date already read as a day
   * ordinal.
   */
  datatype Payload = Payload(
    fullName: Field<string>,
    email: Field<string>,
    phone: Field<string>,
    bookingDate: Field<int>,
    bookingTime: Field<string>,
    guests: Field<int>,
    notes: Field<string>,
    status: Field<string>)

  const NoChanges := Payload(Absent, Absent, Absent, Absent, Absent, Absent, Absent, Absent)

  const MinGuests := 1
  const MaxGuests := 20
  const MaxNotesLength := 1000

  predicate IsDigit(c: char) {
    '0' <= c <= '9'
  }

  function DigitValue(c: char): (d: int)
    requires IsDigit(c)
    ensures 0 <= d <= 9
  {
    c as int - '0' as int
  }

  function Digit(d: int): (c: char)
    requires 0 <= d <= 9
    ensures IsDigit(c) && DigitValue(c) == d
  {
    ('0' as int + d) as char
  }

  /** A time of day written in the `H:i` format: two-digit hour, colon, two-digit minute. */
  function FormatTime(t: int): (s: string)
    requires 0 <= t < MinutesPerDay
    ensures |s| == 5 && s[2] == ':'
    ensures IsDigit(s[0]) && IsDigit(s[1]) && IsDigit(s[3]) && IsDigit(s[4])
  {
    var h, m := t / 60, t % 60;
    [Digit(h / 10), Digit(h % 10), ':', Digit(m / 10), Digit(m % 10)]
  }

  /**
   * The `date_format:H:i` rule: a string is accepted exactly when it reads as
   * a time of day AND writing that time back in `H:i` reproduces the string,
   * so one-digit hours, `24:00` or a trailing `:00` are all rejected.
   */
  function ParseTime(s: string): (r: Option<int>)
    ensures r.Some? ==> 0 <= r.value < MinutesPerDay && FormatTime(r.value) == s
  {
    if |s| == 5 && IsDigit(s[0]) && IsDigit(s[1]) && s[2] == ':' && IsDigit(s[3]) && IsDigit(s[4]) then
      var h := 10 * DigitValue(s[0]) + DigitValue(s[1]);
      var m := 10 * DigitValue(s[3]) + DigitValue(s[4]);
      if h < 24 && m < 60 then
        FormatReadsBack(s, h, m);
        Some(60 * h + m)
      else
        None
    else
      None
  }

  lemma DivModMinutes(h: int, m: int)
    requires 0 <= h < 24 && 0 <= m < 60
    ensures (60 * h + m) / 60 == h && (60 * h + m) % 60 == m
  {
  }

  /** Formatting the hour and minute read from an `H:i` string gives back that string. */
  lemma FormatReadsBack(s: string, h: int, m: int)
    requires |s| == 5 && IsDigit(s[0]) && IsDigit(s[1]) && s[2] == ':' && IsDigit(s[3]) && IsDigit(s[4])
    requires h == 10 * DigitValue(s[0]) + DigitValue(s[1]) && h < 24
    requires m == 10 * DigitValue(s[3]) + DigitValue(s[4]) && m < 60
    ensures 0 <= 60 * h + m < MinutesPerDay && FormatTime(60 * h + m) == s
  {
    DivModMinutes(h, m);
    assert h / 10 == DigitValue(s[0]) && h % 10 == DigitValue(s[1]);
    assert m / 10 == DigitValue(s[3]) && m % 10 == DigitValue(s[4]);
    var f := FormatTime(60 * h + m);
    assert f[0] == s[0] && f[1] == s[1] && f[3] == s[3] && f[4] == s[4];
  }

  /** Every time of day survives a round trip through the `H:i` format. */
  lemma FormatTimeRoundTrip(t: int)
    requires 0 <= t < MinutesPerDay
    ensures ParseTime(FormatTime(t)) == Some(t)
  {
    var h, m := t / 60, t % 60;
    assert 60 * h + m == t;
    var s := FormatTime(t);
    assert DigitValue(s[0]) == h / 10 && DigitValue(s[1]) == h % 10;
    assert DigitValue(s[3]) == m / 10 && DigitValue(s[4]) == m % 10;
  }

  /** The strings `date_format:H:i` accepts are exactly the formatted times of day. */
  lemma HourMinuteFormat(s: string)
    ensures ParseTime(s).Some? <==> exists t :: 0 <= t < MinutesPerDay && FormatTime(t) == s
  {
    if t :| 0 <= t < MinutesPerDay && FormatTime(t) == s {
      FormatTimeRoundTrip(t);
    }
  }

  /** `sometimes|required|string|max:n` (the `email` syntax rule is not modelled). */
  predicate RequiredText(f: Field<string>, max: int) {
    match f
    case Absent => true
    case Null => false
    case Given(s) => !Blank(s) && |s| <= max
  }

  /** `sometimes|required|date|after_or_equal:today`. */
  predicate DateRule(f: Field<int>, today: int) {
    match f
    case Absent => true
    case Null => false
    case Given(d) => today <= d
  }

  /** `sometimes|required|date_format:H:i`. */
  predicate TimeRule(f: Field<string>)
    ensures TimeRule(f) <==>
      f.Absent? || (f.Given? && exists t :: 0 <= t < MinutesPerDay && FormatTime(t) == f.value)
  {
    match f
    case Absent => true
    case Null => false
    case Given(s) =>
      HourMinuteFormat(s);
      FormattedTimesAreNotBlank(s);
      !Blank(s) && ParseTime(s).Some?
  }

  /** `sometimes|required|integer|min:1|max:20`. */
  predicate GuestsRule(f: Field<int>) {
    match f
    case Absent => true
    case Null => false
    case Given(n) => MinGuests <= n <= MaxGuests
  }

  /** `nullable|string|max:1000`: the one key that may be cleared. */
  predicate NotesRule(f: Field<string>) {
    match f
    case Absent => true
    case Null => true
    case Given(s) => |s| <= MaxNotesLength
  }

  /** `sometimes|required|in:pending,confirmed,cancelled`. */
  predicate StatusRule(f: Field<string>)
    ensures StatusRule(f) <==>
      f.Absent? || (f.Given? && f.value in {"pending", "confirmed", "cancelled"})
  {
    match f
    case Absent => true
    case Null => false
    case Given(s) =>
      StatusNamesAreNotBlank(s);
      !Blank(s) && ParseStatus(s).Some?
  }

  /** The keys the request has rules for. */
  const RuledKeys: set<string> :=
    {"full_name", "email", "phone", "booking_date", "booking_time", "guests", "notes", "status"}

  /** A status name is never blank, so `required` never fails on one. */
  lemma StatusNamesAreNotBlank(s: string)
    ensures ParseStatus(s).Some? ==> !Blank(s)
  {
    if ParseStatus(s).Some? {
      assert !IsTrimmed(s[0]);
    }
  }

  /** A string in the `H:i` format starts with a digit, so it is never blank. */
  lemma FormattedTimesAreNotBlank(s: string)
    ensures ParseTime(s).Some? ==> !Blank(s)
  {
    if ParseTime(s).Some? {
      assert !IsTrimmed(s[0]);
    }
  }

  /** Whether the value under `key` passes that key's rule list. */
  predicate Passes(key: string, p: Payload, today: int) {
    match key
    case "full_name" => RequiredText(p.fullName, DefaultStringLength)
    case "email" => RequiredText(p.email, DefaultStringLength)
    case "phone" => RequiredText(p.phone, PhoneLength)
    case "booking_date" => DateRule(p.bookingDate, today)
    case "booking_time" => TimeRule(p.bookingTime)
    case "guests" => GuestsRule(p.guests)
    case "notes" => NotesRule(p.notes)
    case "status" => StatusRule(p.status)
    case _ => true
  }

  /**
   * The keys whose rules fail, as the validator reports them. A key is
   * reported exactly when it is present and breaks its rule: null where a
   * value is required, blank, too long, out of range, in the past, not the
   * `H:i` form of a time of day, or not a status name. Null notes are
   * allowed, and only keys with rules are ever reported.
   */
  function Violations(p: Payload, today: int): (v: set<string>)
    ensures v <= RuledKeys
    ensures "full_name" in v <==>
      p.fullName.Null? || (p.fullName.Given? && (Blank(p.fullName.value) || |p.fullName.value| > 255))
    ensures "email" in v <==>
      p.email.Null? || (p.email.Given? && (Blank(p.email.value) || |p.email.value| > 255))
    ensures "phone" in v <==>
      p.phone.Null? || (p.phone.Given? && (Blank(p.phone.value) || |p.phone.value| > 50))
    ensures "booking_date" in v <==>
      p.bookingDate.Null? || (p.bookingDate.Given? && p.bookingDate.value < today)
    ensures "booking_time" in v <==>
      p.bookingTime.Null? ||
      (p.bookingTime.Given? && !exists t :: 0 <= t < MinutesPerDay && FormatTime(t) == p.bookingTime.value)
    ensures "guests" in v <==>
      p.guests.Null? || (p.guests.Given? && !(1 <= p.guests.value <= 20))
    ensures "notes" in v <==> p.notes.Given? && |p.notes.value| > 1000
    ensures "status" in v <==>
      p.status.Null? || (p.status.Given? && p.status.value !in {"pending", "confirmed", "cancelled"})
  {
    set key | key in RuledKeys && !Passes(key, p, today)
  }

  /**
   * What an accepted payload means, key by key: no required key is null;
   * names and contacts are non-blank and within 255, 255 and 50 characters;
   * the date is today or later; the time is the `H:i` form of a time of day;
   * the guest count is 1 .. 20; notes are at most 1000 characters; the
   * status is one of the enumeration's names.
   */
  ghost predicate MeetsRules(p: Payload, today: int) {
    && !p.fullName.Null? && !p.email.Null? && !p.phone.Null? && !p.bookingDate.Null?
    && !p.bookingTime.Null? && !p.guests.Null? && !p.status.Null?
    && (p.fullName.Given? ==> !Blank(p.fullName.value) && |p.fullName.value| <= DefaultStringLength)
    && (p.email.Given? ==> !Blank(p.email.value) && |p.email.value| <= DefaultStringLength)
    && (p.phone.Given? ==> !Blank(p.phone.value) && |p.phone.value| <= PhoneLength)
    && (p.bookingDate.Given? ==> today <= p.bookingDate.value)
    && (p.bookingTime.Given? ==> exists t :: 0 <= t < MinutesPerDay && FormatTime(t) == p.bookingTime.value)
    && (p.guests.Given? ==> 1 <= p.guests.value <= 20)
    && (p.notes.Given? ==> |p.notes.value| <= 1000)
    && (p.status.Given? ==> p.status.value in {"pending", "confirmed", "cancelled"})
  }

  /** The validator accepts a payload exactly when every key it carries meets its rule. */
  predicate Valid(p: Payload, today: int)
    ensures Valid(p, today) <==> MeetsRules(p, today)
  {
    var v := Violations(p, today);
    assert v == {} <==> forall k :: k in RuledKeys ==> k !in v;
    v == {}
  }

  /** Every key is optional: a body with no keys at all is accepted. */
  lemma NoChangesIsValid(today: int)
    ensures Valid(NoChanges, today)
  {
  }
}
