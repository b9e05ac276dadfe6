/** The loader of app/routes/api.available-times.ts: hourly 'HH:mm' slots
    from 09:00 up to (not including) 17:00 on the requested day, minus every
    slot whose start instant falls inside a booking of the contractor. The
    contractor's stored availability is not consulted. */
module AvailableTimesRoute {
  import opened Wrappers
  import opened Seqs
  import opened Clock
  import opened Store

  const OpeningHour: int := 9
  const ClosingHour: int := 17
  const SlotCount: int := ClosingHour - OpeningHour

  datatype Response = BadRequest(error: string) | Times(availableTimes: seq<string>)

  /** The start of slot `k`, in minutes since midnight. */
  function SlotMinute(k: int): int {
    (OpeningHour + k) * 60
  }

  /** The candidate slots: "09:00", "10:00", ..., "16:00". */
  function CandidateSlots(): (slots: seq<string>)
    ensures |slots| == SlotCount
  {
    seq(SlotCount, k requires 0 <= k < SlotCount => FormatHHmm(SlotMinute(k)))
  }

  /** Eight slots, an hour apart, strictly increasing, the last one ending at
      17:00. */
  lemma CandidateSlotsShape()
    ensures |CandidateSlots()| == 8
    ensures forall k :: 0 <= k < 8 ==> ParseHHmm(CandidateSlots()[k]) == Some(SlotMinute(k))
    ensures forall j, k :: 0 <= j < k < 8 ==> SlotMinute(j) < SlotMinute(k)
    ensures SlotMinute(0) == 9 * 60 && SlotMinute(7) + 60 == ClosingHour * 60
  {
    forall k | 0 <= k < 8 ensures ParseHHmm(CandidateSlots()[k]) == Some(SlotMinute(k)) {
      ParseFormatHHmm(SlotMinute(k));
    }
  }

  /** The slot-generation loop: start at 09:00 on the day, add an hour while
      the instant is before 17:00. */
  method GenerateSlots(dayStart: int) returns (allTimeSlots: seq<string>)
    ensures allTimeSlots == CandidateSlots()
  {
    var startOfDay := dayStart + OpeningHour * HourMs;
    var endOfDay := dayStart + ClosingHour * HourMs;
    allTimeSlots := [];
    var currentSlot := startOfDay;
    SlotOffset(0);
    while currentSlot < endOfDay
      invariant 0 <= |allTimeSlots| <= SlotCount
      invariant currentSlot == dayStart + SlotMinute(|allTimeSlots|) * MinuteMs
      invariant allTimeSlots == CandidateSlots()[..|allTimeSlots|]
      decreases endOfDay - currentSlot
    {
      var k := |allTimeSlots|;
      SlotOffset(k);
      SlotOffset(k + 1);
      assert MinuteOfDay(dayStart, currentSlot) == SlotMinute(k);
      assert CandidateSlots()[..k + 1] == CandidateSlots()[..k] + [FormatHHmm(SlotMinute(k))];
      allTimeSlots := allTimeSlots + [FormatHHmm(MinuteOfDay(dayStart, currentSlot))];
      currentSlot := currentSlot + HourMs;
    }
  }

  lemma SlotOffset(k: int)
    ensures SlotMinute(k) * MinuteMs == (OpeningHour + k) * HourMs
    ensures (SlotMinute(k) * MinuteMs) / MinuteMs == SlotMinute(k)
    ensures k <= SlotCount ==> SlotMinute(k) * MinuteMs <= ClosingHour * HourMs
    ensures k < SlotCount <==> SlotMinute(k) * MinuteMs < ClosingHour * HourMs
  {
  }

  /** The `where` clause of the loader's query. */
  predicate Considered(b: Booking, userId: string, dayStart: int) {
    b.contractorId == userId && dayStart + OpeningHour * HourMs <= b.startDateTime < dayStart + ClosingHour * HourMs
  }

  /** The bookings the loader fetches: this contractor's, starting in
      [09:00, 17:00) of the day. */
  function ConsideredBookings(bookings: seq<Booking>, userId: string, dayStart: int): (r: seq<Booking>)
    ensures IsSubsequence(r, bookings)
    ensures forall i :: 0 <= i < |r| ==>
      && r[i].contractorId == userId
      && dayStart + OpeningHour * HourMs <= r[i].startDateTime < dayStart + ClosingHour * HourMs
    ensures forall i :: 0 <= i < |bookings| ==>
      (bookings[i] in r <==>
        && bookings[i].contractorId == userId
        && dayStart + OpeningHour * HourMs <= bookings[i].startDateTime < dayStart + ClosingHour * HourMs)
    ensures forall b :: multiset(r)[b] == (if Considered(b, userId, dayStart) then multiset(bookings)[b] else 0)
  {
    var p := (b: Booking) =>
      b.contractorId == userId
      && dayStart + OpeningHour * HourMs <= b.startDateTime < dayStart + ClosingHour * HourMs;
    FilterCounts(p, bookings);
    assert forall b :: p(b) == Considered(b, userId, dayStart);
    Filter(p, bookings)
  }

  /** `existingBookings.some(b => t >= b.start && t < b.end)`. */
  predicate Taken(t: int, bookings: seq<Booking>) {
    exists i :: 0 <= i < |bookings| && bookings[i].startDateTime <= t < bookings[i].endDateTime
  }

  /** A slot stays unless its start instant is taken. A slot string that does
      not read as a time gives an invalid date, which compares false with
      every booking, so it stays. */
  predicate SlotFree(dayStart: int, bookings: seq<Booking>, slot: string) {
    match ParseHHmm(slot)
    case None => true
    case Some(m) => !Taken(dayStart + m * MinuteMs, bookings)
  }

  function AvailableTimes(dayStart: int, bookings: seq<Booking>, slots: seq<string>): (r: seq<string>)
    ensures IsSubsequence(r, slots)
  {
    Filter((s: string) => SlotFree(dayStart, bookings, s), slots)
  }

  /** The loader, given the query parameters (`""` for a missing one), the
      instant of local midnight of `date`, and the database. */
  method Loader(db: Db, date: string, dayStart: int, userId: string) returns (r: Response)
    ensures date == "" || userId == "" ==> r == BadRequest("Date and userId are required")
    ensures date != "" && userId != "" ==>
      r == Times(AvailableTimes(dayStart, ConsideredBookings(db.bookings, userId, dayStart), CandidateSlots()))
  {
    if date == "" || userId == "" {
      return BadRequest("Date and userId are required");
    }
    var existingBookings := ConsideredBookings(db.bookings, userId, dayStart);
    var allTimeSlots := GenerateSlots(dayStart);
    r := Times(AvailableTimes(dayStart, existingBookings, allTimeSlots));
  }

  /** The instant slot `k` starts at on the day. */
  function SlotInstant(dayStart: int, k: int): int {
    dayStart + SlotMinute(k) * MinuteMs
  }

  /** Slot `k` is listed exactly when no booking covers its start instant. */
  lemma SlotListedIff(dayStart: int, bookings: seq<Booking>, k: int)
    requires 0 <= k < SlotCount
    ensures CandidateSlots()[k] in AvailableTimes(dayStart, bookings, CandidateSlots())
        <==> !Taken(SlotInstant(dayStart, k), bookings)
  {
    CandidateSlotsShape();
    var slots := CandidateSlots();
    var r := AvailableTimes(dayStart, bookings, slots);
    if slots[k] in r {
      var j :| 0 <= j < |r| && r[j] == slots[k];
      assert SlotFree(dayStart, bookings, r[j]);
    }
  }

  /** A booking that ends exactly at a slot's start, or starts exactly an
      hour after it, does not remove the slot. */
  lemma AbuttingBookingKeepsSlot(dayStart: int, b: Booking, k: int)
    requires 0 <= k < SlotCount
    requires b.endDateTime == SlotInstant(dayStart, k) || b.startDateTime == SlotInstant(dayStart, k) + HourMs
    ensures CandidateSlots()[k] in AvailableTimes(dayStart, [b], CandidateSlots())
  {
    SlotListedIff(dayStart, [b], k);
  }

  /** Only start instants are tested: a booking covering the second half of
      a slot's hour leaves that slot listed. */
  lemma PartialOverlapKeepsSlot(dayStart: int, b: Booking, k: int)
    requires 0 <= k < SlotCount
    requires b.startDateTime == SlotInstant(dayStart, k) + 30 * MinuteMs
    requires b.endDateTime == SlotInstant(dayStart, k) + HourMs
    ensures CandidateSlots()[k] in AvailableTimes(dayStart, [b], CandidateSlots())
  {
    SlotListedIff(dayStart, [b], k);
  }

  /** A booking of exactly slot `k`'s hour removes slot `k` and no other. */
  lemma HourBookingRemovesOnlyItsSlot(dayStart: int, b: Booking, k: int, j: int)
    requires 0 <= k < SlotCount && 0 <= j < SlotCount
    requires b.startDateTime == SlotInstant(dayStart, k)
    requires b.endDateTime == SlotInstant(dayStart, k) + HourMs
    ensures CandidateSlots()[j] in AvailableTimes(dayStart, [b], CandidateSlots()) <==> j != k
  {
    SlotListedIff(dayStart, [b], j);
    HourCoversOnlyItsSlot(dayStart, k, j);
    var t := SlotInstant(dayStart, j);
    assert Taken(t, [b]) <==> b.startDateTime <= t < b.endDateTime by {
      if b.startDateTime <= t < b.endDateTime {
        assert [b][0] == b;
      }
    }
  }

  lemma HourCoversOnlyItsSlot(dayStart: int, k: int, j: int)
    ensures SlotInstant(dayStart, k) <= SlotInstant(dayStart, j) < SlotInstant(dayStart, k) + HourMs <==> j == k
  {
    if j < k {
      SlotsOrdered(j + 1, k);
      SlotOffset(j + 1);
      SlotOffset(j);
    } else if k < j {
      SlotsOrdered(k + 1, j);
      SlotOffset(k + 1);
      SlotOffset(k);
    }
  }

  lemma SlotsOrdered(i: int, j: int)
    requires i <= j
    ensures SlotMinute(i) * MinuteMs <= SlotMinute(j) * MinuteMs
  {
    SlotOffset(i);
    SlotOffset(j);
  }

  /** With no bookings every candidate slot is listed. */
  lemma NoBookingsAllSlots(dayStart: int)
    ensures AvailableTimes(dayStart, [], CandidateSlots()) == CandidateSlots()
  {
    FilterAllKept((s: string) => SlotFree(dayStart, [], s), CandidateSlots());
  }

  /** Filtering an already filtered list against the same bookings changes
      nothing. */
  lemma AvailableTimesIdempotent(dayStart: int, bookings: seq<Booking>, slots: seq<string>)
    ensures AvailableTimes(dayStart, bookings, AvailableTimes(dayStart, bookings, slots))
         == AvailableTimes(dayStart, bookings, slots)
  {
    FilterIdempotent((s: string) => SlotFree(dayStart, bookings, s), slots);
  }
}
