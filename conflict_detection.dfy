/** The booking-conflict filter of app/utils/conflictDetection.ts. Every
    booking, the new one included, is taken to last exactly one hour from its
    `dateTime`; no other field of a booking is read. */
module ConflictDetection {
  import opened Seqs
  import opened Clock

  /** The part of a booking the filter reads: its start instant in ms. */
  datatype ExtendedBooking = ExtendedBooking(id: nat, dateTime: int)

  /** The assumed duration of every booking. */
  const BookingLengthMs: int := HourMs

  /** The three-disjunct test as the source writes it. */
  predicate Overlaps(newStart: int, newEnd: int, bookingStart: int, bookingEnd: int) {
    || (newStart >= bookingStart && newStart < bookingEnd)
    || (newEnd > bookingStart && newEnd <= bookingEnd)
    || (newStart <= bookingStart && newEnd >= bookingEnd)
  }

  /** The canonical half-open interval overlap test. */
  predicate HalfOpenOverlap(aStart: int, aEnd: int, bStart: int, bEnd: int) {
    aStart < bEnd && bStart < aEnd
  }

  predicate Conflicts(newBooking: ExtendedBooking, booking: ExtendedBooking) {
    Overlaps(newBooking.dateTime, newBooking.dateTime + BookingLengthMs,
             booking.dateTime, booking.dateTime + BookingLengthMs)
  }

  /** `detectConflicts`: the existing bookings that conflict with the new one,
      in their original order. */
  function DetectConflicts(newBooking: ExtendedBooking, existingBookings: seq<ExtendedBooking>)
    : (r: seq<ExtendedBooking>)
    ensures IsSubsequence(r, existingBookings)
    ensures forall i :: 0 <= i < |r| ==>
      r[i] in existingBookings && Conflicts(newBooking, r[i])
    ensures forall i :: 0 <= i < |existingBookings| && Conflicts(newBooking, existingBookings[i]) ==>
      existingBookings[i] in r
    ensures forall b :: multiset(r)[b] == if Conflicts(newBooking, b) then multiset(existingBookings)[b] else 0
  {
    FilterCounts((b: ExtendedBooking) => Conflicts(newBooking, b), existingBookings);
    Filter((b: ExtendedBooking) => Conflicts(newBooking, b), existingBookings)
  }

  /** For non-empty intervals the three disjuncts are exactly half-open
      overlap. */
  lemma OverlapsIsHalfOpenOverlap(newStart: int, newEnd: int, bookingStart: int, bookingEnd: int)
    requires newStart < newEnd && bookingStart < bookingEnd
    ensures Overlaps(newStart, newEnd, bookingStart, bookingEnd)
        <==> HalfOpenOverlap(newStart, newEnd, bookingStart, bookingEnd)
  {
  }

  /** Two one-hour bookings conflict exactly when their starts are less than
      an hour apart. */
  lemma ConflictsWithinAnHour(newBooking: ExtendedBooking, booking: ExtendedBooking)
    ensures Conflicts(newBooking, booking)
        <==> -BookingLengthMs < newBooking.dateTime - booking.dateTime < BookingLengthMs
  {
    OverlapsIsHalfOpenOverlap(newBooking.dateTime, newBooking.dateTime + BookingLengthMs,
                              booking.dateTime, booking.dateTime + BookingLengthMs);
  }

  lemma ConflictSymmetric(a: ExtendedBooking, b: ExtendedBooking)
    ensures Conflicts(a, b) <==> Conflicts(b, a)
  {
    ConflictsWithinAnHour(a, b);
    ConflictsWithinAnHour(b, a);
  }

  /** A booking that ends exactly when the new one starts, or starts exactly
      when it ends, is not reported. */
  lemma AbuttingNotReported(newBooking: ExtendedBooking, existingBookings: seq<ExtendedBooking>, i: nat)
    requires i < |existingBookings|
    requires existingBookings[i].dateTime + BookingLengthMs == newBooking.dateTime
          || existingBookings[i].dateTime == newBooking.dateTime + BookingLengthMs
    ensures existingBookings[i] !in DetectConflicts(newBooking, existingBookings)
  {
    ConflictsWithinAnHour(newBooking, existingBookings[i]);
  }

  /** A booking that starts at the same instant as the new one is reported. */
  lemma SameStartReported(newBooking: ExtendedBooking, existingBookings: seq<ExtendedBooking>, i: nat)
    requires i < |existingBookings|
    requires existingBookings[i].dateTime == newBooking.dateTime
    ensures existingBookings[i] in DetectConflicts(newBooking, existingBookings)
  {
  }
}
