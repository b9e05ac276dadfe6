/** The availability table operations of app/models/availability.server.ts:
    a user's weekly rows are read back sorted by day, and replaced as a whole
    by two separate statements, a delete of all the user's rows and then an
    insert of the new ones. Nothing checks the entries: duplicate days and
    windows whose start is not before their end are stored as given. */
module AvailabilityModel {
  import opened Seqs
  import opened Store

  function DayOfWeek(a: AvailabilityRow): int {
    a.dayOfWeek
  }

  function RowsOf(rows: seq<AvailabilityRow>, userId: string): seq<AvailabilityRow> {
    Filter((a: AvailabilityRow) => a.userId == userId, rows)
  }

  function RowsNotOf(rows: seq<AvailabilityRow>, userId: string): seq<AvailabilityRow> {
    Filter((a: AvailabilityRow) => a.userId != userId, rows)
  }

  /** The (dayOfWeek, startTime, endTime) content of rows, in order. */
  function Entries(rows: seq<AvailabilityRow>): (r: seq<AvailabilityInput>)
    ensures |r| == |rows|
    ensures forall i :: 0 <= i < |rows| ==>
      r[i] == AvailabilityInput(rows[i].dayOfWeek, rows[i].startTime, rows[i].endTime)
  {
    seq(|rows|, i requires 0 <= i < |rows| =>
      AvailabilityInput(rows[i].dayOfWeek, rows[i].startTime, rows[i].endTime))
  }

  /** `getAvailabilityForUser`: exactly the user's rows, ascending by day. */
  function GetAvailabilityForUser(t: Tables, userId: string): (r: seq<AvailabilityRow>)
    ensures forall i :: 0 <= i < |r| ==> r[i].userId == userId && r[i] in t.availabilities
    ensures multiset(r) == multiset(RowsOf(t.availabilities, userId))
    ensures SortedBy(DayOfWeek, r)
  {
    var r := SortBy(DayOfWeek, RowsOf(t.availabilities, userId));
    assert forall i :: 0 <= i < |r| ==> r[i] in multiset(RowsOf(t.availabilities, userId));
    r
  }

  /** The database after `updateAllAvailabilities(userId, xs)`. */
  function ReplaceAll(t: Tables, userId: string, xs: seq<AvailabilityInput>): (r: Tables)
    ensures WellFormed(t) ==> WellFormed(r)
    ensures Entries(RowsOf(r.availabilities, userId)) == xs
    ensures RowsNotOf(r.availabilities, userId) == RowsNotOf(t.availabilities, userId)
    ensures r.users == t.users && r.invitations == t.invitations && r.bookings == t.bookings
  {
    var r := InsertAvailabilities(DeleteAvailabilities(t, userId), userId, xs);
    var kept := RowsNotOf(t.availabilities, userId);
    var added := NewAvailabilityRows(t.nextId, userId, xs);
    assert r.availabilities == kept + added;
    FilterAppend((a: AvailabilityRow) => a.userId == userId, kept, added);
    FilterNoneKept((a: AvailabilityRow) => a.userId == userId, kept);
    FilterAllKept((a: AvailabilityRow) => a.userId == userId, added);
    assert RowsOf(r.availabilities, userId) == added;
    FilterAppend((a: AvailabilityRow) => a.userId != userId, kept, added);
    FilterIdempotent((a: AvailabilityRow) => a.userId != userId, t.availabilities);
    FilterNoneKept((a: AvailabilityRow) => a.userId != userId, added);
    r
  }

  method UpdateAllAvailabilities(db: Db, userId: string, availabilities: seq<AvailabilityInput>)
    returns (r: seq<AvailabilityRow>)
    requires db.Valid()
    modifies db
    ensures db.Valid()
    ensures db.Snapshot() == ReplaceAll(old(db.Snapshot()), userId, availabilities)
    ensures r == GetAvailabilityForUser(db.Snapshot(), userId)
  {
    db.DeleteManyAvailabilities(userId);
    db.CreateManyAvailabilities(userId, availabilities);
    r := GetAvailabilityForUser(db.Snapshot(), userId);
  }

  /** None of the rows the user had before the replacement survives it. */
  lemma {:induction false} OldRowsGone(t: Tables, userId: string, xs: seq<AvailabilityInput>, a: AvailabilityRow)
    requires WellFormed(t)
    requires a in t.availabilities && a.userId == userId
    ensures a !in ReplaceAll(t, userId, xs).availabilities
  {
    var r := ReplaceAll(t, userId, xs);
    var kept := RowsNotOf(t.availabilities, userId);
    var added := NewAvailabilityRows(t.nextId, userId, xs);
    assert r.availabilities == kept + added;
    assert a !in kept;
  }

  /** Replacing twice with the same entries leaves the user the same entries,
      and everyone else the same rows, as replacing once. */
  lemma ReplaceAllIdempotent(t: Tables, userId: string, xs: seq<AvailabilityInput>)
    ensures var once := ReplaceAll(t, userId, xs);
            var twice := ReplaceAll(once, userId, xs);
            && Entries(RowsOf(twice.availabilities, userId)) == Entries(RowsOf(once.availabilities, userId))
            && RowsNotOf(twice.availabilities, userId) == RowsNotOf(once.availabilities, userId)
  {
  }
}
