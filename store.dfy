/** The persistent tables the core reads and writes (User, Invitation,
    Booking, Availability) and the database client whose calls change them.
    Each client call is one abstract read or write; a call that the ORM
    rejects (an update or delete of a missing row) reports `false`. Row ids
    the database generates are drawn from `nextId`. */
module Store {
  import opened Wrappers
  import opened Seqs

  /** A User row; `None` is a SQL NULL. `role` and `tier` are free strings
      ('team_owner', 'contractor', ...; 'basic', 'pro', ...). */
  datatype User = User(
    id: string,
    email: string,
    role: string,
    tier: string,
    usageCount: int,
    apiKey: Option<string>,
    teamOwnerId: Option<string>,
    invitedByTeamOwner: Option<string>,
    hasUnreadInvitation: bool)

  datatype Invitation = Invitation(
    id: nat,
    email: string,
    teamOwnerId: string,
    createdAt: int,
    expiresAt: int)

  datatype Booking = Booking(
    id: nat,
    contractorId: string,
    teamOwnerId: string,
    customerFirstName: string,
    customerLastName: string,
    customerEmail: string,
    city: string,
    state: string,
    address: string,
    description: string,
    startDateTime: int,
    endDateTime: int)

  datatype AvailabilityRow = AvailabilityRow(
    id: nat,
    userId: string,
    dayOfWeek: int,
    startTime: string,
    endTime: string)

  /** The data of one availability row, as a caller supplies it. */
  datatype AvailabilityInput = AvailabilityInput(dayOfWeek: int, startTime: string, endTime: string)

  /** A snapshot of the whole database. */
  datatype Tables = Tables(
    users: seq<User>,
    invitations: seq<Invitation>,
    bookings: seq<Booking>,
    availabilities: seq<AvailabilityRow>,
    nextId: nat)

  /** Generated ids are unique within their table and below `nextId`. */
  predicate WellFormed(t: Tables) {
    && (forall i :: 0 <= i < |t.invitations| ==> t.invitations[i].id < t.nextId)
    && (forall i :: 0 <= i < |t.bookings| ==> t.bookings[i].id < t.nextId)
    && (forall i :: 0 <= i < |t.availabilities| ==> t.availabilities[i].id < t.nextId)
    && DistinctBy((v: Invitation) => v.id, t.invitations)
    && DistinctBy((b: Booking) => b.id, t.bookings)
    && DistinctBy((a: AvailabilityRow) => a.id, t.availabilities)
  }

  /** `email` is a unique column of User (it is looked up with
      `findUnique`). */
  predicate EmailsUnique(users: seq<User>) {
    forall i, j :: 0 <= i < j < |users| ==> users[i].email != users[j].email
  }

  // ---- Lookups (findUnique / findFirst) ----

  function UserById(users: seq<User>, id: string): Option<User> {
    FindFirst((u: User) => u.id == id, users)
  }

  function UserByEmail(users: seq<User>, email: string): Option<User> {
    FindFirst((u: User) => u.email == email, users)
  }

  function UserByApiKey(users: seq<User>, apiKey: string): Option<User> {
    FindFirst((u: User) => u.apiKey == Some(apiKey), users)
  }

  function InvitationById(invitations: seq<Invitation>, id: nat): Option<Invitation> {
    FindFirst((v: Invitation) => v.id == id, invitations)
  }

  // ---- Writes, as functions of the snapshot ----

  /** `user.updateMany`: every row satisfying `p` is replaced by `f` of it. */
  function UpdateUsers(t: Tables, p: User -> bool, f: User -> User): (r: Tables)
    ensures WellFormed(t) ==> WellFormed(r)
  {
    t.(users := MapWhere(p, f, t.users))
  }

  function NewInvitationRow(t: Tables, email: string, teamOwnerId: string, createdAt: int, expiresAt: int): Invitation {
    Invitation(t.nextId, email, teamOwnerId, createdAt, expiresAt)
  }

  /** `invitation.create`. */
  function InsertInvitation(t: Tables, email: string, teamOwnerId: string, createdAt: int, expiresAt: int): (r: Tables)
    ensures WellFormed(t) ==> WellFormed(r)
  {
    t.(invitations := t.invitations + [NewInvitationRow(t, email, teamOwnerId, createdAt, expiresAt)],
       nextId := t.nextId + 1)
  }

  /** `invitation.delete` by id, once the row is known to exist. */
  function DeleteInvitation(t: Tables, id: nat): (r: Tables)
    ensures WellFormed(t) ==> WellFormed(r)
  {
    FilterKeepsDistinct((v: Invitation) => v.id, (v: Invitation) => v.id != id, t.invitations);
    t.(invitations := Filter((v: Invitation) => v.id != id, t.invitations))
  }

  /** `booking.create`: the row as given, with a generated id. */
  function InsertBooking(t: Tables, data: Booking): (r: Tables)
    ensures WellFormed(t) ==> WellFormed(r)
  {
    t.(bookings := t.bookings + [data.(id := t.nextId)], nextId := t.nextId + 1)
  }

  /** `availability.deleteMany({ where: { userId } })`. */
  function DeleteAvailabilities(t: Tables, userId: string): (r: Tables)
    ensures WellFormed(t) ==> WellFormed(r)
  {
    FilterKeepsDistinct((a: AvailabilityRow) => a.id, (a: AvailabilityRow) => a.userId != userId, t.availabilities);
    t.(availabilities := Filter((a: AvailabilityRow) => a.userId != userId, t.availabilities))
  }

  /** The rows `createMany` adds for `userId`, ids counted up from `firstId`. */
  function NewAvailabilityRows(firstId: nat, userId: string, xs: seq<AvailabilityInput>): (rows: seq<AvailabilityRow>)
    ensures |rows| == |xs|
    ensures forall i :: 0 <= i < |xs| ==>
      rows[i] == AvailabilityRow(firstId + i, userId, xs[i].dayOfWeek, xs[i].startTime, xs[i].endTime)
  {
    seq(|xs|, i requires 0 <= i < |xs| =>
      AvailabilityRow(firstId + i, userId, xs[i].dayOfWeek, xs[i].startTime, xs[i].endTime))
  }

  /** `availability.createMany`. */
  function InsertAvailabilities(t: Tables, userId: string, xs: seq<AvailabilityInput>): (r: Tables)
    ensures WellFormed(t) ==> WellFormed(r)
  {
    t.(availabilities := t.availabilities + NewAvailabilityRows(t.nextId, userId, xs),
       nextId := t.nextId + |xs|)
  }

  /** The Prisma client: one field per table. */
  class Db {
    var users: seq<User>
    var invitations: seq<Invitation>
    var bookings: seq<Booking>
    var availabilities: seq<AvailabilityRow>
    var nextId: nat

    function Snapshot(): Tables
      reads this
    {
      Tables(users, invitations, bookings, availabilities, nextId)
    }

    ghost predicate Valid()
      reads this
    {
      WellFormed(Snapshot())
    }

    constructor (t: Tables)
      requires WellFormed(t)
      ensures Valid() && Snapshot() == t
    {
      users, invitations, bookings, availabilities, nextId :=
        t.users, t.invitations, t.bookings, t.availabilities, t.nextId;
    }

    /** `user.update`: fails, changing nothing, when no row satisfies `p`. */
    method UpdateUser(p: User -> bool, f: User -> User) returns (ok: bool)
      requires Valid()
      modifies this
      ensures Valid()
      ensures ok == (FindFirst(p, old(users)).Some?)
      ensures Snapshot() == if ok then UpdateUsers(old(Snapshot()), p, f) else old(Snapshot())
    {
      ok := FindFirst(p, users).Some?;
      if ok {
        users := MapWhere(p, f, users);
      }
    }

    /** `user.update` on a row known to exist, or `updateMany`. */
    method UpdateUsersWhere(p: User -> bool, f: User -> User)
      requires Valid()
      modifies this
      ensures Valid()
      ensures Snapshot() == UpdateUsers(old(Snapshot()), p, f)
    {
      users := MapWhere(p, f, users);
    }

    method CreateInvitation(email: string, teamOwnerId: string, createdAt: int, expiresAt: int)
      returns (v: Invitation)
      requires Valid()
      modifies this
      ensures Valid()
      ensures v == NewInvitationRow(old(Snapshot()), email, teamOwnerId, createdAt, expiresAt)
      ensures Snapshot() == InsertInvitation(old(Snapshot()), email, teamOwnerId, createdAt, expiresAt)
    {
      v := Invitation(nextId, email, teamOwnerId, createdAt, expiresAt);
      invitations := invitations + [v];
      nextId := nextId + 1;
    }

    /** `invitation.delete`: fails, changing nothing, when the id is unknown. */
    method RemoveInvitation(id: nat) returns (ok: bool)
      requires Valid()
      modifies this
      ensures Valid()
      ensures ok == InvitationById(old(invitations), id).Some?
      ensures Snapshot() == if ok then DeleteInvitation(old(Snapshot()), id) else old(Snapshot())
    {
      ok := InvitationById(invitations, id).Some?;
      if ok {
        ghost var t := Snapshot();
        invitations := Filter((v: Invitation) => v.id != id, invitations);
        assert Snapshot() == DeleteInvitation(t, id);
      }
    }

    method CreateBooking(data: Booking) returns (b: Booking)
      requires Valid()
      modifies this
      ensures Valid()
      ensures b == data.(id := old(nextId))
      ensures Snapshot() == InsertBooking(old(Snapshot()), data)
    {
      b := data.(id := nextId);
      bookings := bookings + [b];
      nextId := nextId + 1;
    }

    method DeleteManyAvailabilities(userId: string)
      requires Valid()
      modifies this
      ensures Valid()
      ensures Snapshot() == DeleteAvailabilities(old(Snapshot()), userId)
    {
      ghost var t := Snapshot();
      availabilities := Filter((a: AvailabilityRow) => a.userId != userId, availabilities);
      assert Snapshot() == DeleteAvailabilities(t, userId);
    }

    method CreateManyAvailabilities(userId: string, xs: seq<AvailabilityInput>)
      requires Valid()
      modifies this
      ensures Valid()
      ensures Snapshot() == InsertAvailabilities(old(Snapshot()), userId, xs)
    {
      availabilities := availabilities + NewAvailabilityRows(nextId, userId, xs);
      nextId := nextId + |xs|;
    }
  }
}
