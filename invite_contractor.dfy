/** The action of app/routes/invite-contractor.tsx, repeated word for word
    in app/routes/_app.invite-contractor.tsx. A team owner invites an
    address: a registered user is flagged with a pending invitation from
    this owner (replacing any earlier one); an unknown address gets an
    Invitation row that expires seven days later. */
module InviteContractorRoute {
  import opened Wrappers
  import opened Clock
  import opened Store

  /** `Date.now() + 7 * 24 * 60 * 60 * 1000`. */
  const InvitationLifetimeMs: int := 7 * 24 * 60 * 60 * 1000

  datatype Response = Sent(message: string) | Error(status: int, error: string)

  datatype Outcome = Outcome(tables: Tables, response: Response)

  const OnlyOwners := "Only team owners can invite contractors"
  const EmailRequired := "Email is required"
  const SentToExisting := "Invitation sent to existing user"
  const SentToNew := "Invitation sent to new user"
  const CreateFailed := "Failed to create invitation"

  /** The pending-invitation flag the action sets on an existing user. */
  function MarkInvited(teamOwnerId: string): User -> User {
    (u: User) => u.(invitedByTeamOwner := Some(teamOwnerId), hasUnreadInvitation := true)
  }

  /** The action for the signed-in `userId`, the form's `email` (`""` when
      missing), at instant `now`; `mailOk` says whether
      `sendInvitationEmail` succeeds. */
  function InviteAt(t: Tables, userId: string, email: string, now: int, mailOk: bool): (o: Outcome)
    ensures WellFormed(t) ==> WellFormed(o.tables)
  {
    var user := UserById(t.users, userId);
    if user.None? || user.value.role != "team_owner" then Outcome(t, Error(403, OnlyOwners))
    else if email == "" then Outcome(t, Error(400, EmailRequired))
    else match UserByEmail(t.users, email)
      case Some(existingUser) =>
        var t1 := UpdateUsers(t, (u: User) => u.id == existingUser.id, MarkInvited(userId));
        Outcome(t1, if mailOk then Sent(SentToExisting) else Error(500, CreateFailed))
      case None =>
        var t1 := InsertInvitation(t, email, userId, now, now + InvitationLifetimeMs);
        Outcome(t1, if mailOk then Sent(SentToNew) else Error(500, CreateFailed))
  }

  method Action(db: Db, userId: string, email: string, now: int, mailOk: bool) returns (response: Response)
    requires db.Valid()
    modifies db
    ensures db.Valid()
    ensures db.Snapshot() == InviteAt(old(db.Snapshot()), userId, email, now, mailOk).tables
    ensures response == InviteAt(old(db.Snapshot()), userId, email, now, mailOk).response
  {
    var user := UserById(db.users, userId);
    if user.None? || user.value.role != "team_owner" {
      return Error(403, OnlyOwners);
    }
    if email == "" {
      return Error(400, EmailRequired);
    }
    var existingUser := UserByEmail(db.users, email);
    if existingUser.Some? {
      var existingId := existingUser.value.id;
      var updated := db.UpdateUser((u: User) => u.id == existingId, MarkInvited(userId));
      assert existingUser.value in old(db.users);
      if !mailOk {
        return Error(500, CreateFailed);
      }
      response := Sent(SentToExisting);
    } else {
      var invitation := db.CreateInvitation(email, userId, now, now + InvitationLifetimeMs);
      if !mailOk {
        return Error(500, CreateFailed);
      }
      response := Sent(SentToNew);
    }
  }

  /** Only a registered team owner may invite, and only with an address;
      otherwise nothing changes. */
  lemma GuardsChangeNothing(t: Tables, userId: string, email: string, now: int, mailOk: bool)
    ensures var o := InviteAt(t, userId, email, now, mailOk);
      && ((forall i :: 0 <= i < |t.users| ==> t.users[i].id != userId) ==> o == Outcome(t, Error(403, OnlyOwners)))
      && (UserById(t.users, userId).Some? && UserById(t.users, userId).value.role != "team_owner"
          ==> o == Outcome(t, Error(403, OnlyOwners)))
      && (UserById(t.users, userId).Some? && UserById(t.users, userId).value.role == "team_owner" && email == ""
          ==> o == Outcome(t, Error(400, EmailRequired)))
  {
  }

  /** Inviting a registered address writes no invitation row: it sets that
      user's pending inviter to this owner, whatever it was before, marks
      the invitation unread, and leaves every other user as it was. The
      write stays when the e-mail fails. */
  lemma ExistingUserFlagged(t: Tables, userId: string, email: string, now: int, mailOk: bool, k: nat)
    requires UserById(t.users, userId).Some? && UserById(t.users, userId).value.role == "team_owner"
    requires email != "" && k < |t.users| && t.users[k].email == email
    requires forall j :: 0 <= j < k ==> t.users[j].email != email
    ensures var o := InviteAt(t, userId, email, now, mailOk);
      && o.tables.invitations == t.invitations && o.tables.bookings == t.bookings
      && o.tables.availabilities == t.availabilities && o.tables.nextId == t.nextId
      && |o.tables.users| == |t.users|
      && (forall j :: 0 <= j < |t.users| ==>
            o.tables.users[j] == if t.users[j].id == t.users[k].id
                                 then t.users[j].(invitedByTeamOwner := Some(userId), hasUnreadInvitation := true)
                                 else t.users[j])
      && o.response == if mailOk then Sent(SentToExisting) else Error(500, CreateFailed)
  {
    assert UserByEmail(t.users, email) == Some(t.users[k]) by {
      var r := UserByEmail(t.users, email);
      var m :| 0 <= m < |t.users| && t.users[m] == r.value && t.users[m].email == email
               && forall j :: 0 <= j < m ==> t.users[j].email != email;
      assert m == k;
    }
  }

  /** Inviting an unregistered address appends one invitation from this
      owner, expiring a week after `now`, and changes no user. */
  lemma NewAddressInvited(t: Tables, userId: string, email: string, now: int, mailOk: bool)
    requires UserById(t.users, userId).Some? && UserById(t.users, userId).value.role == "team_owner"
    requires email != "" && forall j :: 0 <= j < |t.users| ==> t.users[j].email != email
    ensures var o := InviteAt(t, userId, email, now, mailOk);
      && o.tables.invitations == t.invitations + [Invitation(t.nextId, email, userId, now, now + 7 * DayMs)]
      && o.tables.users == t.users
      && o.response == if mailOk then Sent(SentToNew) else Error(500, CreateFailed)
  {
  }

  /** When two owners invite the same registered user, the later one is the
      pending inviter. */
  lemma {:induction false} LastInviterWins(t: Tables, owner1: string, owner2: string, email: string, now: int, k: nat)
    requires UserById(t.users, owner1).Some? && UserById(t.users, owner1).value.role == "team_owner"
    requires UserById(t.users, owner2).Some? && UserById(t.users, owner2).value.role == "team_owner"
    requires email != "" && k < |t.users| && t.users[k].email == email
    requires forall j :: 0 <= j < k ==> t.users[j].email != email
    ensures var t1 := InviteAt(t, owner1, email, now, true).tables;
      var t2 := InviteAt(t1, owner2, email, now, true).tables;
      k < |t2.users| && t2.users[k].invitedByTeamOwner == Some(owner2) && t2.users[k].hasUnreadInvitation
  {
    ExistingUserFlagged(t, owner1, email, now, true, k);
    var t1 := InviteAt(t, owner1, email, now, true).tables;
    assert t1.users[k].email == email;
    assert forall j :: 0 <= j < |t1.users| ==>
      t1.users[j].id == t.users[j].id && t1.users[j].role == t.users[j].role && t1.users[j].email == t.users[j].email;
    assert forall j :: 0 <= j < k ==> t1.users[j].email != email;
    SameIdsSameLookup(t.users, t1.users, owner2);
    ExistingUserFlagged(t1, owner2, email, now, true, k);
  }

  /** Rows that keep their ids, roles and e-mails keep what an id lookup
      says about them. */
  lemma {:induction false} SameIdsSameLookup(users: seq<User>, users2: seq<User>, id: string)
    requires |users| == |users2|
    requires forall j :: 0 <= j < |users| ==>
      users2[j].id == users[j].id && users2[j].role == users[j].role && users2[j].email == users[j].email
    ensures UserById(users2, id).Some? == UserById(users, id).Some?
    ensures UserById(users, id).Some? ==> UserById(users2, id).value.role == UserById(users, id).value.role
    ensures UserById(users, id).Some? ==> UserById(users2, id).value.email == UserById(users, id).value.email
  {
    if users != [] {
      SameIdsSameLookup(users[1..], users2[1..], id);
    }
  }
}
