/** The invitation functions of app/models/invite.server.ts: listing a team
    owner's invitations and an invitee's invitations newest first, creating
    an invitation that expires seven days later, and the guarded
    `inviteContractor`. The same invitee listing in
    app/models/invitation.server.ts is this module's `GetInvitations`. */
module InviteModel {
  import opened Wrappers
  import opened Seqs
  import opened Clock
  import opened Store

  /** `expiresAt.setDate(expiresAt.getDate() + 7)`. */
  const InvitationLifetimeMs: int := 7 * DayMs

  const AlreadyInTeam := "This contractor is already in your team."
  const AlreadyTeamOwner := "This user is already a team owner and cannot be invited as a contractor."
  const AlreadyInvited := "An invitation has already been sent to this email."
  /** Stands for whatever error the mail transport raises: a failing
      `sendInvitationEmail` rethrows it, so the source has no fixed text for
      this case, and the text here is the model's own. */
  const MailFailed := "Failed to send invitation email"

  /** `orderBy: { createdAt: 'desc' }` as an ascending key. */
  function NewestFirstKey(v: Invitation): int {
    -v.createdAt
  }

  /** `invitation.findMany({ where, orderBy: { createdAt: 'desc' } })`. */
  function FindManyNewestFirst(where: Invitation -> bool, invitations: seq<Invitation>): (r: seq<Invitation>)
    ensures forall v :: multiset(r)[v] == if where(v) then multiset(invitations)[v] else 0
    ensures forall i, j :: 0 <= i < j < |r| ==> r[i].createdAt >= r[j].createdAt
  {
    var r := SortBy(NewestFirstKey, Filter(where, invitations));
    forall v ensures multiset(r)[v] == if where(v) then multiset(invitations)[v] else 0 {
      FilterMultiset(where, invitations, v);
    }
    r
  }

  /** `getInvitationsByTeamOwner`: the owner's invitations, all of them,
      newest first. */
  function GetInvitationsByTeamOwner(invitations: seq<Invitation>, teamOwnerId: string): (r: seq<Invitation>)
    ensures forall v :: multiset(r)[v] == if v.teamOwnerId == teamOwnerId then multiset(invitations)[v] else 0
    ensures forall i, j :: 0 <= i < j < |r| ==> r[i].createdAt >= r[j].createdAt
  {
    FindManyNewestFirst((v: Invitation) => v.teamOwnerId == teamOwnerId, invitations)
  }

  /** `getInvitations`: the invitations sent to `email`, all of them,
      newest first. */
  function GetInvitations(invitations: seq<Invitation>, email: string): (r: seq<Invitation>)
    ensures forall v :: multiset(r)[v] == if v.email == email then multiset(invitations)[v] else 0
    ensures forall i, j :: 0 <= i < j < |r| ==> r[i].createdAt >= r[j].createdAt
  {
    FindManyNewestFirst((v: Invitation) => v.email == email, invitations)
  }

  /** The guard of `inviteContractor`: the error it throws, if any. */
  function InviteRefusal(t: Tables, teamOwnerId: string, email: string): Option<string> {
    var existingUser := UserByEmail(t.users, email);
    if existingUser.Some? && existingUser.value.role == "contractor"
       && existingUser.value.teamOwnerId == Some(teamOwnerId) then Some(AlreadyInTeam)
    else if existingUser.Some? && existingUser.value.role == "team_owner" then Some(AlreadyTeamOwner)
    else if FindFirst((v: Invitation) => v.email == email && v.teamOwnerId == teamOwnerId, t.invitations).Some? then
      Some(AlreadyInvited)
    else None
  }

  /** The database after a call, and what the call returns or throws. */
  datatype InviteOutcome = InviteOutcome(tables: Tables, result: Result<Invitation, string>)

  /** `createInvitation` at instant `now`; `mailOk` says whether the e-mail
      is sent. The row is written before the e-mail, so it stays when the
      e-mail fails. */
  function CreateInvitationAt(t: Tables, teamOwnerId: string, email: string, now: int, mailOk: bool): (o: InviteOutcome)
    ensures WellFormed(t) ==> WellFormed(o.tables)
  {
    var t1 := InsertInvitation(t, email, teamOwnerId, now, now + InvitationLifetimeMs);
    InviteOutcome(t1,
      if mailOk then Success(NewInvitationRow(t, email, teamOwnerId, now, now + InvitationLifetimeMs))
      else Failure(MailFailed))
  }

  /** `inviteContractor`: the guard, then `createInvitation`. */
  function InviteContractorAt(t: Tables, teamOwnerId: string, email: string, now: int, mailOk: bool): (o: InviteOutcome)
    ensures WellFormed(t) ==> WellFormed(o.tables)
  {
    match InviteRefusal(t, teamOwnerId, email)
    case Some(e) => InviteOutcome(t, Failure(e))
    case None => CreateInvitationAt(t, teamOwnerId, email, now, mailOk)
  }

  method CreateInvitation(db: Db, teamOwnerId: string, email: string, now: int, mailOk: bool)
    returns (r: Result<Invitation, string>)
    requires db.Valid()
    modifies db
    ensures db.Valid()
    ensures db.Snapshot() == CreateInvitationAt(old(db.Snapshot()), teamOwnerId, email, now, mailOk).tables
    ensures r == CreateInvitationAt(old(db.Snapshot()), teamOwnerId, email, now, mailOk).result
  {
    var expiresAt := now + InvitationLifetimeMs;
    var invitation := db.CreateInvitation(email, teamOwnerId, now, expiresAt);
    if !mailOk {
      return Failure(MailFailed);
    }
    r := Success(invitation);
  }

  method InviteContractor(db: Db, teamOwnerId: string, email: string, now: int, mailOk: bool)
    returns (r: Result<Invitation, string>)
    requires db.Valid()
    modifies db
    ensures db.Valid()
    ensures db.Snapshot() == InviteContractorAt(old(db.Snapshot()), teamOwnerId, email, now, mailOk).tables
    ensures r == InviteContractorAt(old(db.Snapshot()), teamOwnerId, email, now, mailOk).result
  {
    var existingUser := UserByEmail(db.users, email);
    if existingUser.Some? {
      if existingUser.value.role == "contractor" && existingUser.value.teamOwnerId == Some(teamOwnerId) {
        return Failure(AlreadyInTeam);
      }
      if existingUser.value.role == "team_owner" {
        return Failure(AlreadyTeamOwner);
      }
    }
    var existingInvitation := FindFirst((v: Invitation) => v.email == email && v.teamOwnerId == teamOwnerId, db.invitations);
    if existingInvitation.Some? {
      return Failure(AlreadyInvited);
    }
    r := CreateInvitation(db, teamOwnerId, email, now, mailOk);
  }

  /** With unique e-mails, an invitation is refused exactly when the
      address belongs to a contractor of this team or to a team owner, or
      this owner has already invited it. A contractor of another team can
      be invited. */
  lemma InviteRefusedIff(t: Tables, teamOwnerId: string, email: string)
    requires EmailsUnique(t.users)
    ensures InviteRefusal(t, teamOwnerId, email).Some? <==>
      || (exists i :: 0 <= i < |t.users| && t.users[i].email == email
            && ((t.users[i].role == "contractor" && t.users[i].teamOwnerId == Some(teamOwnerId))
                || t.users[i].role == "team_owner"))
      || (exists j :: 0 <= j < |t.invitations| && t.invitations[j].email == email
            && t.invitations[j].teamOwnerId == teamOwnerId)
  {
    var existingUser := UserByEmail(t.users, email);
    if i :| 0 <= i < |t.users| && t.users[i].email == email {
      assert existingUser == Some(t.users[i]) by {
        var k :| 0 <= k < |t.users| && t.users[k] == existingUser.value && t.users[k].email == email;
        assert k == i;
      }
    }
  }

  /** A refused invitation changes nothing. */
  lemma RefusalChangesNothing(t: Tables, teamOwnerId: string, email: string, now: int, mailOk: bool)
    requires InviteRefusal(t, teamOwnerId, email).Some?
    ensures InviteContractorAt(t, teamOwnerId, email, now, mailOk)
         == InviteOutcome(t, Failure(InviteRefusal(t, teamOwnerId, email).value))
  {
  }

  /** An invitation that passes the guard appends one row for this address
      and owner, created now and expiring seven days later, and touches no
      other table, whether or not the e-mail goes out. */
  lemma InviteWrites(t: Tables, teamOwnerId: string, email: string, now: int, mailOk: bool)
    requires InviteRefusal(t, teamOwnerId, email).None?
    ensures var o := InviteContractorAt(t, teamOwnerId, email, now, mailOk);
      && o.tables.invitations == t.invitations + [Invitation(t.nextId, email, teamOwnerId, now, now + 7 * DayMs)]
      && o.tables.users == t.users && o.tables.bookings == t.bookings
      && o.tables.availabilities == t.availabilities
      && (o.result.Success? <==> mailOk)
      && (mailOk ==> o.result.value.expiresAt - o.result.value.createdAt == 7 * 24 * HourMs)
  {
  }

  /** Inviting the same address twice is refused the second time, even when
      the first e-mail failed. */
  lemma {:induction false} RepeatInviteRefused(t: Tables, teamOwnerId: string, email: string, now: int, mailOk: bool,
                                               later: int, laterMailOk: bool)
    requires InviteRefusal(t, teamOwnerId, email).None?
    ensures var t1 := InviteContractorAt(t, teamOwnerId, email, now, mailOk).tables;
      InviteContractorAt(t1, teamOwnerId, email, later, laterMailOk) == InviteOutcome(t1, Failure(AlreadyInvited))
  {
    var t1 := InviteContractorAt(t, teamOwnerId, email, now, mailOk).tables;
    var p := (v: Invitation) => v.email == email && v.teamOwnerId == teamOwnerId;
    assert p(t1.invitations[|t.invitations|]);
    assert UserByEmail(t1.users, email) == UserByEmail(t.users, email);
  }

  /** The new invitation shows up in the owner's list and in the invitee's
      list. */
  lemma NewInvitationListed(t: Tables, teamOwnerId: string, email: string, now: int, mailOk: bool)
    requires InviteRefusal(t, teamOwnerId, email).None?
    ensures var o := InviteContractorAt(t, teamOwnerId, email, now, mailOk);
      var v := NewInvitationRow(t, email, teamOwnerId, now, now + InvitationLifetimeMs);
      && v in GetInvitationsByTeamOwner(o.tables.invitations, teamOwnerId)
      && v in GetInvitations(o.tables.invitations, email)
  {
    var o := InviteContractorAt(t, teamOwnerId, email, now, mailOk);
    var v := NewInvitationRow(t, email, teamOwnerId, now, now + InvitationLifetimeMs);
    assert o.tables.invitations[|t.invitations|] == v;
    assert multiset(o.tables.invitations)[v] > 0;
    assert multiset(GetInvitationsByTeamOwner(o.tables.invitations, teamOwnerId))[v] > 0;
    assert multiset(GetInvitations(o.tables.invitations, email))[v] > 0;
  }
}
