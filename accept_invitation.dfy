/** The loader and action of app/routes/accept-invitation.tsx, the page on
    which a signed-in user answers the pending invitation that
    invite-contractor set on their row. */
module AcceptInvitationRoute {
  import opened Wrappers
  import opened Store
  import InviteContractorRoute

  // ---- Loader ----

  /** `Thrown` is a `Response` the loader throws; `QueryRejected` is the
      error the database client raises when `findUnique` is given no id. */
  datatype LoaderResponse =
    | Thrown(status: int, message: string)
    | QueryRejected
    | OwnerEmail(teamOwnerEmail: Option<string>)

  /** The loader for the signed-in `userId` and the route's `invitationId`
      parameter, read as an invitation id; it is `None` when the route has
      no such segment, which is the case for accept-invitation.tsx. A
      pending inviter wins over the invitation; `teamOwner?.email` is absent
      when the inviter's row is gone. */
  function Loader(t: Tables, userId: string, invitationId: Option<nat>): (r: LoaderResponse)
    ensures UserById(t.users, userId).None? ==> r == Thrown(404, "User not found")
    ensures UserById(t.users, userId).Some? && Truthy(UserById(t.users, userId).value.invitedByTeamOwner) ==>
      var ownerId := UserById(t.users, userId).value.invitedByTeamOwner.value;
      r == OwnerEmail(if UserById(t.users, ownerId).Some? then Some(UserById(t.users, ownerId).value.email) else None)
    ensures UserById(t.users, userId).Some? && !Truthy(UserById(t.users, userId).value.invitedByTeamOwner) ==>
      && (invitationId.None? ==> r == QueryRejected)
      && (invitationId.Some? && InvitationById(t.invitations, invitationId.value).None? ==>
            r == Thrown(400, "Invalid invitation"))
      && (invitationId.Some? && InvitationById(t.invitations, invitationId.value).Some? ==>
            var ownerId := InvitationById(t.invitations, invitationId.value).value.teamOwnerId;
            r == OwnerEmail(if UserById(t.users, ownerId).Some? then Some(UserById(t.users, ownerId).value.email) else None))
  {
    match UserById(t.users, userId)
    case None => Thrown(404, "User not found")
    case Some(user) =>
      if Truthy(user.invitedByTeamOwner) then
        match UserById(t.users, user.invitedByTeamOwner.value)
        case Some(teamOwner) => OwnerEmail(Some(teamOwner.email))
        case None => OwnerEmail(None)
      else if invitationId.None? then QueryRejected
      else
        match InvitationById(t.invitations, invitationId.value)
        case None => Thrown(400, "Invalid invitation")
        case Some(invitation) =>
          match UserById(t.users, invitation.teamOwnerId)
          case Some(teamOwner) => OwnerEmail(Some(teamOwner.email))
          case None => OwnerEmail(None)
  }

  /** As mounted, the page names an owner only for a user with a pending
      inviter: without the route segment every other user gets an error. */
  lemma LoaderNeedsPendingInviter(t: Tables, userId: string)
    ensures Loader(t, userId, None).OwnerEmail? <==>
      UserById(t.users, userId).Some? && Truthy(UserById(t.users, userId).value.invitedByTeamOwner)
  {
  }

  // ---- Action ----

  datatype Response = RedirectTo(location: string) | Done(message: string) | Error(status: int, error: string)

  datatype Outcome = Outcome(tables: Tables, response: Response)

  /** The update of "accept": join the pending inviter's team as a
      contractor. `invitedBy` is the value read before the update. */
  function JoinPendingTeam(invitedBy: Option<string>): User -> User {
    (u: User) => u.(teamOwnerId := invitedBy, invitedByTeamOwner := None, role := "contractor",
                    hasUnreadInvitation := false)
  }

  /** The update of "reject": drop the pending invitation. */
  function DropPending(u: User): User {
    u.(invitedByTeamOwner := None, hasUnreadInvitation := false)
  }

  /** The action for the signed-in `userId` and the form's `action` field
      (`""` when missing). */
  function Respond(t: Tables, userId: string, action: string): (o: Outcome)
    ensures WellFormed(t) ==> WellFormed(o.tables)
  {
    match UserById(t.users, userId)
    case None => Outcome(t, Error(404, "User not found"))
    case Some(user) =>
      if action == "accept" then
        Outcome(UpdateUsers(t, (u: User) => u.id == userId, JoinPendingTeam(user.invitedByTeamOwner)),
                RedirectTo("/dashboard"))
      else if action == "reject" then
        Outcome(UpdateUsers(t, (u: User) => u.id == userId, DropPending), Done("Invitation rejected"))
      else Outcome(t, Error(400, "Invalid action"))
  }

  method Action(db: Db, userId: string, action: string) returns (response: Response)
    requires db.Valid()
    modifies db
    ensures db.Valid()
    ensures db.Snapshot() == Respond(old(db.Snapshot()), userId, action).tables
    ensures response == Respond(old(db.Snapshot()), userId, action).response
  {
    var user := UserById(db.users, userId);
    if user.None? {
      return Error(404, "User not found");
    }
    if action == "accept" {
      db.UpdateUsersWhere((u: User) => u.id == userId, JoinPendingTeam(user.value.invitedByTeamOwner));
      return RedirectTo("/dashboard");
    } else if action == "reject" {
      db.UpdateUsersWhere((u: User) => u.id == userId, DropPending);
      return Done("Invitation rejected");
    }
    response := Error(400, "Invalid action");
  }

  /** The row of `userId` the lookup finds. */
  lemma UserAt(users: seq<User>, userId: string, k: nat)
    requires k < |users| && users[k].id == userId
    requires forall j :: 0 <= j < k ==> users[j].id != userId
    ensures UserById(users, userId) == Some(users[k])
  {
    var r := UserById(users, userId);
    var m :| 0 <= m < |users| && users[m] == r.value && users[m].id == userId
             && forall j :: 0 <= j < m ==> users[j].id != userId;
    assert m == k;
  }

  /** Accepting makes the user a contractor of the pending inviter's team
      and clears the pending invitation; rejecting clears it and keeps team
      and role. No other field of the user, no other user and no other table
      changes, and afterwards no invitation is pending for the user. */
  lemma AnswerEffect(t: Tables, userId: string, action: string, k: nat)
    requires k < |t.users| && t.users[k].id == userId
    requires forall j :: 0 <= j < k ==> t.users[j].id != userId
    requires action == "accept" || action == "reject"
    ensures var o := Respond(t, userId, action);
      var u := t.users[k];
      && |o.tables.users| == |t.users|
      && (forall j :: 0 <= j < |t.users| && t.users[j].id != userId ==> o.tables.users[j] == t.users[j])
      && o.tables.users[k].invitedByTeamOwner.None? && !o.tables.users[k].hasUnreadInvitation
      && (action == "accept" ==>
            && o.tables.users[k] == u.(teamOwnerId := u.invitedByTeamOwner, invitedByTeamOwner := None,
                                       role := "contractor", hasUnreadInvitation := false)
            && o.response == RedirectTo("/dashboard"))
      && (action == "reject" ==>
            && o.tables.users[k] == u.(invitedByTeamOwner := None, hasUnreadInvitation := false)
            && o.response == Done("Invitation rejected"))
      && o.tables == t.(users := o.tables.users)
  {
    UserAt(t.users, userId, k);
  }

  /** Accepting with no pending inviter still runs the update: the user
      becomes a contractor with no team. */
  lemma AcceptWithoutPendingLeavesNoTeam(t: Tables, userId: string, k: nat)
    requires k < |t.users| && t.users[k].id == userId && t.users[k].invitedByTeamOwner.None?
    requires forall j :: 0 <= j < k ==> t.users[j].id != userId
    ensures var u := Respond(t, userId, "accept").tables.users[k];
      u.teamOwnerId.None? && u.role == "contractor"
  {
    AnswerEffect(t, userId, "accept", k);
  }

  /** An unknown user or an unknown action changes nothing. */
  lemma RefusedAnswerChangesNothing(t: Tables, userId: string, action: string)
    requires UserById(t.users, userId).None? || (action != "accept" && action != "reject")
    ensures Respond(t, userId, action).tables == t
    ensures Respond(t, userId, action).response.Error?
  {
  }

  /** A registered user invited through invite-contractor who then accepts
      ends up a contractor in the inviting owner's team. */
  lemma {:induction false} InviteThenAccept(t: Tables, ownerId: string, email: string, now: int, k: nat)
    requires UserById(t.users, ownerId).Some? && UserById(t.users, ownerId).value.role == "team_owner"
    requires email != "" && k < |t.users| && t.users[k].email == email
    requires forall j :: 0 <= j < k ==> t.users[j].email != email
    requires forall j :: 0 <= j < k ==> t.users[j].id != t.users[k].id
    ensures var t1 := InviteContractorRoute.InviteAt(t, ownerId, email, now, true).tables;
      var t2 := Respond(t1, t.users[k].id, "accept").tables;
      && t2.users[k].teamOwnerId == Some(ownerId)
      && t2.users[k].role == "contractor"
      && t2.users[k].invitedByTeamOwner.None?
  {
    InviteContractorRoute.ExistingUserFlagged(t, ownerId, email, now, true, k);
    var t1 := InviteContractorRoute.InviteAt(t, ownerId, email, now, true).tables;
    assert t1.users[k].invitedByTeamOwner == Some(ownerId);
    assert forall j :: 0 <= j < k ==> t1.users[j].id != t.users[k].id;
    AnswerEffect(t1, t.users[k].id, "accept", k);
  }

  /** After invite-contractor flags a registered user, that user's page
      names the inviting owner, whatever invitation id the route carries. */
  lemma {:induction false} InvitedUserSeesOwner(t: Tables, ownerId: string, email: string, now: int, k: nat,
                                                invitationId: Option<nat>)
    requires ownerId != ""
    requires UserById(t.users, ownerId).Some? && UserById(t.users, ownerId).value.role == "team_owner"
    requires email != "" && k < |t.users| && t.users[k].email == email
    requires forall j :: 0 <= j < k ==> t.users[j].email != email
    requires forall j :: 0 <= j < k ==> t.users[j].id != t.users[k].id
    ensures var t1 := InviteContractorRoute.InviteAt(t, ownerId, email, now, true).tables;
      Loader(t1, t.users[k].id, invitationId) == OwnerEmail(Some(UserById(t.users, ownerId).value.email))
  {
    InviteContractorRoute.ExistingUserFlagged(t, ownerId, email, now, true, k);
    var t1 := InviteContractorRoute.InviteAt(t, ownerId, email, now, true).tables;
    assert forall j :: 0 <= j < k ==> t1.users[j].id != t.users[k].id;
    UserAt(t1.users, t.users[k].id, k);
    InviteContractorRoute.SameIdsSameLookup(t.users, t1.users, ownerId);
  }
}
