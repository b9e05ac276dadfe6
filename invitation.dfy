/** Accepting and declining an invitation, as app/models/invitation.server.ts
    does it. Accepting sets the invitee's team and deletes the invitation;
    it reads neither the expiry date nor the invitee's role. Declining only
    deletes the invitation. Each call either completes or throws the ORM's
    error, with the writes made before the error kept. */
module InvitationModel {
  import opened Wrappers
  import opened Seqs
  import opened Store

  const NotFound := "Invitation not found"
  const NoUserToUpdate := "Record to update not found."
  const NoRowToDelete := "Record to delete does not exist."

  /** The database after a call, and the error it throws (`None` when it
      completes). */
  datatype Outcome = Outcome(tables: Tables, error: Option<string>)

  function JoinTeam(teamOwnerId: string): User -> User {
    (u: User) => u.(teamOwnerId := Some(teamOwnerId))
  }

  /** `acceptInvitation(invitationId)`. */
  function AcceptInvitation(t: Tables, id: nat): (o: Outcome)
    ensures WellFormed(t) ==> WellFormed(o.tables)
  {
    match InvitationById(t.invitations, id)
    case None => Outcome(t, Some(NotFound))
    case Some(invitation) =>
      if UserByEmail(t.users, invitation.email).None? then Outcome(t, Some(NoUserToUpdate))
      else
        var t1 := UpdateUsers(t, (u: User) => u.email == invitation.email, JoinTeam(invitation.teamOwnerId));
        Outcome(DeleteInvitation(t1, id), None)
  }

  /** `declineInvitation(invitationId)`. */
  function DeclineInvitation(t: Tables, id: nat): (o: Outcome)
    ensures WellFormed(t) ==> WellFormed(o.tables)
  {
    if InvitationById(t.invitations, id).None? then Outcome(t, Some(NoRowToDelete))
    else Outcome(DeleteInvitation(t, id), None)
  }

  method Accept(db: Db, id: nat) returns (error: Option<string>)
    requires db.Valid()
    modifies db
    ensures db.Valid()
    ensures db.Snapshot() == AcceptInvitation(old(db.Snapshot()), id).tables
    ensures error == AcceptInvitation(old(db.Snapshot()), id).error
  {
    var invitation := InvitationById(db.invitations, id);
    if invitation.None? {
      return Some(NotFound);
    }
    var teamOwnerId := invitation.value.teamOwnerId;
    var email := invitation.value.email;
    var updated := db.UpdateUser((u: User) => u.email == email, JoinTeam(teamOwnerId));
    if !updated {
      assert FindFirst((u: User) => u.email == email, old(db.users)).None?;
      return Some(NoUserToUpdate);
    }
    var deleted := db.RemoveInvitation(id);
    error := None;
  }

  method Decline(db: Db, id: nat) returns (error: Option<string>)
    requires db.Valid()
    modifies db
    ensures db.Valid()
    ensures db.Snapshot() == DeclineInvitation(old(db.Snapshot()), id).tables
    ensures error == DeclineInvitation(old(db.Snapshot()), id).error
  {
    var deleted := db.RemoveInvitation(id);
    error := if deleted then None else Some(NoRowToDelete);
  }

  /** With unique ids, the lookup finds the row carrying the id. */
  lemma InvitationAt(t: Tables, id: nat, i: nat)
    requires WellFormed(t) && i < |t.invitations| && t.invitations[i].id == id
    ensures InvitationById(t.invitations, id) == Some(t.invitations[i])
  {
    var r := InvitationById(t.invitations, id);
    var k :| 0 <= k < |t.invitations| && t.invitations[k] == r.value && t.invitations[k].id == id;
    assert k == i;
  }

  /** Deleting the row with a unique id removes that row and nothing
      else. */
  lemma DeleteAt(t: Tables, id: nat, i: nat)
    requires WellFormed(t) && i < |t.invitations| && t.invitations[i].id == id
    ensures DeleteInvitation(t, id).invitations == t.invitations[..i] + t.invitations[i + 1..]
  {
    FilterDropsOne((v: Invitation) => v.id != id, t.invitations, i);
  }

  /** Accepting succeeds exactly when the invitation exists and some user
      has its address; the expiry date plays no part. On success the users
      with that address join the inviting team (their role unchanged), the
      invitation is removed and nothing else changes. */
  lemma AcceptEffect(t: Tables, id: nat, i: nat)
    requires WellFormed(t) && i < |t.invitations| && t.invitations[i].id == id
    ensures var v := t.invitations[i];
      var o := AcceptInvitation(t, id);
      && (o.error.None? <==> exists j :: 0 <= j < |t.users| && t.users[j].email == v.email)
      && (o.error.None? ==>
           && o.tables.invitations == t.invitations[..i] + t.invitations[i + 1..]
           && |o.tables.users| == |t.users|
           && (forall j :: 0 <= j < |t.users| ==>
                 o.tables.users[j] == if t.users[j].email == v.email
                                      then t.users[j].(teamOwnerId := Some(v.teamOwnerId))
                                      else t.users[j])
           && o.tables.bookings == t.bookings && o.tables.availabilities == t.availabilities)
      && (o.error.Some? ==> o.tables == t)
  {
    InvitationAt(t, id, i);
    var v := t.invitations[i];
    var t1 := UpdateUsers(t, (u: User) => u.email == v.email, JoinTeam(v.teamOwnerId));
    DeleteAt(t1, id, i);
  }

  /** An unknown id is reported and nothing changes. */
  lemma AcceptUnknown(t: Tables, id: nat)
    requires forall i :: 0 <= i < |t.invitations| ==> t.invitations[i].id != id
    ensures AcceptInvitation(t, id) == Outcome(t, Some(NotFound))
    ensures DeclineInvitation(t, id) == Outcome(t, Some(NoRowToDelete))
  {
  }

  /** An accepted invitation cannot be accepted or declined again. */
  lemma {:induction false} AcceptTwiceFails(t: Tables, id: nat)
    requires WellFormed(t) && AcceptInvitation(t, id).error.None?
    ensures var t1 := AcceptInvitation(t, id).tables;
      && AcceptInvitation(t1, id) == Outcome(t1, Some(NotFound))
      && DeclineInvitation(t1, id) == Outcome(t1, Some(NoRowToDelete))
  {
    var i :| 0 <= i < |t.invitations| && t.invitations[i] == InvitationById(t.invitations, id).value
                                      && t.invitations[i].id == id;
    var t1 := AcceptInvitation(t, id).tables;
    var rest := t.invitations[..i] + t.invitations[i + 1..];
    assert t1.invitations == rest by {
      AcceptEffect(t, id, i);
    }
    IdOnlyAt(t, id, i);
    forall k | 0 <= k < |rest| ensures rest[k].id != id {
      if k < i {
        assert rest[k] == t.invitations[k];
      } else {
        assert rest[k] == t.invitations[k + 1];
      }
    }
    AcceptUnknown(t1, id);
  }

  /** Ids are unique: no other row carries the id of row `i`. */
  lemma IdOnlyAt(t: Tables, id: nat, i: nat)
    requires WellFormed(t) && i < |t.invitations| && t.invitations[i].id == id
    ensures forall k :: 0 <= k < |t.invitations| && k != i ==> t.invitations[k].id != id
  {
    var key := (v: Invitation) => v.id;
    assert forall a, b :: 0 <= a < b < |t.invitations| ==> key(t.invitations[a]) != key(t.invitations[b]);
  }

  /** Declining removes exactly the invitation, touching no user; an
      unknown id is reported and changes nothing. */
  lemma DeclineEffect(t: Tables, id: nat, i: nat)
    requires WellFormed(t) && i < |t.invitations| && t.invitations[i].id == id
    ensures DeclineInvitation(t, id)
         == Outcome(t.(invitations := t.invitations[..i] + t.invitations[i + 1..]), None)
  {
    InvitationAt(t, id, i);
    DeleteAt(t, id, i);
  }
}
