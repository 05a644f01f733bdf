/**
 * The invitation handlers (src/components/invitation/invitation_controller.ts).
 *
 * Each handler is a `...Spec` function from the tables before the request to
 * the reply and the tables after it, and a method taking the `Store` that
 * makes the same Prisma calls in the same order as the source and is proved
 * to agree with it (`listInvitations`, which changes nothing, is only a
 * method, specified directly by `EntryOf`). `code` for a new invitation stands for
 * `shortUUID.generate()`, `hashed` for `hashSync(password, salt)`, `token`
 * for the signed JWT and `now` for the database's `createdAt` default.
 * `None` for a body means the typia `is<...>` check failed.
 */
module InvitationController {
  import opened Prelude
  import opened Database
  import opened Http

  datatype InviteUserParams = InviteUserParams(username: string)

  const InvitationAlreadyExists: string := "Invitation already exists"

  datatype AcceptInvitationParams = AcceptInvitationParams(password: string)

  /** The reply to a created invitation. */
  datatype InvitationCreated = InvitationCreated(id: string, username: string, createdAt: int)

  /** The reply of `getInvitationInfo`. */
  datatype InvitationInfo = InvitationInfo(
    id: string, username: string, inviter: Option<string>, inviterId: Option<int>, createdAt: int)

  /** One element of the `listInvitations` reply: the selected columns and the inviter's name. */
  datatype InvitationEntry = InvitationEntry(
    id: string, username: string, inviterId: int, createdAt: int, inviter: Option<string>)

  function EntryOf(inv: Invitation, users: map<int, User>): (e: InvitationEntry)
    ensures e.id == inv.id && e.username == inv.username && e.inviterId == inv.inviterId
    ensures e.createdAt == inv.createdAt
    ensures e.inviter.Some? <==> inv.inviterId in users
    ensures e.inviter.Some? ==> e.inviter.value == users[inv.inviterId].name
  {
    InvitationEntry(inv.id, inv.username, inv.inviterId, inv.createdAt,
                    if inv.inviterId in users then Some(users[inv.inviterId].name) else None)
  }

  /** `listInvitations`: one entry per stored invitation, in the order they are read. */
  method ListInvitations(db: Store) returns (reply: Reply<seq<InvitationEntry>>)
    requires db.Valid()
    ensures reply.Success?
    ensures |reply.body| == |db.invitations|
    ensures forall i :: 0 <= i < |reply.body| ==>
      reply.body[i].id in db.invitations && reply.body[i] == EntryOf(db.invitations[reply.body[i].id], db.users)
    ensures forall i, j :: 0 <= i < j < |reply.body| ==> reply.body[i].id != reply.body[j].id
    ensures forall c :: c in db.invitations ==> exists i :: 0 <= i < |reply.body| && reply.body[i].id == c
  {
    var invitations := db.FindManyInvitations();
    var withInviterName: seq<InvitationEntry> := [];
    for i := 0 to |invitations|
      invariant |withInviterName| == i
      invariant forall k :: 0 <= k < i ==> withInviterName[k] == EntryOf(invitations[k], db.users)
    {
      var invite := invitations[i];
      var inviter := db.FindUserById(invite.inviterId);
      var name := if inviter.Some? then Some(inviter.value.name) else None;
      withInviterName := withInviterName +
        [InvitationEntry(invite.id, invite.username, invite.inviterId, invite.createdAt, name)];
    }
    forall c | c in db.invitations ensures exists i :: 0 <= i < |withInviterName| && withInviterName[i].id == c {
      var i :| 0 <= i < |invitations| && invitations[i].id == c;
      assert withInviterName[i].id == c;
    }
    return Success(withInviterName);
  }

  // inviteUser

  function InviteUserSpec(d: Db, requester: Option<User>, body: Option<InviteUserParams>, code: string, now: int)
    : (h: Handled<InvitationCreated>)
    ensures h.reply.Success? <==>
      requester.Some? && body.Some? && !NameTaken(d.users, body.value.username)
      && !UsernameInvited(d.invitations, body.value.username) && code !in d.invitations
    ensures !h.reply.Success? ==> h.db == d
    ensures h.reply.Success? ==>
      && h.db == d.(invitations := d.invitations[code := Invitation(code, body.value.username, requester.value.id, now)])
      && h.reply.body == InvitationCreated(code, body.value.username, now)
    ensures requester.None? ==> h.reply == Failure(401, Unauthorized)
    ensures requester.Some? && body.None? ==> h.reply == Failure(400, MissingArguments)
    ensures requester.Some? && body.Some? && NameTaken(d.users, body.value.username) ==>
      h.reply == Failure(400, UserAlreadyExists)
    ensures requester.Some? && body.Some? && !NameTaken(d.users, body.value.username)
      && UsernameInvited(d.invitations, body.value.username)
      ==> h.reply == Failure(400, InvitationAlreadyExists)
    ensures h.reply.Rejected? <==>
      requester.Some? && body.Some? && !NameTaken(d.users, body.value.username)
      && !UsernameInvited(d.invitations, body.value.username) && code in d.invitations
  {
    if requester.None? then Handled(Failure(401, Unauthorized), d)
    else if body.None? then Handled(Failure(400, MissingArguments), d)
    else if NameTaken(d.users, body.value.username) then Handled(Failure(400, UserAlreadyExists), d)
    else if UsernameInvited(d.invitations, body.value.username) then
      Handled(Failure(400, InvitationAlreadyExists), d)
    else if code in d.invitations then Handled(Rejected, d)
    else
      Handled(Success(InvitationCreated(code, body.value.username, now)),
              AddInvitation(d, code, body.value.username, requester.value.id, now))
  }

  /** The "user exists" check comes before the "invitation exists" check: with both, the user is reported. */
  lemma InviteUserCheckOrder(d: Db, requester: User, body: InviteUserParams, code: string, now: int)
    requires NameTaken(d.users, body.username) && UsernameInvited(d.invitations, body.username)
    ensures InviteUserSpec(d, Some(requester), Some(body), code, now).reply == Failure(400, UserAlreadyExists)
  {
  }

  lemma InviteUserWellFormed(d: Db, requester: Option<User>, body: Option<InviteUserParams>, code: string, now: int)
    requires WellFormed(d)
    ensures WellFormed(InviteUserSpec(d, requester, body, code, now).db)
  {
    if InviteUserSpec(d, requester, body, code, now).reply.Success? {
      AddInvitationWellFormed(d, code, body.value.username, requester.value.id, now);
    }
  }

  method InviteUser(db: Store, requester: Option<User>, body: Option<InviteUserParams>, code: string, now: int)
    returns (reply: Reply<InvitationCreated>)
    requires db.Valid()
    modifies db
    ensures db.Valid()
    ensures Handled(reply, db.State()) == InviteUserSpec(old(db.State()), requester, body, code, now)
  {
    if requester.None? {
      return Failure(401, Unauthorized);
    }
    if body.None? {
      return Failure(400, MissingArguments);
    }
    var existingUser := db.FindUserByName(body.value.username);
    if existingUser.Some? {
      return Failure(400, UserAlreadyExists);
    }
    var existingInvitation := db.InvitationExistsFor(body.value.username);
    if existingInvitation {
      return Failure(400, InvitationAlreadyExists);
    }
    ghost var before := db.State();
    var invitation := db.CreateInvitation(code, body.value.username, requester.value.id, now);
    if invitation.None? {
      return Rejected;
    }
    AddInvitationWellFormed(before, code, body.value.username, requester.value.id, now);
    return Success(InvitationCreated(invitation.value.id, invitation.value.username, invitation.value.createdAt));
  }

  // getInvitationInfo

  function GetInvitationInfoSpec(d: Db, code: string): (r: Reply<InvitationInfo>)
    ensures r.Failure? <==> code !in d.invitations
    ensures r.Success? <==> code in d.invitations
    ensures r.Failure? ==> r == Failure(404, InvalidInvitationCode)
    ensures r.Success? ==>
      var inv := d.invitations[code];
      && r.body.id == inv.id && r.body.username == inv.username && r.body.createdAt == inv.createdAt
      && (r.body.inviterId.Some? <==> inv.inviterId in d.users)
      && (r.body.inviterId.Some? ==>
            var inviter := d.users[inv.inviterId];
            r.body.inviterId == Some(inviter.id) && r.body.inviter == Some(inviter.name))
      && (r.body.inviterId.None? ==> r.body.inviter.None?)
  {
    if code !in d.invitations then Failure(404, InvalidInvitationCode)
    else
      var inv := d.invitations[code];
      var inviter := if inv.inviterId in d.users then Some(d.users[inv.inviterId]) else None;
      Success(InvitationInfo(inv.id, inv.username,
                             if inviter.Some? then Some(inviter.value.name) else None,
                             if inviter.Some? then Some(inviter.value.id) else None,
                             inv.createdAt))
  }

  /** `getInvitationInfo`: two reads, no table changes (the method has no `modifies`). */
  method GetInvitationInfo(db: Store, code: string) returns (reply: Reply<InvitationInfo>)
    requires db.Valid()
    ensures reply == GetInvitationInfoSpec(db.State(), code)
  {
    var invitation := db.FindInvitation(code);
    if invitation.None? {
      return Failure(404, InvalidInvitationCode);
    }
    var inviter := db.FindUserById(invitation.value.inviterId);
    return Success(InvitationInfo(invitation.value.id, invitation.value.username,
                                  if inviter.Some? then Some(inviter.value.name) else None,
                                  if inviter.Some? then Some(inviter.value.id) else None,
                                  invitation.value.createdAt));
  }

  // acceptInvitation

  function AcceptInvitationSpec(
    d: Db, code: string, body: Option<AcceptInvitationParams>, hashed: string, token: string, now: int)
    : (h: Handled<Session>)
    ensures code !in d.invitations ==> h == Handled(Failure(404, InvalidInvitationCode), d)
    ensures code in d.invitations && body.None? ==> h == Handled(Failure(400, MissingArguments), d)
    ensures code in d.invitations && body.Some? && NameTaken(d.users, d.invitations[code].username) ==>
      h == Handled(Failure(400, UserAlreadyExists), d)
    ensures h.reply.Failure? ==> h.db == d
    ensures h.reply.Success? <==>
      code in d.invitations && body.Some? && !NameTaken(d.users, d.invitations[code].username)
      && !TokenStored(d.tokens, token)
    ensures h.reply.Success? ==>
      var uid := d.nextUserId;
      var name := d.invitations[code].username;
      && h.db == Db(d.users[uid := User(uid, name, hashed, false, now)],
                    d.invitations - {code},
                    d.tokens[d.nextTokenId := UserToken(d.nextTokenId, token, uid)],
                    uid + 1, d.nextTokenId + 1)
      && h.reply.body == Session(uid, name, false, now, token)
    ensures h.reply.Rejected? <==>
      code in d.invitations && body.Some? && !NameTaken(d.users, d.invitations[code].username)
      && TokenStored(d.tokens, token)
    ensures h.reply.Rejected? ==>
      var uid := d.nextUserId;
      h.db == Db(d.users[uid := User(uid, d.invitations[code].username, hashed, false, now)],
                 d.invitations - {code}, d.tokens, uid + 1, d.nextTokenId)
  {
    if code !in d.invitations then Handled(Failure(404, InvalidInvitationCode), d)
    else if body.None? then Handled(Failure(400, MissingArguments), d)
    else
      var invitation := d.invitations[code];
      if NameTaken(d.users, invitation.username) then Handled(Failure(400, UserAlreadyExists), d)
      else
        var uid := d.nextUserId;
        var created := RemoveInvitation(AddUser(d, invitation.username, hashed, now), code);
        if TokenStored(created.tokens, token) then Handled(Rejected, created)
        else Handled(Success(Session(uid, invitation.username, false, now, token)), AddToken(created, token, uid))
  }

  /** When the token cannot be stored, the user has been created and the invitation spent all the same. */
  lemma AcceptInvitationPartialEffect(
    d: Db, code: string, body: AcceptInvitationParams, hashed: string, token: string, now: int)
    requires code in d.invitations && !NameTaken(d.users, d.invitations[code].username)
    requires TokenStored(d.tokens, token)
    ensures AcceptInvitationSpec(d, code, Some(body), hashed, token, now).reply == Rejected
    ensures d.nextUserId in AcceptInvitationSpec(d, code, Some(body), hashed, token, now).db.users
    ensures code !in AcceptInvitationSpec(d, code, Some(body), hashed, token, now).db.invitations
  {
  }

  lemma AcceptInvitationWellFormed(
    d: Db, code: string, body: Option<AcceptInvitationParams>, hashed: string, token: string, now: int)
    requires WellFormed(d)
    ensures WellFormed(AcceptInvitationSpec(d, code, body, hashed, token, now).db)
  {
    if code in d.invitations && body.Some? && !NameTaken(d.users, d.invitations[code].username) {
      var d1 := AddUser(d, d.invitations[code].username, hashed, now);
      AddUserWellFormed(d, d.invitations[code].username, hashed, now);
      RemovalsWellFormed(d1, code, "", 0, {});
      if !TokenStored(RemoveInvitation(d1, code).tokens, token) {
        AddTokenWellFormed(RemoveInvitation(d1, code), token, d.nextUserId);
      }
    }
  }

  method AcceptInvitation(
    db: Store, code: string, body: Option<AcceptInvitationParams>, hashed: string, token: string, now: int)
    returns (reply: Reply<Session>)
    requires db.Valid()
    modifies db
    ensures db.Valid()
    ensures Handled(reply, db.State()) == AcceptInvitationSpec(old(db.State()), code, body, hashed, token, now)
  {
    ghost var before := db.State();
    AcceptInvitationWellFormed(before, code, body, hashed, token, now);
    var invitation := db.FindInvitation(code);
    if invitation.None? {
      return Failure(404, InvalidInvitationCode);
    }
    if body.None? {
      return Failure(400, MissingArguments);
    }
    var existingUser := db.FindUserByName(invitation.value.username);
    if existingUser.Some? {
      return Failure(400, UserAlreadyExists);
    }
    var created := db.CreateUser(invitation.value.username, hashed, now);
    var user := created.value;
    var deleted := db.DeleteInvitation(invitation.value.id);
    assert deleted;
    var stored := db.CreateToken(token, user.id);
    if !stored {
      return Rejected;
    }
    return Success(Session(user.id, user.name, user.isAdmin, user.createdAt, token));
  }

  // deleteInvitation

  /** The requester may delete the invitation: they sent it, or they are an administrator. */
  predicate MayDelete(requester: Option<User>, inv: Invitation)
  {
    requester.Some? && (requester.value.id == inv.inviterId || requester.value.isAdmin)
  }

  function DeleteInvitationSpec(d: Db, requester: Option<User>, code: string): (h: Handled<()>)
    ensures code !in d.invitations ==> h == Handled(Failure(404, InvalidInvitationCode), d)
    ensures code in d.invitations && !MayDelete(requester, d.invitations[code]) ==>
      h == Handled(Failure(401, Unauthorized), d)
    ensures h.reply.Success? <==> code in d.invitations && MayDelete(requester, d.invitations[code])
    ensures h.reply.Success? ==> h.db == d.(invitations := d.invitations - {code})
    ensures !h.reply.Success? ==> h.db == d
  {
    if code !in d.invitations then Handled(Failure(404, InvalidInvitationCode), d)
    else if requester.None? || (requester.value.id != d.invitations[code].inviterId && !requester.value.isAdmin) then
      Handled(Failure(401, Unauthorized), d)
    else Handled(Success(()), RemoveInvitation(d, code))
  }

  method DeleteInvitation(db: Store, requester: Option<User>, code: string) returns (reply: Reply<()>)
    requires db.Valid()
    modifies db
    ensures db.Valid()
    ensures Handled(reply, db.State()) == DeleteInvitationSpec(old(db.State()), requester, code)
  {
    ghost var before := db.State();
    RemovalsWellFormed(before, code, "", 0, {});
    var invitation := db.FindInvitation(code);
    if invitation.None? {
      return Failure(404, InvalidInvitationCode);
    }
    if requester.None? || (requester.value.id != invitation.value.inviterId && !requester.value.isAdmin) {
      return Failure(401, Unauthorized);
    }
    var deleted := db.DeleteInvitation(invitation.value.id);
    assert deleted;
    return Success(());
  }
}
