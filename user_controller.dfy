/**
 * The user handlers (src/components/user/user_controller.ts). `login`,
 * `logout` and `changePassword` take the same form as the invitation
 * handlers: a `...Spec` function from the tables before to the reply and the
 * tables after, and a method taking the `Store` that makes the source's
 * Prisma calls. `getMe` reads no table and is a function only.
 *
 * `requester` is `req.user`; `compare` stands for bcrypt's `compare(plain,
 * hash)`, `hashed` for `hashSync(newPassword, salt)` and `token` for the
 * signed JWT. The file's own copies of `inviteUser`, `getInvitationInfo` and
 * `acceptInvitation` are the invitation controller's code repeated; here
 * they run that model.
 */
module UserController {
  import opened Prelude
  import opened Database
  import opened Http
  import InvitationController

  datatype LoginParams = LoginParams(username: string, password: string)

  datatype ChangePasswordParams = ChangePasswordParams(oldPassword: string, newPassword: string)

  const InvalidCredentials: string := "Invalid username or password"

  // getMe

  function GetMe(requester: Option<User>): (r: Reply<PublicUser>)
    ensures r.Failure? <==> requester.None?
    ensures r.Failure? ==> r == Failure(401, Unauthorized)
    ensures requester.Some? ==>
      var u := requester.value;
      r == Success(PublicUser(u.id, u.name, u.isAdmin, u.createdAt))
    ensures r.Success? ==>
      var u := requester.value;
      r.body.id == u.id && r.body.name == u.name && r.body.isAdmin == u.isAdmin && r.body.createdAt == u.createdAt
  {
    if requester.None? then Failure(401, Unauthorized)
    else Success(Public(requester.value))
  }

  /** The reply does not depend on the password hash. */
  lemma GetMeHidesPassword(u: User, password: string)
    ensures GetMe(Some(u)) == GetMe(Some(u.(password := password)))
  {
  }

  // login

  ghost function LoginSpec(d: Db, body: Option<LoginParams>, compare: (string, string) -> bool, token: string)
    : (h: Handled<Session>)
    ensures body.None? ==> h == Handled(Failure(400, MissingArguments), d)
    ensures h.reply.Failure? ==> h.db == d
    ensures h.reply.Failure? && body.Some? ==> h.reply == Failure(400, InvalidCredentials)
    ensures h.reply.Rejected? ==> h.db == d
    ensures h.reply.Success? <==>
      body.Some? && NameTaken(d.users, body.value.username)
      && compare(body.value.password, UserNamed(d.users, body.value.username).value.password)
      && !TokenStored(d.tokens, token)
    ensures h.reply.Rejected? <==>
      body.Some? && NameTaken(d.users, body.value.username)
      && compare(body.value.password, UserNamed(d.users, body.value.username).value.password)
      && TokenStored(d.tokens, token)
    ensures h.reply.Success? ==>
      var user := UserNamed(d.users, body.value.username).value;
      && h.db == d.(tokens := d.tokens[d.nextTokenId := UserToken(d.nextTokenId, token, user.id)],
                    nextTokenId := d.nextTokenId + 1)
      && h.reply.body == Session(user.id, user.name, user.isAdmin, user.createdAt, token)
  {
    if body.None? then Handled(Failure(400, MissingArguments), d)
    else
      var user := UserNamed(d.users, body.value.username);
      if user.None? then Handled(Failure(400, InvalidCredentials), d)
      else if !compare(body.value.password, user.value.password) then Handled(Failure(400, InvalidCredentials), d)
      else if TokenStored(d.tokens, token) then Handled(Rejected, d)
      else
        var u := user.value;
        Handled(Success(Session(u.id, u.name, u.isAdmin, u.createdAt, token)), AddToken(d, token, u.id))
  }

  /** An unknown name and a wrong password get the same reply, so the reply does not reveal which names exist. */
  lemma LoginDoesNotRevealNames(
    d: Db, body: LoginParams, compare: (string, string) -> bool, token: string, userPassword: string)
    requires !NameTaken(d.users, body.username) || !compare(body.password, userPassword)
    requires NameTaken(d.users, body.username) ==> UserNamed(d.users, body.username).value.password == userPassword
    ensures LoginSpec(d, Some(body), compare, token).reply == Failure(400, InvalidCredentials)
  {
  }

  lemma LoginWellFormed(d: Db, body: Option<LoginParams>, compare: (string, string) -> bool, token: string)
    requires WellFormed(d)
    ensures WellFormed(LoginSpec(d, body, compare, token).db)
  {
    if LoginSpec(d, body, compare, token).reply.Success? {
      AddTokenWellFormed(d, token, UserNamed(d.users, body.value.username).value.id);
    }
  }

  method Login(db: Store, body: Option<LoginParams>, compare: (string, string) -> bool, token: string)
    returns (reply: Reply<Session>)
    requires db.Valid()
    modifies db
    ensures db.Valid()
    ensures Handled(reply, db.State()) == LoginSpec(old(db.State()), body, compare, token)
  {
    LoginWellFormed(db.State(), body, compare, token);
    if body.None? {
      return Failure(400, MissingArguments);
    }
    var user := db.FindUserByName(body.value.username);
    if user.None? {
      return Failure(400, InvalidCredentials);
    }
    var passwordMatch := compare(body.value.password, user.value.password);
    if !passwordMatch {
      return Failure(400, InvalidCredentials);
    }
    var stored := db.CreateToken(token, user.value.id);
    if !stored {
      return Rejected;
    }
    var u := user.value;
    return Success(Session(u.id, u.name, u.isAdmin, u.createdAt, token));
  }

  // logout

  /** `bearer` is the token `ExtractJwt.fromAuthHeaderAsBearerToken()` finds in the request, if any. */
  function LogoutSpec(d: Db, bearer: Option<string>): (h: Handled<()>)
    ensures bearer.None? ==> h == Handled(Failure(400, "Missing token"), d)
    ensures h.reply.Success? <==> bearer.Some? && TokenStored(d.tokens, bearer.value)
    ensures h.reply.Rejected? <==> bearer.Some? && !TokenStored(d.tokens, bearer.value)
    ensures !h.reply.Success? ==> h.db == d
    ensures h.reply.Success? ==>
      && h.db.users == d.users && h.db.invitations == d.invitations
      && h.db.nextUserId == d.nextUserId && h.db.nextTokenId == d.nextTokenId
      && (forall id :: id in h.db.tokens <==> id in d.tokens && d.tokens[id].token != bearer.value)
      && (forall id :: id in h.db.tokens ==> h.db.tokens[id] == d.tokens[id])
  {
    if bearer.None? then Handled(Failure(400, "Missing token"), d)
    else if !TokenStored(d.tokens, bearer.value) then Handled(Rejected, d)
    else Handled(Success(()), RemoveToken(d, bearer.value))
  }

  /** In well-formed tables a successful logout removes exactly one row. */
  lemma LogoutRemovesOneRow(d: Db, bearer: string)
    requires WellFormed(d) && TokenStored(d.tokens, bearer)
    ensures |LogoutSpec(d, Some(bearer)).db.tokens| == |d.tokens| - 1
  {
    var id :| id in d.tokens && d.tokens[id].token == bearer;
    var after := LogoutSpec(d, Some(bearer)).db.tokens;
    forall k | k in d.tokens && d.tokens[k].token == bearer ensures k == id {
      assert d.tokens[k].token == d.tokens[id].token;
    }
    assert after.Keys == d.tokens.Keys - {id};
    assert |after| == |after.Keys|;
  }

  method Logout(db: Store, bearer: Option<string>) returns (reply: Reply<()>)
    requires db.Valid()
    modifies db
    ensures db.Valid()
    ensures Handled(reply, db.State()) == LogoutSpec(old(db.State()), bearer)
  {
    RemovalsWellFormed(db.State(), "", if bearer.Some? then bearer.value else "", 0, {});
    if bearer.None? {
      return Failure(400, "Missing token");
    }
    var deleted := db.DeleteToken(bearer.value);
    if !deleted {
      return Rejected;
    }
    return Success(());
  }

  // changePassword

  function ChangePasswordSpec(
    d: Db, requester: Option<User>, body: Option<ChangePasswordParams>,
    compare: (string, string) -> bool, hashed: string)
    : (h: Handled<()>)
    ensures body.None? ==> h == Handled(Failure(400, MissingArguments), d)
    ensures body.Some? && requester.None? ==> h == Handled(Failure(401, Unauthorized), d)
    ensures body.Some? && requester.Some? && !compare(body.value.oldPassword, requester.value.password) ==>
      h == Handled(Failure(400, "Invalid password"), d)
    ensures !h.reply.Success? ==> h.db == d
    ensures h.reply.Success? <==>
      body.Some? && requester.Some? && compare(body.value.oldPassword, requester.value.password)
      && requester.value.id in d.users
    ensures h.reply.Rejected? <==>
      body.Some? && requester.Some? && compare(body.value.oldPassword, requester.value.password)
      && requester.value.id !in d.users
    ensures h.reply.Success? ==>
      var id := requester.value.id;
      && h.db.users == d.users[id := d.users[id].(password := hashed)]
      && h.db.invitations == d.invitations
      && h.db.nextUserId == d.nextUserId && h.db.nextTokenId == d.nextTokenId
      && (forall t :: t in h.db.tokens <==> t in d.tokens && d.tokens[t].userId != id)
      && (forall t :: t in h.db.tokens ==> h.db.tokens[t] == d.tokens[t])
  {
    if body.None? then Handled(Failure(400, MissingArguments), d)
    else if requester.None? then Handled(Failure(401, Unauthorized), d)
    else if !compare(body.value.oldPassword, requester.value.password) then Handled(Failure(400, "Invalid password"), d)
    else if requester.value.id !in d.users then Handled(Rejected, d)
    else
      var id := requester.value.id;
      Handled(Success(()), RemoveTokensOf(SetPassword(d, id, hashed), id))
  }

  method ChangePassword(
    db: Store, requester: Option<User>, body: Option<ChangePasswordParams>,
    compare: (string, string) -> bool, hashed: string)
    returns (reply: Reply<()>)
    requires db.Valid()
    modifies db
    ensures db.Valid()
    ensures Handled(reply, db.State()) == ChangePasswordSpec(old(db.State()), requester, body, compare, hashed)
  {
    if body.None? {
      return Failure(400, MissingArguments);
    }
    if requester.None? {
      return Failure(401, Unauthorized);
    }
    var passwordMatch := compare(body.value.oldPassword, requester.value.password);
    if !passwordMatch {
      return Failure(400, "Invalid password");
    }
    ghost var before := db.State();
    var updated := db.UpdatePassword(requester.value.id, hashed);
    if !updated {
      return Rejected;
    }
    SetPasswordWellFormed(before, requester.value.id, hashed);
    RemovalsWellFormed(db.State(), "", "", requester.value.id, {});
    db.DeleteTokensOf(requester.value.id);
    return Success(());
  }

  // The file's copies of the invitation handlers.

  method InviteUser(
    db: Store, requester: Option<User>, body: Option<InvitationController.InviteUserParams>, code: string, now: int)
    returns (reply: Reply<InvitationController.InvitationCreated>)
    requires db.Valid()
    modifies db
    ensures db.Valid()
    ensures Handled(reply, db.State()) == InvitationController.InviteUserSpec(old(db.State()), requester, body, code, now)
  {
    reply := InvitationController.InviteUser(db, requester, body, code, now);
  }

  method GetInvitationInfo(db: Store, code: string) returns (reply: Reply<InvitationController.InvitationInfo>)
    requires db.Valid()
    ensures reply == InvitationController.GetInvitationInfoSpec(db.State(), code)
  {
    reply := InvitationController.GetInvitationInfo(db, code);
  }

  method AcceptInvitation(
    db: Store, code: string, body: Option<InvitationController.AcceptInvitationParams>,
    hashed: string, token: string, now: int)
    returns (reply: Reply<Session>)
    requires db.Valid()
    modifies db
    ensures db.Valid()
    ensures Handled(reply, db.State())
         == InvitationController.AcceptInvitationSpec(old(db.State()), code, body, hashed, token, now)
  {
    reply := InvitationController.AcceptInvitation(db, code, body, hashed, token, now);
  }
}
