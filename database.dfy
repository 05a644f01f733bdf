/**
 * The three tables the handlers read and write (the Prisma models `User`,
 * `UserInvitation` and `UserToken`), as a value `Db` and as the `Store`
 * object whose methods are the Prisma calls the handlers make.
 *
 * Rows are keyed by their primary key. The columns that Prisma's
 * `findUnique`/`delete` select on must be unique: a user's `name`, an
 * invitation's `username` and a token's `token`. Autoincremented ids come
 * from the counters `nextUserId` and `nextTokenId`; `createdAt` defaults are
 * passed in as `now`. A call that breaks a unique constraint, or deletes or
 * updates a row that is not there, makes Prisma throw; the methods report it
 * with a `false`/`None` result and change nothing.
 */
module Database {
  import opened Prelude

  datatype User = User(id: int, name: string, password: string, isAdmin: bool, createdAt: int)

  datatype Invitation = Invitation(id: string, username: string, inviterId: int, createdAt: int)

  datatype UserToken = UserToken(id: int, token: string, userId: int)

  datatype Db = Db(
    users: map<int, User>,
    invitations: map<string, Invitation>,
    tokens: map<int, UserToken>,
    nextUserId: int,
    nextTokenId: int)

  /** Keys agree with the rows' ids, ids lie below their counters, and the unique columns are unique. */
  predicate WellFormed(d: Db)
  {
    && (forall id :: id in d.users ==> d.users[id].id == id && id < d.nextUserId)
    && (forall a, b :: a in d.users && b in d.users && d.users[a].name == d.users[b].name ==> a == b)
    && (forall c :: c in d.invitations ==> d.invitations[c].id == c)
    && (forall a, b ::
          a in d.invitations && b in d.invitations && d.invitations[a].username == d.invitations[b].username
          ==> a == b)
    && (forall id :: id in d.tokens ==> d.tokens[id].id == id && id < d.nextTokenId)
    && (forall a, b :: a in d.tokens && b in d.tokens && d.tokens[a].token == d.tokens[b].token ==> a == b)
  }

  // Lookups (`findUnique` on a unique column other than the key).

  predicate NameTaken(users: map<int, User>, name: string)
  {
    exists id :: id in users && users[id].name == name
  }

  predicate UsernameInvited(invitations: map<string, Invitation>, username: string)
  {
    exists c :: c in invitations && invitations[c].username == username
  }

  predicate TokenStored(tokens: map<int, UserToken>, token: string)
  {
    exists id :: id in tokens && tokens[id].token == token
  }

  /** `db.user.findUnique({ where: { name } })`. */
  ghost function UserNamed(users: map<int, User>, name: string): (r: Option<User>)
    ensures r.Some? <==> NameTaken(users, name)
    ensures r.Some? ==> r.value in users.Values && r.value.name == name
  {
    if NameTaken(users, name) then
      var id :| id in users && users[id].name == name;
      Some(users[id])
    else None
  }

  // Table updates, as functions of the old tables.

  function AddUser(d: Db, name: string, password: string, now: int): (r: Db)
    ensures r.users.Keys == d.users.Keys + {d.nextUserId}
  {
    d.(users := d.users[d.nextUserId := User(d.nextUserId, name, password, false, now)],
       nextUserId := d.nextUserId + 1)
  }

  function AddInvitation(d: Db, code: string, username: string, inviterId: int, now: int): (r: Db)
    ensures r.invitations.Keys == d.invitations.Keys + {code}
  {
    d.(invitations := d.invitations[code := Invitation(code, username, inviterId, now)])
  }

  function RemoveInvitation(d: Db, code: string): (r: Db)
    ensures r.invitations.Keys == d.invitations.Keys - {code}
  {
    d.(invitations := d.invitations - {code})
  }

  function AddToken(d: Db, token: string, userId: int): (r: Db)
    ensures r.tokens.Keys == d.tokens.Keys + {d.nextTokenId}
  {
    d.(tokens := d.tokens[d.nextTokenId := UserToken(d.nextTokenId, token, userId)],
       nextTokenId := d.nextTokenId + 1)
  }

  /** `db.userToken.delete({ where: { token } })`. */
  function RemoveToken(d: Db, token: string): (r: Db)
    ensures forall id :: id in r.tokens <==> id in d.tokens && d.tokens[id].token != token
  {
    d.(tokens := map id | id in d.tokens && d.tokens[id].token != token :: d.tokens[id])
  }

  /** `db.userToken.deleteMany({ where: { userId } })`. */
  function RemoveTokensOf(d: Db, userId: int): (r: Db)
    ensures forall id :: id in r.tokens <==> id in d.tokens && d.tokens[id].userId != userId
  {
    d.(tokens := map id | id in d.tokens && d.tokens[id].userId != userId :: d.tokens[id])
  }

  /** `db.userToken.deleteMany({ where: { id: { in: ids } } })`. */
  function RemoveTokenIds(d: Db, ids: set<int>): (r: Db)
    ensures r.tokens.Keys == d.tokens.Keys - ids
  {
    d.(tokens := d.tokens - ids)
  }

  /** `db.user.update({ where: { id }, data: { password } })`. */
  function SetPassword(d: Db, id: int, password: string): (r: Db)
    requires id in d.users
    ensures r.users.Keys == d.users.Keys
  {
    d.(users := d.users[id := d.users[id].(password := password)])
  }

  // Each update keeps the tables well formed when its unique columns are free.

  lemma AddUserWellFormed(d: Db, name: string, password: string, now: int)
    requires WellFormed(d) && !NameTaken(d.users, name)
    ensures WellFormed(AddUser(d, name, password, now))
  {
  }

  lemma AddInvitationWellFormed(d: Db, code: string, username: string, inviterId: int, now: int)
    requires WellFormed(d) && code !in d.invitations && !UsernameInvited(d.invitations, username)
    ensures WellFormed(AddInvitation(d, code, username, inviterId, now))
  {
  }

  lemma AddTokenWellFormed(d: Db, token: string, userId: int)
    requires WellFormed(d) && !TokenStored(d.tokens, token)
    ensures WellFormed(AddToken(d, token, userId))
  {
  }

  lemma RemovalsWellFormed(d: Db, code: string, token: string, userId: int, ids: set<int>)
    requires WellFormed(d)
    ensures WellFormed(RemoveInvitation(d, code))
    ensures WellFormed(RemoveToken(d, token))
    ensures WellFormed(RemoveTokensOf(d, userId))
    ensures WellFormed(RemoveTokenIds(d, ids))
  {
  }

  lemma SetPasswordWellFormed(d: Db, id: int, password: string)
    requires WellFormed(d) && id in d.users
    ensures WellFormed(SetPassword(d, id, password))
  {
  }

  /** The database, updated in place by the Prisma calls. */
  class Store {
    var users: map<int, User>
    var invitations: map<string, Invitation>
    var tokens: map<int, UserToken>
    var nextUserId: int
    var nextTokenId: int

    function State(): Db
      reads this
    {
      Db(users, invitations, tokens, nextUserId, nextTokenId)
    }

    ghost predicate Valid()
      reads this
    {
      WellFormed(State())
    }

    constructor ()
      ensures Valid()
      ensures users == map[] && invitations == map[] && tokens == map[]
    {
      users, invitations, tokens := map[], map[], map[];
      nextUserId, nextTokenId := 1, 1;
    }

    /** `db.user.findUnique({ where: { id } })`. */
    method FindUserById(id: int) returns (u: Option<User>)
      ensures u == if id in users then Some(users[id]) else None
    {
      u := if id in users then Some(users[id]) else None;
    }

    /** `db.user.findUnique({ where: { name } })`. */
    method FindUserByName(name: string) returns (u: Option<User>)
      requires Valid()
      ensures u == UserNamed(users, name)
    {
      if exists id :: id in users && users[id].name == name {
        var id :| id in users && users[id].name == name;
        u := Some(users[id]);
      } else {
        u := None;
      }
    }

    /** `db.userInvitation.findUnique({ where: { id: code } })`. */
    method FindInvitation(code: string) returns (inv: Option<Invitation>)
      ensures inv == if code in invitations then Some(invitations[code]) else None
    {
      inv := if code in invitations then Some(invitations[code]) else None;
    }

    /** `db.userInvitation.findUnique({ where: { username } })`, reduced to whether a row exists. */
    method InvitationExistsFor(username: string) returns (found: bool)
      ensures found == UsernameInvited(invitations, username)
    {
      found := exists c :: c in invitations && invitations[c].username == username;
    }

    /** `db.user.create({ data: { name, password } })`; `None` when the name is taken. */
    method CreateUser(name: string, password: string, now: int) returns (u: Option<User>)
      modifies this
      ensures u.None? <==> NameTaken(old(users), name)
      ensures u.Some? ==> u.value == User(old(nextUserId), name, password, false, now)
      ensures State() == if u.None? then old(State()) else AddUser(old(State()), name, password, now)
    {
      if exists id :: id in users && users[id].name == name {
        return None;
      }
      var user := User(nextUserId, name, password, false, now);
      users := users[nextUserId := user];
      nextUserId := nextUserId + 1;
      return Some(user);
    }

    /** `db.userInvitation.create(...)`; `None` when the code or the username is taken. */
    method CreateInvitation(code: string, username: string, inviterId: int, now: int) returns (inv: Option<Invitation>)
      modifies this
      ensures inv.None? <==> code in old(invitations) || UsernameInvited(old(invitations), username)
      ensures inv.Some? ==> inv.value == Invitation(code, username, inviterId, now)
      ensures State() == if inv.None? then old(State()) else AddInvitation(old(State()), code, username, inviterId, now)
    {
      if code in invitations || exists c :: c in invitations && invitations[c].username == username {
        return None;
      }
      var invitation := Invitation(code, username, inviterId, now);
      invitations := invitations[code := invitation];
      return Some(invitation);
    }

    /** `db.userInvitation.delete({ where: { id: code } })`; `false` when there is no such row. */
    method DeleteInvitation(code: string) returns (ok: bool)
      modifies this
      ensures ok == (code in old(invitations))
      ensures State() == if ok then RemoveInvitation(old(State()), code) else old(State())
    {
      ok := code in invitations;
      if ok {
        invitations := invitations - {code};
      }
    }

    /** `db.userToken.create({ data: { token, userId } })`; `false` when the token string is stored already. */
    method CreateToken(token: string, userId: int) returns (ok: bool)
      modifies this
      ensures ok == !TokenStored(old(tokens), token)
      ensures State() == if ok then AddToken(old(State()), token, userId) else old(State())
    {
      if exists id :: id in tokens && tokens[id].token == token {
        return false;
      }
      tokens := tokens[nextTokenId := UserToken(nextTokenId, token, userId)];
      nextTokenId := nextTokenId + 1;
      return true;
    }

    /** `db.userToken.delete({ where: { token } })`; `false` when there is no such row. */
    method DeleteToken(token: string) returns (ok: bool)
      modifies this
      ensures ok == TokenStored(old(tokens), token)
      ensures State() == if ok then RemoveToken(old(State()), token) else old(State())
    {
      ok := exists id :: id in tokens && tokens[id].token == token;
      if ok {
        tokens := map id | id in tokens && tokens[id].token != token :: tokens[id];
      }
    }

    /** `db.userToken.deleteMany({ where: { userId } })`. */
    method DeleteTokensOf(userId: int)
      modifies this
      ensures State() == RemoveTokensOf(old(State()), userId)
    {
      tokens := map id | id in tokens && tokens[id].userId != userId :: tokens[id];
    }

    /** `db.userToken.deleteMany({ where: { id: { in: ids } } })`. */
    method DeleteTokenIds(ids: seq<int>)
      modifies this
      ensures State() == RemoveTokenIds(old(State()), set i | i in ids)
    {
      tokens := tokens - (set i | i in ids);
    }

    /** `db.user.update({ where: { id }, data: { password } })`; `false` when there is no such row. */
    method UpdatePassword(id: int, password: string) returns (ok: bool)
      modifies this
      ensures ok == (id in old(users))
      ensures State() == if ok then SetPassword(old(State()), id, password) else old(State())
    {
      ok := id in users;
      if ok {
        users := users[id := users[id].(password := password)];
      }
    }

    /** `db.userToken.findMany()`: every row once, in an order the database chooses. */
    method FindManyTokens() returns (rows: seq<UserToken>)
      requires Valid()
      ensures |rows| == |tokens|
      ensures forall i :: 0 <= i < |rows| ==> rows[i].id in tokens && tokens[rows[i].id] == rows[i]
      ensures forall i, j :: 0 <= i < j < |rows| ==> rows[i].id != rows[j].id
      ensures forall id :: id in tokens ==> exists i :: 0 <= i < |rows| && rows[i].id == id
    {
      var table := tokens;
      var ids := KeysOf(table);
      rows := seq(|ids|, i requires 0 <= i < |ids| => table[ids[i]]);
      forall id | id in tokens ensures exists i :: 0 <= i < |rows| && rows[i].id == id {
        var i :| 0 <= i < |ids| && ids[i] == id;
        assert rows[i].id == id;
      }
    }

    /** `db.userInvitation.findMany()`: every row once, in an order the database chooses. */
    method FindManyInvitations() returns (rows: seq<Invitation>)
      requires Valid()
      ensures |rows| == |invitations|
      ensures forall i :: 0 <= i < |rows| ==> rows[i].id in invitations && invitations[rows[i].id] == rows[i]
      ensures forall i, j :: 0 <= i < j < |rows| ==> rows[i].id != rows[j].id
      ensures forall c :: c in invitations ==> exists i :: 0 <= i < |rows| && rows[i].id == c
    {
      var table := invitations;
      var codes := KeysOf(table);
      rows := seq(|codes|, i requires 0 <= i < |codes| => table[codes[i]]);
      forall c | c in invitations ensures exists i :: 0 <= i < |rows| && rows[i].id == c {
        var i :| 0 <= i < |codes| && codes[i] == c;
        assert rows[i].id == c;
      }
    }
  }

  /** The keys of `m`, each once, in an arbitrary order. */
  method KeysOf<K, V>(m: map<K, V>) returns (keys: seq<K>)
    ensures |keys| == |m|
    ensures forall i :: 0 <= i < |keys| ==> keys[i] in m
    ensures forall i, j :: 0 <= i < j < |keys| ==> keys[i] != keys[j]
    ensures forall k :: k in m ==> k in keys
  {
    keys := [];
    var left := m.Keys;
    while left != {}
      invariant left <= m.Keys
      invariant forall k :: k in m ==> (k in left <==> k !in keys)
      invariant |keys| + |left| == |m.Keys|
      invariant forall i :: 0 <= i < |keys| ==> keys[i] in m
      invariant forall i, j :: 0 <= i < j < |keys| ==> keys[i] != keys[j]
      decreases left
    {
      var k :| k in left;
      keys := keys + [k];
      left := left - {k};
    }
    assert |m| == |m.Keys|;
  }
}
