/**
 * `isAdminCheck` (src/auth/middlewares.ts): lets a request through to the
 * next handler only when the user it belongs to is an administrator.
 *
 * `reqUser` is `req.user`; `lookup` is what `getUserFromRequest(req)` would
 * produce, consulted only when `req.user` is undefined. A lookup that yields
 * no user makes `user.isAdmin` throw inside the `try`, so it ends like a
 * lookup that throws.
 */
module Middlewares {
  import opened Prelude
  import opened Database
  import opened Http

  /** Exactly one of: `next()` is called, or a JSON reply is sent. */
  datatype Decision = Next | Respond(status: int, message: string)

  /** The user the check decides about, if one is found. */
  function ResolvedUser(reqUser: Option<User>, lookup: Lookup): Option<User>
  {
    if reqUser.Some? then reqUser
    else if lookup.Found? then Some(lookup.user)
    else None
  }

  function IsAdminCheck(reqUser: Option<User>, lookup: Lookup): (d: Decision)
    ensures d == Next <==> ResolvedUser(reqUser, lookup).Some? && ResolvedUser(reqUser, lookup).value.isAdmin
    ensures d == Respond(403, Unauthorized) <==>
      ResolvedUser(reqUser, lookup).Some? && !ResolvedUser(reqUser, lookup).value.isAdmin
    ensures d == Respond(401, Unauthorized) <==> ResolvedUser(reqUser, lookup).None?
    ensures reqUser.Some? ==> (d == Next <==> reqUser.value.isAdmin)
  {
    if reqUser.Some? then
      if !reqUser.value.isAdmin then Respond(403, Unauthorized) else Next
    else
      match lookup
      case Found(user) => if !user.isAdmin then Respond(403, Unauthorized) else Next
      case NoUser => Respond(401, Unauthorized)
      case Threw => Respond(401, Unauthorized)
  }

  /** With `req.user` set, the lookup is never consulted. */
  lemma RequestUserTakesPrecedence(u: User, l1: Lookup, l2: Lookup)
    ensures IsAdminCheck(Some(u), l1) == IsAdminCheck(Some(u), l2)
  {
  }
}
