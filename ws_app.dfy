/**
 * The `verifyClient` admission rule of the WebSocket server
 * (src/ws/createWsApp.ts): an upgrade request is accepted only for a user
 * resolved from its `authorization` header, and that user is attached to the
 * request.
 *
 * `getUserFromToken` (not part of this model) is a parameter: for each header
 * value, the user it resolves to, no user, or a rejected promise.
 */
module WsApp {
  import opened Prelude
  import opened Database
  import opened Http

  /** The verdict passed to the callback: `cb(true)` or `cb(false, status, message)`. */
  datatype Admission = Accept(user: User) | Reject(status: int, message: string)

  /** A header is usable when it is defined and not the empty string (`!token` is false). */
  predicate HasToken(authorization: Option<string>)
  {
    authorization.Some? && authorization.value != ""
  }

  function Admit(authorization: Option<string>, getUserFromToken: string -> Lookup): (a: Admission)
    ensures a.Accept? <==> HasToken(authorization) && getUserFromToken(authorization.value).Found?
    ensures a.Accept? ==> a.user == getUserFromToken(authorization.value).user
    ensures a == Reject(401, Unauthorized) <==>
      !HasToken(authorization) || getUserFromToken(authorization.value).NoUser?
    ensures a == Reject(500, "Internal Server Error") <==>
      HasToken(authorization) && getUserFromToken(authorization.value).Threw?
  {
    if !HasToken(authorization) then Reject(401, Unauthorized)
    else
      match getUserFromToken(authorization.value)
      case NoUser => Reject(401, Unauthorized)
      case Found(user) => Accept(user)
      case Threw => Reject(500, "Internal Server Error")
  }

  /** The incoming upgrade request: its `authorization` header and the `user` written onto it. */
  class UpgradeRequest {
    const authorization: Option<string>
    var user: Option<User>

    constructor (authorization: Option<string>)
      ensures this.authorization == authorization && user.None?
    {
      this.authorization := authorization;
      user := None;
    }
  }

  /** `verifyClient(info, cb)`: decides, attaches the user on acceptance, and returns the callback's arguments. */
  method VerifyClient(req: UpgradeRequest, getUserFromToken: string -> Lookup) returns (cb: Admission)
    modifies req
    ensures cb == Admit(req.authorization, getUserFromToken)
    ensures req.user == if cb.Accept? then Some(cb.user) else old(req.user)
  {
    var token := req.authorization;
    if token.None? || token.value == "" {
      return Reject(401, Unauthorized);
    }
    var found := getUserFromToken(token.value);
    match found {
      case NoUser =>
        return Reject(401, Unauthorized);
      case Found(user) =>
        req.user := Some(user);
        return Accept(user);
      case Threw =>
        return Reject(500, "Internal Server Error");
    }
  }

  /** An absent or empty header is refused with 401 whatever the lookup would say: it never reaches it. */
  lemma MissingTokenNeverLooksUp(authorization: Option<string>, f: string -> Lookup, g: string -> Lookup)
    requires !HasToken(authorization)
    ensures Admit(authorization, f) == Admit(authorization, g) == Reject(401, Unauthorized)
  {
  }
}
