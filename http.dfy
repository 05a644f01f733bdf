/**
 * How the Express handlers end, and the shapes they share.
 */
module Http {
  import opened Database

  /**
   * `Failure` is `res.status(status).send(message)` (the handlers also keep
   * the message in `res._err`); `Success` is a 200 reply carrying `body`
   * (`res.sendStatus(200)` is `Success(())`); `Rejected` is a handler whose
   * promise rejects because a database call threw, so it sends nothing.
   */
  datatype Reply<T> =
    | Failure(status: int, message: string)
    | Success(body: T)
    | Rejected

  /** A handler's reply together with the tables it leaves behind. */
  datatype Handled<T> = Handled(reply: Reply<T>, db: Db)

  /** What the handlers send about a user: never the password hash. */
  datatype PublicUser = PublicUser(id: int, name: string, isAdmin: bool, createdAt: int)

  /** A user's public data together with a freshly issued token. */
  datatype Session = Session(id: int, name: string, isAdmin: bool, createdAt: int, token: string)

  function Public(u: User): (p: PublicUser)
    ensures p.id == u.id && p.name == u.name && p.isAdmin == u.isAdmin && p.createdAt == u.createdAt
  {
    PublicUser(u.id, u.name, u.isAdmin, u.createdAt)
  }

  /**
   * The outcome of resolving a request or a token to a stored user
   * (`getUserFromRequest`, `getUserFromToken`, which are not part of this
   * model): a user, no user, or a thrown error.
   */
  datatype Lookup = Found(user: User) | NoUser | Threw

  const Unauthorized: string := "Unauthorized"
  const MissingArguments: string := "Missing or invalid arguments"
  const InvalidInvitationCode: string := "Invalid invitation code"
  const UserAlreadyExists: string := "User already exists"
}
