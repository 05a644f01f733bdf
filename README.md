# RVE web dashboard server: a Dafny model of its checks, decisions and handlers

This project models the parts of the dashboard's server that decide
something on their own. It then proves what those parts promise.

- **Environment check.** The start-up validation of the process environment:
  ten required variables, a numeric `PORT` and `MQTT_BROKER_TLS_PORT`, a
  `JWT_SECRET` of at least 15 characters, and an allowed `NODE_ENV`.
- **Device-response frames.** The twelve inbound frame shapes sent by
  coordinators and nodes, as a closed datatype. A table-driven conformance
  predicate says when a parsed frame has one of those shapes. The three
  broker connection statuses are also modelled.
- **Broker status.** The status string reported for the broker client's
  `connected`/`disconnecting` flags.
- **Node grouping.** The grouping of coordinator nodes by coordinator.
- **Token cleanup.** The daily cron task that deletes tokens failing JWT
  verification.
- **Admission decisions.** The administrator middleware and the WebSocket
  `verifyClient` rule.
- **User and invitation handlers.** These run over a `Store` with three
  tables: users, invitations and tokens.

Most user and invitation handlers have two parts. The first is a pure
`...Spec` function from the tables before the request to the reply and the
tables after it. The second is a module-level method that takes the `Store`
and makes the source's database calls in the source's order. That method is
proved to agree with the function. This holds for `inviteUser`,
`getInvitationInfo`, `acceptInvitation`, `deleteInvitation`, `login`,
`logout` and `changePassword`. `listInvitations` changes nothing, so it is
only a method, specified directly through `EntryOf`. `getMe` reads no table,
so it is only a function. The lemmas beside each `...Spec` function state the
check order, that failures change nothing, and what a success creates or
deletes. They also prove that each handler keeps the tables well formed: ids
match their keys, and user names, invited usernames and token strings are
unique.

These collaborators are parameters or inputs:
- the environment map and the `Number`/`isNaN` coercion (`numeric`);
- bcrypt `compare`, which is a function parameter;
- the output of `hashSync`;
- the signed JWT;
- `shortUUID.generate()`;
- the `createdAt` clock (`now`);
- the typia `is<...>` body checks, where `None` means the check failed;
- `jwt.verify`;
- `getUserFromRequest` and `getUserFromToken`, which yield a user, no user, or an error.

The database's autoincremented ids come from counters in the store. Prisma
throws when a call breaks a unique constraint or deletes a missing row. The
model turns that into a `Rejected` reply: the handler's promise rejects and it
sends nothing.

Three points about the code shape the model:
- the WebSocket gateway reads the token only from the `authorization` header;
- a failing identity lookup during the WebSocket upgrade is answered with 500, while a missing token or user gets 401;
- the inbound frame types are declared, but the code has no decoder, so `Decode` is the narrowing those types describe.

## Model

| member | source | states |
|---|---|---|
| EnvChecks.Missing | src/env.checks.ts:24 | the missing names are exactly the listed names that are undefined; an empty string counts as defined; they keep the list's order (a subsequence) |
| EnvChecks.Diagnose | src/env.checks.ts:23-51 | the verdict is the first failing check: missing variables, then PORT, then the secret length, then the TLS port, then NODE_ENV, each characterised both ways |
| EnvChecks.CheckEnvironmentVariables | src/env.checks.ts:23-51 | true exactly when all five checks pass; false whenever a required variable is undefined |
| EnvChecks.MissingRequiredFails | src/env.checks.ts:24-28 | leaving out any one of the ten required names gives false, and that name is among those reported |
| EnvChecks.EmptyValueIsPresent | src/env.checks.ts:24 | a required name bound to "" is not reported missing |
| EnvChecks.EmptyPortSkipsCheck | src/env.checks.ts:30-33 | an empty PORT behaves like an undefined one and never gives the PORT failure |
| EnvChecks.SecretBoundary | src/env.checks.ts:35-38 | a 15-character secret passes and a 14-character one fails |
| EnvChecks.NodeEnvRule | src/env.checks.ts:45-48 | undefined NODE_ENV is accepted; a defined one must be "development" or "production" |
| MqttTypes.StatusFromValue | src/mqtt/mqtt_types.ts:1-5 | maps a string back to the status whose value it is |
| MqttTypes.StatusValueRoundTrip | src/mqtt/mqtt_types.ts:1-5 | each status is recovered from its string value |
| MqttTypes.StatusValuesDistinct | src/mqtt/mqtt_types.ts:1-5 | the strings "connected", "disconnecting", "disconnected" are pairwise distinct |
| MqttTypes.ConnectionStatus.Value | src/mqtt/mqtt_types.ts:1-5 | the enum's three string values; StatusFromValue inverts it (StatusValueRoundTrip) and the values are distinct (StatusValuesDistinct) |
| MqttTypes.Conforms | src/mqtt/mqtt_types.ts:128-140 | a frame has the shape of some member of the union exactly when a row of the response table admits it; its command code is then one of the twelve response codes |
| MqttTypes.Encode | src/mqtt/mqtt_types.ts:7-125 | the frame of a typed message keeps its coord_id and order_id; decoding it gives the message back (DecodeEncode) |
| MqttTypes.Decode | src/mqtt/mqtt_types.ts:128-140 | a frame that decodes is exactly the encoding of the message it decodes to |
| MqttTypes.DecodeEncode | src/mqtt/mqtt_types.ts:7-140 | every typed message survives encoding then decoding |
| MqttTypes.DecodeMatchesTable | src/mqtt/mqtt_types.ts:7-140 | a frame decodes exactly when some row of the twelve-row response table admits it |
| MqttTypes.CodesSelectOneVariant | src/mqtt/mqtt_types.ts:128-140 | no two response types share a command code |
| MqttTypes.ConformingCodes | src/mqtt/mqtt_types.ts:7-125 | a conforming frame's code is one of 5,10,15,20,25,35,40,45,50,55,60,65, never 30 |
| MqttTypes.ConformanceConstraints | src/mqtt/mqtt_types.ts:27-125 | codes 40-65 have node_id 0; codes 15,25,35,50,55 have param1 0; 60 has param1 1; 65 has param1 0 or 1 |
| MqttTypes.UnconstrainedFields | src/mqtt/mqtt_types.ts:7-125 | codes 5,10,20,40,45 accept any param1, and order_id may be set or absent in every type |
| CommandsController.GetBrokerConnectionStatus | src/components/commands/commands_controller.ts:7-15 | always 200 with success; "connected" when connected, else "disconnecting" when disconnecting, else "disconnected"; the data is a status value |
| CommandsController.ConnectedWins | src/components/commands/commands_controller.ts:8-10 | when connected, the disconnecting flag does not matter |
| CommandsController.ReportedStatusDetermined | src/components/commands/commands_controller.ts:8-14 | the reply determines whether the client was connected, and if not, whether it was disconnecting |
| CoordinatorController.GetNodes | src/components/coordinator/coordinator_controller.ts:8-21 | succeeds exactly when every node's coordinator id was read; the keys are then exactly the coordinator ids and each list is that coordinator's nodes in read order; otherwise it names an unknown coordinator id of some node |
| CoordinatorController.NodesOfSelectsInOrder | src/components/coordinator/coordinator_controller.ts:16-18 | a list holds exactly the nodes with that coordinator id, each position once, in increasing read position |
| CoordinatorController.NodesOfCounts | src/components/coordinator/coordinator_controller.ts:16-18 | a node occurs in its own coordinator's list as often as it was read, and in no other list |
| CoordinatorController.NoNodesGivesEmptyList | src/components/coordinator/coordinator_controller.ts:12-15 | a coordinator without nodes maps to the empty list |
| CoordinatorController.TotalLengthIsNodeCount | src/components/coordinator/coordinator_controller.ts:10-18 | with distinct coordinator ids covering every node, the list lengths add up to the number of nodes |
| CronTasks.FailingIds | src/tasks/cron_tasks.ts:14-18 | the selected ids are exactly those of rows failing verification, no more than the rows |
| CronTasks.FailingIdsDistinct | src/tasks/cron_tasks.ts:12-18 | over a table read, no id is selected twice |
| CronTasks.Cleaned | src/tasks/cron_tasks.ts:19 | after the delete, a token remains exactly when it passes verification, unchanged; users and invitations are untouched |
| CronTasks.CleanupExpiredTokens | src/tasks/cron_tasks.ts:10-21 | removes exactly the tokens failing verification (a throw counts as failing) and nothing else; the collected ids, whose count is logged, are those tokens, each once |
| CronTasks.CleanupExpiredTokensAsWritten | src/tasks/cron_tasks.ts:10-21 | with a throwing verify, the task completes only when no stored token throws, and otherwise changes nothing |
| CronTasks.CleanedAsWritten | src/tasks/cron_tasks.ts:15-19 | if any stored token's verification throws, the tables are left as they were |
| CronTasks.ExpiredTokenSurvivesAsWritten | src/tasks/cron_tasks.ts:15-19 | a token whose verification throws stays after the as-written cleanup and is gone after the corrected one |
| CronTasks.AsWrittenAgreesWithoutThrows | src/tasks/cron_tasks.ts:14-19 | when nothing throws, the two cleanups agree |
| CronTasks.CronScheduleIsDailyCleanup | src/tasks/cron_tasks.ts:23-25 | the schedule has one entry, "0 0 * * *", running the cleanup |
| Middlewares.IsAdminCheck | src/auth/middlewares.ts:9-26 | next is called exactly when the resolved user is an admin; 403 exactly when a user is resolved but is not an admin; 401 exactly when no user is resolved; exactly one of these |
| Middlewares.RequestUserTakesPrecedence | src/auth/middlewares.ts:10-14 | with req.user set, the lookup's outcome does not matter |
| WsApp.Admit | src/ws/createWsApp.ts:15-35 | accepted exactly when the header is non-empty and the lookup of that exact header value finds a user, who is the one accepted; 401 for no or empty header or no user; 500 for a lookup error |
| WsApp.VerifyClient | src/ws/createWsApp.ts:13-36 | gives the callback the decision of Admit and writes the accepted user onto the request, leaving it untouched on rejection |
| WsApp.MissingTokenNeverLooksUp | src/ws/createWsApp.ts:15-18 | without a usable header the verdict is 401 whatever the lookup would say |
| Database.Store.FindUserByName | src/components/invitation/invitation_controller.ts:52-56 | finds the stored user with that name, if any |
| Database.Store.FindUserById | src/components/invitation/invitation_controller.ts:26-30 | finds the stored user with that id, or nothing |
| Database.Store.FindInvitation | src/components/invitation/invitation_controller.ts:121-125 | finds the invitation with that code, or nothing |
| Database.Store.InvitationExistsFor | src/components/invitation/invitation_controller.ts:62-66 | true exactly when some invitation has that username |
| Database.Store.CreateUser | src/components/invitation/invitation_controller.ts:153-158 | adds one user with the next id, not an admin, unless the name is taken, in which case nothing changes |
| Database.Store.CreateInvitation | src/components/invitation/invitation_controller.ts:75-81 | adds one invitation unless its code or username is taken |
| Database.Store.CreateToken | src/components/invitation/invitation_controller.ts:175-180 | adds one token row with the next id unless the token string is stored |
| Database.Store.DeleteInvitation | src/components/invitation/invitation_controller.ts:161-165 | removes only the invitation with that code; fails and changes nothing if there is none |
| Database.Store.DeleteToken | src/components/user/user_controller.ts:86-90 | removes the row with that token string; fails and changes nothing if there is none |
| Database.Store.DeleteTokensOf | src/components/user/user_controller.ts:136-140 | removes every token of the user and nothing else |
| Database.Store.DeleteTokenIds | src/tasks/cron_tasks.ts:19 | removes exactly the tokens whose ids are listed and nothing else |
| Database.Store.UpdatePassword | src/components/user/user_controller.ts:126-133 | replaces only that user's password; fails and changes nothing if the id is unknown |
| Database.Store.FindManyTokens | src/tasks/cron_tasks.ts:12 | lists every stored token exactly once |
| Database.Store.FindManyInvitations | src/components/invitation/invitation_controller.ts:15-22 | lists every stored invitation exactly once |
| Database.AddUserWellFormed | src/components/invitation/invitation_controller.ts:137-158 | creating a user whose name is free keeps names unique and ids consistent |
| Database.AddInvitationWellFormed | src/components/invitation/invitation_controller.ts:61-81 | creating an invitation with a free code and username keeps the tables well formed |
| Database.AddTokenWellFormed | src/components/user/user_controller.ts:60-66 | storing a new token string keeps token strings unique |
| InvitationController.EntryOf | src/components/invitation/invitation_controller.ts:31-34 | an entry copies the invitation's id, username, inviterId and createdAt, and sets inviter to the inviter's name, or to nothing when there is no such user |
| InvitationController.ListInvitations | src/components/invitation/invitation_controller.ts:14-37 | 200 with one entry per stored invitation, each once, in read order, each carrying its inviter's name or nothing |
| InvitationController.InviteUserSpec | src/components/invitation/invitation_controller.ts:39-89 | 401 without requester, then 400 for a bad body, then 400 "User already exists", then 400 "Invitation already exists"; a clash on the generated code is rejected; every failure changes nothing; success exactly when name, invited username and code are free, and it adds exactly the one invitation with the requester as inviter |
| InvitationController.InviteUserCheckOrder | src/components/invitation/invitation_controller.ts:51-70 | when the name is both a user and invited, the existing user is reported |
| InvitationController.InviteUserWellFormed | src/components/invitation/invitation_controller.ts:51-81 | inviteUser keeps the tables well formed |
| InvitationController.InviteUser | src/components/invitation/invitation_controller.ts:39-89 | the handler's calls produce exactly InviteUserSpec's reply and tables |
| InvitationController.GetInvitationInfoSpec | src/components/invitation/invitation_controller.ts:91-117 | 404 exactly for an unknown code, and a 200 reply for every known code, carrying the invitation's data with the inviter's name and id, or neither when the inviter is gone |
| InvitationController.GetInvitationInfo | src/components/invitation/invitation_controller.ts:91-117 | the handler's reads give GetInvitationInfoSpec's reply and modify nothing |
| InvitationController.AcceptInvitationSpec | src/components/invitation/invitation_controller.ts:119-190 | 404 for an unknown code whatever the body, then 400 for a bad body, then 400 "User already exists", all without change; success creates the user with the invitation's username, removes that invitation and stores one token for the new user; a stored token string gives a rejection after the user is created and the invitation removed, with the tokens unchanged |
| InvitationController.AcceptInvitationPartialEffect | src/components/invitation/invitation_controller.ts:152-180 | if the token cannot be stored, the user is created and the invitation deleted anyway |
| InvitationController.AcceptInvitationWellFormed | src/components/invitation/invitation_controller.ts:137-180 | acceptInvitation keeps the tables well formed |
| InvitationController.AcceptInvitation | src/components/invitation/invitation_controller.ts:119-190 | the handler's calls produce exactly AcceptInvitationSpec's reply and tables |
| InvitationController.DeleteInvitationSpec | src/components/invitation/invitation_controller.ts:192-218 | 404 for an unknown code, 401 unless the requester is the inviter or an admin; success removes only that invitation |
| InvitationController.DeleteInvitation | src/components/invitation/invitation_controller.ts:192-218 | the handler's calls produce exactly DeleteInvitationSpec's reply and tables |
| UserController.GetMe | src/components/user/user_controller.ts:14-26 | 401 exactly without a user; with a user always 200 with that user's id, name, isAdmin and createdAt |
| UserController.GetMeHidesPassword | src/components/user/user_controller.ts:19-25 | the reply does not depend on the password hash |
| UserController.LoginSpec | src/components/user/user_controller.ts:28-76 | 400 for a bad body; any other failure is 400 "Invalid username or password" with no change; success exactly for a known name, matching password and fresh token, adding exactly one token for that user; rejected, with no change, exactly when the credentials match but the token string is already stored |
| UserController.LoginDoesNotRevealNames | src/components/user/user_controller.ts:41-51 | an unknown name and a wrong password get the identical reply |
| UserController.LoginWellFormed | src/components/user/user_controller.ts:53-66 | login keeps the tables well formed |
| UserController.Login | src/components/user/user_controller.ts:28-76 | the handler's calls produce exactly LoginSpec's reply and tables |
| UserController.LogoutSpec | src/components/user/user_controller.ts:78-99 | 400 "Missing token" without a bearer token; rejected exactly when the token is not stored (a second logout); both without change; success removes exactly the rows with that token and nothing else |
| UserController.LogoutRemovesOneRow | src/components/user/user_controller.ts:85-90 | in well-formed tables a logout deletes exactly one row |
| UserController.Logout | src/components/user/user_controller.ts:78-99 | the handler's calls produce exactly LogoutSpec's reply and tables |
| UserController.ChangePasswordSpec | src/components/user/user_controller.ts:101-149 | 400 bad body, then 401 no user, then 400 wrong old password, then rejected when the user's row is gone, all without change; success changes only that user's password and deletes all and only that user's tokens, counters unchanged |
| UserController.ChangePassword | src/components/user/user_controller.ts:101-149 | the handler's calls produce exactly ChangePasswordSpec's reply and tables |
| UserController.InviteUser | src/components/user/user_controller.ts:151-201 | the file's copy has exactly the invitation controller's inviteUser behaviour |
| UserController.GetInvitationInfo | src/components/user/user_controller.ts:203-229 | the file's copy has exactly the invitation controller's getInvitationInfo behaviour |
| UserController.AcceptInvitation | src/components/user/user_controller.ts:231-303 | the file's copy has exactly the invitation controller's acceptInvitation behaviour |

## Findings

| source | as written | input that shows it | evidently intended | confidence | as-written member | corrected member |
|---|---|---|---|---|---|---|
| src/tasks/cron_tasks.ts:15 | `!jwt.verify(...)` assumes a failed verification returns a falsy value. Called without a callback, `jwt.verify` throws for an expired or invalidly signed token. The first such token ends the task before `deleteMany`, so nothing is deleted. | a token table holding one token whose JWT has expired | tokens that fail verification, expired ones above all, are deleted | high, from the jsonwebtoken library's documented behaviour; not executed | CronTasks.CleanupExpiredTokensAsWritten (with CronTasks.ExpiredTokenSurvivesAsWritten) | CronTasks.CleanupExpiredTokens |

## Left out

- src/mqtt/mqtt_client.ts is left out: connecting, TLS options, reconnection, subscription and error logging are transport I/O. Its `connected`/`disconnecting` getters only delegate, so they are the two inputs of `GetBrokerConnectionStatus`.
- src/ws/event_emitter.ts is left out: it wraps Node's EventEmitter and imports a type that its module does not define.
- Command dispatch (`sendCommand`, `getCommandsList`, `testWSConnection`), the command catalog and order ids are left out: the router names them, but their code is not part of this model.
- src/index.ts, src/database/index.ts and the router files are left out: they are app wiring, the Prisma singleton and route registration. So the middleware is not composed with the handlers.
- src/auth/utils.ts is not part of this model. `getUserFromRequest` and `getUserFromToken` are the `Lookup` outcomes passed in.
- Library behaviour is not modelled: bcrypt, JWT signing and its expiry period, shortUUID, and typia's type checks. They are parameters.
- `Number`/`isNaN` coercion is not modelled. The `numeric` parameter decides it.
- Floating-point JSON numbers are not modelled: frame fields are integers.
- Console logging is not modelled. The count the cleanup logs is the length of the returned `tokensToDelete`.
- `req.logout` session callbacks, HTTP and WebSocket server creation, and the WebSocket error handler are not modelled.
- EnvChecks.SecretBoundary: the model counts a secret's length in Unicode scalar values. JavaScript counts UTF-16 code units, so the two differ for characters outside the Basic Multilingual Plane.
- CoordinatorController.GetNodes: nodes carry only `id` and `coordinatorId`. The other columns and the `{ success: true, data }` wrapper of the 200 reply are not modelled.
- Concurrent requests are not modelled: each handler runs atomically on the store. A race between a check and the create that follows it, such as two invitations for one name, is not modelled.
- Which error Prisma throws is not modelled, and neither is how Express answers a rejected handler: both are the single `Rejected` reply.
- Foreign-key constraints are not modelled: a token's user and an invitation's inviter are not checked against the users table.
- Database.Store.CreateUser: a new user is not an administrator. This follows the users table's default for `isAdmin`, which belongs to the Prisma schema, and that schema is not part of this model.
- JWT signing is a parameter, so a throw from `sign` is not modelled. `JWT_TOKEN_EXPIRATION_DAYS` is not among the required environment variables, so signing can fail at run time. In `acceptInvitation` that would happen after the user is created and the invitation deleted, the same partial effect that `AcceptInvitationPartialEffect` states for a stored token string.
- The `orderBy`-free `findMany` order is not modelled as a fixed order: the store enumerates rows in an arbitrary order.
