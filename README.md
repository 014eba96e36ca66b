# Task tracker backend: access control and task lifecycle

A Dafny model of the rules at the centre of an Express + Mongoose + Firebase
task-tracking backend. The backend keeps three collections (tasks, users,
notifications) and relies on an identity provider for accounts, bearer-token
verification and `role` claims, and on a push gateway. The model keeps these as
in-memory state and each route handler becomes a method on that state. Each
method ends with the kind of HTTP response the handler sends (`Outcome`: 200,
201, 400, 401, 403, 404 or 500).

Modules, one per source file:

- `Common`: optional values, `Outcome`, JavaScript truthiness of payload
  strings (`Present`), and the two store queries. `Where` is a `find` with an
  equality filter. `FirstIndex` is a `findOne`.
- `TaskModel` (models/Task.js): the priority setter, the status enum, the
  defaults and required fields, the update merge, and the `TaskCollection`
  class. Its invariant is that ids are unique.
- `UserModel` (models/User.js) and `NotificationModel` (models/Notification.js):
  the record shapes, their defaults, and the `UserCollection` and
  `NotificationCollection` classes. Users have unique ids and unique emails.
- `IdentityProvider`: the state the core sees of the identity provider and the
  push gateway. This is the accounts, the role claims and a log of attempted
  pushes.
- `TokenAuth` (middlewares/authenticateToken.js): header parsing, the
  401/403/next decision, and the middleware as a method on a request exchange.
  The same middleware is copied at routes/auth.js:8-22 and server.js:51-68; the
  model defines it once.
- `TaskRoutes` (routes/tasks.js): list, create, update and delete on the Task
  collection.
- `AuthRoutes` (routes/auth.js): `isAdmin`, register, login and update-role.
- `RoleAdmin` (updateRole.js): `updateUserRole`.
- `NotificationRoutes` (routes/notifications.js): post and list.
- `UsersRoute` (server.js): the `/api/users` listing with task counts.

External failures are boolean parameters of the handler that meets them:
`storeFails`, `saveFails`, `lookupFails`, `claimFails`, `providerRejects` and
`pushFails`. Token verification is a map from each token the provider accepts
to its decoded claims. Generated ids, uids and the current time are also
parameters.

The task and notification handlers run behind the token gate. Apart from the
gate they do not read `req.user`. So they are modelled as what runs after the
gate has called `next`. The two routes whose rules depend on the gate compose
it explicitly: update-role and `/api/users`.

Where the system's design description and its code differ, the model follows
the code:

- Create stores the `createdBy` sent in the payload. `TaskRoutes.CreateTaskAsCaller`
  is a separate hardened variant that forces the owner to the caller.
- Update matches by id only. It checks no ownership, and it can rewrite
  `createdBy`.
- A failed push after the notification is saved answers 500. It is not
  swallowed. The saved record stays.
- The update-role route accepts any non-empty role. Only `updateUserRole` in
  updateRole.js has the `user`/`admin` whitelist.
- Errors inside the register, login and update-role handlers answer 400, not
  500.

For `findOneAndUpdate` the model assumes three things. Undefined payload fields
are dropped from the update, so they keep their stored value. The priority
setter runs. The schema validators do not run. So an update stores the status,
title and so on as given.

## Model

| member | source | states |
|---|---|---|
| `TaskModel.NormalizePriority` | models/Task.js:16-23 | the stored priority is always 1, 2 or 3 |
| `TaskModel.NormalizeTable` | models/Task.js:17-21 | 'low'/'1'/1 give 1, 'medium'/'2'/2 give 2, 'high'/'3'/3 give 3 |
| `TaskModel.NormalizeNumber` | models/Task.js:17-22 | a number is its own priority when it is 1, 2 or 3, and 1 otherwise |
| `TaskModel.DecimalIsLevelKey` | models/Task.js:18-20 | a number is converted to the key "1", "2" or "3" exactly when it is 1, 2 or 3 |
| `TaskModel.NormalizeFallback` | models/Task.js:22 | every value outside the table falls back to 1, including case variants, other numbers, booleans, null and undefined |
| `TaskModel.NormalizeIdempotent` | models/Task.js:17-22 | normalising a normalised priority returns it unchanged |
| `TaskModel.SetterAsWrittenLeaksPrototype` | models/Task.js:16-23 | the setter as written returns the inherited member for "toString"; the corrected one returns 1 |
| `TaskModel.SetterAgreement` | models/Task.js:16-23 | the setter as written and the corrected one agree on every key that is not an Object.prototype name; on those names the setter as written returns no priority |
| `TaskModel.ResolveStatus` | models/Task.js:7-11 | a stored status is always in the enum; an absent one defaults to 'To do'; a value outside the enum is rejected |
| `TaskModel.NewTask` | models/Task.js:3-33 | a document is built exactly when id, title, description and createdBy are non-empty and the status is accepted; it then satisfies the schema, carries the payload's fields, the given id and attachments, and the defaults for absent fields; the priority goes through the corrected setter |
| `TaskModel.DefaultsOfBareTask` | models/Task.js:10-32 | a task without optional fields gets status 'To do', priority 1, no due date, assignedTo null, category '', attachments [] and completed false |
| `TaskModel.MergeUpdate` | routes/tasks.js:80-95 | an update keeps the id and creation time and re-stamps updatedAt; it writes the due date always (null when absent); it replaces attachments only when files were uploaded; each of title, description, status, assignedTo, createdBy, category and completed is overwritten when present and kept when absent; priority passes through the corrected setter when given |
| `TaskModel.OwnedBy` | routes/tasks.js:17 | the selection holds exactly the stored tasks whose createdBy equals the id, with their multiplicities |
| `Common.WhereAppend` | routes/tasks.js:17 | selection distributes over concatenation, so results keep store order |
| `TaskModel.OwnedByAppend` | routes/tasks.js:17 | a task saved after the others appears at the end of its owner's list, after the owner's earlier tasks, and other owners' lists are unchanged |
| `TaskModel.AppendFreshKeepsUnique` | models/Task.js:4 | saving a task whose id is not stored keeps ids unique |
| `TaskModel.ReplaceKeepsUnique` | routes/tasks.js:97-101 | rewriting a task in place under its own id keeps ids unique |
| `TaskModel.RemoveKeepsOthers` | routes/tasks.js:123 | removing a task keeps ids unique, leaves no task with its id, and keeps every task with another id |
| `TaskRoutes.ListTasks` | routes/tasks.js:15-22 | 200 with exactly the tasks created by the user, in store order (the body is the owner selection, see `TaskModel.OwnedByAppend`), or 500 when the store fails |
| `TaskRoutes.CreateTask` | routes/tasks.js:25-62 | 400 with no change when title, description or createdBy is missing or empty; 201 exactly when the document validates (with the corrected priority setter), its fresh id is unused and the store succeeds, and then the store gains exactly that task; otherwise 500 with no change |
| `TaskRoutes.UpdateTask` | routes/tasks.js:65-112 | the task with that id is replaced by the merge and nothing else changes; with no such id the answer is 404 and the store is unchanged |
| `TaskRoutes.UpdateTouchesOnlyMatch` | routes/tasks.js:97-101 | with unique ids, every task other than the matched one keeps its value |
| `TaskRoutes.DeleteTask` | routes/tasks.js:115-134 | 400 without createdBy; otherwise the first task matching both id and owner is removed, and with no match the answer is 404 and the store is unchanged |
| `TaskRoutes.DeleteMissIsMissingOrForeign` | routes/tasks.js:123-127 | the delete finds nothing exactly when the id is unknown or belongs to another owner, so both give the same 404 |
| `TaskRoutes.CreateTaskAsCaller` | routes/tasks.js:43-56 | the hardened create succeeds exactly when title and description are present, the caller is non-empty, the document with the caller as owner passes the schema, the id is free and the store accepts it; it then stores exactly the document built from the payload with the caller as owner, whatever the payload's createdBy says |
| `TokenAuth.Split` | middlewares/authenticateToken.js:5 | splitting on spaces gives at least one field and no field contains a space |
| `TokenAuth.JoinSplit` | middlewares/authenticateToken.js:5 | joining the fields with spaces gives the header back |
| `TokenAuth.TokenIsSecondField` | middlewares/authenticateToken.js:5 | for any first word, the token is the second field, or none when that field is empty; 'Bearer' is not checked |
| `TokenAuth.TokenComesFromSecondField` | middlewares/authenticateToken.js:5 | a token found is non-empty, has no space and is the second field of the header |
| `TokenAuth.MissingTokenCases` | middlewares/authenticateToken.js:5-10 | a missing header, a header with no space, and an empty second field all give no token |
| `TokenAuth.Authenticate` | middlewares/authenticateToken.js:3-21 | 401 exactly when there is no token; 403 exactly when the provider rejects it; otherwise the request goes on with the decoded token |
| `TokenAuth.AuthenticateToken` | middlewares/authenticateToken.js:12-20 | when rejected, the response is set and neither req.user nor next is touched; when accepted, req.user is the decoded token and next is called exactly once |
| `AuthRoutes.AdminGuard` | routes/auth.js:24-29 | the request goes on exactly when the caller's role claim is 'admin'; otherwise the answer is 403 |
| `AuthRoutes.Register` | routes/auth.js:32-65 | 400 with nothing created when email, password or username is missing; 201 exactly when the identity, the user document and the claim are all written, and then the user has id = uid, role 'user' and avatar '', and the claim role equals the stored role; a rejected createUser writes nothing and a failed save adds no user document; once the identity is created it stays whatever fails after it, and once the user document is saved it stays when the claim write fails |
| `AuthRoutes.Login` | routes/auth.js:68-96 | 400 without an email, 404 when no user has it, and otherwise 200 with a stored user who has that email |
| `AuthRoutes.UpdateRoleRoute` | routes/auth.js:99-119 | gate, then the admin guard, then 400 for an empty id or role (any role accepted), then 404 for an unknown id with no claim change; the user document is written before the claim, a store error or a failed claim write (or an id with no identity) after the write answers 400; success leaves both equal to the requested role |
| `RoleAdmin.UpdateUserRole` | updateRole.js:11-32 | a role outside {user, admin} fails before any lookup or write; an unknown user fails and no claim is written; on success the stored role and the claim are newRole; a failed save returns StoreError with the store unchanged; a failed claim write (or a user without an identity) returns ClaimsError and leaves the saved role; every failure is returned |
| `UserModel.NewUser` | models/User.js:3-13 | notificationsEnabled defaults to true and role to 'user'; avatar and push token are optional |
| `UserModel.InsertKeepsUnique` | models/User.js:4-6 | saving a user whose id and email are both unused keeps both unique |
| `UserModel.SetRoleKeepsUnique` | models/User.js:4-10 | changing a role keeps ids and emails unique |
| `NotificationModel.NewNotification` | models/Notification.js:3-10 | a record carries the five given fields and the given or current creation time; with non-empty fields it has every required field |
| `NotificationRoutes.PostNotification` | routes/notifications.js:8-45 | 400 with nothing saved for a missing field, 404 with nothing saved for an unknown recipient; otherwise exactly one record with the given fields is appended; a push is attempted only when the recipient has a push token and notifications on; a failed lookup or save answers 500 with nothing saved; a 200 always means a record was saved; a push failure answers 500 with the record still saved |
| `NotificationRoutes.InsertByDate` | routes/notifications.js:49 | inserting into a newest-first sequence keeps it newest first and adds exactly one record |
| `NotificationRoutes.SortNewestFirst` | routes/notifications.js:49 | the sorted result is newest first and a permutation of its input |
| `NotificationRoutes.ListNotifications` | routes/notifications.js:47-55 | 200 with exactly the user's notifications, newest first, or 500 when the store fails |
| `UsersRoute.ViewOf` | server.js:90-104 | a task's view keeps its id and owner, and its due date is null when absent |
| `UsersRoute.SummaryOf` | server.js:81-108 | an entry's tasks all belong to that user and taskCount is their number |
| `UsersRoute.Summaries` | server.js:79-111 | one entry per stored user, in store order |
| `UsersRoute.SummaryListsOwnTasks` | server.js:82-105 | each entry lists a view of every task the user created and no other, and counts them |
| `UsersRoute.GetUsers` | server.js:77-116 | 401 without a token, 403 for a rejected one, 500 when the store fails, and otherwise one entry per user with its own tasks and their count |

## Findings

| source | as written | input that shows it | evidently intended | confidence | as-written member | corrected member |
|---|---|---|---|---|---|---|
| models/Task.js:16-23 | `priorityMap[v] \|\| 1` looks the key up on an ordinary object literal, so names inherited from Object.prototype are found and returned (a function or an object) instead of the fallback | priority "toString" (also "constructor", "valueOf", "__proto__"); the setter returns a function, which cannot be cast to Number, so the create fails instead of storing priority 1 | every key outside the table gives priority 1 | medium, not executed | `TaskModel.PrioritySetterAsWritten`, shown by `TaskModel.SetterAsWrittenLeaksPrototype` | `TaskModel.NormalizePriority` |

The rest of the model stores the corrected `NormalizePriority`.

## Left out

- Firebase Admin initialisation, service-account loading, the MongoDB connection, creating the uploads directory, static serving and `app.listen`: these are process start-up I/O.
- create_user.js and setCustomClaims.js: one-shot scripts around provider calls, with no logic of their own.
- routes/users.js: a field projection that server.js does not mount.
- Multer disk storage and file names: uploaded files arrive as a list of path strings.
- uuid generation: the fresh task id is a parameter. A clash with a stored id takes the unique-index failure path (500).
- `JSON.parse` of `req.body.task`, response bodies and messages: only the outcome kind is modelled.
- Payload fields are `Option<string>`: None stands for undefined, null and other falsy non-strings. An explicit null in an update is not told apart from an absent field.
- TaskModel.NewTask, TaskModel.MergeUpdate, TaskRoutes.CreateTask, TaskRoutes.UpdateTask: these use the corrected priority setter (see "## Findings"). As written, a priority named after an Object.prototype member (`"toString"`, `"constructor"`, …) gives a function or object that Mongoose cannot cast to Number. So the source's create fails at `task.save()` and answers 500 (routes/tasks.js:56-60), and its update fails the cast and answers 500 (routes/tasks.js:97-110). The model stores priority 1 with 201 and 200 instead.
- TaskModel.NewTask, TaskModel.ResolveStatus, TaskRoutes.CreateTask: on create, Mongoose applies a schema default only to an undefined field. An explicit `null` category is stored as null rather than `''`. An explicit `null` status is stored as null or rejected by the enum validator, never defaulted to 'To do'. A falsy non-string status such as `false` or `0` is cast to `"false"`/`"0"`, fails the enum check, and the source answers 500. The model reads all of these as absent, stores 'To do' and `''`, and answers 201.
- TaskRoutes.DeleteTask, AuthRoutes.Login: a truthy non-string field (a JSON object such as `{"$ne": null}`) is not modelled. Mongoose reads an object in a filter as a query operator. So a DELETE body whose `createdBy` is such an object matches the task whatever its owner (routes/tasks.js:123), and a login `email` of that form returns the first user (routes/auth.js:76). The model's payload strings cannot express this. `TaskRoutes.DeleteMissIsMissingOrForeign` holds only for string owners.
- Dates: instants are opaque naturals supplied by the caller. Date parsing and `toISOString` are not modelled, and neither is an invalid date's cast failure.
- The priority payload covers strings, integral numbers, booleans, null and undefined. Arrays, objects and non-integral numbers are not modelled.
- Concurrency: requests run one after another. The last-write-wins race on one task and the `Promise.all` fan-out in `/api/users` are not modelled.
- Push delivery and token cryptography: a push is an entry in the gateway's attempt log, and verification is a lookup in the verdict map.
- Console logging.
- NotificationRoutes.ListNotifications: the relative order of notifications with equal createdAt is not stated. The database does not fix it either.
- TaskRoutes.UpdateTask: the update path assumes Mongoose drops undefined fields and runs setters but not validators. Other library versions may differ.
