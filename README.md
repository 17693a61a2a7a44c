# Account workflow of the thrift-store API

A Dafny model of the authentication controller of a small Laravel REST
backend. The controller registers users together with a *persona* (the
real-world identity behind a login: nombre, cedula, direccion,
fecha_nacimiento), logs users in, lists them, lets a user change its own
name and password, and deletes users. Every handler answers with a status
code and a body, and changes the `users`, `personas` and token tables in a
precisely stated way.

Layout:

- `wrappers.dfy` — `Option`.
- `hashing.dfy` — the framework's password hasher (`Hash::make`, `Hash::check`) as an ideal one-way digest; the random salt is a parameter.
- `accounts.dfy` — the rows of `users` and `personas`, bearer tokens, the email lookup, and what the `auth:sanctum` middleware accepts.
- `validation.dfy` — the request payloads and the validator rules the handlers run (`required` with PHP's trimming, `email`, `unique:users,email`, `min:6`).
- `auth_controller.dfy` — the status codes and messages, the pure decisions (owner gate, login check), and the class `AccountStore` with one method per handler. Its fields are the three tables, their auto-increment counters, and the validator's `email` rule. `Valid()` is the store invariant every handler keeps. It says that ids lie below their counters, emails are unique and were accepted by the rules, and every user points at a stored persona that no other user points at.
- `account_properties.dfy` — properties that span several handlers, and the registration scenario carried out twice on a fresh store, as a verified method.

Things the model makes explicit:

- Registration inserts the persona, then the user, then the token. These writes are not one transaction. If the user insert fails, the answer is 500 and the new persona stays stored with no user.
- `updatename` and `updatepassword` check that the user exists (404) before they check that it is the requester (403).
- A login with an unknown email and a login with a wrong password get the same 401 answer.
- Deleting a user does not compare the requester with the target. It removes only that user row. The user's persona stays stored, and so do its tokens. Those tokens no longer authenticate. Under the model's id counter they never will again: every handler keeps freed user ids free (`FreedIdsStayFree`), so no later user gets the deleted user's id.
- The role id is stored as given. Nothing checks that the role exists.
- The handlers behind the token middleware take the bearer token and require that it authenticates the requester. Registration and login take none.
- Every write the database may reject is a parameter of the handler (`Fault`, `writeFails`, `tokenInsertFails`). A rejected write is answered with 500.

Details the model takes from the code as written:

- The code checks 404 before 403.
- Registration validation failures answer 401, not a separate validation status.
- The persona fields are named `nombre`, `cedula`, `direccion`, `fecha_nacimiento`, and the role field is `id_rol`.
- A failed password-change validation is the framework's validation exception. For a JSON client it answers 422, the same status as a wrong old password.
- Registration is not atomic.

## Model

| member | source | states |
|---|---|---|
| `Hashing.Make` | app/Http/Controllers/AuthController.php:170 | the password always checks against the digest made from it |
| `Accounts.FindByEmail` | app/Http/Controllers/AuthController.php:254 | on a table with unique emails, finds a user exactly when one has that email, and it is that user |
| `Accounts.Authenticate` | routes/api.php:34-44 | a token authenticates only if it is in the token table and its user is still stored, and then as that user |
| `Validation.RegistrationErrors` | app/Http/Controllers/AuthController.php:139-150 | every one of the eight fields is rejected exactly when it is missing or blank; the email also when it is malformed or already belongs to a user; no error means every field is present |
| `Validation.LoginErrors` | app/Http/Controllers/AuthController.php:233-237 | the login payload passes exactly when the email is present and well formed and the password is present |
| `Validation.PasswordChangeErrors` | app/Http/Controllers/AuthController.php:449-452 | the payload passes exactly when the old password is present and the new one is present and at least 6 characters long |
| `AuthController.OwnerGate` | app/Http/Controllers/AuthController.php:356-365 | a missing user is "not found" whoever asks (404 before 403); the gate opens exactly when the user exists and is the requester |
| `AuthController.LoginCheck` | app/Http/Controllers/AuthController.php:239-254 | invalid payloads are rejected with their errors; an accepted login names the user with that email whose digest checks the password; "wrong credentials" means no user with that email has a digest that checks it |
| `AuthController.AccountStore.IssueToken` | app/Http/Controllers/AuthController.php:178 | a token that was not issued before is mapped to the user; nothing else changes |
| `AuthController.AccountStore.InsertPersona` | app/Http/Controllers/AuthController.php:159-165 | a persona row under a fresh id that no user points at yet; the persona counter moves by one |
| `AuthController.AccountStore.InsertUser` | app/Http/Controllers/AuthController.php:167-173 | a user row under a fresh id, keeping the store invariant when its email is unused and its persona is stored and unreferenced; the user counter moves by one and no freed id is taken |
| `AuthController.AccountStore.CreateUser` | app/Http/Controllers/AuthController.php:137-186 | on a validation failure: 401 with the failing fields, nothing changes; on success: exactly one persona with the four given fields, exactly one user with the given name, email and role, linked to that persona and holding `Make(password)`, and 200 with a fresh token for it; a failed user insert answers 500 and keeps the new persona; on every path each id counter either stays or moves by exactly one, and no freed user id is reused; the store invariant (unique emails included) is kept |
| `AuthController.AccountStore.LoginUser` | app/Http/Controllers/AuthController.php:230-268 | 401 with the errors on invalid input; the same 401 message for an unknown email or a wrong password; otherwise 200 with a fresh token for the user with that email; users and personas never change |
| `AuthController.AccountStore.ListUsers` | app/Http/Controllers/AuthController.php:295-298 | for an authenticated token, 200 with every stored user, each as stored |
| `AuthController.AccountStore.UpdateName` | app/Http/Controllers/AuthController.php:354-372 | for the user the token authenticates: 404 for a missing target, else 403 for another requester, both with nothing changed; otherwise only that user's name changes and the answer is 200 |
| `AuthController.AccountStore.UpdatePassword` | app/Http/Controllers/AuthController.php:436-464 | for the user the token authenticates: 404, then 403, then 422 with the failing fields, then 422 when the old password does not check, each with every digest unchanged; otherwise only that user's digest changes, to `Make(new)` |
| `AuthController.AccountStore.DestroyUser` | app/Http/Controllers/AuthController.php:516-529 | for any authenticated token: 404 for a missing user with nothing changed; otherwise exactly that user is removed whoever asks, personas and tokens are untouched and its persona is left with no user |
| `AccountProperties.DuplicateRegistrationRejected` | app/Http/Controllers/AuthController.php:142 | once a registration has stored its user, the same payload is rejected on its email |
| `AccountProperties.RegisteredUserCanLogIn` | app/Http/Controllers/AuthController.php:159-173 | the user a registration stores logs in with the registered email and password, and emails stay unique |
| `AccountProperties.UnknownEmailLooksLikeWrongPassword` | app/Http/Controllers/AuthController.php:247-252 | an unknown email and a wrong password for a known email both end in the same "wrong credentials" outcome |
| `AccountProperties.NewPasswordLogsIn` | app/Http/Controllers/AuthController.php:459-461 | after a password change the user logs in with the new password |
| `AccountProperties.IssuedTokenAuthenticates` | app/Http/Controllers/AuthController.php:178 | a token issued to a stored user authenticates as that user |
| `AccountProperties.DeletedUserCannotAuthenticate` | app/Http/Controllers/AuthController.php:523 | after a user is deleted, no token authenticates as it |
| `AccountProperties.DeleteOrphansPersona` | app/Http/Controllers/AuthController.php:523 | after a user is deleted, no user points at its persona |
| `AccountProperties.DeletedTokenStaysDead` | app/Http/Controllers/AuthController.php:516-525 | after a deletion, a registration whose user insert fails and a successful registration, the deleted user's token still does not authenticate |
| `AccountProperties.RegisterTwice` | app/Http/Controllers/AuthController.php:139-179 | on a fresh store, a complete registration answers 200 with the first token, and the same registration again answers 401 for its email alone |

## Left out

- `update` (app/Http/Controllers/AuthController.php:466-472): no route reaches it.
- The routes served by the persona controller (routes/api.php:36-38, 41): that controller is not part of this model. One of them deletes personas. `Valid()` says every user points at a stored persona, and that holds only for the handlers modelled here.
- The relation methods of the persona and role models, the API documentation annotations and the documentation routes.
- Response serialisation. Bodies are abstract values, and the 500 body leaves out the exception text. Which user columns `listuser` shows depends on the user model's hidden attributes; `app/Models/User.php` is not part of this model.
- Hashing.Check: an ideal check, under which a password checks only against its own digest. bcrypt reads only the first 72 bytes of a password. No contract in the model relies on more than "a password checks against the digest made from it".
- The validator's `email` rule is foreign code. The store holds it as a function field, and nothing is assumed about it.
- Token format: a token is its row id. The random secret that Sanctum appends is left out.
- Database reads (`find`, `all`, `where`) are taken never to fail. Rejected writes are parameters.
- AuthController.AccountStore.FreedIdsStayFree, AccountProperties.DeletedTokenStaysDead: the database is taken never to hand out an auto-increment id twice. PostgreSQL sequences, SQLite AUTOINCREMENT and MySQL 8 keep to this. MySQL before 8.0 may give out the highest freed id again after a restart, and a deleted user's token then authenticates as the new user.
- A rejected insert that still consumes an auto-increment value is not modelled; the counters move only on a stored row.
- Email comparisons are exact. A case-insensitive column collation is not modelled.
- Accounts.FindByEmail, AuthController.LoginCheck: require unique emails, which `Valid()` keeps. On a table with duplicate emails the source picks whichever row the database returns first.
- The framework's request middleware (trimming, empty strings turned into null) is not modelled. Payloads are taken as the controller receives them, with every field a string and `id_rol` an integer.
- AccountProperties.NewPasswordLogsIn: holds for payloads as the controller receives them. Under the default trimming middleware, which exempts `password` but not `new_password`, a new password with leading or trailing spaces is stored trimmed and must be typed trimmed at login.
- AuthController.AccountStore.UpdateName: a missing `name` reaches the database as null. It is covered only as a rejected write (`writeFails`), not as a case of its own.
- AuthController.AccountStore.UpdatePassword: a client that does not ask for JSON gets a redirect instead of the 422 on a validation failure. The model gives the JSON answer.
- The session login that `Auth::attempt` performs besides checking the credentials.
- Path ids are taken to be integers. What a non-integer id does depends on the database and is not modelled.
- Concurrency: each handler runs alone against the store.
