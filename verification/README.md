# User directory of api-usuarios-simples, modelled in Dafny

The service keeps user accounts in one MySQL table, `usuarios`, and exposes
six Express routes over it: create (`POST /api/users`), list
(`GET /api/users`), get (`GET /api/users/:id`), update (`PUT /api/users/:id`),
delete (`DELETE /api/users/:id`) and login (`POST /api/login`). Passwords are
stored as bcrypt hashes. Emails are lower-cased before they are stored or
looked up.

This project models that directory as a state machine:

- `text.dfy` (module `Text`): request fields (absent or a string), JavaScript
  truthiness, and `Lower`, the ASCII part of `toLowerCase`.
- `credentials.dfy` (module `Credentials`): bcrypt reduced to its contract.
  `Hash(password, salt)` embeds the salt. `Verify(password, hash)` recomputes
  the digest under that salt. The salt is an input.
- `accounts.dfy` (module `Accounts`): the table is a map from the numeric id
  to a row (`name`, `email`, `passwordHash`, `role`), plus the AUTO_INCREMENT
  counter. Each route is a pure function. The writing routes return a
  `Step`: the response and the next state. The reading routes return only the
  response. A response is `Ok` or one of `Validation` (400), `Conflict` (409),
  `NotFound` (404) and `Unauthorized` (401), each with the route's message.
  Success bodies are a `View`, a type with no password-hash field. No
  response can carry a hash.
- `properties.dfy` (module `AccountProperties`): the directory invariant
  (every stored email is lower case and no two rows share one), which routes
  keep it, and round trips between the routes.

The main invariant is kept by create and delete. Update does not re-check
uniqueness. `UpdateCanDuplicateEmail` proves that update breaks the invariant
in every table that satisfies it and has two rows with non-empty emails.
`LoginChecksFirstMatchOnly` shows the consequence for login.

Behaviour worth noting:

- The role defaults to `"user"` only when the field is absent. An empty
  string role is stored as given.
- Login answers with the whole row minus its hash, not with the id only.
- When two rows share an email, a lookup by email takes the first row. The
  model fixes that as the lowest id. The query has no ORDER BY, so this is
  the primary-key scan order.

## Model

| member | source | states |
|---|---|---|
| Text.LowerChar | src/index.js:27 | only 'A'..'Z' change, each to the letter 32 code points above; the result is never upper case |
| Text.Lower | src/index.js:27 | the lower-cased email has the same length, contains no upper-case letter, and lowers each character in place |
| Text.LowerKeepsLower | src/index.js:27 | an already lower-case string is left unchanged by lower-casing |
| Text.LowerIdempotent | src/index.js:27 | lower-casing twice is the same as lower-casing once |
| Text.LowerIgnoresCase | src/index.js:27-34 | two emails that differ only in letter case lower-case to the same stored key |
| Credentials.Hash | src/index.js:37 | a fresh hash records its salt and verifies the password it was made from (`Verify(p, Hash(p, s))`) |
| Credentials.HashesDifferBySalt | src/index.js:37 | hashing one password with two different salts gives two different hashes, and both verify |
| Accounts.Status | src/index.js:22-171 | a create's success is 201 and every other success 200; missing fields answer 400, a taken email 409, an unknown id 404 and bad credentials 401, and every error code is a 4xx |
| Accounts.FindByEmail | src/index.js:30-33 | the lookup by email returns the lowest id in range whose row has that email; none if no row in range has it |
| Accounts.Lookup | src/index.js:30-33 | over a consistent table, the lookup finds a row exactly when some row has that email |
| Accounts.Create | src/index.js:16-47 | succeeds iff name, email and password are all non-empty and no row holds the lower-cased email; otherwise 400 (missing field) or 409 (taken) and the table is unchanged; on success the id is fresh, only that row is added, it stores the name, lower-cased email, given role or "user" when absent, and the hash of the password, and the response is its public view |
| Accounts.ListRange | src/index.js:58-61 | the listing of an id range holds exactly the public views of the rows in that range, in strictly ascending id order |
| Accounts.List | src/index.js:55-61 | the listing holds the public view of every row, only of rows, each id once |
| Accounts.Get | src/index.js:69-84 | answers the row's public view iff the id is stored, else 404 |
| Accounts.Update | src/index.js:92-124 | unknown id gives 404 and no change; otherwise the set of ids, the counter and every other row are unchanged; each truthy field replaces the old value (email lower-cased, password re-hashed), each falsy one keeps it; the response is the updated public view |
| Accounts.Delete | src/index.js:132-144 | unknown id gives 404 and no change; otherwise exactly that row is removed, every other row is unchanged, the counter is kept, and the response is the id |
| Accounts.Login | src/index.js:154-175 | success only for a stored row with the lower-cased email whose hash verifies the password, answered with that row's public view; every failure, including an unknown email, is the same 401 |
| AccountProperties.EmptySatisfiesInvariant | src/index.js:27-42 | the empty table satisfies the email invariant |
| AccountProperties.CreatePreservesInvariant | src/index.js:27-42 | create keeps every stored email lower case and all emails pairwise distinct |
| AccountProperties.DeletePreservesInvariant | src/index.js:137-142 | delete keeps the email invariant |
| AccountProperties.UpdatePreservesNormalized | src/index.js:105-116 | update keeps every stored email lower case and the counter ahead of every id |
| AccountProperties.UpdateCanDuplicateEmail | src/index.js:102-116 | in any table satisfying the invariant, updating one row to another row's email is accepted and leaves two rows with the same email |
| AccountProperties.LoginSucceedsIff | src/index.js:157-171 | while emails are distinct, login succeeds iff some row has the lower-cased email and its hash verifies the password |
| AccountProperties.LoginChecksFirstMatchOnly | src/index.js:160-171 | with duplicated emails, login is refused when the first matching row's hash rejects the password, even if a later row's hash accepts it |
| AccountProperties.LoginFailuresIdentical | src/index.js:163-171 | an unknown email and a wrong password produce the identical 401 response |
| AccountProperties.CreateThenGet | src/index.js:45-47 | after a successful create, get on the new id answers the same view, with the given name and the lower-cased email |
| AccountProperties.CreateThenList | src/index.js:40-61 | after a successful create, the listing contains the new user's view |
| AccountProperties.CreateThenLogin | src/index.js:37-47 | after a successful create, login with the same password and any case variant of the email succeeds with the new user's view |
| AccountProperties.CreateTwiceConflicts | src/index.js:27-34 | a second create with an email that differs only in case gets 409 and changes nothing |
| AccountProperties.DeleteThenGet | src/index.js:137-144 | deleting a stored id answers that id, and a later get on it gives 404 |
| AccountProperties.DeletedIdNotReused | src/index.js:40-45 | a create after a delete never hands out the deleted id again |
| AccountProperties.CreateOnEmpty | src/index.js:18-47 | the first create on an empty table gets id 1 (the first AUTO_INCREMENT value) with the default role, and that row is the only one |
| AccountProperties.ScenarioMixedCase | src/index.js:27 | "Ana@X.com" lower-cases to "ana@x.com" |
| AccountProperties.ScenarioUpperCase | src/index.js:27 | "ANA@X.COM" lower-cases to "ana@x.com" |
| AccountProperties.ScenarioLowerCase | src/index.js:157 | "ana@x.com" is unchanged by lower-casing |
| AccountProperties.Scenario | src/index.js:16-175 | create Ana@X.com stores ana@x.com with id 1; a create with ANA@X.COM gets 409; login with the right password answers the new user; a password the hash rejects gets 401 |

## Left out

- db/database.js (the MySQL pool and its environment variables) is not part of this model. It has no logic.
- Express, CORS, JSON body parsing and `app.listen` (src/index.js:1-11, 184-186) are HTTP plumbing. The handlers are modelled as functions of the request fields.
- The SQL text and the `db.query` calls are modelled only by their effect on the map. MySQL collation is not modelled: `email = ?` is exact equality.
- The 500 responses are not modelled. They cover every database or bcrypt exception and the `console.error` logging. `Login` takes the email and the password as strings. A login without an email is a TypeError and a 500. A login without a password answers 401 when the email is unknown. When the email is known, `bcrypt.compare` rejects the missing password with an "Illegal arguments" error, and the route answers 500.
- `createdAt` is a database-assigned timestamp and is not modelled. List, get and login views therefore lack it.
- `parseInt(id)` on route parameters is not modelled: ids are natural numbers.
- The success bodies' `message` texts of update and delete are not modelled.
- The race between the duplicate-email check and the insert under concurrent requests is not modelled. The model is sequential.
- bcrypt internals are not modelled: the cost factor `SALT_ROUNDS`, the real digest, and the 72-byte password limit. The digest is a stand-in polynomial hash. Proofs use only `Hash`/`Verify` and the embedded salt.
- Text.Lower: lower-cases ASCII letters only. JavaScript's `toLowerCase` also maps non-ASCII letters, and the model does not.
- Request fields are either absent or a string. JSON `null` and non-string values are not modelled. For example, a `null` role on create would be stored as NULL.
- The database schema is not part of the model. If `email` had a UNIQUE index, a duplicating update would end in a 500 instead of succeeding. The model follows the handler code, which makes no such check.
- Accounts.FindByEmail: `rows[0]` of a SELECT with no ORDER BY is taken to be the row with the lowest id. MySQL does not promise this. It matters only when an update has left two rows with the same email.
- AccountProperties.DeletedIdNotReused: the AUTO_INCREMENT counter is modelled as never going back. It starts at 1 in `Empty`. InnoDB before MySQL 8.0 resets the counter to max(id)+1 on a server restart. Restarts are not modelled, and after one a deleted highest id could be handed out again.
- Accounts.List: the order of the unordered SELECT is fixed as ascending id; MySQL does not promise any order.
