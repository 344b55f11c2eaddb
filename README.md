# Identity and session registry of the time-reservation backend

This project models, in Dafny, the identity and session core of the NestJS backend of
the time-reservation application, and proves properties of that model.

- **Token registry** (`TokensService`, module `Tokens`). This is a table of
  `(id, user_id, access_token)` rows. Signed session tokens become revocable because
  of it. Rows are added on `createToken`. `removeToken` deletes the rows matching a
  user and a token. `removeTokensByUserId` deletes all rows of one user.
  `checkIsValidToken` looks the token up in the table first and verifies its
  signature second. Either failure gives `Unauthorized`. On success it returns the
  verified claims.
- **User directory** (`UserService`, module `Users`). This is a table of
  `(id, name, email, password digest)` rows. `createUser` refuses an email that is
  already taken, with code 409 (CONFLICT), and stores a salted hash of the password.
  `removeUser` is guarded: the user must exist, a non-empty password must be given,
  and that password must match the stored digest. Only then does it delete the
  user's token rows and then the user.
- **Apple Sign-In normalisation** (`AppleAuthUtils`, module `AppleAuth`). A request
  is valid when it carries a non-empty identity token and a non-empty Apple id. The
  display name is `"given family"`, or whichever part is present, or `"Apple User"`.

Supporting modules:

- `Common` holds `Option`, `Result` and JavaScript truthiness of optional strings.
- `Table` holds the repository queries both services issue. These are
  find-one-by-criteria, delete-by-criteria and the count a delete reports.

Collaborators become parameters of the model:

- JWT signature and expiry checking is the `verify: (string, nat) -> Option<Claims>`
  field that a `TokensService` is built with. It takes the token and the current
  time. The clock reading is the `now` argument of `CheckIsValidToken`, so a token
  accepted at one call can be rejected at a later call once it has expired.
- bcrypt is a `Hasher` with `hash(password, salt)` and `compare(password, digest)`.
  `Hasher.Sound()` states the one property assumed of it: `compare(p, hash(p, s))`
  holds for every `p` and `s`. The random salt is a parameter of `CreateUser`.
- `UserService` reaches the tokens table through the `TokensService` it holds. In
  the source, both services inject the same tokens repository, and `removeUser`
  issues the same `delete({ user_id })` as `removeTokensByUserId`.

Every asynchronous call is modelled as one sequential step.

Each class keeps an invariant, `Valid()`:

- Generated primary keys strictly increase in table order.
- Every key is below the next one to be generated.
- No two users share an email.

Every state-changing method preserves this invariant.

## Design versus code

Where the intended design of the system and the code differ, the model follows the code:

- The design validates the signature before the registry. The code looks up the
  registry first (`tokens.service.ts:34-37`) and verifies second (`:38-43`). Both
  failures give `Unauthorized`, so the result is the same.
- The design keys a registry entry on (user, token). The code's lookup uses the
  token string only (`tokens.service.ts:34`). So a row owned by any user admits a
  well-signed token (`Tokens.LookupIgnoresOwner`).
- The design makes revoking an unknown token an `Unauthorized` error. The code's
  `removeToken` returns the delete result, which has `affected: 0` and no error.
- The design's user record has optional provider ids and an optional password. The
  code's `User` entity has only id, name, email and password.

## Model

| member | source | states |
|---|---|---|
| Table.FindOneBy | backend/src/tokens/tokens.service.ts:34 | `findOneBy` yields a row that meets the criteria and is in the table, and yields nothing exactly when no row meets them |
| Table.DeleteWhere | backend/src/tokens/tokens.service.ts:26-29 | `delete(criteria)` leaves exactly the rows that do not match, each with its original multiplicity |
| Table.CountWhere | backend/src/tokens/tokens.service.ts:51 | the number of matching rows is at most the table size, and is zero exactly when no row matches |
| Table.DeleteWhereCount | backend/src/tokens/tokens.service.ts:50-52 | the `affected` count of a delete equals the number of rows the delete removed |
| Table.DeleteWhereKeepsIncreasing | backend/src/tokens/entities/tokens.entity.ts:8-9 | deleting rows keeps generated primary keys strictly increasing |
| Table.CountUniqueKey | backend/src/user/user.service.ts:82 | a delete by a primary key that some row has affects exactly one row |
| Tokens.FindByToken | backend/src/tokens/tokens.service.ts:34 | the lookup by `access_token` succeeds exactly when some row, of any user, carries the token, and it yields such a row |
| Tokens.Validate | backend/src/tokens/tokens.service.ts:32-48 | the check succeeds exactly when the token is registered AND its signature verifies; it fails with Unauthorized when no row carries the token, whatever the signature, and when verification fails, even if a row exists; on success it returns the verified claims |
| Tokens.AfterRemoveToken | backend/src/tokens/tokens.service.ts:25-30 | after `removeToken(u, t)` no row has both `user_id = u` and `access_token = t`; every other row is kept with its multiplicity, including `u`'s other tokens and other users' rows with `t`; no row is added |
| Tokens.AfterRemoveUserTokens | backend/src/tokens/tokens.service.ts:50-52 | after `removeTokensByUserId(u)` no row of `u` is left; every row of another user is kept with its multiplicity; no row is added |
| Tokens.RevocationEffective | backend/src/tokens/tokens.service.ts:25-37 | after `removeToken(u, t)`, when no other user's row carried `t`, the token check on `t` fails with Unauthorized |
| Tokens.RemoveUserTokensRevokes | backend/src/tokens/tokens.service.ts:32-52 | after `removeTokensByUserId(u)`, every token that only `u` held fails the token check |
| Tokens.LookupIgnoresOwner | backend/src/tokens/tokens.service.ts:34 | a row carrying the token satisfies the registry check whichever user owns it; with a valid signature the check succeeds with the verified claims |
| Tokens.CreatedTokenValidates | backend/src/tokens/tokens.service.ts:18-48 | a token just added to the registry passes the check exactly when its signature verifies |
| Tokens.TokensService.constructor | backend/src/tokens/tokens.service.ts:12-16 | the service starts with an empty, well-formed table and the given verifier |
| Tokens.TokensService.CreateToken | backend/src/tokens/tokens.service.ts:18-23 | the table grows by exactly one row, with the given user and token and a key no existing row has; existing rows are unchanged; the invariant is kept |
| Tokens.TokensService.RemoveToken | backend/src/tokens/tokens.service.ts:25-30 | the table becomes `AfterRemoveToken` of the old table; `affected` is the number of rows that matched; the invariant is kept |
| Tokens.TokensService.CheckIsValidToken | backend/src/tokens/tokens.service.ts:32-48 | returns `Validate` of the current table and token, with the signature check as it answers at time `now`, and changes nothing, since it has no modifies clause |
| Tokens.TokensService.RemoveTokensByUserId | backend/src/tokens/tokens.service.ts:50-52 | the table becomes `AfterRemoveUserTokens` of the old table; `affected` is the number of that user's rows; the invariant is kept |
| Users.FindByEmail | backend/src/user/user.service.ts:57-59 | the lookup by email yields a stored user with that email, and yields nothing exactly when no user has it |
| Users.FindById | backend/src/user/user.service.ts:53-55 | the lookup by id yields a stored user with that id, and yields nothing exactly when no user has it |
| Users.FindByEmailUnique | backend/src/user/user.service.ts:35-37 | with unique emails, the lookup by a stored user's email yields that very user |
| Users.CreateOutcome | backend/src/user/user.service.ts:19-32 | sign-up fails with `{code: 409, 'User with this email already exists'}` exactly when the email is taken; otherwise it yields a user with the given name and email, the generated id and `password = hash(input password, salt)`, never the plaintext |
| Users.CreateKeepsEmailsUnique | backend/src/user/user.service.ts:20-32 | if emails are unique before sign-up, they are unique after it, whatever the outcome |
| Users.CreatedUserFound | backend/src/user/user.service.ts:27-37 | for every table, after a successful sign-up, the lookup by that email (`findUserByEmail`, `checkIsUserExist`) yields the new user |
| Users.CheckRemoval | backend/src/user/user.service.ts:71-80 | the guards in source order: unknown exactly when no user has the id; password required exactly when the user exists and the password is missing or empty; incorrect only when a given password fails to match the digest; authorized only for the stored user with that id whose digest the given, non-empty password matches |
| Users.RemovalResponse | backend/src/user/user.service.ts:72-82 | `affected` is 0 exactly when a guard refused the removal, with the message 'Password is required' or 'Password is incorrect' for the password guards and no message for an unknown user |
| Users.AfterRemoveUser | backend/src/user/user.service.ts:82 | deleting by id removes that user and keeps every other user |
| Users.RemoveStoredUser | backend/src/user/user.service.ts:82 | deleting a stored user by id removes exactly one row, so the answer's `affected` is 1, and keeps generated ids increasing |
| Users.CreateThenRemove | backend/src/user/user.service.ts:19-83 | with a sound hasher, a user who signed up with a non-empty password and then removes the account with that password passes every guard |
| Users.UserService.constructor | backend/src/user/user.service.ts:13-17 | the directory starts empty and well formed, holding the given hasher and token service |
| Users.UserService.CreateUser | backend/src/user/user.service.ts:19-33 | returns `CreateOutcome` for the next id and the salted digest; the users table grows by that user on success and is unchanged on conflict; the tokens table is not touched; the invariant, including unique emails, is kept |
| Users.UserService.CheckIsUserExist | backend/src/user/user.service.ts:35-37 | returns the lookup by email on the current table |
| Users.UserService.GetUsers | backend/src/user/user.service.ts:49-51 | returns every stored user, digests included |
| Users.UserService.FindUserById | backend/src/user/user.service.ts:53-55 | returns the lookup by id on the current table |
| Users.UserService.FindUserByEmail | backend/src/user/user.service.ts:57-59 | returns the lookup by email on the current table |
| Users.UserService.RemoveUser | backend/src/user/user.service.ts:68-83 | when a guard refuses, it answers `affected: 0` (with its message) and neither table changes; when authorized, the answer is `affected: 1`, every token row of that user is gone, the user is gone, and other users and their tokens remain; the invariant is kept |
| AppleAuth.DisplayName | backend/src/auth/utils/apple-auth.utils.ts:25-27 | the derived name is never empty |
| AppleAuth.DisplayNameIsReference | backend/src/auth/utils/apple-auth.utils.ts:25-27 | the name equals an independent reading: the present parts joined by one space, or 'Apple User' when there are none |
| AppleAuth.DisplayNameCases | backend/src/auth/utils/apple-auth.utils.ts:25-27 | both parts non-empty gives `given + " " + family`; exactly one gives that part; neither gives 'Apple User' |
| AppleAuth.DisplayNameSplits | backend/src/auth/utils/apple-auth.utils.ts:25-26 | with both parts present, the name is the given name, one space, then the family name, and nothing else |
| AppleAuth.VerifyAppleToken | backend/src/auth/utils/apple-auth.utils.ts:10-42 | valid exactly when `identityToken` and `appleId` are both present and non-empty; when invalid, no other field is set; when valid, `appleId` and `email` are copied unchanged and a non-empty name is set |
| AppleAuth.ExtractUserInfo | backend/src/auth/utils/apple-auth.utils.ts:47-61 | copies `appleId` and `email` unchanged and always yields a non-empty name |
| AppleAuth.VerifyAgreesWithExtract | backend/src/auth/utils/apple-auth.utils.ts:24-60 | for a valid request, `verifyAppleToken` and `extractUserInfo` yield the same `appleId`, `email` and name |

## Left out

- `updateUser` (`backend/src/user/user.service.ts:61-66`): it ignores its id and saves a new entity with no password. Whether that insert succeeds depends on the database's NOT NULL constraint on `password`, which is outside the model. So the operation is not modelled.
- bcrypt internals are abstracted into `Hasher`: the salt generation with cost factor 10 and the digest format. The salt enters as a parameter. `hashPassword` and `validatePassword` are `Hasher.hash` and `Hasher.compare`.
- JWT internals are abstracted into the `verify` collaborator: the signing secret, the claim format, and how the one-hour expiry is computed from the current time.
- Repository ordering: TypeORM's `findOneBy` promises some matching row, not a particular one. The model returns the first match in insertion order.
- Under the invariant (unique ids, unique emails), at most one row matches the lookups by id and by email.
- The lookup by `access_token` may match several rows, because the same token can be stored for several users or twice for one user. `checkIsValidToken` uses only whether such a row exists.
- `Users.UserService.GetUsers` returns the rows in insertion order. The source's `find()` promises the rows in no particular order.
- The `raw` field of TypeORM's delete result is not modelled. Only `affected` and the guard message are kept.
- Column types and widths are not enforced: `name` varchar(30), `email` varchar(40), and `user_id` stored as varchar.
- The `records` relation of `User` is not modelled.
- Atomicity and concurrency: `removeUser` runs two separate deletes with no transaction. The model runs them as consecutive steps with no interleaving.
- `checkIsValidToken` throws the `UnauthorizedException` class itself rather than an instance. The model records only that the failure is `Unauthorized`, not what kind of object is thrown, nor how the framework reports it.
- The `try/catch` in `verifyAppleToken` is not modelled: nothing in the modelled body can throw.
- `console.log` calls are left out.
- DTO validation decorators (`@IsNotEmpty`, `@IsString`, ...) are not modelled as checks.
- The fields of `createUser`'s input, of the token inputs and the id of `removeUser` are taken as present (`delete-token.dto.ts:8-14` marks the token fields `@IsNotEmpty`). A missing value for them cannot be represented. So what `findOneBy({ email })`, `findOneBy({ id })` or `delete({ user_id, access_token })` do with an undefined value is not modelled.
- Empty strings in those fields are handled as the code handles them.
- Only `removeUser`'s password and the Apple request's fields are optional in the model, with JavaScript truthiness.
- Signature checking of Apple identity tokens is not modelled, because the code does none.
- Google login (`google-auth.utils.ts`) is not modelled: it is an outbound HTTPS call plus JSON parsing.
- `auth.service.ts` is not modelled: `signIn` calls `.find` on a promise and compares plaintext with the digest, and `validateUser` is empty.
- The records service and controller are not modelled.
- Controllers, modules and guards are not modelled: they are HTTP routing and dependency injection.
