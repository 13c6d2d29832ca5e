# Tourism portal back end: accounts and tourist spots, in Dafny

This project models the back end of a tourism portal. It covers the Express
handlers that manage user accounts and tourist spots, and the request
schemas that guard the account endpoints. The database is an in-memory
store: every table is a sequence of rows in the store's own order. A
`findFirst` query is the first matching row, a `findMany`/`deleteMany` with
a `where` clause keeps the matching rows in order, and `orderBy: { name:
"asc" }` is a stable sort under a lexicographic order on names.

- `common.dfy` (module `Common`) holds the replies (`Ok`, or a failure
  with an HTTP status, a store error or a TypeError), and the table
  helpers `FirstIndex`, `Filter` and `SortBy` with their lemmas.
- `credentials.dfy` (module `Credentials`) holds roles, token claims, a
  symbolic bcrypt and the owner-or-admin rule. A digest records the
  password it was made from, and `bcrypt.compare` holds for that password
  and, in this model, no other (bcrypt's cut-off after 72 bytes is not
  modelled). The salt bcrypt draws is a parameter. A JSON Web Token
  (RFC 7519) is modelled as the claims it carries.
- `auth_schema.dfy` (module `AuthSchema`) has one validity predicate per
  yup schema, over request bodies whose fields may be absent. The email
  and UUID format checks are the function parameters `isEmail` and
  `isUuid`.
- `accounts.dfy` (module `Accounts`) models the account handlers. Each
  handler that writes is a method of the class `AccountStore`, and its
  postcondition equates the reply and the new table with a step function
  of the old table. The lemmas relate several steps: register then log in,
  issue then consume a reset token, a token used twice, toggle twice.
- `tourist_spots.dfy` (module `TouristSpots`) models the spot handlers.
  The handlers that write are methods of the class `SpotStore`, each
  modifying only the table it writes. Lemmas show that they touch only the
  rows of the given spot. The read handlers are functions, except the
  grouping by type and the recommendations, which build a dictionary in a
  loop.

The clock is a natural number of milliseconds, and a reset token lives for
`ResetWindow` = 2 hours. The token `crypto.randomBytes` draws and the id the
store generates for a new row are parameters. The handlers that remove
videos, delete coordinates, update a spot or delete a spot do not consult
the caller, so their methods take no caller.

## Model

| member | source | states |
|---|---|---|
| Credentials.Hash | back/src/controller/auth-controller.ts:60 | a bcrypt digest with cost 10 that `compare` accepts exactly for the hashed password, taken whole |
| Accounts.Login | back/src/controller/auth-controller.ts:23-44 | 404 exactly when no active account has the email; 401 exactly when the first active account with it does not match the password; success exactly when it matches, and the token then carries that account's id, role and email |
| Accounts.InactiveAccountCannotLogIn | back/src/controller/auth-controller.ts:23-27 | when every account with the email is inactive, login answers 404 whatever the password |
| Accounts.RegisterStep | back/src/controller/auth-controller.ts:60-70 | a used email gives 409 and an unchanged table; otherwise exactly one record is appended, holding the submitted fields, the digest of the password (never the password itself), the default `active` flag and no reset token |
| Accounts.RegisterThenLogin | back/src/controller/auth-controller.ts:16-70 | with active new accounts, logging in right after registering with the same email and password succeeds with the new record's id, role and email |
| Accounts.ForgotPasswordStep | back/src/controller/auth-controller.ts:86-98 | an unknown email gives 404 and an unchanged table; otherwise only the first account with that email changes, its token becoming the new token and its expiry now plus two hours |
| Accounts.ResetPasswordStep | back/src/controller/auth-controller.ts:119-134 | an unknown token and an expired one both give 498 and an unchanged table; success exactly when the first holder's expiry is not before now; on success only that row changes, to the new password's digest and an expiry of now, with the token left in place |
| Accounts.ResetTokenSingleUse | back/src/controller/auth-controller.ts:125-134 | after a successful reset, the same token at any later instant gives 498 and changes nothing |
| Accounts.ForgotThenReset | back/src/controller/auth-controller.ts:86-134 | a token just issued, and held by no other row, resets the password of its account at any instant up to its expiry |
| Accounts.ForgotPasswordSupersedesToken | back/src/controller/auth-controller.ts:95-98 | a new forgot-password request makes the account's earlier token give 498 |
| Accounts.ToggleActiveStep | back/src/controller/auth-controller.ts:150-156 | a missing id gives 404 and an unchanged table; otherwise only that account's `active` flag flips |
| Accounts.ToggleTwiceRestores | back/src/controller/auth-controller.ts:150-156 | toggling the same id twice gives back the original table |
| Accounts.Merge | back/src/controller/auth-controller.ts:176-190 | id, active flag, reset token and expiry are kept; each of first name, last name, email and role is replaced when supplied and kept when absent; an absent password keeps the stored one; a supplied non-empty password is stored as a digest that `compare` accepts exactly for it; an empty-string password is stored as given, since the handler's truthiness test skips hashing it; an empty body changes nothing |
| Accounts.UpdateAccountStep | back/src/controller/auth-controller.ts:172-190 | a caller who is neither the account nor an ADMIN gets 401 and an unchanged table; a missing id is a store error; otherwise only that account's row is rewritten |
| Accounts.ValidatedUpdateKeepsPasswordsHashed | back/src/controller/auth-controller.ts:176-190 | behind the update schema, every stored password stays a digest and a supplied password is stored as its own digest |
| Accounts.View | back/src/controller/auth-controller.ts:207-215 | the public form of an account carries its id, names, email, stored password, role and active flag as stored |
| Accounts.ViewHidesOnlyResetFields | back/src/controller/auth-controller.ts:231-239 | two accounts have the same public form exactly when they differ at most in their reset token and its expiry |
| Accounts.AllAccounts | back/src/controller/auth-controller.ts:204-215 | the list holds the view of every account except the caller's, and nothing else |
| Accounts.AllAccountsOnePerAccount | back/src/controller/auth-controller.ts:204-206 | with unique ids, the list has one entry per account, less one when the caller's own account is in the table |
| Accounts.AccountById | back/src/controller/auth-controller.ts:228-239 | 404 exactly when the id is missing; otherwise the view of that account |
| Accounts.AccountStore.Register | back/src/controller/auth-controller.ts:52-76 | the reply and new table are those of `RegisterStep`; ids stay unique |
| Accounts.AccountStore.ForgotPassword | back/src/controller/auth-controller.ts:78-110 | the reply and new table are those of `ForgotPasswordStep`; ids stay unique |
| Accounts.AccountStore.ResetPassword | back/src/controller/auth-controller.ts:112-140 | the reply and new table are those of `ResetPasswordStep`; ids stay unique |
| Accounts.AccountStore.ToggleActive | back/src/controller/auth-controller.ts:142-162 | the reply and new table are those of `ToggleActiveStep`; ids stay unique |
| Accounts.AccountStore.UpdateAccount | back/src/controller/auth-controller.ts:164-196 | the reply and new table are those of `UpdateAccountStep`; ids stay unique |
| AuthSchema.LoginNeedsEmailAndPassword | back/src/schemas/auth-schema.ts:4-9 | a login body passes exactly when it has a non-empty, email-formatted email and a non-empty password |
| AuthSchema.RegisterNeedsAllFields | back/src/schemas/auth-schema.ts:11-19 | a valid register body has all five fields, an email-formatted email, a password of at least 8 characters and a role of ADMIN or USER |
| AuthSchema.RegisterAcceptsSelfAdmin | back/src/schemas/auth-schema.ts:17 | a register body that asks for the ADMIN role passes |
| AuthSchema.ForgotPasswordNeedsOnlyEmail | back/src/schemas/auth-schema.ts:21-25 | a forgot-password body passes exactly when its email is present, non-empty and email-formatted |
| AuthSchema.ResetPasswordNeedsTokenAndLongPassword | back/src/schemas/auth-schema.ts:27-32 | a reset body passes exactly when it has a non-empty token and a password of at least 8 characters |
| AuthSchema.UpdateFieldRules | back/src/schemas/auth-schema.ts:34-45 | a valid update has a UUID id; a supplied password has at least 8 characters; a supplied role is ADMIN or USER |
| AuthSchema.EmptyUpdateIsValid | back/src/schemas/auth-schema.ts:38-44 | an update with a UUID id and an empty body passes |
| TouristSpots.SpotAccess | back/src/controller/tourist-spot-controller.ts:40-45 | 404 exactly when no spot has the id; 401 exactly when the caller is neither an ADMIN nor that spot's owner; otherwise that spot |
| TouristSpots.NewSpot | back/src/controller/tourist-spot-controller.ts:20-24 | the new spot holds the submitted fields and the caller's id as its owner |
| TouristSpots.NewSpotIgnoresBodyOwner | back/src/controller/tourist-spot-controller.ts:22-23 | the owner named in the body has no effect on the new spot |
| TouristSpots.VideoRows | back/src/controller/tourist-spot-controller.ts:46-51 | one row per submitted URL, in order, each linked to the spot |
| TouristSpots.CoordinateRows | back/src/controller/tourist-spot-controller.ts:79-85 | one row per submitted point, in order, each linked to the spot with that point's latitude and longitude |
| TouristSpots.WithoutVideosOf | back/src/controller/tourist-spot-controller.ts:208-210 | after the delete, the video table holds exactly the rows that belonged to other spots |
| TouristSpots.WithoutCoordinatesOf | back/src/controller/tourist-spot-controller.ts:246-248 | after the delete, the coordinate table holds exactly the rows that belonged to other spots |
| TouristSpots.ReplaceCoordinates | back/src/controller/tourist-spot-controller.ts:76-88 | the new table ends with the rows for the submitted points, in order, and before them holds exactly the old rows of other spots |
| TouristSpots.AddVideosTouchesOnlyThatSpot | back/src/controller/tourist-spot-controller.ts:46-55 | after the append, the spot's videos are its old ones followed by the new rows, and every other spot's videos are unchanged |
| TouristSpots.ReplaceCoordinatesTouchesOnlyThatSpot | back/src/controller/tourist-spot-controller.ts:76-88 | after delete-then-insert, the spot's coordinates are exactly the submitted points in order, and every other spot's are unchanged |
| TouristSpots.RemoveVideosTouchesOnlyThatSpot | back/src/controller/tourist-spot-controller.ts:208-210 | the spot has no video left, every other spot keeps its videos, and the deleted count is the number the spot had |
| TouristSpots.DeleteCoordinatesTouchesOnlyThatSpot | back/src/controller/tourist-spot-controller.ts:246-248 | the spot has no coordinate left, every other spot keeps its coordinates, and the deleted count is the number the spot had |
| TouristSpots.FirstImage | back/src/controller/tourist-spot-controller.ts:105-114 | absent exactly when the spot has no image; otherwise the URL of its first image |
| TouristSpots.AllSpots | back/src/controller/tourist-spot-controller.ts:102-118 | one row per spot in table order, with the spot's fields, its type's name and colour, and its first image |
| TouristSpots.VisibleSpots | back/src/controller/tourist-spot-controller.ts:147-158 | sorted by name; for an ADMIN a permutation of all spots, for anyone else a permutation of exactly their own spots |
| TouristSpots.SpotsTable | back/src/controller/tourist-spot-controller.ts:146-167 | one row per visible spot, in name order, with its id, name, type name and owner's email |
| TouristSpots.GroupByType | back/src/controller/tourist-spot-controller.ts:301-310 | the keys are exactly the type names present, each maps to the rows of that type in input order, and a name not present has no rows |
| TouristSpots.EachRowInOwnGroup | back/src/controller/tourist-spot-controller.ts:304-310 | every row is in the group of its type name, with all its copies |
| TouristSpots.GroupsHoldOnlyTheirRows | back/src/controller/tourist-spot-controller.ts:304-310 | a group holds only input rows of its own type, never more copies than the input |
| TouristSpots.GroupOnPlainObject | back/src/controller/tourist-spot-controller.ts:304-310 | the grouping as written can fail only with a TypeError, and when it succeeds every row's type name is a key |
| TouristSpots.PlainObjectGrouping | back/src/controller/tourist-spot-controller.ts:304-310 | the grouping as written succeeds exactly when no type name is a key inherited by plain objects, and then builds the intended groups; otherwise it throws a TypeError |
| TouristSpots.ConstructorTypeBreaksGrouping | back/src/controller/tourist-spot-controller.ts:304-310 | one spot whose type is named "constructor" makes the grouping as written throw |
| TouristSpots.PlainObjectAgreesWithGroupByType | back/src/controller/tourist-spot-controller.ts:304-310 | without inherited type names, the grouping as written gives the same dictionary as `GroupByType` |
| TouristSpots.PickForType | back/src/controller/tourist-spot-controller.ts:328-331 | absent exactly when no spot has the type; otherwise the first spot of that type with its first image |
| TouristSpots.Recommendations | back/src/controller/tourist-spot-controller.ts:324-338 | the keys are exactly the type names, and each maps to the pick of the last type with that name |
| TouristSpots.SpotById | back/src/controller/tourist-spot-controller.ts:181-195 | 404 exactly when no spot has the id; otherwise that spot with its type and all of its images, videos and coordinates |
| TouristSpots.ApplySpotUpdate | back/src/controller/tourist-spot-controller.ts:227-230 | each of name, description, latitude, longitude and type is replaced when supplied and kept when absent; the id and owner never change; an empty body changes nothing |
| TouristSpots.SpotStore.AddSpot | back/src/controller/tourist-spot-controller.ts:13-31 | appends exactly the new spot, owned by the caller, and answers with it |
| TouristSpots.SpotStore.AddVideos | back/src/controller/tourist-spot-controller.ts:32-60 | when the gate fails, its failure and no change; otherwise the video rows are appended and the count of URLs is answered |
| TouristSpots.SpotStore.AddCoordinates | back/src/controller/tourist-spot-controller.ts:61-94 | when the gate fails, its failure and no change; otherwise the spot's coordinates are replaced by the submitted points and their count is answered |
| TouristSpots.SpotStore.RemoveVideos | back/src/controller/tourist-spot-controller.ts:200-216 | the spot's videos are removed and the number removed is answered |
| TouristSpots.SpotStore.DeleteCoordinates | back/src/controller/tourist-spot-controller.ts:238-254 | the spot's coordinates are removed and the number removed is answered |
| TouristSpots.SpotStore.UpdateSpot | back/src/controller/tourist-spot-controller.ts:218-236 | a missing id is a store error with no change; otherwise only that spot is rewritten, by `ApplySpotUpdate` |
| TouristSpots.SpotStore.DeleteSpot | back/src/controller/tourist-spot-controller.ts:256-271 | a missing id is a store error with no change; otherwise that spot is removed and answered, and no spot with the id is left |

## Left out

- Email dispatch after a forgot-password request (`sendEmail`, `generateHTMLResetMessage`) is external I/O and is not part of this model.
- bcrypt's algorithm, the JWT signature, secret and lifetime, and the randomness of `crypto.randomBytes` are left out. Hashing is symbolic, and the salt, the token and new row ids are parameters.
- The authentication middleware that fills `req.user`, the validation middleware and the routes are not part of this model. Handlers take the caller's claims and the request's DTO directly.
- `back/src/dto/tourist-spot-dto.ts` and the DTO files of the account handlers are not part of this model. The add-spot and update-spot bodies are modelled with the five spot fields name, description, latitude, longitude and type. Any further field the body carries would also be spread into the record.
- Credentials.Hash: `compare` is modelled as accepting exactly the password that was hashed. Real bcrypt reads only the first 72 bytes of a password, so two passwords that share those bytes both match; that cut-off is not modelled, and Accounts.Login and Accounts.Merge inherit the stronger promise.
- Accounts.RegisterStep: the stored record takes only the five register fields. The handler spreads the whole body (`{ ...userData }`), and the register schema does not reject unknown keys, so a body that also carries `active`, `id`, `resetToken` or `expiresAt` would write those columns too; request bodies are modelled with the schema's fields only.
- Accounts.Merge: changes only the five update fields. The update handler spreads the whole body in the same way, so extra keys such as `active` or `resetToken` would also be written; that is not modelled.
- Latitude and longitude are modelled as `real`, not as floating-point numbers.
- `getSpotTypesController` and `getCountsController` are left out: each only returns one query's result (the type table, and three row counts, one of them from the news table outside this model).
- Concurrency is left out. That covers the `Promise.all` fan-out of the recommendations, races between a lookup and the write that follows it, and the fact that the delete and the insert of add-coordinates are not one transaction.
- Database constraints beyond the primary key are left out (a unique email, foreign keys). The read handlers require the foreign keys they follow to resolve.
- The database collation behind `orderBy: { name: "asc" }` is modelled as character-by-character lexicographic order.
- Accounts.ForgotPasswordStep: the expiry is now plus exactly two hours. A daylight-saving change during `setHours` can move the wall-clock result, and that is not modelled.
- Accounts.AccountStore.ResetPassword, Accounts.ResetPasswordStep and Accounts.ResetTokenSingleUse: read the clock once. The handler reads it twice, for the expiry check and for the new expiry, so the stored expiry may be slightly later than the instant checked.
- Accounts.UpdateAccountStep: does not model a store-side rejection of an email another account already uses, because the database schema is not part of this model.
- AuthSchema.RegisterNeedsAllFields, AuthSchema.ResetPasswordNeedsTokenAndLongPassword and AuthSchema.UpdateFieldRules: string lengths count characters, in `MinLength` and so in every `min(8)` password rule. JavaScript counts UTF-16 code units, which differ for characters outside the Basic Multilingual Plane.
- TouristSpots.SpotById: does not return the spot's documents, because the document table is not part of this model.
- TouristSpots.Recommendations: keeps a type named `__proto__` as an ordinary key. In JavaScript, assigning that key on a plain object sets the object's prototype, so such a type is missing from the reply.
- TouristSpots.SpotStore.DeleteSpot: removes only the spot row. Whether the database cascades to the spot's images, videos and coordinates or refuses the delete depends on the database schema, which is not part of this model.

## Findings

| source | as written | input that shows it | evidently intended | confidence | as-written member | corrected member |
|---|---|---|---|---|---|---|
| back/src/controller/tourist-spot-controller.ts:304-310 | groups spots into a plain `{}` object and creates a group only when `!acc[name]`; for a name inherited from `Object.prototype`, such as `constructor` or `toString`, `acc[name]` is already truthy, so no array is made and `push` throws a TypeError | one spot whose type is named "constructor" | one group per type name, whatever the name | not executed; medium, since type names are entered by administrators | TouristSpots.PlainObjectGrouping | TouristSpots.GroupByType |
