# User directory and exception filter, modelled in Dafny

This project models the core of a small user-account service written with NestJS and Prisma. It has two parts.

- **`UsersService`** manages a table of user rows keyed by id. It has five operations:
  - `create` refuses an email already on file, and otherwise stores an active row.
  - `findAll` lists every row.
  - `findOne` fetches one row by id, or fails with not-found.
  - `update` reads a row, merges a partial command over it and writes the result.
  - `remove` reads a row, deletes it and returns its view from before the delete.

  Every result passes through `mapUser`, which drops the password.
- **`AllExceptionsFilter.catch`** maps each exception class to an HTTP status and a message. The status numbers are those of section 15 of RFC 9110. An exception the filter does not know becomes 500 with a generic message.

Layout:

- `wrappers.dfy` (`Wrappers`): `Option` and `Result`.
- `user_entity.dfy` (`UserEntity`): the stored `User` row, the output `UserView` (the `UserEntity` class), `MapUser` and the redaction lemmas.
- `user_store.dfy` (`UserStore`): the users table as a `map<Id, User>`, and the two queries the service issues: `findMany` as `Rows`, and `findUnique` by email as `FirstWithEmail`.
- `users_service.dfy` (`Users`):
  - the commands and the error datatype `NotFound(id) | DuplicateEmail`;
  - the update merge;
  - the class `UsersService`, whose `store` field is the table and whose `nextId` field is the store's id generator;
  - the mapping of the service's failures to the exceptions it throws.
- `exceptions_filter.dfy` (`ExceptionsFilter`): the exception classes as a datatype, `Catch` and its lemmas.
- `users_service_properties.dfy` (`UsersServiceProperties`): the service's property tests, written as client methods. They are proved from the service's contracts alone.

Modelling choices:

- **Ids.** Ids are natural numbers. Every stored id is below `nextId`, so `nextId` is always a fresh id.
- **Clock.** Timestamps are natural numbers. The clock is a `now` parameter.
- **Listing order.** `findMany` lists the rows in ascending id order. This is one of the orders a store may use; the source promises none.
- **Emails.** Email comparison is exact string equality.
- **Update command.** Each of its fields is an `Option`, and it may carry an email. The DTO definitions are not part of this model, so this is the most permissive reading.
- **Update merge.** `update` spreads the command over the *redacted* view. The password written is therefore the command's, or undefined. For an undefined column the store keeps the value it has, so an absent password keeps the stored one. `UpdateDataFor` and `ApplyUpdate` model these two steps.

Two points of the code's behaviour that the model keeps as written:

- **Email on update.** The spread `{ ...user, ...updateUserDto }` (src/users/users.service.ts:67-70) writes a supplied email. So the model claims the email is kept only when the command has none.
- **Duplicate email status.** `create` throws `BadRequestException` (src/users/users.service.ts:31). So a duplicate email answers 400, not 409 Conflict (`Users.ErrorResponses`).

## Model

| member | source | states |
|---|---|---|
| `UserEntity.RedactRoundTrip` | src/users/users.service.ts:16-19 | the view keeps every column except the password, with its value unchanged. Putting the stored password back into a row's view gives the row again. Redacting a row built from a view gives that view again. |
| `UserEntity.SameViewIff` | src/users/entities/user.entity.ts:1-10 | two rows have the same view exactly when they differ at most in their password. So the view reveals nothing about the password and loses nothing else. |
| `UserStore.RowsSound` | src/users/users.service.ts:46-48 | every row that `findMany` lists is a table row filed under its own id, with an id below the bound. The ids strictly ascend, so no row is listed twice. |
| `UserStore.RowsComplete` | src/users/users.service.ts:46-48 | every row whose id is below the bound is listed |
| `UserStore.RowsCount` | src/users/users.service.ts:46-48 | the listing has exactly as many entries as there are ids below the bound |
| `UserStore.RowsCountAll` | src/users/users.service.ts:46-48 | when every id is below the bound, the listing's length is the table's size |
| `UserStore.FirstWithEmail` | src/users/users.service.ts:21-25 | the email lookup finds a row exactly when some listed row holds the email, and the row it finds is listed and holds that email |
| `Users.MergeFields` | src/users/users.service.ts:65-83 | after the merge, each field the command carries has the command's value. Each field it leaves out keeps its stored value; this includes the password, which the redacted view does not carry. The id and creation time are kept, and the update time becomes `now`. |
| `Users.MergeSequential` | src/users/users.service.ts:65-87 | two successive updates of a row equal one update with the combined command, in which the second command's fields win |
| `Users.MergeIdempotent` | src/users/users.service.ts:65-87 | repeating an update at the same time changes nothing more |
| `Users.MergeUnchangedIff` | src/users/users.service.ts:65-87 | an update leaves a row unchanged, apart from its update time, exactly when every field the command carries already has that value |
| `Users.IdText` | src/users/users.service.ts:59 | the id as interpolated into the not-found message: a non-empty string of decimal digits |
| `Users.IdTextRoundTrip` | src/users/users.service.ts:59 | reading the id's text as a decimal number gives the id back, so distinct ids have distinct texts |
| `Users.ToException` | src/users/users.service.ts:31-59 | the exceptions the service throws: `NotFound` exactly as `NotFoundException`, with the message "user with id <id> not found" (line 59). `DuplicateEmail` exactly as `BadRequestException`, with the message "Email ya registrado" (line 31). |
| `Users.NotFoundMessagesDistinct` | src/users/users.service.ts:59 | different ids give different not-found messages, so the message names the id that was missing |
| `Users.ErrorResponses` | src/common/exceptions.filter.ts:31-38 | through the filter, the service's `NotFound` answers 404 and `DuplicateEmail` answers 400. Each keeps the service's own message: "user with id … not found" or "Email ya registrado". Neither gets the generic text. |
| `Users.ListingIsTable` | src/users/users.service.ts:46-49 | the redacted listing has one view per row. Each view is the redacted row under the view's id, every row appears, and no id appears twice. |
| `Users.ViewEmails` | src/users/users.service.spec.ts:66-69 | when views are exactly the redacted rows of a table, their set of emails is exactly the table's set of emails |
| `Users.UsersService.constructor` | src/users/users.service.ts:14 | the service works over the table given to it, and its id generator starts above every stored id |
| `Users.UsersService.FindByEmail` | src/users/users.service.ts:21-25 | it returns a row exactly when some stored row holds the email. The row returned is the stored row under its own id, and it holds that email. |
| `Users.UsersService.Create` | src/users/users.service.ts:27-44 | if the email is already on file, it fails with `DuplicateEmail` and the table and the id generator are unchanged. Otherwise it adds exactly one row, under a fresh id, active, with the command's fields and `now` as both timestamps, and returns that row's view. It keeps emails unique. |
| `Users.UsersService.FindAll` | src/users/users.service.ts:46-49 | it returns one view per stored row: each view is the redacted row under its own id, every row appears, and no id appears twice. The set of emails equals the stored emails. The table is not changed. |
| `Users.UsersService.FindOne` | src/users/users.service.ts:51-63 | it succeeds exactly when the id is stored, and then returns that row's view. For an absent id it fails with `NotFound(id)`. The table is not changed. |
| `Users.UsersService.Update` | src/users/users.service.ts:65-87 | for an absent id it fails with `NotFound` and changes nothing. Otherwise it replaces only that row, with the merge of the command over it, and returns the new row's view. That view keeps the id and the creation time, and its update time is `now`. Without an email in the command, the email is kept and emails stay unique. |
| `Users.UsersService.Remove` | src/users/users.service.ts:89-99 | for an absent id it fails with `NotFound` and changes nothing. Otherwise it deletes exactly that row, so the id is no longer stored and the table is one row smaller. It returns the row's view from before the delete, carrying the same id. |
| `ExceptionsFilter.Catch` | src/common/exceptions.filter.ts:30-60 | every exception gets exactly one status, between 400 and 599, and the body's `statusCode` equals it. The status is 5xx exactly for the server-side classes. An unknown class gets 500 and "Internal server error"; every other class keeps its own message. |
| `ExceptionsFilter.StatusTable` | src/common/exceptions.filter.ts:33-58 | the status of each class, written out as a number: 404, 500 (service unavailable, message kept), 400, 409, 502, 401, 403, 405, 422, 415 and 413. Any other class gets 500 with the generic message. |
| `ExceptionsFilter.StatusDeterminesClass` | src/common/exceptions.filter.ts:33-58 | two exceptions with the same status have the same class, except at 500. Status 500 comes exactly from `ServiceUnavailableException` and from unknown classes. |
| `ExceptionsFilter.UnknownMessagesDoNotLeak` | src/common/exceptions.filter.ts:35-58 | the response to an unknown exception does not depend on its message. A `ServiceUnavailableException` shares its status but keeps its own message. |
| `UsersServiceProperties.CreateReturnsView` | src/users/users.service.spec.ts:42-52 | creating with an email not on file succeeds, and returns a view carrying that email |
| `UsersServiceProperties.CreateTwice` | src/users/users.service.ts:28-32 | a second create with the same email fails with `DuplicateEmail`, and only one row was added |
| `UsersServiceProperties.CreateAllThenFindAll` | src/users/users.service.spec.ts:55-73 | create users with pairwise distinct emails in an empty table, then list them. The listing has as many views as there were users, and its set of emails is exactly theirs. |
| `UsersServiceProperties.CreateNext` | src/users/users.service.spec.ts:62-64 | one step of that creation loop: the next user is stored under the next id |
| `UsersServiceProperties.SeededRows` | src/users/users.service.spec.ts:60-64 | after the first `n` creates into an empty table, the table holds ids `0..n-1`, and row `k` is built from command `k` |
| `UsersServiceProperties.SeededSize` | src/users/users.service.spec.ts:60-64 | that table has exactly `n` rows |
| `UsersServiceProperties.TableEmails` | src/users/users.service.spec.ts:66-69 | a table with row `k` for command `k` and nothing else has exactly the commands' set of emails |
| `UsersServiceProperties.CreateThenFindOne` | src/users/users.service.spec.ts:76-84 | a created user is found again by its id, with the same email |
| `UsersServiceProperties.CreateThenUpdate` | src/users/users.service.spec.ts:87-98 | updating a created user with a command that has no email keeps the id and the email. A first name in the command is taken. The update time does not go back when the clock does not. |
| `UsersServiceProperties.CreateThenRemove` | src/users/users.service.spec.ts:101-111 | removing a created user returns the view that create returned, and afterwards `findOne` fails with `NotFound` for that id |

## Left out

- Concurrency and `async`. Each operation is one atomic step, so the race between the email lookup and the insert in `create` is not modelled.
- `Users.UsersService.Update`: the database's own unique constraint on `email` is not modelled. When the command carries an email that another row already holds, the real database rejects the write. The filter would then answer 500. The model writes the row instead, so it keeps emails unique only when the command carries no email.
- Store-generated UUID ids. They are replaced by the natural-number counter `nextId`. So `IdText` prints the id in the not-found message in decimal, not as a UUID.
- Real clocks. `new Date()` and the store-set `createdAt`/`updatedAt` are the `now` parameter. The ±1000 ms timestamp checks of the last property test are not modelled.
- Validation of commands and ids (`ValidationPipe`, the DTO decorators, `ParseUUIDPipe`). That code lives in the controller and the DTO files, which are not part of this model. So neither are the controller's routing and logging, or `src/main.ts`.
- `null` values in an update command, as distinct from absent fields.
- The filter's side effects: the `logger.error` call, and writing the status and body to the response object. `Catch` returns the pair it would write.
- Subclass tests (`instanceof`). The exception classes are a flat datatype, and every class the chain does not name, HTTP or not, is `OtherError`.
