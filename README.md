# api-books-ts, modelled in Dafny

api-books-ts is an Express/TypeORM REST API for books, authors and users. It has JWT
authentication and a nightly job that keeps each author's `books_published` counter up to date.
This project models the logic that sits inside that plumbing and proves what it promises:

- **Response envelope and error pipeline** (`envelope.dfy`, `custom_error.dfy`,
  `error_middleware.dfy`, `json.dfy`). `responseHandler`, `successHandler`, `ApiError` with
  `errorHandler`, `errorMiddleware` and the `CustomError` taxonomy are all functions that return
  the response they would write. JSON values are a `Payload` datatype, so `Object.keys(data).length > 0`
  and JavaScript truthiness can be stated exactly.
- **Input validation** (`zod.dfy`, `validators.dfy`). zod object schemas (v3 semantics) cover
  required, optional and defaulted fields, length minimums, integers, an abstract e-mail
  predicate, strictness and `.partial()`. `validateDataRequest` turns the first issue into a 422
  `ApiError`. Both copies of it have the same text and share one model.
- **Store and services** (`store.dfy`, `user_service.dfy`, `author_service.dfy`,
  `book_service.dfy`). The database is a `Database` class whose three tables are `seq` fields,
  with key counters and the constraints that make a write fail: unique e-mails, and the
  book-to-author foreign key with Postgres' default `NO ACTION` on delete. Lookups are functions
  over the tables. `create`, `update` and `delete` are methods whose `modifies` clauses name
  only the tables they write.
- **The `books_published` job** (`authors_published_job.dfy`). One run of the cron callback is a
  `while` loop over the authors. A set of author keys whose write throws stands for failures, and
  the first failure stops the loop, as the single try/catch does. The invariant is
  `books_published == |{b | b.author == a}|`.
- **Auth** (`tokens.dfy`, `auth_gate.dfy`, `auth_controller.dfy`). `jwt.sign`/`jwt.verify` are
  uninterpreted functions. Their contract, `Tokens.Sound`, gives an `exp` claim one hour after
  issue. bcrypt is a symbolic `Hash` with `Compare(p, Hash(Plain(q))) <==> p == q`.
  `authMiddleware` is a method on a `Request` object whose `user` slot it fills. The controller's
  `login`, `me`, `refresh` and `logout` are functions over the user table; `register` is a
  method that writes it.

Two further observations about the source:

- `book.service.ts:6` imports `updateBooksCount` from the job file, which exports nothing.
  `BookService.Create` models the call as the job's loop body (`AuthorsPublishedJob.ReconcileOne`)
  applied to the book's author. Whether that call throws is the parameter `countFails`. As the
  file stands, the name resolves to `undefined`, so every call would throw (`countFails == true`)
  and no book would ever be saved.
- `errorMiddleware` recognises only `ApiError`. A `CustomError`, even a `NotFoundError`, is
  answered with 500 "Internal server error" (`ErrorPipeline.CustomErrorBecomesInternal`).

Parameters stand for the environment: `NODE_ENV` (`nodeEnv`), `JWT_SECRET` (`secret`, an
`Option<string>`), the current time in seconds (`now`), the JWT library (`j`), the e-mail regex
(`isEmail`), and which database writes throw.

## Model

| member | source | states |
|---|---|---|
| Json.KeyCount | src/shared/utils/handlers/responsesHandler.ts:19 | `Object.keys(v).length` (UTF-16 code units for a string) is positive exactly for non-empty objects, arrays and strings |
| Json.Utf16Length | src/shared/validators/book.validator.ts:4 | JavaScript `length` counts UTF-16 code units: between one and two per character, and zero exactly for the empty string |
| Json.Utf16LengthAppend | src/shared/validators/book.validator.ts:4 | code-unit lengths add up over concatenation |
| Json.Utf16LengthOfBmp | src/shared/validators/book.validator.ts:4 | inside the Basic Multilingual Plane the code-unit length is the number of characters |
| Json.IntText | src/shared/error/customError.ts:11 | the decimal text of an integer starts with '-' exactly when it is negative |
| Envelope.Wire | src/shared/utils/handlers/successHandler.ts:9-14 | the body on the wire has exactly success, statusCode, message and data, and data is dropped only when undefined |
| Envelope.SuccessHandler | src/shared/utils/handlers/successHandler.ts:3-15 | success is true; the HTTP status and statusCode equal the argument; message and data are passed through unchanged |
| Envelope.ErrorHandler | src/shared/utils/handlers/errorHandler.ts:13-20 | success is false; status and statusCode equal error.statusCode; reading the error back off the body gives the same ApiError, with the detail under `data` |
| Envelope.ResponseHandler | src/shared/utils/handlers/responsesHandler.ts:5-34 | success exactly when 200 <= status < 300; statusCode equals status on both paths; payloads without own keys become null; a non-empty message wins, else "Data found"/"No data found"; on failure a falsy message becomes "Unknown error" and falsy data "Error data not found" |
| Envelope.ResponseHandlerWellFormed | src/shared/utils/handlers/responsesHandler.ts:17-32 | every response has a non-empty message, success matching the status class, a null-or-keyed payload on success, truthy detail on failure, and all four keys on the wire |
| Envelope.HasDataExactly | src/shared/utils/handlers/responsesHandler.ts:19 | `hasData` holds exactly for non-empty objects, arrays and strings; numbers, booleans and empty containers never count |
| CustomErrors.NatTextStartsWithLeadingDigit | src/shared/error/customError.ts:11 | the first character of a natural number's decimal text is its leading digit |
| CustomErrors.StatusOfLeadingDigit | src/shared/error/customError.ts:11 | status is "fail" exactly when the code is non-negative with leading digit 4, and is always "fail" or "error" |
| CustomErrors.StatusOfHttpCode | src/shared/error/customError.ts:11 | for a three-digit code, "fail" means exactly 400..499 |
| CustomErrors.NewCustomError | src/shared/error/customError.ts:8-15 | message and code are stored as given, isOperational is true, and status follows the leading-digit rule |
| CustomErrors.Raise | src/shared/error/customError.ts:18-52 | each subclass has its fixed code (400, 401, 403, 404, 409, 500); an explicit message is kept and an omitted one takes the subclass default; every kind is "fail" except InternalServer |
| ErrorPipeline.ErrorMiddleware | src/middlewares/error.middleware.ts:6-32 | an ApiError is rendered unchanged; anything else becomes 500 "Internal server error" with the stack in development and "INTERNAL_ERROR - ERROR: " plus the error text otherwise; success is always false |
| ErrorPipeline.ProductionHidesStack | src/middlewares/error.middleware.ts:26-28 | outside development the stack cannot influence the response |
| ErrorPipeline.CustomErrorBecomesInternal | src/middlewares/error.middleware.ts:16-31 | every CustomError is answered with 500, never with its own 4xx code |
| Zod.CheckIssues | src/shared/validators/validationsHandler.ts:11 | a value's checks raise no issue exactly when every check holds |
| Zod.ValueIssues | src/shared/validators/validationsHandler.ts:11 | a field value raises no issue exactly when it has the base type and passes its checks |
| Zod.SingleCheck | src/shared/validators/validationsHandler.ts:11 | a string or number schema with one check accepts exactly the values of that type passing the check |
| Zod.FieldIssues | src/shared/validators/validationsHandler.ts:11 | a field raises no issue exactly when it accepts the input (absent optional and defaulted fields accept) |
| Zod.FieldsIssues | src/shared/validators/validationsHandler.ts:11 | the field issues, in schema order, are empty exactly when every field accepts |
| Zod.Output | src/shared/validators/validationsHandler.ts:11 | a parsed object holds only schema keys |
| Zod.StrictIssues | src/shared/utils/handlers/validationsHandler.ts:17 | a strict schema raises an issue exactly when the input has a key outside the schema |
| Zod.Parse | src/shared/validators/validationsHandler.ts:11-12 | parsing succeeds exactly for objects every field accepts with no unknown key under strict; the result holds only schema keys; a failure lists the field issues in order, then the strictness issue |
| Zod.OutputAt | src/shared/validators/validationsHandler.ts:11 | each schema key of the output carries the field's parsed value or default, and a field without one is absent |
| Zod.Partial | src/shared/validators/book.validator.ts:13 | `.partial()` keeps keys, base types and strictness and makes every field optional |
| Zod.PartialAcceptsMore | src/shared/validators/book.validator.ts:13 | whatever a schema accepts, its partial accepts |
| Zod.PartialAcceptsEmpty | src/shared/validators/user.validator.ts:11 | a partial schema accepts the empty object |
| Zod.PartialSkipsDefault | src/shared/validators/book.validator.ts:7-13 | a partial schema no longer fills a default for an absent key |
| Validators.PathPayload | src/shared/validators/validationsHandler.ts:18 | the issue path becomes a JSON array of the same segments |
| Validators.ValidateDataRequest | src/shared/validators/validationsHandler.ts:5-24 | accepted input is returned as parsed; a zod rejection becomes a 422 ApiError "Error de validación: " plus the first issue's code, with data {field: path, error: message}; other errors are rethrown unchanged |
| Validators.LaterIssuesDropped | src/shared/validators/validationsHandler.ts:16-20 | issues after the first make no difference |
| Validators.BookSchemaAccepts | src/shared/validators/book.validator.ts:3-9 | accepted exactly when title is a string of at least 2 UTF-16 code units, description and published_at are absent or strings, available is absent or boolean, and id_author is an integer |
| Validators.OneEmojiTitleAccepted | src/shared/validators/book.validator.ts:4 | a one-emoji title (one surrogate pair) passes `min(2)`, and a one-letter title does not |
| Validators.BookSchemaDefaultsAvailable | src/shared/validators/book.validator.ts:7 | an omitted `available` parses to true |
| Validators.BookUpdateSchemaAccepts | src/shared/validators/book.validator.ts:13 | every field may be absent; a present title needs at least 2 UTF-16 code units and the other present fields obey the create rules |
| Validators.BookUpdateSchemaKeepsAvailableAbsent | src/shared/validators/book.validator.ts:13 | an update that omits `available` does not produce one |
| Validators.UserSchemaAccepts | src/shared/validators/user.validator.ts:3-7 | accepted exactly when nickname has at least 2 UTF-16 code units, email satisfies the e-mail predicate and password has at least 6 |
| Validators.UserUpdateSchemaAccepts | src/shared/validators/user.validator.ts:11 | every field may be absent; a present nickname needs at least 2 UTF-16 code units, a present password at least 6, a present email the e-mail predicate |
| Validators.AuthorSchemaAccepts | src/shared/validators/author.validator.ts:4-8 | accepted exactly when name has at least 2 UTF-16 code units, email satisfies the e-mail predicate and bio is absent or a string |
| Validators.AuthorUpdateSchemaAccepts | src/shared/validators/author.validator.ts:14 | every field may be absent; a present name needs at least 2 UTF-16 code units, a present email the e-mail predicate, a present bio a string |
| Validators.PdfDataSchemaAccepts | src/shared/utils/handlers/validationsHandler.ts:5-17 | accepted exactly when the ten string fields are strings, is_anulation is a boolean and there is no other key |
| Validators.UploadFileSchemaAccepts | src/shared/utils/handlers/validationsHandler.ts:20-27 | accepted exactly when pathRoute and register are non-empty strings, typeFile is a boolean, refNum and adminFile are absent or well typed, and there is no other key |
| Zod.ExtraKeyKeepsFields | src/shared/utils/handlers/validationsHandler.ts:20-27 | binding a key the schema does not name leaves every field's verdict unchanged |
| Validators.UploadExtraKeyRejected | src/shared/utils/handlers/validationsHandler.ts:27 | adding any key outside the schema to accepted input makes validation fail with 422 |
| Validators.TxtToPdfUploadAccepts | src/shared/utils/handlers/validationsHandler.ts:29-31 | accepted exactly when pathRoute is a non-empty string, extra keys allowed and stripped |
| Store.CompareContract | src/controllers/auth.controller.ts:68 | `compare(p, hash(q))` holds exactly when p == q |
| Store.Count | src/config/jobs/authorsPublished.job.ts:21-23 | the count of an author's books never exceeds the table size |
| Store.CountAppend | src/config/jobs/authorsPublished.job.ts:21-23 | saving a book adds one to its author's count and nothing to any other |
| Store.CountAppendAll | src/config/jobs/authorsPublished.job.ts:21-23 | the count over two batches of books is the sum of the counts |
| Store.CountRemoveAt | src/services/book.service.ts:112-115 | deleting a book takes one from its author's count |
| Store.CountUpdate | src/services/book.service.ts:84-101 | replacing a book moves one from the old row's author to the new row's author |
| Store.CountIsCardinality | src/config/jobs/authorsPublished.job.ts:21-23 | with unique book keys, the count is the size of the set of the author's books |
| UserService.GetById | src/services/user.service.ts:26-33 | returns a stored user with that key, or null exactly when there is none |
| UserService.GetByEmail | src/services/user.service.ts:39-46 | returns a stored user with that e-mail, or null exactly when there is none |
| UserService.LookupsFindTheRow | src/services/user.service.ts:26-46 | in a well-formed table both lookups return exactly the stored row |
| UserService.Patched | src/services/user.service.ts:72 | supplied fields replace the old ones, a supplied password is stored as plain text, and the key never changes |
| UserService.Create | src/services/user.service.ts:52-61 | a new e-mail inserts the user under the next key with the hash of the given secret; a taken e-mail is a unique violation that changes no row; table invariants are kept |
| UserService.Update | src/services/user.service.ts:68-78 | an unknown key returns null and changes nothing; otherwise the patched row replaces the old one, unless its e-mail belongs to another user |
| UserService.Delete | src/services/user.service.ts:84-92 | returns true exactly when a row with that key existed; afterwards exactly the rows with other keys remain |
| UserService.PatchedPasswordIsNotAHash | src/services/user.service.ts:72-73 | a password set through update never matches itself under compare |
| AuthorService.GetById | src/services/author.service.ts:18-20 | returns a stored author with that key, or null exactly when there is none |
| AuthorService.GetByIdFindsTheRow | src/services/author.service.ts:18-20 | in a well-formed table the lookup returns exactly the stored row |
| AuthorService.Patched | src/services/author.service.ts:39 | supplied name, email and bio replace the old ones; key and books_published are kept |
| AuthorService.Create | src/services/author.service.ts:25-28 | a new e-mail inserts the author under the next key with books_published at its default 0; a taken e-mail changes nothing |
| AuthorService.Update | src/services/author.service.ts:33-41 | an unknown key returns null and changes nothing; otherwise the patched row replaces the old one unless the e-mail clashes |
| AuthorService.Delete | src/services/author.service.ts:46-49 | an author with books cannot be deleted (foreign key); otherwise the result is whether the row existed, and only that row goes |
| AuthorService.RemoveKeepsInvariants | src/services/author.service.ts:46-49 | removing an author no book references keeps keys unique and every book's author present |
| AuthorsPublishedJob.ReconcileOne | src/config/jobs/authorsPublished.job.ts:21-27 | the loop body changes nothing on the author but books_published |
| AuthorsPublishedJob.ReconcileOneCountsBooks | src/config/jobs/authorsPublished.job.ts:21-27 | the stored count is the number of the author's books |
| AuthorsPublishedJob.ConsistentIsCardinality | src/config/jobs/authorsPublished.job.ts:17-27 | consistency means every author's books_published equals the size of the set of its books |
| AuthorsPublishedJob.StopIndex | src/config/jobs/authorsPublished.job.ts:16-37 | the run stops at the first author, in table order, whose write throws |
| AuthorsPublishedJob.AfterRun | src/config/jobs/authorsPublished.job.ts:17-32 | a run changes only books_published, keeping the authors and their order |
| AuthorsPublishedJob.Run | src/config/jobs/authorsPublished.job.ts:14-38 | the loop leaves the table as AfterRun describes: reconciled up to the first failure, untouched after; the book table is not written; it reports whether it stopped early |
| AuthorsPublishedJob.SameKeysKeepInvariants | src/config/jobs/authorsPublished.job.ts:26-27 | rewriting counts keeps author keys, e-mails and book references valid |
| AuthorsPublishedJob.FullRunIsConsistent | src/config/jobs/authorsPublished.job.ts:17-27 | after a run with no failure every author's count matches the book table |
| AuthorsPublishedJob.RunIsIdempotent | src/config/jobs/authorsPublished.job.ts:21-27 | two full runs over the same books store the same values as one |
| AuthorsPublishedJob.ConsistentIsFixedPoint | src/config/jobs/authorsPublished.job.ts:21-27 | a consistent table is left unchanged by a full run |
| AuthorsPublishedJob.PartialRun | src/config/jobs/authorsPublished.job.ts:16-37 | authors before the failure are consistent, the rest keep their old values |
| AuthorsPublishedJob.RunCountsNewBooks | src/config/jobs/authorsPublished.job.ts:21-27 | after n new books by an author, a run stores the old count plus n |
| AuthorsPublishedJob.AllByAuthor | src/config/jobs/authorsPublished.job.ts:21-23 | a table of books all by one author counts all of them |
| BookService.GetById | src/services/book.service.ts:28-38 | returns a stored book with that key, or null exactly when there is none |
| BookService.GetByIdFindsTheRow | src/services/book.service.ts:28-38 | in a table with unique keys the lookup returns exactly the stored row |
| BookService.Create | src/services/book.service.ts:44-71 | a missing author throws "Author with ID n not found", and a throwing count fails; both save nothing and consume no key; otherwise the author gets the count of the books before the new one, and the new book (the input's fields, that author) is appended under the next key |
| BookService.CreateCounted | src/services/book.service.ts:64-66 | a missing author throws and changes nothing, key counter included; otherwise the book is saved under the next key and, when the count write succeeds, the author's count includes it, so a consistent store stays consistent |
| BookService.ReconcileKeepsInvariants | src/services/book.service.ts:64 | writing one author's count keeps the table invariants |
| BookService.InsertKeepsInvariants | src/services/book.service.ts:66 | appending a book under the next key with an existing author keeps the book invariants |
| BookService.WrittenCreateLeavesCountStale | src/services/book.service.ts:64-66 | as written, the stored count is one below the true count right after create, so the store is not consistent |
| BookService.CountedCreateKeepsConsistency | src/services/book.service.ts:64-66 | counting after the save keeps every author consistent |
| BookService.Merged | src/services/book.service.ts:94-99 | each supplied field replaces the old one and each absent field keeps it; the key is kept and the author is the one chosen |
| BookService.Update | src/services/book.service.ts:78-106 | an unknown key returns null and changes nothing; a non-zero id_author naming no author throws before any save; otherwise the merged row replaces the old one, with the new author only for a non-zero id_author; authors are never written |
| BookService.Delete | src/services/book.service.ts:112-120 | returns true exactly when a row with that key existed, which is then removed; authors are never written |
| BookService.DeleteLeavesCountStale | src/services/book.service.ts:112-120 | after a delete the author's stored count is one above the true count |
| BookService.MoveLeavesCountsStale | src/services/book.service.ts:84-101 | moving a book leaves the old author one too high and the new author one too low |
| Tokens.KeyOrFallback | src/controllers/auth.controller.ts:37-41 | registration signs with JWT_SECRET when it is set and non-empty, else with "fallback_secret" |
| Tokens.ClaimsFor | src/controllers/auth.controller.ts:76-80 | issued claims are the user's id and e-mail, expiring 3600 seconds after issue |
| Tokens.IssuedTokenLifetime | src/controllers/auth.controller.ts:76-80 | an issued token verifies to its claims for exactly one hour and is rejected as expired afterwards |
| Tokens.VerifiedMeansSigned | src/middlewares/authMiddleware.ts:16 | whatever verifies is that key's signature of its payload and is unexpired |
| AuthGate.Split | src/middlewares/authMiddleware.ts:10 | the words contain no space and joining them with single spaces gives back the header |
| AuthGate.SplitJoin | src/middlewares/authMiddleware.ts:10 | splitting undoes joining space-free words |
| AuthGate.ExtractToken | src/middlewares/authMiddleware.ts:10-11 | a token is a non-empty, space-free word |
| AuthGate.TokenOfJoin | src/middlewares/authMiddleware.ts:10 | a header of space-free words yields its second word as the token when that word is non-empty |
| AuthGate.SchemeIsIgnored | src/middlewares/authMiddleware.ts:10 | the token is the second word whatever the first word is |
| AuthGate.NoSecondWord | src/middlewares/authMiddleware.ts:10-13 | a one-word header, or one whose second word is empty, carries no token |
| AuthGate.Authenticate | src/middlewares/authMiddleware.ts:10-21 | no token gives 401 "Token not provided"; the claims come back exactly when the key is usable and verify succeeds; every refusal is a 401 |
| AuthGate.PassingMeansSigned | src/middlewares/authMiddleware.ts:16-18 | only an unexpired token signed under the configured key passes |
| AuthGate.AuthMiddleware | src/middlewares/authMiddleware.ts:5-22 | a refusal stops the request without calling next and leaves req.user alone; otherwise req.user holds the claims, next is called once, and a throw out of next becomes 401 "Invalid token" |
| AuthGate.GuardedAuthRoutes | src/routes/auth.routes.ts:13-17 | of the auth routes exactly GET me, GET refresh and POST logout are guarded |
| AuthGate.ResourceRoutesGuarded | src/routes/routes.ts:21-24 | every path under authors, books and users is guarded, and nothing outside them and auth is |
| AuthController.UserJson | src/controllers/auth.controller.ts:46 | a user is rendered with its id, nickname and e-mail |
| AuthController.RefusalShape | src/controllers/auth.controller.ts:62-65 | a controller refusal is the error envelope with its status, message and detail "Error data not found" |
| AuthController.TokenReplyShape | src/controllers/auth.controller.ts:82-86 | a token reply is the success envelope carrying exactly the token |
| AuthController.Register | src/controllers/auth.controller.ts:27-52 | a new e-mail stores the user with the hash of the hash of the password and answers 201 with the user and a token; a taken e-mail throws 500 "Error registering user" with the driver message and stores nothing; after a successful register no password logs that user in |
| AuthController.RegisterHashOnce | src/controllers/auth.controller.ts:30-35 | with the password passed on unhashed, the stored secret is its single hash and the registered password logs in |
| AuthController.Login | src/controllers/auth.controller.ts:57-91 | an unknown e-mail gives 401 "Invalid credentials"; a wrong password exactly gives 401 "Password does not match"; a missing key exactly throws 500 "Error logging in" |
| AuthController.LoginSucceedsExactly | src/controllers/auth.controller.ts:60-86 | login answers 200 exactly for a stored e-mail whose secret is the hash of the password under a usable key, with a token for that user |
| AuthController.LoginTokenPassesGate | src/controllers/auth.controller.ts:76-86 | the login token passes the gate with the user's claims for one hour, and is refused as "Invalid token" afterwards |
| AuthController.LoginAfterRegisterFails | src/controllers/auth.controller.ts:30 | as written, no password logs in a registered user |
| AuthController.LoginAfterHashOnceSucceeds | src/controllers/auth.controller.ts:30-35 | with a single hash the registered password logs in |
| AuthController.LoginAfterPasswordPatchFails | src/services/user.service.ts:72-73 | after a password change through the users route (with or without a new e-mail), logging in at the row's e-mail with the new password fails |
| AuthController.Me | src/controllers/auth.controller.ts:96-108 | a claim set with an id answers 200 "Current user" with the stored user or null; one without an id throws 500 "Error getting current user" |
| AuthController.MeForIssuedClaims | src/controllers/auth.controller.ts:98-103 | for issued claims, me returns the subject as stored, or null once it is deleted |
| AuthController.Refresh | src/controllers/auth.controller.ts:113-159 | 401 "Unauthorized" exactly when there is no token, or the token verifies to a payload without `id_user` or to a subject no longer stored; a missing key or failed verify exactly throws 500 "Error refreshing token"; every other response is a 200, which only follows a verified token whose subject exists and carries a token signed from the stored user |
| AuthController.RefreshBehindGateNeverThrows | src/controllers/auth.controller.ts:123 | behind the gate, refresh never reaches its catch |
| AuthController.RefreshForDeletedSubject | src/controllers/auth.controller.ts:136-142 | a valid token for a deleted user gives 401 "Unauthorized" |
| AuthController.RefreshedTokenPassesGate | src/controllers/auth.controller.ts:144-154 | the refreshed token carries the stored e-mail and a new hour, and passes the gate |
| AuthController.Logout | src/controllers/auth.controller.ts:164-174 | always 200 "Logout successful" with null data; no state |
| AuthController.MissingKeyLocksEveryone | src/middlewares/authMiddleware.ts:16 | without a usable key no header passes the gate and no login gets a 200 |

## Left out

- Logging (`Logger`, `console.error`) is console I/O with timestamps, and it has no effect on any result.
- The cron schedule (`0 0 * * *`) and any interleaving of the job with requests are out of scope; one sequential run of the loop is modelled.
- bcrypt's salt and cost, and the JWT encoding, HMAC and claim parsing, are foreign crypto. They are abstract, with only the contracts `Store.Compare` and `Tokens.Sound`.
- TypeORM and Postgres are replaced by in-memory tables. Not modelled: relation loading (the `author` object inside a returned book), `created_at`/`updated_at`, and the generated constraint names inside driver messages (`Store.DriverMessage` names table and column instead). Errors other than the two constraints are one abstract `QueryFailed`.
- `getAll` in the three services is a plain `find()` of the whole table, which is the table itself.
- Express wiring (`app.ts`, `server.ts`, the route files) is left out. The guarded-route set is kept as `AuthGate.IsGuarded`, over path segments below `/api`. Express' case-insensitive matching and trailing slashes are not modelled.
- The CRUD controllers (author, book, user) are HTTP adapters around the services and the envelope. The services take their validated bodies as typed records.
- The welcome pages, the swagger document, `notFoundHandler` (a fixed 404 body without `success`) and the `ErrorWithStatus` interface hold no logic to model.
- The e-mail regex of zod is the parameter `isEmail`.
- Zod.StrictIssues: the message "Unrecognized key(s) in object" does not list the offending keys, as zod's message does.
- AuthController.UserJson: the real response also carries the stored password hash and the timestamps. Secrets are symbolic and have no text, so they are not rendered.
- AuthController.Register: the body is not validated on this route. A missing or non-string password makes bcrypt throw (500 "Error registering user"); this path is not modelled, and the fields are taken as strings.
- AuthController.Me: a claim set without `id_user` queries with `NaN`, which the driver refuses. The driver's message is the parameter `queryError`.
- AuthGate.AuthMiddleware: only a synchronous throw out of `next()` would reach the catch (the parameter `nextThrows`). Under Express 4, `Layer.handle_request` wraps each later handler in its own try/catch, so in a running app that branch is not reached; the model keeps it as the code states it. Rejections of async handlers bypass the gate and are not modelled.
- AuthController.Login: the body is not validated on this route. A missing or non-string password makes `bcrypt.compare` throw (500 "Error logging in" carrying bcrypt's message); this path is not modelled, and the fields are taken as strings. The contract's "throws exactly when the key is unusable" holds for string fields only.
- Store.CompareContract and AuthController.LoginAfterRegisterFails: secrets are symbolic, so the model does not capture two properties of real bcrypt. First, bcrypt reads only the first 72 bytes, so two passwords sharing those bytes compare equal, while `Store.CompareContract` says equal only for equal passwords. Second, a hash is a 60-character string that could itself be typed as a password. As written, the intermediate text `h = bcrypt(p)` logs in after `register`, since `compare(h, bcrypt(h))` holds; `AuthController.LoginAfterRegisterFails` ("no password logs in") holds only for passwords other than that hash text.
- Json.Truthy: `Num` holds a mathematical real, which cannot be NaN, so NaN being falsy is not modelled.
- Tokens.KeyUsable and AuthController.MissingKeyLocksEveryone assume jsonwebtoken 9 or later, where `sign` and `verify` refuse an empty key. In version 8 and earlier (CVE-2022-23540), an empty key with an unsigned `alg: none` token verifies. The dependency manifest is not part of this model.
- BookService.Create: whether the count write throws is the parameter `countFails`. The count is the job's loop body because the imported `updateBooksCount` does not exist (see above).
- The key counters follow Postgres sequences: a refused insert still consumes its key.

## Findings

| source | as written | input that shows it | evidently intended | confidence | as-written member | corrected member |
|---|---|---|---|---|---|---|
| src/controllers/auth.controller.ts:30 | `register` hashes the password and `UserService.create` (src/services/user.service.ts:54) hashes the result again, so the stored secret is hash(hash(p)) | register `{email: "a@b.c", password: "secret1"}`, then log in with the same pair: 401 "Password does not match" | the password is hashed once, so the registered password logs in | high; not executed | AuthController.LoginAfterRegisterFails | AuthController.RegisterHashOnce |
| src/services/book.service.ts:64-66 | the author's count is written before the book is saved, so it would count the books without the new one. As the file stands, the imported `updateBooksCount` does not exist, so `create` throws at line 64 before the save and no book is created | if `updateBooksCount` existed and did the job's loop body: an author with 2 books gets a third through `create`, and books_published is 2 while 3 books reference the author | count after saving, so books_published equals the number of the author's books | medium (depends on what the missing `updateBooksCount` would do); not executed | BookService.WrittenCreateLeavesCountStale | BookService.CreateCounted |
