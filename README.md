# Alumni CRUD API: a Dafny model of its core

This project models the core of the alumni CRUD API: a Go/Fiber service over
an `alumni` table and a `pekerjaan_alumni` (job record) table, with a
document store for uploaded files and a `users` table for logging in.

At its centre is the **job-record trash lifecycle**. A record is *active* or
*trashed*:

- soft delete moves an active record to the trash and stamps `deleted_at` and
  `deleted_by`;
- restore moves a trashed record back and clears both stamps;
- hard delete removes trashed records only;
- plain delete removes a record whatever its state.

Every repository statement is one conditional write whose precondition sits
in its `WHERE` clause. Each becomes one atomic method of the class
`JobRepository.JobTable`. The class holds the rows as a `map<int, Job>` plus
an `alumniId → user_id` map, which stands in for the `JOIN alumni` of the
ownership queries. The service (`JobService.JobService`) places role and
ownership checks in front of those writes. Its `Handle*` methods map the
service's error text to an HTTP status.

Around that core the model covers:

- **Alumni CRUD** (`AlumniRepository`, `AlumniService`): the same
  table-plus-service pattern without a trash stage, with the sort-column
  allow-list and the pagination arithmetic (`Pagination`).
- **Validators** (`Validation`): the four straight-line accumulators. Each is
  a method that appends one fixed message per broken rule and joins them
  with `", "`. Each is specified by a table of (failed, message) checks.
- **Access gates** (`AuthMiddleware`): the strict `Bearer <token>` header
  check of `AuthRequired`, a strict reading of the bearer scheme of section
  2.1 of RFC 6750, and the `AdminOnly` role gate.
- **Login** (`AuthService`): user lookup by username or email, the password
  check, token issue, and the 400/401/200 mapping of `HandleLogin`.
- **File service** (`FileService`): the upload, list and delete handlers
  reduced to a decision procedure, over a `FileStore` class holding file
  metadata and the set of paths on disk. The decision covers the route's
  category, the inclusive size bound, the MIME allow-list, and admin-or-owner
  target resolution. MongoDB ObjectIDs are parsed from 24 hex digits, with a
  proved round trip.

Foreign code is passed in as parameters:

- the token validator and signer, and the password checker (functions);
- the clock (`now`), the UUID and the new ObjectID;
- the outcomes of the disk and database calls (booleans).

Strings are `seq<char>`. Integers are unbounded.

## Model

| member | source | states |
|---|---|---|
| Text.Split | middleware/auth.go:23 | `strings.Split` on one character gives at least one piece and no piece contains the separator |
| Text.JoinSplit | middleware/auth.go:23 | joining the pieces of a split with the separator gives back the original string |
| Text.SplitLength | middleware/auth.go:23-24 | a split has one more piece than the string has separators |
| Text.SplitNoSeparator | middleware/auth.go:23-24 | a string without the separator splits into itself alone |
| Text.SplitPair | middleware/auth.go:23-24 | `a + sep + b`, neither containing the separator, splits into exactly `[a, b]` |
| Text.IntToString | app/service/pekerjaan_service.go:90 | the decimal text of an integer is never empty |
| Text.Atoi | app/service/pekerjaan_service.go:398 | a successful parse is of non-empty text that starts with a digit, `+` or `-`, and a negative value only comes after a leading `-` |
| Text.AtoiOrZero | app/service/pekerjaan_service.go:379-380 | a non-zero result is a successful parse of that value; text that does not parse gives 0 |
| Text.AtoiOfIntToString | app/service/pekerjaan_service.go:314 | `strconv.Atoi` parses the decimal text of every integer back to that integer |
| Text.AtoiOfDigits | app/service/pekerjaan_service.go:314 | a non-empty digit string parses to its decimal value |
| Text.AtoiOfNegated | app/service/pekerjaan_service.go:314 | a minus sign followed by digits parses to the negated value |
| Text.ParseNatToString | app/service/pekerjaan_service.go:314 | reading back the digits written for a natural number gives that number |
| Pagination.ClampPage | app/service/alumni_service.go:136-138 | the clamped page is at least 1, is the input when that is at least 1, and is 1 otherwise |
| Pagination.ClampLimit | app/service/alumni_service.go:139-141 | the clamped limit lies in [1,100], is the input when it is in range, and is 10 otherwise |
| Pagination.Offset | app/service/pekerjaan_service.go:158 | `(page-1)*limit` is never negative, and is zero exactly on the first page |
| Pagination.NextOffset | app/service/alumni_service.go:95 | each next page starts exactly `limit` rows further on |
| Pagination.PagesIsCeiling | app/service/pekerjaan_service.go:170 | `(total+limit-1)/limit` is the ceiling of total/limit: 0 exactly when total is 0, covers every row, and has no empty last page |
| Pagination.PageOfRow | app/service/alumni_service.go:107 | every row index falls on a page between 1 and `pages`, inside that page's offset window |
| Pagination.Window | app/repository/pekerjaan_repository.go:261 | `LIMIT/OFFSET` keeps at most `limit` rows, in order, starting at `offset` |
| Pagination.PlanList | app/service/alumni_service.go:130-161 | the paged branch runs iff page, limit, search or sortBy is present; page and limit are clamped with defaults 1 and 10; sortBy defaults to "id" and order to "asc" |
| Pagination.OrderAloneListsAll | app/service/alumni_service.go:143 | a request carrying only `order` takes the unpaged branch |
| Pagination.SortClause | app/repository/pekerjaan_repository.go:239-251 | the column is sortBy when it is in the allow-list and "id" otherwise; the direction is "desc" iff order is "desc", and "asc" for anything else |
| Validation.Appended | helper/validation.go:11-13 | one conditional append keeps the earlier messages and adds this rule's message exactly when the rule fails |
| Validation.FailedMessagesSnoc | helper/validation.go:8-31 | the messages of a longer check table are those of its prefix plus one conditional append |
| Validation.NoFailedMessages | helper/validation.go:33-36 | no message is collected iff no check fails |
| Validation.FailedMessage | helper/validation.go:8-31 | a message is collected iff some failing check carries it |
| Validation.ReportedIffFailed | helper/validation.go:45-71 | with distinct messages, a rule's message is reported iff that rule fails |
| Validation.VerdictCapitalised | helper/validation.go:73-76 | when every message starts with a capital letter, so does the joined error |
| Validation.PekerjaanVerdictsCapitalised | helper/validation.go:41-136 | both job validators' errors start with a capital letter, so they are never "pekerjaan not found" or "alumni not found" |
| Validation.PassingCheckFirst | helper/validation.go:48-50 | a passing first rule adds nothing in front of the rest |
| Validation.AppendedAfterPrefix | helper/validation.go:11-31 | appending after a fixed prefix of messages leaves that prefix in front |
| Validation.AppendIfFailed | helper/validation.go:11-13 | the new list is the old one, with the rule's message added at the end exactly when the rule failed |
| Validation.Finish | helper/validation.go:33-36 | nil iff no message was collected; otherwise the messages joined with ", " |
| Validation.RunCreateAlumni | helper/validation.go:8-31 | the create-alumni checks collect the seven messages in rule order, each iff its rule fails |
| Validation.RunUpdateAlumni | helper/validation.go:79-99 | the update-alumni checks collect the six messages in rule order, each iff its rule fails |
| Validation.RunCreatePekerjaan | helper/validation.go:41-71 | the create-job checks collect the eight messages in rule order, each iff its rule fails |
| Validation.RunUpdatePekerjaan | helper/validation.go:107-130 | the update-job checks collect the seven messages in rule order, each iff its rule fails |
| Validation.ValidateCreateAlumni | helper/validation.go:8-37 | the error is the ", "-joined messages of the failing create-alumni rules, in rule order, and nil when none fails |
| Validation.ValidateUpdateAlumni | helper/validation.go:79-105 | the error is the joined messages of the failing update-alumni rules, and nil when none fails |
| Validation.ValidateCreatePekerjaan | helper/validation.go:41-77 | the error is the joined messages of the failing create-job rules, and nil when none fails |
| Validation.ValidateUpdatePekerjaan | helper/validation.go:107-136 | the error is the joined messages of the failing update-job rules, and nil when none fails |
| Validation.CreateAlumniAccepts | helper/validation.go:33-36 | the create-alumni validator returns nil iff NIM is present and every alumni rule holds |
| Validation.UpdateAlumniAccepts | helper/validation.go:101-104 | the update-alumni validator returns nil iff nama, jurusan and email are present, angkatan and tahunLulus are positive, and tahunLulus is not below angkatan |
| Validation.CreatePekerjaanAccepts | helper/validation.go:73-76 | the create-job validator returns nil iff the alumni id is present and every job rule holds |
| Validation.UpdatePekerjaanAccepts | helper/validation.go:132-135 | the update-job validator returns nil iff the six fields are present and the status is aktif, selesai or resigned |
| Validation.UpdateAlumniSkipsNim | helper/validation.go:79-105 | the update validator never looks at NIM: create reports "NIM is required" first when NIM is empty, then exactly what update reports |
| Validation.UpdatePekerjaanSkipsAlumniId | helper/validation.go:107-136 | the update validator never looks at the alumni id: create reports "Alumni ID is required" first when it is empty, then exactly what update reports |
| Validation.UpdateAlumniMessages | helper/validation.go:82-99 | each alumni rule's own message is reported iff that rule is broken |
| Validation.UpdatePekerjaanMessages | helper/validation.go:110-130 | each job rule's own message is reported iff that rule is broken, including the three-value status rule |
| Validation.EmptyStatusReportedTwice | helper/validation.go:66-71 | an empty status ends the list with both the "required" and the "must be" messages |
| Validation.UnknownStatusAlone | helper/validation.go:128-130 | for any non-empty values of the other five fields, an unknown non-empty status yields exactly the "must be" message |
| Validation.MessagesInRuleOrder | helper/validation.go:11-31 | messages come out in rule order, for example NIM, then Nama, then the graduation-year rule |
| AlumniRepository.Lookup | app/repository/alumni_repository.go:56-73 | found iff the id is a row, and then that row; otherwise `sql.ErrNoRows` |
| AlumniRepository.Inserted | app/repository/alumni_repository.go:75-96 | a new row has the fresh id, the request's NIM and its seven other fields, and `created_at == updated_at == now` |
| AlumniRepository.Updated | app/repository/alumni_repository.go:98-120 | an update keeps id, NIM and created_at, sets the seven listed fields from the request, and stamps updated_at |
| AlumniRepository.EmptySearchMatchesAll | app/repository/alumni_repository.go:162 | the pattern built from an empty search matches every row |
| AlumniRepository.AlumniTable.GetByID | app/repository/alumni_repository.go:56-73 | returns the row with that id, or `sql.ErrNoRows` |
| AlumniRepository.AlumniTable.Create | app/repository/alumni_repository.go:75-96 | inserts exactly the new row under a fresh id and changes nothing else |
| AlumniRepository.AlumniTable.Update | app/repository/alumni_repository.go:98-120 | an existing row becomes its update; a missing id gives `sql.ErrNoRows` and no change |
| AlumniRepository.AlumniTable.Delete | app/repository/alumni_repository.go:122-139 | removes the row if present and reports success even when no row matched |
| AlumniRepository.AlumniTable.Matching | app/repository/alumni_repository.go:162 | collects exactly the rows the search matches, each once |
| AlumniRepository.AlumniTable.CountWithSearch | app/repository/alumni_repository.go:200-219 | the count is the number of rows the shared nama/nim/jurusan/email filter matches |
| AlumniRepository.AlumniTable.GetAllWithPagination | app/repository/alumni_repository.go:141-198 | applies the eight-column sort allow-list, and returns one `LIMIT/OFFSET` window of distinct table rows matching the same filter as the count |
| AlumniService.AlumniService.constructor | app/service/alumni_service.go:34-38 | the service works on the given table |
| AlumniService.AlumniService.CreateAlumni | app/service/alumni_service.go:55-62 | succeeds iff the input is valid; a failure returns the validator's message and creates nothing; a success inserts exactly the new row |
| AlumniService.AlumniService.UpdateAlumni | app/service/alumni_service.go:64-79 | "alumni not found" comes before validation errors; every failure leaves the table unchanged; a success stores the updated row |
| AlumniService.AlumniService.DeleteAlumni | app/service/alumni_service.go:81-92 | a missing id fails with "alumni not found" and changes nothing; an existing row is removed |
| AlumniService.AlumniService.GetAlumniWithPagination | app/service/alumni_service.go:94-123 | the page holds at most `limit` matching rows, and the meta carries the matching total and the page count `ceil(total/limit)` |
| AlumniService.AlumniService.HandleGetAllAlumni | app/service/alumni_service.go:125-162 | paginates iff page, limit, search or sortBy is present, with clamped page and limit; the meta total is the filtered count |
| AlumniService.AlumniService.HandleCreateAlumni | app/service/alumni_service.go:185-200 | 400 for a bad body or invalid fields, with the validator's message; 201 iff the fields are valid |
| AlumniService.AlumniService.HandleUpdateAlumni | app/service/alumni_service.go:202-225 | 400 for a bad id or body; 404 iff the id is absent; 400 with the validator's message for invalid fields; 200 iff present and valid, and then the row is exactly its `Updated` form; the table changes only on 200 |
| AlumniService.AlumniService.HandleDeleteAlumni | app/service/alumni_service.go:227-245 | 400 for a bad id, 404 for a missing row, otherwise 200 with the row removed |
| JobRepository.ActiveRow | app/repository/pekerjaan_repository.go:69-89 | found iff the id is an active row (`is_deleted = FALSE`); a trashed record is never returned |
| JobRepository.Inserted | app/repository/pekerjaan_repository.go:124-151 | a new record is active with no trash stamps, belongs to the request's alumni, carries the request's nine content fields, and has `created_at == updated_at == now` |
| JobRepository.Updated | app/repository/pekerjaan_repository.go:153-181 | an update sets each of the nine request fields and updated_at; id, alumni_id, created_at and the trash state are kept |
| JobRepository.SoftDeleted | app/repository/pekerjaan_repository.go:205 | a trashed record has `is_deleted`, `deleted_at = now` and `deleted_by = deleter`, and updated_at = now |
| JobRepository.Restored | app/repository/pekerjaan_repository.go:387 | a restored record is active with both stamps cleared, and updated_at = now |
| JobRepository.RestoreUndoesSoftDelete | app/repository/pekerjaan_repository.go:205 | soft delete then restore gives back the original record in every field but updated_at |
| JobRepository.OwnerOf | app/repository/pekerjaan_repository.go:222-235 | `sql.ErrNoRows` iff the record or its alumni row is missing; otherwise the alumni's `user_id` when it is set |
| JobRepository.DistinctIdsCount | app/repository/pekerjaan_repository.go:262-290 | a list of rows with distinct ids has as many ids as rows |
| JobRepository.DistinctFromCount | app/repository/pekerjaan_repository.go:262-290 | a list with as many ids as rows has distinct ids |
| JobRepository.IdsBound | app/repository/pekerjaan_repository.go:262-290 | a list never has more ids than rows |
| JobRepository.InsertByDeletedAt | app/repository/pekerjaan_repository.go:326 | inserting a record into the trash order adds exactly that record |
| JobRepository.InsertKeepsOrder | app/repository/pekerjaan_repository.go:326 | inserting into a list ordered by `deleted_at DESC NULLS LAST` keeps it ordered |
| JobRepository.SortByDeletedAt | app/repository/pekerjaan_repository.go:326 | the trash order is a permutation of the rows, ordered by `deleted_at` descending with nulls last |
| JobRepository.SortKeepsRows | app/repository/pekerjaan_repository.go:326 | sorting keeps the length, the members, the ids and their distinctness |
| JobRepository.GatheredSnoc | app/repository/pekerjaan_repository.go:262-290 | appending a new selected row keeps the list a duplicate-free selection of table rows |
| JobRepository.IdsSnoc | app/repository/pekerjaan_repository.go:262-290 | appending a row adds exactly its id |
| JobRepository.WindowKeeps | app/repository/pekerjaan_repository.go:261 | a `LIMIT/OFFSET` window of a selection is still a duplicate-free selection of table rows |
| JobRepository.SortGathered | app/repository/pekerjaan_repository.go:326 | the trash order of a selection is still that selection, now ordered |
| JobRepository.JobTable.constructor | app/repository/pekerjaan_repository.go:32-34 | an empty table over the given ownership map |
| JobRepository.JobTable.GetByID | app/repository/pekerjaan_repository.go:69-89 | returns the active row with that id, or `sql.ErrNoRows` for a missing or trashed one |
| JobRepository.JobTable.Create | app/repository/pekerjaan_repository.go:124-151 | inserts exactly the new active record under a fresh id |
| JobRepository.JobTable.Update | app/repository/pekerjaan_repository.go:153-181 | only an active record is updated; otherwise `sql.ErrNoRows` and no change |
| JobRepository.JobTable.Delete | app/repository/pekerjaan_repository.go:183-200 | removes the record whatever its trash state, and reports success even when none matched |
| JobRepository.JobTable.SoftDelete | app/repository/pekerjaan_repository.go:202-220 | succeeds iff the record is active, then trashes exactly it with the deleter and time; otherwise `sql.ErrNoRows` and no change |
| JobRepository.JobTable.GetOwnerUserID | app/repository/pekerjaan_repository.go:222-235 | the user id of the record's alumni, `sql.ErrNoRows` for a missing record or alumni, or the scan error for a NULL user id |
| JobRepository.JobTable.Restore | app/repository/pekerjaan_repository.go:384-399 | succeeds iff the record is trashed, then makes exactly it active again; otherwise `sql.ErrNoRows` and no change |
| JobRepository.JobTable.HardDeleteAdmin | app/repository/pekerjaan_repository.go:401-412 | removes the record iff it is trashed; an active one survives with `sql.ErrNoRows` |
| JobRepository.JobTable.HardDeleteUser | app/repository/pekerjaan_repository.go:414-432 | removes the record iff it is trashed and its alumni belongs to the user; otherwise `sql.ErrNoRows` and no change |
| JobRepository.JobTable.Select | app/repository/pekerjaan_repository.go:262-290 | the rows loop yields each row the filter keeps exactly once |
| JobRepository.JobTable.CountWithSearch | app/repository/pekerjaan_repository.go:295-316 | the count is the number of active records the search filter keeps |
| JobRepository.JobTable.GetAllWithPagination | app/repository/pekerjaan_repository.go:237-293 | applies the nine-column sort allow-list, and returns one window of distinct active table rows matching the same filter as the count |
| JobRepository.JobTable.ListTrashAdmin | app/repository/pekerjaan_repository.go:318-348 | the page is the `LIMIT`/`OFFSET` window of a listing `all` that holds every trashed record matching the search exactly once, as stored, ordered by `deleted_at DESC NULLS LAST` |
| JobRepository.JobTable.ListTrashUser | app/repository/pekerjaan_repository.go:350-382 | as the admin listing: the page is the window of an ordered listing of every trashed matching record whose alumni's `user_id` is the user's, each once |
| JobService.MayAct | app/service/pekerjaan_service.go:136-151 | a non-admin may act exactly on a stored job whose alumni's `user_id` is theirs; an admin on any id |
| JobService.AlumniIdRuleNeverFires | app/service/pekerjaan_service.go:90 | an integer alumni id always prints as non-empty, so create validation reports exactly what update validation reports |
| JobService.JobService.constructor | app/service/pekerjaan_service.go:44-49 | the service works on the given job and alumni tables |
| JobService.JobService.CreatePekerjaan | app/service/pekerjaan_service.go:79-95 | a missing alumni is reported before validation; succeeds iff the alumni exists and the fields are valid; any failure creates nothing |
| JobService.JobService.UpdatePekerjaan | app/service/pekerjaan_service.go:97-112 | an absent or trashed id is "pekerjaan not found" before validation; any failure changes nothing |
| JobService.JobService.DeletePekerjaan | app/service/pekerjaan_service.go:114-125 | a trashed or absent record is "pekerjaan not found" and stays; an active one is removed |
| JobService.JobService.SoftDeletePekerjaan | app/service/pekerjaan_service.go:127-155 | existence is checked before ownership; a non-admin needs to own the record; succeeds iff active and permitted, stamping the acting user; any failure changes nothing |
| JobService.JobService.RestorePekerjaan | app/service/pekerjaan_service.go:203-218 | a non-admin's ownership is checked whatever the trash state; a permitted caller restoring an active record gets the raw `sql.ErrNoRows`; succeeds iff trashed and permitted |
| JobService.JobService.HardDeletePekerjaan | app/service/pekerjaan_service.go:220-226 | removes a record iff it is trashed and the caller is admin or its owner; every refusal is `sql.ErrNoRows` with no change |
| JobService.JobService.ListTrash | app/service/pekerjaan_service.go:188-201 | clamps page and limit; the list is the window at `(page-1)*limit` of the ordered listing of every matching trashed row (only the caller's own for a non-admin), so at most `limit` rows, latest deletion first |
| JobService.JobService.GetPekerjaanWithPagination | app/service/pekerjaan_service.go:157-186 | at most `limit` distinct matching active rows, with the matching total and the page count `ceil(total/limit)` |
| JobService.JobService.HandleGetAllPekerjaan | app/service/pekerjaan_service.go:228-260 | paginates iff page, limit, search or sortBy is present, with clamped page and limit; the meta total is the filtered count |
| JobService.JobService.HandleCreatePekerjaan | app/service/pekerjaan_service.go:296-311 | 404 iff the alumni is missing; 400 with the validator's message for invalid fields; 201 iff the alumni exists and the fields are valid, and then exactly the `Inserted` record is added under the next id; the table changes only on 201 |
| JobService.JobService.HandleUpdatePekerjaan | app/service/pekerjaan_service.go:313-333 | 400 for a bad id or body; 404 iff the record is absent or trashed; 400 with the validator's message for invalid fields; 200 iff active and valid, and then the record is exactly its `Updated` form; the table changes only on 200 |
| JobService.JobService.HandleDeletePekerjaan | app/service/pekerjaan_service.go:335-350 | 400 for a bad id, 404 for an absent or trashed record, otherwise 200 with the record removed |
| JobService.JobService.HandleSoftDeletePekerjaan | app/service/pekerjaan_service.go:352-373 | 404 for an absent or trashed record; 403 for another user's record; 500 when the owner lookup fails, the "no owner" text matching neither test; 200 iff active and permitted, and then the record is exactly its `SoftDeleted` form stamped with the caller; the table changes only on 200 |
| JobService.JobService.HandleListTrash | app/service/pekerjaan_service.go:375-393 | page and limit default to 1 and 10, with unparsable values read as 0 and then clamped; the list is exactly that page's window of the ordered trash listing for the caller's role, with its length |
| JobService.JobService.HandleRestorePekerjaan | app/service/pekerjaan_service.go:395-415 | any id not in the trash that the caller may act on answers 500 (an admin's missing id included); for a non-admin, 404 when the record or its alumni is missing, 500 when the alumni's `user_id` is NULL, 403 for another user's record; 200 iff trashed and permitted, and then the record is exactly its `Restored` form; the table changes only on 200 |
| JobService.JobService.HandleHardDeletePekerjaan | app/service/pekerjaan_service.go:417-433 | 200 iff the record is trashed and the caller is admin or owner; every other valid id answers 404 with no change |
| AuthMiddleware.BearerToken | middleware/auth.go:23-24 | a token is only extracted from a header that is "Bearer", one space and that token, and the token has no space |
| AuthMiddleware.BearerTokenExact | middleware/auth.go:23-29 | the header check accepts exactly "Bearer", one space, and a token without spaces, and yields that token |
| AuthMiddleware.StrictBearerForm | middleware/auth.go:23-29 | a lower-case scheme name and a doubled space are both refused |
| AuthMiddleware.Authenticate | middleware/auth.go:15-38 | every refusal is 401, and an empty header is "Token akses diperlukan" |
| AuthMiddleware.AuthenticateProceeds | middleware/auth.go:23-45 | a request gets through only with "Bearer " and a space-free token the validator accepts, carrying exactly that token's claims |
| AuthMiddleware.AuthenticateAccepts | middleware/auth.go:23-45 | every well-formed header with an accepted token gets through with its claims |
| AuthMiddleware.RejectedTokenMessage | middleware/auth.go:32-38 | a well-formed header with a refused token is "Token tidak valid atau expired" |
| AuthMiddleware.Ctx.constructor | middleware/auth.go:41-43 | a request context starts with no locals |
| AuthMiddleware.AuthRequired | middleware/auth.go:11-47 | the next handler runs iff the decision chain accepts; it then has user_id, username and role set from the claims; a refusal leaves the locals untouched |
| AuthMiddleware.AdminOnly | middleware/auth.go:50-61 | passes iff the role local is "admin"; otherwise 403 "Akses ditolak. Hanya admin yang diizinkan" |
| AuthMiddleware.AdminRoute | route/route.go:63-65 | behind both gates a request is let through iff its header is well formed and its token's role is admin; an authentication refusal is that 401 |
| AuthService.FindUser | app/service/auth_service.go:25 | no user is found iff no row's username or email equals the identifier; a found row names it |
| AuthService.GetUserByUsernameOrEmail | app/service/auth_service.go:25-31 | a failing query gives the driver's error; otherwise `sql.ErrNoRows` iff no row names the identifier |
| AuthService.Login | app/service/auth_service.go:23-50 | success only for a found user with the right password and a signed token, returning that user and token |
| AuthService.UnknownUserLooksLikeWrongPassword | app/service/auth_service.go:27-35 | an unknown identifier and a wrong password give the identical "username atau password salah" |
| AuthService.DatabaseErrorIsDistinct | app/service/auth_service.go:30 | a failing query is "error database: …", never the credentials or token message |
| AuthService.TokenOutcome | app/service/auth_service.go:39-49 | with the right password a failed signing is "gagal generate token", and a successful one returns the user and token |
| AuthService.HandleLogin | app/service/auth_service.go:56-72 | 400 for a bad body; 401 iff both fields are present and login fails, with login's message; 200 iff a response is returned, and it is login's |
| AuthService.MissingFieldsBeforeLookup | app/service/auth_service.go:62-64 | an empty username or password answers 400 whatever the users table holds or the database does |
| FileService.HexValue | app/service/file_service.go:134 | a hex digit's value lies in [0,16) |
| FileService.HexDigit | app/service/file_service.go:134 | each value in [0,16) has a lower-case hex digit whose value it is |
| FileService.DecodeHex | app/service/file_service.go:134 | decoding an even-length hex text gives half as many bytes |
| FileService.DecodeHexAccepts | app/service/file_service.go:134 | decoding succeeds iff every character is a hex digit |
| FileService.EncodeHex | app/service/file_service.go:134 | encoding gives two digits per byte |
| FileService.DecodeEncode | app/service/file_service.go:134 | decoding the encoding of any bytes gives them back |
| FileService.EncodeDecode | app/service/file_service.go:134 | encoding the decoding of lower-case hex gives it back |
| FileService.ObjectIdFromHex | app/service/file_service.go:134 | a parsed ObjectID came from 24 characters and has 12 bytes |
| FileService.ObjectIdFromHexAccepts | app/service/file_service.go:208 | `ObjectIDFromHex` accepts exactly 24 hex digits |
| FileService.ObjectIdRoundTrip | app/service/file_service.go:208 | parsing the hex text of any ObjectID gives it back |
| FileService.HexOfParsed | app/service/file_service.go:208 | the hex text of a parsed lower-case id is the input |
| FileService.CategoryOf | app/service/file_service.go:91-105 | only the foto and sertifikat routes have a category, each with a positive whole-MiB limit and a non-empty type list |
| FileService.CategoriesDisjoint | app/service/file_service.go:18-32 | no content type is allowed on both routes: photos are never PDFs and certificates never PNGs |
| FileService.TooLargeMessages | app/service/file_service.go:111-112 | the size messages name 1 MB for photos and 2 MB for certificates |
| FileService.CheckContent | app/service/file_service.go:91-119 | the upload passes iff the route names a category, the size is within its bound and the type is allowed; an unknown route is reported before the size, the size before the type |
| FileService.UploadTarget | app/service/file_service.go:129-149 | an admin's target is the parsed `alumni_id` and must exist, an empty one being reported as missing; a non-admin's target is their own profile, whatever the form says |
| FileService.PlanUpload | app/service/file_service.go:77-149 | a stored upload passed the size bound and the type list; an admin's target parsed and exists; a non-admin's target is their own profile. Refusals: 400 for a missing file part, 500 for an unknown route, 400 with the size or type message, 400 for an admin's empty or malformed `alumni_id`, 404 for an admin's unknown alumni, 403 for a non-admin without a profile |
| FileService.SizeBoundInclusive | app/service/file_service.go:110-113 | a file of exactly the limit passes, and one byte more is refused with the size message |
| FileService.ContentCheckedFirst | app/service/file_service.go:110-119 | size and type are checked before authorization: a refused part gets the same 400 whoever sends it |
| FileService.UploadStoredIff | app/service/file_service.go:85-149 | an upload is stored iff the part is present and the route, size, type and target all check out |
| FileService.UserAlumniIdIgnored | app/service/file_service.go:142-149 | a non-admin's `alumni_id` field changes nothing |
| FileService.OwnerCheck | app/service/file_service.go:217-225 | passes iff the caller is admin or the alumni is the caller's own; otherwise 403 |
| FileService.UploadsAreOwned | app/service/file_service.go:129-149 | every stored upload passes the owner check the list and delete handlers apply |
| FileService.Ext | app/service/file_service.go:153 | `filepath.Ext` is a suffix of the name: empty, or a dot followed by no dot and no slash |
| FileService.ExtOfName | app/service/file_service.go:153 | the extension of `stem.ext` is `.ext` |
| FileService.StoredFile | app/service/file_service.go:153-177 | the metadata names the target alumni and category, a path of upload dir, "/", uuid and extension, and the part's original name, size and type |
| FileService.FileStore.constructor | app/service/file_service.go:46-51 | an empty store over the given alumni records and profiles |
| FileService.FileStore.HandleUpload | app/service/file_service.go:75-186 | a refusal answers the plan's response with nothing changed; 201 iff the plan stores and every side effect succeeds, adding exactly the new metadata and path |
| FileService.FileStore.SaveUpload | app/service/file_service.go:157-185 | 201 iff directory, write and insert succeed; any failure is 500 with no metadata; a failed insert removes the written file |
| FileService.FileStore.HandleGetFilesByAlumni | app/service/file_service.go:206-233 | 400 for a bad id; the owner check's 403 for another user's alumni; otherwise 200 with exactly that alumni's files, each once |
| FileService.FileStore.FilesOf | app/service/file_service.go:227 | returns every stored file of the alumni, as stored, no id twice |
| FileService.FileStore.HandleDeleteFile | app/service/file_service.go:253-287 | 404 for a bad or unknown id; 403 for another user's file; otherwise 200 with the metadata deleted even when removing the disk file fails |

## Left out

- Database and driver errors other than "no rows" are left out. They include connection failures, scan errors other than the NULL `user_id` scan, and `RowsAffected` errors. The 500 answers that only such errors reach are not modelled.
- Row order of the active listings (`ORDER BY <sortBy> <order>`) is left out. The model states the sort clause chosen and which rows come back, not their collation order. The trash listings' `deleted_at DESC NULLS LAST` order is modelled; rows with equal deletion times may come in any order, as the query leaves them.
- `ILIKE` is modelled as a case-sensitive substring match. Case folding and `%`/`_` wildcards inside the search text are not part of this model.
- `Pagination.Offset`, `Pagination.PagesIsCeiling`: Go's 64-bit `int` wrap-around on huge page or limit values is not modelled; integers are unbounded.
- `Text.Atoi`: does not model `strconv.Atoi`'s range error for values beyond 64 bits.
- JWT signing and validation (`helper.ValidateToken`, `helper.GenerateToken`) and bcrypt (`helper.CheckPassword`) are foreign code. They are function parameters.
- The plain read handlers are not modelled: `GetAll`, `GetByAlumniID`, `GetPekerjaanByID`, `GetAlumniByID`, `HandleGetAlumniByID`, `HandleGetPekerjaanByID`, `HandleGetPekerjaanByAlumniID` and `HandleGetProfile`. The unpaged branch of the two `HandleGetAll*` handlers returns no data in the model.
- Concurrency is left out. Each repository statement is one atomic step, as the database makes it.
- app/model/alumni.go is not part of this model. The alumni record's fields are taken from the repository's queries.
- Id types disagree across files. `ValidateCreatePekerjaan` takes a string alumni id (helper/validation.go:42) but is called with an `int` (app/service/pekerjaan_service.go:90); the model prints the integer with `Text.IntToString`.
- The middleware stores `user_id` as a string (middleware/auth.go:41), while the job handlers assert an `int` (app/service/pekerjaan_service.go:353). That assertion would panic, and the model assumes it succeeds: the job methods take an integer user id.
- The file service looks alumni up by ObjectID while alumni_repository.go is keyed by integers. The file model keeps its own set of alumni ObjectIDs and a user-to-profile map.
- Which routes sit behind `AdminOnly` (route/route.go:63-65, 70-73) and which only behind `AuthRequired` (route/route.go:57, 74-77) is routing, not modelled. Only the composition `AuthMiddleware.AdminRoute` is stated.
- The job table's `alumniId → user_id` map is not tied to the alumni table's rows.
- `AlumniService.AlumniService.GetAlumniWithPagination`, `JobService.JobService.GetPekerjaanWithPagination`: require `page >= 1` and `limit >= 1`, which every caller in the source guarantees by clamping first.
- `NOW()` and `time.Now()` are a `now` parameter. UUID and ObjectID generation are parameters, and so are the outcomes of `MkdirAll`, `SaveFile`, the metadata insert and the final `os.Remove`.
- `FileService.FileStore.SaveUpload`: assumes the rollback `os.Remove` after a failed insert succeeds.
- `filepath.Join` is modelled as directory, `/`, file name. The upload directories are given in the cleaned form `Join` returns (`uploads/foto`, `uploads/sertifikat`), not as the `./uploads/...` literals the source passes, and no other cleaning is modelled.
- `AuthService.FindUser`: takes the first row that names the identifier. The SQL query's choice among several matches is left to the database.
- `FileService.ObjectIdFromHex` follows the MongoDB driver's documented behaviour: exactly 24 hex digits of either case.
- A missing `file` form part is the only upload-form error modelled. Other multipart parse errors fall under it.
- `FileService.FileStore.HandleGetFilesByAlumni`: the 500 answer for a failing `GetByAlumniID` query is not modelled.
- `FileService.FileStore.HandleDeleteFile`: the 500 answer for a failing metadata delete is not modelled.
- Logging and the JSON response envelopes are left out. Responses are a status code and a message.
