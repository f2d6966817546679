# gbt-be-template user core, modelled in Dafny

The modelled system is a small user-account backend written in Go. It has a
`users` table behind GORM with soft delete, and a user service with these
operations: create, read, partial update, delete, paginated list, login and
logout. A token service issues and checks JWTs. Bearer-token middleware
writes the caller's identity into the request context, and HTTP handlers map
each service outcome to a status code. Some small utilities complete it: the
JSON envelope with its page count, string validators, client-address
extraction and the choice of log level.

The model follows the source file by file:

| module | file | form |
|---|---|---|
| `UserRepository` | `user_repository.dfy` | class `UserTable`, with the rows, id counter and driver faults as fields; each method is proved against a step function of the table |
| `UserService` | `user_service.dfy` | class `Service` over a `UserTable`; each method drives the table call by call and is proved equal to an outcome function |
| `AuthService` | `auth_service.dfy` | pure functions over a snapshot of the table |
| `AuthMiddleware` | `auth_middleware.dfy` | pure gate functions returning `Reject` or `Next(context)` |
| `UserHandlers` | `user_handler.dfy` | pure guard chains; service calls are function parameters |
| `UserModel`, `RoleModel` | `user_model.dfy`, `role_model.dfy` | record types, projections and request constraints; `RoleToResponse` fills an array in a loop |
| `Response`, `Validation`, `Logging` | `response.dfy`, `validation.dfy`, `logging.dfy` | pure functions; the status recorder is a class; `ClientIP` scans in a loop |
| `Common`, `Jwt` | `common.dfy`, `jwt.dfy` | shared types; the token codec as three abstract functions |

The model makes these choices about state and outside inputs:

- A failure of a database call is an input. `faults` maps a call to the error it fails with, and a failing call changes nothing.
- The clock is a `now` parameter.
- bcrypt is an abstract `Hasher`.
- The JWT functions form an abstract `Codec`.
- JSON decoding is a `Decoded` input.
- The request validator is a function from a request to its optional error text.

The table keeps every row ever inserted, in primary-key order. Every query sees only the rows with no `deletedAt`. The invariant `WellFormed` says three things:

- ids are positive, increasing and below the counter;
- no two rows share an email or a username;
- the uniqueness covers soft-deleted rows too, because the `uniqueIndex` tags on `users.email` and `users.username` are database indexes, and the soft-delete scope does not apply to them.

## Model

| member | source | states |
|---|---|---|
| UserRepository.FirstLive | internal/repository/user_repository.go:34-67 | `First` finds nothing iff no live row matches; otherwise it returns the live match with the smallest primary key |
| UserRepository.WellFormed | internal/models/user.go:11-13 | The table invariant: ids are positive, strictly increasing and below the next id, and no two rows, live or soft-deleted, share an email or a username; Create, Update, Delete and UpdateLastLogin keep it (CreatePreservesWellFormed, UpdatePreservesWellFormed, and `UserTable.Valid`, which every method of the table preserves) |
| UserRepository.CreateStep | internal/repository/user_repository.go:26-31 | No contract of its own; CreateThenGet states its effect: the driver fault, else the unique violation, else one appended row with the next id and both stamps |
| UserRepository.GetResult | internal/repository/user_repository.go:34-67 | No contract of its own; it answers the driver error or FirstLive, whose contract is stated above, and LookupIsUnique pins the row down |
| UserRepository.ExistsResult | internal/repository/user_repository.go:109-124 | No contract of its own; ExistsAgreesWithGet states that it is true iff the matching lookup finds a row |
| UserRepository.UpdateStep | internal/repository/user_repository.go:70-72 | No contract of its own; UpdateThenGet and UpdatePreservesWellFormed state its effect |
| UserRepository.DeleteStep | internal/repository/user_repository.go:75-77 | No contract of its own; SoftDeleteHides states its effect |
| UserRepository.UpdateLastLoginStep | internal/repository/user_repository.go:127-130 | No contract of its own; UpdateLastLoginOnlyStamps states its effect |
| UserRepository.ListResult | internal/repository/user_repository.go:80-97 | No contract of its own; ListWindow and ListIsSlice state which rows it returns |
| UserRepository.CountResult | internal/repository/user_repository.go:100-106 | No contract of its own; CountIsLiveRows and CountIsLivePositions state its value |
| UserRepository.IndexClash | internal/models/user.go:12-13 | No unique-index clash iff no other row, live or soft-deleted, has the email or the username |
| UserRepository.LiveRows | internal/repository/user_repository.go:100-106 | The rows not soft-deleted, in stored order: a row appears iff it is stored and live, and there are no more of them than rows |
| UserRepository.LiveRowsKeepsMultiplicity | internal/repository/user_repository.go:100-106 | The filter keeps each live row exactly as often as it is stored and drops every soft-deleted row |
| UserRepository.LiveRowsCountsIndices | internal/repository/user_repository.go:100-106 | As many rows survive the filter as there are stored positions holding a live row |
| UserRepository.InsertDesc | internal/repository/user_repository.go:83 | Insertion into a list sorted by created_at descending keeps it sorted and adds exactly that row |
| UserRepository.SortDesc | internal/repository/user_repository.go:83 | `ORDER BY created_at DESC`: the result is sorted newest first and is a permutation of its input |
| UserRepository.NewestFirst | internal/repository/user_repository.go:82-83 | The live rows, newest first: sorted by created_at descending and a permutation of the live rows |
| UserRepository.NewestFirstKeepsMultiplicity | internal/repository/user_repository.go:82-83 | The listing holds each live row exactly as often as it is stored, and nothing else |
| UserRepository.UserTable.constructor | internal/repository/user_repository.go:19-23 | An empty, well-formed table whose first id is 1 |
| UserRepository.UserTable.Create | internal/repository/user_repository.go:26-31 | Keeps the table well-formed; answers and leaves the table as `CreateStep`: a driver fault, or a unique-index violation on email, then username, or the row appended with the next id, is_active true and both times now |
| UserRepository.UserTable.GetByID | internal/repository/user_repository.go:34-43 | Answers `GetResult`: the driver error, or the first live row with that id, or none without an error |
| UserRepository.UserTable.GetByEmail | internal/repository/user_repository.go:46-55 | The same, by email |
| UserRepository.UserTable.GetByUsername | internal/repository/user_repository.go:58-67 | The same, by username |
| UserRepository.UserTable.Update | internal/repository/user_repository.go:70-72 | Keeps the table well-formed; `Save` overwrites the live row with the record's id and stamps updated_at, unless a unique index of another row forbids it |
| UserRepository.UserTable.Delete | internal/repository/user_repository.go:75-77 | Keeps the table well-formed; stamps deleted_at on the live row with that id and removes nothing |
| UserRepository.UserTable.List | internal/repository/user_repository.go:80-97 | Builds the query clause by clause: LIMIT only when limit > 0 and OFFSET only when offset > 0, over the live rows newest first |
| UserRepository.UserTable.Count | internal/repository/user_repository.go:100-106 | The driver error, or the number of live rows |
| UserRepository.UserTable.ExistsByEmail | internal/repository/user_repository.go:109-115 | The driver error, or whether some live row has that email |
| UserRepository.UserTable.ExistsByUsername | internal/repository/user_repository.go:118-124 | The driver error, or whether some live row has that username |
| UserRepository.UserTable.UpdateLastLogin | internal/repository/user_repository.go:127-130 | Keeps the table well-formed; sets last_login and updated_at of the live row with that id to now |
| UserRepository.CreatePreservesWellFormed | internal/repository/user_repository.go:26-31 | Create keeps ids increasing and the unique indexes intact |
| UserRepository.UpdatePreservesWellFormed | internal/repository/user_repository.go:70-72 | Save keeps ids increasing and the unique indexes intact |
| UserRepository.LookupIsUnique | internal/repository/user_repository.go:34-67 | On a well-formed table, a lookup by id, email or username returns u iff u is the stored live row with that key |
| UserRepository.FirstLiveAppend | internal/repository/user_repository.go:26-43 | When no row matches a key, appending a row makes the lookup return that row iff it is live and matches |
| UserRepository.CreateThenGet | internal/repository/user_repository.go:26-43 | A successful Create assigns the next id (nonzero) and both timestamps, and GetByID then returns exactly the returned record; a failed Create changes nothing |
| UserRepository.SoftDeleteHides | internal/repository/user_repository.go:75-77 | After Delete, GetByID for that id returns none without error; the row is still stored with only deleted_at changed, and no other row changes |
| UserRepository.DeletedEmailStaysTaken | internal/repository/user_repository.go:109-115 | A soft-deleted row's email reads as free to ExistsByEmail, yet Create with that email fails with the unique-index error and changes nothing |
| UserRepository.ExistsAgreesWithGet | internal/repository/user_repository.go:109-124 | An existence check is true iff the matching lookup finds a row |
| UserRepository.CountIsLiveRows | internal/repository/user_repository.go:100-106 | Count is the number of live rows, which is the length of an unpaginated List |
| UserRepository.CountIsLivePositions | internal/repository/user_repository.go:100-106 | Count is the number of stored positions that hold a row not soft-deleted |
| UserRepository.SliceSorted | internal/repository/user_repository.go:83 | A run of consecutive rows of a newest-first listing is itself newest first |
| UserRepository.WindowBounds | internal/repository/user_repository.go:84-90 | The window that the offset and limit select lies within the listing |
| UserRepository.ListWindow | internal/repository/user_repository.go:80-97 | List returns the consecutive run of the newest-first live rows that starts after `offset` rows (when offset > 0) and holds at most `limit` (when limit > 0); the run is sorted and every row in it is stored and live |
| UserRepository.ListIsSlice | internal/repository/user_repository.go:80-97 | List is the window of the newest-first live rows |
| UserRepository.PagedIsSlice | internal/repository/user_repository.go:84-90 | Applying OFFSET, then LIMIT, gives exactly that window |
| UserRepository.UpdateLastLoginOnlyStamps | internal/repository/user_repository.go:127-130 | UpdateLastLogin changes only last_login and updated_at, and only on the row with that id; the row stays findable and then shows last_login = now |
| UserRepository.UpdateThenGet | internal/repository/user_repository.go:70-72 | Save of an existing row fails iff a unique index forbids it, and then changes nothing; otherwise a later read returns the saved record with updated_at = now |
| UserService.Service.constructor | internal/services/user_service.go:25-32 | The service holds the given table, token service and hasher |
| UserService.CreateOutcome | internal/services/user_service.go:35-82 | No contract of its own; Service.Create is proved equal to it, and CreateEmailTakenStops, CreateUsernameTakenStops, CreateSuccessStoresHash and CreateKeepsAccountsUnique state its cases |
| UserService.GetOutcome | internal/services/user_service.go:85-110 | No contract of its own; Service.GetByID and Service.GetByEmail are proved equal to it, and DeleteThenNotFound uses its "user not found" case |
| UserService.UpdateOutcome | internal/services/user_service.go:113-169 | No contract of its own; Service.Update is proved equal to it, and UpdateMissingUser, UpdateChecksOnlyChanges, UpdateEmailTaken and UpdateOverwritesPresentFields state its cases |
| UserService.DeleteOutcome | internal/services/user_service.go:172-191 | No contract of its own; Service.Delete is proved equal to it, and DeleteMissingUser and DeleteThenNotFound state its cases |
| UserService.ListOutcome | internal/services/user_service.go:194-219 | No contract of its own; Service.List is proved equal to it, and ListPage states the page it answers |
| UserService.LoginOutcome | internal/services/user_service.go:222-258 | No contract of its own; Service.Login is proved equal to it, and the four Login lemmas state its cases |
| UserService.Service.Create | internal/services/user_service.go:35-82 | Keeps the table well-formed; answers and leaves the table as `CreateOutcome`: email check, then username check, then hash, then insert, each failure with its own message |
| UserService.Service.GetByID | internal/services/user_service.go:85-96 | A failed read is "failed to get user: …"; a missing user is "user not found"; otherwise the user's projection |
| UserService.Service.GetByEmail | internal/services/user_service.go:99-110 | The same, by email |
| UserService.Service.Update | internal/services/user_service.go:113-169 | Keeps the table well-formed; fetches, checks a changed email, then a changed username, overwrites the present fields and saves, as `UpdateOutcome` |
| UserService.Service.ChangeEmail | internal/services/user_service.go:125-135 | A present email different from the current one is applied only when no live user has it; an absent or unchanged one is not checked |
| UserService.Service.ChangeUsername | internal/services/user_service.go:137-147 | The same, for the username |
| UserService.Service.Delete | internal/services/user_service.go:172-191 | Keeps the table well-formed; deletes only a user that the lookup finds, as `DeleteOutcome` |
| UserService.Service.List | internal/services/user_service.go:194-219 | Lists from offset (page − 1)·limit, counts, and converts the page one user at a time into an array, as `ListOutcome` |
| UserService.Service.Login | internal/services/user_service.go:222-258 | Keeps the table well-formed; answers and leaves the table as `LoginOutcome` |
| UserService.Responses | internal/services/user_service.go:213-216 | One response per user, in the same order |
| UserService.Logout | internal/services/user_service.go:261-269 | Logout never fails |
| UserService.CreateEmailTakenStops | internal/services/user_service.go:37-44 | A taken email fails with "user with this email already exists" and leaves the table as it was; the outcome is the same when the username check would fail or the hasher differs, so neither is reached |
| UserService.CreateUsernameTakenStops | internal/services/user_service.go:47-54 | A free email with a taken username fails with "username is already taken", persists nothing and is independent of the hasher |
| UserService.CreateSuccessStoresHash | internal/services/user_service.go:57-81 | A successful Create appends one live row with is_active true, is_admin false, the hash instead of the password, the request's email, username and names, the next id and created_at = now; the response is that row's projection |
| UserService.CreateKeepsAccountsUnique | internal/services/user_service.go:35-82 | After a successful Create on a well-formed table, no earlier row has the new email or username |
| UserService.UpdateMissingUser | internal/services/user_service.go:120-123 | Update of an id with no live row fails with "user not found" and changes nothing |
| UserService.UpdateChecksOnlyChanges | internal/services/user_service.go:125-135 | An absent or unchanged email is not checked: the outcome is the same when the email check would fail |
| UserService.UpdateEmailTaken | internal/services/user_service.go:125-135 | A changed email that a live user holds fails with "email is already taken" and changes nothing |
| UserService.WithEmailApplies | internal/services/user_service.go:125-135 | A successful email step yields the fetched record with the requested email, or unchanged when none is given |
| UserService.WithUsernameApplies | internal/services/user_service.go:137-147 | A successful username step yields the record with the requested username, or unchanged when none is given |
| UserService.UpdateOverwritesPresentFields | internal/services/user_service.go:149-169 | A successful Update stores the fetched record with exactly the present fields overwritten; id, password, is_admin and every absent field are kept and updated_at is now; a later read and the answer both show that record |
| UserService.DeleteMissingUser | internal/services/user_service.go:174-184 | Delete of an id with no live row fails with "user not found"; the outcome is the same when the store's delete would fail, so it is not called |
| UserService.DeleteThenNotFound | internal/services/user_service.go:172-191 | After a successful Delete, GetByID of that id answers "user not found" |
| UserService.ListPage | internal/services/user_service.go:196-218 | List from a non-negative offset answers the window of the newest-first live users, one response per user in that order, and the number of live users as total |
| UserService.OffsetNonNegative | internal/services/user_service.go:196 | For page ≥ 1 and limit > 0, (page − 1)·limit ≥ 0 |
| UserService.LoginHidesWhichCredentialFailed | internal/services/user_service.go:229-243 | A missing user and an active user with a wrong password both get "invalid credentials" and leave the table as it was |
| UserService.LoginChecksActiveFirst | internal/services/user_service.go:234-237 | A deactivated account gets "account is deactivated" whatever the hasher says, so the password is never compared |
| UserService.LoginSuccessIgnoresStampFailure | internal/services/user_service.go:245-257 | A successful login answers the codec's token for the user's id, email and admin flag, and the user as read; a failing last-login stamp does not change the answer |
| UserService.LoginTokenErrorWrappedTwice | internal/services/user_service.go:245-249 | A token failure at login carries the "failed to generate token: " prefix twice |
| UserService.OffsetWrapServesFirstPage | internal/services/user_service.go:196 | With 64-bit wrap-around, page 2^62 + 1 and limit 4 give offset 0, so the first page is served where the intended page is empty |
| UserService.ListOutcomeAsWritten | internal/services/user_service.go:196 | No contract of its own; the List of the source with `(page − 1) * limit` wrapping as Go's 64-bit int, which OffsetWrapServesFirstPage exhibits |
| AuthService.ValidateToken | internal/services/auth_service.go:42-67 | An accepted token yields an active live stored user whose id is the claims' id |
| AuthService.GenerateToken | internal/services/auth_service.go:30-39 | No contract of its own; WrappersUseConfig states that it passes the configured secret and expiry and fails, with its prefix, exactly when the codec does |
| AuthService.RefreshToken | internal/services/auth_service.go:70-79 | No contract of its own; WrappersUseConfig states the same for refreshing |
| AuthService.WrappersUseConfig | internal/services/auth_service.go:30-39 | GenerateToken and RefreshToken pass the configured secret and expiry to the codec and fail exactly when it fails, with their prefix |
| AuthService.BadTokenNeverReadsStore | internal/services/auth_service.go:43-47 | A token the codec refuses gives "invalid token: …"; the table's contents and faults make no difference |
| AuthService.ValidateTokenOutcomes | internal/services/auth_service.go:50-64 | A lookup failure is "failed to validate user: …"; no live row is "user not found"; an inactive row is "user account is deactivated" |
| AuthService.ValidateTokenAcceptsExactly | internal/services/auth_service.go:42-67 | On a well-formed table, ValidateToken returns u iff the token is accepted and u is the live, active stored row with the claims' id |
| AuthService.GateAdmitsDeactivatedAccount | pkg/middleware/auth.go:52-65 | For a token of a deactivated account, JWTAuth forwards the request, yet ValidateToken refuses it: the gate does not consult the table |
| AuthMiddleware.TrimPrefix | pkg/middleware/auth.go:44 | Removes exactly one leading "Bearer " when present, otherwise nothing |
| AuthMiddleware.JWTAuth | pkg/middleware/auth.go:25-65 | Every rejection is a 401 error envelope |
| AuthMiddleware.WithIdentity | pkg/middleware/auth.go:58-61 | No contract of its own; JWTAuthForwardsClaims states that the three getters then return the claims' id, email and admin flag |
| AuthMiddleware.OptionalAuth | pkg/middleware/auth.go:92-133 | No contract of its own; OptionalAuthIsLenientJWTAuth states that it never rejects and forwards what JWTAuth would, else the untouched context |
| AuthMiddleware.RequireAdmin | pkg/middleware/auth.go:71-86 | A forwarded request carries its context unchanged |
| AuthMiddleware.JWTAuthRejections | pkg/middleware/auth.go:29-57 | Empty header, wrong scheme, empty token and refused token each get 401 with their own message, in that order |
| AuthMiddleware.JWTAuthForwardsClaims | pkg/middleware/auth.go:44-65 | JWTAuth forwards iff the header is "Bearer " followed by a non-empty token the codec accepts; the getters then return exactly the claims |
| AuthMiddleware.BearerIsExact | pkg/middleware/auth.go:37-47 | The scheme is case-sensitive, and only one "Bearer " is stripped: "Bearer  t" hands " t" to the codec |
| AuthMiddleware.OptionalAuthIsLenientJWTAuth | pkg/middleware/auth.go:92-133 | OptionalAuth passes on the context JWTAuth would forward, and the untouched context where JWTAuth would reject |
| AuthMiddleware.RequireAdminAfterJWTAuth | pkg/middleware/auth.go:71-86 | After JWTAuth, RequireAdmin forwards iff the token's claims say admin |
| AuthMiddleware.RequireAdminRefusals | pkg/middleware/auth.go:75-86 | 403 "Admin access required" iff is_admin is not present as boolean true |
| AuthMiddleware.GettersRejectAbsentAndMistyped | pkg/middleware/auth.go:139-154 | An absent key or a value of the wrong type reads as the zero value with ok = false |
| AuthMiddleware.GetUserIDFromContext | pkg/middleware/auth.go:139-143 | No contract of its own; GettersRejectAbsentAndMistyped and JWTAuthForwardsClaims state that it yields the stored uint and true, else 0 and false |
| AuthMiddleware.GetUserEmailFromContext | pkg/middleware/auth.go:145-149 | No contract of its own; JWTAuthForwardsClaims states that it yields the token's email after JWTAuth |
| AuthMiddleware.GetIsAdminFromContext | pkg/middleware/auth.go:151-155 | No contract of its own; GettersRejectAbsentAndMistyped, RequireAdminRefusals and JWTAuthForwardsClaims state that it yields the stored bool and true, else false and false |
| UserHandlers.ParseUint32 | internal/handlers/user_handler.go:63-68 | `strconv.ParseUint(s, 10, 32)` succeeds iff s is non-empty decimal digits with a value of at most 2^32 − 1, and then yields that value |
| UserHandlers.FormatUint | internal/handlers/user_handler.go:63-68 | The decimal representation is non-empty and all digits |
| UserHandlers.DecimalOfFormat | internal/handlers/user_handler.go:63-68 | The digits of n read back as n |
| UserHandlers.ParseFormatRoundTrip | internal/handlers/user_handler.go:63-68 | Every 32-bit id, written in decimal, parses back to itself |
| UserHandlers.ParseUint32Examples | internal/handlers/user_handler.go:63-68 | "", "-1" and "abc" are refused and "42" is 42 |
| UserHandlers.ParseUint32RejectsTwoToThe32 | internal/handlers/user_handler.go:63-68 | "4294967296" (2^32) is out of the 32-bit range and refused |
| UserHandlers.Atoi | internal/handlers/user_handler.go:159-169 | `strconv.Atoi`: after an optional "+" or "-", succeeds iff the rest is one or more decimal digits whose signed value lies within int64, and then yields exactly that value; any other first character fails |
| UserHandlers.AtoiOfFormat | internal/handlers/user_handler.go:159-169 | n written in decimal, bare or after "+", reads back as n iff n < 2^63; after "-" it reads back as −n iff n ≤ 2^63 |
| UserHandlers.AtoiExamples | internal/handlers/user_handler.go:159-169 | "-5" is −5 and "+7" is 7; "", "-" and "x1" fail |
| UserHandlers.AtoiInt64Edges | internal/handlers/user_handler.go:159-169 | "9223372036854775808" (2^63) fails, and with a minus sign it is −2^63 |
| UserHandlers.PageParam | internal/handlers/user_handler.go:156-161 | page is the parsed value when it is an integer above 0, and 1 otherwise; so page ≥ 1 |
| UserHandlers.LimitParam | internal/handlers/user_handler.go:163-169 | limit is the parsed value when it lies in 1..100, and 10 otherwise; so 1 ≤ limit ≤ 100 |
| UserHandlers.MayActOn | internal/handlers/user_handler.go:90-103 | No contract of its own; OwnerOrAdminOnly and AnonymousCallerReadsAsUserZero state who passes the owner-or-admin check |
| UserHandlers.CreateHandler | internal/handlers/user_handler.go:35-59 | No contract of its own; CreateStatusMapping and CreatedRequestsMeetTags state its responses |
| UserHandlers.GetByIDHandler | internal/handlers/user_handler.go:62-78 | No contract of its own; BadIdRejectedBeforeService and GetByIDStatusMapping state its responses |
| UserHandlers.UpdateHandler | internal/handlers/user_handler.go:81-121 | No contract of its own; BadIdRejectedBeforeService, OwnerOrAdminOnly and MutationStatusMapping state its responses |
| UserHandlers.DeleteHandler | internal/handlers/user_handler.go:124-148 | No contract of its own; BadIdRejectedBeforeService, OwnerOrAdminOnly and MutationStatusMapping state its responses |
| UserHandlers.ListHandler | internal/handlers/user_handler.go:151-179 | No contract of its own; ListOverService states its responses over the service |
| UserHandlers.LoginHandler | internal/handlers/user_handler.go:182-212 | No contract of its own; LoginStatusMapping states its responses |
| UserHandlers.LogoutHandler | internal/handlers/user_handler.go:215-229 | No contract of its own; SessionRoutesNeedIdentity and LogoutOverService state its responses |
| UserHandlers.ProfileHandler | internal/handlers/user_handler.go:232-247 | No contract of its own; SessionRoutesNeedIdentity and ProfileStatusMapping state its responses |
| UserHandlers.BadIdRejectedBeforeService | internal/handlers/user_handler.go:63-68 | A bad path id gives 400 "Invalid user ID" from GetByID, Update and Delete, whatever the service would do |
| UserHandlers.OwnerOrAdminOnly | internal/handlers/user_handler.go:90-103 | A caller who is neither the target nor an admin gets 403 from Update and Delete, whatever the body; a caller may act iff its id is the path id, or it is an admin, or it has no id and the path id is 0 |
| UserHandlers.AnonymousCallerReadsAsUserZero | internal/handlers/user_handler.go:133-139 | A caller with no identity may act exactly on path id 0 |
| UserHandlers.MutationStatusMapping | internal/handlers/user_handler.go:105-148 | For an authorised caller, Update and Delete answer 400 with the validator's or the service's error, and 200 with the result on success |
| UserHandlers.CreateStatusMapping | internal/handlers/user_handler.go:35-59 | Create answers 201 with the user iff the body decodes, validates and the service accepts it, and 400 otherwise |
| UserHandlers.CreatedRequestsMeetTags | internal/handlers/user_handler.go:37-50 | With a validator that implements the request tags, a 201 implies the request met them |
| UserHandlers.GetByIDStatusMapping | internal/handlers/user_handler.go:62-78 | A service error answers 404 with its text; success answers 200 with the user |
| UserHandlers.ProfileStatusMapping | internal/handlers/user_handler.go:232-247 | For an identified caller, Profile reads that caller's id: a service error answers 404 with its text, success 200 with the user |
| UserHandlers.LoginStatusMapping | internal/handlers/user_handler.go:182-212 | A body that does not decode or validate answers 400; a service error answers 401 with its text; success answers 200 with {access_token, user} |
| UserHandlers.SessionRoutesNeedIdentity | internal/handlers/user_handler.go:215-237 | Logout and Profile without a user id answer 401 "User not authenticated", whatever the service would do |
| UserHandlers.LogoutOverService | internal/handlers/user_handler.go:215-229 | With an identified caller, Logout over the service always answers 200 "Logout successful" |
| UserHandlers.ListOverService | internal/handlers/user_handler.go:151-179 | A failing read answers 500; otherwise 200, with page ≥ 1, 1 ≤ limit ≤ 100, at most limit users, total the number of live users and total_pages its ceiling |
| UserModel.ToResponseRoundTrip | internal/models/user.go:69-82 | The projection copies the ten public fields: with the password and deletion marker given back, it is inverted exactly |
| UserModel.ToResponse | internal/models/user.go:69-82 | No contract of its own; ToResponseRoundTrip and ToResponseHidesSecrets state that it keeps exactly the public fields |
| UserModel.CreateRequestValid | internal/models/user.go:31-37 | No contract of its own; the tags of UserCreateRequest, which UpdateBoundsMatchCreate, CreateRequestMeetsUtilityChecks and CreateRequestAllowsNonWordUsername relate to the other checks |
| UserModel.UpdateRequestValid | internal/models/user.go:40-46 | No contract of its own; UpdateBoundsMatchCreate states that absent fields pass and present ones meet the create bounds |
| UserModel.LoginRequestValid | internal/models/user.go:49-52 | No contract of its own; LoginRequestNeedsBothFields states what it accepts |
| UserModel.LoginRequestNeedsBothFields | internal/models/user.go:49-52 | An empty email or an empty password is refused; with a password, the email rule alone decides |
| UserModel.ToResponseHidesSecrets | internal/models/user.go:14-22 | Two records look alike outward iff they differ at most in password and deletion marker |
| UserModel.UpdateBoundsMatchCreate | internal/models/user.go:31-46 | An empty update request is valid; one that sends every field is valid iff the matching create request is |
| UserModel.CreateRequestMeetsUtilityChecks | internal/models/user.go:31-37 | A valid create request has a password that IsValidPassword accepts; IsValidUsername then accepts its username iff its characters are all word characters |
| UserModel.CreateRequestAllowsNonWordUsername | internal/models/user.go:33 | The create tags accept the username "a b", which IsValidUsername rejects |
| RoleModel.PermissionToResponseKeepsFields | internal/models/role.go:169-178 | Two permissions project alike iff they agree on the seven copied fields |
| RoleModel.PermissionToResponse | internal/models/role.go:169-178 | No contract of its own; PermissionToResponseKeepsFields states that it keeps exactly the seven copied fields |
| RoleModel.PermissionsToResponses | internal/models/role.go:158-162 | The elementwise projection, same length and order |
| RoleModel.RoleToResponse | internal/models/role.go:147-166 | Copies the six role fields; permissions are omitted iff the list is empty; otherwise they have the same length and order, and element i is the projection of permission i |
| RoleModel.RequestBoundsFitColumns | internal/models/role.go:83-110 | A role or permission built from a valid create request, or changed by a valid role or permission update request, fits the column sizes |
| RoleModel.AssignRequestsNeedTargets | internal/models/role.go:112-122 | An assignment with a zero target, a missing id list or an empty id list is refused; a non-zero target with one or more ids passes |
| RoleModel.RoleCreateRequestValid | internal/models/role.go:83-87 | No contract of its own; RequestBoundsFitColumns relates it to the column sizes |
| RoleModel.RoleUpdateRequestValid | internal/models/role.go:89-94 | No contract of its own; RequestBoundsFitColumns relates it to the column sizes |
| RoleModel.PermissionCreateRequestValid | internal/models/role.go:96-102 | No contract of its own; RequestBoundsFitColumns relates it to the column sizes |
| RoleModel.PermissionUpdateRequestValid | internal/models/role.go:104-110 | No contract of its own; RequestBoundsFitColumns relates it to the column sizes |
| RoleModel.AssignRoleRequestValid | internal/models/role.go:112-116 | No contract of its own; AssignRequestsNeedTargets states what it accepts |
| RoleModel.AssignPermissionRequestValid | internal/models/role.go:118-122 | No contract of its own; AssignRequestsNeedTargets states what it accepts |
| Response.EnvelopeShapes | pkg/utils/response.go:24-41 | A success envelope has success true, the message and data, and no error; an error envelope has success false, the message and error, and no data |
| Response.WriteSuccessResponse | pkg/utils/response.go:24-31 | No contract of its own; EnvelopeShapes states the envelope it builds |
| Response.WriteErrorResponse | pkg/utils/response.go:34-41 | No contract of its own; EnvelopeShapes states the envelope it builds |
| Response.GoDiv | pkg/utils/response.go:54 | On non-negative operands, Go's truncating division agrees with floor division |
| Response.TotalPages | pkg/utils/response.go:54 | No contract of its own; TotalPagesIsCeiling and TotalPagesExamples state its value |
| Response.WritePaginatedResponse | pkg/utils/response.go:53-71 | No contract of its own; PaginatedShape states the envelope it builds |
| Response.TotalPagesIsCeiling | pkg/utils/response.go:54 | For limit > 0, total_pages is 0 iff total is 0, and otherwise (n − 1)·limit < total ≤ n·limit |
| Response.TotalPagesExamples | pkg/utils/response.go:54 | 25 rows at 10 a page are 3 pages; 0 rows are 0 pages |
| Response.PaginatedShape | pkg/utils/response.go:53-71 | The paginated envelope is a success and echoes data, total, page and limit, with total_pages beside them |
| Validation.IsValidEmailCorrect | pkg/utils/validation.go:9-12 | The decision accepts s iff s = L "@" D "." T, with L over [A-Za-z0-9._%+-], D over [A-Za-z0-9.-], both non-empty, and T at least two ASCII letters |
| Validation.IsValidEmail | pkg/utils/validation.go:9-12 | No contract of its own; IsValidEmailCorrect proves it decides the language of the pattern |
| Validation.IsValidEmailSound | pkg/utils/validation.go:9-12 | Every address the decision accepts splits as L "@" D "." T with the character classes of the pattern |
| Validation.IsValidEmailComplete | pkg/utils/validation.go:9-12 | Every split L "@" D "." T with the pattern's character classes is accepted |
| Validation.IsValidPassword | pkg/utils/validation.go:15-21 | Accepts iff the length is at least 6 |
| Validation.IsValidUsername | pkg/utils/validation.go:24-32 | Accepts iff the length is 3..50 and every character is in [A-Za-z0-9_] |
| Validation.SanitizeStringNormalises | pkg/utils/validation.go:35-37 | The result has no leading or trailing white space and no upper-case ASCII letter |
| Validation.TrimSpaceTrimmed | pkg/utils/validation.go:35-37 | `strings.TrimSpace` leaves no white space at either end |
| Validation.ToLowerFacts | pkg/utils/validation.go:35-37 | `strings.ToLower` keeps the white space at the ends, leaves no upper-case ASCII letter and is idempotent |
| Validation.SanitizeStringIdempotent | pkg/utils/validation.go:35-37 | Sanitising the result again changes nothing |
| Validation.TrimSpace | pkg/utils/validation.go:35-37 | No contract of its own; TrimSpaceTrimmed states that no white space is left at either end |
| Validation.ToLower | pkg/utils/validation.go:35-37 | No contract of its own; ToLowerFacts states its properties |
| Validation.SanitizeString | pkg/utils/validation.go:35-37 | No contract of its own; SanitizeStringNormalises and SanitizeStringIdempotent state its properties |
| Validation.TruncateString | pkg/utils/validation.go:40-45 | The result is the prefix of s of length min(len(s), n) |
| Logging.StatusRecorder.constructor | pkg/middleware/logging.go:30-33 | The wrapped writer starts with status 200 |
| Logging.StatusRecorder.WriteHeader | pkg/middleware/logging.go:18-21 | Records the code it is given and forwards it to the wrapped writer |
| Logging.LogLevel | pkg/middleware/logging.go:62-68 | error iff status ≥ 500, warn iff 400 ≤ status < 500, info iff status < 400 |
| Logging.LogLevelMonotone | pkg/middleware/logging.go:62-68 | A higher status never logs at a lower level |
| Logging.ClientIP | pkg/middleware/logging.go:74-100 | The X-Forwarded-For text before its first comma when that comma is not at position 0; the whole header when that comma is at 0 or there is none; else X-Real-IP when set; else the remote address |

## Left out

- bcrypt is the abstract `Hasher`. Login depends only on whether the compare succeeds.
- The internals of the JWT functions are not modelled: signing, parsing, the registered claims and expiry. Their source is not part of this model, so they are the abstract `Codec`.
- JSON decoding and the request validator library are abstract inputs. The library's `email` rule is not defined here.
- Writing the JSON bytes, logging, request ids and durations are left out. These are I/O.
- Context cancellation and concurrency are left out. So is the race between the existence checks and the insert in Create: the model runs calls one at a time, and the unique index refuses the late duplicate.
- The admin route that reuses Create is left out, because router wiring is out of scope. Create always stores is_admin false, and only the seed command, which is not modelled, makes an administrator.
- `AdminUpdate` is declared in the service interface but implemented nowhere, so it is not modelled.
- UserRepository.UserTable.Update: GORM's `Save` inserts a new row when the record's id matches no live row. The model writes nothing in that case. The service calls Update only on a record it has just read.
- UserRepository.UserTable.Create: the id is always the counter's next value, whatever id the caller set. The new record is returned rather than written back into the caller's struct.
- UserRepository.UserTable.Create stores is_active true even when the caller set false. This follows GORM's rule that a zero-valued field with a `default` tag takes the column default.
- UserRepository.SortDesc: the order among rows with equal created_at is left to the database. The model fixes one order, insertion sort over primary-key order.
- UserRepository.UserTable.Create always stamps created_at and updated_at with the current time. GORM keeps a non-zero created_at that the caller set. The service never sets one, so nothing observable differs.
- AuthMiddleware: context keys are plain strings here. Go's keys have the distinct type `ContextKey`, so in Go a lookup with the untyped string "user_id" finds nothing. The model does not tell the two apart; every lookup in the modelled code uses the typed constants.
- UserRepository.UserTable.UpdateLastLogin also stamps updated_at. GORM's `Update` does this for the auto-update column, so "no other field changes" holds except for updated_at.
- UserRepository.UniqueViolation: the error text for a unique-index violation depends on the database driver. The model uses SQLite's wording.
- The unique indexes are modelled even though they live in the database. They are part of the `users` schema tags, and they decide what Create and Update do with a duplicate.
- Validation.SanitizeString lowercases ASCII letters only. Go's `strings.ToLower` also lowercases other scripts, so the properties are stated for ASCII letters.
- Strings are sequences of characters, and Go's `len` counts UTF-8 bytes. The length bounds agree on ASCII text only.
- Response.TotalPagesIsCeiling: the int64 addition in total + limit − 1 is not wrapped. Total is a row count, far below 2^63.
- Response.TotalPages with limit 0 is a division by zero in Go. The model requires limit ≠ 0, and the handler always passes 1..100.
- Validation.TruncateString with a negative length panics in Go. The model requires length ≥ 0.
- Only the user handlers are modelled. The role and permission tables and their services are not part of this model; only their projections and request bounds in `role.go` are.

## Findings

| source | as written | input that shows it | evidently intended | confidence | as-written member | corrected member |
|---|---|---|---|---|---|---|
| internal/services/user_service.go:196 | `offset := (page - 1) * limit` is computed in Go's 64-bit `int` and wraps around; the handler accepts any page up to 2^63 − 1 | page = 2^62 + 1 (4611686018427387905), limit = 4: the offset wraps to 0, so the first page of users is served | the offset (page − 1)·limit without wrap-around, which for that page lies past every row, so the page is empty | not executed | UserService.ListOutcomeAsWritten, with UserService.OffsetWrapServesFirstPage | UserService.ListOutcome, with UserService.ListPage |
