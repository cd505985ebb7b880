# milky-ums user management service: a Dafny model

milky-ums is a user management service (UMS) with two implementations in one repository.

- **The Rust service** (actix-web, SeaORM, Redis) has three layers:
  - domain services: session expiry and tokens, user records and field validation;
  - interactors: login, session introspection, session deletion, service and permission sync, control-account bootstrap, user creation, update, password reset, confirmation and the own access log;
  - adapters: the role and user tables, the Redis email-confirmation record, the identity header, the id-list query parameter and the error-to-HTTP mapping.
- **The Python service** (FastAPI, Redis) has these parts:
  - the confirmation-code utility;
  - the Redis session manager;
  - the permission and state filters that guard the application services;
  - the permission `|` operator;
  - the JWT middleware that decides who is authenticated;
  - the authentication application service and the user application service;
  - the `init_roles` start-up step;
  - the legacy role model, the authenticated and guest user models, and the regex validators.

The project has one Dafny module per source file, plus a few shared modules:

- `Common` holds ids, `Option`, the Rust error kinds and the user record.
- `Decimal` converts between integers and decimal text.
- `Text` splits and joins text and counts UTF-8 bytes.
- `Assoc` is an insertion-ordered dictionary.
- `Batch` is the all-or-nothing id lookup.
- `RedisModel` models Redis strings, hashes and expiry.
- `PyCommon` holds Python results, exceptions and `UserState`.
- `PyUsers` holds the user rows and the request's current user.

How each kind of source is modelled:

- **Pure code** becomes functions with contracts, plus lemmas that relate them.
- **Interactors and stateful adapters** become a class that holds the tables its gateways stand for. Where order matters, the class also keeps a log of the writes made.
  - Each method is proved equal to a specification function of the old state.
  - The properties are then lemmas about that function.
- **Python service classes** are modelled the same way.
  - A `World` value is a snapshot of the objects the service touches.
  - Every method ensures `(result, Snapshot()) == XSpec(old(Snapshot()), ...)`.
- **Parameters** stand for clocks, random numbers, UUIDs, password hashes, JWT decoding, token minting and the `ensure_can_*` access decisions.

## Model

| member | source | states |
|---|---|---|
| SessionService.ExpiryBoundary | src/domain/services/session.rs:18-21 | an age equal to the limit is not expired; one second more is |
| SessionService.ExpiryMonotone | src/domain/services/session.rs:18-21 | once a session is expired it stays expired at every later time |
| SessionService.HexString | src/domain/services/session.rs:23-25 | the hex rendering has two lowercase hex digits per byte |
| SessionService.HexDecodeString | src/domain/services/session.rs:23-25 | decoding the hex rendering gives back the bytes |
| SessionService.HexStringInjective | src/domain/services/session.rs:23-25 | different byte strings give different tokens |
| SessionService.CreateSessionToken | src/domain/services/session.rs:23-25 | 64 random bytes give 128 lowercase hex characters, which decode back to the bytes |
| SessionService.CreateSession | src/domain/services/session.rs:27-43 | hash, user, ip and user agent are stored as given; created at now; never updated |
| SessionService.UpdateSession | src/domain/services/session.rs:53-65 | only ip, user agent and updated_at change; id, hash, user and created_at are kept |
| SessionService.FreshSessionValid | src/domain/services/session.rs:18-65 | a session just created or renewed is not expired and verifies with its own user agent |
| SessionService.VerifyIgnoresIp | src/domain/services/session.rs:45-51 | for every presented agent, changing or renewing the ip changes no verdict: only the user agent is compared |
| ExtractPayload.TokenCheckedFirst | src/application/session/extract_payload.rs:40-54 | a missing token gives Unauthorized and an invalid one InvalidData, whatever the cache and store hold, with no writes |
| ExtractPayload.CacheHitIgnoresStore | src/application/session/extract_payload.rs:58-70 | on a cache hit the store is never consulted |
| ExtractPayload.UnknownToken | src/application/session/extract_payload.rs:71-73 | "token not found" with no writes exactly when neither the cache nor the store knows the hash |
| ExtractPayload.MismatchWritesNothing | src/application/session/extract_payload.rs:81-89 | a fingerprint mismatch is Unauthorized with no writes, even when a renewal was due |
| ExtractPayload.SuccessShape | src/application/session/extract_payload.rs:56-109 | the result comes from the session and the bundle; writes happen iff the session came from the store or expired, and then the store is written before the cache, holding the renewed session |
| ExtractPayload.RenewalKeepsUserAgent | src/application/session/extract_payload.rs:81-96 | a renewal keeps the session's user agent, id and hash |
| ExtractPayload.Execute | src/application/session/extract_payload.rs:39-110 | the result, the writes, the store and the cache are those of the introspection specification |
| Login.CredentialErrors | src/application/session/create.rs:71-88 | the map has a "username" and a "password" key exactly when that validator fails, holding its message |
| Login.AccessCheckedFirst | src/application/session/create.rs:56-69 | a refused access check writes nothing; AccessDenied gives Forbidden and AuthorizationRequired a panic |
| Login.InvalidCredentials | src/application/session/create.rs:71-88 | InvalidData(Map) happens exactly when validation fails; it is decided before any lookup |
| Login.UnknownUserNoLog | src/application/session/create.rs:90-97 | an unknown username gives InvalidData with no access log |
| Login.OneLogPerAttempt | src/application/session/create.rs:99-132 | a known user gets exactly one access log, last; success iff the password verifies and the user is not Inactive |
| Login.SuccessShape | src/application/session/create.rs:135-162 | on success: the token is the 128-character hex of the random bytes, and the session (with its hash) is saved before a successful log |
| Login.Execute | src/application/session/create.rs:51-163 | the result and the writes are those of the login specification |
| DeleteSession.RefusalRemovesNothing | src/application/session/delete.rs:25-45 | AccessDenied maps to Forbidden and AuthorizationRequired to Unauthorized; nothing is removed |
| DeleteSession.GrantedDelete | src/application/session/delete.rs:47-58 | succeeds iff the id is stored; exactly that session is removed and no other is touched |
| DeleteSession.Execute | src/application/session/delete.rs:23-59 | the outcome and the session map are those of the specification; one removal is logged on success |
| ServiceSync.FindService | src/application/service/sync.rs:23-26 | the first service with the text id, or None iff none has it |
| ServiceSync.Resolve | src/application/service/sync.rs:23-36 | an existing service is used; otherwise a new one is created with text id and title set and no description |
| ServiceSync.ToAdd | src/application/service/sync.rs:43-46 | a declared name is kept as often as it is declared when it is not registered, and never otherwise |
| ServiceSync.NewPermissions | src/application/service/sync.rs:47-53 | each permission has the name as text id and title, the resolved service and no description |
| ServiceSync.OnlyNewInserted | src/application/service/sync.rs:37-56 | stored permissions stay in place; every added one is a declared, unregistered name of the service |
| ServiceSync.ServiceCreatedOnce | src/application/service/sync.rs:23-36 | a missing service is appended; an existing one leaves the service table unchanged |
| ServiceSync.NothingWhenCovered | src/application/service/sync.rs:43-46 | nothing is added when every declared name is registered |
| ServiceSync.DeclaredCovered | src/application/service/sync.rs:37-56 | after a run every declared name is registered under the service |
| ServiceSync.Idempotent | src/application/service/sync.rs:37-56 | a second run with the same list changes nothing |
| ServiceSync.Execute | src/application/service/sync.rs:22-58 | the tables afterwards are those of the sync specification, and the result is Ok |
| Initial.Listed | src/application/initial.rs:43-47 | the gateway's list is the service's permissions, or None when it has none |
| Initial.OrEmpty | src/application/initial.rs:43-47 | a missing permission list counts as empty |
| Initial.CatalogueSync | src/application/initial.rs:19-61 | registering the catalogue is the service sync run on the catalogue names |
| Initial.ServicePermissions | src/application/initial.rs:19-61 | the tables afterwards are those of the catalogue sync |
| Initial.Digit | src/application/initial.rs:142-144 | a drawn digit is in 0-8 |
| Initial.Capital | src/application/initial.rs:146-148 | a drawn capital is in A-Y |
| Initial.Alnum | src/application/initial.rs:150-154 | a drawn character is an ASCII letter or digit |
| Initial.Unshuffled | src/application/initial.rs:142-159 | 12 characters: two digits, two capitals, eight alphanumerics |
| Initial.Shuffle | src/application/initial.rs:160 | the shuffle is a permutation of the characters |
| Initial.Password | src/application/initial.rs:139-163 | the password has 12 characters and is a permutation of the drawn characters |
| Initial.PasswordIsValid | src/application/initial.rs:139-163 | any permutation of such drawn characters passes `validate_password` |
| Initial.ShuffledPasswordIsValid | src/application/initial.rs:139-163 | a permutation of the drawn characters has length 12 and passes `validate_password` |
| Initial.GeneratedPasswordIsValid | src/application/initial.rs:139-163 | the generated password always passes `validate_password` |
| Initial.ShuffleInPlace | src/application/initial.rs:160 | the in-place Fisher-Yates loop gives the shuffle specification |
| Initial.DrawCharacters | src/application/initial.rs:142-159 | the array holds the drawn characters in draw order |
| Initial.GeneratePassword | src/application/initial.rs:139-163 | the result is the password specification |
| Initial.GrantsRepeatDeleteUser | src/application/initial.rs:90-114 | the grant list has 20 entries; "DeleteUser" at positions 4 and 5 is the only repeat; all are catalogue names |
| Initial.MissingServicePanics | src/application/initial.rs:75-80 | the bootstrap panics exactly when the service is missing |
| Initial.SentinelStops | src/application/initial.rs:82-83 | with the init-state sentinel set there are no writes |
| Initial.WriteOrder | src/application/initial.rs:85-182 | six writes in order: permissions, "Control" role, role links, control user (active), role-user link, sentinel |
| Initial.ControlAccount | src/application/initial.rs:64-188 | the outcome and the writes are those of the bootstrap specification; the sentinel is set only on a first run |
| Validator.ValidateUsername | src/domain/services/validator.rs:52-67 | accepted iff 4-32 bytes and every character in [a-zA-Z0-9._]; the length message comes first, then the character message |
| Validator.ValidateEmail | src/domain/services/validator.rs:69-79 | accepted iff at most 255 bytes and an RFC 2822 addr-spec; the length message comes first, then the format message |
| Validator.ValidatePassword | src/domain/services/validator.rs:81-102 | accepted iff 8-32 bytes, has a numeric and an alphabetic character and no whitespace; the messages come in that order: length, digit, letter, whitespace |
| Validator.ValidateFirstName | src/domain/services/validator.rs:116-126 | accepted iff at most 64 bytes and only Latin or basic Cyrillic letters; the length message comes before the letters message |
| Validator.ValidateLastName | src/domain/services/validator.rs:104-114 | accepted iff at most 64 bytes and only Latin or basic Cyrillic letters; the length message comes before the letters message |
| Validator.UsernameCharacters | src/domain/services/validator.rs:52-67 | for usernames, byte length is character length |
| Validator.CyrillicNameLimit | src/domain/services/validator.rs:104-126 | a Cyrillic name hits the limit at 32 letters |
| Validator.NameEdgeCases | src/domain/services/validator.rs:104-126 | the empty name is accepted; ё and Ё are rejected |
| Validator.PasswordCharacters | src/domain/services/validator.rs:81-102 | a valid password has between 2 and 32 characters |
| Validator.DotAtomAccepted | src/domain/services/validator.rs:33-35 | every dot-atom@dot-atom address matches the addr-spec |
| Validator.AddrSpecExamples | src/domain/services/validator.rs:33-35 | "", "@mail" and a local part with two dots in a row are rejected |
| Validator.AddrSpecHasAt | src/domain/services/validator.rs:33-35 | every accepted address contains '@' |
| UserService.CreateUser | src/domain/services/user.rs:10-29 | a new user is Active, never updated, and has the given fields |
| UserService.UpdateUser | src/domain/services/user.rs:31-49 | id, hash and created_at are kept; the given fields are set and updated_at is now |
| UserService.UpdateUserWithHash | src/application/user/confirm.rs:84-92 | the seven-argument call the interactors make: as `update_user`, and the hash becomes the seventh argument |
| UserService.SameHashIsPlainUpdate | src/domain/services/user.rs:31-49 | passing back the stored hash gives the six-argument update |
| UserService.UpdateUserSelf | src/domain/services/user.rs:51-65 | email, state and hash are kept; username and names are set |
| UserService.SelfUpdateIsRestrictedUpdate | src/domain/services/user.rs:31-65 | a self update is a full update with the user's own email and state |
| UserService.UpdateOverwrites | src/domain/services/user.rs:31-49 | two updates in a row equal the last one |
| UserService.UpdateWithOwnFields | src/domain/services/user.rs:31-49 | updating with the user's own fields only touches updated_at |
| CreateUser.FieldErrors | src/application/role/create.rs:43-66 | one key per failing validator; names are checked only when present |
| CreateUser.Conflicts | src/application/role/create.rs:80-96 | "username" and "email" keys exactly when the case-insensitive lookups find a user |
| CreateUser.FieldErrorsEmpty | src/application/role/create.rs:43-66 | no field errors iff every validator passes |
| CreateUser.ValidationFirst | src/application/role/create.rs:68-78 | validation errors are returned before any lookup, with the table unchanged |
| CreateUser.TakenReported | src/application/role/create.rs:80-96 | a taken username or email gives InvalidData with the conflict map; both are reported together |
| CreateUser.SuccessShape | src/application/role/create.rs:99-119 | success iff no errors and a fresh id; an Active user with the hashed password is appended |
| CreateUser.Execute | src/application/role/create.rs:41-120 | the outcome and the table are those of the specification |
| UpdateUser.FieldErrors | src/application/user/update.rs:67-94 | one key per failing validator |
| UpdateUser.SwappedFields | src/application/user/update.rs:127-137 | the saved user as written has username and email swapped |
| UpdateUser.SavedUser | src/application/user/update.rs:127-137 | the corrected saved user has the requested fields and keeps id, hash and created_at |
| UpdateUser.AccessFirst | src/application/user/update.rs:47-65 | a refusal is returned first and changes nothing |
| UpdateUser.ValidationFirst | src/application/user/update.rs:67-96 | validation errors come before any lookup |
| UpdateUser.ConflictIgnored | src/application/user/update.rs:97-114 | another user with the same username does not stop the update |
| UpdateUser.UnknownTarget | src/application/user/update.rs:118-125 | an unknown id gives NotFound and changes nothing |
| UpdateUser.SuccessStoresRequest | src/application/user/update.rs:127-146 | on success the stored user has the requested fields and its old hash |
| UpdateUser.Execute | src/application/user/update.rs:45-147 | the outcome and the table are those of the specification |
| ResetPassword.FieldErrors | src/application/user/reset_password.rs:54-69 | "email" and "new_password" keys exactly when those validators fail |
| ResetPassword.MailContext | src/application/user/reset_password.rs:105-118 | the mail context has the seven keys, with the user's name and email and the ip |
| ResetPassword.WithoutUser | src/application/user/reset_password.rs:103 | the remaining sessions are exactly those of other users |
| ResetPassword.EarlyRefusals | src/application/user/reset_password.rs:42-69 | a refusal or a validation error changes nothing |
| ResetPassword.NoEffectWithoutCode | src/application/user/reset_password.rs:71-87 | an unknown email or a rejected code changes nothing |
| ResetPassword.SuccessShape | src/application/user/reset_password.rs:89-129 | on success only the hash changes, the user's sessions are removed, and save, removal and mail happen in that order |
| ResetPassword.Execute | src/application/user/reset_password.rs:40-130 | the outcome and the world are those of the specification |
| ConfirmUser.RefusalIsForbidden | src/application/user/confirm.rs:33-43 | a refusal is Forbidden and changes nothing |
| ConfirmUser.BadEmailKey | src/application/user/confirm.rs:45-56 | an invalid email is reported under the key "username", before any lookup |
| ConfirmUser.StateGate | src/application/user/confirm.rs:58-76 | only an Inactive user can be confirmed; the code is not consulted otherwise |
| ConfirmUser.SuccessActivates | src/application/user/confirm.rs:78-96 | success iff Inactive and the code is accepted; the user becomes Active with updated_at now |
| ConfirmUser.Execute | src/application/user/confirm.rs:31-97 | the outcome and the table are those of the specification |
| AccessLogSelf.PageErrors | src/application/session/get_access_log_self.rs:65-82 | "page" iff page is 0; "per_page" iff per_page is 0 or above the maximum, with the matching message |
| AccessLogSelf.OfUser | src/application/session/get_access_log_self.rs:84-88 | exactly the records of the user |
| AccessLogSelf.Window | src/application/session/get_access_log_self.rs:84-88 | limit and offset select a contiguous run of the records |
| AccessLogSelf.Items | src/application/session/get_access_log_self.rs:90-99 | one item per record, in order |
| AccessLogSelf.FirstRecordsUnreachable | src/application/session/get_access_log_self.rs:84-88 | with the offset as written, the first per_page records are never on any page |
| AccessLogSelf.FirstPageExample | src/application/session/get_access_log_self.rs:84-88 | page 1 of size 1 shows the second record as written and the first when corrected |
| AccessLogSelf.Offset | src/application/session/get_access_log_self.rs:84-88 | the corrected offset is (page - 1) * per_page |
| AccessLogSelf.EveryRecordOnItsPage | src/application/session/get_access_log_self.rs:84-88 | with the corrected offset every record appears on page i / per_page + 1 |
| AccessLogSelf.RefusalsFirst | src/application/session/get_access_log_self.rs:45-82 | refusals and page errors do not depend on the records |
| AccessLogSelf.OwnRecordsOnly | src/application/session/get_access_log_self.rs:84-99 | a page holds at most per_page items, all from the user's own records |
| AccessLogSelf.Execute | src/application/session/get_access_log_self.rs:43-101 | the outcome is that of the specification |
| RoleDb.FindRole | src/adapters/database/role_db.rs:35-52 | the first role with the id, or None iff none has it |
| RoleDb.GetRoleSpec | src/adapters/database/role_db.rs:35-52 | a fresh cache entry is returned as it is; otherwise the table is read and the cache refreshed or evicted |
| RoleDb.CoherentRead | src/adapters/database/role_db.rs:35-52 | a cache that agrees with the table gives table reads and stays in agreement |
| RoleDb.StaleAfterSave | src/adapters/database/role_db.rs:35-52 | after a rename the cache still returns the old role until it expires |
| RoleDb.RemovedStillCached | src/adapters/database/role_db.rs:35-52 | a removed role is still returned while its cache entry is fresh |
| RoleDb.RoleTable.GetRolesByIds | src/adapters/database/role_db.rs:54-77 | Some iff the ids are distinct and all stored |
| RoleDb.RoleTable.GetRolesByUserWithPerms | src/adapters/database/role_db.rs:87-129 | always the empty list (the query is disabled) |
| RoleDb.RoleTable.GetRoleByTitleNotSensitive | src/adapters/database/role_db.rs:131-143 | a role whose title matches case-insensitively, or None iff there is none |
| RoleDb.DefaultRole | src/adapters/database/role_db.rs:145-152 | None without a default id; a panic iff the default id is not a stored role |
| RoleDb.Upsert | src/adapters/database/role_db.rs:155-172 | an existing row is replaced in place; a new one is appended |
| RoleDb.UpsertFind | src/adapters/database/role_db.rs:155-172 | the saved role is found by its id and the other roles are unchanged |
| RoleDb.RoleTable.SaveRole | src/adapters/database/role_db.rs:155-172 | panics, with the table unchanged, iff another role has the title or a column exceeds its length (the constraints of migration/src/m20240530_130156_create_role.rs); otherwise the table becomes the upsert; the cache is not invalidated |
| RoleDb.RoleTable.SetDefaultRole | src/adapters/database/role_db.rs:174-179 | the default-role cell holds exactly the id |
| RoleDb.DefaultRoleAfterSet | src/adapters/database/role_db.rs:145-179 | after setting it, the default role is the stored role |
| RoleDb.RoleTable.LinkRoleToUser | src/adapters/database/role_db.rs:184-189 | panics, with the links unchanged, iff the pair is already linked, the role is not stored or the user is unknown (the primary key and foreign keys of role_user); otherwise the link is added |
| RoleDb.RoleTable.UnlinkRoleFromUser | src/adapters/database/role_db.rs:191-200 | exactly that link is removed |
| RoleDb.LinkUnlink | src/adapters/database/role_db.rs:184-200 | linking then unlinking a new pair restores the links; other pairs are untouched |
| RoleDb.RoleTable.RemoveRole | src/adapters/database/role_db.rs:205-212 | the rows with the id are removed, and with them, by the cascading foreign key of role_user, exactly the links of that role |
| UserDb.StateMappingRoundTrip | src/adapters/database/user_db.rs:76-81 | the domain and database user states map one-to-one |
| UserDb.RowRoundTrip | src/adapters/database/user_db.rs:120-136 | row-to-domain and domain-to-row mappings are inverse |
| UserDb.UserTable.GetUsersByIds | src/adapters/database/user_db.rs:34-57 | None when the row count differs from the id count; with distinct stored ids, Some iff the ids are distinct and all stored |
| Batch.AllOrNothingSpec | src/adapters/database/user_db.rs:34-57 | the batch lookup succeeds iff the ids are distinct and all present |
| Batch.BuildCondition | src/adapters/database/user_db.rs:35-42 | the OR condition built in the loop admits exactly the listed ids |
| Batch.MatchingSound | src/adapters/database/user_db.rs:35-46 | the filter returns only table rows whose id was asked for |
| UserDb.UserTable.GetList | src/adapters/database/user_db.rs:59-67 | limit and offset select a contiguous run of rows |
| UserDb.UserTable.SaveUser | src/adapters/database/user_db.rs:69-88 | an insert: a new id is appended and an existing id panics |
| UserDb.SaveUpdatedUserPanics | src/adapters/database/user_db.rs:69-88 | saving a changed copy of a stored user hits an existing id |
| UserDb.Upsert | src/adapters/database/user_db.rs:69-88 | the corrected save replaces the row with the id, or appends |
| UserDb.UpsertThenGet | src/adapters/database/user_db.rs:27-32 | after the corrected save, the user is read back by id |
| UserDb.ILikeLiteral | src/adapters/database/user_db.rs:90-116 | without wildcards, ILIKE is case-folded equality |
| UserDb.ILikeWildcards | src/adapters/database/user_db.rs:90-116 | `_` matches one character, `%` anything, and presence of the pattern alone is not enough |
| UserDb.ByUsername | src/adapters/database/user_db.rs:90-102 | a user whose username matches case-insensitively, or None iff there is none |
| UserDb.ByEmail | src/adapters/database/user_db.rs:104-116 | a user whose email matches case-insensitively, or None iff there is none |
| UserDb.ExactUsernameFound | src/adapters/database/user_db.rs:90-102 | a stored username without backslashes is found by itself |
| EmailConfirm.RecordRoundTrip | src/adapters/email_confirm.rs:55-67 | the "code:attempts" record parses back to its numbers |
| EmailConfirm.SendKeepsWellFormed | src/adapters/email_confirm.rs:83-93 | sending succeeds iff no record exists; then a positive lifetime stores the six-digit code with 0 attempts and that lifetime, and a zero lifetime leaves no record (Redis `EXPIRE` with 0 deletes the key) |
| EmailConfirm.ConfirmKeepsWellFormed | src/adapters/email_confirm.rs:48-76 | on well-formed records confirmation never panics and keeps them well-formed |
| EmailConfirm.CorrectCodeDeletes | src/adapters/email_confirm.rs:61-63 | the right code under 3 attempts deletes the record and gives true |
| EmailConfirm.WrongCodeCounts | src/adapters/email_confirm.rs:64-75 | a wrong code adds one attempt and keeps a positive TTL |
| EmailConfirm.LockedRecord | src/adapters/email_confirm.rs:57-59 | with 3 attempts or more, every code is refused and nothing changes |
| EmailConfirm.AttemptsReadFirst | src/adapters/email_confirm.rs:55-61 | the attempts are read and tested before the code: a locked record is refused whatever its code field holds |
| EmailConfirm.ThreeStrikes | src/adapters/email_confirm.rs:57-75 | after three wrong codes the right one is refused |
| EmailConfirm.EmailConfirmAdapter.ConfirmEmail | src/adapters/email_confirm.rs:48-76 | the reply and the store are those of the specification |
| EmailConfirm.EmailConfirmAdapter.SendCode | src/adapters/email_confirm.rs:83-93 | the reply and the store, after the set and the expire, are those of the specification |
| Header.Payload | src/adapters/auth/header.rs:33-36 | the payload is present iff the header is present and decodes |
| Header.New | src/adapters/auth/header.rs:27-58 | user agent and ip are stored; authenticated iff the payload decodes |
| Header.Authenticated | src/adapters/auth/header.rs:33-47 | a decoded payload supplies session, user, state and permissions |
| Header.Anonymous | src/adapters/auth/header.rs:48-57 | otherwise no ids, and the permissions are ["CreateUser"] |
| Header.AuthMeansUser | src/adapters/auth/header.rs:27-58 | authenticated iff there is a user id, iff there is a state |
| Deserializers.ParseAll | src/presentation/web/deserializers.rs:19-29 | all pieces parsed in order, or Invalid iff some piece fails |
| Deserializers.FirstFailureReported | src/presentation/web/deserializers.rs:25 | the reported piece is the first that fails |
| Deserializers.VisitStr | src/presentation/web/deserializers.rs:19-29 | the visitor's loop gives the parse of the ';'-pieces |
| Deserializers.IdsPerSeparator | src/presentation/web/deserializers.rs:23-28 | one id per separator plus one |
| Deserializers.EmptyTextFails | src/presentation/web/deserializers.rs:24-25 | the empty text is one empty piece, which fails |
| Deserializers.JoinedIdsRoundTrip | src/presentation/web/deserializers.rs:19-29 | ids joined with ';' parse back to the same ids |
| Exception.ErrorRestContent | src/presentation/web/exception.rs:17-24 | each declared error kind gets its status (400, 404, 409, 500) and its own content |
| Exception.ErrorResponse | src/presentation/web/exception.rs:28-45 | the response status is the kind's status |
| Exception.MessageBody | src/presentation/web/exception.rs:34-36 | a message becomes {"error": message} |
| Exception.MapBody | src/presentation/web/exception.rs:37-45 | a map becomes {"error": [one {field, message} per entry]} |
| Exception.NotFoundResponse | src/presentation/web/exception.rs:54-59 | the fallback is a 404 with the Russian "resource not found" message |
| ConfirmCode.ParseEntry | src/ums/services/auth/confirm_code.py:130-133 | a parsed entry's numbers are the decimal reading of the field and of the two ':'-parts |
| ConfirmCode.ParseRendered | src/ums/services/auth/confirm_code.py:131-139 | a stored "time:attempts" entry parses back |
| ConfirmCode.Records | src/ums/services/auth/confirm_code.py:129-141 | the records have distinct codes, one per hash field at most |
| ConfirmCode.RecordsOfEncoded | src/ums/services/auth/confirm_code.py:129-141 | encoding records and reading them back gives the same records |
| ConfirmCode.GenerateLimits | src/ums/services/auth/confirm_code.py:72-89 | too many codes, or one sent within the interval, are refused with no change; otherwise a code in range is stored with 0 attempts and the key's lifetime |
| ConfirmCode.VerifyRefusals | src/ums/services/auth/confirm_code.py:105-117 | no record gives NotGenError; too many attempts gives ManyConfirmAttemptsError; neither changes anything |
| ConfirmCode.WrongCodeCountsAttempt | src/ums/services/auth/confirm_code.py:119-121 | a wrong code adds one attempt to the last record only |
| ConfirmCode.StaleCodeExpires | src/ums/services/auth/confirm_code.py:123-124 | the right code after its valid time gives ExpiredCodeError |
| ConfirmCode.DeletedThenNotGenerated | src/ums/services/auth/confirm_code.py:125-126 | after a verification that deletes the key, every later verification gives NotGenError |
| ConfirmCode.VerifyAccepts | src/ums/services/auth/confirm_code.py:100-124 | a successful verify matched the last code sent, with attempts left and inside its validity, and deletes the key exactly when asked |
| ConfirmCode.GenerateThenVerify | src/ums/services/auth/confirm_code.py:58-126 | a code just generated verifies |
| ConfirmCode.ConfirmCodeUtil.GetRecords | src/ums/services/auth/confirm_code.py:129-141 | without a key the read fails; otherwise it gives the records of the hash |
| ConfirmCode.ConfirmCodeUtil.Generate | src/ums/services/auth/confirm_code.py:58-89 | the result and the store are those of the generate specification |
| ConfirmCode.ConfirmCodeUtil.Verify | src/ums/services/auth/confirm_code.py:91-126 | the result and the store are those of the verify specification |
| ConfirmCode.ConfirmCodeUtil.DeleteKey | src/ums/services/auth/confirm_code.py:143-144 | the delete is never awaited, so the store is unchanged |
| SessionManager.RoundTripIff | src/ums/security/session.py:72-78 | a stored session parses back exactly iff token, ip and user agent have no ':' |
| SessionManager.UserAgentColonTruncates | src/ums/security/session.py:72-78 | a user agent with ':' is cut at the first ':' when read back |
| SessionManager.SplitRendered | src/ums/security/session.py:33-47 | the stored text splits into token, ip, time and the user-agent pieces |
| SessionManager.Listings | src/ums/security/session.py:38-49 | the listing has distinct session ids, at most one per hash field |
| SessionManager.ListingsOneEach | src/ums/security/session.py:38-49 | on a hash with distinct keys, one parsed listing per field, in order |
| SessionManager.SetSessionStores | src/ums/security/session.py:12-36 | the given non-empty id or a fresh hex id is stored under the user's key with the session text and lifetime; nothing else changes |
| SessionManager.SetThenValid | src/ums/security/session.py:12-94 | a session just set reads back and is valid for its refresh token |
| SessionManager.DeleteOnlyThatSession | src/ums/security/session.py:51-59 | exactly that session of that user is deleted |
| SessionManager.DataFromSession | src/ums/security/session.py:61-78 | a missing session reads as None |
| SessionManager.IsValidIff | src/ums/security/session.py:80-94 | valid iff the session exists and its refresh token matches |
| SessionManager.SessionManager.SetSessionId | src/ums/security/session.py:12-36 | the id and the store are those of the specification |
| SessionManager.SessionManager.GetUserSessions | src/ums/security/session.py:38-49 | the result is the parsed listing of the user's hash |
| SessionManager.SessionManager.DeleteSession | src/ums/security/session.py:51-59 | the store is that of the delete specification |
| SessionManager.SessionManager.GetDataFromSession | src/ums/security/session.py:61-78 | the result is the stored session data |
| SessionManager.SessionManager.IsValidSession | src/ums/security/session.py:80-94 | the result is the validity specification |
| SecurityFilters.PermissionFilter | src/ums/security/filters.py:22-36 | no user is ValueError; otherwise admitted iff every single tag is held and every OR-set has a held member, else AccessDenied |
| SecurityFilters.AlternativesNeverMatchStrings | src/ums/security/filters.py:33-36 | with string permissions, any OR-set argument always refuses |
| SecurityFilters.PermissionFilterByValue | src/ums/security/filters.py:33-36 | the corrected filter compares OR-set members by value |
| SecurityFilters.ByValueAdmits | src/ums/security/filters.py:33-36 | a holder of the value passes the corrected filter and fails the original |
| SecurityFilters.AllowedStates | src/ums/security/filters.py:46-47 | no states given means all four |
| SecurityFilters.StateFilter | src/ums/security/filters.py:53-60 | no user is ValueError; admitted iff the user has a state and it is allowed, else AccessDenied |
| SecurityFilters.StateFilterDefaults | src/ums/security/filters.py:46-60 | the default admits every state; a guest is always refused |
| PermissionTags.ValueInjective | src/ums/roles/permission.py:18-42 | distinct permissions have distinct values |
| PermissionTags.TagOr | src/ums/roles/permission.py:44-50 | Permission \| Permission and Permission \| set build the set; anything else is TypeError |
| PermissionTags.OrSetOr | src/ums/roles/permission.py:8-9 | a set combines only with a set |
| PermissionTags.TagOrTag | src/ums/roles/permission.py:44-46 | p \| q is {p, q} |
| PermissionTags.OrIsUnion | src/ums/roles/permission.py:4-9 | the operator is set union |
| PermissionTags.ThreeTagChainFails | src/ums/roles/permission.py:4-9 | p \| q \| r fails |
| JwtMiddleware.IsValidToken | src/ums/security/middleware/jwt.py:44-46 | a token is valid iff present and decodes |
| JwtMiddleware.AuthenticatedIff | src/ums/security/middleware/jwt.py:44-78 | authenticated iff both tokens decode, the session is valid and not marked for re-authentication; scopes follow |
| JwtMiddleware.FlagsAttached | src/ums/security/middleware/jwt.py:65-78 | the request user carries ip, user agent and the three validity flags |
| JwtMiddleware.SessionOnlyWhenChecked | src/ums/security/middleware/jwt.py:48-50 | without a valid refresh token and a session id the session store is not read, and the user is a guest |
| JwtMiddleware.ReauthDowngrades | src/ums/security/middleware/jwt.py:61-71 | a session marked with its refresh token for re-authentication makes the user a guest |
| JwtMiddleware.Dispatch | src/ums/security/middleware/jwt.py:23-85 | the request's user and scopes are those of the specification |
| AuthService.GenerateError | src/ums/services/auth.py:140-145 | generation errors become the BadRequest messages |
| AuthService.VerifyError | src/ums/services/auth.py:178-187 | verification errors become the BadRequest messages |
| AuthService.CreateUserOutcomes | src/ums/services/auth.py:60-71 | a taken username or email is AlreadyExists with no change; success appends the user with the hashed password |
| AuthService.AuthenticateOnlyActive | src/ums/services/auth.py:87-97 | only an active user whose password verifies logs in; an unknown user is NotFound |
| AuthService.AuthenticateStoresSession | src/ums/services/auth.py:100-113 | after a login the new session is valid for the refresh token |
| AuthService.ByEmail | src/ums/services/auth.py:127-129 | the user with the email, or None iff there is none |
| AuthService.ConfirmationNeedsUnconfirmed | src/ums/services/auth.py:131-132 | sending or verifying a code for a confirmed user is AccessDenied with no change |
| AuthService.VerifyEmailActivates | src/ums/services/auth.py:170-189 | a verified email makes the unconfirmed user active and deletes the code key |
| AuthService.ResetVerified | src/ums/services/auth.py:250-268 | only the confirmation store changes before the password step |
| AuthService.ResetAsWrittenNeverResets | src/ums/services/auth.py:270 | as written, at any clock reading, a reset never changes a password; after a good code it is AttributeError, and a refused code gives the corrected reset's error |
| AuthService.AwaitedDeleteRaises | src/ums/services/auth.py:273 | with the intended validator but `ConfirmCodeUtil.delete_key` as written, a reset that would succeed raises TypeError, changes no password and leaves the code key in place |
| AuthService.InvalidPasswordKeepsKey | src/ums/services/auth.py:270-271 | the corrected reset refuses an invalid password and keeps the code key |
| AuthService.ResetChangesOnlyHash | src/ums/services/auth.py:270-274 | the corrected reset changes only the user's hash and deletes the code key |
| AuthService.LogoutIff | src/ums/services/auth.py:291-293 | the session is deleted iff the session id is non-empty and the user is authenticated |
| AuthService.RefreshOutcomes | src/ums/services/auth.py:312-338 | a refresh needs a valid session and refresh token and an unblocked user; it keeps the session id and clears the re-authentication mark |
| AuthService.AuthApplicationService.CreateUser | src/ums/services/auth.py:47-71 | the result and the state are those of the specification |
| AuthService.AuthApplicationService.Authenticate | src/ums/services/auth.py:73-113 | the result and the state are those of the specification |
| AuthService.AuthApplicationService.SendCodeStep | src/ums/services/auth.py:134-154 | the shared generate-and-mail step follows its specification |
| AuthService.AuthApplicationService.SendVerifyCode | src/ums/services/auth.py:115-154 | the result and the state are those of the specification |
| AuthService.AuthApplicationService.VerifyEmail | src/ums/services/auth.py:156-200 | the result and the state are those of the specification |
| AuthService.AuthApplicationService.SendResetCode | src/ums/services/auth.py:202-237 | the result and the state are those of the specification |
| AuthService.AuthApplicationService.ResetPassword | src/ums/services/auth.py:239-288 | the result and the state are those of the corrected specification |
| AuthService.AuthApplicationService.Logout | src/ums/services/auth.py:290-293 | the result and the state are those of the specification |
| AuthService.AuthApplicationService.RefreshTokens | src/ums/services/auth.py:295-345 | the result and the state are those of the specification |
| UserAppService.Guard | src/services/user.py:67-68 | a guarded call runs only for an authenticated, active user |
| UserAppService.ApplyPatch | src/services/user.py:87-90 | only the target user's row changes, by the given fields |
| UserAppService.GatherGenerator | src/services/user.py:80-85 | `asyncio.gather` given one generator: TypeError from Python 3.12; before it, success only when the generator is empty, else RuntimeError |
| UserAppService.GatherNeverKicks | src/services/user.py:69-90 | as written, a role or state change never marks a session: the call raises with nothing changed, or returns with no session to mark |
| UserAppService.KickedAll | src/services/user.py:80-85 | with the sessions spread into gather, every listed session is marked with its refresh token; other keys are kept |
| UserAppService.UnconfirmKeepsSessions | src/services/user.py:74-79 | as written, setting the state to NOT_CONFIRMED marks no session |
| UserAppService.UpdateUserOutcomes | src/services/user.py:69-90 | as corrected (presence tests, spread gather): an unknown user is NotFound; success needs a known role and applies the patch; a role or state change marks every session |
| UserAppService.UpdatePasswordOrder | src/services/user.py:94-122 | the refusals come in order: a new password equal to the old one, then a wrong old password whatever the new one, then an invalid new password; errors change nothing, and success stores the new hash |
| UserAppService.DeleteMeOnlyState | src/services/user.py:126-134 | succeeds iff the password verifies; only the user's state becomes DELETED |
| UserAppService.Views | src/services/user.py:140-148 | one view per session, with id, ip, time and user agent |
| UserAppService.MySessionsOneEach | src/services/user.py:138-148 | one view per stored session of the caller, in order |
| UserAppService.DeleteMySessionKicks | src/services/user.py:166-171 | the session is deleted and marked with its refresh token |
| UserAppService.UserApplicationService.UpdateUser | src/services/user.py:67-90 | the result and the state are those of the corrected specification |
| UserAppService.UserApplicationService.UpdatePassword | src/services/user.py:92-122 | the result and the state are those of the specification |
| UserAppService.UserApplicationService.DeleteMe | src/services/user.py:124-134 | the result and the state are those of the specification |
| UserAppService.UserApplicationService.GetMySessions | src/services/user.py:136-148 | the result is that of the specification |
| UserAppService.UserApplicationService.DeleteMySession | src/services/user.py:164-171 | the result and the state are those of the specification |
| Lifespan.FindModel | src/ums/lifespan.py:96-97 | the model with the id, or None iff none has it |
| Lifespan.DefaultRequired | src/ums/lifespan.py:96-100 | FileNotFoundError with no change iff no model has id 0 |
| Lifespan.StepOutcome | src/ums/lifespan.py:106-110 | a stored role is skipped entirely; a missing one is created |
| Lifespan.GetOrCreate | src/ums/lifespan.py:112-116 | a permission is found by title or appended |
| Lifespan.LinkTagsFrame | src/ums/lifespan.py:112-118 | roles are untouched, permissions and links only grow, and new links are the role's |
| Lifespan.LinkTagsCovers | src/ums/lifespan.py:112-118 | every tag of the model ends up as a permission linked to the role |
| Lifespan.LinkTagsKeepsTitlesUnique | src/ums/lifespan.py:112-116 | permission titles stay unique |
| Lifespan.StoredRolesUntouched | src/ums/lifespan.py:106-118 | a role already stored gets no new links |
| Lifespan.LinkPermissions | src/ums/lifespan.py:110-118 | the loop over a new role's tags leaves the tables and the created-permission count the specification gives |
| Lifespan.InitRoles | src/ums/lifespan.py:91-118 | the nested loops give the result and tables of the specification |
| Roles.MainRoleOf | src/models/role.py:7-13 | a main role exists iff the value is 0-3 |
| Roles.AdditionalRoleOf | src/models/role.py:15-24 | an additional role exists iff the value is 1-9 |
| Roles.RoleValue | src/models/role.py:99-100 | the value is the two digits, main then additional |
| Roles.ValueInjective | src/models/role.py:99-100 | equal values mean equal roles |
| Roles.FromInt | src/models/role.py:154-167 | built iff the value is 10-39 and not a multiple of 10, else ValueError |
| Roles.FromIntValue | src/models/role.py:154-167 | from_int inverts value except for the main role with value 0 |
| Roles.RoleEq | src/models/role.py:111-117 | equal to a role or an int by value; anything else is ValueError |
| Roles.RoleNe | src/models/role.py:119-125 | the negation of equality, with the same errors |
| Roles.RoleCompare | src/models/role.py:130-152 | against a role or an int, the result is the integer comparison of the values; against anything else it is None |
| Roles.Trichotomy | src/models/role.py:111-152 | exactly one of less, equal and greater holds |
| Roles.Star | src/models/role.py:27-43 | "*" is "at most 39" |
| Roles.IsInclude | src/models/role.py:56-64 | a range includes a role by comparing values with its right end |
| Roles.StarIncludesAll | src/models/role.py:27-64 | "*" includes every role |
| Roles.RangeEq | src/models/role.py:45-51 | a range equals a role by inclusion and a range by its fields; anything else is ValueError |
| AuthModel.NewAuthenticatedUser | src/models/auth.py:66-76 | construction fails iff the id is not a UUID |
| AuthModel.IsAuthenticated | src/models/auth.py:78-79 | true exactly for the authenticated user |
| AuthModel.Id | src/models/auth.py:90-91 | a guest has no id |
| AuthModel.UsernameAsWrittenRaises | src/models/auth.py:93-95 | the username property calls itself and raises RecursionError |
| AuthModel.Username | src/models/auth.py:93-95 | the corrected property gives the stored username |
| AuthModel.DisplayNameAsWritten | src/models/auth.py:81-83 | as written, an authenticated display name raises RecursionError and a guest's is "Guest" |
| AuthModel.DisplayName | src/models/auth.py:81-83 | the corrected display name is the username, or "Guest" |
| AuthModel.Access | src/models/auth.py:97-99 | an authenticated user holds its tags; a guest holds the value of every guest tag |
| AuthModel.GuestTagListed | src/models/auth.py:163-174 | every guest tag is listed |
| AuthModel.StateProp | src/models/auth.py:101-103 | the state is that of the stored id, or ValueError outside 0-3 |
| AuthModel.EqualityAndHash | src/models/auth.py:125-129 | equality is an equivalence, agrees with the hash and is equality of ids |
| AuthModel.GuestHasNothing | src/models/auth.py:143-178 | a guest has no id, username or state and is not authenticated |
| PyValidators.UsernameAgrees | src/utils/validators.py:13-18 | the scanner accepts exactly the usernames the regex matches |
| PyValidators.PasswordAgrees | src/utils/validators.py:21-26 | the scanner accepts exactly the passwords the regex matches |
| PyValidators.EmailAgrees | src/utils/validators.py:4-10 | the scanner accepts exactly the emails the regex matches |
| PyValidators.Body | src/utils/validators.py:4-26 | `$` also matches before one final newline |
| PyUsers.CallerState | src/ums/security/filters.py:53-57 | the state the state filter sees is the caller's account state |
| PyCommon.StateOf | src/ums/models/state.py:4-8 | a state exists iff the value is 0-3 |
| PyCommon.StateOfValue | src/ums/models/state.py:4-8 | state and value convert one-to-one |

## Left out

- I/O is not modelled: HTTP framing, gRPC, RabbitMQ mail delivery, S3 and SMTP. A sent mail is a record in an outbox or in a write log.
- `PyUsers.Mail` keeps the `priority` and `ttl` arguments of `send_email_with_template` as plain fields: 13 with a 1800-second TTL for the code and email-confirmation mails, 9 with none for the password-change mails. The queue does nothing with them in this model: no ordering by priority, no expiry.
- Time is whole seconds (`Common.Time` is an `int`). chrono's timestamps carry fractions of a second, so `is_session_expired` (src/domain/services/session.rs:18-21) can find an age of N.5 seconds greater than a limit of N. The model sees such an age as N and calls the session live.
- Argon2, SHA-256 and bcrypt are parameters, and so are password verification, JWT encoding and decoding, UUID and random generation, and the clock.
- Concurrency is not modelled. Interleaving between requests and `await` points is excluded, and each call runs to completion.
- Python `asyncio.gather` over spread arguments is modelled as sequential, in listing order.
- `UserAppService.GatherGenerator`: the Python version is a parameter `Runtime`. Passing one generator to `asyncio.gather` raises TypeError from Python 3.12 on. On 3.8-3.11 it is wrapped as a future, and awaiting it raises RuntimeError ("Task got bad yield") as soon as the generator yields one coroutine. The corrected `update_user` spreads the calls into `gather`.
- Unicode is approximated to the characters below; others count as neither numeric, alphabetic nor whitespace.
  - Rust `is_numeric`: the ASCII digits and the Latin-1 numerics 0xb2, 0xb3, 0xb9 and 0xbc-0xbe.
  - Rust `is_alphabetic`: the ASCII letters, 0xaa, 0xb5, 0xba, 0xc0-0xff except 0xd7 and 0xf7, and the Cyrillic block 0x400-0x4ff except 0x482-0x489.
  - Rust `is_whitespace`: the full Unicode White_Space list.
  - Python `\w` is `str.isalnum()` or `_`. Over these ranges that is the alphabetic and numeric characters above, plus `_`.
  - Python `\d` is the Unicode decimal digits. Among these characters those are only the ASCII digits; the Latin-1 numerics are not `\d`.
  - There is no case folding beyond ASCII and basic Cyrillic.
- HashMap iteration order in the error response is a parameter `order`.
- Redis keeps hash fields in insertion order, seen as a sequence of pairs. Key expiry is a TTL map and is not applied by a clock.
- The `ensure_can_*` access decisions are opaque `Access` parameters. Their rules live in src/domain/services/access.rs, which is not part of this model.
- Only the four declared `ApplicationError` kinds are mapped by `Exception.ErrorRestContent`.
- `Initial.ControlAccount`: `RoleService::create_role` is not part of this model. The role is built directly, and the grant names missing from the `UMSPermission` enum are added to the catalogue.
- `UserDb.UserTable.SaveUser` keeps the insert-only behaviour of `save_user`. The update, confirm and reset interactors use the corrected upsert. See Findings.
- Pydantic validation of the Python request schemas is not modelled, and neither are `RoleLoader` file loading and cookie handling.
- `UserAppService.Patch` leaves out first_name and last_name, because the user rows the Python services see carry no names.
- src/services/user.py imports several things that are not part of this model:
  - `permission_filter` from src/services/auth/filters.py, a file that defines only `role_filter`;
  - `src.models.permission`;
  - `src.models.state`.

  The model uses the permission filter of src/ums/security/filters.py and the integer `UserState` of src/ums/models/state.py, where NOT_CONFIRMED is 0.
- The application services' `confirm_manager` is taken to be the `ConfirmCodeUtil` of src/ums/services/auth/confirm_code.py, keyed by "email_confirm:" or "password_reset:" plus the email. Its wiring in the dependency container is not part of this model. Its `delete_key` is a plain method that returns None, so `await`ing it raises TypeError (see Findings). The corrected reset and email verification use a delete that is awaited and removes the key.
- The Rust `ConfirmCode` gateway of the confirm and reset interactors is a pure function parameter `confirm` (`ConfirmUser.ConfirmSpec`, `ResetPassword.ResetSpec`). Whatever it does to its own store is not modelled: attempt counting, code consumption and expiry.
- Logging is dropped. This covers `log::warn!` for a failed fingerprint check (src/application/session/extract_payload.rs:85) and the `log::info!` lines of src/application/initial.rs:184-186. The last of these is the only place the generated control password is revealed.
- `AccessLogSelf.LogSpec` models a `page * per_page` that overflows u64 as a panic. That is the debug-build behaviour; a release build wraps modulo 2^64.
- `UserDb.UserTable.GetList`: `get_list` (src/adapters/database/user_db.rs:59-67) sets no ORDER BY, so the database may return the rows in any order. The model takes the stored order. The same holds for `UserDb.UserTable.GetUsersByIds` (user_db.rs:34-57), the case-insensitive lookups `UserDb.ByUsername` and `UserDb.ByEmail` (user_db.rs:90-116), and `RoleDb.RoleTable.GetRolesByIds` (src/adapters/database/role_db.rs:54-77).
- `UserService.UpdateUserWithHash`: the confirm, reset and update interactors call `update_user` with seven arguments, the last a password hash. They use the result as a `User`. The declaration in src/domain/services/user.rs:31-39 takes six and returns a `Result`, so the crate does not compile as written. The model follows the callers' evident reading: the seventh argument replaces the stored hash, and the result is the user.
- `Decimal.ParseNat` and `Decimal.ParseInt` read only an optional '-' and digits. Rust's `parse` and Python's `int` also accept a leading '+'. Python's `int` also allows surrounding whitespace and underscores between digits. Every string they read in this model is one the system wrote itself from a number.
- `AuthService.AuthApplicationService` and `UserAppService.UserApplicationService`: the session store and the re-authentication store are taken to be distinct Redis clients (`Separate`). src/lifespan.py:34-46 opens them on Redis databases 0 and 1. Aliasing between them is not modelled.
- `Initial.ControlAccount`: the trace records the 20 `Permission`s built by src/application/initial.rs:90-122 and handed to `save_permissions`. Their titles repeat those the catalogue sync has just stored, and "DeleteUser" appears twice. The permission table makes text_id and title unique (migration/src/m20240530_133643_create_permission.rs:26,38), so a real `save_permissions` would fail on them. The gateway is `todo!()` (src/adapters/database/permission_db.rs:60-61), so the model does not decide what it does.
- `PyUsers.Repr`: Python's `repr` is modelled only for text without quotes, backslashes or unprintable characters. For text holding a `'` and no `"`, Python switches to double quotes. Emails may hold `'`.
- `JwtMiddleware.Dispatch`: the user agent is a plain string. `parse(None)` for a request without a User-Agent header is not modelled.
- `Lifespan.LinkTags`: a tag repeated within one role file gives the role two identical links, as two `add_link` calls would. Whether the link table accepts the second is not part of this model.
- `Lifespan.InitRoles`: the fresh permission ids come from a `newId` parameter. Repository commits are not modelled separately.
- `SessionManager.SessionManager`: the Rust Redis session adapter is not part of this model. The Python manager of src/services/auth/session.py differs from src/ums/security/session.py only in cookie handling, so one model serves both.
- `RoleDb.RoleTable.GetRolesByUserWithPerms` models only the function's return value, which is always empty; the commented-out query is not modelled.

## Findings

| source | as written | input that shows it | evidently intended | confidence | as-written member | corrected member |
|---|---|---|---|---|---|---|
| src/application/user/update.rs:127-137 | `update_user` gets the email where it expects the username, and the username where it expects the email | any request whose username differs from its email | the requested username and email are stored in their own fields | not executed | UpdateUser.SwappedFields | UpdateUser.SavedUser |
| src/adapters/database/user_db.rs:69-88 | `save_user` always inserts, so saving a changed copy of a stored user conflicts on its id | update, confirm or reset of any existing user | saving an existing user replaces its row | not executed | UserDb.SaveUpdatedUserPanics | UserDb.UpsertThenGet |
| src/application/session/get_access_log_self.rs:84-88 | offset = page * per_page, while page 0 is refused | page 1, per_page 1 over two records shows the second | offset = (page - 1) * per_page | not executed | AccessLogSelf.FirstRecordsUnreachable | AccessLogSelf.EveryRecordOnItsPage |
| src/models/auth.py:93-95 | the `username` property returns `self.username`, calling itself | any authenticated user | return the stored `_username` | not executed | AuthModel.UsernameAsWrittenRaises | AuthModel.Username |
| src/ums/security/filters.py:33-36 | OR-set members are tested as enum members against permission strings | a caller holding the value of one member of an OR-set | test the members' values | not executed | SecurityFilters.AlternativesNeverMatchStrings | SecurityFilters.ByValueAdmits |
| src/ums/services/auth.py:270 | `schemas.user.is_valid_password` names a function that src/ums/models/schemas/user.py does not define: that module imports `validators` (line 9) and calls `validators.is_valid_password` (line 91), so the lookup raises AttributeError | any reset with a correct code | the password validator of src/utils/validators.py | not executed | AuthService.ResetAsWrittenNeverResets | AuthService.ResetChangesOnlyHash |
| src/services/user.py:74-79 | `if data.role_id` and `if data.role_id or data.state` test truthiness | role_id 0 (the default role) or state NOT_CONFIRMED (0) | test for presence (`is not None`) | not executed | UserAppService.UnconfirmKeepsSessions | UserAppService.UpdateUserOutcomes |
| src/ums/services/auth.py:273 | `await self.confirm_manager.delete_key()` awaits the None that `ConfirmCodeUtil.delete_key` (src/ums/services/auth/confirm_code.py:143-144) returns | any reset with a correct code and a valid password | delete the code key and go on to store the new hash | not executed | AuthService.AwaitedDeleteRaises | AuthService.ResetChangesOnlyHash |
| src/services/user.py:80-85 | `asyncio.gather(kick(s) for s in sessions)` passes one generator instead of spreading the calls | a role or state change for a user with one session | `asyncio.gather(*(...))`, marking every session | not executed | UserAppService.GatherNeverKicks | UserAppService.UpdateUserOutcomes |
