# Ticket booking backend: a Dafny model of its service core

This project models the core of a Go ticket-booking backend. The model covers:

- the authentication service, which handles login, registration and refresh-token rotation over a user directory and a Redis refresh-token store;
- the ticket service, which handles gate admission (`ValidateEntry`), validated ticket updates and ticket creation guarded by the event's existence;
- the event service, including the partial update `PatchOne` with its change detection;
- the supporting pieces: the bearer-token middleware and role gate, JWT claim construction with the random-hex refresh token, the password guards, the first-user-becomes-manager rule, the public user projection, the validation-error wrapper and the error-to-HTTP-status table.

Some conventions run through every module:

- Go errors are modelled as the set of sentinels that `errors.Is` can reach, together with the error's text (`Errors.Error`).
- Each store is a class whose map field is updated in place. Every store call takes a `fault: Option<string>` parameter: `None` means the call reaches its backend, `Some(m)` means it fails with a transport error `m`. This keeps every error branch of the services in the model.
- Time is an integer number of seconds, passed in as `now`.
- bcrypt, HS256 signing, JWT parsing and `crypto/rand` are parameters: the `Hasher`, `Comparator`, `Signer` and `JwtLibrary` function values, and `entropy`, the bytes the random source yields.
- The JWT claims follow section 4.1 of RFC 7519. The HMAC algorithm names follow section 3.2 of RFC 7518. The header check follows the `Bearer` scheme of section 2.1 of RFC 6750.

Modules, one per source file or concern:

- `Wrappers`: the small `Option` and `Result` types.
- `Records`: the lookup by primary key shared by the directories.
- `Errors`: the sentinels, `NewValidationError`, and the not-found-or-internal mapping.
- `Users`: user records and the user directory.
- `Passwords`: `HashPassword` and `MatchesHash`.
- `UserDto`: the public projection and the registration-request rules.
- `Hex`: `hex.EncodeToString`.
- `Jwt`: `utils/jwt.go`.
- `TokenStore`: the Redis refresh-token repository.
- `AuthService`.
- `Events` and `Tickets`: records and directories.
- `TicketService`.
- `EventService`.
- `Middleware`.
- `Httpx`.

Two behaviours of the code are worth stating, and the model keeps both:

- `Login` answers an unknown email with `ErrRecordNotFound` (services/auth.go:30-34). It does not map it to `ErrInvalidCredentials`.
- `ValidateEntry` reads `Entered` and then writes the ticket unconditionally (services/ticket.go:115-131): after refusing a ticket already marked entered, the update carries no condition on `Entered`. There is no compare-and-set.

## Model

| member | source | states |
|---|---|---|
| Errors.Sentinel | models/auth.go:57-60 | a sentinel matches `errors.Is` for its own kind only and carries its declared text |
| Errors.NewValidationError | models/ticket.go:45-47 | wraps `ErrValidation` and nothing else; its text is `"validation error: " + msg` |
| Errors.NotFoundOrInternal | services/event.go:50-55 | a not-found error stays `ErrRecordNotFound`, every other error becomes `InternalError` |
| Errors.AuthSentinelsDistinct | models/auth.go:57-60 | the four auth sentinels are pairwise distinct as values and as texts |
| Errors.ValidationIsNotInternal | models/ticket.go:49-52 | `ErrValidation` and `InternalError` are distinct, and neither is reachable from the other |
| Users.RoleName | models/User.go:9-14 | a role is stored as exactly "manager" or "attendee"; "manager" is the manager role |
| Users.FindByEmail | models/User.go:21 | a lookup by email succeeds exactly when some stored user has that email and returns such a user; otherwise `ErrRecordNotFound` |
| Records.Find | repositories/auth.go:57-72 | a lookup by primary key succeeds exactly when the id is stored and returns that record; otherwise `ErrRecordNotFound` |
| Users.UserDirectory.constructor | models/auth.go:15-19 | an empty directory whose first id is 1 |
| Users.UserDirectory.FindByEmailIsOwner | models/User.go:21 | with emails unique, the email lookup returns exactly the user who owns the email |
| Users.UserDirectory.GetUserByEmail | models/auth.go:17 | answers the email lookup; a failing call returns an error that wraps no sentinel |
| Users.UserDirectory.GetUserByUserID | models/auth.go:18 | answers the id lookup; a failing call returns an error that wraps no sentinel |
| Users.UserDirectory.AfterCreate | models/User.go:29-34 | the user with ID 1 is promoted to manager; any other user's role and every other user are unchanged |
| Users.UserDirectory.RegisterUser | models/User.go:16-34 | inserts under the next id with the draft's fields; the role is manager for ID 1 and otherwise the draft's role, defaulting to attendee; a duplicate email or a failed call inserts nothing; the directory invariant (ids, unique emails) is preserved |
| Users.FirstRegistrationIsManager | models/User.go:29-34 | registering into an empty directory yields user 1 with the manager role |
| Passwords.HashPassword | models/auth.go:46-54 | the empty password gives `ErrPasswordEmpty` without hashing; otherwise the hasher's output or its error, passed through |
| Passwords.MatchesHash | models/auth.go:39-44 | true exactly when the comparison reports no error |
| Passwords.EmptyPasswordIgnoresHasher | models/auth.go:46-49 | the result for the empty password is the same whatever the hasher |
| Passwords.HashedPasswordMatches | models/auth.go:39-54 | with a comparator that accepts the hasher's output, a hashed password matches its plaintext |
| UserDto.ToUserResponse | dto/auth.go:35-47 | nil gives nil; otherwise ID, Name, Surname, Email, Role and Birthday are copied unchanged |
| UserDto.ResponseIgnoresPassword | dto/auth.go:49-56 | the response is the same whatever the stored password hash |
| UserDto.ResponseDeterminesPublicFields | dto/auth.go:39-56 | two users with equal responses differ at most in their password |
| UserDto.ValidRegisterRequest | dto/auth.go:10-14 | a request that passes validation has a non-empty email and never the empty password that `HashPassword` refuses |
| UserDto.DraftOf | handlers/auth.go:48-53 | the user built from a request copies name, surname, email and birthday, sets no role and leaves the password empty for the service to fill |
| Hex.HexDigit | utils/jwt.go:65 | each nibble becomes one character from [0-9a-f] |
| Hex.DigitValue | utils/jwt.go:65 | reading a lower-case hex digit back gives its nibble; other characters give nothing |
| Hex.DigitRoundTrip | utils/jwt.go:65 | decoding a digit undoes encoding it |
| Hex.HexOfShape | utils/jwt.go:60-66 | n bytes encode to 2n characters, all lower-case hex |
| Hex.HexOfAt | utils/jwt.go:65 | byte i gives characters 2i and 2i+1, high nibble first |
| Hex.HexOfAppend | utils/jwt.go:65 | encoding a sequence extended by one byte extends the encoding by that byte's pair |
| Hex.UnhexOfHex | utils/jwt.go:65 | decoding the encoding gives the bytes back |
| Hex.HexOfInjective | utils/jwt.go:65 | different byte strings never share an encoding |
| Hex.EncodeToString | utils/jwt.go:65 | the loop over the buffer yields the hex encoding of its contents |
| Jwt.NewJwtWrapper | utils/jwt.go:18-24 | keeps the secret, fixes the issuer to "ticket-booking-app" and the lifetime to 1 hour |
| Jwt.BuildClaims | utils/jwt.go:27-34 | the claims carry the given subject, email and role and the wrapper's issuer; `iat` is `now` and the token lives `ExpirationHours` hours |
| Jwt.DefaultWrapperClaims | utils/jwt.go:27-34 | the claims carry sub, email, role, the issuer, `iat = now` and `exp = iat + 3600` |
| Jwt.ReadError | utils/jwt.go:62 | as `io.ReadFull`: an empty buffer never fails; a source that yields nothing gives `EOF`, one that yields fewer bytes than asked gives `unexpected EOF`, a source error is passed on |
| Jwt.RandRead | utils/jwt.go:60-62 | the bytes the source yields are copied to the front of the buffer, at most its length, and the rest of the buffer is left as it was; a full read fills it with the source's first bytes |
| Jwt.GenerateRandomHex | utils/jwt.go:60-66 | on success, the hex encoding of the first n random bytes: 2n lower-case hex characters; on failure, the empty string and the error |
| Jwt.Issued | utils/jwt.go:26-49 | the pair is issued exactly when signing succeeds and the random read succeeds; any failure returns two empty tokens |
| Jwt.IssuedFacts | utils/jwt.go:26-48 | a signing or randomness failure gives ("", "", err); success gives the signed claims and a 64-character lower-case hex refresh token from the first 32 random bytes |
| Jwt.IssuedRefreshTokensDiffer | utils/jwt.go:43 | different random bytes give different refresh tokens |
| Jwt.GenerateTokens | utils/jwt.go:26-48 | signs the claims, then draws the refresh token; errors are wrapped with "could not sign token: " or "could not generate refresh token: " |
| Jwt.ValidateToken | utils/jwt.go:51-58 | a token is accepted exactly when it parses, its method is HMAC, and it verifies with the secret; the accepted token is marked valid |
| Jwt.NonHmacRejected | utils/jwt.go:53-55 | a token with a non-HMAC method is refused whatever the signature check would say |
| TokenStore.TokenKey | repositories/redis_token_repository.go:20-22 | the key is "rt:" followed by the token |
| TokenStore.TokenKeyInjective | repositories/redis_token_repository.go:20-22 | distinct tokens have distinct keys |
| TokenStore.Lookup | repositories/redis_token_repository.go:35-50 | a lookup returns the stored record exactly when its key is present and not expired; otherwise `ErrInvalidToken` |
| TokenStore.ExpiryFor | repositories/redis_token_repository.go:30-32 | a key gets an expiry exactly when its time-to-live is positive, and then expires `ttl` seconds after `now` |
| TokenStore.Put | repositories/redis_token_repository.go:24-33 | `Create` adds exactly the record's key, stores the record under it and leaves every other key as it was |
| TokenStore.Delete | repositories/redis_token_repository.go:52-54 | `Revoke` removes exactly the token's key and leaves every other entry as it was |
| TokenStore.PutThenLookup | repositories/redis_token_repository.go:24-49 | after `Create(t)`, `GetByToken(t.Token)` returns `t` until `t.ExpiresAt` |
| TokenStore.PutExpires | repositories/redis_token_repository.go:30-32 | the time-to-live is `ExpiresAt - now`: from `ExpiresAt` on, the token is gone |
| TokenStore.DeleteThenLookup | repositories/redis_token_repository.go:52-54 | after `Revoke(s)`, `GetByToken(s)` fails with `ErrInvalidToken` at every time |
| TokenStore.DeleteAbsent | repositories/redis_token_repository.go:52-54 | revoking an absent token changes nothing and is not an error |
| TokenStore.OnlyOwnKeyChanges | repositories/redis_token_repository.go:32-53 | `Create` and `Revoke` leave every other key's entry as it was |
| TokenStore.OtherTokensUnaffected | repositories/redis_token_repository.go:32-53 | lookups of other tokens give the same answer before and after `Create` or `Revoke` |
| TokenStore.SpentStaysSpent | repositories/redis_token_repository.go:24-54 | a revoked token stays absent after a different token is created |
| TokenStore.RedisTokenRepository.constructor | repositories/redis_token_repository.go:16-18 | a repository over the given key space |
| TokenStore.RedisTokenRepository.Create | repositories/redis_token_repository.go:24-33 | sets the token's key with time-to-live `ExpiresAt - now`; a failed call changes nothing |
| TokenStore.RedisTokenRepository.GetByToken | repositories/redis_token_repository.go:35-50 | answers the lookup; a failing call returns an error that wraps no sentinel |
| TokenStore.RedisTokenRepository.Revoke | repositories/redis_token_repository.go:52-54 | deletes the token's key; a failed call changes nothing |
| AuthService.AuthService.constructor | services/auth.go:20-27 | a service over the given directory, token store, JWT settings and cryptography |
| AuthService.AuthService.Login | services/auth.go:29-65 | an unknown email gives `ErrRecordNotFound`; another lookup failure gives `InternalError`; a wrong password gives `ErrInvalidCredentials`; a token or store failure gives `InternalError`; no failure stores anything; success stores exactly one refresh token, bound to the user's ID, expiring at now + 7 days, equal to the returned one, and a 64-character hex string |
| AuthService.AuthService.Register | services/auth.go:67-90 | a successful email lookup gives `ErrUserAlreadyExist`, while any lookup error lets registration proceed; the empty password gives `ErrPasswordEmpty`; hash and insert failures give `InternalError`; failures insert nothing; success stores the hash, not the plaintext, under the next id |
| AuthService.AuthService.RefreshToken | services/auth.go:92-130 | an absent or unreadable token gives `ErrInvalidToken` with nothing changed; a revoke failure gives `InternalError` with nothing changed; after the revoke, a missing user gives `ErrRecordNotFound` and a token or store failure gives `InternalError`, each with the old token revoked and nothing new stored; success stores a new 7-day token bound to the same user id; the returned errors are only those three kinds; a successful rotation leaves the old token unusable at every later time |
| AuthService.RefreshIsSingleUse | services/auth.go:92-101 | after a successful refresh that drew a new value, refreshing with the old value fails with `ErrInvalidToken` |
| AuthService.RegisterThenLogin | services/auth.go:29-90 | registering and then logging in with the same password either succeeds with the registered user or fails only with `InternalError` |
| Events.EventStore.constructor | models/event.go:20-26 | an empty directory whose first id is 1 |
| Events.EventStore.GetMany | models/event.go:21 | all stored events; a failing call returns an error that wraps no sentinel |
| Events.EventStore.GetOne | models/event.go:22 | answers the lookup by id |
| Events.EventStore.CreateOne | models/event.go:23 | stores the event under the next id; a failed call changes nothing |
| Events.EventStore.UpdateOne | repositories/event.go:68-84 | replaces a stored event, keeping its id; an absent id gives `ErrRecordNotFound` with nothing changed |
| Events.EventStore.DeleteOne | repositories/event.go:86-95 | removes the event; an absent id gives `ErrRecordNotFound` |
| Tickets.ApplyUpdate | models/ticket.go:38-43 | a field left nil is unchanged; of the input's fields only `Entered` has a ticket column |
| Tickets.Fetch | services/ticket.go:42 | a ticket is found only if it exists and belongs to the user; otherwise `ErrRecordNotFound` |
| Tickets.OwnedBy | services/ticket.go:32 | exactly the tickets the user owns |
| Tickets.TicketStore.constructor | models/ticket.go:19-24 | an empty directory whose first id is 1 |
| Tickets.TicketStore.GetMany | services/ticket.go:32 | the user's tickets; a failing call returns an error that wraps no sentinel |
| Tickets.TicketStore.GetOne | services/ticket.go:42 | the owner-scoped lookup |
| Tickets.TicketStore.CreateOne | services/ticket.go:77 | inserts the ticket for the user under a fresh id; a failed call changes nothing |
| Tickets.TicketStore.UpdateOne | services/ticket.go:102 | applies the update to the user's ticket only; a missing ticket gives `ErrRecordNotFound` |
| TicketService.CheckUpdateInput | services/ticket.go:87-100 | the update passes exactly when the input is present, the price is not negative and the status is one of sold, available and reserved; each refusal is a validation error with its own message |
| TicketService.UnknownStatusNamed | services/ticket.go:95-99 | an unknown status is reported by name |
| TicketService.TicketService.constructor | services/ticket.go:20-29 | a service over the given ticket and event directories |
| TicketService.TicketService.GetMany | services/ticket.go:31-38 | any store error becomes `InternalError`; otherwise exactly the user's tickets |
| TicketService.TicketService.GetOne | services/ticket.go:40-51 | the user's ticket; a missing ticket stays `ErrRecordNotFound`, any other error becomes `InternalError` |
| TicketService.TicketService.CreateOne | services/ticket.go:68-83 | a missing event gives `ErrEventNotFound`; another event-lookup error gives `InternalError`; a create failure gives `InternalError`; no failure creates a ticket; success stores the ticket for the user under a fresh id |
| TicketService.TicketService.UpdateOne | services/ticket.go:85-113 | a nil input, a negative price or an unknown status gives a validation error before any store call; a missing ticket gives `ErrRecordNotFound` and any other store error `InternalError`; otherwise the update is applied to that ticket alone |
| TicketService.TicketService.ValidateEntry | services/ticket.go:115-131 | a lookup error comes back unchanged and nothing is written; an entered ticket gives `ErrTicketAlreadyUsed` and nothing is written; otherwise only that ticket's `Entered` becomes true; no ticket ever goes back to not entered |
| TicketService.AdmitTwice | services/ticket.go:121-130 | after a successful admission, a second one on the same ticket fails with `ErrTicketAlreadyUsed` |
| EventService.Utf8Length | services/event.go:76 | Go's byte length of a string lies between its character count and four times that |
| EventService.AsciiLength | services/event.go:76 | an ASCII name's byte length is its character count |
| EventService.TwoCharacterNameCanPass | services/event.go:76 | the length check counts bytes, so a two-character name with a non-ASCII letter passes |
| EventService.PatchProblem | services/event.go:75-95 | a patch is refused exactly when it sets a name shorter than 3 bytes or a date before now; the name is checked first |
| EventService.EmptyPatchAccepted | services/event.go:73-104 | a patch that sets nothing is never refused |
| EventService.Merge | services/event.go:73-100 | each field the patch sets takes the patch's value, each field it leaves nil keeps its current value, and the id is kept |
| EventService.DiffersIffMergeChanges | services/event.go:73-104 | the change flag is set exactly when merging the patch changes the event |
| EventService.MergeIdempotent | services/event.go:73-100 | merging the same patch twice is merging it once, and the second time detects no change |
| EventService.EventService.constructor | services/event.go:17-19 | a service over the given event directory |
| EventService.EventService.GetMany | services/event.go:21-27 | any store error becomes `InternalError`; otherwise all events |
| EventService.EventService.GetOne | services/event.go:29-38 | a missing event stays `ErrRecordNotFound`, any other error becomes `InternalError` |
| EventService.EventService.CreateOne | services/event.go:40-46 | any store error becomes `InternalError` and nothing is stored |
| EventService.EventService.UpdateOne | services/event.go:48-57 | a missing event stays `ErrRecordNotFound`, any other error becomes `InternalError`; failures change nothing |
| EventService.EventService.DeleteOne | services/event.go:115-124 | a missing event stays `ErrRecordNotFound`, any other error becomes `InternalError`; failures change nothing |
| EventService.EventService.PatchOne | services/event.go:59-114 | a lookup not-found gives `ErrRecordNotFound`, another lookup error `InternalError`; a nil patch returns the current event; a short name or a past date gives the validation error; a patch that changes nothing returns the current event; in all these cases nothing is written; otherwise the merged event is stored, or a failed update gives `InternalError` |
| Httpx.MapErrorToResponse | httpx/error_response.go:10-47 | not-found gives 404 "Resource not found"; otherwise validation, ticket-already-used, event-not-found and user-already-exists give 400 with the error's own text; everything else gives 500 "Internal server error"; the first matching case wins |
| Httpx.ValidationEchoed | httpx/error_response.go:18-22 | a validation error answers 400 with its whole text |
| Httpx.SentinelResponses | httpx/error_response.go:11-46 | the answer for each sentinel; the auth sentinels other than user-already-exists fall to 500 |
| Httpx.FirstMatchWins | httpx/error_response.go:11-22 | an error wrapping both not-found and validation answers 404 |
| Httpx.OpaqueIsInternal | httpx/error_response.go:41-45 | an error that wraps no known sentinel answers like `InternalError` |
| Middleware.Split | middleware/auth_protected.go:21 | `strings.Split`: at least one piece, and no piece contains the separator |
| Middleware.SplitJoin | middleware/auth_protected.go:21 | joining the pieces with the separator gives the string back |
| Middleware.SplitNoSep | middleware/auth_protected.go:21 | a string without the separator is a single piece |
| Middleware.SplitAround | middleware/auth_protected.go:21 | a separator-free prefix, the separator and a rest split into the prefix followed by the rest's pieces |
| Middleware.BearerToken | middleware/auth_protected.go:21-29 | an accepted header is exactly "Bearer ", then the token, and the token contains no space |
| Middleware.BearerTokenExact | middleware/auth_protected.go:21-29 | the header is accepted with token t exactly when it is "Bearer " followed by t and t contains no space |
| Middleware.LowercaseSchemeRejected | middleware/auth_protected.go:22 | the scheme is case-sensitive: "bearer " is refused |
| Middleware.AuthProtected | middleware/auth_protected.go:11-55 | an empty header gives 401 "Authorization header missing"; a malformed header gives 401 "Invalid token format"; a token that fails validation gives 401 "Invalid or expired token"; the request passes exactly when the token validates, with `user_id` set from `sub` and `role` stored |
| Middleware.AuthProtectedAdmits | middleware/auth_protected.go:11-55 | a request that passes carries a "Bearer " header whose token validates |
| Middleware.RoleProtected | middleware/auth_protected.go:57-71 | the request continues exactly when the user's role is among the allowed roles, so an empty list always refuses; otherwise 403 |

## Left out

- QR-code generation and its base64 step in the ticket service's `GetOne` (services/ticket.go:53-63) are a foreign library. The modelled `GetOne` returns the ticket alone, and the failure branch of the QR step is not modelled.
- bcrypt, HS256 signing, JWT parsing and signature or expiry verification, and `crypto/rand` are cryptography. They are the parameters `Hasher`, `Comparator`, `Signer`, `JwtLibrary` and `entropy`. Nothing is assumed about them beyond determinism within one call.
- JSON encoding of the refresh-token record in Redis, and the JSON bodies of responses, are not modelled. The stored record is the value itself, so the round trip is exact by construction.
- Logging (`slog`) has no behaviour to model.
- `Jwt.RandRead`: the source either fails outright, leaving the buffer as it was, or yields a finite run of bytes. A source that yields some bytes and then fails is not modelled.
- Concurrency is not modelled. Concurrent gate scans can both read `Entered == false` before either writes. Everything is modelled single-threaded.
- Context timeouts are not modelled. A per-call `fault` stands for any failure of that call.
- The type assertions on claims that can panic (middleware/auth_protected.go:41-42, 59) are not modelled. Claims are typed, so `sub` is a natural number and `role` a string. The conversion of `sub` through `float64` is taken to be exact.
- `Middleware.AuthProtected`: the "Invalid token claims" branch is kept. It is never taken after a successful validation, because the modelled `ValidateToken` marks every token it accepts as valid.
- Clock reads are replaced by the parameter `now`. `Login`, `RefreshToken` and `GenerateTokens` read the clock several times; the model uses one `now` per call.
- go-redis sends a key set with a time-to-live of zero or less without expiry. That behaviour belongs to the client library, not to the modelled file; the model follows it in `TokenStore.ExpiryFor`.
- `Tickets.ApplyUpdate`: price, seat number and status have no column on the ticket record (models/ticket.go:10-17). The update therefore applies only `Entered`. GORM `Updates`/`Returning` semantics are not modelled.
- `TicketService.CheckUpdateInput`: a price is a real number. NaN and the infinities are not modelled; a NaN price would pass the Go check.
- The ticket directory is an abstract store that keeps an owner per ticket. The repository in repositories/ticket.go keeps no owner, while the services call it with a user id. The event that a ticket row preloads, and all `CreatedAt`/`UpdatedAt` timestamps, are dropped.
- `Tickets.TicketStore.GetMany` and `Events.EventStore.GetMany` return sets. The `updated_at DESC` ordering and the aggregated ticket counts of repositories/event.go:22-29 are not modelled.
- `UserDto.ValidRegisterRequest`: the validator's `email` format rule is reduced to "non-empty".
- The error texts of `ErrTicketAlreadyUsed` and `ErrEventNotFound` are placeholders. Their declarations are not part of this model. Their status codes do not depend on the text.
- The error returned by the `Update` call inside `AfterCreate` is ignored by the code and is not modelled.
- `Register` writes the hash into the caller's `registerData` in place, so the caller's struct is changed. The model passes a copy with the hash; this aliasing is not captured.
- `Tickets.TicketStore.CreateOne` and `Events.EventStore.CreateOne` ignore an id supplied in the request body and always assign the next id. GORM's `Create` would insert a given non-zero id as it is, or fail on a duplicate key; that path is not modelled.
- `Ctx.Locals` is modelled as the map a `Next` step hands on, not as a mutable request object.
- The handlers (handlers/*.go), `cmd/api/main.go`, configuration, database setup and migrations are HTTP and process plumbing. The handlers' own inline error-to-status branches are not modelled.
- A ticket's `Entered` flag is whatever the request body gives, and `false` when the body leaves it out. The `default:"false"` tag is not a GORM tag and has no effect.
