# In-memory account and post service: a Dafny model

This project models the core of a small REST backend written in Rust with axum.
Clients sign up and log in with an email and password. They receive a signed
bearer token that is valid for 24 hours. With that token they can read their
profile, create posts and delete their own posts. Anyone can list posts a page
at a time, newest first, or fetch one post by id.

All state lives in one shared `AppState`. It holds three concurrent maps: users
by id, posts by id, and an email → user-id index. The repository carries the
logic twice: inline in `api/src/main.rs`, and split into `routes/user.rs`,
`routes/post.rs`, `auth.rs`, `errors.rs` and `dto/`. The two copies are
identical line for line, so the table below cites the split files, plus
`main.rs` for the state set up at start-up.

Modules, one per part of the source:

- `Wrappers`: `Option` and `Result`.
- `Models`: `Uuid`, `User`, `Post`, `Claims` (from `models/`, `states.rs` and `auth.rs`).
- `Foreign`: the `Crates` record. It holds the library functions the handlers
  call but the model does not look inside: email-format check, validation
  error text, bcrypt verify, JWT encode/decode, Uuid text and parse, and
  chrono's latest instant. Every handler is stated for every behaviour of
  these functions, except that a validation error's text is one text per set of
  failing fields and their values (see "Left out"). A property that needs a library to behave takes that
  behaviour as a named hypothesis (`JwtRoundTrips`, `JwtTokensVisible`,
  `JwtRejectsExpired`, `UuidTextRoundTrips`).
- `Errors`: the `ApiError` taxonomy and `into_response`.
- `Requests`: the validation rules of the request bodies.
- `Responses`: `UserResponse`, the `User` → `UserResponse` projection, and the pagination defaults.
- `Auth`: token issue (`create_token`) and header validation (`validate_token`).
- `Paging`: newest-first order, the in-place sort, and the page window.
- `Store`: the class `AppState` with its three maps and its `Valid()` invariant, plus every handler.
  - Handlers that change the store (`Signup`, `CreatePost`, `DeletePost`) are methods.
  - `DeletePostAsWritten` models the delete handler exactly as written; it
    blocks on the owner path (see "Findings"). `DeletePost` is the corrected
    handler.
  - Read-only lookup chains (`Login`, `GetCurrentUser`, `GetPost`) are functions that read the object.
  - `GetPosts` is a method: it collects the posts, sorts them in an array in place, then slices a page.

`Valid()` states three things:
- every index entry points to a stored user with that exact email;
- every user's email is indexed back to its own id;
- every user and every post is stored under its own id.

Random ids (`Uuid::new_v4`), clock readings (`Utc::now`) and the outcome of
bcrypt's salted `hash` are parameters of the handlers. A fresh id must not
already be a key of its map. Each separate clock reading is its own parameter:
signup reads the clock once for `created_at` and again inside `create_token`.

Four behaviours of the code are easy to expect otherwise; the model keeps each
one as written:
- A caller who is not a post's owner gets the same 401 `Unauthorized` as an
  unauthenticated caller, not a distinct 403.
- Page 0 is accepted and means page 1.
- Signup checks the index and inserts as two separate steps, not as one atomic
  reservation. The model runs each handler as one sequential step.
- A token is accepted until 60 seconds past its expiry. This is the default
  leeway of `jsonwebtoken`'s validation (`JwtRejectsExpired`).

## Model

| member | source | states |
|---|---|---|
| `Errors.IntoResponse` | api/src/errors.rs:22-52 | Total; status is one of 400/401/404/409/500; 401 exactly for InvalidCredentials and Unauthorized, 409 exactly for UserAlreadyExists, 404 exactly for NotFound, 400 exactly for ValidationError, 500 exactly for InternalError; a validation message is the body verbatim, every other body is a fixed text |
| `Errors.FixedResponses` | api/src/errors.rs:24-28 | InvalidCredentials → (401, "Invalid credentials"), UserAlreadyExists → (409, "User already exists"), Unauthorized → (401, "Unauthorized"), NotFound → (404, "Not Found") |
| `Errors.InternalDetailHidden` | api/src/errors.rs:38-41 | Any two internal errors give the same response (500, "Internal server error"): the detail never reaches the caller |
| `Requests.SignupFailures` | api/src/dto/requests.rs:4-12 | A signup is valid iff the email passes the format check, the username has 3..=20 characters and the password 8..=100; each failing rule names its field and carries the value it rejected |
| `Requests.LoginFailures` | api/src/dto/requests.rs:14-19 | A login is valid iff the email passes the format check; a failure names the email field and carries the rejected email |
| `Requests.LoginPasswordUnchecked` | api/src/dto/requests.rs:17-18 | The password of a login request has no constraint: changing it never changes validation |
| `Requests.CreatePostFailures` | api/src/dto/requests.rs:21-27 | A post is valid iff the title has 1..=200 characters and the content 1..=5000; each failing rule names its field and carries the value it rejected |
| `Responses.FromUser` | api/src/dto/responses.rs:19-28 | The profile has the user's id, email, username and creation time |
| `Responses.HashNeverExposed` | api/src/dto/responses.rs:11-17 | The profile does not depend on the password hash, so the hash is never revealed |
| `Responses.ParamsFromQuery` | api/src/dto/responses.rs:30-44 | A missing page is 1, a missing limit is 10, supplied values are kept |
| `Auth.Expiration` | api/src/auth.rs:16-19 | Fails exactly when now + 24h is past chrono's range; otherwise is now + 86400 wrapped into usize, equal to now + 86400 when that fits |
| `Auth.CreateToken` | api/src/auth.rs:15-33 | Fails only with InternalError; succeeds exactly when the expiry is computable and encoding succeeds, and the token is the encoding of claims with sub = the id's text, the given email and exp = the expiry |
| `Auth.HeaderText` | api/src/auth.rs:36-39 | The header is readable as text exactly when every byte is visible ASCII or tab, and then the text has the same characters |
| `Auth.HeaderTextRoundTrip` | api/src/auth.rs:36-39 | Visible text sent as bytes is read back unchanged |
| `Auth.BearerToken` | api/src/auth.rs:41-46 | A token is extracted exactly when the header is present, readable and starts with the case-sensitive "Bearer ", and the header is then "Bearer " followed by the token, untrimmed |
| `Auth.ValidateToken` | api/src/auth.rs:35-55 | Every failure is Unauthorized; without a bearer token it fails whatever the decoder does; it succeeds exactly when the decoder accepts the extracted token, returning the decoded claims |
| `Auth.Authenticate` | api/src/routes/post.rs:97-98 | Every failure is Unauthorized; succeeds exactly when the token validates and its subject parses as an id, returning that id |
| `Auth.TokenRoundTrip` | api/src/auth.rs:15-55 | Under the JWT round-trip hypothesis, a header holding "Bearer " and a token issued at t validates, until t + 24h, to claims (id text, email, t + 86400) |
| `Auth.BearerHeaderFor` | api/src/auth.rs:42-46 | For a visible token, the bytes of "Bearer " + token read back as that text |
| `Auth.AuthenticateIssued` | api/src/auth.rs:15-25 | Under the JWT and Uuid hypotheses, the issued token authenticates as exactly the user id it was issued for |
| `Auth.ExpiredTokenRejected` | api/src/auth.rs:48-54 | Under the expiry hypothesis, no token is accepted more than 60 s after the exp it carries |
| `Paging.Window` | api/src/routes/post.rs:62-70 | A page is never longer than the limit |
| `Paging.WindowIsSlice` | api/src/routes/post.rs:63-70 | A page is the slice [start, min(start + limit, total)) of the listing, where start = (page saturating_sub 1) * limit; it is empty when start >= total |
| `Paging.PageZeroIsPageOne` | api/src/routes/post.rs:63 | Page 0 and page 1 are the same page |
| `Paging.WindowNewestFirst` | api/src/routes/post.rs:59-68 | A page of a newest-first listing is newest first |
| `Paging.PagesCover` | api/src/routes/post.rs:63-68 | Pages 1..n read in turn give exactly the first min(n * limit, total) posts of the listing, in order, none repeated or skipped |
| `Paging.SwapWithPrevious` | api/src/routes/post.rs:60 | Exchanges two neighbours, leaves the rest alone, and permutes the array |
| `Paging.InsertNewest` | api/src/routes/post.rs:60 | Extends the newest-first prefix by one element and permutes the array |
| `Paging.SortNewestFirst` | api/src/routes/post.rs:59-60 | After sorting, created_at never increases along the array, and the array is a permutation of what it was |
| `Store.AppState.constructor` | api/src/main.rs:474-479 | The start-up state: all three maps empty, the secret stored, the invariant established |
| `Store.AppState.EmailsUnique` | api/src/states.rs:17-22 | In a valid store no two users share an email |
| `Store.AppState.Signup` | api/src/routes/user.rs:17-51 | Keeps Valid and never touches posts. Invalid input gives ValidationError and a taken email (exact match) gives UserAlreadyExists. Every failure leaves the store unchanged, including hash or token failure, which are InternalError. On success, index = old index plus email ↦ fresh id and users = old users plus fresh id ↦ new user. The response carries the token created for that id and email, and the new user's profile |
| `Store.AppState.Login` | api/src/routes/user.rs:55-91 | Invalid email gives ValidationError. An unindexed email, a dangling index entry or a password that does not verify all give InvalidCredentials. A failing verifier gives InternalError carrying its message, a token that cannot be made gives InternalError, and no other error kind occurs. Success holds exactly when the indexed user exists, the password verifies and a token is made. It returns that token, issued for the stored user's id and email, and the stored user's profile |
| `Store.AppState.LoginOfRegisteredUser` | api/src/routes/user.rs:63-83 | In a valid store, logging in with a stored user's email returns that user when the password verifies, and InvalidCredentials when it does not |
| `Store.AppState.LoginOfUnknownEmail` | api/src/routes/user.rs:63-67 | In a valid store, an email no user has gives InvalidCredentials |
| `Store.AppState.GetCurrentUser` | api/src/routes/user.rs:95-105 | A bad token or unparsable subject gives Unauthorized; an authenticated id with no user gives NotFound; otherwise the stored user's profile |
| `Store.AppState.IssuedTokenIdentifiesUser` | api/src/routes/user.rs:99-104 | Under the JWT and Uuid hypotheses, "Bearer " + the token issued for a stored user returns that user's profile from /users/me until the token expires |
| `Store.AppState.GetPost` | api/src/routes/post.rs:81-88 | The stored post for a present id, NotFound otherwise |
| `Store.AppState.CreatePost` | api/src/routes/post.rs:21-46 | Keeps Valid and never touches users or the index. Validates before authenticating: invalid input gives ValidationError, a bad token gives Unauthorized, and both leave posts unchanged. On success: status 201, exactly one new post under the fresh id, owned by the token's subject, other posts unchanged, and fetchable by GetPost |
| `Store.AppState.CollectPosts` | api/src/routes/post.rs:53-57 | The collected sequence lists every stored post exactly once (same length, same multiset of posts) |
| `Store.AppState.GetPosts` | api/src/routes/post.rs:49-78 | data is the requested page of a newest-first permutation of all posts. So data is newest first, at most limit long, drawn from the stored posts, and empty when the page starts at or past the end. total is the number of posts; page and limit are echoed |
| `Store.RemoveHolding` | api/src/routes/post.rs:107 | `remove` while holding a guard: it waits forever exactly when the caller holds the key's shard; otherwise it removes exactly that key and keeps every other entry |
| `Store.AppState.DeletePostAsWritten` | api/src/routes/post.rs:92-112 | The handler as written: a bad token gives Unauthorized, a missing id NotFound and a non-owner Unauthorized, each with posts unchanged; it can block only on the owner path |
| `Store.AppState.OwnerDeleteBlocks` | api/src/routes/post.rs:100-107 | As written, the owner's delete blocks and the post stays fetchable; every answer the handler gives is an error with posts unchanged |
| `Store.AppState.DeletePost` | api/src/routes/post.rs:92-112 | Keeps Valid and never touches users or the index. Authenticates first (Unauthorized), then a missing id gives NotFound, then a caller other than the owner gives Unauthorized. Every failure leaves posts unchanged. Success happens exactly for the owner: status 204, exactly that id removed, and a later GetPost on it gives NotFound |

## Left out

- Concurrency. `DashMap`, `Arc` and parallel requests are not modelled. Each
  handler runs as one sequential step. So the check-then-insert race between
  two concurrent signups with the same email is not captured. The one lock
  modelled is the shard lock a single delete takes on itself (see "Findings").
- bcrypt. `hash` is a random, salted, CPU-bound library call. Its outcome is a
  parameter of `Signup`. `verify` is a function in `Foreign.Crates`.
- JWT internals. The token format (RFC 7519), HS256 signing (section 3.2 of
  RFC 7518), base64url and the library's default validation are not modelled.
  `encode` and `decode` are functions in `Foreign.Crates`. Their round trip and
  expiry check are hypotheses of the lemmas that need them. The model makes
  no claim that a tampered token or a token from another secret is rejected.
- Uuid. `Uuid::new_v4` is a fresh-id parameter. The text form and its parsing
  are functions in `Foreign.Crates`, linked by the `UuidTextRoundTrips`
  hypothesis.
- Clock. `Utc::now` is a parameter at each reading.
- Validator. The email-format rule of the `validator` crate is a function in
  `Foreign.Crates`. So is the text of a validation error, computed from each
  failing field and the value it rejected. The crate lists the failing fields
  in hash-map order, which is not fixed from run to run. The model gives one
  text per failure map, so that varying order is not modelled.
- HTTP plumbing. axum routing, extractors, JSON (de)serialisation, CORS,
  `tracing` logging, dotenv/environment start-up and `axum::serve` are not
  modelled. Responses are datatypes.
- Header lookup. `HeaderMap::get` is given as its result, the optional value
  of the Authorization header. Header-name matching and repeated headers are
  not modelled.
- `health_check` only reads the system clock.
- Store.AppState.GetPosts: page start and end are unbounded naturals, so the
  usize overflow of `(page - 1) * limit` and `start + limit` (a panic or a
  wrap) is not modelled.
- Store.AppState.Signup: a fresh id is assumed absent from the user table.
  This stands for the uniqueness of `Uuid::new_v4`. An id collision would
  overwrite a user.
- Store.AppState.CreatePost: a fresh id is assumed absent from the post
  table, for the same reason.

## Findings

| source | as written | input that shows it | evidently intended | confidence | as-written member | corrected member |
|---|---|---|---|---|---|---|
| api/src/routes/post.rs:100-107 | `post`, the guard returned by `posts.get(&id)`, lives to the end of the handler, so it still holds its shard's read lock when `posts.remove(&id)` asks for that shard's write lock; `DashMap` documents that `remove` may deadlock while the caller holds a reference into the map | a valid bearer token of a post's owner and that post's id | release the guard (copy the owner out of it) before `remove`; the post is removed and the answer is 204 | not executed | `Store.AppState.DeletePostAsWritten`, `Store.AppState.OwnerDeleteBlocks` | `Store.AppState.DeletePost` |
