# Othello-Web lobby: a Dafny model

Othello-Web is a small Spring web application in which users register, log
in, and pair up in a lobby: one user creates a room and gets a six-digit code,
and another user joins with that code. This project models the three classes
that hold the lobby's logic and proves what they do:

- **GameController** (`game_controller.dfy`, module `Game`) keeps the room
  registry `activeRooms` in memory. The registry maps each room code to the
  host's session `userId`, which may be null. The class serves the lobby page,
  creates rooms and answers join requests. Joining is a read-only, three-way
  decision: the room is not found, the caller is the host, or the join
  succeeds. It records no guest, so the code never reports a room as full.
  A room created by a session with no logged-in user stores a null host.
  Joining such a room calls `equals` on null and throws. The model keeps that
  outcome as `NullPointerFailure`.
- **UserService** (`user_service.dfy`, module `Service`) registers users and
  checks passwords. Registration checks the `userId` and then inserts; a
  duplicate id is refused. Validation looks up the user, then asks the
  password encoder. The user repository is a map keyed by `userId`
  (`user_model.dfy`). Its invariant `Valid()` stores every record under its
  own `userId`, which is the column's uniqueness constraint.
- **AuthController** (`auth_controller.dfy`, module `Auth`) maps HTTP
  requests to view names. Registration rejects a blank id or password before
  calling the service. "Blank" means empty after Java's `String.trim()`,
  which strips every character at or below U+0020. A successful login writes
  the session's `userId`; a failed one leaves the session alone and shows the
  same message whatever the cause. Logout clears the session.

Supporting modules:

- `web.dfy` (module `Web`): `Option`, the `View` type (a view name plus the
  attributes set on the Spring `Model`), and `Session`. A `Session` is an
  `HttpSession` reduced to its `userId` attribute.
- `java_text.dfy` (module `JavaText`): the Java library behaviour the
  controllers depend on. It covers `trim()`/`isEmpty()`, and
  `String.valueOf(int)` for non-negative values, with round-trip lemmas. It
  also proves that the room-code format (six digits, no leading zero)
  describes exactly the numbers 100000–999999.
- `scenarios.dfy` (module `Scenarios`): client methods that drive several
  requests in a row, such as register, log in, create a room, join it twice,
  and log out.

Abstractions:

- `java.util.Random` becomes a nondeterministic draw in `[0, 900000)`.
- The BCrypt `PasswordEncoder` is a value `Encoder(encode, matches)` of two
  functions. The one property relied on, that `matches(p, encode(p))` holds,
  is the predicate `Sound`. It is a precondition wherever a proof needs it.
- The JPA repository is the map `users`.
- Spring's `Model` is the attribute map inside `View`.

### What the code does not do

Each of these is behaviour the code lacks, and the model keeps it that way:

- No guest is recorded and there is no room-full check
  (GameController.java:88-117). `Game.EveryOtherGuestJoins` and
  `Scenarios.PairingScenario` show that any number of distinct guests join
  the same room.
- There is no retry when a new code collides with an existing room:
  `createRoom` simply `put`s (GameController.java:70), overwriting the
  earlier host.
- `createRoom` and `joinRoom` never check for a login (GameController.java:64,
  90). An anonymous `createRoom` stores a null host
  (`Scenarios.AnonymousRoomScenario`), and an anonymous join of another
  user's room succeeds.
- BCrypt salts every hash (UserService.java:51, PasswordConfig.java:23), so
  two registrations with the same password store different hashes. The
  model's `encode` is a plain function, so salting is not captured (see
  below).

## Model

| member | source | states |
|---|---|---|
| `Game.GenerateRoomId` | src/main/java/com/example/controller/GameController.java:124-129 | for any draw in [0, 900000), the code is six decimal digits with no leading zero, and its value is in [100000, 999999] |
| `Game.GameController.constructor` | src/main/java/com/example/controller/GameController.java:29 | the registry starts empty |
| `Game.GameController.Lobby` | src/main/java/com/example/controller/GameController.java:40-51 | the lobby view is returned exactly when the session has a `userId`, and its model carries that `userId`; without one the answer is `redirect:/login` with an empty model |
| `Game.GameController.CreateRoom` | src/main/java/com/example/controller/GameController.java:62-76 | the new registry is the old one with the fresh code mapped to the session's `userId`, even when that is null; any older entry under the same code is overwritten and every other entry is kept; the response holds exactly the key `roomId`, bound to that code |
| `Game.GameController.JoinRoom` | src/main/java/com/example/controller/GameController.java:88-117 | each outcome holds exactly under its condition: not found iff the code is absent; self-join iff the stored host equals the caller; null-pointer failure iff the stored host is null; joined iff a non-null host differs from the caller, answering with the code and that host; as a function it cannot modify the registry |
| `Game.EveryOtherGuestJoins` | src/main/java/com/example/controller/GameController.java:88-117 | once one caller can join a room, every caller who is not its host gets the same successful answer |
| `JavaText.DecimalString` | src/main/java/com/example/controller/GameController.java:128 | `String.valueOf` of a non-negative number is a non-empty digit string that starts with `0` only for zero |
| `JavaText.ParseDecimalString` | src/main/java/com/example/controller/GameController.java:128 | parsing the printed number gives the number back |
| `JavaText.DecimalLength` | src/main/java/com/example/controller/GameController.java:127-128 | a number with k+1 digits prints as k+1 characters |
| `JavaText.DecimalStringParse` | src/main/java/com/example/controller/GameController.java:127-128 | a digit string of length k+1 with no leading zero has a value with k+1 digits, and printing that value gives the string back |
| `JavaText.RoomCodeOfNumber` | src/main/java/com/example/controller/GameController.java:127-128 | every number in [100000, 999999] prints as a room code that parses back to the number |
| `JavaText.RoomCodeIsNumber` | src/main/java/com/example/controller/GameController.java:127-128 | every room code is the printed form of exactly one number in [100000, 999999] |
| `JavaText.TrimStart` | src/main/java/com/example/controller/AuthController.java:78 | the result is a suffix of the input; everything dropped is at or below U+0020; the result does not start with such a character |
| `JavaText.TrimEnd` | src/main/java/com/example/controller/AuthController.java:78 | the result is a prefix of the input; everything dropped is at or below U+0020; the result does not end with such a character |
| `JavaText.Trim` | src/main/java/com/example/controller/AuthController.java:78 | the trimmed string is no longer than the input and neither starts nor ends with a character at or below U+0020 |
| `JavaText.LeadingCount` | src/main/java/com/example/controller/AuthController.java:78 | the number of characters `trim()` drops from the front is at most the length |
| `JavaText.TrimIsSlice` | src/main/java/com/example/controller/AuthController.java:78 | `trim()` keeps one contiguous slice and drops only characters at or below U+0020, on both sides |
| `JavaText.IsBlank` | src/main/java/com/example/controller/AuthController.java:78 | `s.trim().isEmpty()` holds exactly when every character of `s` is at or below U+0020 |
| `UserModel.KeyedTableHasUniqueIds` | src/main/java/com/example/model/User.java:25-26 | in a table that keeps the invariant, two distinct entries never share a `userId` |
| `Service.UserService.constructor` | src/main/java/com/example/service/UserService.java:28-31 | the service works on the injected repository as given, which may already hold rows, provided each row is stored under its own `userId`, and uses the given encoder |
| `Service.UserService.RegisterUser` | src/main/java/com/example/service/UserService.java:40-57 | returns true exactly when the `userId` was absent; then the table gains exactly one row, holding that id and `encode(password)`; otherwise the table is unchanged; the uniqueness invariant is preserved |
| `Service.UserService.FindByUserId` | src/main/java/com/example/service/UserService.java:65-67 | returns the stored row when the id is present and None (null) otherwise; under the invariant the row carries the id looked up; as a function it cannot modify the table |
| `Service.UserService.ValidateUser` | src/main/java/com/example/service/UserService.java:76-88 | true exactly when the id is present and the encoder's `matches` accepts the password against the stored hash; false for an unknown id |
| `Service.RegisterThenValidate` | src/main/java/com/example/service/UserService.java:40-88 | with an encoder for which `matches(p, encode(p))` holds, a successful registration followed by validation with the same password succeeds |
| `Auth.AuthController.constructor` | src/main/java/com/example/controller/AuthController.java:29-31 | the controller uses the given service |
| `Auth.AuthController.Index` | src/main/java/com/example/controller/AuthController.java:39-41 | the root URL always redirects to the login page |
| `Auth.AuthController.LoginPage` | src/main/java/com/example/controller/AuthController.java:49-51 | the login form view is `auth/login` |
| `Auth.AuthController.RegisterPage` | src/main/java/com/example/controller/AuthController.java:59-61 | the registration form view is `auth/register` |
| `Auth.AuthController.Register` | src/main/java/com/example/controller/AuthController.java:73-94 | a blank id or password gives `auth/register` with the required-fields error and leaves the table unchanged, without registering; otherwise a new id gives `redirect:/login?registered` and one new row with the untrimmed id and the encoded password, and a taken id gives `auth/register` with the duplicate-id error and no change |
| `Auth.AuthController.Login` | src/main/java/com/example/controller/AuthController.java:107-124 | valid credentials set the session's `userId` to the submitted id and redirect to the lobby; an unknown id and a wrong password both leave the session as it was and give the same `auth/login` view with the same error |
| `Auth.AuthController.Logout` | src/main/java/com/example/controller/AuthController.java:134-137 | afterwards the session holds no `userId`, and the answer is `redirect:/login` |
| `Scenarios.RegisterAndLogIn` | src/main/java/com/example/controller/AuthController.java:73-124 | with a sound encoder, registering a new non-blank id (kept untrimmed, so `" alice"` is its own id) and then logging in with the same password redirects to the lobby and puts the id in a fresh session |
| `Scenarios.DuplicateRegistration` | src/main/java/com/example/controller/AuthController.java:84-93 | the first registration of an id succeeds; a second one, with any non-blank password, gives the duplicate-id error and keeps the first password's hash |
| `Scenarios.PairingScenario` | src/main/java/com/example/controller/GameController.java:62-117 | after a logged-in host creates a room, two other users both join it and see that host, and the host is refused with the self-join message |
| `Scenarios.AnonymousRoomScenario` | src/main/java/com/example/controller/GameController.java:62-109 | a session with no user is refused the lobby but can still create a room; joining that room fails with a null-pointer failure |
| `Scenarios.LogoutScenario` | src/main/java/com/example/controller/AuthController.java:134-137 | a logged-in session sees the lobby with its `userId`; after logout the same session is redirected to the login page |

## Left out

- Spring wiring, annotations, the application entry point
  (`OthelloWebApplication.java`) and template rendering are not modelled; they
  are framework code with no logic of their own.
- BCrypt (`PasswordConfig.java`) is not modelled. `encode` and `matches` are
  arbitrary functions, constrained only by `Sound` where a proof needs it.
  Salting is not captured.
- Service.RegisterThenValidate: shows only that a matching password is
  accepted. That a different password is rejected depends on BCrypt, which is
  not modelled.
- The JPA repository (`UserRepository.java`) is a map. The entity's generated
  numeric `id` is left out because nothing in the core reads it.
  `existsByUserId` is `userId in users`, and `findByUserId` is map lookup.
- The random number generator is a nondeterministic choice. Its uniform
  distribution is not modelled.
- Concurrency on the unsynchronised `HashMap` is not modelled; the model is
  sequential. Requests that interleave on the registry are outside it, and
  the code has no locking to model.
- `HttpSession.invalidate()` is modelled as removing the `userId`. The
  servlet container's handling of an invalidated session object is not
  captured: later `getAttribute` calls on that object throwing, and a fresh
  session being issued on the next request.
- The JSON encoding of responses is not modelled. `JoinResponse` has one
  constructor per response shape: `Rejected` carries `success=false` and
  `message`; `Joined` carries `success=true`, `roomId` and `hostUserId`.
  `NullPointerFailure` stands for the HTTP 500 that the exception produces.
- Room-full enforcement, collision retry, room expiry and game logic are not
  modelled, because the code does not implement them.
