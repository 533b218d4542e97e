/** Clients that drive the controllers the way a browser does, and what the
    code answers at each step. */
module Scenarios {
  import opened Web
  import opened JavaText
  import opened UserModel
  import opened Service
  import opened Auth
  import opened Game

  /** A second registration under a taken id, with any non-blank password,
      is refused and leaves the first password in place. */
  method DuplicateRegistration(auth: AuthController, userId: string, password: string, other: string)
    returns (first: View, second: View)
    requires auth.userService.Valid()
    requires !IsBlank(userId) && !IsBlank(password) && !IsBlank(other)
    requires userId !in auth.userService.users
    modifies auth.userService
    ensures first == View(RedirectRegistered, map[])
    ensures second == View(RegisterView, map["error" := DuplicateMessage])
    ensures userId in auth.userService.users
    ensures auth.userService.users[userId].password == auth.userService.encoder.encode(password)
  {
    first := auth.Register(userId, password);
    second := auth.Register(userId, other);
  }

  /** A logged-in host creates a room; two other users both join it (the
      code has no room-full check) and the host is refused its own room. */
  method PairingScenario(game: GameController, host: Session, first: Session, second: Session)
    returns (code: string, joins: seq<JoinResponse>)
    requires host.userId.Some? && first.userId.Some? && second.userId.Some?
    requires first.userId != host.userId && second.userId != host.userId
    modifies game
    ensures IsRoomCode(code) && code in game.activeRooms && game.activeRooms[code] == host.userId
    ensures joins == [Joined(code, host.userId.value), Joined(code, host.userId.value),
                      Rejected(SelfJoinMessage)]
  {
    var created := game.CreateRoom(host);
    code := created["roomId"];
    var j1 := game.JoinRoom(code, first);
    var j2 := game.JoinRoom(code, second);
    var j3 := game.JoinRoom(code, host);
    joins := [j1, j2, j3];
  }

  /** Registers a user whose id and password are not blank and who is not
      yet registered, then logs them in on a new session; the id is kept
      untrimmed. */
  method RegisterAndLogIn(auth: AuthController, userId: string, password: string)
    returns (registered: View, login: View, session: Session)
    requires auth.userService.Valid() && Sound(auth.userService.encoder)
    requires !IsBlank(userId) && !IsBlank(password)
    requires userId !in auth.userService.users
    modifies auth.userService
    ensures auth.userService.Valid()
    ensures registered == View(RedirectRegistered, map[])
    ensures login == View(RedirectLobby, map[])
    ensures fresh(session) && session.userId == Some(userId)
    ensures auth.userService.users ==
      old(auth.userService.users)[userId := User(userId, auth.userService.encoder.encode(password))]
  {
    ghost var row := User(userId, auth.userService.encoder.encode(password));
    registered := auth.Register(userId, password);
    assert auth.userService.users[userId] == row;
    assert auth.userService.ValidateUser(userId, password);
    session := new Session();
    login := auth.Login(userId, password, session);
  }

  /** A room created without logging in stores a null host; joining it makes
      `hostUserId.equals` throw. */
  method AnonymousRoomScenario() returns (lobby: View, join: JoinResponse)
    ensures lobby == View(RedirectToLogin, map[])
    ensures join == NullPointerFailure
  {
    var game := new GameController();
    var anonymous := new Session();
    lobby := game.Lobby(anonymous);
    var created := game.CreateRoom(anonymous);
    var guest := new Session();
    join := game.JoinRoom(created["roomId"], guest);
  }

  /** A logged-in session sees the lobby; after logout it is sent to the login page. */
  method LogoutScenario(auth: AuthController, game: GameController, session: Session)
    returns (before: View, after: View)
    requires session.userId.Some?
    modifies session
    ensures before == View(LobbyView, map["userId" := old(session.userId).value])
    ensures after == View(RedirectToLogin, map[])
  {
    before := game.Lobby(session);
    var out := auth.Logout(session);
    after := game.Lobby(session);
  }
}
