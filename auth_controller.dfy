/** AuthController: the login, registration and logout handlers over
    UserService and the HTTP session. */
module Auth {
  import opened Web
  import opened JavaText
  import opened UserModel
  import opened Service

  const LoginView := "auth/login"
  const RegisterView := "auth/register"
  const RedirectRegistered := "redirect:/login?registered"
  const RedirectLobby := "redirect:/lobby"

  const RequiredMessage := "ユーザーIDとパスワードは必須です"
  const DuplicateMessage := "そのユーザーIDはすでに使用されています"
  const BadCredentialsMessage := "ユーザーIDまたはパスワードが正しくありません"

  class AuthController {
    const userService: UserService

    constructor (userService: UserService)
      ensures this.userService == userService
    {
      this.userService := userService;
    }

    /** index: the root URL always sends the client to the login page. */
    function Index(): (view: string)
      ensures view == RedirectToLogin
    {
      RedirectToLogin
    }

    /** loginPage: the login form. */
    function LoginPage(): (view: string)
      ensures view == LoginView
    {
      LoginView
    }

    /** registerPage: the registration form. */
    function RegisterPage(): (view: string)
      ensures view == RegisterView
    {
      RegisterView
    }

    /** register: blank input (after trim) is refused before the service is
        called; otherwise the outcome follows registerUser, with the
        untrimmed `userId` and `password`. */
    method Register(userId: string, password: string) returns (v: View)
      requires userService.Valid()
      modifies userService
      ensures userService.Valid()
      ensures IsBlank(userId) || IsBlank(password) ==>
        v == View(RegisterView, map["error" := RequiredMessage]) &&
        userService.users == old(userService.users)
      ensures !IsBlank(userId) && !IsBlank(password) && userId !in old(userService.users) ==>
        v == View(RedirectRegistered, map[]) &&
        userService.users == old(userService.users)[userId := User(userId, userService.encoder.encode(password))]
      ensures !IsBlank(userId) && !IsBlank(password) && userId in old(userService.users) ==>
        v == View(RegisterView, map["error" := DuplicateMessage]) &&
        userService.users == old(userService.users)
    {
      if IsBlank(userId) || IsBlank(password) {
        return View(RegisterView, map["error" := RequiredMessage]);
      }
      var success := userService.RegisterUser(userId, password);
      if success {
        v := View(RedirectRegistered, map[]);
      } else {
        v := View(RegisterView, map["error" := DuplicateMessage]);
      }
    }

    /** login: on valid credentials the session's `userId` becomes the
        submitted one; otherwise the session is untouched and the same error
        is shown whether the user is unknown or the password is wrong. */
    method Login(userId: string, password: string, session: Session) returns (v: View)
      modifies session
      ensures userService.ValidateUser(userId, password) ==>
        session.userId == Some(userId) && v == View(RedirectLobby, map[])
      ensures userId !in userService.users ==>
        session.userId == old(session.userId) && v == View(LoginView, map["error" := BadCredentialsMessage])
      ensures userId in userService.users &&
              !userService.encoder.matches(password, userService.users[userId].password) ==>
        session.userId == old(session.userId) && v == View(LoginView, map["error" := BadCredentialsMessage])
    {
      var isValid := userService.ValidateUser(userId, password);
      if isValid {
        session.userId := Some(userId);
        v := View(RedirectLobby, map[]);
      } else {
        v := View(LoginView, map["error" := BadCredentialsMessage]);
      }
    }

    /** logout: the session is invalidated, so no `userId` is left in it. */
    method Logout(session: Session) returns (view: string)
      modifies session
      ensures session.userId == None
      ensures view == RedirectToLogin
    {
      session.userId := None;
      view := RedirectToLogin;
    }
  }
}
