/** UserService: registration and credential checks over the user repository. */
module Service {
  import opened Web
  import opened UserModel

  class UserService {
    /** The rows of the user repository, keyed by `userId`. */
    var users: UserTable
    const encoder: Encoder

    ghost predicate Valid()
      reads this
    {
      KeyedByUserId(users)
    }

    /** The service over an injected repository, which may already hold rows. */
    constructor (users: UserTable, encoder: Encoder)
      requires KeyedByUserId(users)
      ensures Valid()
      ensures this.users == users && this.encoder == encoder
    {
      this.users := users;
      this.encoder := encoder;
    }

    /** registerUser: refuses an existing `userId`; otherwise saves one new
        row holding the encoded password. An existing row is never updated. */
    method RegisterUser(userId: string, password: string) returns (ok: bool)
      requires Valid()
      modifies this
      ensures Valid()
      ensures ok <==> userId !in old(users)
      ensures ok ==> users == old(users)[userId := User(userId, encoder.encode(password))]
      ensures !ok ==> users == old(users)
    {
      if userId in users {
        return false;
      }
      var user := User(userId, encoder.encode(password));
      users := users[userId := user];
      return true;
    }

    /** findByUserId: the stored row, or None (Java null). */
    function FindByUserId(userId: string): (r: Option<User>)
      reads this
      ensures r.Some? <==> userId in users
      ensures r.Some? ==> r.value == users[userId]
      ensures Valid() && r.Some? ==> r.value.userId == userId
    {
      if userId in users then Some(users[userId]) else None
    }

    /** validateUser: false for an unknown `userId`, otherwise the encoder's
        verdict on the stored hash (not string equality). */
    function ValidateUser(userId: string, password: string): (r: bool)
      reads this
      ensures r <==> userId in users && encoder.matches(password, users[userId].password)
    {
      match FindByUserId(userId)
      case None => false
      case Some(user) => encoder.matches(password, user.password)
    }
  }

  /** With an encoder that accepts a password against its own encoding, a
      user just registered validates with the same password. */
  method RegisterThenValidate(s: UserService, userId: string, password: string)
    returns (registered: bool, valid: bool)
    requires s.Valid() && Sound(s.encoder)
    modifies s
    ensures s.Valid()
    ensures registered ==> valid
  {
    registered := s.RegisterUser(userId, password);
    valid := s.ValidateUser(userId, password);
  }
}
