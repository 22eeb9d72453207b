/**
 * The user handlers over the user table: registration, login and the
 * profile read. bcrypt's `hash`/`compare` and jsonwebtoken's `sign` are
 * parameters.
 */
module UserController {
  import opened Wrappers
  import opened Entities
  import opened Http
  import Tables

  /** `bcrypt.hash(password, 10)` */
  type Hasher = string -> string
  /** `bcrypt.compare(password, hash)` */
  type Comparer = (string, string) -> bool
  /** `jwt.sign({ id }, secret, { expiresIn: '1h' })` */
  type Signer = int -> string

  /** A user without `password_hash`. */
  datatype UserInfo = UserInfo(id: int, username: string, email: string, isAdmin: bool)

  /** `{ message, token }` */
  datatype LoginBody = LoginBody(message: string, token: string)

  /** Keys run from 1 below the next key; usernames and emails are unique columns. */
  ghost predicate UsersWellFormed(users: map<int, User>, next: int) {
    && next >= 1
    && (forall k :: k in users ==> 1 <= k < next && users[k].id == k)
    && (forall i, j :: i in users && j in users && i != j ==>
          users[i].username != users[j].username && users[i].email != users[j].email)
  }

  /** `findOne({ where: [{ username }, { email }] })` finds a row. */
  predicate Taken(users: map<int, User>, username: string, email: string) {
    exists k :: k in users && (users[k].username == username || users[k].email == email)
  }

  /** `findOne({ where: { username } })`: the first row with that username. */
  function FindByUsername(users: map<int, User>, username: string, hi: int): (found: Option<User>)
    requires forall k :: k in users ==> 1 <= k < hi
    ensures found.None? <==> forall k :: k in users ==> users[k].username != username
    ensures found.Some? ==> found.value.username == username && found.value in users.Values
  {
    var ks := Tables.Ascending(users, (u: User) => u.username == username, hi);
    if |ks| == 0 then None else Some(users[ks[0]])
  }

  /** `const { password_hash, ...userInfo } = user` */
  function Strip(u: User): UserInfo {
    UserInfo(u.id, u.username, u.email, u.isAdmin)
  }

  /** The profile tells nothing about the password hash: users differing only in
      their hash have the same profile, and everything else is kept. */
  lemma StripHidesOnlyHash(u: User, v: User)
    ensures Strip(u) == Strip(v) <==>
      u.id == v.id && u.username == v.username && u.email == v.email && u.isAdmin == v.isAdmin
  {
  }

  /** With unique usernames, looking a stored user up by name finds exactly that user. */
  lemma FindStoredUser(users: map<int, User>, next: int, k: int)
    requires UsersWellFormed(users, next) && k in users
    ensures FindByUsername(users, users[k].username, next) == Some(users[k])
  {
    var found := FindByUsername(users, users[k].username, next);
    var j :| j in users && users[j] == found.value;
  }

  class UserStore {
    var users: map<int, User>
    var nextId: int

    ghost predicate Valid()
      reads this
    {
      UsersWellFormed(users, nextId)
    }

    constructor ()
      ensures Valid() && users == map[]
    {
      users := map[];
      nextId := 1;
    }

    /** registerUser: 400 if the username or the email is taken, else one new
        non-admin user holding the password's hash. The body's `isAdmin`
        is read by no one. */
    method RegisterUser(username: string, email: string, password: string, isAdmin: bool, hash: Hasher)
      returns (r: Response<string>)
      requires Valid()
      modifies this
      ensures Valid()
      ensures Taken(old(users), username, email) ==>
        r == Error(400, "Username or email already exists") && unchanged(this)
      ensures !Taken(old(users), username, email) ==>
        var u := User(old(nextId), username, email, hash(password), false);
        && r == Done(201, "User registered successfully")
        && u.id !in old(users)
        && users == old(users)[u.id := u]
        && nextId == old(nextId) + 1
    {
      if exists k :: k in users && (users[k].username == username || users[k].email == email) {
        return Error(400, "Username or email already exists");
      }
      var hashed := hash(password);
      var u := User(nextId, username, email, hashed, false);
      users := users[u.id := u];
      nextId := nextId + 1;
      r := Done(201, "User registered successfully");
    }

    /** loginUser: the same 400 for an unknown name and a wrong password;
        otherwise a token signed over the user's id. */
    method LoginUser(username: string, password: string, compare: Comparer, sign: Signer)
      returns (r: Response<LoginBody>)
      requires Valid()
      ensures r.Done? || r == Error(400, "Invalid username or password")
      ensures (forall k :: k in users ==> users[k].username != username) ==>
        r == Error(400, "Invalid username or password")
      ensures forall k :: k in users && users[k].username == username ==>
        (r.Done? <==> compare(password, users[k].passwordHash))
      ensures forall k :: k in users && users[k].username == username && r.Done? ==>
        r == Done(200, LoginBody("Logged in successfully", sign(k)))
    {
      var user := FindByUsername(users, username, nextId);
      if user.None? {
        return Error(400, "Invalid username or password");
      }
      ghost var k :| k in users && users[k] == user.value;
      forall j | j in users && users[j].username == username ensures j == k { }
      var validPassword := compare(password, user.value.passwordHash);
      if !validPassword {
        return Error(400, "Invalid username or password");
      }
      var token := sign(user.value.id);
      r := Done(200, LoginBody("Logged in successfully", token));
    }

    /** getUserInfo: 404 for an unknown id, else the user without the hash. */
    method GetUserInfo(userId: int) returns (r: Response<UserInfo>)
      requires Valid()
      ensures userId !in users ==> r == Error(404, "User not found")
      ensures userId in users ==> r == Done(200, Strip(users[userId]))
    {
      if userId !in users {
        return Error(404, "User not found");
      }
      r := Done(200, Strip(users[userId]));
    }
  }
}
