/**
 * The user router: the registration and login rule lists, the guard that
 * answers 400 before the controller runs, and `/me` behind `authenticateToken`.
 */
module UserRoutes {
  import opened Wrappers
  import opened Http
  import opened Validation
  import opened UserController
  import Auth

  const RegistrationChains: seq<Chain> := [
    Chain(Body, "username", false, [Length(3, None, "Username must be at least 3 characters long")]),
    Chain(Body, "email", false, [Email("Must be a valid email address")]),
    Chain(Body, "password", false, [Length(6, None, "Password must be at least 6 characters long")])
  ]

  const LoginChains: seq<Chain> := [
    Chain(Body, "username", false, [NotEmpty("Username is required")]),
    Chain(Body, "password", false, [NotEmpty("Password is required")])
  ]

  function Field(input: Input, path: string): string {
    Lookup(input, Body, path).GetOr("")
  }

  /** Registration needs a username of at least 3 characters, an address the
      email check accepts and a password of at least 6 characters. */
  lemma RegistrationRulesIff(input: Input, isEmail: EmailCheck)
    ensures Errors(RegistrationChains, input, isEmail) == [] <==>
      |Field(input, "username")| >= 3 && isEmail(Field(input, "email")) && |Field(input, "password")| >= 6
  {
    var c := RegistrationChains;
    ErrorsOfThree(c[0], c[1], c[2], input, isEmail);
    OneRuleIff(Body, "username", c[0].rules[0], input, isEmail);
    OneRuleIff(Body, "email", c[1].rules[0], input, isEmail);
    OneRuleIff(Body, "password", c[2].rules[0], input, isEmail);
  }

  /** Login needs a non-empty username and a non-empty password. */
  lemma LoginRulesIff(input: Input, isEmail: EmailCheck)
    ensures Errors(LoginChains, input, isEmail) == [] <==> Field(input, "username") != "" && Field(input, "password") != ""
  {
    var c := LoginChains;
    ErrorsOfTwo(c[0], c[1], input, isEmail);
    OneRuleIff(Body, "username", c[0].rules[0], input, isEmail);
    OneRuleIff(Body, "password", c[1].rules[0], input, isEmail);
  }

  /** POST /register: the rules, `handleValidationErrors`, then `registerUser`. */
  method Register(store: UserStore, input: Input, isEmail: EmailCheck, hash: Hasher) returns (r: Response<string>)
    requires store.Valid()
    modifies store
    ensures store.Valid()
    ensures Errors(RegistrationChains, input, isEmail) != [] ==>
      r == Invalid(Errors(RegistrationChains, input, isEmail)) && unchanged(store)
    ensures Errors(RegistrationChains, input, isEmail) == [] && Taken(old(store.users), Field(input, "username"), Field(input, "email")) ==>
      r == Error(400, "Username or email already exists") && unchanged(store)
    ensures Errors(RegistrationChains, input, isEmail) == [] && !Taken(old(store.users), Field(input, "username"), Field(input, "email")) ==>
      && r == Done(201, "User registered successfully")
      && store.users == old(store.users)[old(store.nextId) :=
           Entities.User(old(store.nextId), Field(input, "username"), Field(input, "email"), hash(Field(input, "password")), false)]
  {
    var verdict := Guard(Errors(RegistrationChains, input, isEmail));
    if verdict.Rejected? {
      return Invalid(verdict.errors);
    }
    r := store.RegisterUser(Field(input, "username"), Field(input, "email"), Field(input, "password"),
                            Field(input, "isAdmin") == "true", hash);
  }

  /** POST /login: the rules, `handleValidationErrors`, then `loginUser`. */
  method Login(store: UserStore, input: Input, isEmail: EmailCheck, compare: Comparer, sign: Signer)
    returns (r: Response<LoginBody>)
    requires store.Valid()
    ensures Errors(LoginChains, input, isEmail) != [] ==> r == Invalid(Errors(LoginChains, input, isEmail))
    ensures Errors(LoginChains, input, isEmail) == [] ==> r.Done? || r == Error(400, "Invalid username or password")
    ensures forall k :: (Errors(LoginChains, input, isEmail) == [] && k in store.users
      && store.users[k].username == Field(input, "username") && compare(Field(input, "password"), store.users[k].passwordHash)) ==>
      r == Done(200, LoginBody("Logged in successfully", sign(k)))
  {
    var verdict := Guard(Errors(LoginChains, input, isEmail));
    if verdict.Rejected? {
      return Invalid(verdict.errors);
    }
    r := store.LoginUser(Field(input, "username"), Field(input, "password"), compare, sign);
  }

  /** GET /me: `authenticateToken`, then `getUserInfo` for the token's user. */
  method Me(store: UserStore, authorization: Option<string>, verify: Auth.Verifier) returns (r: Response<UserInfo>)
    requires store.Valid()
    ensures Auth.Decide(authorization, verify) == Auth.Unauthorized ==> r == Error(401, "Unauthorized")
    ensures Auth.Decide(authorization, verify) == Auth.Forbidden ==> r == Error(403, "Forbidden")
    ensures Auth.Decide(authorization, verify).Authenticated? ==>
      var id := Auth.Decide(authorization, verify).userId;
      && (id !in store.users ==> r == Error(404, "User not found"))
      && (id in store.users ==> r == Done(200, Strip(store.users[id])))
  {
    var req := new Auth.Request(authorization);
    Auth.AuthenticateToken(req, verify);
    if req.nextCalls == 0 {
      var status := req.sentStatus.GetOr(500);
      return Error(status, if status == 401 then "Unauthorized" else "Forbidden");
    }
    r := store.GetUserInfo(req.userId.GetOr(0));
  }

  /** Register, log in with the same password, then fetch `/me` with the
      returned token: the profile is the new user's, without admin rights. */
  method RegisterLogInFetchProfile(store: UserStore, username: string, email: string, password: string,
                                   hash: Hasher, compare: Comparer, sign: Signer, verify: Auth.Verifier)
    returns (profile: Response<UserInfo>)
    requires store.Valid() && !Taken(store.users, username, email)
    requires compare(password, hash(password))
    requires forall id :: verify(sign(id)) == Some(id) && sign(id) != "" && ' ' !in sign(id)
    modifies store
    ensures profile == Done(200, UserInfo(old(store.nextId), username, email, false))
  {
    var registered := store.RegisterUser(username, email, password, true, hash);
    var id := store.nextId - 1;
    assert id in store.users && store.users[id].username == username;
    var login := store.LoginUser(username, password, compare, sign);
    assert login == Done(200, LoginBody("Logged in successfully", sign(id)));
    Auth.SignedTokenAuthenticates(sign(id), verify, id);
    profile := Me(store, Some("Bearer " + login.body.token), verify);
  }
}
