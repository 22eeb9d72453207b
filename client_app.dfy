/**
 * The client's own account screen state: a list of locally registered
 * users, the screen shown, and who is logged in. Alerts are returned as
 * the text they would show.
 */
module ClientApp {
  import opened Wrappers

  datatype Screen = Welcome | Register

  datatype ClientUser = ClientUser(username: string, password: string)

  /** `users.some(user => user.username === username)` */
  predicate HasUsername(users: seq<ClientUser>, username: string) {
    exists i :: 0 <= i < |users| && users[i].username == username
  }

  /** `users.find(u => u.username === username && u.password === password)`: the first match. */
  function FindUser(users: seq<ClientUser>, username: string, password: string): (found: Option<ClientUser>)
    ensures found.None? <==> forall i :: 0 <= i < |users| ==> users[i] != ClientUser(username, password)
    ensures found.Some? ==> found.value == ClientUser(username, password)
    decreases |users|
  {
    if |users| == 0 then None
    else if users[0].username == username && users[0].password == password then Some(users[0])
    else
      var rest := FindUser(users[1..], username, password);
      assert forall i :: 1 <= i < |users| ==> users[i] == users[1..][i - 1];
      rest
  }

  predicate DistinctUsernames(users: seq<ClientUser>) {
    forall i, j :: 0 <= i < j < |users| ==> users[i].username != users[j].username
  }

  /** The user list after one `handleRegister` call. */
  function RegisterOnce(users: seq<ClientUser>, attempt: ClientUser): seq<ClientUser> {
    if HasUsername(users, attempt.username) then users else users + [attempt]
  }

  /** The user list after a sequence of `handleRegister` calls. */
  function Registered(users: seq<ClientUser>, attempts: seq<ClientUser>): seq<ClientUser>
    decreases |attempts|
  {
    if |attempts| == 0 then users else Registered(RegisterOnce(users, attempts[0]), attempts[1..])
  }

  lemma RegisterOnceDistinct(users: seq<ClientUser>, attempt: ClientUser)
    requires DistinctUsernames(users)
    ensures DistinctUsernames(RegisterOnce(users, attempt))
  {
    if !HasUsername(users, attempt.username) {
      var next := users + [attempt];
      forall i, j | 0 <= i < j < |next| ensures next[i].username != next[j].username {
        if j == |users| {
          assert next[i] == users[i];
        }
      }
    }
  }

  /** However many registrations are attempted, usernames stay pairwise distinct. */
  lemma {:induction false} RegisteredDistinct(users: seq<ClientUser>, attempts: seq<ClientUser>)
    requires DistinctUsernames(users)
    ensures DistinctUsernames(Registered(users, attempts))
    decreases |attempts|
  {
    if |attempts| > 0 {
      RegisterOnceDistinct(users, attempts[0]);
      RegisteredDistinct(RegisterOnce(users, attempts[0]), attempts[1..]);
    }
  }

  /** Registration only appends: earlier users keep their place. */
  lemma {:induction false} RegisteredExtends(users: seq<ClientUser>, attempts: seq<ClientUser>)
    ensures users <= Registered(users, attempts)
    decreases |attempts|
  {
    if |attempts| > 0 {
      RegisteredExtends(RegisterOnce(users, attempts[0]), attempts[1..]);
    }
  }

  /** A freshly registered name and password are found by the login lookup. */
  lemma RegisterThenFind(users: seq<ClientUser>, username: string, password: string)
    requires !HasUsername(users, username)
    ensures FindUser(RegisterOnce(users, ClientUser(username, password)), username, password) == Some(ClientUser(username, password))
  {
    var next := RegisterOnce(users, ClientUser(username, password));
    assert next[|users|] == ClientUser(username, password);
  }

  class App {
    var currentScreen: Screen
    var users: seq<ClientUser>
    var currentUser: Option<string>
    var loginMessage: Option<string>

    ghost predicate Valid()
      reads this
    {
      DistinctUsernames(users)
    }

    /** The `useState` initial values. */
    constructor ()
      ensures Valid()
      ensures currentScreen == Welcome && users == [] && currentUser.None? && loginMessage.None?
    {
      currentScreen := Welcome;
      users := [];
      currentUser := None;
      loginMessage := None;
    }

    /** handleRegister: refuse a taken username, else append and go back to the welcome screen. */
    method HandleRegister(username: string, password: string) returns (alert: string)
      requires Valid()
      modifies this
      ensures Valid()
      ensures users == RegisterOnce(old(users), ClientUser(username, password))
      ensures HasUsername(old(users), username) ==>
        alert == "Username already exists. Please choose a different one." && unchanged(this)
      ensures !HasUsername(old(users), username) ==>
        && alert == "Registration successful. You can now log in."
        && users == old(users) + [ClientUser(username, password)]
        && currentScreen == Welcome
        && currentUser == old(currentUser) && loginMessage == old(loginMessage)
    {
      if exists i :: 0 <= i < |users| && users[i].username == username {
        return "Username already exists. Please choose a different one.";
      }
      RegisterOnceDistinct(users, ClientUser(username, password));
      users := users + [ClientUser(username, password)];
      currentScreen := Welcome;
      alert := "Registration successful. You can now log in.";
    }

    /** handleLogin: on a matching name and password set the current user and
        the welcome message; otherwise only alert. */
    method HandleLogin(username: string, password: string) returns (alert: Option<string>)
      modifies this
      ensures users == old(users) && currentScreen == old(currentScreen)
      ensures ClientUser(username, password) in old(users) ==>
        && alert.None?
        && currentUser == Some(username)
        && loginMessage == Some("Welcome, " + username + "! You are now logged in.")
      ensures ClientUser(username, password) !in old(users) ==>
        alert == Some("Invalid username or password.") && unchanged(this)
    {
      var user := FindUser(users, username, password);
      if user.Some? {
        currentUser := Some(username);
        loginMessage := Some("Welcome, " + username + "! You are now logged in.");
        alert := None;
      } else {
        alert := Some("Invalid username or password.");
      }
    }

    /** handleLogout */
    method HandleLogout()
      modifies this
      ensures currentUser.None? && loginMessage.None?
      ensures users == old(users) && currentScreen == old(currentScreen)
    {
      currentUser := None;
      loginMessage := None;
    }

    /** `onRegisterClick`: show the registration screen. */
    method ShowRegisterScreen()
      modifies this
      ensures currentScreen == Register
      ensures users == old(users) && currentUser == old(currentUser) && loginMessage == old(loginMessage)
    {
      currentScreen := Register;
    }
  }
}
