/** The mock authentication of lib/contexts/AuthContext.tsx: a table of registered accounts (the
    'registered_users' storage entry, an absent entry being the empty table) and the session user
    (the 'user' entry and the `user` state). Register, login and logout move between the
    logged-out and logged-in states; a failure is the error message the source throws. The random
    id of a new account is an input. */
module AuthContext {
  import opened Basics

  /** An entry of the registered-users table. */
  datatype Account = Account(id: string, name: string, email: string, password: string)

  /** The session user: an account without its password. */
  datatype SessionUser = SessionUser(id: string, name: string, email: string)

  datatype Outcome = Done | Failed(message: string)

  function SessionOf(a: Account): (r: SessionUser)
    ensures r.id == a.id && r.name == a.name && r.email == a.email
  {
    SessionUser(a.id, a.name, a.email)
  }

  predicate Credentials(a: Account, email: string, password: string) {
    a.email == email && a.password == password
  }

  /** The index `users.find(u => u.email === email && u.password === password)` stops at. */
  function FirstMatch(users: seq<Account>, email: string, password: string): (r: Option<nat>)
    ensures r.None? <==> forall i :: 0 <= i < |users| ==> !Credentials(users[i], email, password)
    ensures r.Some? ==> r.value < |users| && Credentials(users[r.value], email, password)
    ensures r.Some? ==> forall j :: 0 <= j < r.value ==> !Credentials(users[j], email, password)
    decreases |users|
  {
    if users == [] then None
    else if Credentials(users[0], email, password) then Some(0)
    else
      match FirstMatch(users[1..], email, password)
      case None => assert forall i :: 1 <= i < |users| ==> users[i] == users[1..][i - 1]; None
      case Some(k) => Some(k + 1)
  }

  predicate EmailTaken(users: seq<Account>, email: string) {
    exists i :: 0 <= i < |users| && users[i].email == email
  }

  /** No two accounts of the table share an email. */
  predicate UniqueEmails(users: seq<Account>) {
    forall i, j :: 0 <= i < j < |users| ==> users[i].email != users[j].email
  }

  /** The table after a registration: unchanged when the email is taken, else the new account
      appended. */
  function Registered(users: seq<Account>, account: Account): (r: seq<Account>)
    ensures EmailTaken(users, account.email) ==> r == users
    ensures !EmailTaken(users, account.email) ==> r == users + [account]
    ensures UniqueEmails(users) ==> UniqueEmails(r)
    ensures EmailTaken(r, account.email)
  {
    if EmailTaken(users, account.email) then users
    else
      var r := users + [account];
      assert r[|users|].email == account.email;
      r
  }

  /** A freshly registered account can log in with its own email and password, as itself. */
  lemma LoginAfterRegister(users: seq<Account>, account: Account)
    requires !EmailTaken(users, account.email)
    ensures FirstMatch(Registered(users, account), account.email, account.password) == Some(|users|)
  {
    var r := Registered(users, account);
    assert r[|users|] == account;
    forall j | 0 <= j < |users| ensures !Credentials(r[j], account.email, account.password) {
      assert r[j] == users[j];
    }
  }

  /** Registering an email a second time leaves the table as it was after the first time. */
  lemma RegisterTwice(users: seq<Account>, first: Account, second: Account)
    requires first.email == second.email
    ensures Registered(Registered(users, first), second) == Registered(users, first)
  {
  }

  class Provider {
    /** The registered-users table. */
    var users: seq<Account>
    var user: Option<SessionUser>
    /** The 'user' entry of the browser storage. */
    var storedUser: Option<SessionUser>

    /** The first render: the session saved under 'user' is restored. */
    constructor(savedUsers: seq<Account>, savedUser: Option<SessionUser>)
      ensures users == savedUsers && user == savedUser && storedUser == savedUser
    {
      users := savedUsers;
      user := savedUser;
      storedUser := savedUser;
    }

    function IsLoggedIn(): (r: bool)
      reads this
      ensures r <==> user != None
    {
      user.Some?
    }

    /** `login`: the first account with both the email and the password becomes the session;
        without one, the error is raised and nothing changes. */
    method Login(email: string, password: string) returns (outcome: Outcome)
      modifies this
      ensures FirstMatch(users, email, password).Some? ==>
                outcome == Done && user == Some(SessionOf(users[FirstMatch(users, email, password).value]))
                && storedUser == user
      ensures FirstMatch(users, email, password).None? ==>
                outcome == Failed("Invalid email or password") && user == old(user) && storedUser == old(storedUser)
      ensures users == old(users)
      ensures outcome == Done <==> exists i :: 0 <= i < |users| && Credentials(users[i], email, password)
    {
      var found := FirstMatch(users, email, password);
      if found.Some? {
        user := Some(SessionOf(users[found.value]));
        storedUser := user;
        outcome := Done;
      } else {
        outcome := Failed("Invalid email or password");
      }
    }

    /** `register`: a taken email raises the error and changes nothing; otherwise the account is
        appended and the user is logged in as it, without the password. */
    method Register(name: string, email: string, password: string, id: string) returns (outcome: Outcome)
      modifies this
      ensures users == Registered(old(users), Account(id, name, email, password))
      ensures EmailTaken(old(users), email) ==>
                outcome == Failed("Email already exists") && user == old(user) && storedUser == old(storedUser)
      ensures !EmailTaken(old(users), email) ==>
                outcome == Done && user == Some(SessionUser(id, name, email)) && storedUser == user
      ensures UniqueEmails(old(users)) ==> UniqueEmails(users)
    {
      if EmailTaken(users, email) {
        outcome := Failed("Email already exists");
      } else {
        var account := Account(id, name, email, password);
        users := Registered(users, account);
        user := Some(SessionOf(account));
        storedUser := user;
        outcome := Done;
      }
    }

    method Logout()
      modifies this
      ensures user.None? && storedUser.None? && !IsLoggedIn()
      ensures users == old(users)
    {
      user := None;
      storedUser := None;
    }
  }

  /** Register, log out, log in again: the same session as right after the registration. */
  method RegisterLogoutLogin(saved: seq<Account>, name: string, email: string, password: string, id: string)
      returns (registered: Option<SessionUser>, again: Option<SessionUser>)
    requires !EmailTaken(saved, email)
    ensures registered == again == Some(SessionUser(id, name, email))
  {
    var p := new Provider(saved, None);
    var _ := p.Register(name, email, password, id);
    registered := p.user;
    p.Logout();
    LoginAfterRegister(saved, Account(id, name, email, password));
    var _ := p.Login(email, password);
    again := p.user;
  }
}
