/**
 * The admin login page: the account list kept in storage, signing in, the
 * session, and the management panel that adds and removes accounts.
 */
module Login {
  import opened Wrappers
  import opened Strings
  import opened Seqs
  import opened Records
  import opened Storage

  /** The account written on a device that has none. */
  const DefaultAdmin: User := User("admin", "admin123")

  /** No two account names are equal ignoring letter case. */
  predicate NoCaseDuplicates(users: seq<User>) {
    forall i, j :: 0 <= i < j < |users| ==> Lower(users[i].username) != Lower(users[j].username)
  }

  /** Some account has a name equal to `name` ignoring letter case. */
  predicate NameTaken(users: seq<User>, name: string) {
    exists i :: 0 <= i < |users| && Lower(users[i].username) == Lower(name)
  }

  // ----- Signing in -----

  /** What the sign-in button leads to. */
  datatype LoginResult =
    | MissingFields          // "Please enter both username and password."
    | InvalidCredentials     // "Invalid username or password."
    | LoggedIn(username: string)

  /**
   * `doLogin`'s decision: the name is trimmed, the password taken as typed;
   * both must be non-empty, then an account must match both exactly.
   */
  function CheckLogin(users: seq<User>, nameInput: string, password: string): (r: LoginResult)
    ensures r.MissingFields? <==> Trim(nameInput) == "" || password == ""
    ensures r.LoggedIn? <==> Trim(nameInput) != "" && password != "" && User(Trim(nameInput), password) in users
    ensures r.LoggedIn? ==> r.username == Trim(nameInput)
  {
    var name := Trim(nameInput);
    if name == "" || password == "" then MissingFields
    else
      var matches := (u: User) => u.username == name && u.password == password;
      var found := FindIndex(users, matches);
      assert forall j :: 0 <= j < |users| ==> (matches(users[j]) <==> users[j] == User(name, password));
      if found.Some? then LoggedIn(name) else InvalidCredentials
  }

  /** On a freshly seeded device the default account signs in. */
  lemma DefaultAdminCanLogIn()
    ensures CheckLogin([DefaultAdmin], "admin", "admin123") == LoggedIn("admin")
  {
    assert TrimStart("admin") == "admin";
    assert TrimEnd("admin") == "admin";
  }

  /** Sign-in compares names exactly, unlike the case-insensitive check on new accounts. */
  lemma LoginIsCaseSensitive()
    ensures CheckLogin([DefaultAdmin], "Admin", "admin123") == InvalidCredentials
    ensures NameTaken([DefaultAdmin], "Admin")
  {
    var name := "Admin";
    assert !IsSpace(name[0]) && !IsSpace(name[|name| - 1]);
    assert Trim(name) == name by {
      assert TrimStart(name) == name;
      assert TrimEnd(name) == name;
    }
    assert name[0] != DefaultAdmin.username[0];
    assert User(name, "admin123") !in [DefaultAdmin];
    LowerAdmin();
  }

  lemma LowerAdmin()
    ensures Lower("Admin") == Lower("admin")
  {
    var a, b := Lower("Admin"), Lower("admin");
    assert |a| == |b| == 5;
    assert a[0] == LowerChar('A') == 'a' == b[0];
    forall i | 1 <= i < 5
      ensures a[i] == b[i]
    {
      assert "Admin"[i] == "admin"[i];
    }
  }

  // ----- Adding an account -----

  /** What `addUser` does with the two entries, in the order it checks them. */
  datatype NewUserCheck =
    | Blank                  // "Please fill in both username and password."
    | UsernameTooShort       // "Username must be at least 3 characters."
    | PasswordTooShort       // "Password must be at least 6 characters."
    | Taken                  // "Username already exists."
    | Accept(user: User)

  /** `addUser`'s validation: blank, short name, short password, then the case-insensitive uniqueness test. */
  function CheckNewUser(users: seq<User>, nameInput: string, password: string): (r: NewUserCheck)
    ensures r.Blank? <==> Trim(nameInput) == "" || password == ""
    ensures r.UsernameTooShort? <==> !r.Blank? && |Trim(nameInput)| < 3
    ensures r.PasswordTooShort? <==> !r.Blank? && |Trim(nameInput)| >= 3 && |password| < 6
    ensures r.Taken? <==> |Trim(nameInput)| >= 3 && |password| >= 6 && NameTaken(users, Trim(nameInput))
    ensures r.Accept? <==> |Trim(nameInput)| >= 3 && |password| >= 6 && !NameTaken(users, Trim(nameInput))
    ensures r.Accept? ==> r.user == User(Trim(nameInput), password)
  {
    var name := Trim(nameInput);
    if name == "" || password == "" then Blank
    else if |name| < 3 then UsernameTooShort
    else if |password| < 6 then PasswordTooShort
    else
      var same := (u: User) => Lower(u.username) == Lower(name);
      var found := FindIndex(users, same);
      assert forall j :: 0 <= j < |users| ==> (same(users[j]) <==> Lower(users[j].username) == Lower(name));
      if found.Some? then Taken else Accept(User(name, password))
  }

  /** Appending an accepted account keeps the names distinct ignoring case. */
  lemma AcceptKeepsNamesDistinct(users: seq<User>, nameInput: string, password: string)
    requires NoCaseDuplicates(users)
    requires CheckNewUser(users, nameInput, password).Accept?
    ensures NoCaseDuplicates(users + [CheckNewUser(users, nameInput, password).user])
  {
    var u := CheckNewUser(users, nameInput, password).user;
    var us := users + [u];
    forall i, j | 0 <= i < j < |us|
      ensures Lower(us[i].username) != Lower(us[j].username)
    {
      if j == |users| {
        assert us[i] == users[i];
      }
    }
  }

  /** An account just added signs in with the same entries, or with the name typed with other spacing. */
  lemma AddedUserCanLogIn(users: seq<User>, nameInput: string, password: string, loginName: string)
    requires CheckNewUser(users, nameInput, password).Accept?
    requires Trim(loginName) == Trim(nameInput)
    ensures CheckLogin(users + [CheckNewUser(users, nameInput, password).user], loginName, password)
         == LoggedIn(Trim(nameInput))
  {
    var u := CheckNewUser(users, nameInput, password).user;
    assert (users + [u])[|users|] == u;
  }

  // ----- Removing an account -----

  /** What `deleteUser` leads to. */
  datatype DeleteResult =
    | LastAccount            // "Cannot remove the last admin account."
    | StaleIndex             // the index is past the end of the list: the handler throws
    | Removed(username: string)

  /** Removing one account keeps the others' names distinct ignoring case. */
  lemma RemoveKeepsNamesDistinct(users: seq<User>, idx: nat)
    requires NoCaseDuplicates(users) && idx < |users|
    ensures NoCaseDuplicates(RemoveAt(users, idx))
  {
    var r := RemoveAt(users, idx);
    forall i, j | 0 <= i < j < |r|
      ensures Lower(r[i].username) != Lower(r[j].username)
    {
      var i', j' := if i < idx then i else i + 1, if j < idx then j else j + 1;
      assert r[i] == users[i'] && r[j] == users[j'];
    }
  }

  /** The page's own state; `store` is the device's storage. */
  class LoginPage {
    const store: LocalStore
    /** Whether the account management panel has been unlocked. */
    var manageUnlocked: bool

    constructor (store: LocalStore)
      ensures this.store == store && !manageUnlocked
    {
      this.store := store;
      manageUnlocked := false;
    }

    /** `seedDefault`: an empty account list becomes the default account; any other list stays. */
    method SeedDefault()
      modifies store`adminUsers
      ensures old(store.adminUsers) == [] ==> store.adminUsers == [DefaultAdmin]
      ensures old(store.adminUsers) != [] ==> store.adminUsers == old(store.adminUsers)
      ensures |store.adminUsers| >= 1
      ensures NoCaseDuplicates(old(store.adminUsers)) ==> NoCaseDuplicates(store.adminUsers)
    {
      if |store.adminUsers| == 0 {
        store.adminUsers := [DefaultAdmin];
      }
    }

    /** `setSession`, with the clock's ISO time given as `loginTime`. */
    method SetSession(username: string, loginTime: string)
      modifies store`adminSession
      ensures store.adminSession == Some(Session(username, loginTime))
    {
      store.adminSession := Some(Session(username, loginTime));
    }

    /** `getSession`. */
    method GetSession() returns (session: Option<Session>)
      ensures session == store.adminSession
    {
      session := store.adminSession;
    }

    /** `clearSession`. */
    method ClearSession()
      modifies store`adminSession
      ensures store.adminSession == None
    {
      store.adminSession := None;
    }

    /** A session set and then read holds the name it was set with; after clearing, there is none. */
    method SessionRoundTrip(username: string, loginTime: string) returns (afterSet: Option<Session>, afterClear: Option<Session>)
      modifies store`adminSession
      ensures afterSet.Some? && afterSet.value.username == username
      ensures afterClear.None?
      ensures store.adminSession == None
    {
      SetSession(username, loginTime);
      afterSet := GetSession();
      ClearSession();
      afterClear := GetSession();
    }

    /** `checkAlreadyLoggedIn`: whether the page moves on to the admin table at once. */
    method CheckAlreadyLoggedIn() returns (redirect: bool)
      ensures redirect <==> store.adminSession.Some?
    {
      var session := GetSession();
      redirect := session.Some?;
    }

    /** `doLogin`: a successful sign-in stores a session for the trimmed name; a failed one changes nothing. */
    method DoLogin(nameInput: string, password: string, loginTime: string) returns (result: LoginResult)
      modifies store`adminSession
      ensures result == CheckLogin(store.adminUsers, nameInput, password)
      ensures result.LoggedIn? ==> store.adminSession == Some(Session(Trim(nameInput), loginTime))
      ensures !result.LoggedIn? ==> store.adminSession == old(store.adminSession)
    {
      result := CheckLogin(store.adminUsers, nameInput, password);
      if result.LoggedIn? {
        SetSession(result.username, loginTime);
      }
    }

    /** `unlockManage`: the panel opens when the entry is the password of any account. */
    method UnlockManage(pw: string) returns (valid: bool)
      modifies this`manageUnlocked
      ensures valid <==> exists i :: 0 <= i < |store.adminUsers| && store.adminUsers[i].password == pw
      ensures manageUnlocked == (old(manageUnlocked) || valid)
    {
      var users := store.adminUsers;
      var found := FindIndex(users, (u: User) => u.password == pw);
      valid := found.Some?;
      if valid {
        manageUnlocked := true;
      }
    }

    /** `lockManage`. */
    method LockManage()
      modifies this`manageUnlocked
      ensures !manageUnlocked
    {
      manageUnlocked := false;
    }

    /** `addUser`: an accepted account is appended at the end; a rejected entry leaves the list alone. */
    method AddUser(nameInput: string, password: string) returns (result: NewUserCheck)
      modifies store`adminUsers
      ensures result == CheckNewUser(old(store.adminUsers), nameInput, password)
      ensures result.Accept? ==> store.adminUsers == old(store.adminUsers) + [result.user]
      ensures !result.Accept? ==> store.adminUsers == old(store.adminUsers)
      ensures NoCaseDuplicates(old(store.adminUsers)) ==> NoCaseDuplicates(store.adminUsers)
    {
      result := CheckNewUser(store.adminUsers, nameInput, password);
      if result.Accept? {
        if NoCaseDuplicates(store.adminUsers) {
          AcceptKeepsNamesDistinct(store.adminUsers, nameInput, password);
        }
        store.adminUsers := store.adminUsers + [result.user];
      }
    }

    /** `deleteUser`: never removes the last account; otherwise removes exactly the one at `idx`. */
    method DeleteUser(idx: nat) returns (result: DeleteResult)
      modifies store`adminUsers
      ensures |old(store.adminUsers)| <= 1 ==> result == LastAccount && store.adminUsers == old(store.adminUsers)
      ensures |old(store.adminUsers)| > 1 && idx >= |old(store.adminUsers)| ==>
        result == StaleIndex && store.adminUsers == old(store.adminUsers)
      ensures |old(store.adminUsers)| > 1 && idx < |old(store.adminUsers)| ==>
        && result == Removed(old(store.adminUsers)[idx].username)
        && store.adminUsers == RemoveAt(old(store.adminUsers), idx)
      ensures |old(store.adminUsers)| >= 1 ==> |store.adminUsers| >= 1
      ensures NoCaseDuplicates(old(store.adminUsers)) ==> NoCaseDuplicates(store.adminUsers)
    {
      var users := store.adminUsers;
      if |users| <= 1 {
        return LastAccount;
      }
      if idx >= |users| {
        return StaleIndex;
      }
      result := Removed(users[idx].username);
      if NoCaseDuplicates(users) {
        RemoveKeepsNamesDistinct(users, idx);
      }
      store.adminUsers := RemoveAt(users, idx);
    }
  }
}
