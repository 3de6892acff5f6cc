/**
 * Who is logged in: the global flag `LOGGED_IN` and the global `user`.  The user object comes
 * from calls into the API layer, so its type is a parameter here.
 */
module Session {
  import opened Wrappers

  /** A value `localStorage.getItem` returns, as an `if` sees it: `null` and "" are false. */
  predicate Truthy(stored: Option<string>)
  {
    stored.Some? && stored.value != ""
  }

  class LoginState<User> {
    /** `LOGGED_IN`. */
    var loggedIn: bool
    /** `user`: no value until a user object has been built. */
    var user: Option<User>

    /**
     * The script's start: logged in exactly when both the stored token and the stored
     * username are truthy; no user object yet.
     */
    constructor (token: Option<string>, username: Option<string>)
      ensures loggedIn <==> Truthy(token) && Truthy(username)
      ensures user == None
    {
      loggedIn := Truthy(token) && Truthy(username);
      user := None;
    }

    /**
     * The page-load branch for a remembered login, given the outcome of `User.stayLoggedIn()`:
     * when it yields a user object, that becomes `user`; when it rejects, nothing changes.
     * The flag is left as it was.
     */
    method Resume(resumed: Option<User>)
      modifies this
      ensures loggedIn == old(loggedIn)
      ensures user == if resumed.Some? then resumed else old(user)
    {
      if resumed.Some? {
        user := resumed;
      }
    }

    /**
     * The login form's handler, given the outcome of `User.login`: on success the user
     * object becomes `user` and the flag is set; when the call rejects, nothing changes.
     */
    method Login(loggedInUser: Option<User>)
      modifies this
      ensures loggedInUser.Some? ==> user == loggedInUser && loggedIn
      ensures loggedInUser.None? ==> user == old(user) && loggedIn == old(loggedIn)
    {
      if loggedInUser.Some? {
        user := loggedInUser;
        loggedIn := true;
      }
    }

    /**
     * The create-account form's handler, given the outcome of `User.create`: on success the
     * new user object becomes `user`, but the flag is NOT set; it keeps whatever it was.
     */
    method CreateAccount(newUser: Option<User>)
      modifies this
      ensures loggedIn == old(loggedIn)
      ensures user == if newUser.Some? then newUser else old(user)
    {
      if newUser.Some? {
        user := newUser;
      }
    }
  }
}
