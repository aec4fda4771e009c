/**
 * The session held by the authentication provider: the signed-in user
 * name, mirrored in the browser's local storage under 'dashboard_user' so
 * that it survives a reload.
 */
module Auth {
  import opened Common

  const SessionKey: string := "dashboard_user"

  const OutsideProviderError: string := "useAuth must be used within an AuthProvider"

  /** The provider's state, with the local storage it reads and writes. */
  class AuthProvider {
    var isAuthenticated: bool
    var user: Option<string>
    var isLoading: bool
    var storage: map<string, string>

    /** Signed in exactly when there is a user. */
    predicate Valid()
      reads this
    {
      isAuthenticated <==> user.Some?
    }

    /** The state of the first render, before the mount effect has run. */
    constructor(storage: map<string, string>)
      ensures Valid()
      ensures !isAuthenticated && user == None && isLoading
      ensures this.storage == storage
    {
      isAuthenticated := false;
      user := None;
      isLoading := true;
      this.storage := storage;
    }

    /**
     * The mount effect: a non-empty stored user name restores the session;
     * loading ends either way.
     */
    method Mount()
      requires Valid()
      modifies this
      ensures Valid()
      ensures !isLoading
      ensures storage == old(storage)
      ensures SessionKey in storage && storage[SessionKey] != "" ==>
                user == Some(storage[SessionKey]) && isAuthenticated
      ensures !(SessionKey in storage && storage[SessionKey] != "") ==>
                user == old(user) && isAuthenticated == old(isAuthenticated)
    {
      if SessionKey in storage && storage[SessionKey] != "" {
        user := Some(storage[SessionKey]);
        isAuthenticated := true;
      }
      isLoading := false;
    }

    /** `login(username)`. */
    method Login(username: string)
      modifies this
      ensures Valid()
      ensures user == Some(username) && isAuthenticated
      ensures storage == old(storage)[SessionKey := username]
      ensures isLoading == old(isLoading)
    {
      user := Some(username);
      isAuthenticated := true;
      storage := storage[SessionKey := username];
    }

    /** `logout()`. */
    method Logout()
      modifies this
      ensures Valid()
      ensures user == None && !isAuthenticated
      ensures storage == old(storage) - {SessionKey}
      ensures isLoading == old(isLoading)
    {
      user := None;
      isAuthenticated := false;
      storage := storage - {SessionKey};
    }
  }

  /**
   * A session survives a reload: after signing in with a non-empty name, a
   * new provider mounted on the same storage is signed in as that user;
   * after signing out, it is not.
   */
  method ReloadAfterLogin(storage: map<string, string>, username: string) returns (signedIn: bool, restored: Option<string>)
    ensures username != "" ==> signedIn && restored == Some(username)
    ensures username == "" ==> !signedIn && restored == None
  {
    var before := new AuthProvider(storage);
    before.Mount();
    before.Login(username);
    var after := new AuthProvider(before.storage);
    after.Mount();
    signedIn, restored := after.isAuthenticated, after.user;
  }

  method ReloadAfterLogout(storage: map<string, string>, username: string) returns (signedIn: bool, restored: Option<string>)
    ensures !signedIn && restored == None
  {
    var before := new AuthProvider(storage);
    before.Mount();
    before.Login(username);
    before.Logout();
    var after := new AuthProvider(before.storage);
    after.Mount();
    signedIn, restored := after.isAuthenticated, after.user;
  }

  /** `useAuth()`: the provider's value, or the error thrown outside a provider. */
  function UseAuth<T>(context: Option<T>): (r: Result<T>)
    ensures r.Ok? <==> context.Some?
    ensures r.Ok? ==> r.value == context.value
    ensures r.Err? ==> r.message == OutsideProviderError
  {
    match context
    case Some(value) => Ok(value)
    case None => Err(OutsideProviderError)
  }
}
