/**
 * The sign-in form: the fixed admin/admin credential check, the error it
 * shows and the two input fields.
 */
module Login {
  import opened Common
  import opened Auth

  const InvalidCredentials: string := "Invalid username or password"

  /** Where a successful sign-in navigates. */
  const DashboardPath: string := "/dashboard"

  datatype Field = Username | Password

  /** The only accepted credentials. */
  predicate AcceptedCredentials(username: string, password: string): (accepted: bool)
    ensures accepted <==> (username, password) == ("admin", "admin")
  {
    username == "admin" && password == "admin"
  }

  /** The form state; `navigatedTo` records the last navigation requested. */
  class LoginForm {
    var username: string
    var password: string
    var error: string
    var isLoading: bool
    var navigatedTo: Option<string>
    const auth: AuthProvider

    constructor(auth: AuthProvider)
      ensures username == "" && password == "" && error == "" && !isLoading && navigatedTo == None
      ensures this.auth == auth
    {
      username := "";
      password := "";
      error := "";
      isLoading := false;
      navigatedTo := None;
      this.auth := auth;
    }

    /**
     * `handleSubmit`: admin/admin signs in as 'admin' and goes to the
     * dashboard; anything else shows the error and leaves the session as
     * it was. The previous error is cleared first and loading ends either
     * way.
     */
    method HandleSubmit()
      modifies this, auth
      ensures username == old(username) && password == old(password)
      ensures !isLoading
      ensures AcceptedCredentials(username, password) ==>
                error == "" && navigatedTo == Some(DashboardPath) &&
                auth.user == Some("admin") && auth.isAuthenticated && auth.Valid() &&
                auth.storage == old(auth.storage)[SessionKey := "admin"]
      ensures !AcceptedCredentials(username, password) ==>
                error == InvalidCredentials && navigatedTo == old(navigatedTo) &&
                auth.user == old(auth.user) && auth.isAuthenticated == old(auth.isAuthenticated) &&
                auth.storage == old(auth.storage)
    {
      error := "";
      isLoading := true;
      if username == "admin" && password == "admin" {
        auth.Login(username);
        navigatedTo := Some(DashboardPath);
      } else {
        error := InvalidCredentials;
      }
      isLoading := false;
    }

    /** `handleInputChange(field, value)`: sets one field and clears the error. */
    method HandleInputChange(field: Field, value: string)
      modifies this
      ensures field == Username ==> username == value && password == old(password)
      ensures field == Password ==> password == value && username == old(username)
      ensures error == ""
      ensures isLoading == old(isLoading) && navigatedTo == old(navigatedTo)
    {
      match field {
        case Username => username := value;
        case Password => password := value;
      }
      if error != "" {
        error := "";
      }
    }
  }

  /** Typing the admin credentials and submitting signs the admin in and opens the dashboard. */
  method SignInAsAdmin(storage: map<string, string>) returns (signedIn: bool, user: Option<string>, path: Option<string>, error: string)
    ensures signedIn && user == Some("admin") && path == Some(DashboardPath) && error == ""
  {
    var provider := new AuthProvider(storage);
    provider.Mount();
    var form := new LoginForm(provider);
    form.HandleInputChange(Username, "admin");
    form.HandleInputChange(Password, "admin");
    form.HandleSubmit();
    signedIn, user, path, error := provider.isAuthenticated, provider.user, form.navigatedTo, form.error;
  }

  /** A wrong password shows the error; editing a field then clears it. */
  method WrongPasswordThenEdit(storage: map<string, string>, wrong: string) returns (shown: string, afterEdit: string, signedIn: bool)
    requires wrong != "admin"
    ensures shown == InvalidCredentials && afterEdit == ""
    ensures signedIn == (SessionKey in storage && storage[SessionKey] != "")
  {
    var provider := new AuthProvider(storage);
    provider.Mount();
    var form := new LoginForm(provider);
    form.HandleInputChange(Username, "admin");
    form.HandleInputChange(Password, wrong);
    form.HandleSubmit();
    shown := form.error;
    form.HandleInputChange(Password, "admin");
    afterEdit := form.error;
    signedIn := provider.isAuthenticated;
  }
}
