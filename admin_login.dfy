/** The admin login page: a form over a username and a password checked
    against one fixed credential pair. Navigation is returned as the path
    the page goes to. */
module AdminLogin {
  import opened Common

  const AdminUsername: string := "admin"
  const AdminPassword: string := "admin123"
  const DashboardPath: string := "/admin/dashboard"
  const LoginError: string := "Invalid username or password"

  class LoginPage {
    var username: string
    var password: string
    var showPassword: bool
    var isLoading: bool
    var error: string

    constructor ()
      ensures username == "" && password == "" && error == ""
      ensures !showPassword && !isLoading
    {
      username, password := "", "";
      showPassword, isLoading := false, false;
      error := "";
    }

    /** The username input's change handler. */
    method SetUsername(value: string)
      modifies this
      ensures username == value
      ensures password == old(password) && showPassword == old(showPassword)
      ensures isLoading == old(isLoading) && error == old(error)
    {
      username := value;
    }

    /** The password input's change handler. */
    method SetPassword(value: string)
      modifies this
      ensures password == value
      ensures username == old(username) && showPassword == old(showPassword)
      ensures isLoading == old(isLoading) && error == old(error)
    {
      password := value;
    }

    /** `handleLogin`: navigates to the dashboard exactly when both fields
        equal the fixed pair, otherwise shows the error; the previous error
        is always cleared first and loading always ends. Afterwards the alert
        is up exactly after a failed attempt and the button reads "Sign In". */
    method HandleLogin() returns (navigateTo: Option<string>, toast: Toast)
      modifies this
      ensures username == old(username) && password == old(password)
      ensures showPassword == old(showPassword)
      ensures !isLoading
      ensures navigateTo.Some? <==> username == AdminUsername && password == AdminPassword
      ensures navigateTo.Some? ==> navigateTo.value == DashboardPath && error == ""
      ensures navigateTo.None? ==> error == LoginError
      ensures navigateTo.Some? ==> toast == Toast("Login Successful", "Welcome to the admin dashboard!", false)
      ensures navigateTo.None? ==> toast == Toast("Login Failed", "Please check your credentials and try again.", true)
      ensures ShowsErrorAlert() <==> navigateTo.None?
      ensures SubmitCaption() == "Sign In"
    {
      isLoading := true;
      error := "";
      if username == AdminUsername && password == AdminPassword {
        toast := Toast("Login Successful", "Welcome to the admin dashboard!", false);
        navigateTo := Some(DashboardPath);
      } else {
        error := LoginError;
        toast := Toast("Login Failed", "Please check your credentials and try again.", true);
        navigateTo := None;
      }
      isLoading := false;
    }

    /** The eye button: flips whether the password is shown. */
    method ToggleShowPassword()
      modifies this
      ensures showPassword == !old(showPassword)
      ensures username == old(username) && password == old(password)
      ensures isLoading == old(isLoading) && error == old(error)
    {
      showPassword := !showPassword;
    }

    /** The `type` attribute of the password input. */
    function PasswordInputType(): (t: string)
      reads this
      ensures t == "text" <==> showPassword
      ensures t == "text" || t == "password"
    {
      if showPassword then "text" else "password"
    }

    /** The error alert is rendered exactly when `error` is non-empty. */
    function ShowsErrorAlert(): (shown: bool)
      reads this
      ensures shown <==> |error| > 0
    {
      error != ""
    }

    /** The submit button's caption. */
    function SubmitCaption(): (caption: string)
      reads this
      ensures caption == "Signing in..." <==> isLoading
    {
      if isLoading then "Signing in..." else "Sign In"
    }
  }
}
