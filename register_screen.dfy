/**
 * RegisterScreen.kt: the registration form's remembered state and its handlers — the field
 * edits, the Create account button, and the reaction to the view model's `authState`.
 */
module RegisterScreen {
  import opened Wrappers
  import opened Auth

  const EmailEmptyMessage := "Email cannot be empty"
  const UsernameEmptyMessage := "Username cannot be empty"
  const PasswordEmptyMessage := "Password cannot be empty"

  class RegisterForm {
    var email: string
    var username: string
    var password: string
    var emailError: Option<string>
    var usernameError: Option<string>
    var passwordError: Option<string>
    var authError: Option<string>
    var isLoading: bool
    /** Set once the screen has navigated to the login screen. */
    var wentToLogin: bool

    constructor ()
      ensures email == "" && username == "" && password == ""
      ensures emailError == None && usernameError == None && passwordError == None && authError == None
      ensures !isLoading && !wentToLogin
    {
      email, username, password := "", "", "";
      emailError, usernameError, passwordError, authError := None, None, None, None;
      isLoading, wentToLogin := false, false;
    }

    /** Typing in the email field clears the email error only. */
    method EditEmail(value: string)
      modifies this`email, this`emailError
      ensures email == value && emailError == None
    {
      email := value;
      emailError := None;
    }

    /** Typing in the username field clears the username error only. */
    method EditUsername(value: string)
      modifies this`username, this`usernameError
      ensures username == value && usernameError == None
    {
      username := value;
      usernameError := None;
    }

    /** Typing in the password field clears the password error only. */
    method EditPassword(value: string)
      modifies this`password, this`passwordError
      ensures password == value && passwordError == None
    {
      password := value;
      passwordError := None;
    }

    /**
     * Create account: each empty field gets its own error (a filled one keeps whatever error
     * it had); sign-up starts when email and password are filled — the username is left to
     * the view model.
     */
    method CreateAccount(auth: AuthViewModel) returns (signupCalled: bool)
      modifies this`emailError, this`usernameError, this`passwordError, this`isLoading, auth`authState
      ensures emailError == if email == "" then Some(EmailEmptyMessage) else old(emailError)
      ensures usernameError == if username == "" then Some(UsernameEmptyMessage) else old(usernameError)
      ensures passwordError == if password == "" then Some(PasswordEmptyMessage) else old(passwordError)
      ensures signupCalled <==> email != "" && password != ""
      ensures signupCalled ==> isLoading && auth.authState == if username == "" then Error(EmptySignupMessage) else Loading
      ensures !signupCalled ==> isLoading == old(isLoading) && auth.authState == old(auth.authState)
    {
      if email == "" {
        emailError := Some(EmailEmptyMessage);
      }
      if username == "" {
        usernameError := Some(UsernameEmptyMessage);
      }
      if password == "" {
        passwordError := Some(PasswordEmptyMessage);
      }
      signupCalled := email != "" && password != "";
      if signupCalled {
        isLoading := true;
        var _ := auth.Signup(email, username, password);
      }
    }

    /**
     * The effect keyed on `authState`: Authenticated stops the spinner and goes to login;
     * an error stops the spinner and shows its message; both then clear the error.
     */
    method OnAuthState(auth: AuthViewModel)
      modifies this`isLoading, this`authError, this`wentToLogin, auth`authState
      ensures old(auth.authState) == Authenticated ==>
                !isLoading && wentToLogin && authError == old(authError) && auth.authState == Authenticated
      ensures old(auth.authState).Error? ==>
                && !isLoading && wentToLogin == old(wentToLogin)
                && authError == Some(old(auth.authState).message) && auth.authState == Unauthenticated
      ensures old(auth.authState) in {Loading, Unauthenticated} ==>
                isLoading == old(isLoading) && authError == old(authError) && wentToLogin == old(wentToLogin)
                && auth.authState == old(auth.authState)
    {
      match auth.authState
      case Authenticated =>
        isLoading := false;
        wentToLogin := true;
        auth.ClearError();
      case Error(message) =>
        isLoading := false;
        authError := Some(message);
        auth.ClearError();
      case _ =>
    }
  }

  /**
   * Filling the form and pressing Create account, with the backend outcomes given: the screen
   * goes to login exactly when every field is filled and both backend steps succeed. With
   * email and password filled but no username the view model's refusal shows as the error.
   */
  method Register(email: string, username: string, password: string,
                  created: Reply<Option<string>>, saved: Reply<()>)
    returns (wentToLogin: bool, authError: Option<string>, usernameError: Option<string>, finalState: AuthState)
    ensures wentToLogin <==>
              email != "" && username != "" && password != "" && created.Done? && created.value.Some? && saved.Done?
    ensures usernameError.Some? <==> username == ""
    ensures email != "" && password != "" && username == "" ==>
              authError == Some(EmptySignupMessage) && finalState == Unauthenticated
    ensures email == "" || password == "" ==> authError == None && finalState == Unauthenticated
  {
    var auth := new AuthViewModel(None);
    var form := new RegisterForm();
    form.EditEmail(email);
    form.EditUsername(username);
    form.EditPassword(password);
    var called := form.CreateAccount(auth);
    form.OnAuthState(auth);
    if called && auth.authState == Loading {
      var record := auth.OnAccountCreated(email, username, created);
      form.OnAuthState(auth);
      if record.Some? {
        auth.OnUserRecordSaved(saved);
        form.OnAuthState(auth);
      }
    }
    wentToLogin, authError, usernameError, finalState := form.wentToLogin, form.authError, form.usernameError, auth.authState;
  }
}
