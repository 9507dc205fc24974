/**
 * AuthViewModel.kt: the authentication state machine and the locally observed profile
 * (username, picture URL). Each backend task is split into the call, which moves to
 * `Loading`, and its completion callback, which receives the task's outcome.
 */
module Auth {
  import opened Wrappers

  datatype AuthState = Authenticated | Unauthenticated | Loading | Error(message: string)

  /** The outcome of a backend task: its result, or a failure with the exception's message (null when it has none). */
  datatype Reply<T> = Done(value: T) | Failed(message: Option<string>)

  const EmptyLoginMessage := "Email or password can't be empty"
  const LoginFailedMessage := "Login failed"
  const EmptySignupMessage := "Email, username, or password can't be empty"
  const SignupFailedMessage := "Sign up failed"
  const SaveFailedMessage := "Failed to save user data to Realtime Database"
  const UnknownUser := "Unknown User"
  const DefaultProfilePictureUrl := "gs://quizapp-b4181.appspot.com/profile.png"

  /** The record `signup` stores at users/<uid>. */
  datatype UserRecord = UserRecord(email: string, username: string, uid: string, profilePictureUrl: string)

  /** `clearError`: an error is dismissed to `Unauthenticated`; any other state stays. */
  function AfterClearError(s: AuthState): (r: AuthState)
    ensures !r.Error?
    ensures s.Error? <==> r != s
    ensures s.Error? ==> r == Unauthenticated
    ensures !s.Error? ==> r == s
  {
    if s.Error? then Unauthenticated else s
  }

  lemma ClearErrorIdempotent(s: AuthState)
    ensures AfterClearError(AfterClearError(s)) == AfterClearError(s)
  {
  }

  /** Kotlin's `Char.isWhitespace`: the JVM's whitespace controls and every Unicode space separator. */
  function IsWhitespace(c: char): (r: bool)
    ensures c == ' ' || c == '\t' || c == '\n' || c == '\r' ==> r
    ensures '0' <= c <= '9' || 'a' <= c <= 'z' || 'A' <= c <= 'Z' ==> !r
  {
    var n := c as int;
    || 9 <= n <= 13 || 0x1C <= n <= 0x20
    || n == 0xA0 || n == 0x1680 || 0x2000 <= n <= 0x200A
    || n == 0x2028 || n == 0x2029 || n == 0x202F || n == 0x205F || n == 0x3000
  }

  /** `isBlank()`: empty or whitespace only. */
  function IsBlank(s: string): (r: bool)
    ensures s == [] ==> r
    ensures r <==> forall c :: c in s ==> IsWhitespace(c)
  {
    forall i :: 0 <= i < |s| ==> IsWhitespace(s[i])
  }

  /** A text is blank exactly when both of its parts are. */
  lemma BlankConcat(a: string, b: string)
    ensures IsBlank(a + b) <==> IsBlank(a) && IsBlank(b)
  {
    assert forall c :: c in a + b <==> c in a || c in b;
  }

  class AuthViewModel {
    var authState: AuthState
    var username: Option<string>
    var profilePictureUrl: Option<string>

    /** `init { checkAuthStatus() }` with the session's current user, if any. */
    constructor (currentUser: Option<string>)
      ensures authState == if currentUser.Some? then Authenticated else Unauthenticated
      ensures username == None && profilePictureUrl == None
    {
      authState := if currentUser.Some? then Authenticated else Unauthenticated;
      username := None;
      profilePictureUrl := None;
    }

    /**
     * Authenticated when someone is signed in (whose username and picture URL are then
     * fetched, see `FetchUsername` and `FetchProfilePictureUrl`), else Unauthenticated.
     */
    method CheckAuthStatus(currentUser: Option<string>)
      modifies this`authState
      ensures authState == if currentUser.Some? then Authenticated else Unauthenticated
    {
      if currentUser.None? {
        authState := Unauthenticated;
      } else {
        authState := Authenticated;
      }
    }

    /** The read of users/<uid>/username: a missing value or a failed read shows "Unknown User". */
    method FetchUsername(read: Reply<Option<string>>)
      modifies this`username
      ensures read.Done? && read.value.Some? ==> username == read.value
      ensures read.Failed? || read.value.None? ==> username == Some(UnknownUser)
    {
      match read
      case Done(value) =>
        username := Some(value.GetOr(UnknownUser));
      case Failed(_) =>
        username := Some(UnknownUser);
    }

    /** The read of users/<uid>/profilePictureUrl: a missing value or a failed read gives "". */
    method FetchProfilePictureUrl(read: Reply<Option<string>>)
      modifies this`profilePictureUrl
      ensures read.Done? && read.value.Some? ==> profilePictureUrl == read.value
      ensures read.Failed? || read.value.None? ==> profilePictureUrl == Some("")
    {
      match read
      case Done(value) =>
        profilePictureUrl := Some(value.GetOr(""));
      case Failed(_) =>
        profilePictureUrl := Some("");
    }

    /** The local username follows the remote write only when that write succeeded. */
    method UpdateUsername(newUsername: string, write: Reply<()>)
      modifies this`username
      ensures username == if write.Done? then Some(newUsername) else old(username)
    {
      if write.Done? {
        username := Some(newUsername);
      }
    }

    /** `login`: empty credentials are refused without a backend call; otherwise Loading until the sign-in completes. */
    method Login(email: string, password: string) returns (started: bool)
      modifies this`authState
      ensures started <==> email != "" && password != ""
      ensures authState == if started then Loading else Error(EmptyLoginMessage)
    {
      if email == "" || password == "" {
        authState := Error(EmptyLoginMessage);
        return false;
      }
      authState := Loading;
      started := true;
    }

    /** The sign-in task completed (`result` carries the signed-in user's id, if any). */
    method OnSignInComplete(result: Reply<Option<string>>)
      modifies this`authState
      ensures result.Done? ==> authState == Authenticated
      ensures result.Failed? ==> authState == Error(result.message.GetOr(LoginFailedMessage))
    {
      match result
      case Done(_) =>
        authState := Authenticated;
      case Failed(message) =>
        authState := Error(message.GetOr(LoginFailedMessage));
    }

    /** `signup`: any empty field is refused without a backend call; otherwise Loading. */
    method Signup(email: string, username: string, password: string) returns (started: bool)
      modifies this`authState
      ensures started <==> email != "" && username != "" && password != ""
      ensures authState == if started then Loading else Error(EmptySignupMessage)
    {
      if username == "" || password == "" || email == "" {
        authState := Error(EmptySignupMessage);
        return false;
      }
      authState := Loading;
      started := true;
    }

    /**
     * The account-creation task completed. With a signed-in user the user record is
     * written next (the state stays as it is); a failure is reported as an error.
     */
    method OnAccountCreated(email: string, username: string, result: Reply<Option<string>>)
      returns (record: Option<UserRecord>)
      modifies this`authState
      ensures result.Done? && result.value.Some? ==>
                && record == Some(UserRecord(email, username, result.value.value, DefaultProfilePictureUrl))
                && authState == old(authState)
      ensures result.Done? && result.value.None? ==> record == None && authState == old(authState)
      ensures result.Failed? ==> record == None && authState == Error(result.message.GetOr(SignupFailedMessage))
    {
      record := None;
      match result
      case Done(user) =>
        if user.Some? {
          record := Some(UserRecord(email, username, user.value, DefaultProfilePictureUrl));
        }
      case Failed(message) =>
        authState := Error(message.GetOr(SignupFailedMessage));
    }

    /** The write of the new user's record completed. */
    method OnUserRecordSaved(result: Reply<()>)
      modifies this`authState
      ensures result.Done? ==> authState == Authenticated
      ensures result.Failed? ==> authState == Error(result.message.GetOr(SaveFailedMessage))
    {
      match result
      case Done(_) =>
        authState := Authenticated;
      case Failed(message) =>
        authState := Error(message.GetOr(SaveFailedMessage));
    }

    method Signout()
      modifies this
      ensures authState == Unauthenticated && username == Some("") && profilePictureUrl == Some("")
    {
      authState := Unauthenticated;
      username := Some("");
      profilePictureUrl := Some("");
    }

    method ClearError()
      modifies this`authState
      ensures authState == AfterClearError(old(authState))
    {
      if authState.Error? {
        authState := Unauthenticated;
      }
    }
  }

  /**
   * A login from a fresh view model: Authenticated exactly when both credentials are given
   * and the sign-in succeeds; every other path ends in an error.
   */
  method LoginFlow(currentUser: Option<string>, email: string, password: string, result: Reply<Option<string>>)
    returns (final: AuthState)
    ensures final == Authenticated <==> email != "" && password != "" && result.Done?
    ensures final != Authenticated ==> final.Error?
    ensures (email == "" || password == "") ==> final == Error(EmptyLoginMessage)
  {
    var vm := new AuthViewModel(currentUser);
    var started := vm.Login(email, password);
    if started {
      vm.OnSignInComplete(result);
    }
    final := vm.authState;
  }

  /**
   * A sign-up from a fresh view model: Authenticated exactly when all fields are given, the
   * account is created with a signed-in user and the user record is saved. A created account
   * without a signed-in user leaves the state at Loading; every other path is an error.
   */
  method SignupFlow(email: string, username: string, password: string,
                    created: Reply<Option<string>>, saved: Reply<()>)
    returns (final: AuthState, record: Option<UserRecord>)
    ensures final == Authenticated <==>
              email != "" && username != "" && password != "" && created.Done? && created.value.Some? && saved.Done?
    ensures final == Loading <==> email != "" && username != "" && password != "" && created == Done(None)
    ensures final != Authenticated && final != Loading ==> final.Error?
    ensures record.Some? <==> email != "" && username != "" && password != "" && created.Done? && created.value.Some?
    ensures record.Some? ==> record.value.username == username && record.value.profilePictureUrl == DefaultProfilePictureUrl
  {
    var vm := new AuthViewModel(None);
    record := None;
    var started := vm.Signup(email, username, password);
    if started {
      record := vm.OnAccountCreated(email, username, created);
      if record.Some? {
        vm.OnUserRecordSaved(saved);
      }
    }
    final := vm.authState;
  }

  /**
   * The confirm button of the change-username dialog (ProfileScreen): a blank name is
   * refused; otherwise the name is written and shown once the write succeeds.
   */
  method ConfirmUsernameChange(vm: AuthViewModel, newUsername: string, write: Reply<()>) returns (saved: bool)
    modifies vm`username
    ensures saved <==> !IsBlank(newUsername)
    ensures vm.username == if saved && write.Done? then Some(newUsername) else old(vm.username)
  {
    saved := !IsBlank(newUsername);
    if saved {
      vm.UpdateUsername(newUsername, write);
    }
  }
}
