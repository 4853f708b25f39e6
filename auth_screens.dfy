/**
 * The button handlers of the login, sign-up and welcome-back screens and
 * the biometric prompt callbacks: short runs of checks against the session
 * store, each ending in an error message or a success with a user name.
 */
module AuthScreens {
  import opened Wrappers
  import opened Text
  import opened Session

  /** What a handler ends in: the error message it shows, or success for a user. */
  datatype Outcome = Error(message: string) | Success(username: string)

  const LoginEmptyMessage := "Please enter both username and password"
  const NoAccountMessage := "No account with this username. Please sign up."
  const LoginWrongPasswordMessage := "Incorrect password"
  const NoPreviousUserMessage := "No previous user found. Log in manually once."
  const BiometricErrorPrefix := "Biometric Error: "
  const SignUpEmptyMessage := "Please fill in both fields"
  const UserTakenMessage := "Username already exists. Try logging in."
  const EnterPasswordMessage := "Please enter your password."
  const AccountGoneMessage := "This account no longer exists. Please log in again."
  const WelcomeBackWrongPasswordMessage := "Incorrect password."

  /** The prompt's "user cancelled" and "negative button" error codes. */
  const ErrorUserCanceled := 10
  const ErrorNegativeButton := 13

  /**
   * The login button. Both fields are trimmed first; an empty field stops
   * before the store is asked anything; an unknown user is reported before
   * the password is looked at.
   */
  method Login(store: SessionStore, username: string, password: string) returns (o: Outcome)
    ensures var u, p := Trim(username), Trim(password);
      (o == Error(LoginEmptyMessage) <==> u == [] || p == []) &&
      (o == Error(NoAccountMessage) <==> u != [] && p != [] && !store.UserExists(u)) &&
      (o == Error(LoginWrongPasswordMessage) <==>
         u != [] && p != [] && store.UserExists(u) && !store.ValidateCredentials(u, p)) &&
      (o.Success? <==> u != [] && p != [] && store.ValidateCredentials(u, p)) &&
      (o.Success? ==> o.username == u)
  {
    var cleanUsername := Trim(username);
    var cleanPassword := Trim(password);
    if cleanUsername == [] || cleanPassword == [] {
      return Error(LoginEmptyMessage);
    }
    if !store.UserExists(cleanUsername) {
      return Error(NoAccountMessage);
    }
    if store.ValidateCredentials(cleanUsername, cleanPassword) {
      o := Success(cleanUsername);
    } else {
      o := Error(LoginWrongPasswordMessage);
    }
  }

  /** A recognised fingerprint logs in the last current user, if the store remembers one. */
  function BiometricSucceeded(lastUser: Option<string>): (o: Outcome)
    ensures o.Success? <==> lastUser.Some?
    ensures o.Success? ==> o.username == lastUser.value
    ensures o.Error? ==> o.message == NoPreviousUserMessage
  {
    match lastUser
    case Some(u) => Success(u)
    case None => Error(NoPreviousUserMessage)
  }

  /**
   * A prompt error: cancelling or pressing "Use Password" leaves the shown
   * message as it was; any other error replaces it.
   */
  function BiometricFailed(errorCode: int, errString: string, message: string): (r: string)
    ensures errorCode == ErrorUserCanceled || errorCode == ErrorNegativeButton ==> r == message
    ensures errorCode != ErrorUserCanceled && errorCode != ErrorNegativeButton ==>
      |r| == |BiometricErrorPrefix| + |errString| &&
      r[..|BiometricErrorPrefix|] == BiometricErrorPrefix && r[|BiometricErrorPrefix|..] == errString
  {
    if errorCode != ErrorUserCanceled && errorCode != ErrorNegativeButton then
      BiometricErrorPrefix + errString
    else
      message
  }

  /**
   * The sign-up button. Both fields are trimmed; an empty field or a taken
   * name leaves the store as it was (a taken name's password is not
   * overwritten); otherwise the trimmed pair is saved, which also makes the
   * new user current and logged in.
   */
  method SignUp(store: SessionStore, username: string, password: string) returns (o: Outcome)
    requires store.Valid()
    modifies store
    ensures store.Valid()
    ensures var u, p := Trim(username), Trim(password);
      if u == [] || p == [] then
        o == Error(SignUpEmptyMessage) && unchanged(store)
      else if old(store.UserExists(u)) then
        o == Error(UserTakenMessage) && unchanged(store)
      else
        o == Success(u) && store.passwords == old(store.passwords)[u := p] &&
        store.currentUser == Some(u) && store.loggedIn
    ensures o.Success? ==> store.UserExists(o.username) && store.ValidateCredentials(o.username, Trim(password))
  {
    var cleanUsername := Trim(username);
    var cleanPassword := Trim(password);
    if cleanUsername == [] || cleanPassword == [] {
      return Error(SignUpEmptyMessage);
    }
    if store.UserExists(cleanUsername) {
      return Error(UserTakenMessage);
    }
    TrimmedIsOwnTrim(cleanUsername);
    store.SaveCredentials(cleanUsername, cleanPassword);
    o := Success(cleanUsername);
  }

  /**
   * The welcome-back button, for the user named in the route. The password
   * is not trimmed: only the empty string fails the first check, so a
   * password of spaces goes on to be compared as it is.
   */
  method WelcomeBack(store: SessionStore, username: string, password: string) returns (o: Outcome)
    requires store.Valid()
    modifies store
    ensures store.Valid()
    ensures password == [] ==> o == Error(EnterPasswordMessage) && unchanged(store)
    ensures password != [] && !old(store.UserExists(username)) ==>
      o == Error(AccountGoneMessage) && unchanged(store)
    ensures password != [] && old(store.UserExists(username)) && !old(store.ValidateCredentials(username, password)) ==>
      o == Error(WelcomeBackWrongPasswordMessage) && unchanged(store)
    ensures password != [] && old(store.ValidateCredentials(username, password)) ==>
      o == Success(username) && store.passwords == old(store.passwords) &&
      store.currentUser == Some(Trim(username)) && store.loggedIn
  {
    if password == [] {
      return Error(EnterPasswordMessage);
    }
    if !store.UserExists(username) {
      return Error(AccountGoneMessage);
    }
    if store.ValidateCredentials(username, password) {
      store.SetLoggedIn(username);
      o := Success(username);
    } else {
      o := Error(WelcomeBackWrongPasswordMessage);
    }
  }

  /**
   * The two screens treat a password of only whitespace differently:
   * login trims it to nothing and asks for both fields, welcome-back lets
   * it through its empty check.
   */
  method BlankPasswordContrast(store: SessionStore, username: string, password: string)
    returns (login: Outcome, welcome: Outcome)
    requires store.Valid()
    requires password != [] && forall i :: 0 <= i < |password| ==> IsWhitespace(password[i])
    modifies store
    ensures login == Error(LoginEmptyMessage)
    ensures welcome != Error(EnterPasswordMessage)
  {
    login := Login(store, username, password);
    welcome := WelcomeBack(store, username, password);
  }

  /**
   * Signing up under a padded name stores the trimmed name; a second
   * sign-up under any name with the same trim is refused and keeps the
   * first password; logging in under such a name with the first password
   * then succeeds.
   */
  method SignUpThenLogin(name: string, sameName: string, password: string, otherPassword: string)
    returns (first: Outcome, second: Outcome, login: Outcome)
    requires Trim(name) != [] && Trim(password) != [] && Trim(otherPassword) != []
    requires Trim(sameName) == Trim(name)
    ensures first == Success(Trim(name))
    ensures second == Error(UserTakenMessage)
    ensures login == Success(Trim(name))
  {
    var store := new SessionStore();
    first := SignUp(store, name, password);
    second := SignUp(store, sameName, otherPassword);
    login := Login(store, sameName, password);
  }
}
