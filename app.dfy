/**
 * The activity's start-route rule and the navigation callbacks that change
 * the session: which screen the app opens on, and how logging in, logging
 * out and deleting an account change that.
 */
module App {
  import opened Wrappers
  import opened Text
  import opened Session
  import AuthScreens

  datatype Route = Home(user: string) | WelcomeBack(user: string) | Login

  const HomePrefix := "home/"
  const WelcomeBackPrefix := "welcome_back/"

  /** The route string the navigation host is given. */
  function Path(r: Route): string {
    match r
    case Home(u) => HomePrefix + u
    case WelcomeBack(u) => WelcomeBackPrefix + u
    case Login => "login"
  }

  /** Distinct routes have distinct route strings, so the string determines the screen and its user. */
  lemma PathIsInjective(a: Route, b: Route)
    requires Path(a) == Path(b)
    ensures a == b
  {
    var pa, pb := Path(a), Path(b);
    assert pa[0] == pb[0];
    match a
    case Home(u) =>
      assert b.Home? by { assert pb[0] == 'h'; }
      assert u == pa[|HomePrefix|..] == pb[|HomePrefix|..] == b.user;
    case WelcomeBack(u) =>
      assert b.WelcomeBack? by { assert pb[0] == 'w'; }
      assert u == pa[|WelcomeBackPrefix|..] == pb[|WelcomeBackPrefix|..] == b.user;
    case Login =>
      assert b.Login? by { assert pb[0] == 'l'; }
  }

  /**
   * Where the app starts: home for a remembered, logged-in user; the
   * welcome-back lock screen for a remembered user who logged out; the
   * login screen when no user is remembered, whatever the flag says.
   */
  function StartRoute(savedUser: Option<string>, loggedIn: bool): (r: Route)
    ensures r.Login? <==> savedUser.None?
    ensures r.Home? <==> savedUser.Some? && loggedIn
    ensures r.WelcomeBack? <==> savedUser.Some? && !loggedIn
    ensures !r.Login? ==> r.user == savedUser.value
  {
    if savedUser.Some? && loggedIn then Home(savedUser.value)
    else if savedUser.Some? && !loggedIn then WelcomeBack(savedUser.value)
    else Login
  }

  /** The start route the store's current contents select. */
  function StartRouteOf(store: SessionStore): Route
    reads store
  {
    StartRoute(store.CurrentUsername(), store.IsLoggedIn())
  }

  /** A fresh store opens on the login screen. */
  lemma FreshStoreStartsAtLogin(store: SessionStore)
    requires store.currentUser == None && !store.loggedIn
    ensures StartRouteOf(store) == Login
  {
  }

  /** Password or biometric login: mark the user logged in, then go home. */
  method OnLoginSuccess(store: SessionStore, username: string) returns (r: Route)
    requires store.Valid()
    modifies store
    ensures store.Valid()
    ensures r == Home(username)
    ensures store.passwords == old(store.passwords)
    ensures StartRouteOf(store) == Home(Trim(username))
  {
    store.SetLoggedIn(username);
    r := Home(username);
  }

  /**
   * Log out from settings: only the flag is cleared, so the next start
   * goes to the welcome-back screen of the remembered user.
   */
  method OnLogOut(store: SessionStore, currentUser: string) returns (r: Route)
    requires store.Valid()
    modifies store
    ensures store.Valid()
    ensures r == WelcomeBack(currentUser)
    ensures store.passwords == old(store.passwords) && store.currentUser == old(store.currentUser)
    ensures old(store.currentUser).Some? ==> StartRouteOf(store) == WelcomeBack(old(store.currentUser).value)
    ensures old(store.currentUser).None? ==> StartRouteOf(store) == Login
  {
    store.LogoutCurrentUser();
    r := WelcomeBack(currentUser);
  }

  /**
   * Delete the account from settings: its password goes, and if it is the
   * remembered user the next start goes to the login screen.
   */
  method OnDeleteAccount(store: SessionStore, currentUser: string) returns (r: Route)
    requires store.Valid()
    modifies store
    ensures store.Valid()
    ensures r == Login
    ensures !store.UserExists(currentUser)
    ensures old(store.currentUser) == Some(Trim(currentUser)) ==> StartRouteOf(store) == Login
    ensures old(store.currentUser) != Some(Trim(currentUser)) ==> StartRouteOf(store) == old(StartRouteOf(store))
  {
    store.DeleteUser(currentUser);
    r := Login;
  }

  /** The welcome-back screen accepted the password: mark the locked user logged in and go home. */
  method OnWelcomeBackSuccess(store: SessionStore, lockedUser: string) returns (r: Route)
    requires store.Valid()
    modifies store
    ensures store.Valid()
    ensures r == Home(lockedUser)
    ensures store.passwords == old(store.passwords)
    ensures StartRouteOf(store) == Home(Trim(lockedUser))
  {
    store.SetLoggedIn(lockedUser);
    r := Home(lockedUser);
  }

  /**
   * A whole session: save "bob"'s credentials (which logs in), log out,
   * come back through the welcome-back screen, then delete the account.
   * The start route after each step is home, welcome-back, home, login.
   */
  method SessionRoundTrip() returns (routes: seq<Route>)
    ensures routes == [Home("bob"), WelcomeBack("bob"), Home("bob"), Login]
  {
    TrimOfTrimmed("bob");
    var store := new SessionStore();
    store.SaveCredentials("bob", "pw");
    var afterSignUp := StartRouteOf(store);
    var _ := OnLogOut(store, "bob");
    var afterLogOut := StartRouteOf(store);
    var back := AuthScreens.WelcomeBack(store, "bob", "pw");
    assert back == AuthScreens.Success("bob");
    var _ := OnWelcomeBackSuccess(store, "bob");
    var afterReturn := StartRouteOf(store);
    var _ := OnDeleteAccount(store, "bob");
    var afterDelete := StartRouteOf(store);
    routes := [afterSignUp, afterLogOut, afterReturn, afterDelete];
  }
}
