/**
 * The credential and session store: a password per (trimmed) user name,
 * the current user name and a logged-in flag, kept in one preferences file.
 */
module Session {
  import opened Wrappers
  import opened Text

  /**
   * A name with no whitespace at either end, as every password key and
   * every current-user value is (see TrimmedIsOwnTrim).
   */
  predicate IsTrimmed(u: string) {
    u == [] || (!IsWhitespace(u[0]) && !IsWhitespace(u[|u| - 1]))
  }

  /** Trimmed names are exactly the fixed points of Trim. */
  lemma TrimmedIsOwnTrim(u: string)
    ensures IsTrimmed(u) <==> Trim(u) == u
  {
    if IsTrimmed(u) {
      TrimOfTrimmed(u);
    }
  }

  class SessionStore {
    /** The `password_<user>` entries, keyed by the trimmed user name. */
    var passwords: map<string, string>
    /** The current-user entry, absent when never set or removed. */
    var currentUser: Option<string>
    /** The logged-in entry, false when absent. */
    var loggedIn: bool

    ghost predicate Valid()
      reads this
    {
      && (forall u :: u in passwords ==> IsTrimmed(u))
      && (currentUser.Some? ==> IsTrimmed(currentUser.value))
      && (loggedIn ==> currentUser.Some?)
    }

    /** A fresh (or cleared) store. */
    constructor()
      ensures Valid()
      ensures passwords == map[] && currentUser == None && !loggedIn
    {
      passwords := map[];
      currentUser := None;
      loggedIn := false;
    }

    /** Whether a password is stored for the trimmed name. */
    predicate UserExists(username: string)
      reads this
      ensures Valid() ==> (UserExists(username) <==> exists k :: k in passwords && Trim(k) == Trim(username))
    {
      TrimIdempotent(username);
      assert Valid() ==> forall k :: k in passwords ==> Trim(k) == k by {
        forall k | k in passwords { TrimmedIsOwnTrim(k); }
      }
      Trim(username) in passwords
    }

    /** True exactly when a password is stored for the trimmed name and it equals `password`. */
    predicate ValidateCredentials(username: string, password: string)
      reads this
      ensures ValidateCredentials(username, password) ==> UserExists(username)
      ensures UserExists(username) && passwords[Trim(username)] == password ==> ValidateCredentials(username, password)
    {
      var key := Trim(username);
      key in passwords && passwords[key] == password
    }

    function CurrentUsername(): (r: Option<string>)
      reads this
      ensures Valid() && r.Some? ==> IsTrimmed(r.value)
    {
      currentUser
    }

    predicate IsLoggedIn()
      reads this
      ensures Valid() && IsLoggedIn() ==> CurrentUsername().Some?
    {
      loggedIn
    }

    /** Store the password under the trimmed name, make that name current and log it in. */
    method SaveCredentials(username: string, password: string)
      requires Valid()
      modifies this
      ensures Valid()
      ensures passwords == old(passwords)[Trim(username) := password]
      ensures currentUser == Some(Trim(username)) && loggedIn
      ensures UserExists(username) && ValidateCredentials(username, password)
      ensures CurrentUsername() == Some(Trim(username)) && IsLoggedIn()
    {
      var key := Trim(username);
      assert IsTrimmed(key);
      passwords := passwords[key := password];
      currentUser := Some(key);
      loggedIn := true;
    }

    /** Make the trimmed name current and set the flag; passwords are untouched. */
    method SetLoggedIn(username: string)
      requires Valid()
      modifies this
      ensures Valid()
      ensures passwords == old(passwords)
      ensures currentUser == Some(Trim(username)) && loggedIn
    {
      var key := Trim(username);
      assert IsTrimmed(key);
      currentUser := Some(key);
      loggedIn := true;
    }

    /** Clear only the flag: the current user and the passwords stay. */
    method LogoutCurrentUser()
      requires Valid()
      modifies this
      ensures Valid()
      ensures passwords == old(passwords) && currentUser == old(currentUser)
      ensures !loggedIn
    {
      loggedIn := false;
    }

    /**
     * Remove the trimmed name's password; if that name is the current user,
     * also forget the current user and clear the flag.
     */
    method DeleteUser(username: string)
      requires Valid()
      modifies this
      ensures Valid()
      ensures passwords == old(passwords) - {Trim(username)}
      ensures !UserExists(username)
      ensures old(currentUser) == Some(Trim(username)) ==> currentUser == None && !loggedIn
      ensures old(currentUser) != Some(Trim(username)) ==>
        currentUser == old(currentUser) && loggedIn == old(loggedIn)
    {
      passwords := passwords - {Trim(username)};
      var current := currentUser;
      if current == Some(Trim(username)) {
        currentUser := None;
        loggedIn := false;
      }
    }

    /** Empty the whole store. */
    method ClearAll()
      requires Valid()
      modifies this
      ensures Valid()
      ensures passwords == map[] && currentUser == None && !loggedIn
      ensures !IsLoggedIn() && CurrentUsername().None?
    {
      passwords := map[];
      currentUser := None;
      loggedIn := false;
    }
  }

  /** Names that trim to the same string are the same account for every query. */
  lemma TrimInsensitive(s: SessionStore, a: string, b: string, password: string)
    requires Trim(a) == Trim(b)
    ensures s.UserExists(a) == s.UserExists(b)
    ensures s.ValidateCredentials(a, password) == s.ValidateCredentials(b, password)
  {
  }

  /** "bob " and "bob" are one account. */
  lemma PaddedNameIsSameAccount(s: SessionStore, password: string)
    ensures s.UserExists("bob ") == s.UserExists("bob")
    ensures s.ValidateCredentials(" bob\t", password) == s.ValidateCredentials("bob", password)
  {
    TrimBob();
  }

  lemma TrimBob()
    ensures Trim("bob ") == "bob" && Trim(" bob\t") == "bob"
  {
    TrailingSpaceBob();
    PaddedTabBob();
  }

  lemma TrailingSpaceBob()
    ensures Trim("bob ") == "bob"
  {
    TrimOfTrimmed("bob");
    var a := "bob ";
    assert TrimStart(a) == a;
    assert a[..|a| - 1] == "bob";
    assert TrimEnd(a) == TrimEnd("bob");
  }

  lemma PaddedTabBob()
    ensures Trim(" bob\t") == "bob"
  {
    TrimOfTrimmed("bob");
    var b, c := " bob\t", "bob\t";
    assert b[1..] == c;
    assert TrimStart(c) == c;
    assert TrimStart(b) == c;
    assert c[..3] == "bob";
    assert TrimEnd(c) == TrimEnd("bob");
  }

  /** A password check succeeds exactly when a password is stored for the trimmed name and equals the given one. */
  lemma ValidateNeedsStoredEqualPassword(s: SessionStore, username: string, password: string)
    ensures s.ValidateCredentials(username, password) ==> s.UserExists(username)
    ensures s.ValidateCredentials(username, password) ==> s.passwords[Trim(username)] == password
    ensures s.UserExists(username) && s.passwords[Trim(username)] != password ==>
      !s.ValidateCredentials(username, password)
    ensures s.UserExists(username) && s.passwords[Trim(username)] == password ==>
      s.ValidateCredentials(username, password)
  {
  }

  /** A stored password is case-sensitive and not trimmed: "pw " does not match "pw". */
  lemma PasswordIsExact(s: SessionStore, username: string)
    requires s.ValidateCredentials(username, "pw")
    ensures !s.ValidateCredentials(username, "pw ")
    ensures !s.ValidateCredentials(username, "PW")
  {
  }
}
