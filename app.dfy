/** The client's top-level routing: session storage decides whether the
    user is signed in, and each path renders a page or redirects. */
module App {
  /** What a path renders. */
  datatype Element = LoginPage | RegisterPage | FeedPage | Redirect(to: string) | NoRoute

  /** `sessionStorage.getItem('user') ? true : false`. */
  predicate SignedIn(session: map<string, string>) {
    "user" in session && session["user"] != ""
  }

  /** The route table. */
  function Render(path: string, isAuthenticated: bool): (e: Element)
    ensures e == FeedPage ==> isAuthenticated
    ensures e == LoginPage || e == RegisterPage ==> !isAuthenticated
    ensures e.Redirect? ==> e.to == (if isAuthenticated then "/feed" else "/login")
  {
    if path == "/login" then (if isAuthenticated then Redirect("/feed") else LoginPage)
    else if path == "/register" then (if isAuthenticated then Redirect("/feed") else RegisterPage)
    else if path == "/feed" then (if isAuthenticated then FeedPage else Redirect("/login"))
    else if path == "/" then Redirect(if isAuthenticated then "/feed" else "/login")
    else NoRoute
  }

  /** Signed in, the sign-in pages and the root lead to the feed; signed
      out, the feed and the root lead to the login page. */
  lemma GuardRedirects()
    ensures Render("/login", true) == Redirect("/feed") && Render("/register", true) == Redirect("/feed")
    ensures Render("/", true) == Redirect("/feed")
    ensures Render("/feed", false) == Redirect("/login") && Render("/", false) == Redirect("/login")
  {
  }

  /** Every redirect lands on a page in one step. */
  lemma RedirectsSettle(path: string, isAuthenticated: bool)
    requires Render(path, isAuthenticated).Redirect?
    ensures var target := Render(Render(path, isAuthenticated).to, isAuthenticated);
            target == (if isAuthenticated then FeedPage else LoginPage)
  {
    assert "/feed" != "/login" by { assert "/feed"[1] != "/login"[1]; }
    assert "/feed" != "/register" by { assert "/feed"[1] != "/register"[1]; }
    assert "/feed" != "/" && "/login" != "/";
  }

  class Shell {
    var session: map<string, string>
    var isAuthenticated: bool

    constructor (stored: map<string, string>)
      ensures session == stored && isAuthenticated == SignedIn(stored)
    {
      session := stored;
      isAuthenticated := SignedIn(stored);
    }

    /** `handleLogin`: the serialised user is stored and the user is signed
        in; a reload would find the session signed in too. */
    method HandleLogin(userJson: string)
      requires userJson != ""
      modifies this
      ensures session == old(session)["user" := userJson]
      ensures isAuthenticated && SignedIn(session)
    {
      session := session["user" := userJson];
      isAuthenticated := true;
    }

    /** `handleLogout`: the user and the token are removed and the user is
        signed out, for a reload as well. */
    method HandleLogout()
      modifies this
      ensures session == old(session) - {"user", "token"}
      ensures !isAuthenticated && !SignedIn(session) && "token" !in session
    {
      session := session - {"user", "token"};
      isAuthenticated := false;
    }
  }
}
