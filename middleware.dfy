/**
 * The route guard of the web app (frontend/middleware.ts): which paths need
 * a session, which are for signed-out visitors only, and the redirect it
 * decides for one request.
 */
module RouteGuard {
  import opened Wrappers
  import opened Strings

  const ProtectedPaths: seq<string> := ["/mail(.*)", "/mail/send-mail", "/builder(.*)", "/forms(.*)", "/dashboard", "/chat(.*)", "/chat", "/chat/[chatId]"]
  const AuthPaths: seq<string> := ["/sign-in", "/sign-up"]

  const SignInPath: string := "/sign-in"
  const ChatPath: string := "/chat"

  /** A path matches a list entry when it is the entry or lies below it; the entry is plain text. */
  predicate MatchesEntry(pathname: string, entry: string) {
    pathname == entry || StartsWith(pathname, entry + "/")
  }

  predicate IsProtectedPath(pathname: string) {
    exists entry :: entry in ProtectedPaths && MatchesEntry(pathname, entry)
  }

  predicate IsAuthPath(pathname: string) {
    exists entry :: entry in AuthPaths && MatchesEntry(pathname, entry)
  }

  /** `!!token`: the session cookie is present and not empty. */
  predicate IsAuthenticated(cookie: Option<string>) {
    cookie.Some? && cookie.value != ""
  }

  datatype Decision = Redirect(to: string) | PassThrough

  /** `middleware`: sign-in for a protected path without a session, the chat for an auth page with one, otherwise on. */
  function Guard(pathname: string, cookie: Option<string>): (d: Decision)
    ensures IsProtectedPath(pathname) && !IsAuthenticated(cookie) ==> d == Redirect(SignInPath)
    ensures IsAuthPath(pathname) && IsAuthenticated(cookie) ==> d == Redirect(ChatPath)
    ensures d == PassThrough <==>
      !(IsProtectedPath(pathname) && !IsAuthenticated(cookie)) && !(IsAuthPath(pathname) && IsAuthenticated(cookie))
  {
    ProtectedAndAuthDisjoint(pathname);
    if IsProtectedPath(pathname) && !IsAuthenticated(cookie) then Redirect(SignInPath)
    else if IsAuthPath(pathname) && IsAuthenticated(cookie) then Redirect(ChatPath)
    else PassThrough
  }

  /** A matching path agrees with its entry on every character of the entry. */
  lemma MatchAgrees(pathname: string, entry: string, i: nat)
    requires MatchesEntry(pathname, entry) && i < |entry|
    ensures i < |pathname| && pathname[i] == entry[i]
  {
    if pathname != entry {
      assert pathname[..|entry| + 1][i] == (entry + "/")[i];
    }
  }

  /** No path is both protected and an auth path, so at most one redirect can apply. */
  lemma ProtectedAndAuthDisjoint(pathname: string)
    ensures !(IsProtectedPath(pathname) && IsAuthPath(pathname))
  {
    if IsProtectedPath(pathname) && IsAuthPath(pathname) {
      var p :| p in ProtectedPaths && MatchesEntry(pathname, p);
      var a :| a in AuthPaths && MatchesEntry(pathname, a);
      MatchAgrees(pathname, p, 1);
      MatchAgrees(pathname, a, 1);
      assert false;
    }
  }

  /** A path that differs from an entry inside the entry does not match it. */
  lemma DiffersFrom(pathname: string, entry: string, i: nat)
    requires i < |pathname| && i < |entry| && pathname[i] != entry[i]
    ensures !MatchesEntry(pathname, entry)
  {
    if MatchesEntry(pathname, entry) {
      MatchAgrees(pathname, entry, i);
    }
  }

  /** Entries are sub-paths of the listed one: every path below a protected entry is protected. */
  lemma BelowProtectedIsProtected(entry: string, rest: string)
    requires entry in ProtectedPaths
    ensures IsProtectedPath(entry + "/" + rest)
  {
    assert (entry + "/" + rest)[..|entry + "/"|] == entry + "/";
    assert MatchesEntry(entry + "/" + rest, entry);
  }

  /** `/mail/history` is not protected: `/mail(.*)` is compared as text, and `/mail/send-mail` is a sibling. */
  lemma MailHistoryUnprotected()
    ensures !IsProtectedPath("/mail/history")
  {
    var x := "/mail/history";
    DiffersFrom(x, "/mail(.*)", 5);
    DiffersFrom(x, "/mail/send-mail", 6);
    DiffersFrom(x, "/builder(.*)", 1);
    DiffersFrom(x, "/forms(.*)", 1);
    DiffersFrom(x, "/dashboard", 1);
    DiffersFrom(x, "/chat(.*)", 1);
    DiffersFrom(x, "/chat", 1);
    DiffersFrom(x, "/chat/[chatId]", 1);
  }

  /** `/builder/3` is not protected either. */
  lemma BuilderPageUnprotected()
    ensures !IsProtectedPath("/builder/3")
  {
    var x := "/builder/3";
    DiffersFrom(x, "/mail(.*)", 1);
    DiffersFrom(x, "/mail/send-mail", 1);
    DiffersFrom(x, "/builder(.*)", 8);
    DiffersFrom(x, "/forms(.*)", 1);
    DiffersFrom(x, "/dashboard", 1);
    DiffersFrom(x, "/chat(.*)", 1);
    DiffersFrom(x, "/chat", 1);
    DiffersFrom(x, "/chat/[chatId]", 1);
  }

  /** `/chat`, anything below it, and `/mail/send-mail` are protected. */
  lemma ChatAndSendMailProtected(rest: string)
    ensures IsProtectedPath("/chat") && IsProtectedPath("/chat/" + rest) && IsProtectedPath("/mail/send-mail")
  {
    assert MatchesEntry("/chat", "/chat");
    assert MatchesEntry("/mail/send-mail", "/mail/send-mail");
    BelowProtectedIsProtected("/chat", rest);
    assert "/chat" + "/" + rest == "/chat/" + rest;
  }

  /** So a signed-out visitor reaches the history page but is sent to sign in from the chat. */
  lemma SignedOutVisitor(rest: string)
    ensures Guard("/mail/history", None) == PassThrough
    ensures Guard("/chat/" + rest, None) == Redirect(SignInPath)
  {
    MailHistoryUnprotected();
    ChatAndSendMailProtected(rest);
  }

  /** The entries ending in `(.*)` as their authors meant them: the stem and everything that continues it. */
  predicate MatchesEntryIntended(pathname: string, entry: string) {
    var wildcard := "(.*)";
    if |entry| >= |wildcard| && entry[|entry| - |wildcard|..] == wildcard then
      StartsWith(pathname, entry[..|entry| - |wildcard|])
    else
      MatchesEntry(pathname, entry)
  }

  predicate IsProtectedPathIntended(pathname: string) {
    exists entry :: entry in ProtectedPaths && MatchesEntryIntended(pathname, entry)
  }

  /** Reading `(.*)` as a wildcard keeps every match of the literal reading. */
  lemma MatchImpliesIntended(pathname: string, p: string)
    requires MatchesEntry(pathname, p)
    ensures MatchesEntryIntended(pathname, p)
  {
    if |p| >= 4 && p[|p| - 4..] == "(.*)" {
      if pathname == p {
        assert pathname[..|p| - 4] == p[..|p| - 4];
      } else {
        assert pathname[..|p| + 1] == p + "/";
        assert pathname[..|p| - 4] == (p + "/")[..|p| - 4];
      }
    }
  }

  /** The intended matching protects every path the written one does, and `/mail/history` too. */
  lemma IntendedProtectsMore(pathname: string)
    ensures IsProtectedPath(pathname) ==> IsProtectedPathIntended(pathname)
    ensures IsProtectedPathIntended("/mail/history")
  {
    if IsProtectedPath(pathname) {
      var p :| p in ProtectedPaths && MatchesEntry(pathname, p);
      MatchImpliesIntended(pathname, p);
    }
    HistoryMatchesMailStem();
  }

  lemma HistoryMatchesMailStem()
    ensures MatchesEntryIntended("/mail/history", "/mail(.*)")
  {
    var m := "/mail(.*)";
    assert m[|m| - 4..] == "(.*)";
    assert m[..|m| - 4] == "/mail";
    assert "/mail/history"[..5] == "/mail";
  }

  /** The guard with the intended matching; it still never applies both redirects. */
  function GuardIntended(pathname: string, cookie: Option<string>): (d: Decision)
    ensures IsProtectedPathIntended(pathname) && !IsAuthenticated(cookie) ==> d == Redirect(SignInPath)
    ensures IsAuthPath(pathname) && IsAuthenticated(cookie) ==> d == Redirect(ChatPath)
    ensures d == PassThrough <==>
      !(IsProtectedPathIntended(pathname) && !IsAuthenticated(cookie)) && !(IsAuthPath(pathname) && IsAuthenticated(cookie))
  {
    IntendedAndAuthDisjoint(pathname);
    if IsProtectedPathIntended(pathname) && !IsAuthenticated(cookie) then Redirect(SignInPath)
    else if IsAuthPath(pathname) && IsAuthenticated(cookie) then Redirect(ChatPath)
    else PassThrough
  }

  /** Every protected entry is at least five characters long and none continues `/s`. */
  lemma ProtectedEntryShape(p: string)
    requires p in ProtectedPaths
    ensures |p| >= 5 && p[1] != 's'
    ensures |p| >= 4 && p[|p| - 4..] == "(.*)" ==> |p| >= 9
  {
    var i :| 0 <= i < |ProtectedPaths| && ProtectedPaths[i] == p;
    assert i == 0 || i == 1 || i == 2 || i == 3 || i == 4 || i == 5 || i == 6 || i == 7;
  }

  /** Under either matching, a protected path shares its second character with its entry. */
  lemma IntendedAgreesAtOne(pathname: string, p: string)
    requires p in ProtectedPaths && MatchesEntryIntended(pathname, p)
    ensures 1 < |pathname| && pathname[1] == p[1] && p[1] != 's'
  {
    ProtectedEntryShape(p);
    if |p| >= 4 && p[|p| - 4..] == "(.*)" {
      assert pathname[..|p| - 4][1] == p[..|p| - 4][1];
    } else {
      MatchAgrees(pathname, p, 1);
    }
  }

  lemma IntendedAndAuthDisjoint(pathname: string)
    ensures !(IsProtectedPathIntended(pathname) && IsAuthPath(pathname))
  {
    if IsProtectedPathIntended(pathname) && IsAuthPath(pathname) {
      var p :| p in ProtectedPaths && MatchesEntryIntended(pathname, p);
      var a :| a in AuthPaths && MatchesEntry(pathname, a);
      MatchAgrees(pathname, a, 1);
      IntendedAgreesAtOne(pathname, p);
      assert false;
    }
  }

  /** A signed-out visitor is now sent to sign in from the history page. */
  lemma IntendedGuardsHistory()
    ensures GuardIntended("/mail/history", None) == Redirect(SignInPath)
  {
    IntendedProtectsMore("/mail/history");
  }
}
