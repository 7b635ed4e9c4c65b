/** The route table of src/app/App.tsx as a pure decision on the location
    and on whether a user is signed in.  Route patterns are matched the way
    the router matches them by default: letters compared without regard to
    case, any number of trailing slashes accepted, and `:id` standing for one
    non-empty path segment. */
module App {
  import opened Types
  import opened Text
  import Sidebar

  /** The pages the table can render. */
  datatype Page =
    | Login
    | Dashboard
    | Candidates
    | CandidateDetail(id: string)
    | Clients
    | Team
    | Positions
    | Reports

  /** What a location produces: a page, or a `<Navigate replace>` to another path. */
  datatype Outcome = Render(page: Page) | Redirect(to: string)

  /** Which route of the table a location selects. */
  datatype Route =
    | Root                 // path "/"
    | Guarded(page: Page)  // a route wrapped in `ProtectedRoute`
    | Unmatched            // the catch-all "*"

  /** The location with its trailing slashes removed (a lone "/" stays). */
  function StripTrailingSlashes(p: string): (r: string)
    ensures r <= p
    ensures |p| > 0 ==> |r| > 0
    ensures |r| > 1 ==> r[|r| - 1] != '/'
    ensures forall i :: |r| <= i < |p| ==> p[i] == '/'
    decreases |p|
  {
    if |p| > 1 && p[|p| - 1] == '/' then StripTrailingSlashes(p[..|p| - 1]) else p
  }

  const DetailPrefix: string := "/candidates/"

  /** The route the location selects; only the detail route captures text,
      and it keeps the segment's original case. */
  function MatchPath(pathname: string): (r: Route)
    ensures r.Root? <==> StripTrailingSlashes(pathname) == "/"
    ensures r.Guarded? ==> !r.page.Login?
  {
    var p := StripTrailingSlashes(pathname);
    var key := Lower(p);
    if key == "/" then
      assert p[0] == '/' by { assert LowerChar(p[0]) == '/'; }
      Root
    else if key == "/dashboard" then Guarded(Dashboard)
    else if key == "/candidates" then Guarded(Candidates)
    else if key == "/clients" then Guarded(Clients)
    else if key == "/team" then Guarded(Team)
    else if key == "/positions" then Guarded(Positions)
    else if key == "/reports" then Guarded(Reports)
    else if |key| > |DetailPrefix| && key[..|DetailPrefix|] == DetailPrefix
         && '/' !in key[|DetailPrefix|..]
    then Guarded(CandidateDetail(p[|DetailPrefix|..]))
    else Unmatched
  }

  /** `ProtectedRoute`: without a user, a redirect to the login route;
      with one, the wrapped page. */
  function ProtectedRoute(page: Page, hasUser: bool): (o: Outcome)
    ensures o.Redirect? <==> !hasUser
    ensures o.Redirect? ==> o.to == "/"
    ensures o.Render? ==> o.page == page
  {
    if !hasUser then Redirect("/") else Render(page)
  }

  /** `AppRoutes`: the outcome of one location.  The role plays no part. */
  function Resolve(pathname: string, hasUser: bool): Outcome
  {
    match MatchPath(pathname)
    case Root => if hasUser then Redirect("/dashboard") else Render(Login)
    case Guarded(page) => ProtectedRoute(page, hasUser)
    case Unmatched => Redirect("/")
  }

  /** The page finally shown after following at most `hops` redirects, or
      None when more redirects would be needed. */
  function Follow(pathname: string, hasUser: bool, hops: nat): Option<Page>
    decreases hops
  {
    match Resolve(pathname, hasUser)
    case Render(page) => Some(page)
    case Redirect(target) => if hops == 0 then None else Follow(target, hasUser, hops - 1)
  }

  /** The login page renders only for a signed-out visitor at "/" (trailing
      slashes aside); every other location, and every signed-in visit, shows
      another page or redirects. */
  lemma LoginOnlyAtRoot(pathname: string, hasUser: bool)
    ensures Resolve(pathname, hasUser) == Render(Login)
      <==> !hasUser && StripTrailingSlashes(pathname) == "/"
  {
  }

  lemma LowerFixes(s: string)
    requires forall i :: 0 <= i < |s| ==> !('A' <= s[i] <= 'Z')
    ensures Lower(s) == s
  {
  }

  /** The four routes declared first. */
  lemma FirstRoutes()
    ensures MatchPath("/") == Root
    ensures MatchPath("/dashboard") == Guarded(Dashboard)
    ensures MatchPath("/candidates") == Guarded(Candidates)
    ensures MatchPath("/clients") == Guarded(Clients)
  {
    LowerFixes("/");
    LowerFixes("/dashboard");
    LowerFixes("/candidates");
    LowerFixes("/clients");
  }

  /** The three routes declared last. */
  lemma LastRoutes()
    ensures MatchPath("/team") == Guarded(Team)
    ensures MatchPath("/positions") == Guarded(Positions)
    ensures MatchPath("/reports") == Guarded(Reports)
  {
    LowerFixes("/team");
    LowerFixes("/positions");
    LowerFixes("/reports");
    assert "/clients"[1] != "/reports"[1];
    assert "/dashboard"[1] != "/positions"[1];
  }

  /** Each literal route path selects its own route. */
  lemma RouteTable()
    ensures MatchPath("/") == Root
    ensures MatchPath("/dashboard") == Guarded(Dashboard)
    ensures MatchPath("/candidates") == Guarded(Candidates)
    ensures MatchPath("/clients") == Guarded(Clients)
    ensures MatchPath("/team") == Guarded(Team)
    ensures MatchPath("/positions") == Guarded(Positions)
    ensures MatchPath("/reports") == Guarded(Reports)
  {
    FirstRoutes();
    LastRoutes();
  }

  /** Without a user every location ends at the login page: "/" renders it,
      and everything else redirects to "/". */
  lemma SignedOutLandsOnLogin(pathname: string)
    ensures Resolve(pathname, false) == if MatchPath(pathname).Root? then Render(Login) else Redirect("/")
    ensures Follow(pathname, false, 1) == Some(Login)
  {
    RouteTable();
  }

  /** With a user every guarded location renders its page, "/" redirects to
      the dashboard, an unknown location goes through "/" to the dashboard,
      and two redirects always suffice. */
  lemma SignedInLanding(pathname: string)
    ensures MatchPath(pathname).Guarded? ==> Resolve(pathname, true) == Render(MatchPath(pathname).page)
    ensures MatchPath(pathname).Root? ==> Resolve(pathname, true) == Redirect("/dashboard")
    ensures MatchPath(pathname).Unmatched? ==> Resolve(pathname, true) == Redirect("/")
    ensures Follow(pathname, true, 2)
      == Some(if MatchPath(pathname).Guarded? then MatchPath(pathname).page else Dashboard)
  {
    RouteTable();
  }

  /** `/candidates/:id` accepts exactly one non-empty segment after
      `/candidates/` and hands it over unchanged. */
  lemma DetailRoute(id: string)
    requires id != "" && '/' !in id
    ensures MatchPath(DetailPrefix + id) == Guarded(CandidateDetail(id))
  {
    var p := DetailPrefix + id;
    assert p[|p| - 1] == id[|id| - 1];
    assert StripTrailingSlashes(p) == p;
    LowerFixes(DetailPrefix);
    assert Lower(p)[..|DetailPrefix|] == Lower(DetailPrefix) by {
      assert forall i :: 0 <= i < |DetailPrefix| ==> Lower(p)[i] == LowerChar(DetailPrefix[i]);
    }
    assert Lower(p)[|DetailPrefix|..] == Lower(id);
    LowerKeepsChar(id, '/');
    assert p[|DetailPrefix|..] == id;
  }

  /** A second segment after the id is not a detail route: it falls to the
      catch-all. */
  lemma DetailRouteOneSegmentOnly(a: string, b: string)
    requires a != "" && b != "" && '/' !in b
    ensures MatchPath(DetailPrefix + a + "/" + b) == Unmatched
  {
    var p := DetailPrefix + a + "/" + b;
    assert p[|p| - 1] == b[|b| - 1];
    assert StripTrailingSlashes(p) == p;
    var rest := a + "/" + b;
    assert p[|DetailPrefix|..] == rest;
    assert Lower(p)[|DetailPrefix|..] == Lower(rest);
    assert rest[|a|] == '/';
    LowerKeepsChar(rest, '/');
  }

  /** Routing ignores the role: a signed-in user of any role who types
      `/reports` gets the Reports page, although the menus of recruiters and
      assistant managers do not offer it. */
  lemma RoutingIgnoresRole()
    ensures Resolve("/reports", true) == Render(Reports)
    ensures Sidebar.ReportsItem !in Sidebar.VisibleItems(Recruiter)
    ensures Sidebar.ReportsItem !in Sidebar.VisibleItems(AM)
  {
    RouteTable();
    Sidebar.RecruiterMenu();
    Sidebar.AssistantManagerMenu();
    assert Recruiter !in Sidebar.ReportsItem.roles;
    assert AM !in Sidebar.ReportsItem.roles;
  }

  /** Every menu destination is a guarded route of the table. */
  lemma MenuPathsAreRoutes()
    ensures forall it :: it in Sidebar.MenuItems ==> MatchPath(it.path).Guarded?
  {
    RouteTable();
  }

  /** A location the router accepts need not highlight the menu: with a
      trailing slash or other letter case the page renders, but the
      highlighting test compares the location exactly. */
  lemma MatchedButNotHighlighted()
    ensures MatchPath("/Reports/") == Guarded(Reports)
    ensures !Sidebar.IsActive("/Reports/", Sidebar.ReportsItem)
  {
    assert StripTrailingSlashes("/Reports/") == "/Reports";
    assert Lower("/Reports") == "/reports";
    RouteTable();
  }
}
