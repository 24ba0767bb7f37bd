/** The routes of the front end (assets/js/application.js): the main menu
    built from the page names, the route table handed to the router, and
    the wildcard route's choice of where to go. Navigo's path matching and
    the DOM are outside the model. */
module Router {
  import opened Wrappers
  import opened Text

  /** The `settings` object of the configuration */
  datatype Settings = Settings(cleanURLs: bool, homePage: string)

  // ------------------------------------------------------------ main menu

  const MenuLead := "<li><a href=\""

  /** `templates.menuItem` with `{{pageName}}` filled in */
  function MenuItem(pageName: string): string {
    MenuLead + pageName + "\"" + MenuTail(pageName)
  }

  /** The rest of a menu item after its link target */
  function MenuTail(pageName: string): string {
    " data-navigo>" + pageName + "</a></li>"
  }

  /** A menu item links to the page it names. */
  lemma MenuItemLinksToPage(pageName: string)
    requires '"' !in pageName
    ensures QuotedAfter(MenuItem(pageName), MenuLead) == Some(pageName)
  {
    QuotedAfterValue(MenuLead, pageName, MenuTail(pageName));
  }

  /** The items of the main menu, one per page name */
  function MenuItems(pageNames: seq<string>): (items: seq<string>)
    ensures |items| == |pageNames|
    ensures forall i :: 0 <= i < |pageNames| ==> items[i] == MenuItem(pageNames[i])
  {
    seq(|pageNames|, i requires 0 <= i < |pageNames| => MenuItem(pageNames[i]))
  }

  /** The main menu: the items in page order */
  function Menu(pageNames: seq<string>): string {
    Join(MenuItems(pageNames))
  }

  /** The item of the i-th page sits in the menu after the items of all
      earlier pages. */
  lemma MenuItemAt(pageNames: seq<string>, i: nat)
    requires i < |pageNames|
    ensures var start := |Join(MenuItems(pageNames)[..i])|;
      start + |MenuItem(pageNames[i])| <= |Menu(pageNames)|
      && Menu(pageNames)[start..start + |MenuItem(pageNames[i])|] == MenuItem(pageNames[i])
  {
    JoinPartAt(MenuItems(pageNames), i);
  }

  // ---------------------------------------------------------- route table

  /** The handlers registered with the router */
  datatype Handler =
    | StaticPage(name: string)
    | ReleasesLanding
    | TrackPage
    | ReleasePage
    | Wildcard

  const ReleasesRoute := "releases"
  const TrackRoute := "release/:title/track/:trackNumber"
  const ReleaseRoute := "release/:title"
  const WildcardRoute := "*"

  predicate IsFixedRoute(pattern: string) {
    pattern == ReleasesRoute || pattern == TrackRoute || pattern == ReleaseRoute || pattern == WildcardRoute
  }

  /** The `pages` object: a static route per page name, then the fixed
      routes, assigned after the static ones and so replacing any page of
      the same name */
  function RouteTable(pageNames: seq<string>): (t: map<string, Handler>)
    ensures t.Keys == (set n | n in pageNames) + {ReleasesRoute, TrackRoute, ReleaseRoute, WildcardRoute}
    ensures t[ReleasesRoute] == ReleasesLanding && t[TrackRoute] == TrackPage
    ensures t[ReleaseRoute] == ReleasePage && t[WildcardRoute] == Wildcard
    ensures forall n :: n in pageNames && !IsFixedRoute(n) ==> t[n] == StaticPage(n)
  {
    var pages := map n | n in pageNames :: StaticPage(n);
    pages[ReleasesRoute := ReleasesLanding][TrackRoute := TrackPage][ReleaseRoute := ReleasePage][WildcardRoute := Wildcard]
  }

  // ------------------------------------------------------- wildcard route

  /** What the wildcard route does: resolve another path, and mark the menu
      link with the given href as active */
  datatype Redirect = Redirect(target: string, activeHref: Option<string>)

  /** The wildcard route: the configured home page when there is one, the
      releases landing page otherwise */
  function Fallback(s: Settings): (r: Redirect)
    ensures r.target != ""
    ensures r.activeHref.Some? <==> s.homePage != ""
    ensures s.homePage != "" ==> r.target == s.homePage && r.activeHref == Some(s.homePage)
    ensures s.homePage == "" ==> r.target == ReleasesRoute
  {
    if |s.homePage| > 0 then Redirect(s.homePage, Some(s.homePage)) else Redirect(ReleasesRoute, None)
  }

  /** When the home page is unset or one of the pages (and not itself the
      wildcard pattern), the wildcard route sends the visitor to a route of
      the table other than the wildcard. */
  lemma FallbackLeavesWildcard(pageNames: seq<string>, s: Settings)
    requires s.homePage == "" || s.homePage in pageNames
    requires s.homePage != WildcardRoute
    ensures Fallback(s).target in RouteTable(pageNames)
    ensures RouteTable(pageNames)[Fallback(s).target] != Wildcard
  {
    var t := RouteTable(pageNames);
    var target := Fallback(s).target;
    if s.homePage != "" && !IsFixedRoute(target) {
      assert t[target] == StaticPage(target);
    }
  }
}
