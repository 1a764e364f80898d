/** The top bar: the route-to-title table with its fallback, the light/dark
    theme switch, and the Search button that opens the command palette. */
module Topbar {
  import opened UIStore

  datatype PageTitle = PageTitle(title: string, desc: string)

  const PageTitles: map<string, PageTitle> := map[
    "/" := PageTitle("Dashboard", "Overview of your store performance"),
    "/products" := PageTitle("Products", "Manage your product catalog"),
    "/categories" := PageTitle("Categories", "Manage product categories"),
    "/variants" := PageTitle("Variants", "Manage product variants and options"),
    "/orders" := PageTitle("Orders", "Track and manage customer orders"),
    "/customers" := PageTitle("Customers", "Customer profiles and management"),
    "/analytics" := PageTitle("Analytics", "Revenue and performance insights"),
    "/settings" := PageTitle("Settings", "Store configuration and preferences")
  ]

  const FallbackTitle: PageTitle := PageTitle("Nexus AI", "")

  /** The title for a path: the table entry under exactly that key, otherwise
      the fallback. */
  function PageFor(pathname: string): (r: PageTitle)
    ensures pathname in PageTitles ==> r == PageTitles[pathname]
    ensures pathname !in PageTitles ==> r == FallbackTitle
    ensures r.title == "Nexus AI" <==> pathname !in PageTitles
    ensures r.desc != "" <==> pathname in PageTitles
  {
    if pathname in PageTitles then PageTitles[pathname] else FallbackTitle
  }

  lemma PageTitleRoutes()
    ensures PageTitles.Keys == {"/", "/products", "/categories", "/variants",
                                "/orders", "/customers", "/analytics", "/settings"}
    ensures |PageTitles| == 8
  {
  }

  /** Lookup is by exact key: a sub-path of a listed route gets the fallback. */
  lemma SubPathGetsFallback(route: string, rest: string)
    requires route in PageTitles
    requires |rest| > 0 && rest[0] == '/'
    ensures PageFor(route + rest) == FallbackTitle
  {
    var p := route + rest;
    assert p[|route|] == '/';
  }

  /** The theme toggle: dark becomes light, anything else becomes dark. */
  function FlipTheme(theme: string): (r: string)
    ensures r == "light" || r == "dark"
    ensures r == "light" <==> theme == "dark"
  {
    if theme == "dark" then "light" else "dark"
  }

  /** Flipping twice restores the theme exactly when it was light or dark. */
  lemma FlipThemeTwice(theme: string)
    ensures FlipTheme(FlipTheme(theme)) == theme <==> theme == "dark" || theme == "light"
  {
  }

  /** The Search button opens the command palette and touches nothing else. */
  function SearchClicked(s: UIState): (r: UIState)
    ensures r.commandBarOpen
    ensures r.(commandBarOpen := s.commandBarOpen) == s
  {
    SetCommandBarOpen(s, true)
  }
}
