/** The sidebar: whether it is drawn expanded, which navigation entry is
    highlighted for the current path, the store-switcher menu, and the accent
    colour per provider. */
module Sidebar {
  import opened Text
  import opened UIStore

  /** Accent colour class per provider name. */
  const ProviderColors: map<string, string> := map[
    "shopify" := "bg-emerald-500",
    "medusa" := "bg-violet-500",
    "custom" := "bg-amber-500"
  ]

  /** Every provider a store can have has an accent colour. */
  lemma ProviderColorsTotal(p: Provider)
    ensures ProviderName(p) in ProviderColors
  {
  }

  /** The routes of the navigation entries, in the order they are listed. */
  const NavHrefs: seq<string> := ["/", "/customers", "/products", "/categories",
                                  "/variants", "/orders", "/analytics", "/settings"]

  /** Width in pixels of the sidebar from the `md` breakpoint up; below it the
      sidebar is a full-width drawer. */
  function WidthPx(collapsed: bool): (w: nat)
    ensures w == 68 || w == 260
    ensures collapsed <==> w < 260
  {
    if collapsed then 68 else 260
  }

  /** Labels are shown when the sidebar is not collapsed, or when it is open
      as the mobile drawer. */
  function IsExpanded(s: UIState): (r: bool)
    ensures !r <==> s.sidebarCollapsed && !s.mobileSidebarOpen
  {
    !s.sidebarCollapsed || s.mobileSidebarOpen
  }

  /** The root entry is active only on the root path; every other entry is
      active when its route is a plain string prefix of the path. */
  function IsNavActive(href: string, pathname: string): (r: bool)
    ensures href == "/" ==> (r <==> pathname == "/")
    ensures href != "/" ==> (r <==> |href| <= |pathname| && pathname[..|href|] == href)
  {
    if href == "/" then pathname == "/" else StartsWith(pathname, href)
  }

  /** Prefix matching does not stop at a path segment boundary. */
  lemma NavPrefixIgnoresSegments()
    ensures IsNavActive("/products", "/products/123")
    ensures IsNavActive("/products", "/productsX")
    ensures !IsNavActive("/", "/products")
  {
  }

  /** On the route of a navigation entry, that entry and no other is active. */
  lemma ExactlyOneActiveOnNavRoute(k: nat, i: nat)
    requires k < |NavHrefs| && i < |NavHrefs|
    ensures IsNavActive(NavHrefs[i], NavHrefs[k]) <==> i == k
  {
    var h, p := NavHrefs[i], NavHrefs[k];
    if h != "/" && |h| <= |p| {
      // Distinct entries already differ among their first four characters.
      assert p[..|h|] == h ==> p[1] == h[1] && p[2] == h[2] && p[3] == h[3];
    }
  }

  /** Clicking the store switcher flips the menu only while expanded. */
  function ToggleStoreMenu(menuOpen: bool, expanded: bool): (r: bool)
    ensures expanded ==> r != menuOpen
    ensures !expanded ==> r == menuOpen
  {
    if expanded then !menuOpen else menuOpen
  }

  /** The store menu is on screen while it is open and the sidebar is
      expanded. */
  function StoreMenuShown(menuOpen: bool, s: UIState): (r: bool)
    ensures r ==> menuOpen
    ensures s.sidebarCollapsed && !s.mobileSidebarOpen ==> !r
    ensures menuOpen && (!s.sidebarCollapsed || s.mobileSidebarOpen) ==> r
  {
    menuOpen && IsExpanded(s)
  }

  /** After a click on the switcher the menu is on screen exactly when the
      sidebar is expanded and the menu was closed; two clicks cancel out. A
      collapsed sidebar never shows it. */
  lemma SwitcherClick(s: UIState, menuOpen: bool)
    ensures var after := ToggleStoreMenu(menuOpen, IsExpanded(s));
            StoreMenuShown(after, s) <==> IsExpanded(s) && !menuOpen
    ensures ToggleStoreMenu(ToggleStoreMenu(menuOpen, IsExpanded(s)), IsExpanded(s)) == menuOpen
    ensures s.sidebarCollapsed && !s.mobileSidebarOpen ==>
              !StoreMenuShown(ToggleStoreMenu(menuOpen, IsExpanded(s)), s)
  {
  }

  /** Picking an entry of the store menu selects that store and closes the menu. */
  function SelectStore(s: UIState, storeId: string): (r: (UIState, bool))
    ensures !r.1
    ensures r.0.stores == s.stores
    ensures HasId(s.stores, storeId) ==>
              && r.0.activeStoreId == storeId
              && r.0.activeStore == s.stores[IndexOfId(s.stores, storeId)]
              && r.0.(activeStoreId := s.activeStoreId, activeStore := s.activeStore) == s
    ensures !HasId(s.stores, storeId) ==> r.0 == s
  {
    (SetActiveStore(s, storeId), false)
  }

  /** Every entry the menu lists is selectable, and selecting it keeps the
      state valid. */
  lemma SelectListedStore(s: UIState, i: nat)
    requires Valid(s) && i < |s.stores|
    ensures Valid(SelectStore(s, s.stores[i].id).0)
    ensures SelectStore(s, s.stores[i].id).0.activeStoreId == s.stores[i].id
  {
    assert HasId(s.stores, s.stores[i].id);
  }

  /** The close button of the mobile drawer and a click on a navigation entry
      both close the drawer. */
  function CloseMobileDrawer(s: UIState): (r: UIState)
    ensures !r.mobileSidebarOpen
    ensures r.(mobileSidebarOpen := s.mobileSidebarOpen) == s
  {
    SetMobileSidebarOpen(s, false)
  }
}
