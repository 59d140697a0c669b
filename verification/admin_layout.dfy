/** The client layout of the admin area (`AdminLayout`): until its effect has
    run it renders the page bare; afterwards it adds the sidebar except on
    its own list of public pages. */
module AdminLayout {
  import opened Wrappers
  import opened Text
  import Middleware

  /** The layout's public pages: a longer list than the guard's. */
  const LayoutPublicPages: seq<string> :=
    ["/admin/login", "/admin/register", "/admin/fix-user", "/admin/setup-demo", "/admin/test-connection"]

  /** The two React state variables of the layout. */
  datatype LayoutState = LayoutState(mounted: bool, isPublicPage: bool)

  /** `useState(false)` for both. */
  const Initial: LayoutState := LayoutState(false, false)

  /** The effect on mount and on every pathname change:
      `setMounted(true); setIsPublicPage(publicPages.includes(pathname || ''))`. */
  function AfterEffect(pathname: Option<string>): (s: LayoutState)
    ensures s.mounted
    ensures s.isPublicPage <==> pathname.Some? && pathname.value in LayoutPublicPages
  {
    LayoutState(true, pathname.GetOr("") in LayoutPublicPages)
  }

  datatype Render = Bare | WithSidebar

  /** The render decision: children alone, or children inside the sidebar frame. */
  function RenderOf(s: LayoutState): (r: Render)
    ensures !s.mounted ==> r == Bare
    ensures r == WithSidebar <==> s.mounted && !s.isPublicPage
  {
    if !s.mounted || s.isPublicPage then Bare else WithSidebar
  }

  /** Before the effect has run, every path is rendered without the sidebar. */
  lemma BareBeforeMount()
    ensures RenderOf(Initial) == Bare
  {
  }

  /** After mounting, the sidebar is left out exactly on the five listed
      pages; a missing pathname counts as "" and gets the sidebar. */
  lemma SidebarAfterMount(pathname: Option<string>)
    ensures RenderOf(AfterEffect(pathname)) == Bare <==>
            pathname.Some? && pathname.value in LayoutPublicPages
    ensures pathname.None? ==> RenderOf(AfterEffect(pathname)) == WithSidebar
  {
  }

  /** The guard's public pages are all bare in the layout, but the layout
      also renders `/admin/fix-user` and `/admin/setup-demo` bare while the
      guard sends a visitor without a session there to the login page. */
  lemma PublicListsDiffer()
    ensures forall p :: p in Middleware.PublicPages ==> p in LayoutPublicPages
    ensures "/admin/fix-user" in LayoutPublicPages && "/admin/fix-user" !in Middleware.PublicPages
    ensures "/admin/setup-demo" in LayoutPublicPages && "/admin/setup-demo" !in Middleware.PublicPages
    ensures Middleware.Decide("/admin/fix-user", None, Middleware.NoRow) == Middleware.Redirect(Middleware.LoginPath)
    ensures Middleware.Decide("/admin/setup-demo", None, Middleware.NoRow) == Middleware.Redirect(Middleware.LoginPath)
  {
    assert StartsWith("/admin/fix-user", Middleware.AdminPath);
    assert StartsWith("/admin/setup-demo", Middleware.AdminPath);
  }
}
