/** The sidebar's visibility: the element the extension inserted (absent
    until created, or once it left the page), its `style.display` and the
    `sidebarVisible` flag.  The DOM itself is not modelled. */
module Sidebar {
  import opened Results

  /** `sidebar` holds the element's `style.display` when the element
      exists; `visible` is the `sidebarVisible` flag. */
  datatype SidebarState = SidebarState(sidebar: Option<string>, visible: bool)

  /** The display value and the flag agree. */
  predicate Consistent(s: SidebarState) {
    s.sidebar.Some? ==> s.sidebar.value == (if s.visible then "block" else "none")
  }

  /** `showSidebar()`: only acts when the element exists. */
  function Show(s: SidebarState): (r: SidebarState)
    ensures s.sidebar.None? ==> r == s
    ensures s.sidebar.Some? ==> r.visible && r.sidebar.Some?
    ensures Consistent(s) ==> Consistent(r)
  {
    if s.sidebar.Some? then SidebarState(Some("block"), true) else s
  }

  /** `hideSidebar()`: only acts when the element exists. */
  function Hide(s: SidebarState): (r: SidebarState)
    ensures s.sidebar.None? ==> r == s
    ensures s.sidebar.Some? ==> !r.visible && r.sidebar.Some?
    ensures Consistent(s) ==> Consistent(r)
  {
    if s.sidebar.Some? then SidebarState(Some("none"), false) else s
  }

  /** `toggleSidebarVisibility()`: hides when the flag is set, shows
      otherwise. */
  function Toggle(s: SidebarState): (r: SidebarState)
    ensures s.sidebar.None? ==> r == s
    ensures s.sidebar.Some? ==> r.sidebar.Some? && r.visible == !s.visible && Consistent(r)
  {
    if s.visible then Hide(s) else Show(s)
  }

  // ------------------------------------------------------------ properties

  /** Toggling twice restores any state whose display matches its flag. */
  lemma ToggleTwice(s: SidebarState)
    requires Consistent(s)
    ensures Toggle(Toggle(s)) == s
  {
  }

  /** Showing and hiding are idempotent. */
  lemma ShowHideIdempotent(s: SidebarState)
    ensures Show(Show(s)) == Show(s) && Hide(Hide(s)) == Hide(s)
  {
  }
}
