/**
 * The sidebar of DashboardLayout: its three navigation entries and the test
 * `isActive` that highlights the entry for the current path.
 */
module Navigation {

  datatype NavItem = NavItem(to: string, caption: string, exact: bool)

  const DashboardPath: string := "/dashboard"
  const CreatePath: string := "/dashboard/quotations/create"
  const SettingsPath: string := "/dashboard/settings"

  /** `navItems`, in order; only Dashboard is matched exactly. */
  const NavItems: seq<NavItem> := [
    NavItem(DashboardPath, "Dashboard", true),
    NavItem(CreatePath, "New Quotation", false),
    NavItem(SettingsPath, "Settings", false)
  ]

  /** String.prototype.startsWith. */
  predicate StartsWith(s: string, prefix: string) {
    |prefix| <= |s| && s[..|prefix|] == prefix
  }

  /** `isActive(path, exact)` for the current path. */
  predicate IsActive(currentPath: string, path: string, exact: bool) {
    if exact then currentPath == path || currentPath == path + "/" else StartsWith(currentPath, path)
  }

  /** The non-exact test is Dafny's prefix order on strings. */
  lemma InexactIsPrefix(currentPath: string, path: string)
    ensures IsActive(currentPath, path, false) <==> path <= currentPath
  {
  }

  /** An entry active under the exact test is active under the prefix test too. */
  lemma ExactImpliesInexact(currentPath: string, path: string)
    requires IsActive(currentPath, path, true)
    ensures IsActive(currentPath, path, false)
  {
    if currentPath == path + "/" {
      assert currentPath[..|path|] == path;
    }
  }

  /** The entries highlighted at `currentPath`, in menu order. */
  function ActiveItems(currentPath: string, items: seq<NavItem>): (active: seq<NavItem>)
    ensures forall it :: it in active <==> it in items && IsActive(currentPath, it.to, it.exact)
  {
    if items == [] then []
    else
      var rest := ActiveItems(currentPath, items[1..]);
      assert forall it :: it in items <==> it == items[0] || it in items[1..];
      if IsActive(currentPath, items[0].to, items[0].exact) then [items[0]] + rest else rest
  }

  /**
   * On the settings page, and on any page below it, only Settings is
   * highlighted: Dashboard is matched exactly, so its prefix does not count.
   */
  lemma SettingsHighlightsOnlySettings(currentPath: string)
    requires StartsWith(currentPath, SettingsPath)
    ensures IsActive(currentPath, SettingsPath, false)
    ensures !IsActive(currentPath, DashboardPath, true)
    ensures !IsActive(currentPath, CreatePath, false)
    ensures ActiveItems(currentPath, NavItems) == [NavItems[2]]
  {
    assert currentPath[..|SettingsPath|] == SettingsPath;
    assert currentPath[11] == SettingsPath[11] == 's';
    assert |currentPath| > |DashboardPath + "/"|;
    assert CreatePath[11] == 'q';
    assert NavItems[1..][1..] == [NavItems[2]];
    assert ActiveItems(currentPath, NavItems[1..][1..]) == [NavItems[2]];
  }

  /** The dashboard home, with or without a trailing slash, highlights only Dashboard. */
  lemma HomeHighlightsOnlyDashboard(currentPath: string)
    requires currentPath == DashboardPath || currentPath == DashboardPath + "/"
    ensures ActiveItems(currentPath, NavItems) == [NavItems[0]]
  {
    assert |currentPath| < |CreatePath| && |currentPath| < |SettingsPath|;
    assert NavItems[1..][1..] == [NavItems[2]];
    assert ActiveItems(currentPath, NavItems[1..][1..]) == [];
  }

  /** The quotation list page is under none of the entries: nothing is highlighted there. */
  lemma ListPageHighlightsNothing(currentPath: string)
    requires currentPath == "/dashboard/quotations"
    ensures ActiveItems(currentPath, NavItems) == []
  {
    assert |currentPath| < |CreatePath|;
    assert currentPath[11] == 'q' && SettingsPath[11] == 's';
    assert currentPath[..|SettingsPath|] != SettingsPath;
    assert NavItems[1..][1..] == [NavItems[2]];
    assert ActiveItems(currentPath, NavItems[1..][1..]) == [];
  }
}
