/** The sidebar navigation: which item is highlighted for the current
    path, and which text it shows. */
module SidebarNav {
  import opened Wrappers
  import opened Text

  /** A navigation entry; `labelText` is the optional short label, and the icon is not modelled. */
  datatype NavItem = NavItem(title: string, href: string, labelText: Option<string>)

  /** An item is active on its own path, and, unless it is the root, on
      every path that begins with its path. */
  predicate IsActive(pathname: string, href: string) {
    pathname == href || (href != "/" && StartsWith(pathname, href))
  }

  /** `item.label || item.title`: a missing or empty label shows the title. */
  function DisplayText(item: NavItem): (t: string)
    ensures item.labelText.Some? && item.labelText.value != [] ==> t == item.labelText.value
    ensures item.labelText.None? || item.labelText.value == [] ==> t == item.title
  {
    if item.labelText.Some? && item.labelText.value != [] then item.labelText.value else item.title
  }

  /** What one entry renders. Collapsed on a desktop, the button carries
      only an icon and the title for screen readers, and the display text
      moves to a tooltip; otherwise the button shows the display text. */
  datatype Entry = Entry(active: bool, buttonText: string, tooltip: Option<string>)

  function RenderEntry(item: NavItem, pathname: string, collapsed: bool, isMobile: bool): (e: Entry)
    ensures e.active == IsActive(pathname, item.href)
    ensures collapsed && !isMobile ==> e.tooltip == Some(DisplayText(item)) && e.buttonText == item.title
    ensures !(collapsed && !isMobile) ==> e.tooltip.None? && e.buttonText == DisplayText(item)
  {
    if collapsed && !isMobile then Entry(IsActive(pathname, item.href), item.title, Some(DisplayText(item)))
    else Entry(IsActive(pathname, item.href), DisplayText(item), None)
  }

  /** Whether an entry is highlighted does not depend on the sidebar's state. */
  lemma ActiveIgnoresLayout(item: NavItem, pathname: string, c1: bool, m1: bool, c2: bool, m2: bool)
    ensures RenderEntry(item, pathname, c1, m1).active == RenderEntry(item, pathname, c2, m2).active
  {
  }

  /** Every item is active on its own path. */
  lemma ActiveOnOwnPath(href: string)
    ensures IsActive(href, href)
  {
  }

  /** The root item is active only on the root path. */
  lemma RootOnlyOnRoot(pathname: string)
    ensures IsActive(pathname, "/") <==> pathname == "/"
  {
  }

  /** The prefix test has no segment boundary: a longer name that merely
      begins with an item's path activates it. */
  lemma NoSegmentBoundary()
    ensures IsActive("/settingsX", "/settings")
  {
    assert "/settingsX"[..|"/settings"|] == "/settings";
  }

  /** A list of item paths in which no two are equal, none is empty and
      no path other than the root begins another path. */
  predicate PrefixFree(hrefs: seq<string>) {
    forall a, b :: 0 <= a < |hrefs| && 0 <= b < |hrefs| && a != b ==>
      hrefs[a] != [] && hrefs[a] != hrefs[b] && (hrefs[a] != "/" ==> !StartsWith(hrefs[b], hrefs[a]))
  }

  /** Over such a list at most one item is highlighted, whatever the path:
      two active items would make one path begin the other. */
  lemma AtMostOneActive(hrefs: seq<string>, pathname: string, i: nat, j: nat)
    requires PrefixFree(hrefs)
    requires i < |hrefs| && j < |hrefs|
    requires IsActive(pathname, hrefs[i]) && IsActive(pathname, hrefs[j])
    ensures i == j
  {
  }

  /** The paths of the application's navigation items, in their order. */
  const NavHrefs: seq<string> :=
    ["/", "/ai-notes", "/ai-flashcard-generator", "/concept-clarifier",
     "/cognitive-bias-navigator", "/text-analyzer", "/calendar", "/cognitive-battle",
     "/argument-duel", "/knowledge-construction", "/boss-level", "/socratic-mode",
     "/interview-simulator", "/settings"]

  /** Both texts reach position `k` and differ there. */
  predicate DifferAt(x: string, y: string, k: nat) {
    k < |x| && k < |y| && x[k] != y[k]
  }

  /** Two texts that differ at a position they both reach are distinct and
      neither begins the other. */
  lemma DifferNotPrefix(x: string, y: string, k: nat)
    requires DifferAt(x, y, k)
    ensures x != y && !StartsWith(y, x) && !StartsWith(x, y)
  {
  }

  /** Any two item paths other than the root differ at one of the
      positions 1, 2, 8 and 12 (the first half of the list). */
  lemma NavHrefsSeparatedLow()
    ensures forall a, b :: 1 <= a < 7 && 1 <= b < |NavHrefs| && a != b ==>
      DifferAt(NavHrefs[a], NavHrefs[b], 1) || DifferAt(NavHrefs[a], NavHrefs[b], 2) ||
      DifferAt(NavHrefs[a], NavHrefs[b], 8) || DifferAt(NavHrefs[a], NavHrefs[b], 12)
  {
  }

  /** The same for the second half of the list. */
  lemma NavHrefsSeparatedHigh()
    ensures forall a, b :: 7 <= a < |NavHrefs| && 1 <= b < |NavHrefs| && a != b ==>
      DifferAt(NavHrefs[a], NavHrefs[b], 1) || DifferAt(NavHrefs[a], NavHrefs[b], 2) ||
      DifferAt(NavHrefs[a], NavHrefs[b], 8) || DifferAt(NavHrefs[a], NavHrefs[b], 12)
  {
  }

  /** The application's own item paths are prefix-free. */
  lemma NavHrefsPrefixFree()
    ensures PrefixFree(NavHrefs)
  {
    NavHrefsSeparatedLow();
    NavHrefsSeparatedHigh();
    forall a, b | 0 <= a < |NavHrefs| && 0 <= b < |NavHrefs| && a != b
      ensures NavHrefs[a] != [] && NavHrefs[a] != NavHrefs[b] &&
        (NavHrefs[a] != "/" ==> !StartsWith(NavHrefs[b], NavHrefs[a]))
    {
      var x, y := NavHrefs[a], NavHrefs[b];
      if a == 0 || b == 0 {
        assert |x| != |y|;
      } else if DifferAt(x, y, 1) {
        DifferNotPrefix(x, y, 1);
      } else if DifferAt(x, y, 2) {
        DifferNotPrefix(x, y, 2);
      } else if DifferAt(x, y, 8) {
        DifferNotPrefix(x, y, 8);
      } else {
        DifferNotPrefix(x, y, 12);
      }
    }
  }

  /** In the application's sidebar at most one item is highlighted,
      whatever the path. */
  lemma NavAtMostOneActive(pathname: string, i: nat, j: nat)
    requires i < |NavHrefs| && j < |NavHrefs|
    requires IsActive(pathname, NavHrefs[i]) && IsActive(pathname, NavHrefs[j])
    ensures i == j
  {
    NavHrefsPrefixFree();
    AtMostOneActive(NavHrefs, pathname, i, j);
  }
}
