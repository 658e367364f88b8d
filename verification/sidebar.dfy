/** Which sidebar entry is marked active, in the full panel
    (app/components/misc/Sidebar/SidebarPanel.tsx) and the collapsed panel
    (app/components/misc/Sidebar/SidebarPanelMin.tsx). */
module Sidebar {
  import opened JsText

  /** A menu entry; the icon and the children play no part here. */
  datatype MenuItem = MenuItem(title: string, path: string)

  /** `menu.split(' ').join('-').toLowerCase()` (SidebarPanel.tsx:32,
      SidebarPanelMin.tsx:27): every space becomes '-', then ASCII letters are
      lowercased. */
  function Slug(title: string): (r: string)
    ensures r == Lower(ReplaceChar(title, ' ', '-'))
    ensures |r| == |title| && ' ' !in r
  {
    JoinSplitReplace(title, ' ', '-');
    var r := Lower(Join(SplitOn(title, ' '), '-'));
    assert forall i :: 0 <= i < |r| ==> r[i] != ' ';
    r
  }

  /** The active test of both panels (SidebarPanel.tsx:62, SidebarPanelMin.tsx:55):
      the pathname is the item's path, or it contains the title's slug. */
  predicate IsActive(pathname: string, item: MenuItem) {
    pathname == item.path || Contains(pathname, Slug(item.title))
  }

  /** What the full panel shows for an item: the list item's highlight and the
      link's 'active' class. */
  datatype PanelEntry = PanelEntry(path: string, highlighted: bool, linkActive: bool)

  /** The full panel's list (SidebarPanel.tsx:57-75): one entry per menu item, in
      order, highlighted and active exactly when the item is active. */
  function PanelEntries(pathname: string, items: seq<MenuItem>): (r: seq<PanelEntry>)
    ensures |r| == |items|
    ensures forall i :: 0 <= i < |r| ==> r[i].path == items[i].path
    ensures forall i :: 0 <= i < |r| ==>
              r[i].highlighted == IsActive(pathname, items[i]) && r[i].linkActive == IsActive(pathname, items[i])
  {
    seq(|items|, i requires 0 <= i < |items| =>
      PanelEntry(items[i].path, IsActive(pathname, items[i]), IsActive(pathname, items[i])))
  }

  /** What the collapsed panel shows for an item: the link's class and the tooltip. */
  datatype MinEntry = MinEntry(path: string, active: bool, tooltip: string)

  /** The collapsed panel's list (SidebarPanelMin.tsx:46-65); it takes only the
      menu items, whatever the expansion state. */
  function MinEntries(pathname: string, items: seq<MenuItem>): (r: seq<MinEntry>)
    ensures |r| == |items|
    ensures forall i :: 0 <= i < |r| ==>
              r[i] == MinEntry(items[i].path, IsActive(pathname, items[i]), items[i].title)
  {
    seq(|items|, i requires 0 <= i < |items| =>
      MinEntry(items[i].path, IsActive(pathname, items[i]), items[i].title))
  }

  /** The menu toggle of the full panel asks for the opposite expansion state
      (SidebarPanel.tsx:49). */
  function ToggleRequest(isExpanded: bool): (r: bool)
    ensures r != isExpanded
  {
    !isExpanded
  }

  /** In the full panel the list item and its link always agree, and both
      panels mark the same items. */
  lemma PanelsAgree(pathname: string, items: seq<MenuItem>, i: nat)
    requires i < |items|
    ensures PanelEntries(pathname, items)[i].highlighted == PanelEntries(pathname, items)[i].linkActive
    ensures PanelEntries(pathname, items)[i].linkActive == MinEntries(pathname, items)[i].active
  {
  }

  /** The slug is empty only for an empty title, and an empty title marks its
      item active on every pathname. */
  lemma EmptyTitleAlwaysActive(pathname: string, item: MenuItem)
    ensures Slug(item.title) == [] <==> item.title == []
    ensures item.title == [] ==> IsActive(pathname, item)
  {
    ContainsEmpty(pathname);
  }

  /** The title's case does not matter, once lowered. */
  lemma SlugIgnoresTitleCase(title: string)
    ensures Slug(Lower(title)) == Slug(title)
  {
    var a, b := Slug(Lower(title)), Slug(title);
    assert forall i :: 0 <= i < |title| ==> a[i] == b[i];
  }

  /** A pathname in the title's lowered words separated by '-' activates it. */
  lemma SlugInPathActivates(prefix: string, title: string, suffix: string, path: string)
    ensures IsActive(prefix + Slug(title) + suffix, MenuItem(title, path))
  {
    var p := prefix + Slug(title) + suffix;
    assert p[|prefix|..|prefix| + |Slug(title)|] == Slug(title);
    assert OccursAt(p, Slug(title), |prefix|);
  }

  /** The pathname is not lowered: a pathname with no lower-case ASCII letter
      never contains the slug of a title that has an ASCII letter, so only the
      exact path marks that item. */
  lemma UpperCasePathMatchesOnlyExactly(pathname: string, item: MenuItem, k: nat)
    requires k < |item.title| && (IsAsciiUpper(item.title[k]) || IsAsciiLower(item.title[k]))
    requires forall i :: 0 <= i < |pathname| ==> !IsAsciiLower(pathname[i])
    ensures IsActive(pathname, item) <==> pathname == item.path
  {
    var slug := Slug(item.title);
    assert IsAsciiLower(slug[k]);
  }
}
