/** The side menu: its entries, which one is highlighted, whether the menu
    group is expanded, and what a click reports to the page. */
module Sidebar {
  import opened Js
  import opened Navigation
  import opened Articles

  const Home: Category := Category("Início", "/")

  /** The side menu's entries: the home page, then the top bar's categories. */
  const Entries: seq<Category> := [Home] + Categories

  const ActiveClass: string := "bg-primary/10 text-primary font-semibold border-r-2 border-primary"
  const InactiveClass: string := "text-foreground hover:bg-muted/80 hover:text-primary transition-colors"

  /** `isActive`: the home entry and the others are tested separately, and
      both tests come down to the address being the entry's path. */
  function IsActive(currentPath: string, path: string): (active: bool)
    ensures active <==> currentPath == path
  {
    if path == "/" && currentPath == "/" then true
    else if path != "/" && currentPath == path then true
    else false
  }

  /** The group is expanded when some entry is active. */
  function IsExpanded(currentPath: string): (expanded: bool)
    ensures expanded <==> exists i :: 0 <= i < |Entries| && Entries[i].path == currentPath
  {
    exists i :: 0 <= i < |Entries| && IsActive(currentPath, Entries[i].path)
  }

  /** The group is expanded on the home page and on every category page. */
  lemma ExpandedOnEveryEntry(i: int)
    requires 0 <= i < |Entries|
    ensures IsExpanded(Entries[i].path)
  {
  }

  /** The classes of an entry: the highlighted ones exactly when it is active. */
  function NavClassName(currentPath: string, path: string): (classes: string)
    ensures classes == ActiveClass <==> currentPath == path
    ensures classes != ActiveClass ==> classes == InactiveClass
  {
    if IsActive(currentPath, path) then ActiveClass else InactiveClass
  }

  /** A click reports the category to the page, if the page listens, for
      every entry except the home page. */
  function CategoryClick(hasListener: bool, categoryName: string): (reported: Option<string>)
    ensures reported.Some? <==> hasListener && categoryName != Home.name
    ensures reported.Some? ==> reported.value == categoryName
  {
    if hasListener && categoryName != Home.name then Some(categoryName) else None
  }

  /** On the two pages that listen, the home page and Todos, a reported
      category has no lasting effect: the entry links to another page, which
      the click then opens, or it is "Todos" on the Todos page, the category
      that page already holds. */
  lemma ReportedCategoryIsTransient(currentPath: string, i: int)
    requires currentPath == Home.path || currentPath == Categories[0].path
    requires 0 <= i < |Entries|
    ensures var reported := CategoryClick(true, Entries[i].name);
            reported.Some? ==> Entries[i].path != currentPath || reported.value == AllCategories
  {
  }
}
