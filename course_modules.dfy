/** The module list page: its folder cards, their item-count labels, the
    title, and the back and click navigation. */
module CourseModules {
  import opened Types
  import opened FolderTree
  import opened PageCommon
  import Text

  /** The back button's route: the course list for the root itself or with
      no root selected; otherwise the parent folder's page when the parent
      is non-empty and inside the root, and the course list when it is not. */
  function HandleBack(currentPath: string, folderPath: string, encode: string -> string): (r: string)
    ensures folderPath == "" || currentPath == folderPath ==> r == CoursesRoute
    ensures folderPath != "" && currentPath != folderPath && !('/' in currentPath) ==> r == CoursesRoute
    ensures folderPath != "" && currentPath != folderPath && '/' in currentPath ==>
      var parent := currentPath[..Text.LastIndexOf(currentPath, '/')];
      r == if parent != "" && Text.StartsWith(parent, folderPath) then CourseRoute(encode, parent) else CoursesRoute
  {
    if folderPath != "" && currentPath != folderPath then
      var parentPath := Text.ParentPath(currentPath);
      if parentPath != "" && Text.StartsWith(parentPath, folderPath) then CourseRoute(encode, parentPath)
      else CoursesRoute
    else CoursesRoute
  }

  /** Back always leads to the course list or to a folder page whose path
      is a proper prefix of the current one inside the root, so pressing it
      repeatedly reaches the course list. */
  lemma {:induction false} BackMovesUp(currentPath: string, folderPath: string, encode: string -> string)
    ensures var r := HandleBack(currentPath, folderPath, encode);
      r == CoursesRoute ||
      exists parent :: r == CourseRoute(encode, parent) && parent < currentPath && |parent| < |currentPath| &&
                       Text.StartsWith(parent, folderPath)
  {
    var r := HandleBack(currentPath, folderPath, encode);
    if r != CoursesRoute {
      var parent := currentPath[..Text.LastIndexOf(currentPath, '/')];
      assert r == CourseRoute(encode, parent);
    }
  }

  /** Back from a folder directly below the root returns to the root's page. */
  lemma {:induction false} BackFromChildOfRoot(folderPath: string, name: string, encode: string -> string)
    requires folderPath != "" && name != "" && '/' !in name
    ensures HandleBack(folderPath + "/" + name, folderPath, encode) == CourseRoute(encode, folderPath)
  {
    var p := folderPath + "/" + name;
    Text.LastIndexOfIs(p, '/', |folderPath|);
    assert p[..|folderPath|] == folderPath;
    assert p != folderPath by {
      assert |p| > |folderPath|;
    }
  }

  /** Clicking a card opens the folder's page; other items do nothing. */
  function HandleItemClick(item: FolderItem, encode: string -> string): (r: Option<string>)
    ensures r.Some? <==> item.itemType == Folder
    ensures r.Some? ==> r.value == CourseRoute(encode, item.path)
  {
    if item.itemType == Folder then Some(CourseRoute(encode, item.path)) else None
  }

  /** A card's count label: "n item" or "n items" for the folder's inline
      children, and "Pasta" when it has none or no contents at all. */
  function ItemCountLabel(item: FolderItem): (r: string)
    ensures var n := |Children(item)|;
      && (n == 0 <==> r == "Pasta")
      && (n > 0 ==> var d := Text.DecimalString(n);
            |r| == |d| + 5 + (if n > 1 then 1 else 0) &&
            r[..|d|] == d && Text.ParseDecimal(d) == n && r[|d|..|d| + 5] == " item" &&
            (r[|r| - 1] == 's' <==> n > 1))
  {
    var itemCount := if item.contents.Present? then |item.contents.items| else 0;
    var r := if itemCount > 0 then Text.DecimalString(itemCount) + " item" + (if itemCount != 1 then "s" else "")
             else "Pasta";
    assert itemCount > 0 ==> var d := Text.DecimalString(itemCount);
      r[..|d|] == d && r[|d|..|d| + 5] == " item" && (itemCount == 1 ==> r[|r| - 1] == 'm');
    r
  }
}
