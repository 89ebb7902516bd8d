/** The course route's decision between the module view (a page whose
    folders themselves hold folders) and the submodule view, and the view it
    renders while and after deciding. */
module CourseContentRouter {
  import opened Types
  import opened FolderTree
  import opened PageCommon

  /** Some folder of the list carries inline contents holding a folder. */
  predicate InlineNested(folders: seq<FolderItem>)
  {
    exists k :: 0 <= k < |folders| && folders[k].contents.Present? && Has(folders[k].contents.items, Folder)
  }

  /** Loading the folder's children succeeds and they hold a folder. */
  predicate ChildrenHaveFolder(rootPath: string, folder: FolderItem, indexed: IndexLookup, listing: LiveListing)
  {
    var f := LoadChildren(rootPath, folder.path, false, indexed, listing);
    f.Got? && Has(f.items, Folder)
  }

  /** Some folder of the list has loaded children holding a folder. */
  predicate FetchedNested(rootPath: string, folders: seq<FolderItem>, indexed: IndexLookup, listing: LiveListing)
  {
    exists k :: 0 <= k < |folders| && ChildrenHaveFolder(rootPath, folders[k], indexed, listing)
  }

  /** The page's items came from the index. */
  predicate FromIndex(rootPath: string, currentPath: string, indexed: IndexLookup)
  {
    indexed(rootPath, currentPath).Got? && |indexed(rootPath, currentPath).items| > 0
  }

  /** Reference definition: the page is a module page when a root is selected,
      its items load, none of them is a video, some are folders, and some
      folder holds a folder, seen in the index's inline contents or in the
      folder's loaded children. */
  predicate IsModulePage(currentPath: string, folderPath: string, indexed: IndexLookup, listing: LiveListing)
  {
    if currentPath == "" || folderPath == "" then false
    else match LoadChildren(folderPath, currentPath, false, indexed, listing)
      case Fails => false
      case Got(items) =>
        var folders := FoldersOf(items);
        if |folders| == 0 || Has(items, Video) then false
        else (FromIndex(folderPath, currentPath, indexed) && InlineNested(folders)) ||
             FetchedNested(folderPath, folders, indexed, listing)
  }

  /** The effect that decides the page type: the page's items, then a scan of
      the folders' inline contents when the items came from the index, then a
      scan that loads each folder's children, skipping a folder whose load
      fails and stopping at the first folder that holds a folder. */
  method DeterminePageType(currentPath: string, folderPath: string, indexed: IndexLookup, listing: LiveListing)
    returns (isModule: bool)
    ensures isModule == IsModulePage(currentPath, folderPath, indexed, listing)
  {
    if currentPath == "" || folderPath == "" {
      return false;
    }
    var items: seq<FolderItem> := [];
    var isFromIndex := false;
    var index := indexed(folderPath, currentPath);
    if index.Fails? {
      return false;
    }
    if |index.items| > 0 {
      items := index.items;
      isFromIndex := true;
    }
    if |items| == 0 {
      var folderContents := listing(currentPath, false);
      if folderContents.Fails? {
        return false;
      }
      items := folderContents.items;
      isFromIndex := false;
    }
    assert LoadChildren(folderPath, currentPath, false, indexed, listing) == Got(items);
    assert isFromIndex == FromIndex(folderPath, currentPath, indexed);
    var hasDirectVideos := Has(items, Video);
    var folders := FoldersOf(items);
    if |folders| > 0 && !hasDirectVideos {
      var hasSubfolders := false;
      if isFromIndex {
        for i := 0 to |folders|
          invariant forall k :: 0 <= k < i ==>
            !(folders[k].contents.Present? && Has(folders[k].contents.items, Folder))
        {
          var folder := folders[i];
          if folder.contents.Present? && Has(folder.contents.items, Folder) {
            hasSubfolders := true;
            break;
          }
        }
      }
      assert hasSubfolders == (isFromIndex && InlineNested(folders));
      if !hasSubfolders {
        hasSubfolders := ScanChildren(folderPath, folders, indexed, listing);
      }
      isModule := hasSubfolders;
    } else {
      isModule := false;
    }
  }

  /** The second scan: loads each folder's children in order, skips a
      folder whose load fails and stops at the first hit. */
  method ScanChildren(folderPath: string, folders: seq<FolderItem>, indexed: IndexLookup, listing: LiveListing)
    returns (hasSubfolders: bool)
    ensures hasSubfolders == FetchedNested(folderPath, folders, indexed, listing)
  {
    hasSubfolders := false;
    for i := 0 to |folders|
      invariant forall k :: 0 <= k < i ==> !ChildrenHaveFolder(folderPath, folders[k], indexed, listing)
    {
      var folder := folders[i];
      var subItems: seq<FolderItem> := [];
      if folderPath != "" {
        var index := indexed(folderPath, folder.path);
        if index.Fails? {
          continue;
        }
        if |index.items| > 0 {
          subItems := index.items;
        }
      }
      if |subItems| == 0 {
        var live := listing(folder.path, false);
        if live.Fails? {
          continue;
        }
        subItems := live.items;
      }
      assert LoadChildren(folderPath, folder.path, false, indexed, listing) == Got(subItems);
      if Has(subItems, Folder) {
        hasSubfolders := true;
        break;
      }
    }
  }

  /** A folder whose children fail to load does not decide the page: with
      that folder or without it the answer is the same. */
  lemma {:induction false} FailedFolderIsSkipped(folderPath: string, folders: seq<FolderItem>, k: nat,
                              indexed: IndexLookup, listing: LiveListing)
    requires k < |folders|
    requires LoadChildren(folderPath, folders[k].path, false, indexed, listing).Fails?
    ensures FetchedNested(folderPath, folders, indexed, listing) ==
            FetchedNested(folderPath, folders[..k] + folders[k + 1..], indexed, listing)
  {
    var rest := folders[..k] + folders[k + 1..];
    if FetchedNested(folderPath, folders, indexed, listing) {
      var j :| 0 <= j < |folders| && ChildrenHaveFolder(folderPath, folders[j], indexed, listing);
      assert j != k;
      if j < k {
        assert rest[j] == folders[j];
      } else {
        assert rest[j - 1] == folders[j];
      }
    }
    if FetchedNested(folderPath, rest, indexed, listing) {
      var j :| 0 <= j < |rest| && ChildrenHaveFolder(folderPath, rest[j], indexed, listing);
      if j < k {
        assert rest[j] == folders[j];
      } else {
        assert rest[j] == folders[j + 1];
      }
    }
  }

  /** A module page has no video of its own and, among its folders, one
      whose children (inline or loaded) hold a folder. */
  lemma {:induction false} ModulePageHasNestedFolder(currentPath: string, folderPath: string, indexed: IndexLookup, listing: LiveListing)
    requires IsModulePage(currentPath, folderPath, indexed, listing)
    ensures currentPath != "" && folderPath != ""
    ensures LoadChildren(folderPath, currentPath, false, indexed, listing).Got?
    ensures var items := LoadChildren(folderPath, currentPath, false, indexed, listing).items;
      && !Has(items, Video)
      && exists k :: 0 <= k < |items| && items[k].itemType == Folder &&
           ((items[k].contents.Present? && Has(items[k].contents.items, Folder)) ||
            ChildrenHaveFolder(folderPath, items[k], indexed, listing))
  {
    var items := LoadChildren(folderPath, currentPath, false, indexed, listing).items;
    var folders := FoldersOf(items);
    var j :| 0 <= j < |folders| &&
      ((folders[j].contents.Present? && Has(folders[j].contents.items, Folder)) ||
       ChildrenHaveFolder(folderPath, folders[j], indexed, listing));
    assert folders[j] in items;
    var k :| 0 <= k < |items| && items[k] == folders[j];
  }

  /** What the route renders. */
  datatype View = Skeleton | ModuleView | SubmoduleView

  /** The skeleton while deciding or undecided, then the view the decision names. */
  function RenderView(isPending: bool, isModule: Option<bool>): (v: View)
    ensures v == Skeleton <==> isPending || isModule.None?
    ensures v == ModuleView <==> !isPending && isModule == Some(true)
  {
    if isPending || isModule.None? then Skeleton
    else if isModule.value then ModuleView
    else SubmoduleView
  }
}
