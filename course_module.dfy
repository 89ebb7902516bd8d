/** The course page in module view: a list of module cards that open and
    close, a per-path cache of the children loaded on first opening, and the
    navigation of a click inside an open module. */
module CourseModule {
  import opened Types
  import opened FolderTree
  import opened PageCommon
  import Text

  /** Where a click inside an open module leads, given how loading the
      clicked folder's children went: a folder goes to its first video when
      it has one, and otherwise (or when loading fails) to its own page; a
      video plays within the current course. */
  function SubmoduleTarget(currentPath: string, item: FolderItem, loaded: Fetch, encode: string -> string): (r: string)
    ensures item.itemType == Video ==> r == VideoRoute(encode, currentPath, item.path)
    ensures item.itemType == Folder && (loaded.Fails? || DirectCount(loaded.items, Video) == 0) ==>
      r == CourseRoute(encode, item.path)
  {
    if item.itemType == Folder then
      if loaded.Got? && |DirectVideos(loaded.items)| > 0 then
        VideoRoute(encode, item.path, DirectVideos(loaded.items)[0].path)
      else CourseRoute(encode, item.path)
    else VideoRoute(encode, currentPath, item.path)
  }

  /** The video a folder click opens is a direct video child of the folder,
      and every child before it is a folder. */
  lemma {:induction false} FolderClickOpensFirstVideo(currentPath: string, item: FolderItem, loaded: Fetch,
                                                     encode: string -> string)
    requires item.itemType == Folder && loaded.Got? && |DirectVideos(loaded.items)| > 0
    ensures exists k ::
      (0 <= k < |loaded.items| && loaded.items[k].itemType == Video &&
       SubmoduleTarget(currentPath, item, loaded, encode) == VideoRoute(encode, item.path, loaded.items[k].path) &&
       (forall j :: 0 <= j < k ==> loaded.items[j].itemType == Folder))
  {
    FirstDirectVideo(loaded.items);
  }

  class CourseModulePage {
    const currentPath: string
    const folderPath: string
    var folderItems: seq<FolderItem>
    var expandedModules: set<string>
    var submoduleContents: map<string, seq<FolderItem>>

    constructor (currentPath: string, folderPath: string)
      ensures this.currentPath == currentPath && this.folderPath == folderPath
      ensures folderItems == [] && expandedModules == {} && submoduleContents == map[]
    {
      this.currentPath := currentPath;
      this.folderPath := folderPath;
      folderItems := [];
      expandedModules := {};
      submoduleContents := map[];
    }

    /** The listed modules: the folder items, in order. */
    function ListedModules(): (r: seq<FolderItem>)
      reads this
      ensures forall k :: 0 <= k < |r| ==> r[k].itemType == Folder && r[k] in folderItems
      ensures forall it :: it in folderItems && it.itemType == Folder ==> it in r
      ensures |r| == DirectCount(folderItems, Folder)
    {
      FoldersOf(folderItems)
    }

    /** The load effect: the index's items when there are any, else the
        live listing's; a failed load keeps the list. */
    method LoadModuleContent(indexed: IndexLookup, listing: LiveListing)
      modifies this
      ensures folderItems == PageItems(currentPath, folderPath, old(folderItems), indexed, listing)
      ensures expandedModules == old(expandedModules) && submoduleContents == old(submoduleContents)
    {
      if currentPath == "" {
        return;
      }
      if folderPath != "" {
        var index := indexed(folderPath, currentPath);
        if index.Fails? {
          return;
        }
        if |index.items| > 0 {
          folderItems := index.items;
          return;
        }
      }
      var items := listing(currentPath, false);
      if items.Fails? {
        return;
      }
      folderItems := items.items;
    }

    /** Opening a module marks it expanded and, when nothing is cached for
        its path, loads its children and caches them (a failed load caches
        nothing); closing it unmarks it. */
    method HandleToggleModule(modulePath: string, isOpen: bool, indexed: IndexLookup, listing: LiveListing)
      modifies this
      ensures folderItems == old(folderItems)
      ensures isOpen ==> expandedModules == old(expandedModules) + {modulePath}
      ensures !isOpen ==> expandedModules == old(expandedModules) - {modulePath}
      ensures !isOpen || modulePath in old(submoduleContents) ==> submoduleContents == old(submoduleContents)
      ensures isOpen && modulePath !in old(submoduleContents) ==>
        var loaded := LoadChildren(folderPath, modulePath, false, indexed, listing);
        submoduleContents == if loaded.Got? then old(submoduleContents)[modulePath := loaded.items]
                             else old(submoduleContents)
    {
      if isOpen {
        expandedModules := expandedModules + {modulePath};
        if modulePath !in submoduleContents {
          var subItems: seq<FolderItem> := [];
          if folderPath != "" {
            var index := indexed(folderPath, modulePath);
            if index.Fails? {
              return;
            }
            if |index.items| > 0 {
              subItems := index.items;
            }
          }
          if |subItems| == 0 {
            var live := listing(modulePath, false);
            if live.Fails? {
              return;
            }
            subItems := live.items;
          }
          submoduleContents := submoduleContents[modulePath := subItems];
        }
      } else {
        expandedModules := expandedModules - {modulePath};
      }
    }

    /** A click inside an open module. Returns the route it navigates to. */
    method HandleSubmoduleClick(item: FolderItem, indexed: IndexLookup, listing: LiveListing,
                                encode: string -> string)
      returns (route: string)
      ensures item.itemType == Folder ==>
        route == SubmoduleTarget(currentPath, item, LoadChildren(folderPath, item.path, false, indexed, listing), encode)
      ensures item.itemType == Video ==> route == VideoRoute(encode, currentPath, item.path)
    {
      if item.itemType == Folder {
        var folderContents: seq<FolderItem> := [];
        if folderPath != "" {
          var index := indexed(folderPath, item.path);
          if index.Fails? {
            return CourseRoute(encode, item.path);
          }
          if |index.items| > 0 {
            folderContents := index.items;
          }
        }
        if |folderContents| == 0 {
          var live := listing(item.path, false);
          if live.Fails? {
            return CourseRoute(encode, item.path);
          }
          folderContents := live.items;
        }
        var videos := DirectVideos(folderContents);
        if |videos| > 0 {
          var firstVideo := videos[0];
          route := VideoRoute(encode, item.path, firstVideo.path);
        } else {
          route := CourseRoute(encode, item.path);
        }
      } else {
        route := VideoRoute(encode, currentPath, item.path);
      }
    }
  }
}
