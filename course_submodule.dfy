/** The course page in submodule view: the current folder's items, each
    folder a card that opens onto its lessons (loaded with durations on first
    opening and cached per path), each video a row that plays it. */
module CourseSubmodule {
  import opened Types
  import opened FolderTree
  import opened PageCommon
  import Text

  /** A card's label: "n lessons" for the n children it shows, whatever their
      type, and "Folder" when it shows none. */
  function LessonsLabel(cache: map<string, seq<FolderItem>>, item: FolderItem): (r: string)
    ensures var n := |ShownChildren(cache, item)|;
      && (n == 0 <==> r == "Folder")
      && (n > 0 ==> var d := Text.DecimalString(n);
            |r| == |d| + 8 && r[..|d|] == d && Text.ParseDecimal(d) == n && r[|d|..] == " lessons")
  {
    var n := |ShownChildren(cache, item)|;
    var r := if n > 0 then Text.DecimalString(n) + " lessons" else "Folder";
    assert n > 0 ==> var d := Text.DecimalString(n); r[..|d|] == d && r[|d|..] == " lessons";
    r
  }

  /** A click on a row, top-level or inside an open card: a video plays
      within the current folder; any other child does nothing (a top-level
      folder toggles its card instead). */
  function LessonClick(currentPath: string, child: FolderItem, encode: string -> string): (r: Option<string>)
    ensures r.Some? <==> child.itemType == Video
    ensures r.Some? ==> r.value == VideoRoute(encode, currentPath, child.path)
  {
    if child.itemType == Video then Some(VideoRoute(encode, currentPath, child.path)) else None
  }

  class CourseSubmodulePage {
    const currentPath: string
    const folderPath: string
    var folderItems: seq<FolderItem>
    var expandedSubmodules: set<string>
    var videoContents: map<string, seq<FolderItem>>

    constructor (currentPath: string, folderPath: string)
      ensures this.currentPath == currentPath && this.folderPath == folderPath
      ensures folderItems == [] && expandedSubmodules == {} && videoContents == map[]
    {
      this.currentPath := currentPath;
      this.folderPath := folderPath;
      folderItems := [];
      expandedSubmodules := {};
      videoContents := map[];
    }

    /** The load effect: the index's items when there are any, else the
        live listing's; a failed load keeps the list. */
    method LoadCourseContent(indexed: IndexLookup, listing: LiveListing)
      modifies this
      ensures folderItems == PageItems(currentPath, folderPath, old(folderItems), indexed, listing)
      ensures expandedSubmodules == old(expandedSubmodules) && videoContents == old(videoContents)
    {
      if currentPath == "" {
        return;
      }
      if folderPath != "" {
        var index := indexed(folderPath, currentPath);
        if index.Fails? {
          return;
        }
        if |index.items| > 0 {
          folderItems := index.items;
          return;
        }
      }
      var items := listing(currentPath, false);
      if items.Fails? {
        return;
      }
      folderItems := items.items;
    }

    /** Opening a card marks it expanded and, when nothing is cached for its
        path, loads its children with their durations and caches them (a
        failed load caches nothing); closing it unmarks it. */
    method HandleToggleSubmodule(submodulePath: string, isOpen: bool, indexed: IndexLookup, listing: LiveListing)
      modifies this
      ensures folderItems == old(folderItems)
      ensures isOpen ==> expandedSubmodules == old(expandedSubmodules) + {submodulePath}
      ensures !isOpen ==> expandedSubmodules == old(expandedSubmodules) - {submodulePath}
      ensures !isOpen || submodulePath in old(videoContents) ==> videoContents == old(videoContents)
      ensures isOpen && submodulePath !in old(videoContents) ==>
        var loaded := LoadChildren(folderPath, submodulePath, true, indexed, listing);
        videoContents == if loaded.Got? then old(videoContents)[submodulePath := loaded.items]
                         else old(videoContents)
    {
      if isOpen {
        expandedSubmodules := expandedSubmodules + {submodulePath};
        if submodulePath !in videoContents {
          var subItems: seq<FolderItem> := [];
          if folderPath != "" {
            var index := indexed(folderPath, submodulePath);
            if index.Fails? {
              return;
            }
            if |index.items| > 0 {
              subItems := index.items;
            }
          }
          if |subItems| == 0 {
            var live := listing(submodulePath, true);
            if live.Fails? {
              return;
            }
            subItems := live.items;
          }
          videoContents := videoContents[submodulePath := subItems];
        }
      } else {
        expandedSubmodules := expandedSubmodules - {submodulePath};
      }
    }
  }
}
