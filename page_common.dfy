/** What the course pages share: the two listing calls they make over the
    bridge, the rule that prefers the index to the live listing, and the
    shape of the routes they navigate to. */
module PageCommon {
  import opened Types
  import opened FolderTree
  import Text

  /** The outcome of one awaited listing call: the items, or a rejection. */
  datatype Fetch = Got(items: seq<FolderItem>) | Fails

  /** `getIndexedFolder(root, path)`: the stored index below `root` for
      `path`; no index is an empty list. */
  type IndexLookup = (string, string) -> Fetch

  /** `listFolderContents(path, includeDuration)`: the live walk. */
  type LiveListing = (string, bool) -> Fetch

  /** The children of `path`: the index's when a root is selected and the index
      has any, otherwise the live listing's. A rejected index lookup rejects
      the whole load. */
  function LoadChildren(rootPath: string, path: string, includeDuration: bool,
                        indexed: IndexLookup, listing: LiveListing): (r: Fetch)
    ensures rootPath != "" && indexed(rootPath, path).Fails? ==> r.Fails?
    ensures rootPath != "" && indexed(rootPath, path).Got? && |indexed(rootPath, path).items| > 0 ==>
      r == indexed(rootPath, path)
    ensures (rootPath == "" || indexed(rootPath, path) == Got([])) ==> r == listing(path, includeDuration)
  {
    if rootPath != "" then
      match indexed(rootPath, path)
      case Fails => Fails
      case Got(items) => if |items| > 0 then Got(items) else listing(path, includeDuration)
    else listing(path, includeDuration)
  }

  /** The items a page shows after its load effect: nothing happens without a
      current path, and a rejected load keeps what was shown. */
  function PageItems(currentPath: string, rootPath: string, shown: seq<FolderItem>,
                     indexed: IndexLookup, listing: LiveListing): (r: seq<FolderItem>)
    ensures currentPath == "" ==> r == shown
    ensures currentPath != "" && LoadChildren(rootPath, currentPath, false, indexed, listing).Got? ==>
      r == LoadChildren(rootPath, currentPath, false, indexed, listing).items
    ensures currentPath != "" && LoadChildren(rootPath, currentPath, false, indexed, listing).Fails? ==> r == shown
  {
    if currentPath == "" then shown
    else match LoadChildren(rootPath, currentPath, false, indexed, listing)
      case Fails => shown
      case Got(items) => items
  }

  const CoursesRoute: string := "/courses"

  /** `/courses/<encoded folder>`. */
  function CourseRoute(encode: string -> string, folder: string): string
  {
    "/courses/" + encode(folder)
  }

  /** `/courses/<encoded folder>/video/<encoded video>`. */
  function VideoRoute(encode: string -> string, folder: string, video: string): string
  {
    "/courses/" + encode(folder) + "/video/" + encode(video)
  }

  /** A route's '/'-separated fields: the course route has the encoded folder
      as its third field, so the router's single parameter receives it whole
      when the encoding leaves no '/'. */
  lemma {:induction false} CourseRouteFields(encode: string -> string, folder: string)
    requires '/' !in encode(folder)
    ensures Text.Split(CourseRoute(encode, folder), '/') == ["", "courses", encode(folder)]
  {
    var e := encode(folder);
    Text.JoinCons("courses", [e], '/');
    Text.JoinCons("", ["courses", e], '/');
    assert [""] + ["courses", e] == ["", "courses", e];
    assert ["courses"] + [e] == ["courses", e];
    assert Text.Join(["", "courses", e], '/') == CourseRoute(encode, folder);
    Text.SplitJoin(["", "courses", e], '/');
  }

  /** The video route's fields: the encoded folder and the encoded video sit
      in the third and fifth fields, around the literal `video`. */
  lemma {:induction false} VideoRouteFields(encode: string -> string, folder: string, video: string)
    requires '/' !in encode(folder) && '/' !in encode(video)
    ensures Text.Split(VideoRoute(encode, folder, video), '/') == ["", "courses", encode(folder), "video", encode(video)]
  {
    var e, v := encode(folder), encode(video);
    Text.JoinCons("video", [v], '/');
    Text.JoinCons(e, ["video", v], '/');
    Text.JoinCons("courses", [e, "video", v], '/');
    Text.JoinCons("", ["courses", e, "video", v], '/');
    assert ["video"] + [v] == ["video", v];
    assert [e] + ["video", v] == [e, "video", v];
    assert ["courses"] + [e, "video", v] == ["courses", e, "video", v];
    assert [""] + ["courses", e, "video", v] == ["", "courses", e, "video", v];
    assert Text.Join(["", "courses", e, "video", v], '/') == VideoRoute(encode, folder, video);
    Text.SplitJoin(["", "courses", e, "video", v], '/');
  }

  /** A page's title: the current path's last segment, or the page's own
      fallback when that segment is empty. */
  function PageTitle(currentPath: string, fallback: string): (r: string)
    requires fallback != "" && '/' !in fallback
    ensures r != "" && '/' !in r
    ensures r == fallback || (|r| <= |currentPath| && currentPath[|currentPath| - |r|..] == r)
    ensures '/' !in currentPath && currentPath != "" ==> r == currentPath
    ensures var seg := currentPath[Text.LastIndexOf(currentPath, '/') + 1..];
      r == if seg == "" then fallback else seg
  {
    Text.LastSegmentOr(currentPath, fallback)
  }

  /** The children an open card shows: the cached list when one was stored
      for its path (even an empty one), else its inline contents, else none. */
  function ShownChildren(cache: map<string, seq<FolderItem>>, item: FolderItem): (r: seq<FolderItem>)
    ensures item.path in cache ==> r == cache[item.path]
    ensures item.path !in cache ==> r == Children(item)
  {
    if item.path in cache then cache[item.path]
    else if item.contents.Present? then item.contents.items
    else []
  }

  /** Some item of the list (not a descendant) has the type. */
  predicate Has(items: seq<FolderItem>, t: ItemType)
  {
    exists k :: 0 <= k < |items| && items[k].itemType == t
  }

  /** `Has` agrees with the direct count. */
  lemma {:induction false} HasIffCount(items: seq<FolderItem>, t: ItemType)
    ensures Has(items, t) <==> DirectCount(items, t) > 0
  {
    DirectCountZero(items, t);
  }

  /** The first video of a list is preceded only by folders. */
  lemma {:induction false} FirstDirectVideo(items: seq<FolderItem>)
    requires |DirectVideos(items)| > 0
    ensures exists k :: 0 <= k < |items| && items[k] == DirectVideos(items)[0] &&
                        (forall j :: 0 <= j < k ==> items[j].itemType == Folder)
  {
    var n := |items| - 1;
    var front := items[..n];
    if |DirectVideos(front)| > 0 {
      FirstDirectVideo(front);
      var k :| 0 <= k < |front| && front[k] == DirectVideos(front)[0] &&
               (forall j :: 0 <= j < k ==> front[j].itemType == Folder);
      assert items[k] == front[k];
      forall j | 0 <= j < k
        ensures items[j].itemType == Folder
      {
        assert items[j] == front[j];
      }
    } else {
      assert DirectVideos(items) == [items[n]];
      DirectCountZero(front, Video);
      forall j | 0 <= j < n
        ensures items[j].itemType == Folder
      {
        assert items[j] == front[j];
        assert front[j].itemType != Video;
      }
    }
  }
}
