/** The player page: the playlist of every video below the current folder
    (depth first, then sorted by name), the video the route asks for (looked
    up in its parent folder, or made up from its path), the choice of the
    video shown, and the navigation out of the page. */
module VideoPlayer {
  import opened Types
  import opened FolderTree
  import opened PageCommon
  import Text

  /** The helper that collects videos: walks the list in order, appending
      each video to what was collected so far and descending into a folder
      whose contents are present. */
  method ProcessItems(itemList: seq<FolderItem>, videos: seq<FolderItem>) returns (collected: seq<FolderItem>)
    ensures collected == videos + Videos(itemList)
    decreases itemList
  {
    collected := videos;
    for i := 0 to |itemList|
      invariant collected == videos + Videos(itemList[..i])
    {
      var item := itemList[i];
      assert itemList[..i + 1][..i] == itemList[..i];
      assert itemList[..i + 1][i] == item;
      if item.itemType == Video {
        collected := collected + [item];
      } else if item.contents.Present? {
        collected := ProcessItems(item.contents.items, collected);
      }
    }
    assert itemList[..|itemList|] == itemList;
  }

  /** The videos below `path`: none without a path or when loading its
      children fails, otherwise every video of the loaded tree. */
  function AllVideos(path: string, rootPath: string, indexed: IndexLookup, listing: LiveListing): seq<FolderItem>
  {
    if path == "" then []
    else match LoadChildren(rootPath, path, false, indexed, listing)
      case Fails => []
      case Got(items) => Videos(items)
  }

  /** Collects the videos below `path`; every one of them is a video node,
      and there are exactly as many as the loaded tree holds. */
  method GetAllVideosRecursively(path: string, rootPath: string, indexed: IndexLookup, listing: LiveListing)
    returns (videos: seq<FolderItem>)
    ensures videos == AllVideos(path, rootPath, indexed, listing)
    ensures forall k :: 0 <= k < |videos| ==> videos[k].itemType == Video
    ensures path != "" && LoadChildren(rootPath, path, false, indexed, listing).Got? ==>
      |videos| == VideoNodes(LoadChildren(rootPath, path, false, indexed, listing).items)
    ensures path == "" || LoadChildren(rootPath, path, false, indexed, listing).Fails? ==> videos == []
  {
    if path == "" {
      return [];
    }
    var items: seq<FolderItem> := [];
    if rootPath != "" {
      var index := indexed(rootPath, path);
      if index.Fails? {
        return [];
      }
      if |index.items| > 0 {
        items := index.items;
      }
    }
    if |items| == 0 {
      var live := listing(path, false);
      if live.Fails? {
        return [];
      }
      items := live.items;
    }
    assert LoadChildren(rootPath, path, false, indexed, listing) == Got(items);
    videos := ProcessItems(items, []);
    VideosAreVideos(items);
    VideosLength(items);
  }

  /** The file name of a video path: the text after its last '/'. */
  function VideoName(p: string): (r: string)
    ensures '/' !in r
    ensures '/' !in p ==> r == p
    ensures '/' in p ==> Text.ParentPath(p) + "/" + r == p
  {
    var i := Text.LastIndexOf(p, '/');
    if i >= 0 then
      assert p == p[..i] + [p[i]] + p[i + 1..];
      p[i + 1..]
    else p
  }

  /** The stand-in for a video the parent folder does not list. */
  function FallbackVideo(p: string): (v: FolderItem)
    ensures v.itemType == Video && v.path == p && v.name == VideoName(p)
    ensures v.contents == Absent && v.duration == None
  {
    FolderItem(VideoName(p), p, Video, Absent, None)
  }

  /** What a lookup by path accepts: the path, and a video when asked for one. */
  predicate Matches(it: FolderItem, p: string, videoOnly: bool)
  {
    it.path == p && (!videoOnly || it.itemType == Video)
  }

  /** `find`: the first item that matches, if any. */
  function FindFirst(items: seq<FolderItem>, p: string, videoOnly: bool): (r: Option<FolderItem>)
    ensures r.None? <==> forall k :: 0 <= k < |items| ==> !Matches(items[k], p, videoOnly)
    ensures r.Some? ==> exists k :: 0 <= k < |items| && items[k] == r.value && Matches(r.value, p, videoOnly) &&
                                    forall j :: 0 <= j < k ==> !Matches(items[j], p, videoOnly)
    decreases |items|
  {
    if items == [] then None
    else if Matches(items[0], p, videoOnly) then Some(items[0])
    else
      var r := FindFirst(items[1..], p, videoOnly);
      assert forall k :: 1 <= k < |items| ==> items[k] == items[1..][k - 1];
      r
  }

  /** The video the route asks for: the video of that path in its parent
      folder's listing when there is one, and otherwise (also when the
      listing fails) the stand-in built from the path. */
  function LoadedVideo(p: string, rootPath: string, indexed: IndexLookup, listing: LiveListing): (v: FolderItem)
    ensures v.itemType == Video && v.path == p
    ensures var parent := LoadChildren(rootPath, Text.ParentPath(p), false, indexed, listing);
      v == FallbackVideo(p) || (parent.Got? && v in parent.items)
  {
    match LoadChildren(rootPath, Text.ParentPath(p), false, indexed, listing)
    case Fails => FallbackVideo(p)
    case Got(parentItems) =>
      match FindFirst(parentItems, p, true)
      case Some(v) => v
      case None => FallbackVideo(p)
  }

  /** The direct load of the requested video. */
  method LoadCurrentVideo(p: string, rootPath: string, indexed: IndexLookup, listing: LiveListing)
    returns (video: FolderItem)
    ensures video == LoadedVideo(p, rootPath, indexed, listing)
  {
    var parentDir := Text.ParentPath(p);
    var parentItems: seq<FolderItem> := [];
    if rootPath != "" {
      var index := indexed(rootPath, parentDir);
      if index.Fails? {
        return FallbackVideo(p);
      }
      if |index.items| > 0 {
        parentItems := index.items;
      }
    }
    if |parentItems| == 0 {
      var live := listing(parentDir, false);
      if live.Fails? {
        return FallbackVideo(p);
      }
      parentItems := live.items;
    }
    assert LoadChildren(rootPath, parentDir, false, indexed, listing) == Got(parentItems);
    var directVideo := FindFirst(parentItems, p, true);
    if directVideo.Some? {
      video := directVideo.value;
    } else {
      video := FallbackVideo(p);
    }
  }

  /** The sidebar's own load of the current folder: nothing without a folder. */
  function SidebarLoad(rootPath: string, currentFolderPath: string, indexed: IndexLookup, listing: LiveListing): Fetch
  {
    if currentFolderPath == "" then Got([]) else LoadChildren(rootPath, currentFolderPath, false, indexed, listing)
  }

  /** The sidebar's load, as the effect performs it. */
  method FetchSidebar(rootPath: string, currentFolderPath: string, indexed: IndexLookup, listing: LiveListing)
    returns (r: Fetch)
    ensures r == SidebarLoad(rootPath, currentFolderPath, indexed, listing)
  {
    var items: seq<FolderItem> := [];
    if rootPath != "" && currentFolderPath != "" {
      var index := indexed(rootPath, currentFolderPath);
      if index.Fails? {
        return Fails;
      }
      if |index.items| > 0 {
        items := index.items;
      }
    }
    if |items| == 0 && currentFolderPath != "" {
      var live := listing(currentFolderPath, false);
      if live.Fails? {
        return Fails;
      }
      items := live.items;
    }
    r := Got(items);
  }

  /** The playlist: every video below the folder when there is any, else the
      folder's own videos, sorted either way. */
  function Playlist(allVideos: seq<FolderItem>, items: seq<FolderItem>, sort: seq<FolderItem> -> seq<FolderItem>): seq<FolderItem>
  {
    if |allVideos| > 0 then sort(allVideos) else sort(DirectVideos(items))
  }

  /** A permutation of a list of videos is a list of videos. */
  lemma {:induction false} PermutedVideos(xs: seq<FolderItem>, ys: seq<FolderItem>)
    requires multiset(xs) == multiset(ys)
    requires forall k :: 0 <= k < |xs| ==> xs[k].itemType == Video
    ensures forall k :: 0 <= k < |ys| ==> ys[k].itemType == Video
  {
    forall k | 0 <= k < |ys|
      ensures ys[k].itemType == Video
    {
      assert ys[k] in multiset(ys);
      assert ys[k] in xs;
    }
  }

  /** With a sort that permutes, the playlist holds only videos, and as many
      as it sorted. */
  lemma {:induction false} PlaylistHoldsVideos(allVideos: seq<FolderItem>, items: seq<FolderItem>,
                                               sort: seq<FolderItem> -> seq<FolderItem>)
    requires forall xs :: multiset(sort(xs)) == multiset(xs)
    requires forall k :: 0 <= k < |allVideos| ==> allVideos[k].itemType == Video
    ensures var list := Playlist(allVideos, items, sort);
      (forall k :: 0 <= k < |list| ==> list[k].itemType == Video) &&
      |list| == if |allVideos| > 0 then |allVideos| else DirectCount(items, Video)
  {
    var src := if |allVideos| > 0 then allVideos else DirectVideos(items);
    var list := sort(src);
    assert multiset(list) == multiset(src);
    assert |multiset(list)| == |multiset(src)|;
    PermutedVideos(src, list);
  }

  /** The video shown once the playlist is known: the one with the requested
      path when the playlist has it, else the playlist's first, else the one
      shown before. */
  function SelectCurrentVideo(requested: string, videos: seq<FolderItem>, previous: Option<FolderItem>): (r: Option<FolderItem>)
    ensures |videos| == 0 ==> r == previous
    ensures |videos| > 0 ==> r.Some? && r.value in videos
    ensures requested != "" && (exists k :: 0 <= k < |videos| && videos[k].path == requested) ==>
      r.Some? && r.value.path == requested
    ensures (requested == "" || forall k :: 0 <= k < |videos| ==> videos[k].path != requested) && |videos| > 0 ==>
      r == Some(videos[0])
  {
    if requested != "" then
      match FindFirst(videos, requested, false)
      case Some(v) => Some(v)
      case None => if |videos| > 0 then Some(videos[0]) else previous
    else if |videos| > 0 then Some(videos[0])
    else previous
  }

  /** The last step of the load effect, choosing the video shown. */
  method PickVideo(requested: string, videos: seq<FolderItem>, previous: Option<FolderItem>)
    returns (shown: Option<FolderItem>)
    ensures shown == SelectCurrentVideo(requested, videos, previous)
  {
    shown := previous;
    if requested != "" {
      var video := FindFirst(videos, requested, false);
      if video.Some? {
        shown := video;
      } else if |videos| > 0 {
        shown := Some(videos[0]);
      }
    } else if |videos| > 0 {
      shown := Some(videos[0]);
    }
  }

  /** Back from the player and a selection in it both lead to the folder the
      player was opened on: the course route is the video route's first
      three fields. */
  lemma {:induction false} BackMatchesSelection(encode: string -> string, folder: string, video: string)
    requires '/' !in encode(folder) && '/' !in encode(video)
    ensures var fields := Text.Split(VideoRoute(encode, folder, video), '/');
      |fields| == 5 && Text.Split(CourseRoute(encode, folder), '/') == fields[..3]
  {
    CourseRouteFields(encode, folder);
    VideoRouteFields(encode, folder, video);
  }

  class VideoPlayerPage {
    const folderPath: string
    const currentFolderPath: string
    const currentVideoPath: string
    var folderItems: seq<FolderItem>
    var currentVideo: Option<FolderItem>

    /** The page's invariant: the sidebar lists videos and the shown item is one. */
    predicate Valid()
      reads this
    {
      (forall k :: 0 <= k < |folderItems| ==> folderItems[k].itemType == Video) &&
      (currentVideo.Some? ==> currentVideo.value.itemType == Video)
    }

    constructor (folderPath: string, currentFolderPath: string, currentVideoPath: string)
      ensures this.folderPath == folderPath && this.currentFolderPath == currentFolderPath
      ensures this.currentVideoPath == currentVideoPath
      ensures folderItems == [] && currentVideo == None
      ensures Valid()
    {
      this.folderPath := folderPath;
      this.currentFolderPath := currentFolderPath;
      this.currentVideoPath := currentVideoPath;
      folderItems := [];
      currentVideo := None;
    }

    /** The load effect. The requested video is loaded first; a failing
        sidebar load then stops the effect with the list unchanged;
        otherwise the playlist replaces the list and picks the video shown. */
    method LoadVideos(indexed: IndexLookup, listing: LiveListing, sort: seq<FolderItem> -> seq<FolderItem>)
      requires Valid()
      requires forall xs :: multiset(sort(xs)) == multiset(xs)
      modifies this
      ensures Valid()
      ensures var direct := if currentVideoPath != "" then Some(LoadedVideo(currentVideoPath, folderPath, indexed, listing))
                            else old(currentVideo);
        match SidebarLoad(folderPath, currentFolderPath, indexed, listing)
        case Fails => folderItems == old(folderItems) && currentVideo == direct
        case Got(items) =>
          var allPath := if currentFolderPath != "" then currentFolderPath else folderPath;
          folderItems == Playlist(AllVideos(allPath, folderPath, indexed, listing), items, sort) &&
          currentVideo == SelectCurrentVideo(currentVideoPath, folderItems, direct)
    {
      if currentVideoPath != "" {
        var video := LoadCurrentVideo(currentVideoPath, folderPath, indexed, listing);
        currentVideo := Some(video);
      }
      var sidebar := FetchSidebar(folderPath, currentFolderPath, indexed, listing);
      if sidebar.Fails? {
        return;
      }
      var items := sidebar.items;
      var allVideos := GetAllVideosRecursively(if currentFolderPath != "" then currentFolderPath else folderPath,
                                               folderPath, indexed, listing);
      var videos := if |allVideos| > 0 then sort(allVideos) else sort(DirectVideos(items));
      PlaylistHoldsVideos(allVideos, items, sort);
      folderItems := videos;
      currentVideo := PickVideo(currentVideoPath, videos, currentVideo);
    }

    /** A selection in the sidebar: a video becomes the one shown and the
        route moves to it within the current folder; anything else is ignored. */
    method HandleVideoSelect(video: FolderItem, encode: string -> string) returns (route: Option<string>)
      requires Valid()
      modifies this
      ensures Valid()
      ensures folderItems == old(folderItems)
      ensures video.itemType == Video ==>
        currentVideo == Some(video) && route == Some(VideoRoute(encode, currentFolderPath, video.path))
      ensures video.itemType != Video ==> currentVideo == old(currentVideo) && route == None
    {
      if video.itemType == Video {
        route := Some(VideoRoute(encode, currentFolderPath, video.path));
        currentVideo := Some(video);
      } else {
        route := None;
      }
    }

    /** The back button: the current folder's course page, whose single route
        parameter is the encoded folder. */
    function HandleBack(encode: string -> string): (r: string)
      reads this
      ensures Text.StartsWith(r, "/courses/")
      ensures '/' !in encode(currentFolderPath) ==>
        Text.Split(r, '/') == ["", "courses", encode(currentFolderPath)]
    {
      if '/' !in encode(currentFolderPath) then
        CourseRouteFields(encode, currentFolderPath);
        CourseRoute(encode, currentFolderPath)
      else
        CourseRoute(encode, currentFolderPath)
    }
  }
}
