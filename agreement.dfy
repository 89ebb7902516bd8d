/** The three walkers of one folder tree agree: the indexing worker's
    totals, the structure analyzer's totals and the player's collection of
    videos. */
module Agreement {
  import opened Types
  import FolderTree
  import CourseIndexer
  import StructureAnalyzer
  import VideoPlayer

  /** On the same items, the worker and the analyzer report the same totals,
      and the player collects exactly as many videos as both count. */
  method CountsAgree(items: seq<FolderItem>, rootPath: string)
    returns (folders: nat, videos: nat, info: FolderStructureInfo, playlist: seq<FolderItem>)
    ensures folders == info.totalFolders && videos == info.totalVideos
    ensures |playlist| == videos
    ensures forall k :: 0 <= k < |playlist| ==> playlist[k].itemType == Video
  {
    folders, videos := CourseIndexer.Walk(items, 0, 0);
    info := StructureAnalyzer.AnalyzeStructureFromItems(items, rootPath);
    playlist := VideoPlayer.ProcessItems(items, []);
    FolderTree.VideosLength(items);
    FolderTree.VideosAreVideos(items);
  }
}
