/** Reference definitions over FolderItem trees: how many folder and video
    nodes a tree holds, and its videos in depth-first pre-order. Recursion
    enters a folder only when its `contents` is present, as every walker of
    the tree does. The list folds peel the last element so that a loop over
    a prefix extends them one item at a time. */
module FolderTree {
  import opened Types

  /** Number of folder nodes anywhere in the list. */
  function FolderNodes(items: seq<FolderItem>): nat
    decreases items
  {
    if items == [] then 0
    else FolderNodes(items[..|items| - 1]) + ItemFolderNodes(items[|items| - 1])
  }

  function ItemFolderNodes(it: FolderItem): nat
    decreases it
  {
    if it.itemType == Video then 0
    else match it.contents
      case Absent => 1
      case Present(children) => 1 + FolderNodes(children)
  }

  /** Number of video nodes anywhere in the list. */
  function VideoNodes(items: seq<FolderItem>): nat
    decreases items
  {
    if items == [] then 0
    else VideoNodes(items[..|items| - 1]) + ItemVideoNodes(items[|items| - 1])
  }

  function ItemVideoNodes(it: FolderItem): nat
    decreases it
  {
    if it.itemType == Video then 1
    else match it.contents
      case Absent => 0
      case Present(children) => VideoNodes(children)
  }

  /** The video nodes of the list in depth-first pre-order. */
  function Videos(items: seq<FolderItem>): seq<FolderItem>
    decreases items
  {
    if items == [] then []
    else Videos(items[..|items| - 1]) + ItemVideos(items[|items| - 1])
  }

  function ItemVideos(it: FolderItem): seq<FolderItem>
    decreases it
  {
    if it.itemType == Video then [it]
    else match it.contents
      case Absent => []
      case Present(children) => Videos(children)
  }

  /** The children of a folder item, or none. */
  function Children(it: FolderItem): seq<FolderItem>
  {
    if it.contents.Present? then it.contents.items else []
  }

  /** How many items of the list (not their descendants) have the given type. */
  function DirectCount(items: seq<FolderItem>, t: ItemType): (r: nat)
    ensures r <= |items|
  {
    if items == [] then 0
    else DirectCount(items[..|items| - 1], t) + (if items[|items| - 1].itemType == t then 1 else 0)
  }

  /** The count is zero exactly when no item has the type. */
  lemma {:induction false} DirectCountZero(items: seq<FolderItem>, t: ItemType)
    ensures DirectCount(items, t) == 0 <==> forall k :: 0 <= k < |items| ==> items[k].itemType != t
  {
    if items != [] {
      var n := |items| - 1;
      DirectCountZero(items[..n], t);
      if DirectCount(items, t) == 0 {
        forall k | 0 <= k < |items| ensures items[k].itemType != t {
          if k < n { assert items[..n][k] == items[k]; }
        }
      } else if DirectCount(items[..n], t) > 0 {
        var k :| 0 <= k < n && items[..n][k].itemType == t;
        assert items[k] == items[..n][k];
      }
    }
  }

  /** The two direct counts partition the list. */
  lemma {:induction false} DirectCountsPartition(items: seq<FolderItem>)
    ensures DirectCount(items, Video) + DirectCount(items, Folder) == |items|
  {
    if items != [] {
      DirectCountsPartition(items[..|items| - 1]);
    }
  }

  /** The folder items of a list, in order. */
  function FoldersOf(items: seq<FolderItem>): (r: seq<FolderItem>)
    ensures |r| == DirectCount(items, Folder)
    ensures forall k :: 0 <= k < |r| ==> r[k].itemType == Folder && r[k] in items
    ensures forall it :: it in items && it.itemType == Folder ==> it in r
  {
    if items == [] then []
    else
      var last := items[|items| - 1];
      assert items == items[..|items| - 1] + [last];
      FoldersOf(items[..|items| - 1]) + (if last.itemType == Folder then [last] else [])
  }

  /** The video items of a list (not their descendants), in order. */
  function DirectVideos(items: seq<FolderItem>): (r: seq<FolderItem>)
    ensures |r| == DirectCount(items, Video)
    ensures forall k :: 0 <= k < |r| ==> r[k].itemType == Video && r[k] in items
  {
    if items == [] then []
    else
      var last := items[|items| - 1];
      DirectVideos(items[..|items| - 1]) + (if last.itemType == Video then [last] else [])
  }

  /** The flattened list is exactly as long as the video count. */
  lemma {:induction false} VideosLength(items: seq<FolderItem>)
    ensures |Videos(items)| == VideoNodes(items)
    decreases items
  {
    if items != [] {
      VideosLength(items[..|items| - 1]);
      ItemVideosLength(items[|items| - 1]);
    }
  }

  lemma {:induction false} ItemVideosLength(it: FolderItem)
    ensures |ItemVideos(it)| == ItemVideoNodes(it)
    decreases it
  {
    if it.itemType != Video && it.contents.Present? {
      VideosLength(it.contents.items);
    }
  }

  /** Every element of the flattened list is a video node. */
  lemma {:induction false} VideosAreVideos(items: seq<FolderItem>)
    ensures forall k :: 0 <= k < |Videos(items)| ==> Videos(items)[k].itemType == Video
    decreases items
  {
    if items != [] {
      VideosAreVideos(items[..|items| - 1]);
      ItemVideosAreVideos(items[|items| - 1]);
    }
  }

  lemma {:induction false} ItemVideosAreVideos(it: FolderItem)
    ensures forall k :: 0 <= k < |ItemVideos(it)| ==> ItemVideos(it)[k].itemType == Video
    decreases it
  {
    if it.itemType != Video && it.contents.Present? {
      VideosAreVideos(it.contents.items);
    }
  }

  /** The flattening of a concatenation is the concatenation of the flattenings. */
  lemma {:induction false} VideosAppend(a: seq<FolderItem>, b: seq<FolderItem>)
    ensures Videos(a + b) == Videos(a) + Videos(b)
    decreases |b|
  {
    if b == [] {
      assert a + b == a;
    } else {
      var b' := b[..|b| - 1];
      assert (a + b)[..|a + b| - 1] == a + b';
      assert (a + b)[|a + b| - 1] == b[|b| - 1];
      VideosAppend(a, b');
    }
  }

  /** The same additivity for both counts. */
  lemma {:induction false} NodesAppend(a: seq<FolderItem>, b: seq<FolderItem>)
    ensures FolderNodes(a + b) == FolderNodes(a) + FolderNodes(b)
    ensures VideoNodes(a + b) == VideoNodes(a) + VideoNodes(b)
    decreases |b|
  {
    if b == [] {
      assert a + b == a;
    } else {
      var b' := b[..|b| - 1];
      assert (a + b)[..|a + b| - 1] == a + b';
      assert (a + b)[|a + b| - 1] == b[|b| - 1];
      NodesAppend(a, b');
    }
  }

  /** The flattening in front-first form: the first item's videos, then the rest's. */
  lemma {:induction false} VideosCons(items: seq<FolderItem>)
    requires items != []
    ensures Videos(items) == ItemVideos(items[0]) + Videos(items[1..])
  {
    assert items == [items[0]] + items[1..];
    VideosAppend([items[0]], items[1..]);
    assert [items[0]][..0] == [];
  }

  /** A list of videos only flattens to itself. */
  lemma {:induction false} FlatListVideos(items: seq<FolderItem>)
    requires forall k :: 0 <= k < |items| ==> items[k].itemType == Video
    ensures Videos(items) == items
  {
    if items != [] {
      FlatListVideos(items[..|items| - 1]);
      assert items[..|items| - 1] + [items[|items| - 1]] == items;
    }
  }
}
