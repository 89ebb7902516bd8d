/** The folder-structure analyzer: a first pass over a FolderItem tree that
    accumulates totals and the two depths into shared running state, a second
    pass that appends one FolderLevelInfo per visited folder list in pre-order,
    and the level classifier. */
module StructureAnalyzer {
  import opened Types
  import opened FolderTree
  import Text

  function Max(a: nat, b: nat): nat
  {
    if a >= b then a else b
  }

  // ---------------------------------------------------------------------
  // Reference definitions for pass 1
  // ---------------------------------------------------------------------

  /** The greatest level at which the list (itself at `level`) holds a video,
      or 0 when it holds none. */
  function VideoLevelMax(items: seq<FolderItem>, level: nat): nat
    decreases items
  {
    if items == [] then 0
    else Max(VideoLevelMax(items[..|items| - 1], level), ItemVideoLevel(items[|items| - 1], level))
  }

  function ItemVideoLevel(it: FolderItem, level: nat): nat
    decreases it
  {
    if it.itemType == Video then level
    else match it.contents
      case Absent => 0
      case Present(children) => VideoLevelMax(children, level + 1)
  }

  /** The depth a list at `level` drives the running maximum to: its own level,
      or the depth of any folder below it whose contents are present. */
  function ListDepth(items: seq<FolderItem>, level: nat): (r: nat)
    ensures r >= level
    decreases items, 1
  {
    Max(level, SubDepth(items, level))
  }

  function SubDepth(items: seq<FolderItem>, level: nat): nat
    decreases items, 0
  {
    if items == [] then 0
    else Max(SubDepth(items[..|items| - 1], level), ItemSubDepth(items[|items| - 1], level))
  }

  function ItemSubDepth(it: FolderItem, level: nat): nat
    decreases it, 0
  {
    if it.itemType == Folder && it.contents.Present? then ListDepth(it.contents.items, level + 1) else 0
  }

  // ---------------------------------------------------------------------
  // Pass 1: the shared running state and the recursive loop
  // ---------------------------------------------------------------------

  /** The closure variables the first pass updates. */
  datatype Tally = Tally(maxDepth: nat, videoDepth: nat, totalFolders: nat, totalVideos: nat)

  /** What one call of the first pass returns about its own list. */
  datatype LevelCounts = LevelCounts(hasDirectVideos: bool, videoCount: nat, subfolderCount: nat)

  /** One call of the first pass: walks the list at `level`, bumping the
      totals, raising the video depth on each video and the maximum depth on
      each folder with contents, then raising the maximum depth to `level`. */
  method AnalyzeFromFolderItems(items: seq<FolderItem>, level: nat, t: Tally)
    returns (t': Tally, counts: LevelCounts)
    ensures t'.totalFolders == t.totalFolders + FolderNodes(items)
    ensures t'.totalVideos == t.totalVideos + VideoNodes(items)
    ensures t'.videoDepth == Max(t.videoDepth, VideoLevelMax(items, level))
    ensures t'.maxDepth == Max(t.maxDepth, ListDepth(items, level))
    ensures counts.videoCount == DirectCount(items, Video)
    ensures counts.subfolderCount == DirectCount(items, Folder)
    ensures counts.hasDirectVideos <==> counts.videoCount > 0
    decreases items
  {
    var maxDepth, videoDepth, totalFolders, totalVideos := t.maxDepth, t.videoDepth, t.totalFolders, t.totalVideos;
    var videoCount: nat := 0;
    var subfolderCount: nat := 0;
    var hasDirectVideos := false;
    for i := 0 to |items|
      invariant totalFolders == t.totalFolders + FolderNodes(items[..i])
      invariant totalVideos == t.totalVideos + VideoNodes(items[..i])
      invariant videoDepth == Max(t.videoDepth, VideoLevelMax(items[..i], level))
      invariant maxDepth == Max(t.maxDepth, SubDepth(items[..i], level))
      invariant videoCount == DirectCount(items[..i], Video)
      invariant subfolderCount == DirectCount(items[..i], Folder)
      invariant hasDirectVideos <==> videoCount > 0
    {
      var item := items[i];
      Pass1Step(items, i, level);
      if item.itemType == Video {
        videoCount := videoCount + 1;
        totalVideos := totalVideos + 1;
        hasDirectVideos := true;
        if level > videoDepth {
          videoDepth := level;
        }
      } else {
        subfolderCount := subfolderCount + 1;
        totalFolders := totalFolders + 1;
        if item.contents.Present? {
          var inner, _ := AnalyzeFromFolderItems(item.contents.items, level + 1,
                            Tally(maxDepth, videoDepth, totalFolders, totalVideos));
          maxDepth, videoDepth, totalFolders, totalVideos :=
            inner.maxDepth, inner.videoDepth, inner.totalFolders, inner.totalVideos;
          if level + 1 > maxDepth {
            maxDepth := level + 1;
          }
        }
      }
    }
    assert items[..|items|] == items;
    if level > maxDepth {
      maxDepth := level;
    }
    t' := Tally(maxDepth, videoDepth, totalFolders, totalVideos);
    counts := LevelCounts(hasDirectVideos, videoCount, subfolderCount);
  }

  /** How each pass-1 fold grows when the prefix takes one more item. */
  lemma {:induction false} Pass1Step(items: seq<FolderItem>, i: nat, level: nat)
    requires i < |items|
    ensures FolderNodes(items[..i + 1]) == FolderNodes(items[..i]) + ItemFolderNodes(items[i])
    ensures VideoNodes(items[..i + 1]) == VideoNodes(items[..i]) + ItemVideoNodes(items[i])
    ensures VideoLevelMax(items[..i + 1], level) == Max(VideoLevelMax(items[..i], level), ItemVideoLevel(items[i], level))
    ensures SubDepth(items[..i + 1], level) == Max(SubDepth(items[..i], level), ItemSubDepth(items[i], level))
    ensures DirectCount(items[..i + 1], Video) == DirectCount(items[..i], Video) + (if items[i].itemType == Video then 1 else 0)
    ensures DirectCount(items[..i + 1], Folder) == DirectCount(items[..i], Folder) + (if items[i].itemType == Folder then 1 else 0)
  {
    assert items[..i + 1][..i] == items[..i];
  }

  // ---------------------------------------------------------------------
  // What pass 1 computes
  // ---------------------------------------------------------------------

  /** Some video sits `d` levels below this list (0: directly in it). */
  predicate VideoAt(items: seq<FolderItem>, d: nat)
    decreases items
  {
    exists k :: 0 <= k < |items| && ItemVideoAt(items[k], d)
  }

  predicate ItemVideoAt(it: FolderItem, d: nat)
    decreases it
  {
    if it.itemType == Video then d == 0
    else it.contents.Present? && d > 0 && VideoAt(it.contents.items, d - 1)
  }

  /** Some folder with present contents sits `d` levels below this list. */
  predicate OpenFolderAt(items: seq<FolderItem>, d: nat)
    decreases items
  {
    exists k :: 0 <= k < |items| && ItemOpenFolderAt(items[k], d)
  }

  predicate ItemOpenFolderAt(it: FolderItem, d: nat)
    decreases it
  {
    it.itemType == Folder && it.contents.Present? &&
    (d == 0 || OpenFolderAt(it.contents.items, d - 1))
  }

  /** Every video lies no deeper than the video depth. */
  lemma {:induction false} VideoLevelMaxBounds(items: seq<FolderItem>, level: nat, d: nat)
    requires VideoAt(items, d)
    ensures VideoLevelMax(items, level) >= level + d
    decreases items
  {
    var k :| 0 <= k < |items| && ItemVideoAt(items[k], d);
    var n := |items| - 1;
    if k == n {
      ItemVideoLevelBounds(items[n], level, d);
    } else {
      assert items[..n][k] == items[k];
      VideoLevelMaxBounds(items[..n], level, d);
    }
  }

  lemma {:induction false} ItemVideoLevelBounds(it: FolderItem, level: nat, d: nat)
    requires ItemVideoAt(it, d)
    ensures ItemVideoLevel(it, level) >= level + d
    decreases it
  {
    if it.itemType != Video {
      VideoLevelMaxBounds(it.contents.items, level + 1, d - 1);
    }
  }

  /** A positive video depth is attained by some video. */
  lemma {:induction false} VideoLevelMaxAttained(items: seq<FolderItem>, level: nat)
    ensures VideoLevelMax(items, level) == 0 ||
      (VideoLevelMax(items, level) >= level && VideoAt(items, VideoLevelMax(items, level) - level))
    decreases items
  {
    if items != [] {
      var n := |items| - 1;
      var r := VideoLevelMax(items, level);
      if r > 0 {
        if r == VideoLevelMax(items[..n], level) {
          VideoLevelMaxAttained(items[..n], level);
          var k :| 0 <= k < n && ItemVideoAt(items[..n][k], r - level);
          assert items[k] == items[..n][k];
        } else {
          ItemVideoLevelAttained(items[n], level);
        }
      }
    }
  }

  lemma {:induction false} ItemVideoLevelAttained(it: FolderItem, level: nat)
    ensures ItemVideoLevel(it, level) == 0 ||
      (ItemVideoLevel(it, level) >= level && ItemVideoAt(it, ItemVideoLevel(it, level) - level))
    decreases it
  {
    if it.itemType != Video && it.contents.Present? {
      VideoLevelMaxAttained(it.contents.items, level + 1);
    }
  }

  /** The video depth of a tree is the greatest level of any video in it
      (root items at level 0), and 0 when there is no video below the root. */
  lemma {:induction false} VideoDepthIsDeepestVideo(items: seq<FolderItem>)
    ensures forall d: nat :: VideoAt(items, d) ==> d <= VideoLevelMax(items, 0)
    ensures VideoLevelMax(items, 0) == 0 || VideoAt(items, VideoLevelMax(items, 0))
    ensures VideoLevelMax(items, 0) == 0 <==> forall d: nat :: d > 0 ==> !VideoAt(items, d)
  {
    forall d: nat | VideoAt(items, d) ensures d <= VideoLevelMax(items, 0) {
      VideoLevelMaxBounds(items, 0, d);
    }
    VideoLevelMaxAttained(items, 0);
  }

  /** Every folder with contents lies strictly above the maximum depth. */
  lemma {:induction false} ListDepthBounds(items: seq<FolderItem>, level: nat, d: nat)
    requires OpenFolderAt(items, d)
    ensures ListDepth(items, level) >= level + d + 1
    decreases items
  {
    var k :| 0 <= k < |items| && ItemOpenFolderAt(items[k], d);
    SubDepthBounds(items, level, d, k);
  }

  lemma {:induction false} SubDepthBounds(items: seq<FolderItem>, level: nat, d: nat, k: nat)
    requires k < |items| && ItemOpenFolderAt(items[k], d)
    ensures SubDepth(items, level) >= level + d + 1
    decreases items, |items|
  {
    var n := |items| - 1;
    if k == n {
      var it := items[n];
      if d > 0 {
        ListDepthBounds(it.contents.items, level + 1, d - 1);
      }
    } else {
      assert items[..n][k] == items[k];
      SubDepthBounds(items[..n], level, d, k);
    }
  }

  /** A maximum depth above the list's own level is one more than the level
      of some folder with contents. */
  lemma {:induction false} ListDepthAttained(items: seq<FolderItem>, level: nat)
    ensures ListDepth(items, level) == level ||
      (ListDepth(items, level) > level && OpenFolderAt(items, ListDepth(items, level) - level - 1))
    decreases items, 1
  {
    SubDepthAttained(items, level);
  }

  lemma {:induction false} SubDepthAttained(items: seq<FolderItem>, level: nat)
    ensures SubDepth(items, level) == 0 ||
      (SubDepth(items, level) > level && OpenFolderAt(items, SubDepth(items, level) - level - 1))
    decreases items, 0
  {
    if items != [] {
      var n := |items| - 1;
      var r := SubDepth(items, level);
      var it := items[n];
      if r > 0 {
        if r == SubDepth(items[..n], level) {
          SubDepthAttained(items[..n], level);
          var k :| 0 <= k < n && ItemOpenFolderAt(items[..n][k], r - level - 1);
          assert items[k] == items[..n][k];
        } else {
          var c := it.contents.items;
          ListDepthAttained(c, level + 1);
          if ListDepth(c, level + 1) > level + 1 {
            var j :| 0 <= j < |c| && ItemOpenFolderAt(c[j], r - level - 2);
          }
          assert ItemOpenFolderAt(items[n], r - level - 1);
        }
      }
    }
  }

  /** The maximum depth is 0 exactly when no folder has contents; otherwise
      it is one more than the deepest level of a folder with contents. */
  lemma {:induction false} MaxDepthIsBelowDeepestOpenFolder(items: seq<FolderItem>)
    ensures forall d: nat :: OpenFolderAt(items, d) ==> d + 1 <= ListDepth(items, 0)
    ensures ListDepth(items, 0) == 0 || OpenFolderAt(items, ListDepth(items, 0) - 1)
    ensures ListDepth(items, 0) == 0 <==> forall d: nat :: !OpenFolderAt(items, d)
  {
    forall d: nat | OpenFolderAt(items, d) ensures d + 1 <= ListDepth(items, 0) {
      ListDepthBounds(items, 0, d);
    }
    ListDepthAttained(items, 0);
  }

  /** The maximum depth never falls below the video depth. */
  lemma {:induction false} MaxDepthCoversVideoDepth(items: seq<FolderItem>, level: nat)
    ensures VideoLevelMax(items, level) <= ListDepth(items, level)
    decreases items
  {
    if items != [] {
      var n := |items| - 1;
      MaxDepthCoversVideoDepth(items[..n], level);
      var it := items[n];
      if it.itemType != Video && it.contents.Present? {
        MaxDepthCoversVideoDepth(it.contents.items, level + 1);
        assert ItemVideoLevel(it, level) <= ItemSubDepth(it, level);
      }
      assert ItemVideoLevel(it, level) <= Max(level, ItemSubDepth(it, level));
    }
  }

  // ---------------------------------------------------------------------
  // Classification
  // ---------------------------------------------------------------------

  /** The level classifier. Level 0 is the course; a level equal to the video
      depth is a lesson; everything else is a module. Its fourth test can only
      be reached with a level other than the video depth, so it never fires. */
  function GetFolderType(level: nat, videoDepth: nat, maxDepth: nat): (r: FolderType)
    ensures r == Course <==> level == 0
    ensures level != 0 ==> (r == Lesson <==> level == videoDepth)
  {
    if level == 0 then Course
    else if level == videoDepth then Lesson
    else if 0 < level < videoDepth then Module
    else if level == maxDepth && videoDepth == maxDepth then Lesson
    else Module
  }

  // ---------------------------------------------------------------------
  // Reference definitions for pass 2
  // ---------------------------------------------------------------------

  /** The record pass 2 appends for a list at `level` named by `path`. */
  function Entry(items: seq<FolderItem>, level: nat, path: string, videoDepth: nat, maxDepth: nat)
    : (e: FolderLevelInfo)
    ensures e.level == level && e.path == path && e.name == Text.Basename(path)
    ensures e.folderType == GetFolderType(level, videoDepth, maxDepth)
    ensures e.hasVideos <==> e.videoCount > 0
    ensures e.hasSubfolders <==> e.subfolderCount > 0
    ensures e.videoCount + e.subfolderCount == |items|
    ensures e.videoCount == DirectCount(items, Video) && e.subfolderCount == DirectCount(items, Folder)
  {
    DirectCountsPartition(items);
    var vc := DirectCount(items, Video);
    var sc := DirectCount(items, Folder);
    FolderLevelInfo(level, GetFolderType(level, videoDepth, maxDepth), path, Text.Basename(path),
                    vc > 0, sc > 0, vc, sc)
  }

  /** The records pass 2 appends for a list and, when it has subfolders and
      lies above the video depth, for each folder child with contents in turn. */
  function LevelInfos(items: seq<FolderItem>, level: nat, path: string, videoDepth: nat, maxDepth: nat)
    : seq<FolderLevelInfo>
    decreases items, 1
  {
    [Entry(items, level, path, videoDepth, maxDepth)] +
    (if DirectCount(items, Folder) > 0 && level < videoDepth
     then ChildInfos(items, level + 1, videoDepth, maxDepth)
     else [])
  }

  function ChildInfos(items: seq<FolderItem>, level: nat, videoDepth: nat, maxDepth: nat)
    : seq<FolderLevelInfo>
    decreases items, 0
  {
    if items == [] then []
    else ChildInfos(items[..|items| - 1], level, videoDepth, maxDepth) +
         ItemInfos(items[|items| - 1], level, videoDepth, maxDepth)
  }

  function ItemInfos(it: FolderItem, level: nat, videoDepth: nat, maxDepth: nat)
    : seq<FolderLevelInfo>
    decreases it, 0
  {
    if it.itemType == Folder && it.contents.Present?
    then LevelInfos(it.contents.items, level, it.path, videoDepth, maxDepth)
    else []
  }

  // ---------------------------------------------------------------------
  // Pass 2: the recursive push loop
  // ---------------------------------------------------------------------

  /** One call of pass 2: counts the list's children, pushes its record, then
      descends into each folder child with contents when the list has
      subfolders and lies above the video depth. */
  method BuildLevelInfo(items: seq<FolderItem>, level: nat, path: string, videoDepth: nat,
                        maxDepth: nat, structure: seq<FolderLevelInfo>)
    returns (structure': seq<FolderLevelInfo>)
    ensures structure' == structure + LevelInfos(items, level, path, videoDepth, maxDepth)
    decreases items, 1
  {
    var videoCount: nat := 0;
    var subfolderCount: nat := 0;
    var hasVideosInThisLevel := false;
    for i := 0 to |items|
      invariant videoCount == DirectCount(items[..i], Video)
      invariant subfolderCount == DirectCount(items[..i], Folder)
      invariant hasVideosInThisLevel <==> videoCount > 0
    {
      Pass1Step(items, i, level);
      if items[i].itemType == Video {
        videoCount := videoCount + 1;
        hasVideosInThisLevel := true;
      } else {
        subfolderCount := subfolderCount + 1;
      }
    }
    assert items[..|items|] == items;
    var folderName := Text.Basename(path);
    var folderType := GetFolderType(level, videoDepth, maxDepth);
    var entry := FolderLevelInfo(level, folderType, path, folderName, hasVideosInThisLevel,
                                 subfolderCount > 0, videoCount, subfolderCount);
    assert entry == Entry(items, level, path, videoDepth, maxDepth);
    structure' := structure + [entry];
    if subfolderCount > 0 && level < videoDepth {
      structure' := BuildChildLevelInfos(items, level + 1, videoDepth, maxDepth, structure');
      Text.AppendAssoc(structure, [entry], ChildInfos(items, level + 1, videoDepth, maxDepth));
    } else {
      assert [entry] + [] == [entry];
    }
  }

  /** The descent loop of pass 2: one nested call per folder child with
      contents, in list order. */
  method BuildChildLevelInfos(items: seq<FolderItem>, level: nat, videoDepth: nat,
                              maxDepth: nat, structure: seq<FolderLevelInfo>)
    returns (structure': seq<FolderLevelInfo>)
    ensures structure' == structure + ChildInfos(items, level, videoDepth, maxDepth)
    decreases items, 0
  {
    structure' := structure;
    for i := 0 to |items|
      invariant structure' == structure + ChildInfos(items[..i], level, videoDepth, maxDepth)
    {
      var item := items[i];
      ChildInfosStep(items, i, level, videoDepth, maxDepth);
      ghost var before := structure';
      if item.itemType == Folder && item.contents.Present? {
        structure' := BuildLevelInfo(item.contents.items, level, item.path, videoDepth,
                                     maxDepth, structure');
      }
      assert structure' == before + ItemInfos(item, level, videoDepth, maxDepth);
      Text.AppendAssoc(structure, ChildInfos(items[..i], level, videoDepth, maxDepth),
                  ItemInfos(item, level, videoDepth, maxDepth));
    }
    assert items[..|items|] == items;
  }

  lemma {:induction false} ChildInfosStep(items: seq<FolderItem>, i: nat, level: nat, videoDepth: nat, maxDepth: nat)
    requires i < |items|
    ensures ChildInfos(items[..i + 1], level, videoDepth, maxDepth) ==
            ChildInfos(items[..i], level, videoDepth, maxDepth) + ItemInfos(items[i], level, videoDepth, maxDepth)
  {
    assert items[..i + 1][..i] == items[..i];
  }

  // ---------------------------------------------------------------------
  // What pass 2 produces
  // ---------------------------------------------------------------------

  /** Every record in `s` has a level in [lo, hi], consistent flags and the
      classification of its own level. */
  ghost predicate WellFormedEntries(s: seq<FolderLevelInfo>, lo: nat, hi: nat, videoDepth: nat, maxDepth: nat)
  {
    forall k :: 0 <= k < |s| ==>
      lo <= s[k].level <= hi &&
      (s[k].hasVideos <==> s[k].videoCount > 0) &&
      (s[k].hasSubfolders <==> s[k].subfolderCount > 0) &&
      s[k].folderType == GetFolderType(s[k].level, videoDepth, maxDepth)
  }

  /** Records of pass 2 are well formed, and none lies deeper than the video
      depth unless it is the list's own record. */
  lemma {:induction false} LevelInfosWellFormed(items: seq<FolderItem>, level: nat, path: string,
                                                 videoDepth: nat, maxDepth: nat)
    ensures WellFormedEntries(LevelInfos(items, level, path, videoDepth, maxDepth),
                              level, Max(level, videoDepth), videoDepth, maxDepth)
    decreases items, 1
  {
    if DirectCount(items, Folder) > 0 && level < videoDepth {
      ChildInfosWellFormed(items, level + 1, videoDepth, maxDepth);
    }
  }

  lemma {:induction false} ChildInfosWellFormed(items: seq<FolderItem>, level: nat,
                                                videoDepth: nat, maxDepth: nat)
    requires level <= videoDepth
    ensures WellFormedEntries(ChildInfos(items, level, videoDepth, maxDepth),
                              level, videoDepth, videoDepth, maxDepth)
    decreases items, 0
  {
    if items != [] {
      var n := |items| - 1;
      ChildInfosWellFormed(items[..n], level, videoDepth, maxDepth);
      var it := items[n];
      if it.itemType == Folder && it.contents.Present? {
        LevelInfosWellFormed(it.contents.items, level, it.path, videoDepth, maxDepth);
      }
    }
  }

  // ---------------------------------------------------------------------
  // The whole analysis
  // ---------------------------------------------------------------------

  /** Runs pass 1 from level 0, then pass 2 from the root list named by
      `rootPath`, and returns the totals, the depths and the records. */
  method AnalyzeStructureFromItems(folderItems: seq<FolderItem>, rootPath: string)
    returns (info: FolderStructureInfo)
    ensures info.totalFolders == FolderNodes(folderItems)
    ensures info.totalVideos == VideoNodes(folderItems)
    ensures info.videoDepth == VideoLevelMax(folderItems, 0)
    ensures info.maxDepth == ListDepth(folderItems, 0)
    ensures info.maxDepth >= info.videoDepth
    ensures info.structure == LevelInfos(folderItems, 0, rootPath, info.videoDepth, info.maxDepth)
    ensures |info.structure| >= 1 && info.structure[0] == Entry(folderItems, 0, rootPath, info.videoDepth, info.maxDepth)
    ensures info.structure[0].folderType == Course && info.structure[0].path == rootPath
    ensures WellFormedEntries(info.structure, 0, info.videoDepth, info.videoDepth, info.maxDepth)
    ensures folderItems == [] ==>
      info == FolderStructureInfo(0, 0, 0, 0,
        [FolderLevelInfo(0, Course, rootPath, Text.Basename(rootPath), false, false, 0, 0)])
  {
    var t, rootCounts := AnalyzeFromFolderItems(folderItems, 0, Tally(0, 0, 0, 0));
    var structure := BuildLevelInfo(folderItems, 0, rootPath, t.videoDepth, t.maxDepth, []);
    info := FolderStructureInfo(t.maxDepth, t.videoDepth, t.totalFolders, t.totalVideos, structure);
    MaxDepthCoversVideoDepth(folderItems, 0);
    LevelInfosWellFormed(folderItems, 0, rootPath, t.videoDepth, t.maxDepth);
  }

  // ---------------------------------------------------------------------
  // Classification of a path relative to the root
  // ---------------------------------------------------------------------

  /** Length of the longest common prefix of two segment lists. */
  function CommonPrefixLength(a: seq<string>, b: seq<string>): (n: nat)
    ensures n <= |a| && n <= |b| && a[..n] == b[..n]
    ensures n < |a| && n < |b| ==> a[n] != b[n]
  {
    if a == [] || b == [] || a[0] != b[0] then 0
    else 1 + CommonPrefixLength(a[1..], b[1..])
  }

  /** A run of `n` parent steps. */
  function Ups(n: nat): (r: seq<string>)
    ensures |r| == n && forall k :: 0 <= k < n ==> r[k] == ".."
  {
    if n == 0 then [] else Ups(n - 1) + [".."]
  }

  /** The segments of the relative path from `root` to `target`: one parent
      step per root segment past the common prefix, then the rest of the
      target's segments. */
  function RelativeSegments(root: string, target: string): seq<string>
  {
    var r := Text.Segments(root);
    var f := Text.Segments(target);
    var c := CommonPrefixLength(r, f);
    Ups(|r| - c) + f[c..]
  }

  function RelativePath(root: string, target: string): string
  {
    Text.Join(RelativeSegments(root, target), '/')
  }

  /** Classifies a folder by the number of non-empty segments of its path
      relative to the root. */
  function GetFolderTypeForPath(folderPath: string, rootPath: string, info: FolderStructureInfo)
    : (r: FolderType)
    ensures r == GetFolderType(|RelativeSegments(rootPath, folderPath)|, info.videoDepth, info.maxDepth)
  {
    var depth := |Text.NonEmpty(Text.Split(RelativePath(rootPath, folderPath), '/'))|;
    RelativeDepth(rootPath, folderPath);
    GetFolderType(depth, info.videoDepth, info.maxDepth)
  }

  /** Segments of a path are non-empty and free of the separator. */
  lemma {:induction false} SegmentsClean(s: string)
    ensures forall k :: 0 <= k < |Text.Segments(s)| ==>
      Text.Segments(s)[k] != "" && '/' !in Text.Segments(s)[k]
  {
    Text.SplitPartsSepFree(s, '/');
  }

  /** Splitting the relative path again counts one segment per step. */
  lemma {:induction false} RelativeDepth(root: string, target: string)
    ensures |Text.NonEmpty(Text.Split(RelativePath(root, target), '/'))| ==
            |RelativeSegments(root, target)|
  {
    var segs := RelativeSegments(root, target);
    if segs == [] {
      assert Text.Split("", '/') == [""];
    } else {
      var r := Text.Segments(root);
      var f := Text.Segments(target);
      var c := CommonPrefixLength(r, f);
      SegmentsClean(target);
      assert forall k :: 0 <= k < |segs| ==> segs[k] != "" && '/' !in segs[k] by {
        forall k | 0 <= k < |segs| ensures segs[k] != "" && '/' !in segs[k] {
          if k >= |r| - c {
            assert segs[k] == f[c + k - (|r| - c)];
          }
        }
      }
      Text.SegmentsJoin(segs);
    }
  }

  /** A folder whose segments extend the root's by `extra` lies `|extra|`
      levels down; the root itself is the course. */
  lemma {:induction false} DescendantDepth(rootPath: string, folderPath: string, extra: seq<string>)
    requires Text.Segments(folderPath) == Text.Segments(rootPath) + extra
    ensures |RelativeSegments(rootPath, folderPath)| == |extra|
  {
    var r := Text.Segments(rootPath);
    var f := Text.Segments(folderPath);
    PrefixIsCommon(r, extra);
    assert f[|r|..] == extra;
  }

  lemma {:induction false} PrefixIsCommon(r: seq<string>, extra: seq<string>)
    ensures CommonPrefixLength(r, r + extra) == |r|
  {
    if r != [] {
      assert (r + extra)[1..] == r[1..] + extra;
      PrefixIsCommon(r[1..], extra);
    }
  }

  lemma {:induction false} RootIsCourse(rootPath: string, info: FolderStructureInfo)
    ensures GetFolderTypeForPath(rootPath, rootPath, info) == Course
  {
    DescendantDepth(rootPath, rootPath, []);
    assert Text.Segments(rootPath) + [] == Text.Segments(rootPath);
  }

  // ---------------------------------------------------------------------
  // Worked trees
  // ---------------------------------------------------------------------

  /** A root holding one folder with one video: the folder is a lesson at
      level 1, which is both depths. */
  lemma {:induction false} OneModuleOneLesson(root: string, modPath: string, vidPath: string)
    ensures var video := FolderItem("lesson1.mp4", vidPath, Video, Absent, Some(125));
      var tree := [FolderItem("Module1", modPath, Folder, Present([video]), None)];
      FolderNodes(tree) == 1 && VideoNodes(tree) == 1 &&
      VideoLevelMax(tree, 0) == 1 && ListDepth(tree, 0) == 1 &&
      |LevelInfos(tree, 0, root, 1, 1)| == 2 &&
      LevelInfos(tree, 0, root, 1, 1)[1].folderType == Lesson &&
      LevelInfos(tree, 0, root, 1, 1)[1].path == modPath &&
      LevelInfos(tree, 0, root, 1, 1)[1].videoCount == 1
  {
    var video := FolderItem("lesson1.mp4", vidPath, Video, Absent, Some(125));
    var m := FolderItem("Module1", modPath, Folder, Present([video]), None);
    var tree := [m];
    assert tree[..0] == [] && [video][..0] == [];
    assert FolderNodes([video]) == 0 && VideoNodes([video]) == 1;
    assert ItemFolderNodes(m) == 1 && ItemVideoNodes(m) == 1;
    assert VideoLevelMax([video], 1) == 1;
    assert ItemVideoLevel(m, 0) == 1;
    assert SubDepth([video], 1) == 0 && ListDepth([video], 1) == 1;
    assert ItemSubDepth(m, 0) == 1 && SubDepth(tree, 0) == 1;
    assert DirectCount(tree, Folder) == 1;
    assert LevelInfos([video], 1, modPath, 1, 1) == [Entry([video], 1, modPath, 1, 1)];
    assert ChildInfos(tree, 1, 1, 1) == LevelInfos([video], 1, modPath, 1, 1);
  }

  /** Videos at depth 1 and depth 3 give video depth 3, so the depth-1 folder
      that holds a video directly is classified as a module. */
  lemma {:induction false} DeepestVideoWins(p: string)
    ensures var v := FolderItem("v.mp4", p, Video, Absent, None);
      var deep := FolderItem("c", p, Folder, Present([FolderItem("b", p, Folder, Present([v]), None)]), None);
      var tree := [FolderItem("a", p, Folder, Present([v, deep]), None)];
      VideoLevelMax(tree, 0) == 3 &&
      GetFolderType(1, VideoLevelMax(tree, 0), ListDepth(tree, 0)) == Module
  {
    var v := FolderItem("v.mp4", p, Video, Absent, None);
    var b := FolderItem("b", p, Folder, Present([v]), None);
    var deep := FolderItem("c", p, Folder, Present([b]), None);
    var a := FolderItem("a", p, Folder, Present([v, deep]), None);
    assert [v][..0] == [] && [b][..0] == [] && [a][..0] == [] && [v, deep][..1] == [v];
    assert VideoLevelMax([v], 3) == 3;
    assert VideoLevelMax([b], 2) == 3;
    assert VideoLevelMax([v], 1) == 1;
    assert ItemVideoLevel(deep, 1) == 3;
    assert VideoLevelMax([v, deep], 1) == 3;
    assert ItemVideoLevel(a, 0) == 3;
  }
}
