# Folder indexing and course browsing, modelled in Dafny

This project models the core of a desktop learning-content manager that scans a
user-chosen directory of educational videos and presents it as a course. It covers:

- the **directory walker** (`FileProcessor`), a pure function over a finite
  filesystem tree. It skips `._` entries, filters files by extension, by a size
  strictly above 102400 bytes and by a sniffed `video/` MIME type, and empties a
  directory whose listing or any `stat` fails;
- the **structure analyzer** (`StructureAnalyzer`). Its first pass is a
  recursive loop over shared counters: totals, maximum depth and video depth.
  Its second pass is a recursive loop that pushes one `FolderLevelInfo` per
  visited folder list, in pre-order. It also holds the level classifier and the
  path-based classifier;
- the **indexing worker** (`CourseIndexer`): the recursive node counter and the
  one-reply-per-request message handler;
- the **index job table** (`CourseIndexService`): a class over two maps, jobs
  and worker handles. Its invariant is that at most one job per root path is
  `running`;
- the **`video://` stream handler** (`VideoProtocol`): URL stripping, the MIME
  table and the 200/404/500 decision;
- the **renderer's path and string logic**: breadcrumbs (`SiteHeader`), the
  player's playlist, video lookup and selection (`VideoPlayer`), the
  module/submodule page decision (`CourseContentRouter`), and the three course
  pages' back, click, toggle-and-cache and label rules (`CourseModules`,
  `CourseModule`, `CourseSubmodule`). The duration label they share is modelled
  once in `Duration`.

`Types` holds the shared records and constants. `FolderTree` holds the reference
definitions every walker of a `FolderItem` tree is proved against: node counts,
the depth-first video list and the direct counts. `Text` models the JavaScript
string and Node path operations the code uses: `startsWith`, `indexOf`,
`lastIndexOf`, `split`, `join`, `filter(Boolean)`, `pop`, `basename`,
`toLowerCase` on ASCII, `toString` and `padStart`. `PageCommon` holds the
"index first, live listing second" loading rule the pages share. `Agreement`
proves that the worker's totals equal the analyzer's totals, and that these
equal the length of the player's flattened video list.

Modelling choices:

- The optional `contents` of a `FolderItem` is its own datatype `Contents =
  Absent | Present(items)`. This is `Option<seq<FolderItem>>` by another name,
  and it keeps recursion through the tree well-founded.
- Durations are whole seconds (`nat`).
- The filesystem, content sniffing and the duration probe are fields of a finite
  tree datatype (`FsNode`, `DirListing`).
- The index lookup `getIndexedFolder`, the live listing `listFolderContents`,
  `encodeURIComponent`/`decodeURIComponent` and `stat` in the stream handler are
  function-valued parameters. Every lookup and decode may fail.
- `path.relative` is modelled on `/`-separated segments: one `..` per root
  segment past the common prefix, then the target's remaining segments.
- Worker events and page events are sequential method calls.

Three behaviours of the code are easy to misread; the model follows the code as written:

- The video depth is the DEEPEST level holding a video, not the first one seen
  (`StructureAnalyzer.DeepestVideoWins`).
- A `stat` failure on any one entry empties the whole directory's result, not
  just that entry (`FileProcessor.FailureEmptiesDirectory`).
- A worker that exits without replying leaves its job `running`: the exit
  handler only drops the worker handle (`CourseIndexService.CourseIndexService.OnWorkerExit`).
- The save call made on completion, `saveCourseIndex`, is recorded as a log of
  calls in `saved`. Its effect is opaque.

## Model

| member | source | states |
|---|---|---|
| `Types.VideoExtensionsAreLowerCase` | src/shared/types/index.ts:32-40 | The allow-list has seven entries. Each is a dot followed by characters that lower-casing leaves unchanged, so membership after lower-casing ignores case. |
| `Types.HiddenPrefixIsDotUnderscore` | src/shared/types/index.ts:44 | The hidden prefix is `._`: `._clip.mp4` is hidden and the dotfile `.mp4` is not. |
| `FolderTree.DirectCountsPartition` | src/main/services/folder-structure-analyzer.ts:67-74 | The direct video count plus the direct folder count of a list is its length. |
| `FolderTree.DirectCountZero` | src/main/services/folder-structure-analyzer.ts:67-74 | A direct count is zero exactly when no item of the list has that type. |
| `FolderTree.FoldersOf` | src/renderer/src/pages/courses/course-modules.tsx:101-102 | The `filter` to folders: as many items as the direct folder count, each a folder of the list, and every folder of the list among them. The same filter feeds the router (course-content-router.tsx line 49). |
| `FolderTree.DirectVideos` | src/renderer/src/pages/courses/course-module.tsx:116 | The `filter` to videos: as many items as the direct video count, each a video taken from the list. |
| `FolderTree.VideosLength` | src/renderer/src/pages/courses/video-player.tsx:53-61 | The depth-first video list is exactly as long as the number of video nodes in the tree. |
| `FolderTree.VideosAreVideos` | src/renderer/src/pages/courses/video-player.tsx:53-61 | Every element of the depth-first video list is a video node. |
| `FolderTree.VideosAppend` | src/renderer/src/pages/courses/video-player.tsx:53-61 | Flattening a concatenation is the concatenation of the flattenings. |
| `FolderTree.NodesAppend` | src/main/workers/course-indexer.ts:39-50 | Both node counts are additive over concatenation. |
| `FolderTree.VideosCons` | src/renderer/src/pages/courses/video-player.tsx:53-61 | Pre-order: the first item's videos come before the rest's. |
| `FolderTree.FlatListVideos` | src/renderer/src/pages/courses/video-player.tsx:53-61 | A list holding only videos flattens to itself. |
| `StructureAnalyzer.AnalyzeFromFolderItems` | src/main/services/folder-structure-analyzer.ts:16-56 | Pass 1 adds the list's folder and video node counts to the running totals. It raises the video depth to the deepest video level and the maximum depth to the list's depth. It returns the list's direct video and folder counts, with `hasDirectVideos` iff the video count is positive. |
| `StructureAnalyzer.VideoDepthIsDeepestVideo` | src/main/services/folder-structure-analyzer.ts:30-32 | The video depth bounds the level of every video, with root items at level 0. A positive video depth is the level of some video. It is 0 iff there is no video below the root list. |
| `StructureAnalyzer.VideoLevelMaxBounds` | src/main/services/folder-structure-analyzer.ts:30-32 | A video `d` levels below a list at `level` pushes the video depth to at least `level + d`. |
| `StructureAnalyzer.VideoLevelMaxAttained` | src/main/services/folder-structure-analyzer.ts:30-32 | A positive video depth is reached by some video at exactly that level. |
| `StructureAnalyzer.MaxDepthIsBelowDeepestOpenFolder` | src/main/services/folder-structure-analyzer.ts:37-49 | The maximum depth is 0 iff no folder has contents. Otherwise it is one more than the deepest level of a folder with contents. |
| `StructureAnalyzer.ListDepthBounds` | src/main/services/folder-structure-analyzer.ts:37-43 | A folder with contents `d` levels below a list at `level` pushes the maximum depth to at least `level + d + 1`. |
| `StructureAnalyzer.ListDepthAttained` | src/main/services/folder-structure-analyzer.ts:37-49 | A maximum depth above the list's own level is reached by some folder with contents one level above it. |
| `StructureAnalyzer.MaxDepthCoversVideoDepth` | src/main/services/folder-structure-analyzer.ts:24-49 | The maximum depth is never below the video depth. |
| `StructureAnalyzer.GetFolderType` | src/main/services/folder-structure-analyzer.ts:112-134 | `course` iff the level is 0; otherwise `lesson` iff the level equals the video depth; otherwise `module`. The branch testing the maximum depth can never change this outcome. |
| `StructureAnalyzer.Entry` | src/main/services/folder-structure-analyzer.ts:63-88 | The pushed record has the list's level, path, basename and classification. `hasVideos` iff `videoCount > 0`, `hasSubfolders` iff `subfolderCount > 0`, and the two counts are the direct counts, summing to the list's length. |
| `StructureAnalyzer.BuildLevelInfo` | src/main/services/folder-structure-analyzer.ts:58-97 | Pass 2 appends exactly the pre-order records of the list: its own record, then its children's records when it has subfolders and lies above the video depth. |
| `StructureAnalyzer.BuildChildLevelInfos` | src/main/services/folder-structure-analyzer.ts:90-96 | The descent loop appends the records of each folder child with contents, in list order. |
| `StructureAnalyzer.LevelInfosWellFormed` | src/main/services/folder-structure-analyzer.ts:67-96 | Every record has consistent flags and its level's classification. No record below the list's own lies deeper than the video depth. |
| `StructureAnalyzer.AnalyzeStructureFromItems` | src/main/services/folder-structure-analyzer.ts:6-110 | The totals are the tree's folder and video node counts, and the depths are the reference depths with `maxDepth >= videoDepth`. The structure is the pre-order record list. `structure[0]` is the level-0 `course` record for `rootPath`, and no record exceeds the video depth. An empty input gives all-zero totals and exactly that one record. |
| `StructureAnalyzer.CommonPrefixLength` | src/main/services/folder-structure-analyzer.ts:141 | The length of the longest common prefix of two segment lists: the lists agree up to it and differ right after it. |
| `StructureAnalyzer.GetFolderTypeForPath` | src/main/services/folder-structure-analyzer.ts:136-145 | The classification of the number of segments of the path relative to the root. |
| `StructureAnalyzer.RelativeDepth` | src/main/services/folder-structure-analyzer.ts:141-142 | Splitting the relative path on `/` and dropping empty parts gives one part per relative segment. |
| `StructureAnalyzer.DescendantDepth` | src/main/services/folder-structure-analyzer.ts:141-144 | A folder whose segments extend the root's by `extra` lies at depth `extra`'s length. |
| `StructureAnalyzer.RootIsCourse` | src/main/services/folder-structure-analyzer.ts:141-144 | The root path itself is classified `course`. |
| `StructureAnalyzer.OneModuleOneLesson` | src/main/services/folder-structure-analyzer.ts:24-101 | A root holding one folder with one video has one folder, one video, both depths 1, and a second record of type `lesson` for that folder. |
| `StructureAnalyzer.DeepestVideoWins` | src/main/services/folder-structure-analyzer.ts:30-32 | Videos at depths 1 and 3 give video depth 3, so the depth-1 folder that holds a video is a `module`. |
| `CourseIndexer.Walk` | src/main/workers/course-indexer.ts:39-50 | The recursive counter adds the tree's folder node and video node counts to the two counters. |
| `CourseIndexer.OnMessage` | src/main/workers/course-indexer.ts:28-70 | A message that is not `full-index` posts nothing. A `full-index` request posts exactly one reply with the request's root. It is `done` with the unchanged items and both node counts after a walk, or `error` with the exception's message or `Unknown error` after a throw. |
| `CourseIndexer.ErrorText` | src/main/workers/course-indexer.ts:63-68 | The reply carries the thrown error's message, or `Unknown error` when the thrown value has none. |
| `CourseIndexService.FinishingKeepsAtMostOne` | src/main/services/course-index-service.ts:63-87 | Moving a job to `completed` or `failed` keeps at most one running job per root. |
| `CourseIndexService.AddingKeepsAtMostOne` | src/main/services/course-index-service.ts:46-61 | Adding a running job under a fresh id, for a root with nothing running, keeps at most one running job per root. |
| `CourseIndexService.RunningJobUnique` | src/main/services/course-index-service.ts:38-40 | Under the invariant the running job for a root is unique, so the `find` has one candidate. |
| `CourseIndexService.FinishedJobsDoNotBlock` | src/main/services/course-index-service.ts:39 | Completed or failed jobs for a root leave no running job for it. |
| `CourseIndexService.CourseIndexService.constructor` | src/main/services/course-index-service.ts:34-35 | Both maps start empty and the invariant holds. |
| `CourseIndexService.CourseIndexService.StartIndex` | src/main/services/course-index-service.ts:37-96 | A running job for the root is returned with both maps unchanged. Otherwise exactly one `running` job is added under the fresh id with that root, plus a worker sent a `full-index` request for it. Other jobs are untouched. On return the job exists, has the root and is running, and the at-most-one-running invariant holds. |
| `CourseIndexService.CourseIndexService.OnWorkerMessage` | src/main/services/course-index-service.ts:63-79 | `done` sets `completed`, records both totals and saves the items once. `error` sets `failed` with the text. An unknown id changes nothing. The worker map is unchanged and the invariant holds. |
| `CourseIndexService.CourseIndexService.OnWorkerError` | src/main/services/course-index-service.ts:81-87 | The job becomes `failed` with the error's message. An unknown id changes nothing. |
| `CourseIndexService.CourseIndexService.OnWorkerExit` | src/main/services/course-index-service.ts:89-91 | Only the worker entry is removed. The job record stays as it was. |
| `CourseIndexService.CourseIndexService.GetStatus` | src/main/services/course-index-service.ts:98-101 | The stored job for a known id, none for an unknown one. It reads and changes nothing. |
| `FileProcessor.ExtName` | src/main/services/file-processor.ts:41 | `path.extname` of an entry name: empty exactly when the name has no dot, its only dot leads it, or it is `..`. Otherwise it is the name from its last dot on, a suffix with a single dot. |
| `FileProcessor.GetFolderContentsRecursively` | src/main/services/file-processor.ts:12-62 | A failed `readdir`, or a failed `stat` on any visible entry, gives no items. Otherwise there are at most as many items as listed entries. |
| `FileProcessor.ProcessEntry` | src/main/services/file-processor.ts:20-53 | A hidden entry, an entry that is neither directory nor file, or a failed `stat` gives nothing. A visible directory always gives a node. A node keeps the entry name, has the joined path, and is a folder iff the entry is a directory. |
| `FileProcessor.ProcessVideoFile` | src/main/services/file-processor.ts:65-93 | A node exactly when the sniffed MIME starts with `video/`. It is a video node with the name, path and probed duration, and no contents. An unknown type or a sniff failure gives none. |
| `FileProcessor.MapEntries` | src/main/services/file-processor.ts:19-54 | One result per listed entry. |
| `FileProcessor.VideoEntryIff` | src/main/services/file-processor.ts:21-49 | An entry becomes a video node iff all of these hold: it is not hidden, it is a regular file, its lower-cased extension is allowed, its size is strictly above 102400, and it sniffs as `video/`. The node keeps the probed duration. |
| `FileProcessor.DirectoryYieldsFolder` | src/main/services/file-processor.ts:28-38 | A visible directory always yields a folder node whose contents are its own recursive walk. |
| `FileProcessor.MinimumSizeIsDropped` | src/main/services/file-processor.ts:45 | A file of exactly 102400 bytes is dropped whatever it holds. |
| `FileProcessor.DurationFailureKeepsVideo` | src/main/services/file-processor.ts:76-88 | A failed duration probe still yields the video node, without a duration. |
| `FileProcessor.UpperCaseExtension` | src/main/services/file-processor.ts:41-44 | `Intro.MP4` passes the extension test, and the dotfile `.mp4` has no extension and fails it. |
| `FileProcessor.FailureEmptiesDirectory` | src/main/services/file-processor.ts:16-62 | A failed `readdir`, or a failed `stat` on any visible entry, makes the directory's result empty. |
| `FileProcessor.FailedSubdirectoryIsEmptyFolder` | src/main/services/file-processor.ts:28-38 | A subdirectory that cannot be listed still appears, as a folder with empty contents. |
| `FileProcessor.WalkIsWellShaped` | src/main/services/file-processor.ts:19-58 | At every depth of the output, no name is hidden. Folders have contents and no duration. Videos have no contents and an allowed extension. |
| `FileProcessor.CompactKeeps` | src/main/services/file-processor.ts:56-58 | Everything the null filter keeps was a present value. |
| `FileProcessor.CompactOrder` | src/main/services/file-processor.ts:56-58 | The null filter keeps every present value, in its original order. |
| `FileProcessor.WalkKeepsListingOrder` | src/main/services/file-processor.ts:19-58 | The surviving entries appear in directory-listing order. Each output node is the result of its entry, and every entry with a result appears. |
| `VideoProtocol.StripScheme` | src/main/protocol/video-protocol.ts:12 | `video://` is removed only when it leads the URL. Otherwise the URL is unchanged. |
| `VideoProtocol.CleanPrefix` | src/main/protocol/video-protocol.ts:14-24 | The longest prefix holding neither `?` nor `#`: what follows it, if anything, is one of them. |
| `VideoProtocol.CleanPrefixOfClean` | src/main/protocol/video-protocol.ts:14-24 | A remainder with neither `?` nor `#` passes unchanged. |
| `VideoProtocol.StripVideoUrl` | src/main/protocol/video-protocol.ts:12-24 | After the cut at the first `?` and then at the first `#`, the path is the longest mark-free prefix of the de-schemed URL. It holds no `?` and no `#`. |
| `VideoProtocol.MimeTypeFor` | src/main/protocol/video-protocol.ts:48-57 | The table's type for a listed extension, `video/mp4` for any other. |
| `VideoProtocol.MimeTypesCoverWalkerExtensions` | src/main/protocol/video-protocol.ts:48-57 | The table has six entries. Every extension the walker accepts gets a `video/` type, with `.wmv` and `.flv` falling back to `video/mp4`. |
| `VideoProtocol.ServeVideo` | src/main/protocol/video-protocol.ts:9-76 | A decode or `stat` failure gives 500. A path that is not a regular file gives 404. Otherwise the answer is 200 with the extension's content type, `Accept-Ranges: bytes` and the file size as `Content-Length`. |
| `VideoProtocol.ContentLengthIsSize` | src/main/protocol/video-protocol.ts:64 | The `Content-Length` value is a decimal string that reads back as the file size. |
| `SiteHeader.SegmentCrumbs` | src/renderer/src/components/site-header.tsx:42-54 | One crumb per segment, in order, named by the segment. Only the last lacks a target, and only when there is no video. Crumb i targets `/courses/` followed by the encoding of the root, `/` and the first i+1 segments joined by `/`. |
| `SiteHeader.VideoCrumbs` | src/renderer/src/components/site-header.tsx:61-70 | Without a video parameter there is no crumb. With one there is exactly one pathless crumb: the decoded video path's last segment, or `Vídeo` when that is empty. A failed video decode gives the pathless `Curso` crumb instead, after the course crumbs already added. |
| `SiteHeader.PushSegmentCrumbs` | src/renderer/src/components/site-header.tsx:42-54 | The loop with the running `currentPath` appends exactly the segment crumbs. |
| `SiteHeader.PushVideoCrumb` | src/renderer/src/components/site-header.tsx:61-70 | Appends exactly the video crumb. |
| `SiteHeader.BuildBreadcrumbs` | src/renderer/src/components/site-header.tsx:26-77 | The effect builds exactly the reference trail. |
| `SiteHeader.Breadcrumbs` | src/renderer/src/components/site-header.tsx:26-77 | The trail starts with `Cursos` to `/courses` exactly when the path starts with `/courses`, and that is its only crumb without a course parameter. Any other path gives at most one crumb. |
| `SiteHeader.BreadcrumbsShape` | src/renderer/src/components/site-header.tsx:29-74 | `/dashboard` gives `[Dashboard]`. Any other path outside `/courses` gives nothing. Under `/courses` the first crumb is `Cursos` to `/courses`. With no course parameter it is the only crumb. A failed course decode adds just the pathless `Curso`. |
| `SiteHeader.SegmentBranch` | src/renderer/src/components/site-header.tsx:37-54 | Inside the root the trail is `Cursos`, the segment crumbs, then the video crumb. |
| `SiteHeader.OutsideRootBranch` | src/renderer/src/components/site-header.tsx:55-59 | With no root, or a course path outside it, there is exactly one course crumb. It is named by the last segment or `Curso` and targets `/courses/` + the raw parameter. |
| `SiteHeader.SegmentTargetLeadsToPrefix` | src/renderer/src/components/site-header.tsx:42-52 | When decoding inverts encoding, crumb k's target decodes to a course path inside the root whose segments below the root are the first k segments. |
| `SiteHeader.Render` | src/renderer/src/components/site-header.tsx:93-115 | n crumbs render as 2n-1 items that alternate crumb and separator. Only the last is the current page, and every other crumb links to its path. |
| `SiteHeader.SeparatorCount` | src/renderer/src/components/site-header.tsx:115 | n crumbs give n-1 separators. |
| `SiteHeader.Click` | src/renderer/src/components/site-header.tsx:79-83 | A click navigates only from a link with a path, and to that path. |
| `Text.LastSegmentOr` | src/renderer/src/pages/courses/course-modules.tsx:84 | `split('/').pop() \|\| default` is the text after the last `/`, or the default when that is empty. |
| `Text.ParentPath` | src/renderer/src/pages/courses/course-modules.tsx:59 | `split('/').slice(0, -1).join('/')` is the text before the last `/`, or empty without one. |
| `Text.JoinSplit` | src/renderer/src/pages/courses/course-modules.tsx:59 | Joining a split with its separator gives the string back. |
| `Text.SplitJoin` | src/renderer/src/components/site-header.tsx:39 | Splitting a join of separator-free parts gives the parts back. |
| `Text.ToLower` | src/main/services/file-processor.ts:41 | `toLowerCase` keeps the length, maps `A`-`Z` to lower case and leaves every other character alone. |
| `Text.IndexOf` | src/main/protocol/video-protocol.ts:15-24 | `indexOf` is -1 iff the character is absent. Otherwise it is the position of the first occurrence. |
| `Text.LastIndexOf` | src/renderer/src/pages/courses/video-player.tsx:86-87 | `lastIndexOf` is -1 iff the character is absent. Otherwise it is the position of the last occurrence. |
| `Text.NonEmpty` | src/renderer/src/components/site-header.tsx:39 | `filter(Boolean)` keeps only non-empty parts of the input, each non-empty part as often as it occurs, and all parts when none is empty. |
| `Text.NonEmptyAppend` | src/renderer/src/components/site-header.tsx:39 | The filter distributes over concatenation, so the kept parts stay in input order. |
| `Text.Basename` | src/main/services/folder-structure-analyzer.ts:76 | `path.basename` holds no `/`. |
| `Text.BasenameIsLastSegment` | src/main/services/folder-structure-analyzer.ts:76 | `path.basename` is the text after the last `/` once trailing slashes are dropped. |
| `Text.DecimalString` | src/renderer/src/pages/courses/video-player.tsx:203 | `toString` of a whole number: decimal digits without a leading zero (except for 0 itself) that read back as the number, one digit exactly below 10. |
| `Text.PaddedValue` | src/renderer/src/pages/courses/video-player.tsx:203-205 | `padStart(2, '0')` of a number below 100 is two digits with the same value. |
| `Duration.Decomposition` | src/renderer/src/pages/courses/video-player.tsx:198-200 | `h*3600 + m*60 + s` rebuilds the seconds, with minutes and seconds below 60. |
| `Duration.FormatDuration` | src/renderer/src/pages/courses/video-player.tsx:196-206 | The label is `--:--` exactly for an absent or zero duration. Every other label starts with a digit. |
| `Duration.FormatFields` | src/renderer/src/pages/courses/video-player.tsx:202-205 | The label is `h:mm:ss` from one hour up and `m:ss` below, with the lower fields padded to two digits. |
| `Duration.FormatParse` | src/renderer/src/pages/courses/course-module.tsx:139-149 | The label of a positive duration reads back as that duration. The same function appears in the player and both course pages. |
| `PageCommon.LoadChildren` | src/renderer/src/pages/courses/course-module.tsx:64-77 | With a root selected, a non-empty index answer is used and a rejected lookup rejects the load. Otherwise, or for an empty index answer, the live listing is used. |
| `PageCommon.PageItems` | src/renderer/src/pages/courses/course-modules.tsx:19-48 | The load effect: nothing changes without a current path or when loading fails. Otherwise the page shows the loaded children. |
| `PageCommon.ShownChildren` | src/renderer/src/pages/courses/course-module.tsx:219 | The cached list when there is one, even an empty one; else the inline contents; else nothing. |
| `PageCommon.PageTitle` | src/renderer/src/pages/courses/course-modules.tsx:84 | `split('/').pop() \|\| fallback` is the text after the last `/`, or the fallback when that is empty. So it is never empty and holds no `/`, and a path without `/` is its own title. The same rule titles the other two course pages with their own fallbacks (course-module.tsx line 27, course-submodule.tsx line 26). |
| `PageCommon.CourseRouteFields` | src/renderer/src/pages/courses/course-modules.tsx:52-53 | The course route splits into `""`, `courses` and the encoded folder. |
| `PageCommon.VideoRouteFields` | src/renderer/src/pages/courses/video-player.tsx:184-186 | The video route splits into `""`, `courses`, the encoded folder, `video` and the encoded video. |
| `PageCommon.FirstDirectVideo` | src/renderer/src/pages/courses/course-module.tsx:116-119 | The first filtered video of a list is preceded only by folders. |
| `VideoPlayer.ProcessItems` | src/renderer/src/pages/courses/video-player.tsx:53-61 | The recursive push loop appends exactly the tree's videos in depth-first pre-order. |
| `VideoPlayer.GetAllVideosRecursively` | src/renderer/src/pages/courses/video-player.tsx:31-69 | No path or a failed load gives no videos. Otherwise it gives every video of the loaded tree, each a video node, as many as the tree's video count. |
| `VideoPlayer.VideoName` | src/renderer/src/pages/courses/video-player.tsx:86-87 | The name holds no `/`. With a `/`, parent + `/` + name is the path; without one the name is the whole path. |
| `VideoPlayer.FallbackVideo` | src/renderer/src/pages/courses/video-player.tsx:111-127 | The stand-in is a video with the requested path and the name after the last `/`, with no contents and no duration. |
| `VideoPlayer.FindFirst` | src/renderer/src/pages/courses/video-player.tsx:104-106 | `find`: none iff nothing matches, else the first match. |
| `VideoPlayer.LoadedVideo` | src/renderer/src/pages/courses/video-player.tsx:83-130 | The requested video is a video with the requested path. It is either the stand-in or an item of the parent folder's listing. |
| `VideoPlayer.LoadCurrentVideo` | src/renderer/src/pages/courses/video-player.tsx:83-130 | The direct load gives exactly the reference video, and the stand-in when the parent's listing fails. |
| `VideoPlayer.FetchSidebar` | src/renderer/src/pages/courses/video-player.tsx:132-144 | The sidebar load: nothing without a current folder, else the index-then-live rule. |
| `VideoPlayer.PlaylistHoldsVideos` | src/renderer/src/pages/courses/video-player.tsx:147-160 | With a sort that permutes, the playlist holds only videos. It holds as many as all videos below the folder, or the folder's own videos when there are none below. |
| `VideoPlayer.SelectCurrentVideo` | src/renderer/src/pages/courses/video-player.tsx:162-172 | An empty list keeps the earlier choice. Otherwise the choice is a video of the list. A requested path in the list selects a video with that path. With no request, or a request the list lacks, the first video is chosen. |
| `VideoPlayer.PickVideo` | src/renderer/src/pages/courses/video-player.tsx:162-172 | The selection step gives exactly the reference choice. |
| `VideoPlayer.BackMatchesSelection` | src/renderer/src/pages/courses/video-player.tsx:182-194 | The back route is the first three fields of the route a selection navigates to. |
| `VideoPlayer.VideoPlayerPage.constructor` | src/renderer/src/pages/courses/video-player.tsx:23-28 | The page starts with no items and no current video. |
| `VideoPlayer.VideoPlayerPage.LoadVideos` | src/renderer/src/pages/courses/video-player.tsx:71-177 | The requested video is loaded first. A failed sidebar load keeps the list. Otherwise the sorted playlist replaces it and the shown video is the reference selection. The sidebar holds only videos. |
| `VideoPlayer.VideoPlayerPage.HandleVideoSelect` | src/renderer/src/pages/courses/video-player.tsx:182-189 | Only a video item is selected and navigated to, within the current folder. Anything else changes nothing. |
| `VideoPlayer.VideoPlayerPage.HandleBack` | src/renderer/src/pages/courses/video-player.tsx:191-194 | Back leads under `/courses/`. When the encoded folder holds no `/`, the route splits into `""`, `courses` and the encoded current folder. |
| `CourseContentRouter.DeterminePageType` | src/renderer/src/pages/courses/course-content-router.tsx:17-103 | The effect decides exactly the reference page type. No root or path, a failed load, a direct video, or no folder gives `false`. Otherwise it is `true` iff some folder holds a folder, seen inline when the items came from the index or in the folder's loaded children. |
| `CourseContentRouter.ScanChildren` | src/renderer/src/pages/courses/course-content-router.tsx:63-88 | The second scan is `true` iff some folder's loaded children hold a folder. It skips folders whose load fails and stops at the first hit. |
| `CourseContentRouter.FailedFolderIsSkipped` | src/renderer/src/pages/courses/course-content-router.tsx:83-86 | A folder whose children fail to load does not change the answer. |
| `CourseContentRouter.ModulePageHasNestedFolder` | src/renderer/src/pages/courses/course-content-router.tsx:48-94 | A module page has a root and a path, loads, has no direct video, and has a folder whose inline or loaded children hold a folder. |
| `CourseContentRouter.RenderView` | src/renderer/src/pages/courses/course-content-router.tsx:108-121 | The skeleton shows iff pending or undecided. Otherwise the module view shows iff the decision is `true`. |
| `CourseModules.HandleBack` | src/renderer/src/pages/courses/course-modules.tsx:57-69 | With no root or at the root, back goes to `/courses`. Otherwise it goes to the parent's page when the parent is non-empty and starts with the root, else to `/courses`. |
| `CourseModules.BackMovesUp` | src/renderer/src/pages/courses/course-modules.tsx:57-69 | Back leads to `/courses` or to a strictly shorter prefix of the current path inside the root. |
| `CourseModules.BackFromChildOfRoot` | src/renderer/src/pages/courses/course-modules.tsx:57-65 | Back from a folder directly below the root leads to the root's page. |
| `CourseModules.HandleItemClick` | src/renderer/src/pages/courses/course-modules.tsx:50-55 | A click navigates iff the item is a folder, to its page. |
| `CourseModules.ItemCountLabel` | src/renderer/src/pages/courses/course-modules.tsx:104-119 | `Pasta` iff there are no inline children. Otherwise the label is the count's digits, which read back as the count, then ` item`, and a final `s` iff the count exceeds 1. |
| `CourseModule.FolderClickOpensFirstVideo` | src/renderer/src/pages/courses/course-module.tsx:116-122 | A folder click with videos among the children opens a direct video child preceded only by folders. |
| `CourseModule.SubmoduleTarget` | src/renderer/src/pages/courses/course-module.tsx:96-137 | A video plays within the current path. A folder whose children fail to load, or hold no direct video, leads to its own course page. |
| `CourseModule.CourseModulePage.constructor` | src/renderer/src/pages/courses/course-module.tsx:21-26 | The page starts with no items, nothing expanded and an empty cache, for the given current path and root. |
| `CourseModule.CourseModulePage.ListedModules` | src/renderer/src/pages/courses/course-module.tsx:215-216 | The listed modules are exactly the page's folder items: each is a folder item of the page, every folder item is listed, and there are as many as the direct folder count. |
| `CourseModule.CourseModulePage.LoadModuleContent` | src/renderer/src/pages/courses/course-module.tsx:29-58 | The page's items become the reference load. The expanded set and the cache are unchanged. |
| `CourseModule.CourseModulePage.HandleToggleModule` | src/renderer/src/pages/courses/course-module.tsx:60-94 | Opening adds the path to the expanded set and closing removes it, leaving other members. Only an opening with nothing cached loads, and it stores a successful load under that path. |
| `CourseModule.CourseModulePage.HandleSubmoduleClick` | src/renderer/src/pages/courses/course-module.tsx:96-137 | A folder goes to its first direct video with itself as course, or to its own page without one or on failure. A video plays within the current path. |
| `CourseSubmodule.LessonsLabel` | src/renderer/src/pages/courses/course-submodule.tsx:154-174 | `Folder` iff the card shows no children. Otherwise the label is the count's digits, which read back as the count, followed by ` lessons`. |
| `CourseSubmodule.LessonClick` | src/renderer/src/pages/courses/course-submodule.tsx:95-99 | A row navigates iff it is a video, to that video within the current folder. |
| `CourseSubmodule.CourseSubmodulePage.constructor` | src/renderer/src/pages/courses/course-submodule.tsx:20-25 | The page starts with no items, nothing expanded and an empty cache, for the given current path and root. |
| `CourseSubmodule.CourseSubmodulePage.LoadCourseContent` | src/renderer/src/pages/courses/course-submodule.tsx:28-57 | The page's items become the reference load. The expanded set and the cache are unchanged. |
| `CourseSubmodule.CourseSubmodulePage.HandleToggleSubmodule` | src/renderer/src/pages/courses/course-submodule.tsx:59-93 | Opening adds the path and closing removes it. Only an opening with nothing cached loads, with durations requested, and stores a successful load under that path. |
| `Agreement.CountsAgree` | src/main/workers/course-indexer.ts:39-52 | On the same tree the worker's counts equal the analyzer's totals, and the player collects exactly that many videos, all video nodes. |

## Left out

- React rendering, hooks, transitions, skeleton markup, styling and icons. Only the decisions the pages make are modelled.
- The `window.api` presence checks in the pages are taken to succeed. The bridge's `getIndexedFolder` is an arbitrary lookup, although `src/main/ipc/handlers.ts` registers no handler for it.
- Filesystem access, `file-type` sniffing and `get-video-duration` are fields of the filesystem tree. `Promise.all` parallelism is not modelled: entries are processed in listing order, which gives the same output because results are mapped, then filtered.
- Worker threads and message passing are sequential method calls on the job table. The timestamp-and-random job id is a parameter assumed unused.
- `saveCourseIndex`, called when a job completes, is kept as a log of calls. The persistence layer and its schema are not part of this model.
- `encodeURIComponent`, `decodeURIComponent` and `stat` in the stream handler are parameters. `path.normalize` before the extension lookup is not modelled: the extension is taken from the decoded path's basename.
- The stream body of a 200 answer (`createReadStream`) and the console logging are left out.
- The `localeCompare` natural sort of the playlist is a parameter, assumed only to permute its input.
- `Duration.FormatDuration`: durations are whole seconds, so fractional seconds (0.5 s renders as `0:00`) are not covered.
- `FileProcessor.JoinPath`: plain concatenation with one `/`. This equals `path.join` only for a root already in normal form (no trailing `/`, no empty, `.` or `..` segment); the normalisation of other roots is not modelled.
- `CourseIndexer.OnMessage`: the walk's outcome is a parameter. In the code the walker catches every error and returns an empty list (file-processor.ts lines 59-62), so the walk itself never throws. The `Threw` outcome is kept for the worker's catch branch, which the walk alone cannot reach.
- `Text.ToLower`: lower-cases ASCII letters only. Full Unicode case mapping is not modelled.
- `StructureAnalyzer.GetFolderTypeForPath`: `path.relative` is modelled on `/`-separated segments only, without resolution against the working directory and without `.` or `..` inside the inputs.
