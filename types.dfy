/** The record shapes and constants shared by the main process and the pages:
    the FolderItem tree node, the extension allow-list, the minimum video size
    and the hidden-file prefix, and the analysis records of the structure
    analyzer. */
module Types {
  import Text

  datatype Option<T> = None | Some(value: T)

  /** A node is a folder or a video. */
  datatype ItemType = Folder | Video

  /** The optional `contents` field of a FolderItem. It is its own type rather
      than an Option of a sequence so that recursion into it is well-founded. */
  datatype Contents = Absent | Present(items: seq<FolderItem>)

  /** A tree node: display name, absolute path, kind, the children of a folder
      (when listed) and the duration of a video in whole seconds (when probed). */
  datatype FolderItem = FolderItem(
    name: string,
    path: string,
    itemType: ItemType,
    contents: Contents,
    duration: Option<nat>)

  /** The container extensions the walker accepts, lower-case with the dot. */
  const VideoExtensions: seq<string> := [".mp4", ".mkv", ".avi", ".mov", ".wmv", ".flv", ".webm"]

  /** A file must be strictly larger than this many bytes to be probed. */
  const MinVideoSizeBytes: nat := 102400

  /** Entries whose name starts with this are skipped (AppleDouble files). */
  const HiddenFilePrefix: string := "._"

  /** Every allowed extension is a dot followed by lower-case letters and
      digits, so comparing a lower-cased extension against the list ignores case. */
  lemma VideoExtensionsAreLowerCase()
    ensures |VideoExtensions| == 7
    ensures forall k :: 0 <= k < |VideoExtensions| ==>
      |VideoExtensions[k]| >= 2 && VideoExtensions[k][0] == '.' &&
      Text.ToLower(VideoExtensions[k]) == VideoExtensions[k]
  {
    forall k | 0 <= k < |VideoExtensions|
      ensures Text.ToLower(VideoExtensions[k]) == VideoExtensions[k]
    {
      var e := VideoExtensions[k];
      assert forall i :: 0 <= i < |e| ==> !('A' <= e[i] <= 'Z');
    }
  }

  /** The hidden prefix is "._", so an ordinary dotfile is not hidden. */
  lemma HiddenPrefixIsDotUnderscore()
    ensures HiddenFilePrefix == ['.', '_']
    ensures !Text.StartsWith(".mp4", HiddenFilePrefix)
    ensures Text.StartsWith("._clip.mp4", HiddenFilePrefix)
  {
    assert ".mp4"[1] != HiddenFilePrefix[1];
  }

  /** Classification of a directory level. */
  datatype FolderType = Course | Module | Lesson

  /** One analysed folder: its level below the root, its class, and the
      counts of its immediate children. */
  datatype FolderLevelInfo = FolderLevelInfo(
    level: nat,
    folderType: FolderType,
    path: string,
    name: string,
    hasVideos: bool,
    hasSubfolders: bool,
    videoCount: nat,
    subfolderCount: nat)

  /** The result of analysing a FolderItem tree. */
  datatype FolderStructureInfo = FolderStructureInfo(
    maxDepth: nat,
    videoDepth: nat,
    totalFolders: nat,
    totalVideos: nat,
    structure: seq<FolderLevelInfo>)
}
